/** cogs/matchmaker.py: setting up a match. `/match create-test` checks its
    players for duplicates and registration, lets its author pick a mode and
    a host, and then `create_match` puts every player on a short queue
    cooldown, takes their queue groups off the market and asks each of them
    to accept. Chat events and the players' accept answers are inputs. */
module Matchmaker {
  import opened Store
  import Registration

  /** A guild member as the commands see one; equality of members is
      equality of their ids. */
  datatype Member = Member(id: int, name: string)

  // ---------------------------------------------------------------------
  // Duplicate players

  /** Two positions of `players` hold the same member. */
  predicate HasRepeat(players: seq<Member>) {
    exists i, k :: 0 <= i < k < |players| && players[i].id == players[k].id
  }

  /** The order the nested loops visit pairs in: by first index, then by
      second. */
  predicate PairBefore(p: (nat, nat), q: (nat, nat)) {
    p.0 < q.0 || (p.0 == q.0 && p.1 < q.1)
  }

  /** The pairwise check of create_test: reports a duplicate iff two
      positions hold the same member. `compared` lists the pairs it looked
      at, each pair (i, k) with i < k once and in loop order; when it finds
      no duplicate it has looked at every pair. */
  method HasDuplicate(players: seq<Member>) returns (duplicate: bool, ghost compared: seq<(nat, nat)>)
    ensures duplicate <==> HasRepeat(players)
    ensures forall t :: 0 <= t < |compared| ==> compared[t].0 < compared[t].1 < |players|
    ensures forall s, t :: 0 <= s < t < |compared| ==> PairBefore(compared[s], compared[t])
    ensures !duplicate ==> forall i, k :: 0 <= i < k < |players| ==> (i, k) in compared
  {
    var n := |players|;
    compared := [];
    for i := 0 to n
      invariant forall a, b :: 0 <= a < i && a < b < n ==> players[a].id != players[b].id
      invariant forall a, b :: 0 <= a < i && a < b < n ==> (a, b) in compared
      invariant forall t :: 0 <= t < |compared| ==> compared[t].0 < i && compared[t].0 < compared[t].1 < n
      invariant forall s, t :: 0 <= s < t < |compared| ==> PairBefore(compared[s], compared[t])
    {
      for j := 0 to n - (i + 1)
        invariant forall a, b :: 0 <= a < i && a < b < n ==> players[a].id != players[b].id
        invariant forall b :: i < b < i + 1 + j ==> players[i].id != players[b].id
        invariant forall a, b :: 0 <= a < i && a < b < n ==> (a, b) in compared
        invariant forall b :: i < b < i + 1 + j ==> (i, b) in compared
        invariant forall t :: 0 <= t < |compared| ==>
          (compared[t].0 < i || (compared[t].0 == i && compared[t].1 < i + 1 + j)) && compared[t].0 < compared[t].1 < n
        invariant forall s, t :: 0 <= s < t < |compared| ==> PairBefore(compared[s], compared[t])
      {
        compared := compared + [(i, j + i + 1)];
        if players[i].id == players[j + i + 1].id {
          return true, compared;
        }
      }
    }
    return false, compared;
  }

  // ---------------------------------------------------------------------
  // Choosing the mode and the host

  /** The three components of the create_test message. */
  datatype Component = SetMode(mode: string) | SetHost(host: int) | StartGame

  /** What one wait for a component gives: the 60-second timeout, or a use
      of a component by some member. */
  datatype Interaction = Timeout | Use(author: int, component: Component)

  datatype Choices = Choices(mode: Option<string>, host: Option<int>)

  const NoChoices := Choices(None, None)

  /** How the selection loop ends, or where it stands once the events run
      out. */
  datatype Selection = Selected(mode: string, host: int) | Abandoned | Waiting(choices: Choices)

  /** A component use by the author: a choice replaces the earlier one. */
  function Choose(c: Choices, comp: Component): Choices {
    match comp
    case SetMode(m) => c.(mode := Some(m))
    case SetHost(h) => c.(host := Some(h))
    case StartGame => c
  }

  /** The selection loop over `events` from the choices `c`: uses by anyone
      but the author are refused, a start is refused until a mode and a host
      are chosen, and a timeout ends the loop. */
  function Run(author: int, events: seq<Interaction>, c: Choices): Selection
    decreases |events|
  {
    if events == [] then Waiting(c)
    else match events[0]
      case Timeout => Abandoned
      case Use(a, comp) =>
        if a != author then Run(author, events[1..], c)
        else if comp == StartGame && c.mode.Some? && c.host.Some? then Selected(c.mode.value, c.host.value)
        else Run(author, events[1..], Choose(c, comp))
  }

  /** The author's choices after `events`, ignoring everyone else. */
  function Latest(author: int, events: seq<Interaction>, c: Choices): Choices
    decreases |events|
  {
    if events == [] then c
    else
      var c' := if events[0].Use? && events[0].author == author then Choose(c, events[0].component) else c;
      Latest(author, events[1..], c')
  }

  /** The events without the uses by other members. */
  function OwnEvents(author: int, events: seq<Interaction>): (r: seq<Interaction>)
    ensures |r| <= |events|
    ensures forall t :: 0 <= t < |r| ==> r[t].Timeout? || r[t].author == author
    decreases |events|
  {
    if events == [] then []
    else if events[0].Use? && events[0].author != author then OwnEvents(author, events[1..])
    else [events[0]] + OwnEvents(author, events[1..])
  }

  /** create_test's loop: asks for components until the author starts the
      game with a mode and a host chosen, or until a timeout. */
  method SelectModeAndHost(author: int, events: seq<Interaction>) returns (s: Selection)
    ensures s == Run(author, events, NoChoices)
  {
    var mode: Option<string> := None;
    var host: Option<int> := None;
    var i := 0;
    while i < |events|
      invariant 0 <= i <= |events|
      invariant Run(author, events[i..], Choices(mode, host)) == Run(author, events, NoChoices)
      decreases |events| - i
    {
      assert events[i..][1..] == events[i + 1..];
      match events[i]
      case Timeout =>
        return Abandoned;
      case Use(a, comp) =>
        if a != author {
          i := i + 1;
          continue;
        }
        match comp {
          case SetMode(m) =>
            mode := Some(m);
          case SetHost(h) =>
            host := Some(h);
          case StartGame =>
            if mode.Some? && host.Some? {
              return Selected(mode.value, host.value);
            }
        }
        i := i + 1;
    }
    assert events[i..] == [];
    return Waiting(Choices(mode, host));
  }

  /** Uses by members other than the author change nothing. */
  lemma {:induction false} ForeignUsesIgnored(author: int, events: seq<Interaction>, c: Choices)
    ensures Run(author, events, c) == Run(author, OwnEvents(author, events), c)
    decreases |events|
  {
    if events != [] {
      ForeignUsesIgnored(author, events[1..], c);
      ForeignUsesIgnored(author, events[1..], Choose(c, if events[0].Use? then events[0].component else StartGame));
      var own := OwnEvents(author, events);
      if !(events[0].Use? && events[0].author != author) {
        assert own[1..] == OwnEvents(author, events[1..]);
      }
    }
  }

  /** The events `mid` neither end the loop nor start the game: no timeout
      and no `start_game` by the author. */
  predicate Uneventful(author: int, mid: seq<Interaction>) {
    forall j :: 0 <= j < |mid| ==> mid[j] != Timeout && mid[j] != Use(author, StartGame)
  }

  /** Two choice states that agree on everything a later `second` choice
      does not overwrite stay interchangeable through uneventful events
      up to that choice. */
  lemma {:induction false} OverwrittenChoice(author: int, mid: seq<Interaction>, second: Component,
                                             rest: seq<Interaction>, c: Choices, d: Choices)
    requires (second.SetMode? && c.host == d.host) || (second.SetHost? && c.mode == d.mode)
    requires Uneventful(author, mid)
    ensures Run(author, mid + [Use(author, second)] + rest, c) == Run(author, mid + [Use(author, second)] + rest, d)
    decreases |mid|
  {
    var evs := mid + [Use(author, second)] + rest;
    if mid == [] {
      assert evs == [Use(author, second)] + rest;
      assert evs[1..] == rest;
      assert Choose(c, second) == Choose(d, second);
    } else {
      assert evs[0] == mid[0];
      assert evs[1..] == mid[1..] + [Use(author, second)] + rest;
      assert Uneventful(author, mid[1..]) by {
        forall j | 0 <= j < |mid[1..]| ensures mid[1..][j] != Timeout && mid[1..][j] != Use(author, StartGame) {
          assert mid[1..][j] == mid[j + 1];
        }
      }
      assert mid[0] != Timeout && mid[0] != Use(author, StartGame);
      var comp := mid[0].component;
      if mid[0].author != author {
        OverwrittenChoice(author, mid[1..], second, rest, c, d);
      } else {
        OverwrittenChoice(author, mid[1..], second, rest, Choose(c, comp), Choose(d, comp));
      }
    }
  }

  /** A later choice of mode, or of host, replaces the earlier one, whatever
      happens in between short of a timeout or a start. */
  lemma {:induction false} LaterChoiceWins(author: int, first: Component, mid: seq<Interaction>, second: Component,
                                           rest: seq<Interaction>, c: Choices)
    requires (first.SetMode? && second.SetMode?) || (first.SetHost? && second.SetHost?)
    requires Uneventful(author, mid)
    ensures Run(author, [Use(author, first)] + mid + [Use(author, second)] + rest, c)
         == Run(author, mid + [Use(author, second)] + rest, c)
  {
    var evs := [Use(author, first)] + mid + [Use(author, second)] + rest;
    assert evs[1..] == mid + [Use(author, second)] + rest;
    OverwrittenChoice(author, mid, second, rest, Choose(c, first), c);
  }

  /** A start without a mode or without a host is refused and the loop
      goes on with the same choices. */
  lemma StartNeedsBoth(author: int, rest: seq<Interaction>, c: Choices)
    requires c.mode.None? || c.host.None?
    ensures Run(author, [Use(author, StartGame)] + rest, c) == Run(author, rest, c)
  {
    assert ([Use(author, StartGame)] + rest)[1..] == rest;
  }

  /** A match is started only by the author's start, before any timeout,
      and with the mode and host the author chose last. */
  lemma {:induction false} SelectedAfterStart(author: int, events: seq<Interaction>, c: Choices, m: string, h: int)
    requires Run(author, events, c) == Selected(m, h)
    ensures exists i ::
      && 0 <= i < |events| && events[i] == Use(author, StartGame)
      && (forall j :: 0 <= j < i ==> !events[j].Timeout?)
      && Latest(author, events[..i], c) == Choices(Some(m), Some(h))
    decreases |events|
  {
    var e := events[0];
    if e.Use? && e.author == author && e.component == StartGame && c.mode.Some? && c.host.Some? {
      assert events[..0] == [];
    } else {
      var c' := if e.Use? && e.author == author then Choose(c, e.component) else c;
      SelectedAfterStart(author, events[1..], c', m, h);
      var i :| 0 <= i < |events[1..]| && events[1..][i] == Use(author, StartGame) &&
        (forall j :: 0 <= j < i ==> !events[1..][j].Timeout?) &&
        Latest(author, events[1..][..i], c') == Choices(Some(m), Some(h));
      assert events[..i + 1][1..] == events[1..][..i];
      assert Latest(author, events[..i + 1], c) == Choices(Some(m), Some(h));
      assert forall j :: 0 <= j < i + 1 ==> !events[j].Timeout? by {
        forall j | 0 <= j < i + 1
          ensures !events[j].Timeout?
        {
          if j > 0 {
            assert events[j] == events[1..][j - 1];
          }
        }
      }
    }
  }

  /** The loop is abandoned only after a timeout. */
  lemma {:induction false} AbandonedAfterTimeout(author: int, events: seq<Interaction>, c: Choices)
    requires Run(author, events, c) == Abandoned
    ensures Timeout in events
    decreases |events|
  {
    if events[0] != Timeout {
      var c' := if events[0].Use? && events[0].author == author then Choose(c, events[0].component) else c;
      AbandonedAfterTimeout(author, events[1..], c');
      assert Timeout in events[1..];
    }
  }

  // ---------------------------------------------------------------------
  // Host preference emoji

  datatype Emoji = RedCircle | YellowCircle | GreenCircle

  /** The emoji list of create_test, from bad to good. */
  const HostPalette: seq<Emoji> := [RedCircle, YellowCircle, GreenCircle]

  /** Python list indexing: a negative index counts from the end; an index
      out of range raises, shown as None. */
  function PyIndex<T>(s: seq<T>, i: int): (r: Option<T>)
    ensures r.Some? <==> -|s| <= i < |s|
    ensures r.Some? && 0 <= i ==> r.value == s[i]
    ensures r.Some? && i < 0 ==> r.value == s[|s| + i]
  {
    if 0 <= i < |s| then Some(s[i])
    else if -|s| <= i < 0 then Some(s[|s| + i])
    else None
  }

  function HostEmoji(hostPref: int): Option<Emoji> {
    PyIndex(HostPalette, hostPref)
  }

  /** Every preference the registration form can store picks an emoji, and
      the colours match the self-rating: "1" (host whenever possible) is
      green, "2" yellow and "3" (never host) red. */
  lemma RegisteredPrefHasEmoji(choice: string)
    requires Registration.HostPref(choice).Some?
    ensures HostEmoji(Registration.HostPref(choice).value).Some?
    ensures choice == "1" ==> HostEmoji(Registration.HostPref(choice).value) == Some(GreenCircle)
    ensures choice == "2" ==> HostEmoji(Registration.HostPref(choice).value) == Some(YellowCircle)
    ensures choice == "3" ==> HostEmoji(Registration.HostPref(choice).value) == Some(RedCircle)
  {
  }

  // ---------------------------------------------------------------------
  // create_match

  /** The seconds a player is kept from queueing again. */
  const CooldownSeconds: int := 25

  function IdsOf(players: seq<Member>): set<int> {
    set k | 0 <= k < |players| :: players[k].id
  }

  /** The users table after every listed player's queue_disable_time is set
      to `until`; unlisted ids and ids without a row are untouched. */
  function Cooldown(users: map<int, UserRow>, ids: set<int>, until: int): (r: map<int, UserRow>)
    ensures r.Keys == users.Keys
  {
    map u | u in users :: if u in ids then users[u].(queueDisableTime := Some(until)) else users[u]
  }

  /** The group contains one of `ids`. */
  predicate InGroup(row: QueueRow, ids: set<int>) {
    exists t :: 0 <= t < |row.playerIds| && row.playerIds[t] in ids
  }

  /** `UPDATE queue SET available = false WHERE <id> = ANY (player_ids) AND
      available = true`, for every id in `ids`. */
  function HoldRow(row: QueueRow, ids: set<int>): QueueRow {
    if row.available && InGroup(row, ids) then row.(available := false) else row
  }

  function Hold(queue: seq<QueueRow>, ids: set<int>): (r: seq<QueueRow>)
    ensures |r| == |queue|
  {
    seq(|queue|, k requires 0 <= k < |queue| => HoldRow(queue[k], ids))
  }

  /** The queue after `create_match`: a group is available afterwards iff it
      was before and holds none of the players; nothing else about a group
      changes. */
  lemma HoldRows(queue: seq<QueueRow>, ids: set<int>, k: nat)
    requires k < |queue|
    ensures Hold(queue, ids)[k].available <==> queue[k].available && !InGroup(queue[k], ids)
    ensures Hold(queue, ids)[k].playerIds == queue[k].playerIds && Hold(queue, ids)[k].mode == queue[k].mode
  {
  }

  lemma IdsOfStep(players: seq<Member>, j: nat)
    requires j < |players|
    ensures IdsOf(players[..j + 1]) == IdsOf(players[..j]) + {players[j].id}
  {
    var a, b := players[..j + 1], players[..j];
    forall x | x in IdsOf(a)
      ensures x in IdsOf(b) + {players[j].id}
    {
      var k :| 0 <= k < |a| && a[k].id == x;
      if k < j {
        assert b[k].id == x;
      }
    }
    forall x | x in IdsOf(b) + {players[j].id}
      ensures x in IdsOf(a)
    {
      if x == players[j].id {
        assert a[j].id == x;
      } else {
        var k :| 0 <= k < |b| && b[k].id == x;
        assert a[k].id == x;
      }
    }
  }

  lemma HoldStep(queue: seq<QueueRow>, ids: set<int>, id: int)
    ensures Hold(Hold(queue, ids), {id}) == Hold(queue, ids + {id})
  {
    forall k | 0 <= k < |queue|
      ensures Hold(Hold(queue, ids), {id})[k] == Hold(queue, ids + {id})[k]
    {
      var row := queue[k];
      if InGroup(row, {id}) {
        var t :| 0 <= t < |row.playerIds| && row.playerIds[t] in {id};
        assert row.playerIds[t] in ids + {id};
      }
      if InGroup(row, ids + {id}) && !InGroup(row, ids) {
        var t :| 0 <= t < |row.playerIds| && row.playerIds[t] in ids + {id};
        assert row.playerIds[t] in {id};
      }
      if InGroup(row, ids) {
        var t :| 0 <= t < |row.playerIds| && row.playerIds[t] in ids;
        assert row.playerIds[t] in ids + {id};
      }
    }
  }

  /** `UPDATE users SET queue_disable_time = until WHERE user_id = id`. */
  method CoolDownPlayer(db: Database, id: int, until: int)
    modifies db`users
    ensures db.users == Cooldown(old(db.users), {id}, until)
  {
    if id in db.users {
      db.users := db.users[id := db.users[id].(queueDisableTime := Some(until))];
    }
  }

  /** The queue UPDATE for one player, row by row. */
  method HoldGroups(db: Database, id: int)
    modifies db`queue
    ensures db.queue == Hold(old(db.queue), {id})
  {
    ghost var q0 := db.queue;
    for k := 0 to |db.queue|
      invariant |db.queue| == |q0|
      invariant forall t :: 0 <= t < k ==> db.queue[t] == HoldRow(q0[t], {id})
      invariant forall t :: k <= t < |q0| ==> db.queue[t] == q0[t]
    {
      var row := db.queue[k];
      if row.available && id in row.playerIds {
        db.queue := db.queue[k := row.(available := false)];
      }
      assert InGroup(row, {id}) <==> id in row.playerIds by {
        if id in row.playerIds {
          var t :| 0 <= t < |row.playerIds| && row.playerIds[t] == id;
          assert row.playerIds[t] in {id};
        }
      }
    }
  }

  /** create_match: every player is kept from queueing for 25 seconds from
      `now` and their groups are made unavailable; then every player is asked
      to accept, `accepted[k]` being player k's answer. The result says
      whether all of them accepted. */
  method CreateMatch(db: Database, players: seq<Member>, accepted: seq<bool>, now: int) returns (allReady: bool)
    requires |accepted| == |players|
    modifies db`users, db`queue
    ensures db.users == Cooldown(old(db.users), IdsOf(players), now + CooldownSeconds)
    ensures db.queue == Hold(old(db.queue), IdsOf(players))
    ensures allReady <==> forall k :: 0 <= k < |accepted| ==> accepted[k]
  {
    ghost var u0, q0 := db.users, db.queue;
    var until := now + CooldownSeconds;
    assert players[..0] == [];
    assert Hold(q0, {}) == q0;
    for j := 0 to |players|
      invariant db.users == Cooldown(u0, IdsOf(players[..j]), until)
      invariant db.queue == Hold(q0, IdsOf(players[..j]))
    {
      ghost var u1 := db.users;
      CoolDownPlayer(db, players[j].id, until);
      HoldGroups(db, players[j].id);
      IdsOfStep(players, j);
      HoldStep(q0, IdsOf(players[..j]), players[j].id);
      assert db.users == Cooldown(u0, IdsOf(players[..j + 1]), until);
    }
    assert players[..|players|] == players;
    allReady := !(false in accepted);
  }

  /** create_match's grab_player: the first player with the given id, or
      none. */
  method GrabPlayer(players: seq<Member>, id: int) returns (p: Option<Member>)
    ensures p.None? <==> forall k :: 0 <= k < |players| ==> players[k].id != id
    ensures p.Some? ==> exists k :: 0 <= k < |players| && players[k] == p.value && p.value.id == id &&
                                    forall j :: 0 <= j < k ==> players[j].id != id
  {
    for k := 0 to |players|
      invariant forall j :: 0 <= j < k ==> players[j].id != id
    {
      if players[k].id == id {
        return Some(players[k]);
      }
    }
    return None;
  }

  // ---------------------------------------------------------------------
  // create_test

  /** How `/match create-test` ends. */
  datatype TestOutcome =
    | DuplicatePlayers
    | NotRegistered(player: Member)      // the command stops at the host lookup
    | BadHostPref                        // a stored preference picks no emoji
    | TimedOut
    | StillWaiting(choices: Choices)     // the events ran out before the loop ended
    | MatchStarted(mode: string, host: int, allReady: bool)

  /** The command's decision for its two players. */
  function CreateTestOutcome(users: map<int, UserRow>, author: int, player1: Member, player2: Member,
                             events: seq<Interaction>, accepted: seq<bool>): TestOutcome
    requires |accepted| == 2
  {
    if player1.id == player2.id then DuplicatePlayers
    else if player1.id !in users then NotRegistered(player1)
    else if player2.id !in users then NotRegistered(player2)
    else if HostEmoji(users[player1.id].hostPref).None? || HostEmoji(users[player2.id].hostPref).None? then BadHostPref
    else match Run(author, events, NoChoices)
      case Abandoned => TimedOut
      case Waiting(c) => StillWaiting(c)
      case Selected(m, h) => MatchStarted(m, h, accepted[0] && accepted[1])
  }

  /** create_test: `events` are the component uses on its message and
      `accepted` the two players' answers to the ready check. Only a started
      match touches the database. */
  method CreateTest(db: Database, author: int, player1: Member, player2: Member, events: seq<Interaction>,
                    accepted: seq<bool>, now: int)
    returns (outcome: TestOutcome)
    requires |accepted| == 2
    modifies db`users, db`queue
    ensures outcome == CreateTestOutcome(old(db.users), author, player1, player2, events, accepted)
    ensures db.users == if outcome.MatchStarted?
                        then Cooldown(old(db.users), {player1.id, player2.id}, now + CooldownSeconds)
                        else old(db.users)
    ensures db.queue == if outcome.MatchStarted? then Hold(old(db.queue), {player1.id, player2.id})
                        else old(db.queue)
  {
    var players := [player1, player2];
    assert players[0] == player1 && players[1] == player2;
    var duplicate, compared := HasDuplicate(players);
    if duplicate {
      return DuplicatePlayers;
    }
    assert !(players[0].id == players[1].id);
    for i := 0 to |players|
      invariant forall t :: 0 <= t < i ==> players[t].id in db.users
    {
      if players[i].id !in db.users {
        return NotRegistered(players[i]);
      }
    }
    for i := 0 to |players|
      invariant forall t :: 0 <= t < i ==> HostEmoji(db.users[players[t].id].hostPref).Some?
    {
      if HostEmoji(db.users[players[i].id].hostPref).None? {
        return BadHostPref;
      }
    }
    var selection := SelectModeAndHost(author, events);
    match selection
    case Abandoned =>
      return TimedOut;
    case Waiting(c) =>
      return StillWaiting(c);
    case Selected(m, h) =>
      var allReady := CreateMatch(db, players, accepted, now);
      assert IdsOf(players) == {player1.id, player2.id} by {
        assert players[0] == player1 && players[1] == player2;
      }
      return MatchStarted(m, h, allReady);
  }
}
