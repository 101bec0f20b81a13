/** cogs/modes.py: the board of mode messages in the `modes` channel and the
    replies to its buttons. Every mode gets one message with a join button
    (and, when the button is green, a leave button); below them sits one
    info message. A button's custom id carries the mode's internal name. */
module ModeBoard {
  import opened Store

  // ---------------------------------------------------------------------
  // Button ids

  function JoinId(internalName: string): string {
    "mode_join_" + internalName
  }

  function LeaveId(internalName: string): string {
    "mode_leave_" + internalName
  }

  /** Python's `s[:n]` for n >= 0: the slice is clipped to the string. */
  function Take(s: string, n: nat): (r: string)
    ensures |r| == if n <= |s| then n else |s|
    ensures r <= s
  {
    if n <= |s| then s[..n] else s
  }

  /** Python's `s[n:]` for n >= 0. */
  function Drop(s: string, n: nat): (r: string)
    ensures |r| == if n <= |s| then |s| - n else 0
    ensures Take(s, n) + r == s
  {
    if n <= |s| then s[n..] else []
  }

  /** How `on_component` reads a custom id. */
  datatype Press = JoinPress(name: string) | LeavePress(name: string) | OtherPress

  /** The join branch takes every id that starts with `mode_join` and drops
      ten characters; the leave branch, tried second, takes every id that
      starts with `mode_leave` and drops eleven. */
  function Decode(customId: string): (r: Press)
    ensures r.JoinPress? <==> |customId| >= 9 && customId[..9] == "mode_join"
    ensures r.LeavePress? <==> !r.JoinPress? && |customId| >= 10 && customId[..10] == "mode_leave"
    ensures r.JoinPress? ==> Take(customId, 10) + r.name == customId
    ensures r.LeavePress? ==> Take(customId, 11) + r.name == customId
  {
    if Take(customId, 9) == "mode_join" then JoinPress(Drop(customId, 10))
    else if Take(customId, 10) == "mode_leave" then LeavePress(Drop(customId, 11))
    else OtherPress
  }

  /** A join button's id reads back as a join of exactly that mode. */
  lemma DecodeJoinId(internalName: string)
    ensures Decode(JoinId(internalName)) == JoinPress(internalName)
  {
    var id := JoinId(internalName);
    assert id[..9] == "mode_join";
    assert id[10..] == internalName;
  }

  /** A leave button's id reads back as a leave of exactly that mode; its
      first nine characters are `mode_leav`, so the join branch never
      takes it. */
  lemma DecodeLeaveId(internalName: string)
    ensures Take(LeaveId(internalName), 9) != "mode_join"
    ensures Decode(LeaveId(internalName)) == LeavePress(internalName)
  {
    var id := LeaveId(internalName);
    assert id[..9] == "mode_leav";
    assert id[8] != "mode_join"[8];
    assert id[..10] == "mode_leave";
    assert id[11..] == internalName;
  }

  /** The join branch does not check the tenth character: the ids that read
      as a join of `name` are `mode_join` followed by any one character and
      `name`, and, for the empty name only, `mode_join` itself. */
  lemma {:induction false} DecodeJoinExactly(customId: string, name: string)
    ensures Decode(customId) == JoinPress(name) <==>
      (exists c: char {:trigger "mode_join" + [c]} :: customId == "mode_join" + [c] + name) ||
      (customId == "mode_join" && name == [])
  {
    if Decode(customId) == JoinPress(name) && customId != "mode_join" {
      assert |customId| >= 10;
      var c := customId[9];
      assert customId == customId[..9] + [c] + customId[10..];
      assert customId == "mode_join" + [c] + name;
    }
    if exists c: char {:trigger "mode_join" + [c]} :: customId == "mode_join" + [c] + name {
      var c: char :| customId == "mode_join" + [c] + name;
      assert customId[..9] == "mode_join";
      assert customId[10..] == name;
    }
  }

  // ---------------------------------------------------------------------
  // Replies to a button press

  /** `SELECT ... FROM modes WHERE internal_name = $1` with `fetchrow`: the
      first row with that internal name, if any. */
  function FindMode(modes: seq<ModeRow>, internalName: string): (r: Option<ModeRow>)
    ensures r.Some? <==> exists k :: 0 <= k < |modes| && modes[k].internalName == internalName
    ensures r.Some? ==> r.value.internalName == internalName
    ensures r.Some? ==>
      exists k :: 0 <= k < |modes| && modes[k] == r.value &&
                  forall j :: 0 <= j < k ==> modes[j].internalName != internalName
    decreases |modes|
  {
    if modes == [] then None
    else if modes[0].internalName == internalName then Some(modes[0])
    else
      var r := FindMode(modes[1..], internalName);
      if r.Some? then
        var k :| 0 <= k < |modes[1..]| && modes[1..][k] == r.value &&
          forall j :: 0 <= j < k ==> modes[1..][j].internalName != internalName;
        assert modes[k + 1] == r.value;
        r
      else
        assert forall k :: 1 <= k < |modes| ==> modes[k] == modes[1..][k - 1];
        r
  }

  /** The hidden reply `on_component` sends, with the mode's display name. */
  datatype Reply =
    | ModeNotFound
    | JoinedQueue(modeName: string)
    | CurrentlyUnavailable(modeName: string)
    | TemporarilyUnavailable(modeName: string)
    | LeftQueue(modeName: string)
    | NoReply

  /** The answer to a join of a listed mode: the queue is joined exactly
      when the mode's join button is enabled. */
  function JoinReply(m: ModeRow): (r: Reply)
    ensures r.JoinedQueue? <==> !JoinButton(m).disabled
    ensures r.CurrentlyUnavailable? <==> JoinButton(m).style == Red
    ensures r.TemporarilyUnavailable? <==> JoinButton(m).disabled && JoinButton(m).style == Green
    ensures !r.ModeNotFound? && !r.LeftQueue? && !r.NoReply? && r.modeName == m.name
  {
    if m.status == 1 then JoinedQueue(m.name)
    else if m.status == 0 then CurrentlyUnavailable(m.name)
    else TemporarilyUnavailable(m.name)
  }

  /** `on_component`: the reply to a press of the button `customId`, given
      the modes table. */
  function OnComponent(customId: string, modes: seq<ModeRow>): (r: Reply)
    ensures r.NoReply? <==> Decode(customId).OtherPress?
    ensures r.ModeNotFound? <==> !Decode(customId).OtherPress? && FindMode(modes, Decode(customId).name).None?
    ensures r.LeftQueue? ==> Decode(customId).LeavePress?
    ensures Decode(customId).JoinPress? && FindMode(modes, Decode(customId).name).Some? ==>
      r == JoinReply(FindMode(modes, Decode(customId).name).value)
    ensures Decode(customId).LeavePress? && FindMode(modes, Decode(customId).name).Some? ==>
      r == LeftQueue(FindMode(modes, Decode(customId).name).value.name)
  {
    match Decode(customId)
    case JoinPress(n) =>
      (match FindMode(modes, n)
       case None => ModeNotFound
       case Some(m) => JoinReply(m))
    case LeavePress(n) =>
      (match FindMode(modes, n)
       case None => ModeNotFound
       case Some(m) => LeftQueue(m.name))
    case OtherPress => NoReply
  }

  /** Pressing the join button of a listed mode answers by its status: 1
      joins, 0 is currently unavailable, any other status is temporarily
      unavailable. */
  lemma JoinButtonReply(modes: seq<ModeRow>, k: nat)
    requires k < |modes|
    requires forall j :: 0 <= j < |modes| && j != k ==> modes[j].internalName != modes[k].internalName
    ensures var m := modes[k];
      OnComponent(JoinId(m.internalName), modes) ==
        if m.status == 1 then JoinedQueue(m.name)
        else if m.status == 0 then CurrentlyUnavailable(m.name)
        else TemporarilyUnavailable(m.name)
  {
    DecodeJoinId(modes[k].internalName);
  }

  /** Pressing the leave button of a listed mode always reports leaving. */
  lemma LeaveButtonReply(modes: seq<ModeRow>, k: nat)
    requires k < |modes|
    requires forall j :: 0 <= j < |modes| && j != k ==> modes[j].internalName != modes[k].internalName
    ensures OnComponent(LeaveId(modes[k].internalName), modes) == LeftQueue(modes[k].name)
  {
    DecodeLeaveId(modes[k].internalName);
  }

  /** A button of a mode that is no longer in the table gets "Mode not
      found!" and nothing else, from either branch. */
  lemma UnknownModeReply(modes: seq<ModeRow>, internalName: string)
    requires forall j :: 0 <= j < |modes| ==> modes[j].internalName != internalName
    ensures OnComponent(JoinId(internalName), modes) == ModeNotFound
    ensures OnComponent(LeaveId(internalName), modes) == ModeNotFound
  {
    DecodeJoinId(internalName);
    DecodeLeaveId(internalName);
  }

  // ---------------------------------------------------------------------
  // The messages of the board

  datatype Style = Red | Green | Blue

  datatype Button = Button(style: Style, text: string, customId: string, disabled: bool)

  /** A mode's message: its title, the names of its fields and its row of
      buttons. Descriptions and images are left out. */
  datatype Panel = Panel(title: string, fields: seq<string>, buttons: seq<Button>)

  /** The join button for a mode of the given status. */
  function JoinButton(m: ModeRow): (b: Button)
    ensures b.customId == JoinId(m.internalName)
    ensures b.disabled <==> m.status != 1
    ensures b.style == Red <==> m.status == 0
    ensures b.style == Red || b.style == Green
  {
    if m.status == 0 then Button(Red, "Currently Unavailable", JoinId(m.internalName), true)
    else if m.status == 1 then Button(Green, "Join Queue", JoinId(m.internalName), false)
    else Button(Green, "Temporarily Unavailable", JoinId(m.internalName), true)
  }

  function LeaveButton(m: ModeRow): Button {
    Button(Red, "Leave Queue", LeaveId(m.internalName), false)
  }

  /** The message written for one mode. */
  function ModePanel(m: ModeRow): Panel {
    var fields := if m.status == 1 || m.status == 2 then ["Searching", "In-game"] else [];
    var join := JoinButton(m);
    Panel(m.name, fields, if join.style == Green then [join, LeaveButton(m)] else [join])
  }

  /** The labels a mode's join button takes, status by status. */
  lemma JoinButtonByStatus(m: ModeRow)
    ensures m.status == 0 ==> JoinButton(m).text == "Currently Unavailable" && JoinButton(m).disabled
    ensures m.status == 1 ==> JoinButton(m).text == "Join Queue" && !JoinButton(m).disabled
    ensures m.status != 0 && m.status != 1 ==>
      JoinButton(m).text == "Temporarily Unavailable" && JoinButton(m).disabled && JoinButton(m).style == Green
  {
  }

  /** A mode's message carries the leave button iff its status is not 0, and
      the Searching and In-game fields iff its status is 1 or 2; so a status
      outside 0..2 shows a leave button but no fields. */
  lemma ModePanelShape(m: ModeRow)
    ensures |ModePanel(m).buttons| == (if m.status == 0 then 1 else 2)
    ensures ModePanel(m).buttons[0] == JoinButton(m)
    ensures |ModePanel(m).buttons| == 2 ==> ModePanel(m).buttons[1] == LeaveButton(m)
    ensures ModePanel(m).fields == if m.status == 1 || m.status == 2 then ["Searching", "In-game"] else []
    ensures ModePanel(m).title == m.name
  {
  }

  /** Every button on a mode's message reads back, in `on_component`, as a
      join or a leave of that same mode. */
  lemma ModePanelButtonsDecode(m: ModeRow, b: Button)
    requires b in ModePanel(m).buttons
    ensures Decode(b.customId) == JoinPress(m.internalName) || Decode(b.customId) == LeavePress(m.internalName)
  {
    DecodeJoinId(m.internalName);
    DecodeLeaveId(m.internalName);
  }

  /** The info message at the bottom of the board. */
  function InfoPanel(): Panel {
    Panel("Info", [], [Button(Blue, "View joined queues", "list_joined_modes", false),
                       Button(Red, "Leave all queues", "leave_all_modes", false)])
  }

  /** The info message's buttons are handled elsewhere: `on_component`
      reads neither as a join or a leave. */
  lemma InfoButtonsIgnored(modes: seq<ModeRow>, b: Button)
    requires b in InfoPanel().buttons
    ensures Decode(b.customId) == OtherPress
    ensures OnComponent(b.customId, modes) == NoReply
  {
    assert Take("list_joined_modes", 9) == "list_join";
    assert Take("list_joined_modes", 10) == "list_joine";
    assert Take("leave_all_modes", 9) == "leave_all";
    assert Take("leave_all_modes", 10) == "leave_all_";
  }

  // ---------------------------------------------------------------------
  // Reconciling the board

  /** A message of the channel: one that existed before the tick, or the
      n-th one the tick sent. */
  datatype Message = Existing(id: nat) | Sent(serial: nat)

  /** The channel history the tick fetches: the 100 newest messages, or all
      of them when there are fewer, newest first. */
  const HistoryLimit: nat := 100

  function Fetched(history: seq<Message>): (r: seq<Message>)
    ensures |r| == if |history| <= HistoryLimit then |history| else HistoryLimit
    ensures r <= history
    ensures |history| <= HistoryLimit ==> r == history
  {
    if |history| <= HistoryLimit then history else history[..HistoryLimit]
  }

  /** The messages sent when n are missing, each put at the front: the last
      one sent comes first. */
  function SentBatch(n: nat): (r: seq<Message>)
    ensures |r| == n
    ensures forall j :: 0 <= j < n ==> r[j] == Sent(n - 1 - j)
  {
    if n == 0 then [] else [Sent(n - 1)] + SentBatch(n - 1)
  }

  /** The surplus messages, in the order they are deleted: from the end of
      the list towards the front, down to index `keep`. */
  function Surplus(ms: seq<Message>, keep: nat): (r: seq<Message>)
    requires keep <= |ms|
    ensures |r| == |ms| - keep
    ensures forall j :: 0 <= j < |r| ==> r[j] == ms[|ms| - 1 - j]
  {
    seq(|ms| - keep, j requires 0 <= j < |ms| - keep => ms[|ms| - 1 - j])
  }

  /** One message edit: the target message and what it now shows. */
  datatype Edit = Edit(target: Message, panel: Panel)

  /** Sends `n` messages, each inserted at the front of `ms`. */
  method SendMissing(ms: seq<Message>, n: nat) returns (out: seq<Message>)
    ensures out == SentBatch(n) + ms
  {
    out := ms;
    for i := 0 to n
      invariant out == SentBatch(i) + ms
    {
      out := [Sent(i)] + out;
    }
  }

  /** Deletes the last message of `ms` until `keep` are left. */
  method DeleteSurplus(ms: seq<Message>, keep: nat) returns (out: seq<Message>, deleted: seq<Message>)
    requires keep <= |ms|
    ensures out == ms[..keep]
    ensures deleted == Surplus(ms, keep)
  {
    out := ms;
    deleted := [];
    for i := 0 to |ms| - keep
      invariant out == ms[..|ms| - i]
      invariant deleted == Surplus(ms, |ms| - i)
    {
      var index := |out| - 1;
      deleted := deleted + [out[index]];
      out := out[..index];
    }
  }

  /** The edits of the board: mode k into message k, counting with `i`,
      and the info panel into the message after the last mode. */
  method EditPanels(messages: seq<Message>, modes: seq<ModeRow>) returns (edits: seq<Edit>)
    requires |messages| == |modes| + 1
    ensures |edits| == |modes| + 1
    ensures forall k :: 0 <= k < |modes| ==> edits[k] == Edit(messages[k], ModePanel(modes[k]))
    ensures edits[|modes|] == Edit(messages[|modes|], InfoPanel())
  {
    edits := [];
    var i := 0;
    for k := 0 to |modes|
      invariant i == k
      invariant |edits| == k
      invariant forall j :: 0 <= j < k ==> edits[j] == Edit(messages[j], ModePanel(modes[j]))
    {
      edits := edits + [Edit(messages[i], ModePanel(modes[k]))];
      i := i + 1;
    }
    edits := edits + [Edit(messages[i], InfoPanel())];
  }

  /** update_modes: brings the fetched messages to exactly one per mode plus
      the info message, new ones at the front and surplus ones deleted from
      the end, and then edits mode k into message k and the info panel into
      the message after the last mode. */
  method UpdateModes(history: seq<Message>, modes: seq<ModeRow>)
    returns (messages: seq<Message>, deleted: seq<Message>, edits: seq<Edit>)
    ensures |messages| == |modes| + 1
    ensures var f := Fetched(history);
      if |f| <= |modes| + 1 then messages == SentBatch(|modes| + 1 - |f|) + f && deleted == []
      else messages == f[..|modes| + 1] && deleted == Surplus(f, |modes| + 1)
    ensures |edits| == |modes| + 1
    ensures forall k :: 0 <= k < |modes| ==> edits[k] == Edit(messages[k], ModePanel(modes[k]))
    ensures edits[|modes|] == Edit(messages[|modes|], InfoPanel())
  {
    messages := Fetched(history);
    var change := |modes| - |messages| + 1;
    deleted := [];
    if change > 0 {
      messages := SendMissing(messages, change);
    } else if change < 0 {
      messages, deleted := DeleteSurplus(messages, |modes| + 1);
    }
    edits := EditPanels(messages, modes);
  }
}
