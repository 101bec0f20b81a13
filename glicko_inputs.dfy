/** rating.py: turning a match tally into the three lists a Glicko-2 update
    consumes, and the "is this match worth playing" check over eight players
    (players 0-3 are team Alpha, 4-7 team Bravo). The glicko2 library's
    update is foreign and is passed in as a function. */
module GlickoInputs {

  /** The state of a glicko2 `Player`: rating, rating deviation, volatility. */
  datatype Glicko = Glicko(rating: real, rd: real, vol: real)

  /** `Player.update_player(ratings, rds, outcomes)` of the glicko2 library,
      as a function from the old state to the new one. */
  type Update = (Glicko, seq<real>, seq<real>, seq<int>) -> Glicko

  /** A negative repetition count gives an empty list in Python. */
  function Clip(n: int): nat { if n > 0 then n else 0 }

  /** Python's `[x] * n`. */
  function Repeat<T>(x: T, n: int): (r: seq<T>)
    ensures |r| == Clip(n)
    ensures forall k :: 0 <= k < |r| ==> r[k] == x
    decreases Clip(n)
  {
    if n <= 0 then [] else [x] + Repeat(x, n - 1)
  }

  /** Left-to-right sum, the order in which create_player accumulates. */
  function Sum(s: seq<real>): real {
    if s == [] then 0.0 else Sum(s[..|s| - 1]) + s[|s| - 1]
  }

  function Mean(s: seq<real>): real
    requires |s| > 0
  {
    Sum(s) / (|s| as real)
  }

  /** The outcome list `[1] * wins + [0] * losses`. */
  function Outcomes(wins: int, losses: int): seq<int> {
    Repeat(1, wins) + Repeat(0, losses)
  }

  /** The outcome list holds the wins as ones, then the losses as zeros:
      no win follows a loss. */
  lemma OutcomesWinsThenLosses(wins: int, losses: int)
    ensures |Outcomes(wins, losses)| == Clip(wins) + Clip(losses)
    ensures forall k :: 0 <= k < |Outcomes(wins, losses)| ==>
      Outcomes(wins, losses)[k] == if k < Clip(wins) then 1 else 0
    ensures forall j, k :: 0 <= j < k < |Outcomes(wins, losses)| && Outcomes(wins, losses)[j] == 0 ==>
      Outcomes(wins, losses)[k] == 0
  {
  }

  /** The three parallel lists create_player returns. */
  datatype Lists = Lists(ratings: seq<real>, rds: seq<real>, outcomes: seq<int>)

  /** create_player's result: `[r] * games`, `[rd] * games` and the outcome
      list, where r is the differential and rd the mean deviation (an empty
      `rdList` divides by zero in the source). */
  function PlayerLists(teammatesRating: real, opponentsRating: real, rdList: seq<real>, wins: int, losses: int)
    : Lists
    requires |rdList| > 0
  {
    var games := wins + losses;
    Lists(Repeat(opponentsRating - teammatesRating, games), Repeat(Mean(rdList), games), Outcomes(wins, losses))
  }

  /** One entry per game in each list: the rating entries are all the
      differential `opponentsRating - teammatesRating`, the deviation entries
      all the mean of `rdList`. */
  lemma PlayerListsShape(teammatesRating: real, opponentsRating: real, rdList: seq<real>, wins: int, losses: int)
    requires |rdList| > 0
    ensures var l := PlayerLists(teammatesRating, opponentsRating, rdList, wins, losses);
      && |l.ratings| == |l.rds| == Clip(wins + losses)
      && (wins >= 0 && losses >= 0 ==> |l.ratings| == |l.rds| == |l.outcomes| == wins + losses)
      && (forall k :: 0 <= k < |l.ratings| ==> l.ratings[k] == opponentsRating - teammatesRating)
      && (forall k :: 0 <= k < |l.rds| ==> l.rds[k] == Sum(rdList) / (|rdList| as real))
  {
    OutcomesWinsThenLosses(wins, losses);
  }

  /** create_player, with its accumulating loop for the mean deviation. */
  method CreatePlayer(teammatesRating: real, opponentsRating: real, rdList: seq<real>, wins: int, losses: int)
    returns (ratings: seq<real>, rds: seq<real>, outcomes: seq<int>)
    requires |rdList| > 0
    ensures Lists(ratings, rds, outcomes) == PlayerLists(teammatesRating, opponentsRating, rdList, wins, losses)
  {
    var r := opponentsRating - teammatesRating;
    var rd := 0.0;
    for k := 0 to |rdList|
      invariant rd == Sum(rdList[..k])
    {
      assert rdList[..k + 1][..k] == rdList[..k];
      rd := rd + rdList[k];
    }
    assert rdList[..|rdList|] == rdList;
    rd := rd / (|rdList| as real);
    var games := wins + losses;
    ratings, rds, outcomes := Repeat(r, games), Repeat(rd, games), Repeat(1, wins) + Repeat(0, losses);
  }

  /** The indices base, ..., base + count - 1 in order. */
  function Block(base: nat, count: nat): (r: seq<nat>)
    ensures |r| == count
    ensures forall k :: 0 <= k < |r| ==> r[k] == base + k
  {
    if count == 0 then [] else Block(base, count - 1) + [base + count - 1]
  }

  /** The indices base, ..., base + count - 1 in order, without `skip`. */
  function BlockExcept(base: nat, skip: nat, count: nat): (r: seq<nat>)
    ensures |r| == if base <= skip < base + count then count - 1 else count
    ensures forall x :: x in r <==> base <= x < base + count && x != skip
    ensures forall k :: 0 <= k < |r| ==> base <= r[k] < base + count
  {
    if count == 0 then []
    else BlockExcept(base, skip, count - 1) + (if base + count - 1 == skip then [] else [base + count - 1])
  }

  /** The first index of player i's team, `i // 4 * 4`. */
  function TeamBase(i: nat): (b: nat)
    requires i < 8
    ensures b == if i < 4 then 0 else 4
  {
    (i / 4) * 4
  }

  /** The first index of the other team, `(1 - i // 4) * 4`. */
  function OtherBase(i: nat): (b: nat)
    requires i < 8
    ensures b == if i < 4 then 4 else 0
  {
    (1 - i / 4) * 4
  }

  /** The teammates player i's loop visits: its own block of four, less i. */
  function TeammateIndices(i: nat): (r: seq<nat>)
    requires i < 8
    ensures forall k :: 0 <= k < |r| ==> r[k] < 8
  {
    BlockExcept(TeamBase(i), i, 4)
  }

  /** The opponents player i's loop visits: the whole other block of four. */
  function OpponentIndices(i: nat): (r: seq<nat>)
    requires i < 8
    ensures forall k :: 0 <= k < |r| ==> r[k] < 8
  {
    Block(OtherBase(i), 4)
  }

  /** The players whose deviations make up player i's `RD_list`. */
  function DeviationSources(i: nat): (r: seq<nat>)
    requires i < 8
    ensures forall k :: 0 <= k < |r| ==> r[k] < 8
  {
    TeammateIndices(i) + OpponentIndices(i)
  }

  /** Teammates are the other three members of i's team, opponents the four
      members of the other team, and the seven deviation sources never
      include i itself. */
  lemma SelectionIndices(i: nat)
    requires i < 8
    ensures |TeammateIndices(i)| == 3 && |OpponentIndices(i)| == 4 && |DeviationSources(i)| == 7
    ensures forall x: nat :: x in TeammateIndices(i) <==> TeamBase(i) <= x < TeamBase(i) + 4 && x != i
    ensures forall x: nat :: x in OpponentIndices(i) <==> OtherBase(i) <= x < OtherBase(i) + 4
    ensures TeamBase(i) <= i < TeamBase(i) + 4 && TeamBase(i) != OtherBase(i)
    ensures i !in DeviationSources(i)
    ensures forall k :: 0 <= k < 7 ==> DeviationSources(i)[k] < 8
  {
    var o := OpponentIndices(i);
    forall x: nat
      ensures x in o <==> OtherBase(i) <= x < OtherBase(i) + 4
    {
      if OtherBase(i) <= x < OtherBase(i) + 4 {
        assert o[x - OtherBase(i)] == x;
      }
    }
    var d := DeviationSources(i);
    forall k | 0 <= k < 7
      ensures d[k] < 8
    {
      if k < 3 {
        assert d[k] in TeammateIndices(i);
      } else {
        assert d[k] == o[k - 3];
      }
    }
  }

  /** The ratings of the players at `idx`, in that order. */
  function RatingsAt(players: seq<Glicko>, idx: seq<nat>): (r: seq<real>)
    requires forall k :: 0 <= k < |idx| ==> idx[k] < |players|
    ensures |r| == |idx| && forall k :: 0 <= k < |idx| ==> r[k] == players[idx[k]].rating
  {
    seq(|idx|, k requires 0 <= k < |idx| => players[idx[k]].rating)
  }

  /** The deviations of the players at `idx`, in that order. */
  function DeviationsAt(players: seq<Glicko>, idx: seq<nat>): (r: seq<real>)
    requires forall k :: 0 <= k < |idx| ==> idx[k] < |players|
    ensures |r| == |idx| && forall k :: 0 <= k < |idx| ==> r[k] == players[idx[k]].rd
  {
    seq(|idx|, k requires 0 <= k < |idx| => players[idx[k]].rd)
  }

  /** The first loop of worth_playing for player i: the teammates' ratings
      and deviations. */
  method TeammateInputs(players: seq<Glicko>, i: nat) returns (teammatesRatings: seq<real>, rdList: seq<real>)
    requires |players| == 8 && i < 8
    ensures teammatesRatings == RatingsAt(players, TeammateIndices(i))
    ensures rdList == DeviationsAt(players, TeammateIndices(i))
  {
    var team := i / 4;
    assert team * 4 == TeamBase(i);
    teammatesRatings, rdList := [], [];
    ghost var visited: seq<nat> := [];
    for j := 0 to 4
      invariant visited == BlockExcept(team * 4, i, j)
      invariant teammatesRatings == RatingsAt(players, visited)
      invariant rdList == DeviationsAt(players, visited)
    {
      var index := team * 4 + j;
      if i == index {
        continue;
      }
      assert RatingsAt(players, visited + [index]) == teammatesRatings + [players[index].rating];
      assert DeviationsAt(players, visited + [index]) == rdList + [players[index].rd];
      teammatesRatings := teammatesRatings + [players[index].rating];
      rdList := rdList + [players[index].rd];
      visited := visited + [index];
    }
  }

  /** The second loop of worth_playing for player i: the opponents' ratings,
      and their deviations appended to `rdList`. */
  method OpponentInputs(players: seq<Glicko>, i: nat, rdList0: seq<real>)
    returns (opponentsRatings: seq<real>, rdList: seq<real>)
    requires |players| == 8 && i < 8
    ensures opponentsRatings == RatingsAt(players, OpponentIndices(i))
    ensures rdList == rdList0 + DeviationsAt(players, OpponentIndices(i))
  {
    var team := i / 4;
    assert (1 - team) * 4 == OtherBase(i);
    opponentsRatings, rdList := [], rdList0;
    ghost var visited: seq<nat> := [];
    for j := 0 to 4
      invariant visited == Block((1 - team) * 4, j)
      invariant opponentsRatings == RatingsAt(players, visited)
      invariant rdList == rdList0 + DeviationsAt(players, visited)
    {
      var index := (1 - team) * 4 + j;
      assert RatingsAt(players, visited + [index]) == opponentsRatings + [players[index].rating];
      assert DeviationsAt(players, visited + [index]) == DeviationsAt(players, visited) + [players[index].rd];
      opponentsRatings := opponentsRatings + [players[index].rating];
      rdList := rdList + [players[index].rd];
      visited := visited + [index];
    }
  }

  /** The two loops of worth_playing for player i: teammates' ratings,
      opponents' ratings, and the deviations of all seven other players. */
  method SelectInputs(players: seq<Glicko>, i: nat)
    returns (teammatesRatings: seq<real>, opponentsRatings: seq<real>, rdList: seq<real>)
    requires |players| == 8 && i < 8
    ensures |teammatesRatings| == 3 && |opponentsRatings| == 4 && |rdList| == 7
    ensures teammatesRatings == RatingsAt(players, TeammateIndices(i))
    ensures opponentsRatings == RatingsAt(players, OpponentIndices(i))
    ensures rdList == DeviationsAt(players, DeviationSources(i))
  {
    SelectionIndices(i);
    var teammatesRds;
    teammatesRatings, teammatesRds := TeammateInputs(players, i);
    opponentsRatings, rdList := OpponentInputs(players, i, teammatesRds);
    assert DeviationsAt(players, DeviationSources(i))
        == DeviationsAt(players, TeammateIndices(i)) + DeviationsAt(players, OpponentIndices(i));
  }

  /** Player i's state after the simulated 3-win, 1-loss update. The source
      passes the two rating lists themselves where create_player expects
      numbers; `combine` stands for whatever reduces each list to the number
      create_player subtracts. */
  function Simulated(players: seq<Glicko>, i: nat, combine: seq<real> -> real, update: Update): Glicko
    requires |players| == 8 && i < 8
  {
    var l := PlayerLists(combine(RatingsAt(players, TeammateIndices(i))), combine(RatingsAt(players, OpponentIndices(i))),
                         DeviationsAt(players, DeviationSources(i)), 3, 1);
    update(players[i], l.ratings, l.rds, l.outcomes)
  }

  /** A simulated win would lower player i's rating. */
  predicate LowersRating(players: seq<Glicko>, i: nat, combine: seq<real> -> real, update: Update)
    requires |players| == 8 && i < 8
  {
    Simulated(players, i, combine, update).rating < players[i].rating
  }

  /** The lists create_player builds for player i's simulated 3-1 win. */
  method SimulationLists(players: seq<Glicko>, i: nat, combine: seq<real> -> real)
    returns (ratings: seq<real>, rds: seq<real>, outcomes: seq<int>)
    requires |players| == 8 && i < 8
    ensures Lists(ratings, rds, outcomes)
         == PlayerLists(combine(RatingsAt(players, TeammateIndices(i))), combine(RatingsAt(players, OpponentIndices(i))),
                        DeviationsAt(players, DeviationSources(i)), 3, 1)
  {
    var teammatesRatings, opponentsRatings, rdList := SelectInputs(players, i);
    ratings, rds, outcomes := CreatePlayer(combine(teammatesRatings), combine(opponentsRatings), rdList, 3, 1);
  }

  /** One iteration of worth_playing's outer loop: build player i's inputs,
      update a copy of player i, and compare ratings. */
  method SimulateWin(players: seq<Glicko>, i: nat, combine: seq<real> -> real, update: Update)
    returns (lowered: bool)
    requires |players| == 8 && i < 8
    ensures lowered == LowersRating(players, i, combine, update)
  {
    var ratings, rds, outcomes := SimulationLists(players, i, combine);
    var copy := players[i];
    var sim := update(copy, ratings, rds, outcomes);
    lowered := sim.rating < players[i].rating;
  }

  /** worth_playing: true iff no player's rating drops after a simulated
      3-1 win. When false, `flagged` is the player the source prints: the
      first one whose rating drops. The players are values, so the update
      works on a copy and the input is left as it was. */
  method WorthPlaying(players: seq<Glicko>, combine: seq<real> -> real, update: Update)
    returns (worth: bool, ghost flagged: int)
    requires |players| == 8
    ensures worth <==> forall i :: 0 <= i < 8 ==> !LowersRating(players, i, combine, update)
    ensures !worth ==> 0 <= flagged < 8 && LowersRating(players, flagged, combine, update)
    ensures !worth ==> forall j :: 0 <= j < flagged ==> !LowersRating(players, j, combine, update)
  {
    for i := 0 to |players|
      invariant forall j :: 0 <= j < i ==> !LowersRating(players, j, combine, update)
    {
      var lowered := SimulateWin(players, i, combine, update);
      if lowered {
        return false, i;
      }
      forall j | 0 <= j <= i
        ensures !LowersRating(players, j, combine, update)
      {
        if j == i {
          assert !lowered;
        }
      }
    }
    return true, -1;
  }
}
