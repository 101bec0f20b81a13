/** cogs/rating.py: the rating-period manager. On every tick it walks the
    modes table; a mode without a last rating period is given `now`, and any
    other mode is advanced one period at a time (at most 30 times) while its
    next period has started. Each advance decays the idle players of that
    mode and then clears the pending lists of every ratings row, taking a
    fresh `_initial` snapshot. glicko2's did-not-compete step is foreign and
    is passed in as a function. */
module RatingPeriods {
  import opened Store
  import GlickoInputs

  /** The catch-up limit per mode and tick. */
  const MaxAdvances: nat := 30
  /** The largest deviation a decay may leave. */
  const DeviationCap: real := 350.0
  const SecondsPerHour: int := 3600

  /** `Player.did_not_compete()` of the glicko2 library. */
  type Decay = GlickoInputs.Glicko -> GlickoInputs.Glicko

  /** A period of `hours` hours, in seconds (`relativedelta(hours=...)`). */
  function PeriodLength(hours: int): int {
    hours * SecondsPerHour
  }

  /** The row had no result in the period: one of its pending lists is empty,
      the condition of the SELECT of idle players. */
  predicate Idle(r: RatingRow) {
    r.ratingList == [] || r.deviationList == [] || r.outcomeList == []
  }

  /** The row after the did-not-compete step, deviation capped at 350. */
  function Decayed(r: RatingRow, decay: Decay): RatingRow {
    var g := decay(GlickoInputs.Glicko(r.rating, r.deviation, r.volatility));
    r.(rating := g.rating, deviation := if DeviationCap < g.rd then DeviationCap else g.rd, volatility := g.vol)
  }

  /** The ratings table after the decay step of one advance of `mode`. */
  function DecayIdle(rs: seq<RatingRow>, mode: string, decay: Decay): (out: seq<RatingRow>)
    ensures |out| == |rs|
  {
    seq(|rs|, k requires 0 <= k < |rs| =>
      if rs[k].mode == mode && Idle(rs[k]) then Decayed(rs[k], decay) else rs[k])
  }

  /** A row after the list reset: nothing pending, `_initial` = current. */
  function ResetRow(r: RatingRow): RatingRow {
    r.(ratingList := [], deviationList := [], outcomeList := [],
       ratingInitial := Some(r.rating), deviationInitial := Some(r.deviation),
       volatilityInitial := Some(r.volatility))
  }

  /** The reset UPDATE, which has no WHERE clause: every row of every mode. */
  function ResetAll(rs: seq<RatingRow>): (out: seq<RatingRow>)
    ensures |out| == |rs|
  {
    seq(|rs|, k requires 0 <= k < |rs| => ResetRow(rs[k]))
  }

  /** The ratings table after one advance of `mode`. */
  function Advance(rs: seq<RatingRow>, mode: string, decay: Decay): (out: seq<RatingRow>)
    ensures |out| == |rs|
  {
    ResetAll(DecayIdle(rs, mode, decay))
  }

  /** How many periods the bounded loop advances: the number of periods
      that have started by `now`, at most `budget`. */
  function PeriodsDue(last: int, period: int, now: int, budget: nat): (n: nat)
    ensures n <= budget
    decreases budget
  {
    if budget == 0 || now < last + period then 0
    else PeriodsDue(last + period, period, now, budget - 1) + 1
  }

  /** The result of the catch-up loop for one mode. */
  datatype CatchUp = CatchUp(last: int, ratings: seq<RatingRow>, advances: nat)

  /** The catch-up loop for `mode` with `budget` iterations left. */
  function CatchUpFrom(mode: string, last: int, hours: int, rs: seq<RatingRow>, now: int, decay: Decay, budget: nat)
    : (c: CatchUp)
    ensures |c.ratings| == |rs|
    ensures forall k :: 0 <= k < |rs| ==> c.ratings[k].userId == rs[k].userId && c.ratings[k].mode == rs[k].mode
    decreases budget
  {
    if budget == 0 || now < last + PeriodLength(hours) then CatchUp(last, rs, 0)
    else
      var c := CatchUpFrom(mode, last + PeriodLength(hours), hours, Advance(rs, mode, decay), now, decay, budget - 1);
      c.(advances := c.advances + 1)
  }

  /** A mode's row and the ratings table after that mode's turn of a tick. */
  datatype ModeTick = ModeTick(mode: ModeRow, ratings: seq<RatingRow>)

  /** One mode's turn: bootstrap an unset period, or catch up. */
  function TickMode(m: ModeRow, rs: seq<RatingRow>, now: int, decay: Decay): (t: ModeTick)
    ensures |t.ratings| == |rs|
  {
    match m.lastRatingPeriod
    case None => ModeTick(m.(lastRatingPeriod := Some(now)), rs)
    case Some(last) =>
      var c := CatchUpFrom(m.internalName, last, m.ratingPeriodHours, rs, now, decay, MaxAdvances);
      ModeTick(m.(lastRatingPeriod := Some(c.last)), c.ratings)
  }

  datatype Tables = Tables(modes: seq<ModeRow>, ratings: seq<RatingRow>)

  /** The two tables after one tick over the modes `ms`, in order. */
  function Tick(ms: seq<ModeRow>, rs: seq<RatingRow>, now: int, decay: Decay): (t: Tables)
    ensures |t.modes| == |ms| && |t.ratings| == |rs|
    decreases |ms|
  {
    if ms == [] then Tables([], rs)
    else
      var t := Tick(ms[..|ms| - 1], rs, now, decay);
      var m := TickMode(ms[|ms| - 1], t.ratings, now, decay);
      Tables(t.modes + [m.mode], m.ratings)
  }

  /** Decays, in place, every idle row of `mode` (the SELECT of idle players
      and the UPDATE of each one, as one pass over the table). */
  method DecayIdleRows(db: Database, mode: string, decay: Decay)
    modifies db`ratings
    ensures db.ratings == DecayIdle(old(db.ratings), mode, decay)
  {
    ghost var rs := db.ratings;
    for j := 0 to |db.ratings|
      invariant |db.ratings| == |rs|
      invariant forall t :: 0 <= t < j ==> db.ratings[t] == DecayIdle(rs, mode, decay)[t]
      invariant forall t :: j <= t < |rs| ==> db.ratings[t] == rs[t]
    {
      var player := db.ratings[j];
      if player.mode == mode && Idle(player) {
        db.ratings := db.ratings[j := Decayed(player, decay)];
      }
    }
  }

  /** The bounded catch-up loop for the mode at index k of the modes table,
      whose last rating period is set. */
  method CatchUpMode(db: Database, k: nat, m: ModeRow, now: int, decay: Decay)
    requires k < |db.modes| && m.lastRatingPeriod.Some?
    modifies db`modes, db`ratings
    ensures var c := CatchUpFrom(m.internalName, m.lastRatingPeriod.value, m.ratingPeriodHours, old(db.ratings),
                                 now, decay, MaxAdvances);
      db.ratings == c.ratings &&
      db.modes == (if c.advances == 0 then old(db.modes) else old(db.modes)[k := m.(lastRatingPeriod := Some(c.last))])
  {
    ghost var before := db.modes;
    ghost var r0 := db.ratings;
    ghost var c0 := CatchUpFrom(m.internalName, m.lastRatingPeriod.value, m.ratingPeriodHours, r0, now, decay,
                                MaxAdvances);
    var mode := m;
    ghost var advanced := 0;
    for i := 0 to MaxAdvances
      invariant mode == m.(lastRatingPeriod := mode.lastRatingPeriod) && mode.lastRatingPeriod.Some?
      invariant db.modes == if advanced == 0 then before else before[k := mode]
      invariant
        var c := CatchUpFrom(m.internalName, mode.lastRatingPeriod.value, m.ratingPeriodHours, db.ratings,
                             now, decay, MaxAdvances - i);
        c.last == c0.last && c.ratings == c0.ratings && c.advances + advanced == c0.advances
    {
      var next := mode.lastRatingPeriod.value + PeriodLength(mode.ratingPeriodHours);
      if now >= next {
        DecayIdleRows(db, mode.internalName, decay);
        db.ratings := ResetAll(db.ratings);
        mode := mode.(lastRatingPeriod := Some(next));
        db.modes := db.modes[k := mode];
        advanced := advanced + 1;
      } else {
        break;
      }
    }
  }

  /** One mode's turn of the tick, for the mode at index k. */
  method TickOneMode(db: Database, k: nat, m: ModeRow, now: int, decay: Decay)
    requires k < |db.modes| && db.modes[k] == m
    modifies db`modes, db`ratings
    ensures var t := TickMode(m, old(db.ratings), now, decay);
      db.ratings == t.ratings && db.modes == old(db.modes)[k := t.mode]
  {
    if m.lastRatingPeriod.None? {
      db.modes := db.modes[k := m.(lastRatingPeriod := Some(now))];
    } else {
      CatchUpMode(db, k, m, now, decay);
    }
  }

  /** manage_rating_periods: one tick over the modes table. It keeps the
      database's invariant. */
  method ManageRatingPeriods(db: Database, now: int, decay: Decay)
    modifies db`modes, db`ratings
    ensures Tables(db.modes, db.ratings) == Tick(old(db.modes), old(db.ratings), now, decay)
    ensures old(db.Valid()) ==> db.Valid()
  {
    if db.Valid() {
      TickKeepsInitialsTogether(db.modes, db.ratings, now, decay);
    }
    var modes := db.modes;
    ghost var rs0 := db.ratings;
    for k := 0 to |modes|
      invariant |db.modes| == |modes|
      invariant Tick(modes[..k], rs0, now, decay).modes == db.modes[..k]
      invariant Tick(modes[..k], rs0, now, decay).ratings == db.ratings
      invariant db.modes[k..] == modes[k..]
    {
      ghost var before := db.modes;
      TickOneMode(db, k, modes[k], now, decay);
      TickPrefixStep(modes, k, rs0, now, decay);
      assert db.modes[..k + 1] == before[..k] + [db.modes[k]];
      assert db.modes[k + 1..] == before[k + 1..];
    }
    assert modes[..|modes|] == modes;
    assert db.modes[..|modes|] == db.modes;
  }

  /** The tick over the first k+1 modes extends the tick over the first k. */
  lemma TickPrefixStep(ms: seq<ModeRow>, k: nat, rs: seq<RatingRow>, now: int, decay: Decay)
    requires k < |ms|
    ensures var t, m := Tick(ms[..k], rs, now, decay), TickMode(ms[k], Tick(ms[..k], rs, now, decay).ratings, now, decay);
      Tick(ms[..k + 1], rs, now, decay) == Tables(t.modes + [m.mode], m.ratings)
  {
    assert ms[..k + 1][..k] == ms[..k];
  }

  // ---------------------------------------------------------------------
  // Properties of one tick

  /** The bounded loop advances by exactly one period each time, at most
      `budget` times; if it stopped early, the next period has not started;
      if it advanced at all, the new period start is not after `now`. */
  lemma {:induction false} PeriodsDueBounds(last: int, period: int, now: int, budget: nat)
    ensures PeriodsDue(last, period, now, budget) <= budget
    ensures PeriodsDue(last, period, now, budget) < budget ==>
      now < last + (PeriodsDue(last, period, now, budget) + 1) * period
    ensures PeriodsDue(last, period, now, budget) > 0 ==>
      last + PeriodsDue(last, period, now, budget) * period <= now
    decreases budget
  {
    if budget > 0 && now >= last + period {
      var n := PeriodsDue(last + period, period, now, budget - 1);
      PeriodsDueBounds(last + period, period, now, budget - 1);
      assert (last + period) + (n + 1) * period == last + (n + 2) * period;
      assert (last + period) + n * period == last + (n + 1) * period;
    }
  }

  /** With a period of zero or fewer hours the next period never moves
      later, so once the first one has started only the iteration cap ends
      the loop; if it has not started, the loop advances nothing. */
  lemma {:induction false} NonPositivePeriodHitsCap(last: int, period: int, now: int, budget: nat)
    requires period <= 0
    ensures PeriodsDue(last, period, now, budget) == budget <==> budget == 0 || now >= last + period
    ensures now < last + period ==> PeriodsDue(last, period, now, budget) == 0
    decreases budget
  {
    if budget > 0 && now >= last + period {
      NonPositivePeriodHitsCap(last + period, period, now, budget - 1);
    }
  }

  /** The catch-up loop advances the period `PeriodsDue` times, each time by
      exactly one period length. */
  lemma {:induction false} CatchUpAdvancesPeriods(mode: string, last: int, hours: int, rs: seq<RatingRow>, now: int,
                                                 decay: Decay, budget: nat)
    ensures CatchUpFrom(mode, last, hours, rs, now, decay, budget).advances
         == PeriodsDue(last, PeriodLength(hours), now, budget)
    ensures CatchUpFrom(mode, last, hours, rs, now, decay, budget).last
         == last + PeriodsDue(last, PeriodLength(hours), now, budget) * PeriodLength(hours)
    decreases budget
  {
    var p := PeriodLength(hours);
    if budget > 0 && now >= last + p {
      CatchUpAdvancesPeriods(mode, last + p, hours, Advance(rs, mode, decay), now, decay, budget - 1);
      var n := PeriodsDue(last + p, p, now, budget - 1);
      assert (last + p) + n * p == last + (n + 1) * p;
    }
  }

  /** A row that is fresh from a rollover: nothing pending, and its
      `_initial` snapshot equals its current rating, deviation, volatility. */
  predicate JustReset(r: RatingRow) {
    r.ratingList == [] && r.deviationList == [] && r.outcomeList == [] &&
    r.ratingInitial == Some(r.rating) && r.deviationInitial == Some(r.deviation) &&
    r.volatilityInitial == Some(r.volatility)
  }

  /** One advance of `mode`: that mode's idle rows take the decayed rating
      and volatility with the deviation capped at 350; every other row,
      including that mode's rows with results, keeps its rating, deviation
      and volatility; and every row of every mode is reset. */
  lemma AdvanceRows(rs: seq<RatingRow>, mode: string, decay: Decay, k: nat)
    requires k < |rs|
    ensures var r, out := rs[k], Advance(rs, mode, decay)[k];
      var g := decay(GlickoInputs.Glicko(r.rating, r.deviation, r.volatility));
      && JustReset(out) && out.userId == r.userId && out.mode == r.mode
      && (r.mode == mode && Idle(r) ==>
            out.rating == g.rating && out.volatility == g.vol
            && out.deviation == (if g.rd <= DeviationCap then g.rd else DeviationCap)
            && out.deviation <= DeviationCap && out.deviation <= g.rd)
      && (r.mode != mode || !Idle(r) ==>
            out.rating == r.rating && out.deviation == r.deviation && out.volatility == r.volatility)
  {
  }

  /** Because the reset has no WHERE clause, a row of another mode that has
      pending results loses them when `mode` rolls over, and counts as idle
      at its own mode's next rollover. */
  lemma AdvanceClearsOtherModes(rs: seq<RatingRow>, mode: string, decay: Decay, k: nat)
    requires k < |rs| && rs[k].mode != mode && !Idle(rs[k])
    ensures Idle(Advance(rs, mode, decay)[k])
    ensures Advance(rs, mode, decay)[k].rating == rs[k].rating
  {
  }

  /** After a catch-up that advanced at least once, every row of the table
      is fresh from a rollover; after none, the table is untouched. */
  lemma {:induction false} CatchUpResetsTable(mode: string, last: int, hours: int, rs: seq<RatingRow>, now: int,
                                             decay: Decay, budget: nat)
    ensures var c := CatchUpFrom(mode, last, hours, rs, now, decay, budget);
      (c.advances > 0 ==> forall k :: 0 <= k < |c.ratings| ==> JustReset(c.ratings[k]))
      && (c.advances == 0 ==> c.ratings == rs && c.last == last)
    decreases budget
  {
    var p := PeriodLength(hours);
    if budget > 0 && now >= last + p {
      var rs' := Advance(rs, mode, decay);
      CatchUpResetsTable(mode, last + p, hours, rs', now, decay, budget - 1);
      forall k | 0 <= k < |rs'|
        ensures JustReset(rs'[k])
      {
        AdvanceRows(rs, mode, decay, k);
      }
    }
  }

  /** A mode with no last rating period is given `now` and leaves the
      ratings table as it is. */
  lemma BootstrapLeavesRatings(m: ModeRow, rs: seq<RatingRow>, now: int, decay: Decay)
    requires m.lastRatingPeriod.None?
    ensures TickMode(m, rs, now, decay) == ModeTick(m.(lastRatingPeriod := Some(now)), rs)
  {
  }

  /** The modes table after a tick: every mode's new period start is `now`
      if it had none, and otherwise its old start plus `PeriodsDue` periods,
      whatever the ratings table holds. */
  function NewPeriodStart(m: ModeRow, now: int): int {
    match m.lastRatingPeriod
    case None => now
    case Some(last) =>
      last + PeriodsDue(last, PeriodLength(m.ratingPeriodHours), now, MaxAdvances) * PeriodLength(m.ratingPeriodHours)
  }

  lemma {:induction false} TickModesTable(ms: seq<ModeRow>, rs: seq<RatingRow>, now: int, decay: Decay)
    ensures forall k :: 0 <= k < |ms| ==>
      Tick(ms, rs, now, decay).modes[k] == ms[k].(lastRatingPeriod := Some(NewPeriodStart(ms[k], now)))
    decreases |ms|
  {
    if ms != [] {
      var init := ms[..|ms| - 1];
      var m := ms[|ms| - 1];
      TickModesTable(init, rs, now, decay);
      var t := Tick(init, rs, now, decay);
      if m.lastRatingPeriod.Some? {
        CatchUpAdvancesPeriods(m.internalName, m.lastRatingPeriod.value, m.ratingPeriodHours, t.ratings, now, decay,
                               MaxAdvances);
      }
    }
  }

  /** A tick keeps the three `_initial` columns of every row together. */
  lemma {:induction false} TickKeepsInitialsTogether(ms: seq<ModeRow>, rs: seq<RatingRow>, now: int, decay: Decay)
    requires forall k :: 0 <= k < |rs| ==> InitialsTogether(rs[k])
    ensures forall k :: 0 <= k < |rs| ==> InitialsTogether(Tick(ms, rs, now, decay).ratings[k])
    decreases |ms|
  {
    if ms != [] {
      var init := ms[..|ms| - 1];
      var m := ms[|ms| - 1];
      TickKeepsInitialsTogether(init, rs, now, decay);
      var t := Tick(init, rs, now, decay);
      if m.lastRatingPeriod.Some? {
        CatchUpResetsTable(m.internalName, m.lastRatingPeriod.value, m.ratingPeriodHours, t.ratings, now, decay,
                           MaxAdvances);
      }
    }
  }
}
