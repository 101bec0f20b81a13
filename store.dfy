/** The database tables the bot reads and writes, and the chat-platform state
    the registration flow changes. Every cog module works on these.
    Times are integer seconds; ratings are reals (the source uses floats). */
module Store {

  datatype Option<+T> = None | Some(value: T)

  /** A row of the `modes` table: the columns the core reads. */
  datatype ModeRow = ModeRow(
    internalName: string,
    name: string,
    status: int,
    lastRatingPeriod: Option<int>,
    ratingPeriodHours: int)

  /** A row of the `ratings` table: one player's rating in one mode, the
      results pending since the last rating period, and the snapshot taken
      at the last rollover. */
  datatype RatingRow = RatingRow(
    userId: int,
    mode: string,
    rating: real,
    deviation: real,
    volatility: real,
    ratingList: seq<real>,
    deviationList: seq<real>,
    outcomeList: seq<int>,
    ratingInitial: Option<real>,
    deviationInitial: Option<real>,
    volatilityInitial: Option<real>)

  /** The three `_initial` columns are all unset or all set. */
  predicate InitialsTogether(r: RatingRow) {
    r.ratingInitial.Some? == r.deviationInitial.Some? == r.volatilityInitial.Some?
  }

  /** A row of the `users` table. */
  datatype UserRow = UserRow(hostPref: int, registerDate: int, queueDisableTime: Option<int>)

  /** A row of the `queue` table: a group of players waiting for one mode. */
  datatype QueueRow = QueueRow(playerIds: seq<int>, mode: string, available: bool)

  /** The bot's database. Users are keyed by user id, the primary key of
      `users`; the other tables are sequences of rows. */
  class Database {
    var modes: seq<ModeRow>
    var ratings: seq<RatingRow>
    var users: map<int, UserRow>
    var queue: seq<QueueRow>

    /** Every ratings row keeps its `_initial` columns together. */
    predicate Valid()
      reads this
    {
      forall k :: 0 <= k < |ratings| ==> InitialsTogether(ratings[k])
    }
  }

  /** The guild's members that hold the "Registered" role. */
  class Guild {
    var registered: set<int>
  }
}
