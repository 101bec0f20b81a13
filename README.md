# Beam Net match and rating core, in Dafny

Beam Net is a Discord bot that runs 4v4 matches and keeps a Glicko-2 rating
for each player in each game mode. This project models the bot's decision
logic and proves properties of that model. Discord and the PostgreSQL
database are replaced by values the model can reason about. Button presses,
timeouts and the database's answers become inputs. Tables become sequences
and maps, held in a `Database` object whose fields the operations update.

- `store.dfy` (module `Store`): the rows of the `modes`, `ratings`,
  `users` and `queue` tables. It also holds the `Database` class with its
  invariant that the three `_initial` columns of a ratings row are set
  together, and the guild's set of members holding the "Registered" role.
- `glicko_inputs.dfy` (module `GlickoInputs`; models `rating.py`):
  - `create_player` builds the three parallel lists a Glicko-2 update
    consumes;
  - `worth_playing` chooses each player's teammates and opponents by index,
    then asks whether a simulated 3-1 win would lower anyone's rating.
- `rating_periods.dfy` (module `RatingPeriods`; models `cogs/rating.py`):
  the rating-period tick. It gives an unset period a start. It advances a
  due period at most 30 times per tick. Each advance decays idle players,
  caps their deviation at 350, and resets every ratings row.
- `mode_board.dfy` (module `ModeBoard`; models `cogs/modes.py`):
  - the join and leave button ids and how `on_component` decodes them;
  - the mapping from a mode's status to its buttons and fields;
  - the replies to button presses;
  - the reconciliation that resizes the channel's messages to one per mode
    plus one info message.
- `registration.dfy` (module `Registration`; models `cogs/user.py`): the
  three-page `/register` form, which decides whether a `users` row is
  inserted and whether the role is granted.
- `match_setup.dfy` (module `Matchmaker`; models `cogs/matchmaker.py`):
  - `create_test`'s duplicate check and its mode and host selection loop;
  - the host emoji lookup;
  - `create_match`, which sets a cooldown for each player, withdraws their
    queue groups and checks that everyone accepted.

The glicko2 library is foreign code, so its two operations are parameters:
`Player.update_player` is `update` and `Player.did_not_compete` is `decay`.
Times are integer seconds, and an hour is 3600 of them. Ratings are `real`.

## Model

| member | source | states |
|---|---|---|
| GlickoInputs.Repeat | rating.py:12 | `[x] * n` has `n` entries, or none when `n` is not positive, and every entry is `x` |
| GlickoInputs.OutcomesWinsThenLosses | rating.py:12 | the outcome list has `wins` ones followed by `losses` zeros, so no 1 ever follows a 0 |
| GlickoInputs.PlayerListsShape | rating.py:3-12 | with non-negative counts, all three lists have `wins + losses` entries; each rating entry is `opponents_rating - teammates_rating`; each deviation entry is the mean of `RD_list` |
| GlickoInputs.CreatePlayer | rating.py:3-12 | the accumulating loop produces exactly the lists of `PlayerLists`; it requires a non-empty `RD_list`, because an empty one divides by zero |
| GlickoInputs.SelectionIndices | rating.py:15-30 | player i's teammates are the other three indices of its own block of four, and its opponents are the four indices of the other block; `RD_list` draws on 7 players and never on i |
| GlickoInputs.TeammateInputs | rating.py:21-26 | the first inner loop, skipping i, collects the teammates' ratings and deviations in index order |
| GlickoInputs.OpponentInputs | rating.py:27-30 | the second inner loop appends the opponents' ratings, and their deviations after the teammates' ones |
| GlickoInputs.SelectInputs | rating.py:15-30 | the two loops give 3 teammate ratings, 4 opponent ratings and the 7 deviations of the other players |
| GlickoInputs.SimulationLists | rating.py:32 | the lists passed to the update are those of a 3-1 record against the selected players |
| GlickoInputs.SimulateWin | rating.py:32-40 | one iteration updates a copy of player i; the result is true iff the simulated rating is below the current one |
| GlickoInputs.WorthPlaying | rating.py:14-43 | returns true iff no player's simulated 3-1 win lowers their rating; on false, the flagged player is the first one whose rating would drop |
| RatingPeriods.PeriodsDue | cogs/rating.py:37-39 | the loop advances at most 30 times |
| RatingPeriods.PeriodsDueBounds | cogs/rating.py:37-61 | there are never more advances than the budget; fewer means the next period has not started by `now`; after any advance, the new start is not after `now` |
| RatingPeriods.NonPositivePeriodHitsCap | cogs/rating.py:37-39 | with a period of zero or fewer hours, the loop runs the full 30 iterations iff the first period has started by `now`; otherwise it advances nothing |
| RatingPeriods.CatchUpAdvancesPeriods | cogs/rating.py:37-58 | every advance moves `last_rating_period` by exactly `rating_period_hours` |
| RatingPeriods.AdvanceRows | cogs/rating.py:41-55 | in one advance, the mode's idle rows take the decayed rating and volatility, with deviation exactly `min(rd, 350)` of the decayed deviation, which is at most 350 and at most the decayed value; every other row keeps its rating, deviation and volatility; every row ends with empty lists and `_initial` equal to its current values |
| RatingPeriods.AdvanceClearsOtherModes | cogs/rating.py:53-55 | the reset has no WHERE clause, so a row of another mode loses its pending results |
| RatingPeriods.CatchUpResetsTable | cogs/rating.py:37-61 | after at least one advance, every row of the table is freshly reset; after none, the table and the period are untouched |
| RatingPeriods.BootstrapLeavesRatings | cogs/rating.py:28-35 | a mode without a period is given `now` and the ratings table is left as it is |
| RatingPeriods.TickModesTable | cogs/rating.py:27-61 | after a tick, each mode row differs only in its period: `now` if it had none, otherwise the old start plus the number of due periods |
| RatingPeriods.TickKeepsInitialsTogether | cogs/rating.py:53-55 | a tick keeps the three `_initial` columns of every row set together |
| RatingPeriods.DecayIdleRows | cogs/rating.py:41-52 | the SELECT of idle players and their UPDATEs, done in place, decay exactly the idle rows of the mode |
| RatingPeriods.CatchUpMode | cogs/rating.py:37-61 | the bounded loop for one mode leaves the tables as the catch-up specification says, and changes the mode's row only when it advanced |
| RatingPeriods.TickOneMode | cogs/rating.py:28-61 | one mode's turn, bootstrap or catch-up, leaves the tables as the one-mode specification says |
| RatingPeriods.ManageRatingPeriods | cogs/rating.py:24-61 | a tick over the modes table, in order, matches the tick specification and keeps the database invariant |
| ModeBoard.Take | cogs/modes.py:134 | slicing with `[:n]` is clipped to the string |
| ModeBoard.Decode | cogs/modes.py:134-150 | an id takes the join branch iff it starts with `mode_join`, and the name is what follows its first ten characters; it takes the leave branch iff it does not start with `mode_join` but starts with `mode_leave`, and the name is what follows its first eleven characters |
| ModeBoard.JoinReply | cogs/modes.py:142-147 | a join of a listed mode joins the queue iff its join button is enabled; it is currently unavailable iff the button is red, and temporarily unavailable iff the button is disabled and green; the reply names the mode |
| ModeBoard.OnComponent | cogs/modes.py:132-156 | a press gets no reply iff its id takes neither branch; it gets "Mode not found!" iff it takes a branch whose name is in no row; otherwise a join gets the join reply of the first row with that name, and a leave gets "Left the queue" with that row's name |
| ModeBoard.DecodeJoinId | cogs/modes.py:134-135 | the id `mode_join_<name>` from line 84 takes the join branch and yields exactly `name` |
| ModeBoard.DecodeLeaveId | cogs/modes.py:149-150 | the id `mode_leave_<name>` from line 85 never takes the join branch and yields exactly `name` |
| ModeBoard.DecodeJoinExactly | cogs/modes.py:134-135 | an id reads as a join of `name` iff it is `mode_join`, then any one character, then `name`, or is `mode_join` alone with an empty name |
| ModeBoard.FindMode | cogs/modes.py:136 | the lookup finds a row iff some row has the internal name, and then gives the first such row |
| ModeBoard.JoinButtonReply | cogs/modes.py:134-147 | a join of a listed mode replies by status: 1 joins, 0 is currently unavailable, any other status is temporarily unavailable |
| ModeBoard.LeaveButtonReply | cogs/modes.py:149-156 | a leave of a listed mode always replies that the queue was left |
| ModeBoard.UnknownModeReply | cogs/modes.py:134-156 | a button of a mode missing from the table gets "Mode not found!" and nothing else, from either branch |
| ModeBoard.JoinButton | cogs/modes.py:60-84 | the join button's id names the mode; it is disabled iff the status is not 1, and red iff the status is 0, otherwise green |
| ModeBoard.JoinButtonByStatus | cogs/modes.py:60-71 | the labels are "Currently Unavailable" for status 0, "Join Queue" for 1, and "Temporarily Unavailable" (disabled, green) for any other status |
| ModeBoard.ModePanelShape | cogs/modes.py:73-90 | the leave button is shown iff the status is not 0; the fields are exactly "Searching" then "In-game" when the status is 1 or 2, and there are none otherwise; the title is the mode's name |
| ModeBoard.ModePanelButtonsDecode | cogs/modes.py:84-90 | every button on a mode's message decodes as a join or a leave of that same mode |
| ModeBoard.InfoButtonsIgnored | cogs/modes.py:104-117 | the info message's two buttons take neither branch of `on_component` |
| ModeBoard.Fetched | cogs/modes.py:29 | the history fetch yields exactly the 100 newest messages, or all of them when there are fewer, newest first |
| ModeBoard.SentBatch | cogs/modes.py:37-40 | the messages sent and inserted at the front are in reverse order of sending |
| ModeBoard.Surplus | cogs/modes.py:41-46 | the surplus messages are deleted from the end towards the front |
| ModeBoard.SendMissing | cogs/modes.py:37-40 | the sending loop puts the new messages in front of the fetched ones |
| ModeBoard.DeleteSurplus | cogs/modes.py:41-46 | the deleting loop keeps the first messages in order and deletes the rest from the end |
| ModeBoard.EditPanels | cogs/modes.py:48-121 | mode k is written into message k, and the info panel into the message after the last mode |
| ModeBoard.UpdateModes | cogs/modes.py:24-121 | afterwards there is exactly one message per mode plus one; new messages go in front, surplus ones are removed from the end, the rest keep their order, and every edit's index is in range |
| Registration.HostPref | cogs/user.py:142 | `3 - int(choice)` maps "1" to 2, "2" to 1 and "3" to 0; these three are the only choices that give a preference, so a stored preference is always in 0..2 |
| Registration.HostPrefInjective | cogs/user.py:142 | different choices store different preferences |
| Registration.ExistingUserSkipsForm | cogs/user.py:31-38 | a user who already has a row sees no form and gets no insert; the role is added iff they lack it |
| Registration.NoOrTimeoutStops | cogs/user.py:72-140 | "no" on page 1 or 2, or a timeout on any page, ends the form with no insert and no role |
| Registration.InsertExactly | cogs/user.py:72-153 | a row is inserted iff the user had none, answered neither page 1 nor page 2 with "no", chose a rating on page 3, and the insert succeeded; the stored preference is the one chosen |
| Registration.RoleOnlyAfterInsertOrExistingRow | cogs/user.py:144-153 | the role comes only from a successful insert or from the existing-row path; a failed insert grants nothing |
| Registration.Register | cogs/user.py:24-153 | the command's outcome, the new `users` table and the new role holders all follow the form's decision |
| Matchmaker.HasDuplicate | cogs/matchmaker.py:238-242 | reports a duplicate iff two positions hold the same player; it visits pairs i < k in loop order, each at most once, and all of them when there is no duplicate |
| Matchmaker.SelectModeAndHost | cogs/matchmaker.py:296-327 | the `while True` loop ends as the selection specification says |
| Matchmaker.ForeignUsesIgnored | cogs/matchmaker.py:303-307 | component uses by anyone but the author change nothing |
| Matchmaker.OverwrittenChoice | cogs/matchmaker.py:303-316 | two choice states that differ only in what the author's next choice overwrites lead to the same end of the loop, through any events short of a timeout or the author's start |
| Matchmaker.LaterChoiceWins | cogs/matchmaker.py:309-316 | a later `set_mode` or `set_host` by the author overwrites the earlier choice of the same kind, whatever other events come between them, short of a timeout or a start |
| Matchmaker.StartNeedsBoth | cogs/matchmaker.py:318-321 | `start_game` without a mode or a host is refused and the loop goes on |
| Matchmaker.SelectedAfterStart | cogs/matchmaker.py:318-327 | a match starts only on the author's `start_game`, before any timeout, with the mode and host the author chose last |
| Matchmaker.AbandonedAfterTimeout | cogs/matchmaker.py:297-301 | the loop is abandoned only after a timeout |
| Matchmaker.PyIndex | cogs/matchmaker.py:272 | Python list indexing: an index in range gives that element, a negative one counts from the end, any other raises |
| Matchmaker.RegisteredPrefHasEmoji | cogs/matchmaker.py:272 | every preference `/register` can store (cogs/user.py:142) is a valid index into the emoji list, and "1" gives green, "2" yellow, "3" red |
| Matchmaker.HoldRows | cogs/matchmaker.py:86-91 | afterwards a group is available iff it was before and holds none of the players; its members and mode do not change |
| Matchmaker.CoolDownPlayer | cogs/matchmaker.py:80-85 | the players' `queue_disable_time` is set, and only players that have a row are changed |
| Matchmaker.HoldGroups | cogs/matchmaker.py:86-91 | the queue UPDATE for one player marks unavailable exactly that player's available groups |
| Matchmaker.CreateMatch | cogs/matchmaker.py:67-137 | every player gets `queue_disable_time = now + 25`, every group holding a player becomes unavailable, and the result is true iff all players accepted |
| Matchmaker.GrabPlayer | cogs/matchmaker.py:99-102 | returns the first player with the id, or none iff no player has it |
| Matchmaker.CreateTest | cogs/matchmaker.py:234-327 | duplicates, unregistered players and unusable preferences stop the command first; only a started match touches the `users` and `queue` tables |

## Left out

- Chat-platform I/O is left out: embeds, direct messages, message edits and deletes, hidden replies, `wait_for_component` and role objects. Presses and timeouts are inputs. A reply is a datatype constructor, not its text.
- The glicko2 library is foreign code: `update_player` and `did_not_compete` are function parameters, so nothing is proved about their numbers. Floats are `real`, with no rounding.
- Concurrency and scheduling are left out: `asyncio.gather`, fire-and-forget `create_task` edits, the `tasks.loop` intervals and the restart after an error at cogs/rating.py:69-74. Each operation runs as one sequential step.
- Time zones, `pytz` and `relativedelta` are left out. Time is integer seconds, and `relativedelta(hours=h)` is `h * 3600`.
- GlickoInputs.WorthPlaying: rating.py:32 passes the two rating lists where `create_player` (rating.py:4) subtracts numbers, and in Python that subtraction raises. The model adds a `combine` parameter that reduces each list to a number. It makes no claim about the call as written.
- GlickoInputs.WorthPlaying: the `print(i)` at rating.py:41 is a ghost out-parameter.
- GlickoInputs.WorthPlaying: requires exactly 8 players, the two teams of four a match has. rating.py:15 loops over `range(len(players))` with no length check. With no players the source returns True. With 1 to 7 it raises an IndexError. With more than 8, the index arithmetic at rating.py:28 wraps to negative indices. None of these cases is modelled.
- RatingPeriods.DecayIdleRows: the idle SELECT and each player's keyed UPDATE are one pass over the table. This assumes (user id, mode) identifies a ratings row and an internal name identifies a mode.
- RatingPeriods.ManageRatingPeriods: the log messages are left out.
- RatingPeriods.ManageRatingPeriods: modes are processed in the order of `db.modes`, which stands for the unspecified order of the modes SELECT (cogs/rating.py:26 has no ORDER BY). Because the reset has no WHERE clause, which players are decayed depends on that order; the model is proved for whatever order `db.modes` holds.
- ModeBoard.UpdateModes: descriptions, images, thumbnails and colours are left out. Only titles, field names and buttons are modelled. The history is a given list, newest first.
- The `list_joined_modes` and `leave_all_modes` handlers (cogs/modes.py:160-166) only send fixed texts and are left out.
- Queue joining and leaving is a TODO at cogs/modes.py:158, and `/match create` is an empty stub at cogs/matchmaker.py:205-206. Neither has behaviour to model.
- Matchmaker.CreateMatch: the ready messages are left out; each player's accept answer is an input. The unfinished group-removal branch (cogs/matchmaker.py:104-134) is left out, and the model returns false with no further change. The fetch of the mode's name and thumbnail, error logging and the exception handler at cogs/matchmaker.py:139-141 are left out.
- Matchmaker.CreateTest: for a player without a `users` row, the check at cogs/matchmaker.py:265 depends on what the database driver returns. The model only states that the command stops before the form. The host's member lookup is left out, so the host is an id.
- Registration.HostPref: page 3 offers only the buttons "1", "2" and "3", so other ids are not parsed. Python's `int` would accept strings such as "4"; the model treats them as a failure.
- Registration.Register: the database's answer to the INSERT is the input `insertAccepted`. A new row takes the database defaults, and its `queue_disable_time` is unset.
- cogs/game.py, cogs/error_messages.py and main.py are not part of this model: they are channel cleanup, error texts and process start-up.
