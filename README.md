# Student schedule API: block store, "today" resolver and drop classifier

A Dafny model of the logic of a small student-focus backend (`main.py`): the
validation of time blocks, the replace-all schedule store with its ordered
read, the resolver that says which block is current (or next) at a local
time, the derivation of that local time from a UTC instant and a fixed
minute offset, and the two-stage choice of the reward ("drop") granted on
completing a block.

Modules, one per component:

- `Wrappers` (`wrappers.dfy`): `Option` and `Result`.
- `Blocks` (`blocks.dfy`): the `Block` record, the per-field validation of the
  request model and the validation of a submitted list.
- `Schedule` (`schedule.dfy`): the block table as a sequence of
  `(schedule_id, block)` rows in insertion order, the `ORDER BY` reads as a
  stable insertion sort, and delete-then-insert replace-all.
- `Resolver` (`resolver.dfy`): the scan loop of the "today" handler as a method
  with invariants, proved equal to a specification function, and what that
  function reports about the day's blocks.
- `LocalClock` (`localclock.dfy`): weekday and minute of day from UTC seconds
  and an optional offset in minutes (default -360).
- `Drops` (`drops.dfy`): drop type and label, the random draws taken as inputs.
- `ScheduleStore` (`store.dfy`): class `Store` holding the schedules table, the
  block rows and the admin code, with `GetSchedule`, `Replace` and `Today`.
- `Scenarios` (`scenarios.dfy`): client methods on a store holding a Monday
  16:00-16:45 block, concluding each response from the operations' contracts.

Behaviour of the code worth noting:

- At Monday 15:00 a block starting at 16:00 is upcoming in 60 minutes,
  `start_min - minutes_now` (main.py:293); see `Scenarios.TodayBeforeMath`.
- The comet and star labels are "Comet ✨" and "Star ⭐" (main.py:311, 313).
- Request validation runs before the handler, so an invalid block list is
  refused (with every field error) before the admin code is looked at; a
  wrong admin code is only reported for a request whose blocks are valid.

## Model

| member | source | states |
|---|---|---|
| Blocks.FieldErrors | main.py:127-140 | a block has no validation error iff weekday in 0..6, start in 0..1439, end in 1..1440 and end > start; each range error is reported iff that field is out of range, and "end must be greater than start" iff both minute fields are in range and end <= start |
| Blocks.WellFormedDuration | main.py:129-140 | an accepted block lasts between 1 and 1440 minutes |
| Blocks.ListErrors | main.py:147-150 | the errors of a submitted list are empty iff every block is accepted; every reported error names a block position and one of that block's own errors, and every error of every block is reported |
| Blocks.ValidateBlocks | main.py:147-150 | the list is accepted unchanged iff every block is well formed, otherwise a non-empty set of exactly the blocks' errors is returned |
| Schedule.Insert | main.py:229-231 | inserting a block adds exactly that block to the multiset of rows |
| Schedule.InsertSorted | main.py:229-231 | inserting into a list ordered by (day_of_week, start_min) keeps it ordered |
| Schedule.SortBlocks | main.py:229-231 | the ordered read is ordered by (day_of_week, start_min) and is a permutation of its input |
| Schedule.BlocksOf | main.py:229-231 | a block is in a schedule's blocks iff the table holds a row of that schedule with that block |
| Schedule.Without | main.py:250 | after the delete, a row remains iff it was there and belongs to another schedule |
| Schedule.OnDay | main.py:266-269 | a block is in a day's blocks iff it is in the schedule's blocks and has that weekday |
| Schedule.ScheduleBlocksExact | main.py:229-231 | the schedule read is ordered, is a permutation of the schedule's stored blocks, and lists a block iff a row of the schedule holds it |
| Schedule.DayRowsExact | main.py:266-269 | the rows read for a weekday are in ascending start order and are exactly that weekday's blocks of the schedule |
| Schedule.BlocksOfAppend | main.py:251-254 | reading a schedule's blocks from a table with rows appended reads the old rows, then the new ones |
| Schedule.BlocksOfWithout | main.py:250 | after the delete the schedule has no blocks and every other schedule keeps its blocks in order |
| Schedule.BlocksOfTag | main.py:251-254 | the inserted rows give back exactly the submitted list for their schedule and nothing for any other |
| Schedule.ReplaceRowsExact | main.py:250-254 | after delete-then-insert the schedule's blocks are exactly the submitted list (none for an empty list), and every other schedule's blocks are unchanged |
| Resolver.FirstWhere | main.py:274-279 | the position found is the first one with the property; none is found iff no block has it |
| Resolver.Resolution | main.py:272-295 | never both a current and an upcoming block; minutes_left is present iff a current block is, and then lies in 1..(end - start); a reported wait is positive; no blocks gives the empty result |
| Resolver.Resolve | main.py:272-295 | the scan with early exit returns exactly the specification: the first block with start <= now < end as current with end - now left, else the first block with start > now as upcoming with start - now, else nothing |
| Resolver.ResolutionReports | main.py:266-295 | on a day in ascending start order: a current block is in the day, is live now and no live block of the day starts before it; with no current block no block of the day is live, the wait is to the earliest later start, and no wait is reported iff no block starts later |
| Resolver.ReportsSameBlocks | main.py:266-269 | what the result says about a day depends only on which blocks the day holds |
| Resolver.StartInclusiveEndExclusive | main.py:275 | a 600-645 block is current at 600 and 644 and not at 645, where the next block becomes upcoming; after the last block the result is empty |
| LocalClock.ToLocal | main.py:199-204 | an offset is refused iff it is a whole day or more; otherwise the weekday is in 0..6 and equals (days since the epoch + 3) mod 7 of the shifted instant, and the minute of day (0..1439) is the whole minutes of the shifted instant within its day, seconds dropped (the derivation of main.py:264-265) |
| LocalClock.DefaultIsUtcMinusSix | main.py:199-201 | with no offset the local time is that of offset -360, and it is never refused |
| LocalClock.NextDay | main.py:264-265 | one day later the minute of day is the same and the weekday is the next one mod 7 |
| LocalClock.MondayAfternoon | main.py:264-265 | 22:30 UTC on 1970-01-05 is Monday (0) minute 990 in UTC-6 |
| Drops.Complete | main.py:299-313 | a rare draw gives a comet labelled "Comet ✨" whatever the difficulty; otherwise a hard block gives a planet labelled "Planet " plus the letter chr(65 + i) in A..Z, and an easy or medium one a star labelled "Star ⭐" |
| Drops.LabelRoundTrip | main.py:306-313 | every label reads back to its drop type, and a planet label to its letter index, so the 26 planet labels and the other two are all distinct |
| Drops.CommonTierByDifficulty | main.py:300-304 | outside the rare draw there is no comet, a hard block never gets a star and an easy or medium one never a planet |
| ScheduleStore.NewTitle | main.py:247-248 | the new title is either the old one or the requested one |
| ScheduleStore.TitleChangesIffGiven | main.py:247-248 | the title changes iff a non-empty title different from the old one is given; no title or an empty one leaves it |
| ScheduleStore.Store.DefaultId | main.py:177-179 | the default schedule has the smallest id of all schedules |
| ScheduleStore.Store.GetSchedule | main.py:223-238 | the response carries the default schedule's id and title and its blocks ordered by (day, start), exactly the stored ones as a multiset |
| ScheduleStore.Store.Replace | main.py:240-257 | an invalid block list is refused with its errors and a wrong admin code with Forbidden, both with nothing changed; otherwise only the default schedule's title may change (as NewTitle says), its blocks become exactly the submitted list, other schedules' blocks are unchanged, and every stored block stays well formed |
| ScheduleStore.Store.Today | main.py:259-295 | a refused offset is an error; otherwise the result is the scan of the default schedule's rows for the local weekday in start order at the local minute, and it reports on that weekday's blocks as ResolutionReports says |

## Left out

- SQLite connections, schema creation and the seed rows: the tables are in-memory sequences, and the store is constructed from any valid initial tables.
- FastAPI routing, CORS and HTTP status codes: errors are `Result` values (`Invalid` for a failed request validation, `Forbidden` for a wrong admin code, `OffsetOutOfRange` for a refused offset).
- The admin-verify route: it only returns `IsAdmin` of the submitted code.
- Pydantic's type coercion (strings or floats accepted as integers) and its error messages: the model takes typed blocks and reports which field failed.
- Blocks.ListErrors: reports the set of errors, not pydantic's order of the error list.
- Schedule.SortBlocks: SQLite leaves the order of rows with equal (day_of_week, start_min) unspecified; the model keeps them in insertion order.
- Parsing of the ISO-8601 override timestamp, its 400 error, naive timestamps, and the live clock: the instant is an input in whole UTC seconds since the epoch.
- LocalClock.ToLocal: the calendar range of Python's datetime (years 1 to 9999) is not modelled; the instant is any integer.
- `random.random() < 0.05` and `random.randint(0, 25)`: the rare draw is the boolean `rare` and the letter is an index in 0..25; the probabilities themselves are not modelled.
- Saving a drop and the drops-of-today query: insert-and-select against the database keyed by the wall-clock date, with no logic of their own.
- The fallback of the row reader to "medium" for a NULL difficulty: every row the model stores carries a difficulty.
- User registration and the health route.
- Concurrency: each operation is one atomic step on the store.
