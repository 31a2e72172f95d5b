# rush — a verified model of the run tracker's core

Rush is an Android running app written in Kotlin. While a run is recorded it collects location
fixes, shows live distance, duration, pace and speed, and lets the runner pause, resume and stop.
A stopped run is saved as a session in a Room (SQLite) database. After each write but
`deleteAllSessions`, the repository recomputes a row of aggregate statistics and appends it.

This project models that core in Dafny:

- `running_view_model.dfy` — `RunningViewModel`: the run lifecycle as a class whose methods update
  its fields.
  - The start time, the pause bookkeeping, the two location buffers, the live statistics and the
    current session are all fields.
  - The clock (`System.currentTimeMillis()`) and the session id (`UUID.randomUUID()`) are
    parameters.
  - A location fix arriving and a timer tick are method calls.
- `location_service.dfy` — `LocationService.calculateDistance` (a loop, proved against
  `PathLength`), `calculatePace` and `calculateCalories`. `Location.distanceTo` is a function
  parameter.
- `format_utils.dfy` — `FormatUtils`:
  - `%d` and `%02d` are modelled to the character, with ASCII digits.
  - The `%.Nf` conversions are kept as a `Reading` (amount, decimals, unit).
- `running_session.dfy` and `running_session_entity.dfy` — the domain records, the stored rows,
  their defaults and their derived getters.
- `session_dao.dfy` and `statistics_dao.dfy` — the two Room DAOs.
  - Each table is a class holding its rows in scan order with unique primary keys.
  - Each `SELECT` is a function of the rows.
  - Each insert, update and delete is a method.
  - `keyed_rows.dfy`, `ordering.dfy` and `aggregates.dfy` give the SQL semantics:
    - `REPLACE` conflict resolution;
    - `ORDER BY ... DESC` and `LIMIT`;
    - `SUM`, `MIN`, `MAX` and `AVG`, which are null on no rows.
- `running_repository.dfy` — `RunningRepository`:
  - the domain/row conversions;
  - the statistics recomputation;
  - the write operations, where a DAO call that throws is a boolean parameter;
  - the cleanup cutoff.
- `common.dfy` and `geo.dfy` — Kotlin's truncating integer division and remainder, `toInt`,
  `roundToInt`, nullable values, and the location and coordinate types.

Numbers:

- A Kotlin `Float` is a `real`, so rounding to 32-bit floats is not modelled.
- `Long` and `Int` are unbounded integers, except in the cleanup cutoff, where the 32-bit `Int`
  wrap-around matters and is written out.

## Model

| member | source | states |
|---|---|---|
| ViewModel.RunningViewModel.constructor | app/src/main/java/com/example/rush/viewmodel/RunningViewModel.kt:28-48 | a new view model has default statistics, a default session, zero times and empty buffers |
| ViewModel.RunningViewModel.StartRun | app/src/main/java/com/example/rush/viewmodel/RunningViewModel.kt:50-68 | unguarded: from any state, the run is running and not paused, the start time is `now`, closed pauses and both buffers are cleared, and the current session is a fresh one with that id starting at `now` |
| ViewModel.RunningViewModel.PauseRun | app/src/main/java/com/example/rush/viewmodel/RunningViewModel.kt:70-77 | a running, unpaused run becomes paused with `pausedTime = now`, and nothing else changes; in every other state nothing at all changes |
| ViewModel.RunningViewModel.ResumeRun | app/src/main/java/com/example/rush/viewmodel/RunningViewModel.kt:79-86 | a running, paused run adds `now - pausedTime` to the paused total and unpauses; in every other state nothing changes |
| ViewModel.RunningViewModel.StopRun | app/src/main/java/com/example/rush/viewmodel/RunningViewModel.kt:88-125 | the completed session has end time `now`, duration `now - startTime - totalPausedDuration`, the path length of the buffered fixes, the pace and calories of those, the top speed (0 with no fixes) and snapshots of both buffers, so its route is the coordinates of its fixes, and it is no longer active for a non-zero `now`; the live statistics, the current session and both buffers are then reset |
| ViewModel.RunningViewModel.OnLocation | app/src/main/java/com/example/rush/viewmodel/RunningViewModel.kt:129-137 | the fix is appended to `locations` and its coordinate to `routePoints` (the buffers stay in lockstep, `Valid`); the live statistics are then all refreshed (`LiveStats`), so the live speed and position are the new fix's |
| ViewModel.RunningViewModel.TimerTick | app/src/main/java/com/example/rush/viewmodel/RunningViewModel.kt:146-155 | the loop ends exactly when the run is not running; a paused run changes nothing; otherwise every live statistic is refreshed (`LiveStats`); the lifecycle flags never change |
| ViewModel.RunningViewModel.UpdateRunningStats | app/src/main/java/com/example/rush/viewmodel/RunningViewModel.kt:162-182 | the live statistics become `LiveStats` of the buffers after `now - startTime - totalPausedDuration`; nothing else changes |
| ViewModel.LiveStats | app/src/main/java/com/example/rush/viewmodel/RunningViewModel.kt:162-182 | the refreshed statistics: the path length of the fixes, a pace consistent with the shown distance and duration, the last fix's speed and coordinate (null exactly with no fixes), the buffered route, and the lifecycle flags kept |
| ViewModel.MaxSpeed | app/src/main/java/com/example/rush/viewmodel/RunningViewModel.kt:94 | 0 with no fixes; otherwise the speed of some fix that no fix exceeds |
| Geo.RouteOf | app/src/main/java/com/example/rush/viewmodel/RunningViewModel.kt:129-134 | the route has one coordinate per fix, the coordinate of the fix at the same position |
| ViewModel.PauseIsSubtracted | app/src/main/java/com/example/rush/viewmodel/RunningViewModel.kt:79-90 | start at t0, pause at t1, resume at t2, stop at t3 saves a session from t0 to t3 lasting `(t3 - t0) - (t2 - t1)` |
| ViewModel.OpenPauseIsNotSubtracted | app/src/main/java/com/example/rush/viewmodel/RunningViewModel.kt:70-90 | start at t0, pause at t1 and stop at t3 saves a duration of `t3 - t0`: a pause still open is not subtracted |
| ViewModel.StopWithoutFixes | app/src/main/java/com/example/rush/viewmodel/RunningViewModel.kt:88-104 | a run stopped with no fixes is saved with zero distance, pace and top speed and an empty route |
| ViewModel.FixesAreSaved | app/src/main/java/com/example/rush/viewmodel/RunningViewModel.kt:129-134 | two fixes recorded during a run are saved in order with their coordinates; the saved distance is the one segment between them, and the top speed is the larger speed |
| LocationService.CalculateDistance | app/src/main/java/com/example/rush/service/LocationService.kt:99-107 | 0 for fewer than two fixes; otherwise the loop's total is `PathLength`, the sum of `distanceTo` over consecutive pairs in list order |
| LocationService.PathLengthAppend | app/src/main/java/com/example/rush/service/LocationService.kt:102-106 | appending a fix adds exactly the segment from the previous last fix |
| LocationService.PathLengthNonNegative | app/src/main/java/com/example/rush/service/LocationService.kt:102-106 | with non-negative segment lengths, the distance is non-negative |
| LocationService.PathLengthMonotone | app/src/main/java/com/example/rush/service/LocationService.kt:102-106 | with non-negative segment lengths, a longer prefix of the fixes is never shorter |
| LocationService.CalculatePace | app/src/main/java/com/example/rush/service/LocationService.kt:109-114 | 0 when the distance or the duration is not positive; otherwise a positive pace that, times the kilometres, gives the minutes |
| LocationService.SpeedTimesPace | app/src/main/java/com/example/rush/data/RunningSession.kt:17 | for a positive distance and duration, `averageSpeed` (m/s) times `calculatePace` (min/km) is 1000/60: the two getters describe the same run |
| LocationService.CalculateCalories | app/src/main/java/com/example/rush/service/LocationService.kt:116-121 | the MET energy (8.0 x weight x hours), truncated toward zero to a whole number |
| LocationService.CaloriesIgnoreDistance | app/src/main/java/com/example/rush/service/LocationService.kt:116-120 | the distance argument never changes the calories |
| LocationService.CaloriesMonotone | app/src/main/java/com/example/rush/service/LocationService.kt:118-120 | for a non-negative weight, calories are non-negative and non-decreasing in duration |
| FormatUtils.TimeFields | app/src/main/java/com/example/rush/utils/FormatUtils.kt:8-10 | for ms >= 0: minutes and seconds lie in 0..59 and `3600 h + 60 m + s = ms / 1000` |
| FormatUtils.FormatTime | app/src/main/java/com/example/rush/utils/FormatUtils.kt:7-17 | at least "MM:SS"; for a non-negative duration the five-character form is used exactly below one hour |
| FormatUtils.FormatTimeReadsBack | app/src/main/java/com/example/rush/utils/FormatUtils.kt:7-17 | the text has three colon-separated fields exactly when there is a whole hour; each field is at least two digits and reads back as that field's value |
| FormatUtils.SameSecondSameText | app/src/main/java/com/example/rush/utils/FormatUtils.kt:8-16 | durations with the same whole-second count format identically |
| FormatUtils.Pad2 | app/src/main/java/com/example/rush/utils/FormatUtils.kt:13-15 | `%02d`: at least two characters, exactly two for 0..99, zero-padded only below 10 (a negative number keeps its sign and is not padded), and it reads back as the number |
| FormatUtils.Signed | app/src/main/java/com/example/rush/utils/FormatUtils.kt:33 | `%d`: reads back as the number; a canonical numeral, digits with no leading zero when non-negative and `-` then such digits when negative |
| FormatUtils.FormatDistance | app/src/main/java/com/example/rush/utils/FormatUtils.kt:19-25 | kilometres with two decimals exactly when meters >= 1000, otherwise whole metres |
| FormatUtils.DistanceShownInKm | app/src/main/java/com/example/rush/utils/FormatUtils.kt:19-21 | from 1000 m on, the amount shown is `distanceInKm`, with two decimals |
| FormatUtils.SpeedShownPerHour | app/src/main/java/com/example/rush/utils/FormatUtils.kt:36-39 | the km/h shown for a run's `averageSpeed`, times the hours it lasted, is its `distanceInKm` |
| FormatUtils.FormatCalories | app/src/main/java/com/example/rush/utils/FormatUtils.kt:41-43 | the text ends in " cal" and the part before it reads back as the calories |
| FormatUtils.FormatPace | app/src/main/java/com/example/rush/utils/FormatUtils.kt:27-34 | "--:--" exactly when the pace is not positive, infinite or NaN |
| FormatUtils.FormatPaceFields | app/src/main/java/com/example/rush/utils/FormatUtils.kt:30-33 | for a positive pace, the minutes field is the pace's integer part, and the seconds field is in 0..60 |
| FormatUtils.FormatPaceShowsSixtySeconds | app/src/main/java/com/example/rush/utils/FormatUtils.kt:30-33 | a pace of 5.995 is shown as "5:60" |
| FormatUtils.FormatPaceCarried | app/src/main/java/com/example/rush/utils/FormatUtils.kt:27-34 | "--:--" for exactly the inputs `formatPace` rejects |
| FormatUtils.FormatPaceCarriedFields | app/src/main/java/com/example/rush/utils/FormatUtils.kt:30-33 | for a positive pace, the carried text has two fields, the seconds lie in 0..59, and `60 m + s` is the pace in seconds, rounded |
| FormatUtils.CarriedAgreesBelowSixty | app/src/main/java/com/example/rush/utils/FormatUtils.kt:30-33 | the carried form equals `formatPace` unless `formatPace` shows 60 seconds, in which case it shows the next minute and 00 |
| Common.TruncDiv | app/src/main/java/com/example/rush/utils/FormatUtils.kt:8-10 | Kotlin `/`: the quotient rounds toward zero |
| Common.TruncRem | app/src/main/java/com/example/rush/utils/FormatUtils.kt:8-9 | Kotlin `%`: the dividend is the divisor times the quotient plus the remainder, and the remainder has the dividend's sign |
| Common.TruncDivUnits | app/src/main/java/com/example/rush/utils/FormatUtils.kt:9-10 | dividing by 1000 and then by 60 is dividing by 60000, and likewise for hours |
| Common.TruncToInt | app/src/main/java/com/example/rush/service/LocationService.kt:120 | `Float.toInt()` drops the fraction, rounding toward zero |
| Common.RoundToInt | app/src/main/java/com/example/rush/utils/FormatUtils.kt:31 | `roundToInt()` gives the nearest integer, with halves rounded up |
| Common.WholeSeconds | app/src/main/java/com/example/rush/data/RunningSession.kt:19 | `durationInSeconds` is the duration in whole seconds, truncated toward zero |
| RunningData.ActiveUntilEnded | app/src/main/java/com/example/rush/data/RunningSession.kt:16 | with end time 0 a session is active exactly when its start time is positive; with a non-zero end time it is inactive |
| RunningData.DefaultSessionInactive | app/src/main/java/com/example/rush/data/RunningSession.kt:5-19 | the default session has an empty id, zero times and metrics, no fixes and no route, and is not active |
| RunningData.DefaultStatsIdle | app/src/main/java/com/example/rush/data/RunningSession.kt:22-29 | the default live statistics are neither running nor paused, with every metric zero and no position or route |
| Entities.SessionEntityDefaults | app/src/main/java/com/example/rush/database/entities/RunningSessionEntity.kt:21-23 | a row built without them has an empty route and empty notes and weather |
| Entities.StatisticsEntityDefaults | app/src/main/java/com/example/rush/database/entities/RunningSessionEntity.kt:33-45 | a default statistics row has id 0 (assigned on insert) and every total and record zero |
| KeyedRows.Upsert | app/src/main/java/com/example/rush/database/dao/RunningSessionDao.kt:58-59 | a `REPLACE` insert keeps the new row and every row with another key, and nothing else; primary keys stay unique |
| KeyedRows.Filter | app/src/main/java/com/example/rush/database/dao/RunningSessionDao.kt:76-77 | `WHERE`: each row that passes keeps its multiplicity, no other row appears, and the order is kept |
| KeyedRows.RemoveKey | app/src/main/java/com/example/rush/database/dao/RunningSessionDao.kt:70-71 | deleting by primary key keeps exactly the rows with another key, and keys stay unique |
| KeyedRows.UpsertLookup | app/src/main/java/com/example/rush/database/dao/RunningStatisticsDao.kt:16-17 | after a `REPLACE` insert, the key holds the new row and every other key answers as before |
| KeyedRows.RemoveKeyLookup | app/src/main/java/com/example/rush/database/dao/RunningSessionDao.kt:70-71 | after deleting a key, nothing answers to it and every other key answers as before |
| KeyedRows.LookupUnique | app/src/main/java/com/example/rush/database/entities/RunningSessionEntity.kt:12-13 | with a primary key, a row is in the table exactly when looking up its key returns it |
| Ordering.SortDescending | app/src/main/java/com/example/rush/database/dao/RunningSessionDao.kt:10-11 | `ORDER BY ... DESC` returns a permutation of the rows in descending order, led by a row no row outranks |
| Ordering.Limit | app/src/main/java/com/example/rush/database/dao/RunningSessionDao.kt:16-17 | `LIMIT n` returns the first `min(n, rows)` rows (all of them for a negative n) |
| Aggregates.SqlSum | app/src/main/java/com/example/rush/database/dao/RunningSessionDao.kt:25-26 | `SUM`: null exactly on no rows, otherwise the sum |
| Aggregates.Max | app/src/main/java/com/example/rush/database/dao/RunningSessionDao.kt:40-41 | `MAX`: null exactly on no rows, otherwise a value of the column no value exceeds |
| Aggregates.Min | app/src/main/java/com/example/rush/database/dao/RunningSessionDao.kt:37-38 | `MIN`: null exactly on no rows, otherwise a value of the column no value undercuts |
| Aggregates.Avg | app/src/main/java/com/example/rush/database/dao/RunningSessionDao.kt:34-35 | `AVG`: null exactly on no rows, otherwise the mean (times the row count, the sum) |
| Aggregates.MinAtMostAvg | app/src/main/java/com/example/rush/database/dao/RunningSessionDao.kt:34-38 | the minimum of a non-empty column is at most its average |
| Aggregates.MaxAtMostSum | app/src/main/java/com/example/rush/database/dao/RunningSessionDao.kt:25-41 | in a non-negative column, the maximum is at most the sum |
| SessionDao.GetAllSessions | app/src/main/java/com/example/rush/database/dao/RunningSessionDao.kt:10-11 | every row exactly once (a permutation), newest start first |
| SessionDao.GetSessionById | app/src/main/java/com/example/rush/database/dao/RunningSessionDao.kt:13-14 | the row with that id, or null when no row has it |
| SessionDao.GetRecentSessions | app/src/main/java/com/example/rush/database/dao/RunningSessionDao.kt:16-17 | the first `min(limit, n)` rows of `GetAllSessions` (10 by default) |
| SessionDao.GetSessionsInDateRange | app/src/main/java/com/example/rush/database/dao/RunningSessionDao.kt:19-20 | exactly the rows with `startDate <= startTime <= endDate`, each as often as stored, newest first |
| SessionDao.GetTotalSessionCount | app/src/main/java/com/example/rush/database/dao/RunningSessionDao.kt:22-23 | the number of sessions listed; 0 exactly when none is |
| SessionDao.GetTotalDistance | app/src/main/java/com/example/rush/database/dao/RunningSessionDao.kt:25-26 | null exactly on an empty table, otherwise the sum of the distances |
| SessionDao.GetTotalDuration | app/src/main/java/com/example/rush/database/dao/RunningSessionDao.kt:28-29 | null exactly on an empty table, otherwise the sum of the durations |
| SessionDao.GetTotalCalories | app/src/main/java/com/example/rush/database/dao/RunningSessionDao.kt:31-32 | null exactly on an empty table, otherwise the sum of the calories |
| SessionDao.Paces | app/src/main/java/com/example/rush/database/dao/RunningSessionDao.kt:34-38 | the `WHERE avgPace > 0` column: one entry per run with a positive pace, each the pace of some run, every such pace present, empty exactly when no run has one |
| SessionDao.PacesCount | app/src/main/java/com/example/rush/database/dao/RunningSessionDao.kt:34-38 | each positive pace occurs in the column exactly as often as there are runs with that pace |
| SessionDao.GetAveragePace | app/src/main/java/com/example/rush/database/dao/RunningSessionDao.kt:34-35 | null exactly when no run has a positive pace; otherwise the mean of the positive paces, one per run (`Paces`, `PacesCount`) |
| SessionDao.GetBestPace | app/src/main/java/com/example/rush/database/dao/RunningSessionDao.kt:37-38 | null exactly when no run has a positive pace; otherwise a positive pace no run's positive pace undercuts |
| SessionDao.GetLongestDistance | app/src/main/java/com/example/rush/database/dao/RunningSessionDao.kt:40-41 | null exactly on an empty table; otherwise the distance of some run, which no run exceeds |
| SessionDao.GetLongestDuration | app/src/main/java/com/example/rush/database/dao/RunningSessionDao.kt:43-44 | null exactly on an empty table; otherwise a run's duration that no run exceeds |
| SessionDao.GetLongestRun | app/src/main/java/com/example/rush/database/dao/RunningSessionDao.kt:46-47 | null exactly on an empty table; otherwise a stored run that no run is longer than |
| SessionDao.GetFastestRun | app/src/main/java/com/example/rush/database/dao/RunningSessionDao.kt:49-50 | null exactly when no run has a positive pace; otherwise a stored run with a positive pace that no such run beats |
| SessionDao.GetSessionsSince | app/src/main/java/com/example/rush/database/dao/RunningSessionDao.kt:52-56 | exactly the rows with `startTime >= bound`, each as often as stored, newest first (the week and month queries) |
| SessionDao.UpsertAllLookup | app/src/main/java/com/example/rush/database/dao/RunningSessionDao.kt:61-62 | after inserting a list, ids stay unique, each id of the list holds the last listed session with that id, and any other id holds what it held before |
| SessionDao.UpsertAll | app/src/main/java/com/example/rush/database/dao/RunningSessionDao.kt:61-62 | inserting a list one `REPLACE` at a time leaves only rows that were stored or listed |
| SessionDao.RunningSessionDao.InsertSession | app/src/main/java/com/example/rush/database/dao/RunningSessionDao.kt:58-59 | afterwards the id holds exactly the inserted row, every other id answers as before, and ids stay unique |
| SessionDao.RunningSessionDao.InsertSessions | app/src/main/java/com/example/rush/database/dao/RunningSessionDao.kt:61-62 | the list is inserted one `REPLACE` at a time, in order |
| SessionDao.RunningSessionDao.UpdateSession | app/src/main/java/com/example/rush/database/dao/RunningSessionDao.kt:64-65 | the row with the same id becomes the entity, and every other row is unchanged; with no such row the table is unchanged |
| SessionDao.RunningSessionDao.DeleteSession | app/src/main/java/com/example/rush/database/dao/RunningSessionDao.kt:67-68 | removes the row with the entity's primary key |
| SessionDao.RunningSessionDao.DeleteSessionById | app/src/main/java/com/example/rush/database/dao/RunningSessionDao.kt:70-71 | exactly the row with that id goes, and every other id answers as before |
| SessionDao.RunningSessionDao.DeleteAllSessions | app/src/main/java/com/example/rush/database/dao/RunningSessionDao.kt:73-74 | the table is empty |
| SessionDao.RunningSessionDao.DeleteOldSessions | app/src/main/java/com/example/rush/database/dao/RunningSessionDao.kt:76-77 | a row stays exactly when it started at or after the cutoff |
| StatisticsDao.AssignedId | app/src/main/java/com/example/rush/database/entities/RunningSessionEntity.kt:34-35 | an `AUTOINCREMENT` id is never 0; an explicit id is kept, and id 0 gets an id above every id handed out |
| StatisticsDao.GetLatestStatistics | app/src/main/java/com/example/rush/database/dao/RunningStatisticsDao.kt:10-11 | null exactly on an empty table; otherwise a stored row that no row was updated after |
| StatisticsDao.GetStatisticsById | app/src/main/java/com/example/rush/database/dao/RunningStatisticsDao.kt:13-14 | the row with that id, or null when no row has it |
| StatisticsDao.RunningStatisticsDao.InsertStatistics | app/src/main/java/com/example/rush/database/dao/RunningStatisticsDao.kt:16-17 | the row is stored under its id, or a fresh id when its id is 0, replacing a row with that id; every other id answers as before |
| StatisticsDao.RunningStatisticsDao.UpdateStatistics | app/src/main/java/com/example/rush/database/dao/RunningStatisticsDao.kt:19-20 | the row with the same id becomes the argument; with no such row nothing changes |
| StatisticsDao.RunningStatisticsDao.DeleteAllStatistics | app/src/main/java/com/example/rush/database/dao/RunningStatisticsDao.kt:22-23 | the table is empty, and the id counter is not reset |
| StatisticsDao.RunningStatisticsDao.UpdateLastUpdated | app/src/main/java/com/example/rush/database/dao/RunningStatisticsDao.kt:25-26 | only `lastUpdated` of the rows with that id changes; every other field and row is unchanged |
| Repository.ToEntity | app/src/main/java/com/example/rush/repository/RunningRepository.kt:22-34 | the row keeps the session's id; `createdAt` is the clock and the notes and weather are empty; all four getters agree with the session's |
| Repository.ToDomainModel | app/src/main/java/com/example/rush/repository/RunningRepository.kt:36-49 | the session keeps the row's id, has no fixes, and all four getters agree with the row's |
| Repository.DomainRoundTrip | app/src/main/java/com/example/rush/repository/RunningRepository.kt:22-49 | storing and loading a session gives it back with its fixes dropped |
| Repository.EntityRoundTrip | app/src/main/java/com/example/rush/repository/RunningRepository.kt:22-49 | loading and storing a row gives it back, except for its notes, weather and creation time |
| Repository.ToEntityInjective | app/src/main/java/com/example/rush/repository/RunningRepository.kt:22-34 | two sessions stored as the same row differ at most in their fixes |
| Repository.StatisticsOf | app/src/main/java/com/example/rush/repository/RunningRepository.kt:136-155 | the statistics row awaits an id, is stamped `now` and counts the sessions; the other fields are the lemmas below |
| Repository.StatisticsOfEmpty | app/src/main/java/com/example/rush/repository/RunningRepository.kt:137-155 | with no sessions every aggregate is null, so the row is all zeros |
| Repository.StatisticsOfTotals | app/src/main/java/com/example/rush/repository/RunningRepository.kt:137-139 | with sessions, the totals are the column sums |
| Repository.StatisticsOfRecords | app/src/main/java/com/example/rush/repository/RunningRepository.kt:142-143 | with sessions, the longest distance and duration are each reached by some run and no run exceeds them; with non-negative distances, the longest run is at most the total |
| Repository.StatisticsOfPaces | app/src/main/java/com/example/rush/repository/RunningRepository.kt:140-141 | with no paced run both pace fields are 0; otherwise the average pace is the mean of the positive paces, and the best pace is the positive pace of some run, beats every such run and is at most the average |
| Repository.WrapInt | app/src/main/java/com/example/rush/repository/RunningRepository.kt:188 | Kotlin `Int` arithmetic: the result lies in the 32-bit range, equals the exact value when that fits, and otherwise differs from it by a multiple of 2^32 |
| Repository.CutoffOverflow | app/src/main/java/com/example/rush/repository/RunningRepository.kt:188 | as written, keeping 25000 days gives a cutoff 2,134,967,296,000 ms after now |
| Repository.CutoffAsWritten | app/src/main/java/com/example/rush/repository/RunningRepository.kt:188 | the span subtracted from now is whole seconds whose count fits an `Int` (at most 2^31 - 1 s, about 68 years) |
| Repository.Cutoff | app/src/main/java/com/example/rush/repository/RunningRepository.kt:188 | the cutoff plus `daysToKeep` days of milliseconds is now; with days kept it is not after now |
| Repository.CutoffAntitone | app/src/main/java/com/example/rush/repository/RunningRepository.kt:188 | keeping more days never moves the cutoff later |
| Repository.CutoffAgreesWithoutOverflow | app/src/main/java/com/example/rush/repository/RunningRepository.kt:188 | the written and the intended cutoff agree for -24855..24855 days |
| Repository.RunningRepository.UpdateStatistics | app/src/main/java/com/example/rush/repository/RunningRepository.kt:134-162 | without a failure, the recomputed row is appended under a fresh id and the latest row is then stamped `now` or later; a failure is swallowed and leaves the table unchanged |
| Repository.RunningRepository.InsertSession | app/src/main/java/com/example/rush/repository/RunningRepository.kt:96-105 | a failing insert is rethrown and changes nothing; otherwise the id holds the row built at `createdAt` and the statistics of the new table, stamped `now`, are appended |
| Repository.RunningRepository.UpdateSession | app/src/main/java/com/example/rush/repository/RunningRepository.kt:107-116 | a failing update is rethrown and changes nothing; otherwise an existing id holds the row built at `createdAt` and the statistics of the new table, stamped `now`, are appended |
| Repository.RunningRepository.DeleteSession | app/src/main/java/com/example/rush/repository/RunningRepository.kt:118-127 | a failing delete is rethrown and changes nothing; otherwise exactly that id goes and the statistics of the new table are appended |
| Repository.RunningRepository.DeleteAllSessions | app/src/main/java/com/example/rush/repository/RunningRepository.kt:176-185 | both tables are emptied and no statistics are recomputed; a failure at either step is rethrown and the later step is skipped |
| Repository.RunningRepository.DeleteOldSessions | app/src/main/java/com/example/rush/repository/RunningRepository.kt:187-196 | exactly the sessions started before the wrapping cutoff go (365 days by default); for -24855..24855 days that is `now - daysToKeep` days; the statistics of the new table, stamped at a second clock reading `statsNow`, are appended; failures are swallowed |

## Left out

- Coroutines, jobs and `StateFlow`s are not modelled.
  - This covers `viewModelScope.launch`, `delay(1000)`, job cancellation and `stateIn`.
  - Sample arrival and each pass of the timer loop are method calls (`OnLocation`, `TimerTick`), so
    their interleaving is whatever the caller chooses.
  - A second `startRun` leaks the previous tracking and timer jobs in the source; the model has no
    jobs, so this is not represented.
- The background save in `stopRun` is not called from the model.
  - It is a fire-and-forget `launch`.
  - `StopRun` returns the session it would save, and `Repository.RunningRepository.InsertSession`
    models the save.
- `LocationService.getLocationUpdates` is platform I/O (`LocationManager` callbacks and permission
  checks).
- `Location.distanceTo` is a function parameter. It is assumed non-negative only where a lemma says
  so.
- Floating point is not modelled:
  - `Float` is a real, so rounding is absent;
  - the `%.2f`, `%.1f` and `%.0f` conversions are kept as a `Reading`, not as digits;
  - `Float.toInt()` saturation is absent.
- `Long` overflow is not modelled. `Int` overflow is modelled only in the cleanup cutoff.
- The repository's read wrappers are not modelled separately:
  - `getStatistics` returns `StatisticsDao.GetLatestStatistics` unmapped;
  - `getTotalSessionCount` returns `SessionDao.GetTotalSessionCount` unmapped;
  - `getAllSessions`, `getSessionById`, `getRecentSessions`, `getThisWeekSessions`,
    `getThisMonthSessions`, `getLongestRun` and `getFastestRun` are `toDomainModel` mapped over the
    DAO query of the same name (the week and month queries are `SessionDao.GetSessionsSince`).
- The `java.util.Calendar` computation of the week and month start is left out. It is locale- and
  clock-dependent, so the bound is the parameter of `SessionDao.GetSessionsSince`.
- The view model's `deleteSession`, `clearAllData` and `cleanOldSessions` are not modelled. Each
  makes one repository call and logs any exception instead of rethrowing it:
  - `deleteSession` calls `Repository.RunningRepository.DeleteSession`;
  - `clearAllData` calls `Repository.RunningRepository.DeleteAllSessions`;
  - `cleanOldSessions(daysToKeep = 365)` calls `Repository.RunningRepository.DeleteOldSessions`
    with its own `daysToKeep`, so its 365-day default reaches the wrapping cutoff unchanged.
- `LocationConverters` (Gson JSON for the route column), `RunningDatabase` (the Room builder and
  singleton) and `RunningViewModelFactory` are left out: they are foreign-library and platform code.
- Logging is left out.
- Ordering among rows with an equal sort key: SQL leaves it unspecified.
  - `SessionDao.GetAllSessions` is specified only as some descending permutation.
  - `StatisticsDao.GetLatestStatistics` is specified only as some row no row was updated after.
- `String.format` uses the default locale, whose digits need not be ASCII. The model writes
  ASCII digits, as in an English locale.

## Findings

| source | as written | input that shows it | evidently intended | confidence | as-written member | corrected member |
|---|---|---|---|---|---|---|
| app/src/main/java/com/example/rush/utils/FormatUtils.kt:30-33 | the seconds are the rounded fraction of a minute, and a round-up to 60 is not carried into the minutes | pace 5.995 min/km shows "5:60" | round the whole pace to seconds, then split it into minutes and seconds (shows "6:00") | not executed | FormatUtils.FormatPaceShowsSixtySeconds | FormatUtils.FormatPaceCarried |
| app/src/main/java/com/example/rush/repository/RunningRepository.kt:188 | `daysToKeep * 24 * 60 * 60` is `Int` arithmetic that wraps before the `* 1000L` widening | `daysToKeep = 25000` gives a cutoff 2,134,967,296,000 ms after now, so every session is deleted | `now - daysToKeep * 86,400,000` computed in `Long` | not executed | Repository.CutoffOverflow | Repository.Cutoff |
