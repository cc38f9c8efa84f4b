# DataRecon, modelled and verified

DataRecon compares data sets, checks keys, runs saved suites on a schedule, and keeps what it found. This
project models five of its parts in Dafny and proves what they promise:

1. **The comparison engine** (`ComparisonEngine`, `Frames`, `ColumnMatching`, `Verdicts`): aligning column
   names, normalising, guarding keys, the outer merge, the four-way split, the chunked diff, the verdict.
   `EngineReference` is an independent key-by-key account of a comparison; `EngineRefinement`,
   `EngineFates`, `EngineAlignment` and `EngineTheorems` show that the vectorised engine refines it.
   `EngineCells` says when two cells and two keys count as the same, and `EngineErrors` which error a refused
   comparison raises. `EngineLocality` says when other keys' rows change a key's verdict, on frames built in
   `EngineExamples`; `EngineLaws` states laws of the options, and `EngineHistory` says when an engine can be
   reused.
2. **The cron language** (`Cron`, `CronPrinter`, `Calendar`, `CronSearch`, `CronFiring`, `CronLookahead`): the
   parser and its meaning, the matcher on the proleptic Gregorian calendar, when an expression fires as told
   by its own text, the bounded search for the next runs, and exactly when four years of lookahead are enough.
3. **The scheduler** (`TestSuites`, `Scheduler`, `ScheduleMeaning`, `SchedulerRuns`, `SchedulerActions`,
   `SchedulerWrites`, `SchedulerPreview`): the suite table, one tick and what it means to a person, whole runs of ticks
   interleaved with user actions, and the writes that break what those runs promise.
4. **Runs and their detail** (`Slugs`, `Numbering`, `RunStorage`, `RunReadBack`, `RunDetails`,
   `RunManagement`, `RunCrashes`, `FullDataValidation`): row first, detail second, deleted the other way
   round, as sequences of durable steps that may stop anywhere.
5. **Agreement between modules** (`MismatchAnalysis`, `ComparedTwice`, `MismatchRanking`,
   `ReferentialIntegrity`, `DuplicateValidation`, `Reporting`, `SheetNames`, `SheetExamples`, with `Sorting`
   for the orders they use).

Objects that the source updates in place are classes; loops of the source are loops. Each method is proved
against a function of its inputs or of the state before, and the theorems are about those functions.

## Reading the model

- A cell is null, a number (an exact rational or real), or a string; a column has one kind, and the kind
  decides how cells are compared. Frames carry their rows' invariant as a subset type.
- The data-frame library's merge, `duplicated`, `drop_duplicates`, `dropna`, and SQL's `GROUP BY` are given
  a short meaning of their own in `Frames` and `Sequences`; null keys equal each other in all of them,
  but not in a SQL join.
- An instant is a minute number and the microseconds into it. Zones are fixed whole-minute offsets.
- Percentages are counted in units of 0.0001 and rounded half to even on the exact ratio.
- How an execution, a notifier or the file system behaves is a parameter: an `Execution`, a `Delivery`, or
  the number of steps after which a save fails.

Where the code does not do what a reader would expect, the model follows the code and says so:

- PASS does not mean "no failed row": one failed row in two million still passes (`Verdicts.PassBound`).
- A row that exists on one side only can change the verdict of another key, when whole-number columns meet
  a tolerance of one or more (`EngineLocality.StrangerChangesAFate`; for which column kinds,
  `EngineLocality.LocalityIsImmunity`).
- A reused engine whose next call lacks the target frame may fail in another way than a fresh one
  (`EngineHistory.RespelledKeyIsRemembered`; exactly when, `EngineHistory.ReuseWithoutTarget`).
- The comment beside the lookahead says that a schedule with no run within four years has none worth
  waiting for; it also misses the 29 February of a schedule around a year such as 2100
  (`CronLookahead.LeapDayMissed`; from which starts, `CronLookahead.MissedStarts`).
- `0-7` as a day of week is Sunday alone, since 7 becomes 0 before the range is built
  (`CronPrinter.SevenInRange`).
- An `update` between two ticks of a minute fires a suite twice when the row it writes back is due again
  (`SchedulerWrites.WriteBackFiresTwice`; a concrete run, `SchedulerWrites.EveryMinuteFiresTwice`).
- The runs listed when a schedule is set start with the next minute. A tick still to come in the minute of
  setting may run the suite as well (`SchedulerPreview.LateTickFires`; exactly when,
  `SchedulerPreview.FiresAsPreviewed`).
- A duplicate check can fail with an empty sample (`DuplicateValidation.FailsWithEmptySample`; exactly when
  samples are empty, `DuplicateValidation.EmptySample`).
- Sheet names are kept apart case-sensitively, but the workbook writer refuses names that differ only by case
  (exactly when, `SheetNames.SectionsFoldDistinct`). So a section called `summary` is refused when it is
  within the row cap and accepted above it, where its sheets are numbered (`SheetExamples.SummarySection`);
  two titles that differ only by case are refused unless exactly one of the sections is above the cap
  (`SheetExamples.TitlesDifferByCase`, for sections of up to nine sheets).
- A compare column asked for under two names is compared twice and counts two hits for one row
  (`ComparedTwice.AskedForAsAAndSmallA`; how many hits in general, `ComparedTwice.HitsAreRequestsTimesRows`).
- `sat-sun` is refused as running backwards, since Sunday is 0 (`CronPrinter.NamedRange`).

## Model

| member | source | states |
|---|---|---|
| `Cron.ParseField` | datarecon/core/cron.py:124-130 | the accumulating loop over the comma pieces yields their union, or the error of the first bad piece |
| `Cron.PieceSound` | datarecon/core/cron.py:133-156 | an accepted piece denotes start, start+step, up to end: non-empty and inside the field's bounds |
| `Cron.ToValueInRange` | datarecon/core/cron.py:159-172 | every accepted name or number lies in the field's range, 7 having become Sunday's 0 |
| `Cron.FieldMeaning` | datarecon/core/cron.py:124-130 | a field is accepted exactly when each piece is, and then denotes their non-empty, in-range union |
| `Cron.PieceOrderIrrelevant` | datarecon/core/cron.py:126-127 | reordering or repeating the comma pieces changes neither acceptance nor meaning |
| `Cron.StarIsFull` | datarecon/core/cron.py:145-146 | a bare star denotes every value of its field |
| `Cron.ParseSound` | datarecon/core/cron.py:65-91 | an accepted expression has five non-empty in-range sets, and with the OR flag off one day field is full |
| `CronPrinter.PrintedPiece` | datarecon/core/cron.py:133-156 | the text of any piece tree, of numbers, names in any case, ranges and steps, is read back to the tree's meaning, and when it has none it is refused for its first fault |
| `CronPrinter.PrintedField` | datarecon/core/cron.py:124-130 | the text of a list of pieces is accepted exactly when each means something, and denotes the union |
| `CronPrinter.CommaListRoundTrip` | datarecon/core/cron.py:124-156 | any non-empty in-range set, written as a comma list in any order, parses back to itself |
| `CronPrinter.SevenInRange` | datarecon/core/cron.py:147-152 | 0-7 denotes Sunday alone and 5-7 runs backwards, because 7 is 0 before the range is built |
| `CronPrinter.MonthByName` | datarecon/core/cron.py:159-163 | a month's name, in any case, means its number from January 1 |
| `CronPrinter.DayByName` | datarecon/core/cron.py:159-163 | a weekday's name, in any case, means its number from Sunday 0 |
| `CronPrinter.NamedRange` | datarecon/core/cron.py:147-163 | a range of weekday names, in any case, is the range of their numbers, refused exactly when it runs backwards from Sunday 0 |
| `CronPrinter.BareStep` | datarecon/core/cron.py:138-146 | a bare `/n` is read exactly as `*/n`, refusals included |
| `CronPrinter.OtherWords` | datarecon/core/cron.py:159-172 | a word means something only as a month name in the month field or a weekday name in the weekday field |
| `CronPrinter.SignedNumerals` | datarecon/core/cron.py:175-179 | a plus sign changes nothing and a minus sign negates |
| `CronPrinter.PrintedExpression` | datarecon/core/cron.py:65-91 | a printed five-field tree is accepted exactly when every field has a meaning, with the sets and OR flag of the tree |
| `CronPrinter.RefusedField` | datarecon/core/cron.py:124-156 | a printed field is refused for the first piece without a meaning: a step below one, a value out of range or no name, or a range that runs backwards |
| `CronPrinter.BlankEntry` | datarecon/core/cron.py:133-136 | a blank entry between commas is refused, and with it the field |
| `CronPrinter.RefusedExpression` | datarecon/core/cron.py:65-81 | an expression is refused for the first of its fields that is, with that field's error |
| `CronPrinter.FieldCount` | datarecon/core/cron.py:65-76 | a blank text and any number of fields but five are refused |
| `Calendar.OrdinalOfDate` | datarecon/core/cron.py:93-103 | the day-by-day walk of the calendar agrees with the closed count of years, months and days |
| `Calendar.DateOfOrdinal` | datarecon/core/cron.py:93-103 | every valid date is reached, exactly on the day its ordinal names |
| `Calendar.WeekdayCycle` | datarecon/core/cron.py:99-100 | the weekday walked day by day is the day count modulo seven, Sunday being 0 |
| `Calendar.YearFormula` | datarecon/core/cron.py:93-103 | the walked calendar obeys the closed Gregorian count of leap years |
| `Calendar.KnownDay` | datarecon/core/cron.py:99-100 | 29 February 2024 falls on its historical day and weekday |
| `Calendar.MinuteNumberOfMoment` | datarecon/core/cron.py:93-116 | the minute-by-minute clock and the count of minutes are inverse |
| `CronSearch.NextRuns` | datarecon/core/cron.py:105-121 | the bounded loop returns the preview of the requested length, and nothing for a count below one |
| `CronSearch.MatchesInExact` | datarecon/core/cron.py:93-121 | the matches of a stretch are exactly the matching minutes in it, strictly increasing |
| `CronSearch.PreviewExact` | datarecon/core/cron.py:105-121 | the first k matching minutes strictly after the start: none skipped, fewer than k only when the window is exhausted |
| `CronSearch.PreviewPrefix` | datarecon/core/cron.py:105-121 | a preview is a prefix of the next longer one, and equal to it once the window is exhausted |
| `CronSearch.OneDayFieldDecides` | datarecon/core/cron.py:99-103 | with the OR flag off one day field is unrestricted, and month and the other one decide |
| `CronFiring.FiresAsWritten` | datarecon/core/cron.py:93-103 | every accepted expression fires at exactly the dates and times of day its own syntax lists; of the two day fields one suffices when both are restricted, else both must hold |
| `CronFiring.FirstOfMonthOrMonday` | datarecon/core/cron.py:60-103 | `0 0 1 * 1` fires at midnight on the first of every month and on every Monday, and at no other time |
| `CronFiring.FirstOfJune` | datarecon/core/cron.py:105-121 | from 31 May 2024, 23:59, its first run is 1 June, a Saturday |
| `CronFiring.PresetMeaning` | datarecon/core/cron.py:36-44 | each preset, in any case, fires on the hour, or at midnight every day, every Sunday, on the first of every month, or on the first of January |
| `CronFiring.NoOtherPresets` | datarecon/core/cron.py:36-44 | there are these seven presets and no other |
| `CronFiring.LayoutIrrelevant` | datarecon/core/cron.py:67-72 | white space around and between the fields changes nothing but the stored text |
| `Text.SpaceCharacters` | datarecon/core/cron.py:67-72 | which characters count as white space |
| `CronLookahead.ImpossibleNeverFires` | datarecon/core/cron.py:31-34 | the schedules that match no minute ever are exactly those whose days no named month has |
| `CronLookahead.LookaheadSuffices` | datarecon/core/cron.py:31-34 | a search comes back empty if and only if the schedule is impossible or names only 29 February and starts inside one of the intervals around a skipped leap day |
| `CronLookahead.LeapDayGap` | datarecon/core/cron.py:31-34 | leap days come at most 1461 days apart unless a non-leap century year intervenes |
| `CronLookahead.MissedLeapDay` | datarecon/core/cron.py:31-34 | a leap-day schedule is missed only when the window reaches a non-leap century year |
| `CronLookahead.MissedStarts` | datarecon/core/cron.py:31-34 | the exact starts from which a leap-day schedule has no next run: from its last minute on 29 February four years before a skipped leap day until the window first reaches its first minute four years after |
| `CronLookahead.LeapDayMissed` | datarecon/core/cron.py:31-34 | around every non-leap century year there is a start from which such a schedule's next run is missed |
| `CronLookahead.LeapDaySchedule` | datarecon/core/cron.py:65-91 | `M H 29 2 *` parses to a schedule whose only dates are 29 February |
| `TestSuites.SuiteRepository.Add` | datarecon/infrastructure/persistence/sqlite_test_suite_repository.py:66-73 | inserts a row under a new id and refuses a stored one |
| `TestSuites.SuiteRepository.Update` | datarecon/infrastructure/persistence/sqlite_test_suite_repository.py:75-104 | rewrites every column of a stored row, the last-run time included; no row, no effect |
| `TestSuites.SuiteRepository.Delete` | datarecon/infrastructure/persistence/sqlite_test_suite_repository.py:106-109 | removes the row and says whether there was one |
| `TestSuites.SuiteRepository.ListAll` | datarecon/infrastructure/persistence/sqlite_test_suite_repository.py:117-121 | every stored row once, in the order of the names; suites of one name in any order |
| `TestSuites.SuiteRepository.RecordRunResult` | datarecon/infrastructure/persistence/sqlite_test_suite_repository.py:132-140 | changes only the last-run columns of one row |
| `TestSuites.TestSuiteService.RunSuite` | datarecon/application/services/test_suite_service.py:185-205 | an execution that raises is recorded as an error, and the outcome shows the updated row |
| `TestSuites.TestSuiteService.RunSuites` | datarecon/application/services/test_suite_service.py:163-182 | the rows and outcomes are those of running the ids one after another |
| `TestSuites.RunsAreIsolated` | datarecon/application/services/test_suite_service.py:163-182 | one outcome per id in order whatever the others did; missing ids become errors; other rows are untouched |
| `TestSuites.EachRowGetsItsResult` | datarecon/application/services/test_suite_service.py:185-205 | with distinct ids each row ends as its own execution left it and its outcome shows that row |
| `TestSuites.OutcomesTell` | datarecon/application/services/test_suite_service.py:185-205 | every outcome of a stored suite tells of its own execution, repeated ids included: the run's id, status and time, or ERROR with the message and no run for a raise; name and schedule stay |
| `TestSuites.RowsAreAsTold` | datarecon/application/services/test_suite_service.py:185-205 | with distinct ids the stored rows are the ones the outcomes show |
| `TestSuites.OnlyRecordedPass` | datarecon/application/services/test_suite_service.py:163-205 | an outcome counts as PASS only for a stored suite whose row says so |
| `Scheduler.SchedulerService.SetSchedule` | datarecon/application/services/scheduler_service.py:97-119 | stores a stripped, parsing expression or refuses, leaving every other row and the last-run time alone |
| `Scheduler.SchedulerService.DueSuites` | datarecon/application/services/scheduler_service.py:126-153 | the suites that are enabled, match the local minute and have not run in it, out of all stored ones in name order |
| `Scheduler.SchedulerService.Tick` | datarecon/application/services/scheduler_service.py:155-172 | runs exactly the due suites in name order; the notifier changes only the reported flag |
| `Scheduler.DueIdsAreDue` | datarecon/application/services/scheduler_service.py:137-153 | a listed suite is chosen exactly when it is due, and each at most once |
| `Scheduler.EnabledSchedulesParse` | datarecon/application/services/scheduler_service.py:110-117 | a suite enabled through `set_schedule` has a well-formed schedule |
| `ScheduleMeaning.DueAsWritten` | datarecon/application/services/scheduler_service.py:126-153 | an enabled suite is due at exactly the local times its own expression names, unless it has run in that minute or later |
| `ScheduleMeaning.NotDueWithoutSchedule` | datarecon/application/services/scheduler_service.py:138-146 | a suite that is disabled, or has no expression that parses, is never due |
| `ScheduleMeaning.DueInNameOrder` | datarecon/application/services/scheduler_service.py:137-153 | the due suites run in the order of their names |
| `ScheduleMeaning.RefusedSchedule` | datarecon/application/services/scheduler_service.py:106-114 | which of the three errors setting a schedule gives: no such suite, no expression to enable, an expression that does not parse |
| `ScheduleMeaning.StoredSchedule` | datarecon/application/services/scheduler_service.py:110-119 | the expression is stored as typed without outer white space, the flag as asked, and nothing else changes |
| `ScheduleMeaning.DisablingKeepsTheExpression` | datarecon/application/services/scheduler_service.py:110-119 | a disabled suite keeps its expression and is never due; enabling it with what is stored gives back the enabled suite |
| `ScheduleMeaning.WhenNotified` | datarecon/application/services/scheduler_service.py:175-180 | after a tick that ran stored suites: never, always, or exactly when an execution raised or did not pass |
| `SchedulerRuns.SetScheduleIsFresh` | datarecon/application/services/scheduler_service.py:106-119 | from any reachable state, setting a schedule writes back the row's current last-run time, so it is never such a write |
| `SchedulerRuns.AtMostOncePerMinute` | datarecon/application/services/scheduler_service.py:126-172 | over every run of ticks and user actions no suite is executed by ticks twice in a UTC minute, provided no write-back forgets a run of the current minute |
| `SchedulerActions.DeletedNeverFires` | datarecon/application/services/scheduler_service.py:155-172 | once deleted, a suite is gone and never fires again, even when a tick that has picked it is still under way |
| `SchedulerActions.SavedStaysQuiet` | datarecon/application/services/scheduler_service.py:137-139 | a new suite keeps its name and is run by no tick until its row is rewritten |
| `SchedulerActions.RunByHand` | datarecon/application/services/test_suite_service.py:185-205 | a suite run by hand shows that run, is run by no tick of the same minute, and no other row changes |
| `SchedulerWrites.WriteBackKeepsInv` | datarecon/infrastructure/persistence/sqlite_test_suite_repository.py:75-104 | writing back any copy of a row keeps the invariant of all runs if and only if the copy remembers the run of the current minute |
| `SchedulerWrites.DrainedLog` | datarecon/application/services/scheduler_service.py:155-172 | draining a tick's pending list logs each of its suites once, in order |
| `SchedulerWrites.WriteBackFiresTwice` | datarecon/infrastructure/persistence/sqlite_test_suite_repository.py:75-104 | a suite that has fired in a minute, and of which any copy is then written back, fires again in the next tick of that minute if and only if that copy is due there |
| `SchedulerWrites.WriteDuringTick` | datarecon/infrastructure/persistence/sqlite_test_suite_repository.py:75-104 | the same for a write while the tick that fired the suite still has others to run |
| `SchedulerWrites.StaleUpdateFiresTwice` | datarecon/infrastructure/persistence/sqlite_test_suite_repository.py:75-104 | writing back the row from before the run makes every due suite fire twice |
| `SchedulerWrites.EveryMinuteParses` | datarecon/core/cron.py:65-103 | `* * * * *` parses and matches every minute |
| `SchedulerWrites.EveryMinuteFiresTwice` | datarecon/application/services/scheduler_service.py:126-172 | a concrete suite on `* * * * *`, ticked at 0 and 30 seconds with its old row written back in between, fires twice |
| `SchedulerRuns.DueAllMinute` | datarecon/application/services/scheduler_service.py:133-151 | a suite due at one instant of a minute is due at every instant of it |
| `SchedulerRuns.DueAfterRun` | datarecon/application/services/test_suite_service.py:194-205 | a suite that has run is due again exactly in matching minutes after the one its run finished in |
| `SchedulerRuns.TickRunsRefineRunAll` | datarecon/application/services/test_suite_service.py:163-182 | draining a tick's pending list step by step leaves the rows that running the list leaves |
| `SchedulerPreview.SetScheduleArms` | datarecon/application/services/scheduler_service.py:97-119 | from any reachable state, after earlier firings and during a tick too, enabling a suite puts it on track from the minute of the clock on |
| `SchedulerPreview.StaysOnTrack` | datarecon/application/services/scheduler_service.py:126-172 | with one tick a minute the fired minutes are the chosen ones, whatever users do to other suites |
| `SchedulerPreview.StaysWithin` | datarecon/application/services/scheduler_service.py:126-172 | in the rest of a minute, however often it is ticked, the suite fires at most once more: exactly when a tick comes, the minute is a chosen one, and the suite has neither run in it nor is about to |
| `SchedulerPreview.FiresAsPreviewed` | datarecon/application/services/scheduler_service.py:92-172 | a suite then ticked once in every minute fires in the minutes listed at the moment of setting, in order, if and only if no tick of that minute is still to come in which it is due; there is one exactly when a tick comes and the suite as set is due at that time and not already about to run |
| `SchedulerPreview.LateTickFires` | datarecon/application/services/scheduler_service.py:92-172 | a suite set to `* * * * *` at second 10 of a minute and ticked at second 30 fires in that minute, which is not listed |
| `Verdicts.RoundIsNearest` | datarecon/core/engine/comparison_engine.py:410-410 | the rounded value is a nearest one, and even when two are equally near |
| `Verdicts.PassBound` | datarecon/core/engine/comparison_engine.py:401-422 | the percentage shows 100.0 if and only if 2,000,000 times the failed rows is at most the compared rows |
| `Verdicts.SmallRunsAreExact` | datarecon/core/engine/comparison_engine.py:401-422 | below two million rows PASS means no failed row |
| `Verdicts.PassWithAFailure` | datarecon/core/engine/comparison_engine.py:401-422 | one failure among two million rows passes |
| `Verdicts.ZeroBound` | datarecon/application/services/referential_integrity_service.py:211-212 | an orphan rate rounds to 0.0 if and only if at most one checked row in two million is an orphan |
| `ColumnMatching.CanonicalMap` | datarecon/core/column_matching.py:21-31 | the loop builds the first-spelling map |
| `ColumnMatching.FirstSpellingMeaning` | datarecon/core/column_matching.py:21-31 | a folded name maps to the left-most column that has it, and to nothing when none has |
| `ColumnMatching.LastSpellingMeaning` | datarecon/core/engine/comparison_engine.py:228-228 | the engine's own map takes the right-most column |
| `ColumnMatching.SpellingsAgree` | datarecon/core/column_matching.py:21-31 | the two maps are equal if and only if no two columns differ only by case |
| `ColumnMatching.ResolveAll` | datarecon/core/column_matching.py:56-74 | actual spellings for the names found, the names as typed for the others |
| `ColumnMatching.ResolvedMeaning` | datarecon/core/column_matching.py:56-74 | with nothing missing each name has become a column equal to it up to case, position by position |
| `ColumnMatching.UnresolvedAre` | datarecon/core/column_matching.py:56-74 | the missing names are exactly those that no column equals up to case, as typed and in order |
| `ColumnMatching.ResolvedAre` | datarecon/core/column_matching.py:56-74 | with none missing each name becomes the left-most column that equals it up to case |
| `EngineAlignment.AlignmentsAgree` | datarecon/core/column_matching.py:39-53 | the shared helper and the engine rename every target alike if and only if the source has no case collision |
| `Frames.KeepFirstIsSelect` | datarecon/core/engine/comparison_engine.py:270-275 | dropping the marked duplicates keeps the first row of each key, and marked plus kept is all |
| `Frames.KeepFirstKeys` | datarecon/core/engine/comparison_engine.py:270-275 | dropping duplicates leaves distinct keys and loses none |
| `Frames.LeftJoinUnique` | datarecon/application/services/referential_integrity_service.py:205-207 | with distinct right keys a left join yields one row for each left row, in order |
| `ComparisonEngine.Engine.AlignColumnCase` | datarecon/core/engine/comparison_engine.py:213-245 | renames the target and rewrites the engine's keys and compare columns to the source's spelling |
| `ComparisonEngine.Engine.Compare` | datarecon/core/engine/comparison_engine.py:145-208 | the result or error, and both rewritten fields, as functions of the fields before and the frames |
| `ComparisonEngine.NewEngine` | datarecon/core/engine/comparison_engine.py:131-140 | an engine without a business key is refused |
| `ComparisonEngine.SpellingFolds` | datarecon/core/engine/comparison_engine.py:228-243 | a respelled name is the same name up to case, and a source column when the source has it |
| `ComparisonEngine.EqualMask` | datarecon/core/engine/comparison_engine.py:180-188 | the mask narrowed column by column is true exactly for rows equal in every compared column |
| `ComparisonEngine.DiffFlags` | datarecon/core/engine/comparison_engine.py:383-389 | the flag matrix of a chunk marks exactly the unequal cells |
| `ComparisonEngine.BuildMismatchFrame` | datarecon/core/engine/comparison_engine.py:363-395 | the chunked diff is the unchunked one for every chunk size, zero and negative included |
| `ComparisonEngine.CompareMerged` | datarecon/core/engine/comparison_engine.py:160-208 | the vectorised split yields the frames and summary of the merged rows |
| `EngineRefinement.PrepareMeaning` | datarecon/core/engine/comparison_engine.py:247-279 | preparation accepts known keys without unwanted duplicates and keeps the first row of each key |
| `EngineRefinement.BothAre` | datarecon/core/engine/comparison_engine.py:160-178 | the inner part of the merge: one pair for each shared key, holding each side's own row |
| `EngineRefinement.LeftOnlyAre` | datarecon/core/engine/comparison_engine.py:160-173 | the left-only part: exactly the source rows whose key the target lacks |
| `EngineRefinement.RightOnlyAre` | datarecon/core/engine/comparison_engine.py:160-176 | the right-only part: exactly the target rows whose key the source lacks |
| `EngineAlignment.AlignedKnown` | datarecon/core/engine/comparison_engine.py:228-243 | aligned names are columns of both aligned frames exactly when both frames identify them |
| `EngineAlignment.ColumnsResolved` | datarecon/core/engine/comparison_engine.py:281-295 | column resolution succeeds exactly when both frames have the columns, and finds the columns of the reference |
| `EngineFates.GroupsRefineFates` | datarecon/core/engine/comparison_engine.py:160-208 | the four groups of merged rows have exactly the keys of the four fates |
| `EngineReference.FatesPartition` | datarecon/core/engine/comparison_engine.py:398-422 | the four fates are disjoint, cover the union of keys, and account for each side |
| `EngineReference.ReconcileSwaps` | datarecon/core/engine/comparison_engine.py:300-338 | exchanging the tables keeps matched and mismatched keys and exchanges missing with extra |
| `EngineReference.MergeKeepsVerdicts` | datarecon/core/engine/comparison_engine.py:315-323 | missing values brought in by the merge leave all cell verdicts of two kinds unchanged if and only if the tolerance is below one or the pair is immune |
| `EngineTheorems.FailedRowHasColumn` | datarecon/core/engine/comparison_engine.py:180-191 | the mask's equality and the diff's flags agree: a row fails exactly when some column is named |
| `EngineCells.PreparedCellsMeet` | datarecon/core/engine/comparison_engine.py:300-338 | two prepared cells are equal exactly when the cells as they were meet: nulls only if equal to each other, texts up to outer white space and case as asked, numbers within the tolerance, and never a null with a value or a text with a number |
| `EngineCells.SharedKeyVerdict` | datarecon/core/engine/comparison_engine.py:300-338 | `compare` reports a match for a shared key if and only if its two cells meet in that sense, for every option, every pair of kinds and any rows beside it |
| `EngineCells.NullAgainstAnn` | datarecon/core/engine/comparison_engine.py:335-337 | a null name against a name is a mismatch although nulls are equal |
| `EngineCells.IdsMeet` | datarecon/core/engine/comparison_engine.py:258-277 | `compare` pairs two rows if and only if their ids are the same text up to outer white space and case as asked; else one is missing and the other extra |
| `EngineErrors.ComparedError` | datarecon/core/engine/comparison_engine.py:247-295 | a comparison raises exactly when an input is wrong as aligned, and for the first wrong thing: the source's frame, its missing keys or its count of repeated keys, then the target's, then the compare columns each side lacks |
| `EngineTheorems.AcceptedIs` | datarecon/core/engine/comparison_engine.py:247-295 | the engine accepts exactly the inputs the reference accepts |
| `EngineTheorems.CompareRefinesReference` | datarecon/core/engine/comparison_engine.py:145-208 | the engine refines the key-by-key account: acceptance, the keys and columns reported and their order, counts, each frame's keys and cells, and the differing columns named, never none |
| `EngineTheorems.CompareRefinesAligned` | datarecon/core/engine/comparison_engine.py:145-208 | the same, on the names the engine has aligned, for frames with columns that differ only by case |
| `EngineTheorems.CountsAddUp` | datarecon/core/engine/comparison_engine.py:398-422 | every row of both sides is accounted for once; rows compared is matched plus failed |
| `EngineTheorems.VerdictMeaning` | datarecon/core/engine/comparison_engine.py:401-422 | PASS if and only if at most one key in two million failed, the empty comparison included |
| `EngineCells.SuccessIsShareMatched` | datarecon/core/engine/comparison_engine.py:401-422 | the reported percentage is the share of compared keys that matched, to the nearest 0.0001 with ties to even; 100.0 when there are none |
| `EngineTheorems.CompareSwaps` | datarecon/core/engine/comparison_engine.py:145-208 | swapping source and target swaps missing with extra and keeps the rest of the summary, for every configuration |
| `EngineLocality.LocalComparison` | datarecon/core/engine/comparison_engine.py:300-338 | when all compared column pairs are immune, the rows `compare` reports as matched are those whose own two rows agree as they are |
| `EngineLocality.LocalityIsImmunity` | datarecon/core/engine/comparison_engine.py:315-323 | for two-column frames, under any options that compare the second column and for any pair of its kinds, rows of other keys never change what `compare` reports for a key if and only if the pair is immune |
| `EngineLocality.StrangerChangesAFate` | datarecon/core/engine/comparison_engine.py:315-323 | under any such options and for every pair of kinds that is not immune, two frames that report one mismatch, and one further row on one side that turns it into a match |
| `EngineLocality.AmountsExample` | datarecon/core/engine/comparison_engine.py:315-323 | such frames in the concrete, with columns id and amount and a tolerance of one |
| `EngineExamples.OneSharedKey` | datarecon/core/engine/comparison_engine.py:145-208 | what `compare` reports for two-column frames with one shared key, whatever the kinds, texts and options that compare the second column: the key matches exactly when its two prepared cells are equal in columns of the kinds the merge leaves |
| `EngineLaws.SelfComparison` | datarecon/core/engine/comparison_engine.py:145-208 | a frame compared with itself reports no missing or extra row, no mismatch if and only if null equals null or no compared cell is null, and then passes |
| `EngineLaws.LooserMatchesMore` | datarecon/core/engine/comparison_engine.py:145-208 | a larger tolerance, equal nulls or fewer columns never refuse accepted frames; matched rows stay matched, one-sided rows stay, PASS stays PASS |
| `EngineLaws.ToleranceBoundary` | datarecon/core/engine/comparison_engine.py:315-323 | `compare` matches two numbers exactly up to the tolerance, itself included, when it is positive and a column is floating point, as declared or because of one-sided rows; otherwise only equal ones |
| `EngineLaws.NormalisingTwice` | datarecon/core/engine/comparison_engine.py:258-267 | preparing a prepared cell changes nothing |
| `EngineLaws.IgnoringCase` | datarecon/core/engine/comparison_engine.py:258-267 | with case ignored two texts become equal if and only if they differ by case only |
| `EngineHistory.ReuseIsHistoryFree` | datarecon/core/engine/comparison_engine.py:213-245 | after any calls the next comparison of two frames gives what a fresh engine gives, or fails in the same way |
| `EngineHistory.MissingFrameFails` | datarecon/core/engine/comparison_engine.py:225-251 | a missing frame always fails, a missing source always alike |
| `EngineHistory.ReuseWithoutTarget` | datarecon/core/engine/comparison_engine.py:225-251 | without a target a reused engine fails like a fresh one if and only if the typed and the remembered keys are both known to the source or both not, and count the same duplicates where these are refused |
| `EngineHistory.KnownKeysCountAlike` | datarecon/core/engine/comparison_engine.py:225-251 | with a source free of case collisions, known typed and remembered keys are the same keys |
| `EngineHistory.RespelledKeyIsRemembered` | datarecon/core/engine/comparison_engine.py:225-237 | without a target a reused engine may find duplicates where a fresh one misses the key |
| `EngineHistory.MissingTargetRemembers` | datarecon/core/engine/comparison_engine.py:225-237 | a concrete pair of calls on which the two failures differ |
| `MismatchAnalysis.SplitColumnsRestores` | datarecon/core/mismatch_patterns.py:402-403 | splitting a joined list restores it if and only if every name is non-empty, comma-free and trimmed |
| `MismatchAnalysis.SplitColumnsArePlain` | datarecon/core/mismatch_patterns.py:402-403 | whatever the text, every name read from it is non-empty, comma-free and trimmed |
| `MismatchAnalysis.HitsAgainstRows` | datarecon/core/mismatch_patterns.py:406-416 | a column's hit count is at least the rows the filter keeps, and equal if and only if no row names it twice |
| `MismatchAnalysis.HitsAreDifferingRows` | datarecon/core/mismatch_patterns.py:106-116 | on the engine's diff the hit count, the rows kept and the pairs that differ in the column are equally many |
| `MismatchAnalysis.HitsSumToCells` | datarecon/core/mismatch_patterns.py:406-416 | all hit counts together count the differing cells |
| `MismatchAnalysis.NamedTwiceCountsTwice` | datarecon/core/mismatch_patterns.py:406-416 | a row naming a column twice counts two hits for one kept row |
| `ComparedTwice.HitsAreRequestsTimesRows` | datarecon/core/mismatch_patterns.py:406-416 | for every accepted comparison with plain column names, a column counts as many hits as it was asked for times the rows that name it; the two counts are equal if and only if it was asked for once or no row differs in it |
| `ComparedTwice.TwoNamesCountTwice` | datarecon/core/engine/comparison_engine.py:281-295 | for any frames with one differing row and any options that ask for the column under two names, `compare` yields one row and the analyser two hits |
| `ComparedTwice.AskedForAsAAndSmallA` | datarecon/core/engine/comparison_engine.py:281-295 | such frames in the concrete, with columns id and A, compared on A and a with case ignored |
| `MismatchAnalysis.InferenceRecoversKeys` | datarecon/core/mismatch_patterns.py:124-139 | the keys come back if and only if none looks like a diff column; otherwise exactly those that do are lost |
| `MismatchAnalysis.NoDiffNoKeys` | datarecon/core/mismatch_patterns.py:124-139 | a frame of another shape has no keys to recover |
| `MismatchRanking.AnalyseMismatches` | datarecon/core/mismatch_patterns.py:88-121 | the explanations found, ranked; nothing for a frame that is empty or of another shape |
| `MismatchRanking.RankedIsSorted` | datarecon/core/mismatch_patterns.py:118-121 | the ranking is a permutation in the order of rows explained, specificity and column name |
| `MismatchRanking.HeadlineMeaning` | datarecon/core/mismatch_patterns.py:101-121 | no explanation exactly when nothing is concentrated or explained; else the first is of the most-hit explained column, and merely says where to look if and only if something is concentrated and no most-hit column is explained |
| `MismatchRanking.ConcentrationMeaning` | datarecon/core/mismatch_patterns.py:419-446 | something counts as concentrated exactly when one column only is named, or one is named at least once for every two rows; it is of a most-hit column |
| `MismatchRanking.NamingRowsAreDiffering` | datarecon/core/mismatch_patterns.py:106-116 | on the engine's diff the rows a detector sees for a column are the diff of exactly the pairs that differ in it |
| `MismatchRanking.ExplainedMeaning` | datarecon/core/mismatch_patterns.py:106-116 | a column of the engine's frame is explained exactly when its detectors recognise those rows; a column without both its cells never is |
| `ReferentialIntegrity.FindOrphans` | datarecon/application/services/referential_integrity_service.py:173-223 | the result or error as a function of frames, column names and sample limit |
| `ReferentialIntegrity.JoinKeepsRows` | datarecon/application/services/referential_integrity_service.py:200-209 | the left merge keeps one row for each checked child row, in order, left-only exactly for orphans |
| `ReferentialIntegrity.OrphansAreAbsent` | datarecon/application/services/referential_integrity_service.py:205-209 | the orphans are exactly the child rows with a fully non-null key absent from the parent, in order |
| `ReferentialIntegrity.OutcomeMeaning` | datarecon/application/services/referential_integrity_service.py:190-223 | every count by membership alone; null plus checked is all; the sample limit touches only the sample, a prefix |
| `ReferentialIntegrity.FoundMeaning` | datarecon/application/services/referential_integrity_service.py:173-223 | on frames and typed names: accepted exactly when names are given, pair up and are columns of their own frame up to case, else which error; the orphans are the child rows with a complete key that no parent row has, with all counts and the sample |
| `ReferentialIntegrity.FoundVerdict` | datarecon/application/services/referential_integrity_service.py:106-113 | the verdict on that result for every tolerance, and at zero |
| `ReferentialIntegrity.OneOrphanOfThree` | datarecon/application/services/referential_integrity_service.py:192-212 | child keys 1, 2, 3 against parent keys 1, 2: one orphan of three, which fails at tolerance zero |
| `ReferentialIntegrity.ToleranceVerdict` | datarecon/application/services/referential_integrity_service.py:109-113 | PASS in exact arithmetic for every real tolerance |
| `ReferentialIntegrity.ZeroTolerance` | datarecon/application/services/referential_integrity_service.py:109-113 | at tolerance zero PASS if and only if 2,000,000 times the orphans is at most the checked rows |
| `DuplicateValidation.Analyze` | datarecon/application/services/duplicate_validation_service.py:117-152 | the counts and the sample, or the missing key columns, or the refused limit, for names in any case |
| `DuplicateValidation.SuperfluousRows` | datarecon/application/services/duplicate_validation_service.py:131-140 | repeated rows less repeated keys is rows less distinct keys |
| `DuplicateValidation.CountsAgree` | datarecon/core/engine/comparison_engine.py:269-271 | without normalisation the engine's duplicate count is the module's row count less its key count |
| `DuplicateValidation.GuardAgrees` | datarecon/core/engine/comparison_engine.py:269-277 | the engine raises exactly when the module fails; with dropping on it keeps one row per distinct key |
| `DuplicateValidation.NormalisationFindsNoFewer` | datarecon/core/engine/comparison_engine.py:258-271 | trimming and upper-casing can only add duplicates |
| `DuplicateValidation.SampleMeaning` | datarecon/application/services/duplicate_validation_service.py:142-150 | the sample holds repeated rows with non-null keys and their counts, in key order, up to the limit; a row left out comes no earlier than any shown |
| `DuplicateValidation.AnalyzedMeaning` | datarecon/application/services/duplicate_validation_service.py:117-152 | on a frame and typed names: which error, or the counts of all rows, of repeated keys and of the rows that have them, whether it fails, and the sample with its counts and order |
| `DuplicateValidation.KeyOrderMeaning` | datarecon/application/services/duplicate_validation_service.py:142-150 | keys come in ascending order, the first column in which they differ deciding: numbers by size, texts character by character |
| `DuplicateValidation.EmptySample` | datarecon/application/services/duplicate_validation_service.py:142-150 | the sample is empty if and only if the limit is 0 or every repeated key has a null in it |
| `DuplicateValidation.FailsWithEmptySample` | datarecon/application/services/duplicate_validation_service.py:117-152 | one key column with two null rows fails with an empty sample, whatever the limit |
| `DuplicateValidation.NegativeLimitMeaning` | datarecon/application/services/duplicate_validation_service.py:140-150 | a negative limit makes exactly the failing checks raise |
| `Numbering.TakenAreFew` | datarecon/infrastructure/persistence/run_detail_store.py:113-120 | taken candidates are never more than the names in use, which bounds both renaming loops |
| `Slugs.UniqueSlug` | datarecon/infrastructure/persistence/run_detail_store.py:113-120 | ends within one more candidate than slugs in use, with the first free one |
| `Slugs.CandidatesInjective` | datarecon/infrastructure/persistence/run_detail_store.py:116-118 | a base and its numbered forms are pairwise different |
| `Slugs.SlugOfPlain` | datarecon/infrastructure/persistence/run_detail_store.py:24-26 | a title of letters, digits, dashes and inner underscores is its own slug |
| `Slugs.SlugOfTwoParts` | datarecon/infrastructure/persistence/run_detail_store.py:24-26 | between two such parts any run of other characters becomes one underscore |
| `Slugs.SlugOfNothing` | datarecon/infrastructure/persistence/run_detail_store.py:24-26 | a title with nothing to keep becomes `section` |
| `Slugs.SlugShape` | datarecon/infrastructure/persistence/run_detail_store.py:24-26 | a slug is letters, digits, dashes and underscores, with no underscore at either end |
| `Slugs.NumberedSlug` | datarecon/infrastructure/persistence/run_detail_store.py:113-120 | a taken slug is numbered `_1`, then `_2`, past all that are taken |
| `RunDetails.RunDetailStore.Save` | datarecon/infrastructure/persistence/run_detail_store.py:35-48 | takes the steps of a save in order, directory, sections, manifest last, as far as the file system lets it |
| `RunDetails.RunDetailStore.LoadAll` | datarecon/infrastructure/persistence/run_detail_store.py:65-74 | the sections the manifest names whose file exists |
| `RunDetails.RunDetailStore.Load` | datarecon/infrastructure/persistence/run_detail_store.py:54-63 | one section by its title, or none |
| `RunDetails.RunDetailStore.Delete` | datarecon/infrastructure/persistence/run_detail_store.py:79-93 | unlinks every file and then removes the empty directory; false when there was none |
| `RunReadBack.LoadedIsKept` | datarecon/infrastructure/persistence/run_detail_store.py:65-74 | what loads is what was saved and still has its file: titles, order and frames unchanged |
| `RunReadBack.SaveRoundTrip` | datarecon/infrastructure/persistence/run_detail_store.py:35-74 | saving and loading back is the identity, for colliding slugs and for any earlier content of the directory |
| `RunReadBack.LoadOneSection` | datarecon/infrastructure/persistence/run_detail_store.py:54-63 | each saved title finds its frame and no other title finds anything |
| `RunStorage.PutReplaces` | datarecon/infrastructure/persistence/run_detail_store.py:65-74 | loading a title a second time replaces its frame in place |
| `RunStorage.AfterRunDelete` | datarecon/application/services/run_management_service.py:68-83 | a completed delete removes exactly one run's row and directory |
| `RunStorage.StepsAreApart` | datarecon/application/services/run_management_service.py:68-83 | a step on a row leaves every directory, a step on a directory every row, and either every other run |
| `RunStorage.FilesGoByUnlinking` | datarecon/infrastructure/persistence/run_detail_store.py:79-93 | a file goes only by its own unlinking, and a directory only once it is empty |
| `RunManagement.RunManagementService.DeleteRuns` | datarecon/application/services/run_management_service.py:68-83 | whole deletions one after another, detail before row, with the tally |
| `RunManagement.RunManagementService.ArchiveRuns` | datarecon/application/services/run_management_service.py:58-66 | sets the flag of each known id and tallies the others as missing |
| `RunManagement.DeletionTally` | datarecon/application/services/run_management_service.py:68-83 | exactly the asked runs are gone, each existing one counts once, every other request is reported missing |
| `RunManagement.ArchivingMeaning` | datarecon/application/services/run_management_service.py:58-66 | the flag of exactly the asked runs changes, and no detail |
| `RunManagement.ArchivingTally` | datarecon/application/services/run_management_service.py:58-66 | how many runs were asked for, how many are known, and the unknown ones in order |
| `RunManagement.RestoringUndoesArchiving` | datarecon/application/services/run_management_service.py:58-66 | archiving and restoring runs that were not archived changes nothing |
| `RunManagement.CutOffBulkDelete` | datarecon/application/services/run_management_service.py:77-82 | stopping a bulk deletion after any step gives a state the crash theorems cover |
| `RunCrashes.HistoriesAreSafe` | datarecon/application/services/run_management_service.py:68-83 | after every history of runs, archivings and deletes, each stopped anywhere, each directory has a row and holds only that run's files |
| `RunCrashes.CrashSafety` | datarecon/infrastructure/persistence/run_detail_store.py:35-93 | what loads after any such history is part of what was saved, frames and order unchanged |
| `RunCrashes.RunIsAllOrNothing` | datarecon/application/services/full_data_validation_service.py:81-101 | until the last file of a new run is written nothing of it loads, then all of it |
| `RunCrashes.RepeatedDeleteCompletes` | datarecon/application/services/run_management_service.py:71-82 | a delete cut off anywhere and repeated ends where an uninterrupted one would |
| `RunCrashes.RowIsLast` | datarecon/application/services/run_management_service.py:71-82 | as long as a delete has not finished the run is still listed |
| `RunCrashes.ExecutionRows` | datarecon/application/services/full_data_validation_service.py:81-116 | an execution adds one row, or two exactly when the save raises after the run was recorded |
| `FullDataValidation.FullDataValidationService.Execute` | datarecon/application/services/full_data_validation_service.py:51-116 | the steps of one execution: row, then detail, and an error row for anything that raises |
| `FullDataValidation.StoredDetail` | datarecon/application/services/full_data_validation_service.py:79-101 | the recorded status is the engine's verdict and the stored detail its four frames, or nothing when the save raised |
| `FullDataValidation.CompletedRun` | datarecon/application/services/full_data_validation_service.py:79-101 | a completed execution is recorded as PASS when at most one compared key in two million failed and else as FAIL, with each frame of the comparison under its own title and nothing under any other |
| `FullDataValidation.FirstFailure` | datarecon/application/services/full_data_validation_service.py:51-79 | which failure is reported: the source's extract, then the target's, then the comparison's |
| `FullDataValidation.FailedRunRecorded` | datarecon/application/services/full_data_validation_service.py:102-116 | an execution that fails before recording leaves one ERROR row and no detail |
| `FullDataValidation.RaisedSaveRecorded` | datarecon/application/services/full_data_validation_service.py:81-116 | when the save raises, the run keeps its verdict, an ERROR row is added, and nothing of the run loads |
| `Reporting.BatchesTile` | datarecon/application/services/reporting_service.py:128-165 | batches cut the rows up in order without gap or overlap, numbered to their total, none over the cap, small sections untouched |
| `Reporting.TilesHoldRows` | datarecon/application/services/reporting_service.py:153-165 | tiling batches together hold all the rows in order |
| `Reporting.BatchNamesDiffer` | datarecon/application/services/reporting_service.py:155-165 | the batches of one section have different names |
| `Reporting.UniqueSheetName` | datarecon/application/services/reporting_service.py:213-221 | the renaming loop ends within two more candidates than names in use, with the first free name |
| `Reporting.RenamedDiffer` | datarecon/application/services/reporting_service.py:216-219 | cutting names to length never makes two renamings of a base coincide |
| `Reporting.SheetNameFits` | datarecon/application/services/reporting_service.py:213-221 | with fewer than 10^30 names in use a name has 1 to 31 characters |
| `Reporting.SheetNameAllowed` | datarecon/application/services/reporting_service.py:213-221 | no sheet name holds one of the seven characters that are not allowed in one |
| `Reporting.SheetBaseMeaning` | datarecon/application/services/reporting_service.py:213-214 | a title that fits is its own sheet name, and one with no allowed character is called `Sheet` |
| `Reporting.ToExcel` | datarecon/application/services/reporting_service.py:168-185 | the summary sheet first, then one sheet for each batch of each section |
| `Reporting.WorkbookHoldsEverything` | datarecon/application/services/reporting_service.py:168-221 | distinct sheet names, none the summary's, no sheet over the cap, and all rows of all sections in order |
| `SheetNames.SectionsFoldDistinct` | datarecon/application/services/reporting_service.py:168-221 | no two sheet names of an export agree up to case if and only if, for each sheet title in turn, every candidate that a lookup regardless of case would skip is in use in that very spelling; the titles follow from the sections and the row cap |
| `SheetNames.TitlesCoherent` | datarecon/application/services/reporting_service.py:212-221 | necessary for that: titles whose own names agree up to case, the summary included, have the same one |
| `SheetNames.LowerCaseTitles` | datarecon/application/services/reporting_service.py:212-221 | titles without capitals, repeated or not, are accepted if and only if none is called `summary` |
| `SheetExamples.SummarySection` | datarecon/application/services/reporting_service.py:128-221 | a section called `summary` is accepted if and only if it is over the row cap |
| `SheetExamples.TitlesDifferByCase` | datarecon/application/services/reporting_service.py:128-221 | two sections whose titles differ only by case, of up to nine sheets each, are accepted if and only if exactly one of them is over the row cap |
| `SheetExamples.OrdersTwice` | datarecon/application/services/reporting_service.py:128-221 | `Orders` and `orders` in the concrete: refused when both are small, accepted when the second is over the cap |
| `SheetExamples.RenamedMeetsTitle` | datarecon/application/services/reporting_service.py:212-221 | coherent titles do not suffice: `a`, `a` and `A_1` are refused, because the second `a` becomes `a_1` |

## Left out

- Calendar: datetime overflow past the year 9999, daylight saving and named zones; a zone is a fixed whole-minute offset, and the fallback for an unknown zone name is not modelled.
- Cron: Python's `int()` accepts underscores and non-ASCII digits, and case folding is Unicode; the model has ASCII digits and ASCII folding.
- CronPrinter.PrintedPiece: numerals with leading zeros or a sign, which the parser reads too, are not among the trees; `CronPrinter.SignedNumerals` covers the sign.
- ComparisonEngine: IEEE rounding, infinities and NaN payloads; numbers are exact, and an integer and a float of one value are one number.
- ComparisonEngine: mixed-type columns, keys of different kinds on the two sides, and frames with a repeated column name; a column has one kind.
- ComparisonEngine.CompareMerged: the row order of an outer merge, which the library sorts by key; the model lists the pairs and one-sided rows in source and target order.
- ComparisonEngine: a column already called `X_source` beside a compared `X`, and keys that are named twice, both of which the merge refuses.
- ComparisonEngine.Engine.Compare: a target in which renaming would repeat a column name, that is with two columns that both become one source column, or one that becomes another; the library then has two columns of one name. `Ready` says exactly when.
- ComparisonEngine.Engine.AlignColumnCase: the same.
- EngineHistory.ReuseIsHistoryFree: the same, for the frames of the comparison itself; earlier calls may be any.
- FullDataValidation.FullDataValidationService.Execute: the same.
- EngineTheorems.CompareRefinesReference: stated for frames without case collisions, where identifying columns up to case is well defined; `EngineTheorems.CompareRefinesAligned` covers the other frames under the names the engine gives them.
- EngineTheorems.AcceptedIs: for frames without case collisions, as above.
- EngineTheorems.CompareSwaps: for frames without case collisions, as above; with a collision in a column the other frame has, renaming repeats a column name in one of the two directions.
- EngineAlignment.AlignedKnown: for a source without case collisions, as above.
- EngineAlignment.ColumnsResolved: for frames without case collisions, as above.
- TestSuites: project, module, configuration and `updated_at` columns; the failures of the database itself.
- SchedulerRuns.AtMostOncePerMinute: one scheduler process, `set_schedule` atomic, a clock that never goes back; the execution of a suite, its finish time and its row update are one step.
- SchedulerPreview.FiresAsPreviewed: one tick in every minute after the one of setting, runs finishing inside their minute, the suite run by ticks only.
- MismatchRanking.AnalyseMismatches: the detectors themselves, which depend on floating-point tolerances, are an arbitrary predicate; coverage is compared through the hit counts it is computed from.
- MismatchAnalysis: a null in the stored text column, which reads as an empty text.
- ReferentialIntegrity: key columns of different kinds on the two sides, and a key column asked for twice, which the merge refuses.
- DuplicateValidation.Analyze: repeated rows of one key, which the database lists in any order, keep the frame's; a negative limit is taken to be refused by the database.
- RunStorage: a write torn inside one file, and the fidelity of Parquet and JSON; a file is written whole or not at all.
- RunDetails: file systems that do not tell upper from lower case; nested directories; the order in which a directory's files are unlinked is left open.
- FullDataValidation: extraction, timing and the start and end entries of the summary; a failure of `record_run` itself.
- RunManagement: the ZIP export, whose folder names can clash.
- SheetExamples.TitlesDifferByCase: titles of up to 29 characters, all allowed in a sheet name, and sections of up to nine sheets; `SheetNames.SectionsFoldDistinct` covers the others.
- Reporting: other names the workbook writer reserves or refuses; time-zone stripping; PDF, CSV and JSON output.
- Connectors, readers, encryption, notification transport, user interface, and the schema, null, aggregation, profiling and dashboard services.
