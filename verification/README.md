# Chronos in Dafny

Chronos is a browser task planner. Tasks are dated `YYYY-MM-DD`. They are
grouped into day sections with a per-day rating and note, shown as charts,
exported as CSV, archived after a cutoff, and stored per user in the
browser's local storage and, optionally, a remote database. This project
models the deterministic logic behind those features as pure functions over
immutable values and proves what that logic promises.

The modules follow the application's files:

- `Types` (`types.ts`): statuses, ratings, priorities, the task record, the
  day record, the date section; `RawTodo` is a task as found in storage,
  where older versions left out status, priority or note.
- `DateUtils` (`utils/dateUtils.ts`): "past" as the string `<` on dates
  written in the calendar-date extended form of section 4.1.2.2 of
  ISO 8601:2004, and the Today/Yesterday label.
- `TodoList` (`App.tsx`): user creation, the task-list changes made by the
  event handlers, day rating and day notes, the load-time migration of
  legacy records, and the grouping of tasks into date sections.
- `TodoItem` (`components/TodoItem.tsx`): the status and priority buttons,
  the inline editor, and the look of a row.
- `TodoSection` (`components/TodoSection.tsx`): counts, the all-done test,
  the border colour, the day-note box.
- `Stats` (`utils/statsUtils.ts`): every chart aggregation and the streak.
- `Archive` (`utils/archiveUtils.ts`): the cutoff split, the stored archive,
  the archive figures.
- `Csv` (`utils/csvUtils.ts`): the exported text. The text field is quoted as
  section 2, rule 7 of RFC 4180 describes.
- `Storage` (`utils/storage.ts`): name normalisation, key scheme, load and
  save over a local map and a remote map.
- `Focus` (`components/FocusModal.tsx`): the 25-minute timer and its `MM:SS`
  display.
- Helper modules: `Strings` (ASCII lower-casing and trimming, the
  JavaScript string `<`, decimal digits), `Seqs` (filter and count), and
  `Sorting` (a sort by a total preorder).

Values that come from the clock or from the browser are parameters:

- today's date, yesterday's date, and the archive cutoff date;
- the date `n` days back (`dayBefore`) and the weekday of a date (`weekdayOf`);
- a fresh task id and the current time;
- whether the remote database is configured and whether each remote read or
  write succeeds.

`localeCompare` on date strings is modelled as code-unit order. For the
ASCII dates the application writes, that is the same order.
`Math.round(c / t * 100)` is modelled in exact arithmetic, with halves
rounding up.

Malformed stored text throws rather than loading as empty, because the
source calls `JSON.parse` without a guard (`utils/storage.ts:70`,
`utils/archiveUtils.ts:61`). This model follows the source: its
stores hold typed values only, so malformed text does not arise.

## Model

| member | source | states |
|---|---|---|
| `Types.StatusNamesExact` | types.ts:1 | each status name reads back as its status, and only the three names PENDING, IN_PROGRESS, COMPLETED are statuses |
| `Types.RatingNamesExact` | types.ts:3 | only GOOD, NEUTRAL, BAD are ratings, each reading back as itself |
| `Types.PriorityNamesExact` | types.ts:5 | only HIGH, MEDIUM, LOW are priorities, each reading back as itself |
| `Types.Embed` | types.ts:7-17 | the stored form of a task carries every field, with status, priority and note present |
| `Types.DayOf` | App.tsx:166 | a date with no entry reads as the empty day record, with no rating and no note |
| `DateUtils.IsDatePast` | utils/dateUtils.ts:42-45 | a past date is not today and today is not below it; any date that is neither past nor today lies above today |
| `DateUtils.TodayNotPast` | utils/dateUtils.ts:42-45 | today's own date is never past |
| `DateUtils.PastMonotone` | utils/dateUtils.ts:44 | a date not later than a past date is itself past |
| `DateUtils.PastTodayFuture` | utils/dateUtils.ts:42-45 | each date is exactly one of past, today, or after today |
| `DateUtils.PastIsChronological` | utils/dateUtils.ts:39-45 | for well-formed `YYYY-MM-DD` strings, past means earlier by year, then month, then day |
| `DateUtils.FormatDateLabel` | utils/dateUtils.ts:14-37 | the label is Today exactly for today; Yesterday only for yesterday; any other date gets its own calendar label |
| `DateUtils.YesterdayLabelExactly` | utils/dateUtils.ts:23-28 | a date is labelled Yesterday exactly when it is the day before and not today, and today is labelled Today whatever the day before is: the Today test comes first |
| `DateUtils.LaterFirstIsPreorder` | App.tsx:208 | the comparator `b.localeCompare(a)` is a total preorder, so the sort is well defined |
| `DateUtils.EarlierFirstIsPreorder` | utils/statsUtils.ts:62 | the default string sort order is a total preorder |
| `DateUtils.SortedDates` | App.tsx:208 | the distinct keys: every date present exactly once, in strictly descending or ascending order |
| `TodoList.CreateUser` | App.tsx:54-66 | a blank name does nothing; otherwise the trimmed name becomes the current user and is appended only if new, so the list stays duplicate-free |
| `TodoList.AddTodo` | App.tsx:117-134 | blank input leaves the list unchanged; otherwise one task is prepended with the trimmed text, PENDING status, the chosen priority, an empty note and the selected date or today |
| `TodoList.AddKeepsIdsUnique` | App.tsx:124 | with a fresh id, adding keeps the ids unique |
| `TodoList.DeleteUndoesAdd` | App.tsx:133-156 | deleting the id just added restores the list |
| `TodoList.SetStatus` | App.tsx:136-140 | only the status of tasks with the id changes; ids, length and order are kept |
| `TodoList.SetPriority` | App.tsx:142-146 | only the priority of tasks with the id changes |
| `TodoList.SetText` | App.tsx:148-152 | only the text of tasks with the id changes |
| `TodoList.SetNote` | App.tsx:158-162 | only the note of tasks with the id changes |
| `TodoList.LastChangeWins` | App.tsx:136-162 | two changes of one field of one task leave only the second |
| `TodoList.DeleteAfterUpdate` | App.tsx:136-162 | an id-preserving update followed by deleting that id is the same as deleting it |
| `TodoList.DeleteAbsorbsChanges` | App.tsx:136-162 | deleting a task discards every earlier field change to it |
| `TodoList.DeleteTodo` | App.tsx:154-156 | exactly the tasks with the id are removed; every other task keeps its multiplicity |
| `TodoList.DeleteKeepsOrder` | App.tsx:154-156 | deletion distributes over any split of the list, so the relative order is kept |
| `TodoList.RateDay` | App.tsx:164-173 | the same rating again clears the rating, a different one replaces it; the day's note and every other date are kept |
| `TodoList.RateDayTwice` | App.tsx:164-173 | for a day with no rating or with that rating, rating it twice with the same rating restores it |
| `TodoList.UpdateDayNote` | App.tsx:175-183 | sets the day's note and keeps its rating and every other date |
| `TodoList.RatingAndNoteCommute` | App.tsx:164-183 | rating a day and writing its note commute |
| `TodoList.Migrate` | App.tsx:92-97 | a missing status becomes COMPLETED exactly when the legacy flag is set and PENDING otherwise; a missing priority becomes LOW; a missing note becomes empty; everything else is kept |
| `TodoList.MigrateAll` | App.tsx:92-97 | the loaded list is migrated record by record: same length, each position holding its own record migrated |
| `TodoList.MigrateEmbedAll` | App.tsx:92-97 | migrating a stored list of complete tasks gives the tasks back |
| `TodoList.MigrateStable` | App.tsx:92-97 | migrating again after a save and reload changes nothing |
| `TodoList.Visible` | App.tsx:199-202 | a task is kept exactly when its text contains the query, ignoring case |
| `TodoList.ItemBeforeIsPreorder` | App.tsx:211-216 | the in-section comparator (priority weight, then newer first) is a total preorder |
| `TodoList.GroupedTodos` | App.tsx:195-228 | each section carries its date's label, past and today flags, and the day's rating and note |
| `TodoList.SectionKeys` | App.tsx:203-208 | the section dates are the distinct keys of the visible tasks, latest first |
| `TodoList.SectionsHoldTheirDate` | App.tsx:199-206 | every section is non-empty and holds only visible tasks whose key is its date |
| `TodoList.SectionMembers` | App.tsx:199-206 | one section: non-empty, holding visible tasks of its own date |
| `TodoList.SectionsOrdered` | App.tsx:208-216 | sections come in strictly descending date order, and each is sorted by priority, then newer first |
| `TodoList.SectionsPartitionVisible` | App.tsx:199-220 | together the sections hold exactly the visible tasks, each as often as in the list |
| `TodoList.ShownIffMatches` | App.tsx:199-206 | a task is shown exactly when it matches the query, and never in two sections |
| `TodoList.MatchingIsShown` | App.tsx:199-206 | a matching task is shown in some section |
| `TodoItem.CycleStatus` | components/TodoItem.tsx:27-39 | the click always changes the status; on a past date it never yields IN_PROGRESS and yields COMPLETED exactly when the task was not completed |
| `TodoItem.CycleStatusIsRotation` | components/TodoItem.tsx:33-38 | on a current date one click is one step round a cycle of three, so three clicks restore the status |
| `TodoItem.PastCycleToggles` | components/TodoItem.tsx:30-32 | on a past date two clicks restore a done or pending task; an in-progress task comes back as pending |
| `TodoItem.CyclePriority` | components/TodoItem.tsx:41-49 | the click always changes the priority |
| `TodoItem.CyclePriorityIsRotation` | components/TodoItem.tsx:41-49 | LOW to MEDIUM to HIGH to LOW: the weight goes up by one, wrapping, and three clicks restore the priority |
| `TodoItem.PriorityLabel` | components/TodoItem.tsx:78-85 | the short label has at most four characters |
| `TodoItem.PriorityLabelAbbreviates` | components/TodoItem.tsx:78-85 | the label is a prefix of the priority's name, and different priorities get different labels |
| `TodoItem.InitialEditor` | components/TodoItem.tsx:16-17 | a row mounts not editing, with the task text in the buffer |
| `TodoItem.StartEdit` | components/TodoItem.tsx:173 | a click on the text opens the editor and keeps the buffer |
| `TodoItem.TypeText` | components/TodoItem.tsx:164 | typing replaces the buffer and keeps the editing flag |
| `TodoItem.SaveEdit` | components/TodoItem.tsx:51-58 | an edit is emitted exactly when the buffer is not blank, and it is the trimmed buffer; a blank buffer reverts to the task text; editing ends either way |
| `TodoItem.KeyDown` | components/TodoItem.tsx:60-67 | Enter saves; Escape reverts the buffer, closes the editor and emits nothing; other keys change nothing |
| `TodoItem.EmittedEditIsStable` | components/TodoItem.tsx:51-58 | an emitted text, once stored, would be emitted unchanged by a second save, and the task's text becomes the trimmed buffer |
| `TodoItem.EscapeDiscards` | components/TodoItem.tsx:60-67 | whatever was typed, Escape emits nothing and the next save starts from the stored text |
| `TodoItem.ItemLook` | components/TodoItem.tsx:92-132 | a row looks past exactly when its date is past, and looks done exactly when it is completed |
| `TodoItem.CycleMovesLook` | components/TodoItem.tsx:27-39 | on a past row a click flips missed and done; on a current row it steps waiting, doing, done |
| `TodoSection.SectionSummary` | components/TodoSection.tsx:24-36 | an empty section renders nothing; the completed count counts COMPLETED tasks and never exceeds the total; all-done holds exactly when every task is COMPLETED; the border is green, red or plain exactly as the past flag and all-done say |
| `TodoSection.PastBorderMatchesRows` | components/TodoSection.tsx:33-36 | a past card is green exactly when no row is missed and red exactly when some row is |
| `TodoSection.GroupedSectionsHaveSummaries` | components/TodoSection.tsx:24 | no section produced by the grouping renders nothing |
| `TodoSection.InitialCard` | components/TodoSection.tsx:21-22 | a card starts open exactly when it is today's, with the day note or an empty box |
| `TodoSection.ToggleExpanded` | components/TodoSection.tsx:54 | a header click flips open and closed and keeps the note box |
| `TodoSection.NoteBlur` | components/TodoSection.tsx:43-47 | a blur emits the box's text exactly when it differs from the stored day note |
| `TodoSection.BlurAfterMount` | components/TodoSection.tsx:22-47 | leaving the box of a fresh card emits exactly when the day has no note, and then emits the empty note |
| `TodoSection.BlurIsIdempotent` | components/TodoSection.tsx:43-47 | once the emitted note is stored, a second blur emits nothing and the day's rating is kept |
| `Stats.StatusDistribution` | utils/statsUtils.ts:5-25 | every task is counted once: completed, missed (not completed and past) and active add up to the number of tasks |
| `Stats.DistributionMatchesRows` | utils/statsUtils.ts:10-17 | the missed and completed slices count the rows that look missed and done |
| `Stats.DayPerf` | utils/statsUtils.ts:38-49 | one day's bar: total is the day's tasks, completed the completed ones, and completed plus missed is the total |
| `Stats.DayMissedAreNotDone` | utils/statsUtils.ts:38-47 | the missed part is exactly the day's tasks that are not completed |
| `Stats.Last7DaysPerformance` | utils/statsUtils.ts:28-52 | exactly seven bars, six days ago first and today last; bar i counts the tasks dated i-th day and the completed ones among them, and completed plus missed is that total |
| `Stats.LastN` | utils/statsUtils.ts:64 | `slice(-n)` keeps the last n elements, or all when there are fewer |
| `Stats.TaskVolumeTrend` | utils/statsUtils.ts:55-70 | at most fourteen points in strictly ascending date order, each count at least one and equal to the date's number of tasks |
| `Stats.VolumeTrendCoversLatestDates` | utils/statsUtils.ts:62-64 | every date that has tasks is shown unless fourteen later dates are |
| `Stats.Tally` | utils/statsUtils.ts:75-88 | seven weekday tallies, each completed count at most its total |
| `Stats.TallyCounts` | utils/statsUtils.ts:77-88 | a weekday's tally counts that weekday's tasks and completed tasks |
| `Stats.TallyTotalsSum` | utils/statsUtils.ts:77-88 | the weekday totals add up to the number of tasks |
| `Stats.Percent` | utils/statsUtils.ts:92 | the rate is 0 for no tasks or nothing completed, at most 100, and 100 when everything is completed |
| `Stats.PercentIsNearest` | utils/statsUtils.ts:92 | the rate is the integer nearest to 100 c / t, halves rounding up |
| `Stats.DayEfficiency` | utils/statsUtils.ts:73-95 | seven entries Sun to Sat; each weekday's efficiency is the rounded percentage of that weekday's tasks that are completed, so it lies in 0..100, is 0 for a weekday without tasks and 100 when all of its tasks are completed |
| `Stats.SatisfactionTrends` | utils/statsUtils.ts:98-114 | each count is the number of days carrying that rating; the three add up to the number of rated days, which is at most the number of day entries |
| `Stats.RatedDaysSplit` | utils/statsUtils.ts:103-107 | the rated days split into the three ratings without overlap |
| `Stats.RateDayMovesOneDay` | utils/statsUtils.ts:103-107 | rating a day moves just that day between the counts |
| `Stats.PriorityRowOf` | utils/statsUtils.ts:124-155 | one bar: its label, the number of tasks of that priority, the completed ones among them, and as rate the rounded percentage of completed over total, in 0..100 and 0 when the total is 0 |
| `Stats.PriorityStats` | utils/statsUtils.ts:117-157 | three bars HIGH, MED, LOW in that order; each counts the tasks of its priority and the completed ones, with the rounded completion percentage as rate |
| `Stats.PriorityTotalsSum` | utils/statsUtils.ts:124-132 | each task is in exactly one bar: totals add up to the tasks and completed counts to the completed tasks |
| `Stats.MissingPriorityCountsAsLow` | utils/statsUtils.ts:125 | a stored task without a priority is counted in the LOW bar |
| `Stats.RunFrom` | utils/statsUtils.ts:166-182 | a run of rated days never reaches beyond 365 days back |
| `Stats.CalculateStreak` | utils/statsUtils.ts:160-185 | the loop computes the streak (today counted if rated and skipped otherwise, then the rated days before it), which is at most 365 |
| `Stats.StreakStopsAtGap` | utils/statsUtils.ts:175-178 | an unrated earlier day ends the streak: no day at or beyond it counts |
| `Stats.StreakCountsRun` | utils/statsUtils.ts:170-174 | rated days from yesterday back count in full whether or not today is rated |
| `Archive.GetOldTasks` | utils/archiveUtils.ts:11-17 | exactly the tasks dated below the cutoff |
| `Archive.RemoveOldTasks` | utils/archiveUtils.ts:22-28 | exactly the tasks dated at or after the cutoff |
| `Archive.OldAndKeptPartition` | utils/archiveUtils.ts:16-27 | for one cutoff the two lists split the tasks: each lands in exactly one, as often as it occurs, and the lengths add up |
| `Archive.ArchiveKeepsOrder` | utils/archiveUtils.ts:16-27 | both filters keep the original relative order |
| `Archive.RemoveOldIsIdempotent` | utils/archiveUtils.ts:27 | the kept list has no old task, so removing again changes nothing |
| `Archive.OldMeansEarlier` | utils/archiveUtils.ts:16 | for well-formed dates, an old task is one dated chronologically before the cutoff |
| `Archive.SaveArchive` | utils/archiveUtils.ts:50-53 | the archive goes under the normalised name's archive key and every other key is kept |
| `Archive.LoadArchive` | utils/archiveUtils.ts:58-62 | a name never archived loads `[]` |
| `Archive.ArchiveRoundTrip` | utils/archiveUtils.ts:50-62 | what was archived loads back under every spelling of the name that normalises the same |
| `Archive.ArchiveLeavesUserData` | utils/archiveUtils.ts:50-53 | archiving changes no user's tasks or day metadata, and no other user's archive |
| `Archive.ArchiveStats` | utils/archiveUtils.ts:67-73 | total is the archive's length, completed counts COMPLETED tasks and is at most the total, and the percentage is the rounded percentage of completed over total: 0 for an empty archive, in 0..100 |
| `Archive.ArchiveStatsSplit` | utils/archiveUtils.ts:67-73 | the archive and the kept list together account for every task and every completed task |
| `Csv.StateLabelMatchesLook` | utils/csvUtils.ts:13-25 | the label names the row's look: DONE exactly for completed tasks, NOT DONE (MISSED) for every other past task, then DOING IT RIGHT NOW or PENDING |
| `Csv.EscapeQuotes` | utils/csvUtils.ts:28 | text without quotes is unchanged, and escaping never shortens |
| `Csv.QuoteField` | utils/csvUtils.ts:28 | the field is enclosed in double quotes |
| `Csv.QuoteRoundTrip` | utils/csvUtils.ts:28 | a reader that takes a doubled quote as one quote recovers the text exactly and stops at the closing quote |
| `Csv.SplitJoin` | utils/csvUtils.ts:40 | splitting a join at its separator gives back the parts when no part holds the separator |
| `Csv.FieldsRoundTrip` | utils/csvUtils.ts:30-36 | the five fields joined by commas read back when only the quoted text may hold commas |
| `Csv.RowRoundTrip` | utils/csvUtils.ts:12-37 | a row reads back as the task's date, text, priority, status and label, whatever the text holds |
| `Csv.RowIsOneLine` | utils/csvUtils.ts:30-36 | a row has a line break only where the task's date or text has one |
| `Csv.HeaderColumns` | utils/csvUtils.ts:6 | the header line holds the five column names in order |
| `Csv.LaterTaskIsPreorder` | utils/csvUtils.ts:9 | the export comparator is a total preorder |
| `Csv.ExportOrder` | utils/csvUtils.ts:9 | the rows are a permutation of the tasks in descending date order |
| `Csv.ExportLines` | utils/csvUtils.ts:4-40 | with no line break in dates or texts and no comma in dates, the text has one line more than there are tasks: the header, then each task in export order, reading back as that task's date, text, priority, status and state label |
| `Csv.Row` | utils/csvUtils.ts:12-37 | a row starts with the task's date followed by the field separator; its full read-back is `Csv.RowRoundTrip` |
| `Csv.ExportCsv` | utils/csvUtils.ts:4-40 | the text starts with the header; it is exactly the header when there are no tasks, and otherwise the header is followed by a line break |
| `Storage.NormalizeName` | utils/storage.ts:50 | the normalised name has no upper-case letter, no white space at either end, and is no longer than the input; its exact value is stated by `Storage.NormalizeNameShape` |
| `Storage.NormalizeNameShape` | utils/storage.ts:50 | the normalised name is the lower-casing of the slice of the input that remains once the white space at both ends is dropped, and only white space is dropped |
| `Storage.NormalFormIsFixed` | utils/storage.ts:50 | a name that is already lower case with no white space at either end is its own normal form, so distinct such names stay distinct |
| `Storage.NormalFormsKeepApart` | utils/storage.ts:55-86 | names with different normal forms have different local keys and remote paths for every kind of data |
| `Storage.NormalizeIdempotent` | utils/storage.ts:50 | normalising twice is normalising once |
| `Storage.NormalizeIgnoresCaseAndSpace` | utils/storage.ts:75 | surrounding white space and case do not change the normalised name |
| `Storage.LocalKeysDistinct` | utils/storage.ts:68-79 | each kind of local key determines the name, and keys of different kinds never collide with each other or with the user-list and session keys |
| `Storage.RemotePathsDistinct` | utils/storage.ts:55-86 | each kind of remote path determines the name, and the two kinds never collide |
| `Storage.ReadTasks` | utils/storage.ts:68-70 | an absent key reads as `[]`, a stored list as itself |
| `Storage.ReadDays` | utils/storage.ts:69-70 | an absent key reads as `{}`, a stored map as itself |
| `Storage.LoadUserData` | utils/storage.ts:49-71 | with the database active and the reads succeeding, the tasks and metadata are what the user's remote paths hold, `[]` and `{}` where nothing is stored; otherwise the same from the user's local keys |
| `Storage.LoadReadsOneStore` | utils/storage.ts:53-70 | a load consults only the database when it is active and the reads succeed, and only the local copy otherwise |
| `Storage.SaveUserData` | utils/storage.ts:74-93 | both parts always go to the user's two local keys and no other local key changes; without the database the remote store is untouched; what each combination of remote write outcomes then loads is stated by `Storage.RemoteRoundTrip`, `Storage.MetaWriteFailsAlone`, `Storage.TasksWriteFailsAlone` and `Storage.FailedWriteLoadsStaleRemote` |
| `Storage.LocalRoundTrip` | utils/storage.ts:67-79 | without the database, what was saved loads back under any spelling of the name |
| `Storage.RemoteRoundTrip` | utils/storage.ts:53-87 | with the database and every call succeeding, what was saved loads back |
| `Storage.NothingStoredLoadsEmpty` | utils/storage.ts:58-70 | a user with nothing stored loads an empty list and an empty map |
| `Storage.SaveIsolatesUsers` | utils/storage.ts:78-86 | saving for one user changes nothing another user loads |
| `Storage.DistinctNamesIsolated` | utils/storage.ts:50 | two different names, each already lower case and trimmed, have different normal forms, so saving for one changes nothing the other loads |
| `Storage.LocalUntouched` | utils/storage.ts:78-79 | the local write for one name leaves another name's parts as they were |
| `Storage.RemoteUntouched` | utils/storage.ts:82-92 | a save with the database active, whichever of its writes succeed, leaves the remote task list and metadata of a name with another normal form as they were |
| `Storage.SaveOverwrites` | utils/storage.ts:74-93 | a save overwrites: after two saves the second one is what loads, whenever the second save's remote writes succeed or the load falls back to the local copy |
| `Storage.RemoteFailureKeepsLocal` | utils/storage.ts:77-91 | failed remote writes leave the database as it was and still write the local copy; a load whose remote reads also fail falls back to that local copy |
| `Storage.FailedWriteLoadsStaleRemote` | utils/storage.ts:53-61 | after failed remote writes, a load whose remote reads succeed shows what the database held before the save, not the newer local copy |
| `Storage.MetaWriteFailsAlone` | utils/storage.ts:84-87 | the two remote writes land independently: when only the metadata write fails, a good remote read shows the new tasks with the old day data |
| `Storage.TasksWriteFailsAlone` | utils/storage.ts:84-87 | when only the task write fails, a good remote read shows the old tasks with the new day data |
| `Storage.LoadSession` | App.tsx:84-101 | a session's tasks are the loaded records, each migrated in place and in order, and its day metadata is the loaded metadata |
| `Storage.SessionRoundTrip` | App.tsx:84-112 | the application state survives a save followed by a session load |
| `Focus.Initial` | components/FocusModal.tsx:11-14 | the modal opens with 1500 seconds, paused and not started, and is not complete |
| `Focus.Tick` | components/FocusModal.tsx:16-32 | a run of the effect keeps the state valid, loses at most one second, never adds time, stops a finished timer, and changes nothing on a paused timer's clock |
| `Focus.Toggle` | components/FocusModal.tsx:53-56 | the button marks the timer started, flips running and paused, and keeps the time |
| `Focus.Run` | components/FocusModal.tsx:16-32 | any number of effect runs keep the state valid and never add time |
| `Focus.TickFixedPoints` | components/FocusModal.tsx:19-27 | the effect changes nothing exactly when the timer is not running with time left and is not a running finished timer |
| `Focus.Countdown` | components/FocusModal.tsx:19-22 | a running timer loses one second per run of the effect |
| `Focus.RunsToCompletion` | components/FocusModal.tsx:19-27 | a started running timer reaches zero and the next run stops it, complete |
| `Focus.FullSession` | components/FocusModal.tsx:11-27 | start on a fresh modal runs 1500 seconds and ends complete and paused |
| `Focus.PausedHolds` | components/FocusModal.tsx:19-22 | a paused timer keeps its state however often the effect runs |
| `Focus.PadStart` | components/FocusModal.tsx:61 | padding reaches the width, keeps the text at the end, and fills the front |
| `Focus.FormatTime` | components/FocusModal.tsx:58-62 | the display has its colon just before the last two characters, and is five characters long for times under 6000 seconds |
| `Focus.FormatRoundTrip` | components/FocusModal.tsx:58-62 | the display reads back as the seconds: minutes times sixty plus seconds |
| `Focus.FullSessionShows` | components/FocusModal.tsx:58-62 | a full session shows `25:00` |
| `Focus.FormatKeepsOrder` | components/FocusModal.tsx:58-62 | under 100 minutes, displays compare as strings as the times compare as numbers |

## Left out

- Rendering: JSX, CSS classes, icons and chart wiring (`components/StatsDashboard.tsx`, `components/Button.tsx`, the markup of every component). `components/TaskNoteModal.tsx` only forwards `(id, note)`, which `TodoList.SetNote` models.
- `api/analyze.ts` and `api/decompose.ts`: these proxy to external text-generation services.
- The browser's storage, the remote database SDK and JSON encoding. Stores are maps and JSON is the identity on modelled values. The remote database is a map written at two paths, and its path semantics are not modelled: a `/` inside a name is not treated as a nested path.
- Whether the database SDK accepts a day entry whose rating was cleared (`rating: undefined`, `App.tsx:167`). Each remote write's success is an input here. If the SDK rejects such a value, only the metadata write fails; the two writes are independent, so the task write still lands. `Storage.MetaWriteFailsAlone` states what the next remote load then shows: the new tasks with the old day data.
- Concurrency: the un-awaited save in the save effect, and the ordering of remote writes relative to later local writes.
- The clock and time zone: `getTodayDateString`, `new Date`, `toISOString`, `setDate`, `toLocaleDateString`. Today, yesterday, the cutoff (`daysOld` days back), the seven day strings, the 365 back-day strings and the weekday are parameters. The weekday and day-name labels of the charts are left out, and the volume trend's month-day label (`toLocaleDateString`, `utils/statsUtils.ts:67`) is replaced by the date string itself.
- `DateUtils.FormatDateLabel`: the Yesterday test compares with a `yesterday` parameter rather than computing `Math.ceil` of a millisecond difference. The calendar label is the date itself rather than its `toLocaleDateString` form.
- `Stats.DayEfficiency`: the weekday function is total. The source indexes with `getDay()` of an invalid date, gets `NaN`, and throws on `stats[NaN].total`.
- `Storage.ReadTasks`: a value of the other kind under a key reads as empty. The key scheme never stores one, and the source would return whatever `JSON.parse` gave.
- `Stats.Percent`: `Math.round(c / t * 100)` is modelled as exact half-up rounding, not IEEE double arithmetic. The two differ where the double product falls just below a half. For example, `23 / 40 * 100` evaluates to `57.49999999999999`, so the source shows 57 where `Stats.Percent(23, 40)` is 58. Among totals up to 40 this is the only such case. The section progress bar and the timer's progress arc are not modelled.
- `crypto.randomUUID` and `Date.now`: the fresh id and the time are inputs, and freshness is a precondition where it matters.
- The Blob, object-URL and link-click download code of the CSV export and the archive (`downloadArchive`).
- `Archive.OldAndKeptPartition`: both filters are given one cutoff. The source reads the clock separately in `getOldTasks` and `removeOldTasks`, so calls on either side of midnight could use different cutoffs.
- `Csv.ExportOrder`: the order among tasks sharing a date is not stated. The sort is stable in the source and in the model.
- `Csv.ExportLines`: a task text containing a line break is legal in a quoted CSV field. Splitting the export at line breaks is stated only when no date or text holds one.
- The Web Audio beep and the `setInterval` timing of the focus timer: one run of the effect is one step.
- `Strings.Lower`: `toLowerCase` and `trim` are restricted to ASCII letters and ASCII white space. Unicode case folding and other white space are not modelled.
- `Storage.IsCloudActive`: modelled as a predicate without a contract. The database is active when both configuration values are present and initialisation succeeded.
- The Object.keys iteration order of `groups` and `counts`: the model sorts the distinct keys directly.
- Login, logout and the session effect (`loginUser`, `logoutUser`, reading the user list at start-up) beyond the creation of a user and the per-user load and save.
