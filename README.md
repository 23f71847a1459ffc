# SnapTrack state logic in Dafny

SnapTrack is a browser-only job tracker for photographers. Jobs carry todo checklists, a
category, a customer and optional start and deadline dates. This project models the rules that
carry its state:

- the status cycle of a todo (the current five-state one and the legacy four-state one);
- the copy-on-write list rewrites behind every handler of the application store;
- the progress percentage and its colour bands, computed four times in the views;
- the loops that bucket jobs by day and count completions;
- the stopwatch display and its selection state;
- the validators and normalisers of the settings forms and of the stored category list.

Each source file becomes one module (`App`, `LegacyIndex`, `JobQuickView`, …). Shared helper
modules are `Model` (records), `Seqs` (filter, de-duplication, sums), `Text` (JavaScript `trim`,
decimal text, `padStart`), `Sorting` (string order and the stable `Array.prototype.sort`),
`Dicts` (objects and `Map`s filled by `push` or by counters) and `Progress` (the shared rounding
and colour bands).

Pure rewrites are functions. Handlers that replace React state are methods of a class whose
fields are that state: `App.Store`, `LegacyIndex.LegacyBoard`, `TimerPage.Stopwatch`,
`CategoryManagement.CategoryForm` and `CustomerManagement.CustomerForm`. Counting and bucketing
loops are methods with loop invariants, proved against specification functions.

Dates are normalised `yyyy-MM-dd` strings and times are `HH:mm` strings, both compared
lexicographically. Fresh ids, the current time and the date formatting of `date-fns` are
parameters.

## Model

| member | source | states |
|---|---|---|
| App.NextStatus | src/App.tsx:68-90 | the cycle empty → in-progress → checked → not-needed → unsure → empty, each step as an if-and-only-if; every unrecognised status goes to empty |
| App.ToggleItem | src/App.tsx:66-91 | a click keeps id and title and moves to the next status; the completion time is `now` exactly when the new status is checked, and absent otherwise |
| App.FiveToggles | src/App.tsx:68-90 | five clicks restore any of the five known statuses; an unrecognised one ends at unsure; a non-checked todo without a stale completion time comes back whole |
| App.ToggleTodo | src/App.tsx:57-99 | same length, ids and todo counts; jobs other than `jobId` unchanged; inside the target job only todos with id `todoId` change, each by one click; no other job field changes |
| App.FiveTogglesRestore | src/App.tsx:57-99 | five toggles of the same todo give every todo of every job its status back |
| App.ToggleKeepsStamped | src/App.tsx:57-99 | if every todo holds a completion time exactly when checked, a toggle keeps that true |
| App.NewJob | src/App.tsx:30-43 | the new job has no todos, the templates flag false, no notes, and the category given, or "Uncategorized" when it is absent or empty |
| App.AddJobKeepsTodos | src/App.tsx:30-45 | appending a job without todos leaves the list of all todos unchanged |
| App.RemoveJob | src/App.tsx:47-49 | no job with the id remains and the list does not grow |
| App.RemoveJobExactly | src/App.tsx:47-49 | exactly the jobs with the id are removed, every copy of every other job stays, in order, and a missing id removes nothing |
| App.ReplaceJob | src/App.tsx:51-55 | same length and ids; each job with the updated job's id becomes it, every other job is unchanged |
| App.ReplaceJobIdempotent | src/App.tsx:51-55 | replacing twice equals replacing once; with unique ids, a job already in the list replaces nothing |
| App.TemplateTodos | src/App.tsx:109-114 | one empty todo without completion time per template title, in template order, with its fresh id |
| App.AddTemplatedTodos | src/App.tsx:101-121 | the target job's todos are its old todos followed by the template todos, and its templates flag is set; other jobs unchanged |
| App.TemplatesAppendAgain | src/App.tsx:101-121 | the flag is not checked: a second call appends the templates a second time |
| App.AddCustomTodo | src/App.tsx:123-143 | nothing changes for a title that trims to empty; otherwise only jobs with `jobId` change, gaining one empty todo at the end |
| App.CustomTodoAppends | src/App.tsx:123-143 | the target's todo list grows by one, keeps its old todos as prefix and ends with the new empty todo under the untrimmed title |
| App.AddedTodosKeepStamped | src/App.tsx:101-143 | added todos are empty with no completion time, so both additions keep the completion-time invariant |
| App.NewCustomer | src/App.tsx:149-154 | the new customer has the given id, name and contact and no company |
| App.ReplaceCustomer | src/App.tsx:158-164 | same length and ids; each customer with the id becomes the update, the others are unchanged |
| App.RemoveCustomer | src/App.tsx:167 | no customer with the id remains |
| App.UnlinkCustomer | src/App.tsx:168-172 | no job refers to the customer afterwards; only `customerId` changes, and only on the jobs that referred to it |
| App.DeleteCustomerExactly | src/App.tsx:166-173 | exactly the customers with the id are removed, every copy of every other customer stays, in order, and no todo of any job changes |
| App.RenameCategory | src/App.tsx:180-182 | same length; each entry equal to the old name becomes the new name, the others are unchanged |
| App.MoveJobs | src/App.tsx:184-188 | jobs in category `from` move to `to`; only the category field changes, other jobs are unchanged |
| App.RenameCategoryLeavesNoOld | src/App.tsx:179-189 | after renaming to a different name, neither the list nor any job uses the old name; renaming to a fresh name keeps the list duplicate-free |
| App.DeleteCategory | src/App.tsx:192 | the deleted name is no longer in the list |
| App.DeleteCategoryExactly | src/App.tsx:191-199 | every copy of every other category stays, in order, and every job of the deleted category is now "Uncategorized" |
| App.Store.constructor | src/App.tsx:25-28 | the store starts from the loaded jobs, customers, categories and user |
| App.Store.AddJob | src/App.tsx:30-45 | the new job is appended at the end; the other fields are unchanged |
| App.Store.DeleteJob | src/App.tsx:47-49 | jobs become `RemoveJob` of the old jobs; the other fields are unchanged |
| App.Store.UpdateJob | src/App.tsx:51-55 | jobs become `ReplaceJob` of the old jobs; the other fields are unchanged |
| App.Store.ToggleTodoStatus | src/App.tsx:57-99 | jobs become `ToggleTodo` of the old jobs; the other fields are unchanged |
| App.Store.AddTemplates | src/App.tsx:101-121 | jobs become `AddTemplatedTodos` of the old jobs; the other fields are unchanged |
| App.Store.AddCustom | src/App.tsx:123-143 | returns early for a blank title; jobs become `AddCustomTodo` of the old jobs; the other fields are unchanged |
| App.Store.UpdateUser | src/App.tsx:145-147 | the user is replaced; nothing else changes |
| App.Store.AddCustomer | src/App.tsx:149-156 | the new customer is appended at the end; nothing else changes |
| App.Store.UpdateCustomer | src/App.tsx:158-164 | customers become `ReplaceCustomer` of the old customers |
| App.Store.DeleteCustomer | src/App.tsx:166-173 | both the customer list and the jobs are rewritten; categories and user unchanged |
| App.Store.AddCategory | src/App.tsx:175-177 | the name is appended to the categories |
| App.Store.UpdateCategory | src/App.tsx:179-189 | the list is renamed and the jobs are moved together |
| App.Store.RemoveCategory | src/App.tsx:191-199 | the name is removed and its jobs move to "Uncategorized" |
| LegacyIndex.LegacyNextStatus | src/pages/Index.tsx:45-59 | the cycle empty → checked → not-needed → unsure → empty, each as an if-and-only-if; in-progress and every other status go to empty |
| LegacyIndex.FourToggles | src/pages/Index.tsx:45-59 | four clicks restore a status of the cycle; any other status ends at unsure |
| LegacyIndex.LegacyToggleItem | src/pages/Index.tsx:60 | only the status moves; the completion time is kept |
| LegacyIndex.LegacyToggleTodo | src/pages/Index.tsx:36-68 | only the todo `todoId` in the job `jobId` changes, by one click; lengths, order and other jobs are kept |
| LegacyIndex.FourTogglesRestore | src/pages/Index.tsx:36-68 | four toggles restore the whole job list when the target todo's status is on the cycle |
| LegacyIndex.NewLegacyJob | src/pages/Index.tsx:14-22 | the legacy job has no todos, no category, customer or times, and the templates flag false |
| LegacyIndex.LegacyBoard.constructor | src/pages/Index.tsx:11 | the board starts from the loaded jobs |
| LegacyIndex.LegacyBoard.AddJob | src/pages/Index.tsx:13-24 | the new legacy job is appended |
| LegacyIndex.LegacyBoard.DeleteJob | src/pages/Index.tsx:26-28 | jobs become `App.RemoveJob` of the old jobs |
| LegacyIndex.LegacyBoard.UpdateJob | src/pages/Index.tsx:30-34 | jobs become `App.ReplaceJob` of the old jobs, so length, order and ids are kept |
| LegacyIndex.LegacyBoard.ToggleTodoStatus | src/pages/Index.tsx:36-68 | jobs become `LegacyToggleTodo` of the old jobs |
| LegacyIndex.LegacyBoard.AddTemplates | src/pages/Index.tsx:70-89 | the templates are appended as in the store |
| LegacyIndex.LegacyBoard.AddCustom | src/pages/Index.tsx:91-110 | returns early for a blank title, else appends the custom todo as in the store |
| Progress.CompletedLeCountable | src/components/JobQuickView.tsx:18-28 | done todos never outnumber countable ones, which never outnumber all todos |
| Progress.RoundPercent | src/components/JobQuickView.tsx:30 | the result is in 0..100, 0 when nothing counts; it is the round-half-up of `100*c/t`, stated as a two-sided bound; it is 100 exactly when at most one todo in 200 is open |
| Progress.RoundPercentUnique | src/components/JobQuickView.tsx:30 | any integer meeting the rounding bound is that result |
| Progress.RoundPercentFull | src/components/JobQuickView.tsx:30 | all countable todos done gives 100 |
| Progress.TodoProgress | src/components/JobQuickView.tsx:30 | progress of a todo list is in 0..100 |
| Progress.TodoProgressExtremes | src/components/JobQuickView.tsx:30 | 100 when every countable todo is checked and one exists; 0 when none is checked |
| Progress.TodoProgressIgnoresOrder | src/components/JobQuickView.tsx:21-30 | reordering the todos does not change progress |
| Progress.BandOf | src/components/JobQuickView.tsx:36-42 | the threshold ladder 100 / 75 / 50 / 25, each band as an if-and-only-if |
| Progress.BandMonotone | src/components/JobQuickView.tsx:36-42 | more progress never gives a lower band |
| Progress.BandColourInjective | src/components/JobQuickView.tsx:36-42 | different bands have different colours |
| JobQuickView.CalculateProgressAndCounts | src/components/JobQuickView.tsx:17-31 | the loop's counters are the checked and the non-not-needed counts, bounded by the list length; progress is their rounded percentage, 0 when nothing counts |
| JobQuickView.ProgressBarColorClass | src/components/JobQuickView.tsx:36-42 | each of the five classes as an if-and-only-if on its threshold range |
| JobQuickView.BarColourFollowsBand | src/components/JobQuickView.tsx:36-42 | the bar class is the shared band's colour |
| JobQuickView.Find | src/components/JobQuickView.tsx:74 | `find` gives a customer with the id, or nothing exactly when none has it |
| JobQuickView.FindFirst | src/components/JobQuickView.tsx:74 | the customer found is the first one with the id |
| JobQuickView.JobCustomer | src/components/JobQuickView.tsx:74 | no customer without a (non-empty) customer id; a found customer has that id; a matching customer is always found |
| ActiveProjectsCarousel.CalculateProgress | src/components/ActiveProjectsCarousel.tsx:15-33 | the loop with its two early returns computes the shared progress, 0 for no todos or nothing countable |
| ActiveProjectsCarousel.AllNotNeededIsZero | src/components/ActiveProjectsCarousel.tsx:21-31 | a job whose todos are all not-needed shows 0 |
| ActiveProjectsCarousel.ProgressAgreesWithCard | src/components/ActiveProjectsCarousel.tsx:15-33 | the carousel and the job card compute the same progress for every job |
| ActiveProjectsCarousel.ActiveJobs | src/components/ActiveProjectsCarousel.tsx:43 | every listed job has progress below 100 |
| ActiveProjectsCarousel.ActiveJobsExactly | src/components/ActiveProjectsCarousel.tsx:43 | the active jobs are exactly the jobs below 100, each with all its copies, in input order |
| ActiveProjectsCarousel.ProgressBarColorClass | src/components/ActiveProjectsCarousel.tsx:35-41 | each of the five classes as an if-and-only-if on its threshold range |
| ActiveProjectsCarousel.RingColourMatchesCard | src/components/ActiveProjectsCarousel.tsx:35-41 | the ring colour has the same colour name as the card's bar for every value |
| ActiveProjectsCarousel.RoundingHidesUnfinishedJob | src/components/ActiveProjectsCarousel.tsx:43 | a job with 200 checked todos and one open todo is not active |
| ActiveProjectsCarousel.UnfinishedJobs | src/components/ActiveProjectsCarousel.tsx:43 | corrected filter: every listed job has an open countable todo or nothing countable |
| ActiveProjectsCarousel.UnfinishedVersusActive | src/components/ActiveProjectsCarousel.tsx:43 | every active job is unfinished; an unfinished job is hidden only when at most one countable todo in 200 is open; finished means all countable todos checked, at exactly 100 |
| ActiveProjectsCarousel.UnfinishedJobsCoverActive | src/components/ActiveProjectsCarousel.tsx:43 | the corrected list keeps every job the carousel shows and every job with open work |
| OverallProgressCircle.CalculateOverallProgress | src/components/OverallProgressCircle.tsx:9-26 | the nested loop computes the shared progress over all todos of all jobs, 0 when nothing counts |
| OverallProgressCircle.OverallCountsAreSums | src/components/OverallProgressCircle.tsx:13-22 | the overall counts are the sums of the per-job counts, and done ≤ countable |
| OverallProgressCircle.SingleJobAgrees | src/components/OverallProgressCircle.tsx:9-26 | for a one-job list the ring shows that job's carousel progress |
| OverallProgressCircle.OverallIgnoresJobOrder | src/components/OverallProgressCircle.tsx:13-25 | reordering the jobs does not change the overall progress |
| OverallProgressCircle.CircleColorClass | src/components/OverallProgressCircle.tsx:34-40 | each of the five classes as an if-and-only-if on its threshold range |
| OverallProgressCircle.CircleColourMatchesCarousel | src/components/OverallProgressCircle.tsx:34-40 | the circle and the carousel colour every value alike |
| TaskSummary.CalculateTaskCounts | src/components/TaskSummary.tsx:17-34 | each counter is the number of todos over all jobs with exactly its status |
| TaskSummary.CountJob | src/components/TaskSummary.tsx:18-33 | the inner loop's counters are the per-status counts of one job's todos |
| TaskSummary.BucketsPartition | src/components/TaskSummary.tsx:19-32 | each todo lands in at most one bucket: the four counts add up to all todos but in-progress and unrecognised ones |
| TaskSummary.SummaryTotal | src/components/TaskSummary.tsx:17-34 | the four totals add up to all todos minus the uncounted ones, and minus the in-progress ones when every status is known |
| TaskSummary.CountsIgnoreJobOrder | src/components/TaskSummary.tsx:17-34 | the counts do not depend on the order of the jobs |
| JobListView.GroupByDate | src/components/JobListView.tsx:15-27 | after the loop each day key holds exactly the dated jobs whose start date (else deadline) is that day, in input order, and every dated job's day is a key |
| JobListView.SortedAndGroupedJobs | src/components/JobListView.tsx:14-43 | no group is empty; each group is its day's jobs sorted stably by start time; days strictly ascend; every dated job's day has a group; group sizes add up to the dated jobs |
| JobListView.GroupsNonEmpty | src/components/JobListView.tsx:29-40 | every built group is non-empty and equals its day's sorted jobs |
| JobListView.GroupsOrdered | src/components/JobListView.tsx:30 | the days of the groups strictly ascend |
| JobListView.GroupsCoverListed | src/components/JobListView.tsx:18-40 | every dated job's day has a group |
| JobListView.GroupsTotal | src/components/JobListView.tsx:17-41 | the group sizes add up to the number of dated jobs |
| JobListView.DayJobsOrdered | src/components/JobListView.tsx:34-38 | a day's jobs ascend by start time with "00:00" for none, are a permutation of that day's jobs, and ties keep input order |
| JobListView.DayJobsMembers | src/components/JobListView.tsx:18-26 | a job is in a day's group exactly when it is dated and its day is that day; undated jobs are in no group |
| Sorting.SortByPerm | src/components/JobListView.tsx:34-38 | the stable sort returns a permutation of its input |
| Sorting.SortBySorted | src/components/JobListView.tsx:34-38 | the result ascends by key |
| Sorting.SortByStable | src/components/JobListView.tsx:34-38 | elements with equal keys keep their input order |
| CalendarView.JobsByDate | src/components/CalendarView.tsx:73-92 | after the loop each day holds exactly the jobs starting that day or with a separately shown deadline that day, in input order |
| CalendarView.PlaceJob | src/components/CalendarView.tsx:76-89 | one turn of the loop keeps the map well formed |
| CalendarView.PlaceJobStep | src/components/CalendarView.tsx:75-90 | one turn of the loop extends every day's bucket by the job exactly when it belongs to that day |
| CalendarView.SelectedDayJobs | src/components/CalendarView.tsx:94-100 | a day without a bucket gives the empty list, otherwise its bucket |
| CalendarView.DayDialogContents | src/components/CalendarView.tsx:73-100 | the dialog lists exactly the jobs starting that day or with a shown deadline that day, in input order |
| CalendarView.UndatedAndSameDay | src/components/CalendarView.tsx:75-90 | a job with neither date is on no day; equal start and deadline strings put it on one day only; a deadline-only job is on its deadline day |
| JobCalendarView.MonthOf | src/components/JobCalendarView.tsx:30 | the month key of a full date is its first seven characters |
| JobCalendarView.DeadlineMonths | src/components/JobCalendarView.tsx:28-32 | one month per job with a deadline |
| JobCalendarView.DeadlineMonthsMembers | src/components/JobCalendarView.tsx:28-32 | a month is listed exactly when some job has its deadline in it |
| JobCalendarView.DeadlineBuckets | src/components/JobCalendarView.tsx:12-21 | each deadline day holds exactly the jobs with that deadline, in input order; every deadline is a key |
| JobCalendarView.RelevantMonthKeys | src/components/JobCalendarView.tsx:27-35 | the set of deadline months in first-seen order, or just the current month when there are none |
| JobCalendarView.SortedMonthKeys | src/components/JobCalendarView.tsx:33-37 | never empty, strictly ascending, and exactly the deadline months (or the current month alone) |
| JobCalendarView.MaxJobsPerDay | src/components/JobCalendarView.tsx:40 | at least every bucket's size, reached by some bucket, and 0 without buckets |
| JobCalendarView.MaxBoundsEveryDay | src/components/JobCalendarView.tsx:40 | every day's number of deadlines is at most the maximum, which is 0 exactly when no job has a deadline |
| DailyActivityChart.Stamps | src/components/DailyActivityChart.tsx:39 | one completion time per checked todo that has one |
| DailyActivityChart.TallyCompletions | src/components/DailyActivityChart.tsx:37-48 | each day and hour count is the number of counted completions with that key, and both sets of counts add up to the number of counted todos |
| DailyActivityChart.TallyJob | src/components/DailyActivityChart.tsx:38-47 | the inner loop extends both tallies by the completions of one job |
| DailyActivityChart.TallyTodo | src/components/DailyActivityChart.tsx:39-45 | a counted todo adds one to its key; any other todo changes nothing |
| DailyActivityChart.SevenDayWindow | src/components/DailyActivityChart.tsx:50-60 | seven entries for offsets -3..3 in order, each with its day's count, 0 for days without completions |
| DailyActivityChart.HourKeys | src/components/DailyActivityChart.tsx:63 | the 24 keys are hour `i` padded to two digits |
| DailyActivityChart.HourKeysDistinct | src/components/DailyActivityChart.tsx:63 | the 24 hour keys are all different |
| DailyActivityChart.Hour12 | src/components/DailyActivityChart.tsx:66 | the 12-hour clock hour: in 1..12 and equal to the hour modulo 12, so 12 at midnight and noon |
| DailyActivityChart.HourLabel | src/components/DailyActivityChart.tsx:65-66 | the `h:mm a` label ends in ":00 AM" or ":00 PM" |
| DailyActivityChart.HourLabelInjective | src/components/DailyActivityChart.tsx:65-66 | each hour has its own label |
| DailyActivityChart.HourlySeries | src/components/DailyActivityChart.tsx:62-68 | 24 entries, entry `i` labelled with the `h:mm a` label of hour `i` and counting key `i` padded to two digits, 0 when absent |
| DailyActivityChart.HourlySeriesTotal | src/components/DailyActivityChart.tsx:44-68 | when every completion falls on one of the 24 keys, the hourly chart shows every counted todo |
| TimerPage.SplitTime | src/pages/TimerPage.tsx:48-51 | minutes < 60, seconds < 60, centiseconds < 100, and the units rebuild `ms - ms % 10` |
| TimerPage.FormatTime | src/pages/TimerPage.tsx:53-55 | the display has at least 11 characters |
| TimerPage.ReadFormatTime | src/pages/TimerPage.tsx:47-56 | the display `HH:MM:SS.CC` reads back into exactly the units it was made from |
| TimerPage.SplitTimeTenths | src/pages/TimerPage.tsx:48-51 | two times split alike exactly when they agree in whole hundredths |
| TimerPage.FormatTimeTenths | src/pages/TimerPage.tsx:47-56 | two times display alike exactly when they agree in whole hundredths |
| TimerPage.Stopwatch.constructor | src/pages/TimerPage.tsx:20-23 | zero elapsed, not running, nothing selected |
| TimerPage.Stopwatch.StartPause | src/pages/TimerPage.tsx:58-69 | without a job and a todo nothing changes and the "select first" notice is given; otherwise running flips and the notice says which way; the timer never runs without a selection |
| TimerPage.Stopwatch.Reset | src/pages/TimerPage.tsx:71-75 | not running with zero elapsed; the selection is kept |
| TimerPage.Stopwatch.JobSelect | src/pages/TimerPage.tsx:77-82 | the job is selected, the todo cleared, the timer stopped and zeroed |
| TimerPage.Stopwatch.TodoSelect | src/pages/TimerPage.tsx:84-88 | the todo is selected, the job kept, the timer stopped and zeroed |
| CategoryManagement.AddDecision | src/components/CategoryManagement.tsx:33-45 | added exactly when the trimmed name is non-empty and new, with the trimmed name; "already exists" exactly when the trimmed name is listed; "cannot be empty" otherwise |
| CategoryManagement.UpdateDecision | src/components/CategoryManagement.tsx:53-70 | renamed exactly when a category is edited and the trimmed input is non-empty, different and new; "taken" exactly when it is listed; "no change" exactly when it equals the edited name |
| CategoryManagement.ManageableCategories | src/components/CategoryManagement.tsx:73 | no listed entry is "All", "Other" or "Uncategorized" |
| CategoryManagement.ManageableExactly | src/components/CategoryManagement.tsx:73 | exactly the other categories, each with all its copies, in list order |
| CategoryManagement.CategoryForm.constructor | src/components/CategoryManagement.tsx:26-31 | empty inputs, both dialogs closed, nothing being edited |
| CategoryManagement.CategoryForm.AddSubmit | src/components/CategoryManagement.tsx:33-45 | an accepted name clears the input and closes the dialog; a rejected one changes nothing |
| CategoryManagement.CategoryForm.EditClick | src/components/CategoryManagement.tsx:47-51 | edits the name, shows it in the input, opens the dialog |
| CategoryManagement.CategoryForm.UpdateSubmit | src/components/CategoryManagement.tsx:53-70 | a rename closes the dialog and forgets the edited name; no change closes the dialog only; a taken or empty name changes nothing |
| CategoriesPersistence.Load | src/hooks/use-categories-persistence.tsx:11-14 | duplicate-free, holds "Other" and "Uncategorized", and holds exactly the initial names and the built-ins |
| CategoriesPersistence.LoadWithoutWindow | src/hooks/use-categories-persistence.tsx:16 | the defaults followed by "Other" and "Uncategorized" |
| CategoriesPersistence.Save | src/hooks/use-categories-persistence.tsx:22 | the saved list never holds a built-in |
| CategoriesPersistence.SaveKeepsUserDefined | src/hooks/use-categories-persistence.tsx:22 | exactly the user-defined categories are saved, each with all its copies, in order |
| CategoriesPersistence.LoadKeepsFirstOccurrenceOrder | src/hooks/use-categories-persistence.tsx:13-14 | the loaded names come in order of first occurrence |
| CategoriesPersistence.LoadDefaults | src/hooks/use-categories-persistence.tsx:11-16 | with nothing stored, both branches give the defaults followed by "Other" and "Uncategorized" |
| CategoriesPersistence.SaveThenLoad | src/hooks/use-categories-persistence.tsx:13-22 | a duplicate-free list ending in the two built-ins is saved and loaded back unchanged |
| CustomerManagement.OptionalTrimmed | src/components/CustomerManagement.tsx:37 | the trimmed text, absent exactly when it trims to empty |
| CustomerManagement.AddRequest | src/components/CustomerManagement.tsx:34-45 | accepted exactly when the name does not trim to empty, passing the trimmed name and contact |
| CustomerManagement.UpdateRequest | src/components/CustomerManagement.tsx:54-68 | accepted exactly when a customer is edited and the name does not trim to empty; only name and contact change, trimmed |
| CustomerManagement.UpdateIdempotent | src/components/CustomerManagement.tsx:54-68 | re-submitting a customer's own trimmed fields gives it back unchanged |
| CustomerManagement.CustomerForm.constructor | src/components/CustomerManagement.tsx:25-32 | empty inputs, dialogs closed, nothing edited |
| CustomerManagement.CustomerForm.AddSubmit | src/components/CustomerManagement.tsx:34-45 | an accepted request clears the inputs and closes the dialog; a rejected one changes nothing |
| CustomerManagement.CustomerForm.EditClick | src/components/CustomerManagement.tsx:47-52 | edits the customer, its contact shown as empty text when absent |
| CustomerManagement.CustomerForm.UpdateSubmit | src/components/CustomerManagement.tsx:54-68 | an accepted update closes the dialog and forgets the customer; a rejected one changes nothing |
| JobsPage.FilterCategories | src/pages/JobsPage.tsx:40 | starts with "All", ends with "Other" and "Uncategorized", and its middle is the saved categories |
| JobsPage.FilterCategoriesMiddle | src/pages/JobsPage.tsx:40 | the middle holds exactly the user-defined categories, each with all its copies, in order |
| JobsPage.FilteredJobs | src/pages/JobsPage.tsx:42-44 | "All" gives the list unchanged; any other choice gives only jobs of that category |
| JobsPage.FilteredJobsExactly | src/pages/JobsPage.tsx:42-44 | exactly the jobs of that category, each with all its copies, always a subsequence of the jobs |
| EditProfileForm.SubmitProfile | src/components/EditProfileForm.tsx:25-40 | accepted exactly when name and role do not trim to empty; saves them trimmed; a blank avatar becomes the fallback, any other is trimmed; other fields kept |
| EditProfileForm.FallbackTrimmed | src/components/EditProfileForm.tsx:32 | the fallback avatar address is not blank and has no surrounding white space |
| EditProfileForm.SubmitProfileIdempotent | src/components/EditProfileForm.tsx:25-40 | submitting the saved profile's own fields again gives the same profile |
| CategoryColors.GetCategoryColor | src/lib/category-colors.ts:12-14 | a listed category gets its table colour, any other gets "bg-gray-400", and the result is always a table value |
| CategoryColors.UnknownLooksUncategorized | src/lib/category-colors.ts:8-13 | every category outside the table is coloured like "Uncategorized" |
| Text.Trim | src/components/CustomerManagement.tsx:36 | `trim` removes exactly the leading and trailing white space |
| Text.TrimIdempotent | src/components/CustomerManagement.tsx:37 | trimming twice equals trimming once |
| Text.TwoDigits | src/pages/TimerPage.tsx:54 | `padStart(2, '0')` gives at least two digits, exactly two below 100, reading back as the number |
| Text.TwoDigitsInjective | src/pages/TimerPage.tsx:54 | different numbers are padded differently |

## Left out

- Browser storage and JSON: `localStorage` reads and writes in the persistence hooks are not modelled. The stored category list arrives already parsed as an optional list. The other persistence hooks are not part of this model.
- Timing: `setInterval`, `Date.now()` and the effect that advances `elapsedTime` (src/pages/TimerPage.tsx:30-45) are concurrency with real time. The stopwatch models only its handlers.
- Dates: `date-fns` parsing and formatting (`parseISO`, `format`, `startOfDay`, `addDays`) are abstract functions passed as parameters (`dayOf`, `hourOf`, `dayAt`), or their results are taken as given `yyyy-MM-dd` keys. Time zones are not modelled.
- Date ordering: the list view's date sort through `new Date(...).getTime()` is modelled as the string order of normalised keys. `localeCompare` on `HH:mm` strings is modelled as plain lexicographic order.
- The calendar's month day-grid `while` loop (src/components/CalendarView.tsx:57-71) and the job card's due-date messages (src/components/JobQuickView.tsx:46-61) are date arithmetic on the clock and are not modelled.
- The job card's `formatTime` of start and end times (src/components/JobQuickView.tsx:63-71) is date formatting and is not modelled.
- Floating point: `Math.round` of a float ratio is modelled as exact integer round-half-up. The float can differ by one unit in the last place at exact halves. The SVG circumference and offset, and the month view's bar widths, are not modelled.
- Ids and clock: `uuidv4()` ids and `new Date().toISOString()` are caller-supplied parameters. `AddTemplatedTodos` therefore requires one id per template title.
- The template list `defaultTodoTemplates`, `initialDefaultCategories` and the full `User` record live in a types module that is not part of this model. The titles and defaults are parameters, and the profile fields the form does not edit are one opaque map.
- Toasts, dialogs' visual state beyond the flags, navigation and rendering are not modelled. Toast choices are outcome values (`AddOutcome`, `UpdateOutcome`, `Notice`, `Option`).
- Sorting: `Array.prototype.sort` sorts the day buckets in place. It is modelled as the value function `Sorting.SortBy`, a stable insertion sort, so in-place update and aliasing of the bucket arrays are not captured.
- TaskSummary.CalculateTaskCounts: the source's inner `forEach` is a separate method `CountJob` here; the counters it returns are added in the outer loop.
- CategoryColors.GetCategoryColor: JavaScript objects also answer to `Object.prototype` names such as `"toString"`; the model's table is a plain map, so those names get the fallback colour.
- App.FiveToggles: an unrecognised stored status is not restored by five clicks (it comes back as unsure), and a checked todo comes back with its newest completion time, so only the status is restored in general.

## Findings

| source | as written | input that shows it | evidently intended | confidence | as-written member | corrected member |
|---|---|---|---|---|---|---|
| src/components/ActiveProjectsCarousel.tsx:43 | a job is active when its rounded progress is below 100 | a job with 200 checked todos and one empty todo rounds to 100 and leaves the carousel | a job stays active while any countable todo is unchecked | medium, not executed | ActiveProjectsCarousel.RoundingHidesUnfinishedJob | ActiveProjectsCarousel.UnfinishedVersusActive |
