# snow_ipa export orchestration, modelled in Dafny

This project models the export-orchestration core of the `snow_ipa` package.
The package exports monthly snow-cover images to Google Earth Engine (GEE)
assets and to Google Drive, and tracks each export as a remote job.

The model covers these parts:

- **Status taxonomy** (`Status`). The fixed table maps the raw provider
  statuses to seven categories. The module also defines the SKIP, UNFINISHED
  and FINISHED groups derived from the table.
- **Export tasks and the export list** (`Exports`). This covers:
  - the target and status setters;
  - `start_task`, and `query_status` with its three-strike retry budget;
  - `export_summary`;
  - `start_exports`, and the `track_exports` sweep loop.
- **Plan reconciliation** (`Workflows`). This covers:
  - normalising saved-asset names into `YYYY-MM-01` month keys;
  - `determine_export_plan` and `target_export_plan`;
  - the per-month task creation of `create_export_tasks_to_gee` / `_to_gdrive`.
- **Trailing year-month extraction** (`Assets`): `get_trailing_ym`.
- **The export manager** (`Exporting`):
  - its default plan;
  - `final_assets_to_save`;
  - the sections of `print_export_plan` and `print_export_status`.
- **Helpers**:
  - `Dates`: date validation, `current_year_month`, `prev_month_last_date`;
  - `Utils`: `csv_to_list`, `keys_to_lower`, `replace_values_in_dict`;
  - `CommandLine`: `parse_list_arg` and the environment-default checks;
  - `Scripting`: the configuration manager's flags, `update_config`,
    `check_required`, and the masking step of `print_config`;
  - `Logs`: `get_log_level`;
  - `Configs`: the default settings.
- **Python semantics as modules**:
  - `Text`: ASCII case mapping, `strip` / `split`, `Path.name`, `str(n)`;
  - `Seqs`: list comprehensions;
  - `Sorting`: string order, `sorted`, `set`-then-`sort`;
  - `Wrappers`: Python exceptions, as an `Err` branch of `Result`.

Outside effects are modelled as follows:

- **The remote job** is an oracle value, `Exports.Job`:
  - `start()` either succeeds or fails with a message;
  - each `status()` call consumes the next reply of a finite script;
  - once the script is used up, the job repeats its `last` reply forever.
- **Parameters.** These values are passed in as arguments:
  - the clock (`today`; `current_year_month` reads it twice, so it takes two readings);
  - the process environment (a map);
  - the upstream list of available months;
  - the listing of each destination;
  - the Earth Engine export call (`create`).
- **The sleep between sweeps** is a no-op. The method returns the trace of
  sweeps after which it would sleep (`slept`).

A task always satisfies `Exports.Wf`: its category is the table row of its raw
status. The functions that change a task require that invariant and keep it.

In two places the code differs from how the system's design is usually
described. The model follows the code.

- Only months unavailable upstream enter the `excluded` record of the plan.
  A month already present at a destination does not enter it. Instead it
  becomes an `ALREADY_EXISTS` task of that destination.
- The OTHER fallback of the `export_status` setter is unreachable for an
  accepted status, because every accepted status has a row in the table.
  `Status.ClassifyName` states this.

## Model

| member | source | states |
|---|---|---|
| Status.ParseStatus | src/snow_ipa/services/gee/exports.py:22-24 | a string is recognised only as the raw status whose table name it is |
| Status.ParseStatusName | src/snow_ipa/services/gee/exports.py:22-24 | every table entry is recognised as itself, so the valid statuses are exactly the table's strings |
| Status.CategoryOf | src/snow_ipa/services/gee/exports.py:12-20 | every raw status has a row holding it |
| Status.RowsDisjoint | src/snow_ipa/services/gee/exports.py:12-20 | no raw status sits in two rows: membership in a row holds exactly for its own category |
| Status.RowsPartition | src/snow_ipa/services/gee/exports.py:12-24 | every raw status is valid and belongs to exactly one category |
| Status.FirstMatch | src/snow_ipa/services/gee/exports.py:94-100 | the row-by-row lookup finds a row holding the value, and finds none only when no row holds it |
| Status.Classify | src/snow_ipa/services/gee/exports.py:90-102 | a value the table does not know is filed as OTHER |
| Status.ClassifyName | src/snow_ipa/services/gee/exports.py:90-102 | a valid status in any letter case is filed under its own row, whatever the table order |
| Status.NameIsUpperCase | src/snow_ipa/services/gee/exports.py:80-81 | table names are upper case, so the setter's upper-casing keeps them |
| Status.GroupsByCategory | src/snow_ipa/services/gee/exports.py:27-35 | SKIP is EXCLUDED, COMPLETED, FAILED, UNKNOWN, OTHER; UNFINISHED is PENDING; FINISHED is COMPLETED and FAILED; outside SKIP means NOT_STARTED or PENDING |
| Exports.ParseTarget | src/snow_ipa/services/gee/exports.py:67-72 | the target is accepted iff it lower-cases to "gee" or "gdrive"; otherwise ValueError |
| Exports.ParseTargetName | src/snow_ipa/services/gee/exports.py:67-72 | both target names are accepted as themselves |
| Exports.SetStatus | src/snow_ipa/services/gee/exports.py:78-84 | accepted iff the upper-cased value is a table entry; then the status takes it and the category follows; otherwise ValueError; nothing else changes |
| Exports.Assign | src/snow_ipa/services/gee/exports.py:78-84 | an assignment keeps the category consistent and touches only status and category |
| Exports.AssignIsSetStatus | src/snow_ipa/services/gee/exports.py:78-84 | the setter accepts every table name and does exactly what `Assign` does |
| Exports.NewTask | src/snow_ipa/services/gee/exports.py:48-83 | construction checks the target first, then the status; a bad target gives the target setter's ValueError, a bad status the ValueError `Invalid task status: <upper-cased value>.`; a new task has no error and no failed queries |
| Exports.StartTask | src/snow_ipa/services/gee/exports.py:104-123 | no-op unless NOT_STARTED; then NO_TASK_CREATED without a job, STARTED on success, FAILED_TO_START with the error when `start()` throws; the counter is never touched |
| Exports.StartTaskIdempotent | src/snow_ipa/services/gee/exports.py:104-123 | starting twice equals starting once, and a started task is no longer NOT_STARTED |
| Exports.GaveUpNotPollable | src/snow_ipa/services/gee/exports.py:142-146 | FAILED_TO_GET_STATUS is neither PENDING nor NOT_STARTED, so it is never queried |
| Exports.QueryStatus | src/snow_ipa/services/gee/exports.py:125-157 | no job: unchanged; budget spent: FAILED_TO_GET_STATUS without a query; otherwise a PENDING or NOT_STARTED task consumes one reply and adopts it (counter and error cleared) or keeps its status (counter bumped, error recorded) |
| Exports.ApplyReply | src/snow_ipa/services/gee/exports.py:142-157 | a state the setter rejects is handled like a fault: the status is kept and the counter bumped |
| Exports.FaultCounts | src/snow_ipa/services/gee/exports.py:152-157 | one fault to a pollable task bumps the counter, records the message and keeps the status |
| Exports.RetryBudget | src/snow_ipa/services/gee/exports.py:133-146 | three faults keep the status; the fourth call marks FAILED_TO_GET_STATUS without asking the job; after that nothing changes |
| Exports.AddTask | src/snow_ipa/services/gee/exports.py:178-185 | the task is appended at the end and the earlier tasks are kept |
| Exports.FilterTargets | src/snow_ipa/services/gee/exports.py:196-205 | no filter (or an empty one) selects both targets; otherwise the lower-cased filter must name one target, else ValueError |
| Exports.Tally | src/snow_ipa/services/gee/exports.py:211-213 | the keys are the categories present, each mapped to its number of occurrences |
| Exports.ExportSummary | src/snow_ipa/services/gee/exports.py:187-215 | each category's count is the number of selected tasks carrying it, and only categories present are keys |
| Exports.CountIsOccurrences | src/snow_ipa/services/gee/exports.py:207-213 | counting tasks by category equals counting the category in the status list |
| Exports.SummaryTotal | src/snow_ipa/services/gee/exports.py:187-215 | the counts add up to the number of tasks whose target passes the filter |
| Exports.SummaryKeys | src/snow_ipa/services/gee/exports.py:207-215 | a category is a key iff some task of a selected target carries it, so every key counts at least one |
| Exports.CountPositive | src/snow_ipa/services/gee/exports.py:211-213 | a count is positive iff some task carries the category |
| Exports.CountsAddUp | src/snow_ipa/services/gee/exports.py:207-213 | every task is counted under exactly one category |
| Exports.StartExports | src/snow_ipa/services/gee/exports.py:238-267 | every task is started once; afterwards none is NOT_STARTED; tasks that were not NOT_STARTED are unchanged; order and count are kept |
| Exports.StartedAll | src/snow_ipa/services/gee/exports.py:252-262 | a list started task by task has no NOT_STARTED task and keeps the others |
| Exports.Visit | src/snow_ipa/services/gee/exports.py:289-296 | a finished or non-PENDING task is left alone; a PENDING one is queried once |
| Exports.Sweep | src/snow_ipa/services/gee/exports.py:288-310 | one pass visits each task once; the finished set grows to exactly the non-PENDING tasks; it reports running iff some task is still PENDING |
| Exports.SweepStep | src/snow_ipa/services/gee/exports.py:289-310 | visiting one more task extends the sweep state |
| Exports.SweptAll | src/snow_ipa/services/gee/exports.py:289-310 | the state after the last task gives the outcome of the pass |
| Exports.QueryLowersRank | src/snow_ipa/services/gee/exports.py:125-157 | a query of a settling PENDING task uses up a reply or a retry, and the task still settles |
| Exports.GiveUpFinishes | src/snow_ipa/services/gee/exports.py:134-140 | a PENDING task over its budget leaves PENDING |
| Exports.AcceptedLowersRank | src/snow_ipa/services/gee/exports.py:142-150 | an accepted reply either ends PENDING or uses up a scripted reply |
| Exports.RejectedLowersRank | src/snow_ipa/services/gee/exports.py:152-157 | a fault or rejected state uses up one retry |
| Exports.VisitLowersRank | src/snow_ipa/services/gee/exports.py:289-299 | a visit never adds polling work, and removes some when the task stays PENDING |
| Exports.SweepLowersRank | src/snow_ipa/services/gee/exports.py:287-313 | a pass keeps the provider assumption and strictly shrinks the remaining polling work while tasks are PENDING |
| Exports.SweepKeeps | src/snow_ipa/services/gee/exports.py:289-296 | a pass never changes a task that was not PENDING at the start, or one without a job |
| Exports.TrackStep | src/snow_ipa/services/gee/exports.py:287-313 | one sweep keeps the tracking invariant; it lowers the rank while running and leaves nothing PENDING otherwise |
| Exports.TrackExports | src/snow_ipa/services/gee/exports.py:269-315 | ends with no task PENDING; tasks not PENDING at the start, or without a job, are never changed; it sleeps after every sweep but the last |
| Assets.Last7 | src/snow_ipa/services/gee/assets.py:135 | `name[-7:]`: the last seven characters, or the whole name when shorter |
| Assets.GetTrailingYm | src/snow_ipa/services/gee/assets.py:118-142 | every output is a `DDDD-DD` token with month 1..12; each accepted token appears once per name ending in it; sorted descending; no longer than the input |
| Assets.CollectTrailing | src/snow_ipa/services/gee/assets.py:131-139 | the kept tokens are accepted months, counted once per name whose last seven characters they are |
| Assets.TrailingMonthsAccepted | src/snow_ipa/services/gee/assets.py:134-139 | only `DDDD-DD` tokens with month 1..12 are kept |
| Assets.TrailingMonthsCount | src/snow_ipa/services/gee/assets.py:134-139 | each accepted token is kept once per name whose last seven characters it is |
| Assets.ShortNamesDropped | src/snow_ipa/services/gee/assets.py:135-136 | names shorter than seven characters never contribute |
| Workflows.MatchEndsInYearMonth | src/snow_ipa/core/workflows.py:49-55 | a name that matches the saved-image pattern ends in a year-month token |
| Workflows.ListedNames | src/snow_ipa/core/workflows.py:46 | GEE asset ids are reduced to their last path component; Drive names are kept |
| Workflows.GetSavedAssets | src/snow_ipa/core/workflows.py:43-59 | the matching names are kept in listing order; the months are `YYYY-MM-01` keys, sorted descending, each occurring once per kept name that ends in its month |
| Workflows.KeepMatching | src/snow_ipa/core/workflows.py:49-55 | the kept names are the listed names matching the pattern, in listing order with duplicates, and nothing else |
| Workflows.MonthKeyCount | src/snow_ipa/core/workflows.py:58-59 | appending `-01` keeps the number of occurrences of each month |
| Workflows.MonthKeyFound | src/snow_ipa/core/workflows.py:58-59 | a month key is produced iff it is valid and some kept name ends in its year-month |
| Workflows.AppendFirstDay | src/snow_ipa/core/workflows.py:59 | appending `-01` gives valid month keys and keeps the descending order |
| Workflows.Fresh | src/snow_ipa/core/workflows.py:148-155 | a task built by the export run is consistent, carries its fields, and has no error or failed queries |
| Workflows.FreshIsNewTask | src/snow_ipa/core/workflows.py:148-155 | building such a task through the constructor with the target's and status's names succeeds with the same task |
| Workflows.ImageNameSaved | src/snow_ipa/core/workflows.py:145 | the image created for a month key matches the saved-image pattern of workflows.py:49-55, and its trailing year-month is that month again |
| Workflows.ToSaveMembers | src/snow_ipa/core/workflows.py:144-157 | the months to save are exactly the plan's months not in the inventory |
| Workflows.ExistingMembers | src/snow_ipa/core/workflows.py:144-147 | the months found are exactly the plan's months in the inventory |
| Workflows.ToSaveExistingPartition | src/snow_ipa/core/workflows.py:144-157 | to-save and found months split the plan without loss or duplication |
| Workflows.ToSaveIsFilter | src/snow_ipa/core/workflows.py:144-157 | the to-save list is the plan filtered by "not in the inventory", order and duplicates kept |
| Workflows.ExistingTasks | src/snow_ipa/core/workflows.py:144-155 | one ALREADY_EXISTS task per month found, and no other task |
| Workflows.ExistingTasksAt | src/snow_ipa/core/workflows.py:144-155 | the k-th ALREADY_EXISTS task belongs to the k-th month found |
| Workflows.ExistingTasksShape | src/snow_ipa/core/workflows.py:145-155 | each such task is ALREADY_EXISTS (EXCLUDED), has the given target, no job, a month of the plan in the inventory and image `prefix_YYYY-MM` |
| Workflows.TasksCarryTarget | src/snow_ipa/core/workflows.py:148-155 | every appended task carries the target it was planned for |
| Workflows.WithToSave | src/snow_ipa/core/workflows.py:159-162 | only the named destination's to-save list is replaced |
| Workflows.SplitPlan | src/snow_ipa/core/workflows.py:142-162 | the loop yields the filtered plan and appends the ALREADY_EXISTS tasks |
| Workflows.TargetExportPlan | src/snow_ipa/core/workflows.py:135-171 | only the task list and that destination's to-save list change; an empty plan leaves the list as it was |
| Workflows.Unavailable | src/snow_ipa/core/workflows.py:187-189 | the excluded keys are exactly the planned months missing upstream, each once |
| Workflows.FinalPlanPartition | src/snow_ipa/core/workflows.py:187-194 | the final plan holds exactly the planned months available upstream; it and the excluded months split `planned` |
| Workflows.DetermineExportPlan | src/snow_ipa/core/workflows.py:174-219 | records the excluded months and the final plan, then plans each enabled destination against its own inventory; a disabled destination is untouched |
| Workflows.UnavailableNeverPlanned | src/snow_ipa/core/workflows.py:191-219 | a month missing upstream reaches no to-save list and no ALREADY_EXISTS task, whatever the inventories hold |
| Workflows.CreatedTask | src/snow_ipa/core/workflows.py:262-297 | a month yields a CREATED task with the job, or a FAILED_TO_CREATE task without one when creation throws |
| Workflows.CreateTargetTasks | src/snow_ipa/core/workflows.py:262-297 | exactly one task per month of the to-save list, in order, appended; a failure does not stop the loop |
| Workflows.CreatedTaskStarts | src/snow_ipa/core/workflows.py:277-296 | a created task starts (or fails to start with the error); one that failed to create stays FAILED |
| Workflows.CreateExportTasks | src/snow_ipa/core/workflows.py:349-368 | exactly one task per to-save month, the GEE block first and then the Drive block, each in to-save order and only for an enabled destination; the earlier tasks and the rest of the manager are unchanged |
| Exporting.EmptyDestination | src/snow_ipa/core/exporting.py:36-48 | a destination starts with empty saved and to-save lists |
| Exporting.DefaultMonth | src/snow_ipa/core/exporting.py:31-33 | the first day of the month before `today`, as a date string; January of year 1 has none (OverflowError) |
| Exporting.NewExportManager | src/snow_ipa/core/exporting.py:16-48 | without months the plan is the previous month, otherwise the months given; excluded, tasks and inventories start empty |
| Exporting.DefaultPlanIsPreviousMonth | src/snow_ipa/core/exporting.py:31-34 | the default plan has one month and it is a valid date |
| Exporting.FinalAssetsToSave | src/snow_ipa/core/exporting.py:54-67 | strictly ascending, and as a set the union of both to-save lists |
| Exporting.FinalAssetsUnique | src/snow_ipa/core/exporting.py:63-66 | that is the only such list, so it equals sorting the set |
| Exporting.PrintExportPlan | src/snow_ipa/core/exporting.py:69-96 | "No images to export" iff the final plan is empty; an Excluded section iff something was excluded; exactly the planned and excluded months are listed; KeyError before the plan is determined |
| Exporting.PlanLines | src/snow_ipa/core/exporting.py:79-94 | the assembled sections list exactly the final plan and the excluded entries |
| Exporting.TargetLines | src/snow_ipa/core/exporting.py:110-121 | the lines of a target are exactly those of its tasks |
| Exporting.PrintExportStatus | src/snow_ipa/core/exporting.py:98-135 | "No export tasks available." iff no tasks; a section per enabled destination; every task of an enabled target is listed and no other |
| Dates.DaysInMonth | src/snow_ipa/utils/dates.py:17-19 | months have 28 to 31 days |
| Dates.ParseDate | src/snow_ipa/utils/dates.py:17-22 | only `YYYY-MM-DD` strings naming a real calendar date are accepted |
| Dates.ParseFormat | src/snow_ipa/utils/dates.py:17-19 | every representable date is read back from its text form |
| Dates.FormatParse | src/snow_ipa/utils/dates.py:17-19 | an accepted string is the text form of its date |
| Dates.CheckValidDate | src/snow_ipa/utils/dates.py:7-22 | true iff the string is the `YYYY-MM-DD` form of a date in years 1..9999 with the right month length |
| Dates.ParsesIffFormatted | src/snow_ipa/utils/dates.py:7-22 | parsing succeeds iff the string is some valid date's text form |
| Dates.CheckValidDateList | src/snow_ipa/utils/dates.py:25-38 | a bare string counts as a one-element list; true iff every element is valid, so true for `[]` |
| Dates.CurrentYearMonthDecodes | src/snow_ipa/utils/dates.py:41-46 | the label gives back the year of the first clock reading and the month of the second, and a one-digit month is written with one digit |
| Dates.CurrentYearMonthAtNewYear | src/snow_ipa/utils/dates.py:46 | readings taken either side of midnight on 31 December give the old year with month 1, a label matching neither reading |
| Dates.PrevDay | src/snow_ipa/utils/dates.py:57 | subtracting a day gives an earlier valid date, or OverflowError at 0001-01-01 |
| Dates.NextPrevDay | src/snow_ipa/utils/dates.py:57 | the day after the previous day is the day itself |
| Dates.PrevNextDay | src/snow_ipa/utils/dates.py:57 | the day before the next day is the day itself |
| Dates.PrevMonthLastDate | src/snow_ipa/utils/dates.py:49-57 | the last day of the previous month: earlier than `today`, full month length, followed by the 1st of today's month; December 31 of last year in January |
| Utils.CsvItem | src/snow_ipa/utils/utils.py:14 | a slice of the piece with only spaces and quotes removed, and only from its ends, so that neither end is a space or a quote |
| Utils.CsvPieces | src/snow_ipa/utils/utils.py:14 | one stripped piece per comma plus one |
| Utils.CsvToList | src/snow_ipa/utils/utils.py:4-15 | no element is empty or starts or ends with a space or quote; at most comma count + 1 elements; exactly the non-empty stripped pieces |
| Utils.CsvRoundTrip | src/snow_ipa/utils/utils.py:4-15 | clean items joined with commas are read back as the same list, in order |
| Utils.CsvAppend | src/snow_ipa/utils/utils.py:14-15 | the list read from `a,b` is the list read from `a` followed by the list read from `b`: order is preserved |
| Utils.CsvSingle | src/snow_ipa/utils/utils.py:14-15 | a text without commas gives its stripped self, or nothing when that is empty |
| Utils.CsvEmpty | src/snow_ipa/utils/utils.py:14-15 | "" and ",," both give the empty list |
| Utils.KeysToLower | src/snow_ipa/utils/utils.py:36-46 | every key is lower case, and the keys are exactly the lowered input keys |
| Utils.KeysToLowerLastWins | src/snow_ipa/utils/utils.py:46 | a key keeps the value of the last item that lowers to it |
| Utils.ReplaceValues | src/snow_ipa/utils/utils.py:49-67 | the keys are those of `d`; a value is replaced iff a truthy override exists for its key |
| Utils.ReplaceIdempotent | src/snow_ipa/utils/utils.py:60-67 | replacing twice with the same overrides is replacing once |
| Utils.ReplaceOnlyOverrides | src/snow_ipa/utils/utils.py:60-67 | a value changes only under a truthy override |
| Logs.GetLogLevel | src/snow_ipa/utils/logs.py:13-29 | the result is one of 10, 20, 30, 40; DEBUG, WARNING and ERROR after strip and upper-casing give theirs, anything else 20 |
| Logs.NormalName | src/snow_ipa/utils/logs.py:23 | a trimmed upper-case name is looked up as it is |
| Logs.LevelNames | src/snow_ipa/utils/logs.py:23-29 | DEBUG, INFO, WARNING and ERROR give 10, 20, 30 and 40; the empty name falls back to 20 |
| Logs.LevelIgnoresPadding | src/snow_ipa/utils/logs.py:23 | whitespace around a name does not change its level |
| CommandLine.ListItem | src/snow_ipa/core/command_line.py:13 | a cleaned piece is a slice of the piece with only whitespace and quotes removed, and only from its ends; it neither starts nor ends with a quote |
| CommandLine.ParseListArg | src/snow_ipa/core/command_line.py:9-13 | exactly comma count + 1 elements, none starting or ending with a quote |
| CommandLine.ListItems | src/snow_ipa/core/command_line.py:13 | one cleaned element per piece |
| CommandLine.ParseListRoundTrip | src/snow_ipa/core/command_line.py:9-13 | clean items joined with commas are parsed back as the same list, empty items included |
| CommandLine.ParseListEmpty | src/snow_ipa/core/command_line.py:9-13 | the empty argument gives `[""]` |
| CommandLine.EnableEmailDefault | src/snow_ipa/core/command_line.py:131-139 | e-mail is on iff the variable is set and its value, lower-cased and quote-stripped, is `true`, `1` or `yes` |
| CommandLine.EnableEmailUnsetWord | src/snow_ipa/core/command_line.py:135-136 | the unset default "false" is not an accepted word |
| CommandLine.EnableEmailCaseInsensitive | src/snow_ipa/core/command_line.py:135-136 | the switch ignores letter case |
| CommandLine.EnableEmailQuoted | src/snow_ipa/core/command_line.py:135-136 | a word in any letter case between any runs of quotes, none included, switches e-mail on iff the lower-cased word is accepted |
| CommandLine.ExportToDefault | src/snow_ipa/core/command_line.py:76-82 | the default is accepted iff it is toAsset, toDrive or toAssetAndDrive; otherwise SystemExit |
| CommandLine.ExportToExamples | src/snow_ipa/core/command_line.py:76-82 | an unset variable gives the configured toAsset; the check does not fold case, so `toasset` is rejected |
| CommandLine.LogLevelDefault | src/snow_ipa/core/command_line.py:106-111 | the default is accepted iff it is DEBUG, INFO, WARNING or ERROR; otherwise SystemExit |
| CommandLine.LogLevelExamples | src/snow_ipa/core/command_line.py:106-111 | an unset variable gives the configured INFO; the check does not fold case, so `debug` is rejected |
| Configs.DefaultConfig | src/snow_ipa/core/configs.py:10-34 | no credentials, export to toAsset, log level INFO, and every setting the checks read |
| Scripting.UpdateConfig | src/snow_ipa/core/scripting.py:43-52 | no new settings: unchanged; otherwise no key is added and a value changes only to a truthy new value under its lowered key |
| Scripting.UpdateConfigApplies | src/snow_ipa/core/scripting.py:50-51 | a known setting given truthy in any case takes the value unless a later item lowers to the same key |
| Scripting.UpdateConfigIdempotent | src/snow_ipa/core/scripting.py:43-52 | applying the same settings twice is applying them once |
| Scripting.NewScriptManager | src/snow_ipa/core/scripting.py:31-41 | the defaults updated with the new settings; GEE on iff export_to is toAsset or toAssetAndDrive; Drive on iff toDrive or toAssetAndDrive |
| Scripting.DefaultManagerExportsToGee | src/snow_ipa/core/scripting.py:38-41 | without new settings only GEE is on |
| Scripting.ManagerDestinations | src/snow_ipa/core/scripting.py:38-41 | toAssetAndDrive turns both on; toDrive only Drive |
| Scripting.ManagerHasRequiredKeys | src/snow_ipa/core/scripting.py:31-37 | a manager's settings hold every key `check_required` reads |
| Scripting.MonthsValid | src/snow_ipa/core/scripting.py:94-95 | a string is one date, a list many, anything else cannot be iterated |
| Scripting.CheckRequired | src/snow_ipa/core/scripting.py:70-101 | True iff every requirement holds; otherwise the error of the first failing check in the order credentials, GEE path, Drive path, regions, months |
| Scripting.DefaultsLackCredentials | src/snow_ipa/core/scripting.py:76-77 | the defaults fail the credentials check |
| Scripting.FalsyMonthsIgnored | src/snow_ipa/core/scripting.py:94-98 | an empty or absent months list is never validated |
| Scripting.PrintConfig | src/snow_ipa/core/scripting.py:172-181 | the private keys and the extra keys are masked where present; nothing else changes and no key is added |
| Scripting.PrintConfigIsMaskedView | src/snow_ipa/core/scripting.py:176-180 | the masking loop computes the masked view |
| Scripting.PasswordMasked | src/snow_ipa/core/scripting.py:176-180 | the SMTP password never shows |
| Scripting.MaskIdempotent | src/snow_ipa/core/scripting.py:176-180 | masking a masked view changes nothing |
| Text.Basename | src/snow_ipa/core/workflows.py:46 | `Path(asset).name`: the part after the last `/`, which holds no `/` |
| Text.Split | src/snow_ipa/core/command_line.py:13 | `str.split(",")`: one more piece than separators, none holding the separator |
| Text.JoinSplit | src/snow_ipa/core/command_line.py:13 | the pieces glued back with the separator give the string |
| Text.Strip | src/snow_ipa/utils/logs.py:23 | the result is a slice of the input with only stripped characters removed, and only from its ends; neither of its ends is a stripped character |
| Sorting.SortDesc | src/snow_ipa/services/gee/assets.py:141 | `sort(reverse=True)`: descending and a permutation |
| Sorting.SortAsc | src/snow_ipa/core/exporting.py:66 | `sort()`: ascending and a permutation |
| Sorting.Dedup | src/snow_ipa/core/exporting.py:63-65 | `set` on a sorted list: strictly ascending with the same elements |
| Sorting.StrictlyAscUnique | src/snow_ipa/core/exporting.py:63-66 | a strictly ascending list is determined by its elements |

## Left out

- Earth Engine computation and listing are not modelled. This covers the monthly means, the SCI/CCI band math, `get_asset_list` and the Drive API. They are remote calls. Their results are parameters: listings, the available months, and the `create` oracle.
- I/O is not modelled: logging, e-mail, SMTP, `init_logging_config`, `print_and_log`, templates, `fill_from_files`, `env_to_dict`, `check_email_required`, `run_complete_config`, `init_script_config` and `error_message`. The reason is that these are file, network or foreign-library I/O.
- `argparse` itself is not modelled. Only the environment-default checks that run before the parser is built are modelled.
- `time.sleep` is a no-op. Its place in the loop is recorded in the `slept` trace.
- `pretty_export_summary`, the ANSI colours and the exact text layout of the two reports are not modelled. Only the lines each report contains are modelled.
- The `pformat` rendering in `print_config` is not modelled. Only the masked dictionary is.
- `ExportList.__init__` is not modelled. Its `isinstance` guard cannot fail for a `seq<Task>`. Its deep copy is the identity on immutable values, so a list is just the sequence it is given.
- Assets.GetTrailingYm: the input is typed as a list of strings, so the source's non-list branch, which returns `[]`, cannot be reached.
- `ScriptManager` fields that hold I/O handles or the clock (`start_time`, `email_service`, `status`) are not modelled. Neither is the unused `assets_excluded` field of the export manager.
- `calculate_sci_cci` is not modelled. `modis_distinct_months` is the `available` parameter of `Workflows.DetermineExportPlan`.
- Exports.TrackExports: it terminates, and it is proved to, only under `Settles`. `Settles` requires that every PENDING task has a job and that no job's repeated last reply is a PENDING state. The source loops forever when a PENDING task has no job or a job never settles.
- Workflows.CreateExportTasks: covers the creation loops only. The source then calls `start_exports` and `track_exports`, which are `Exports.StartExports` and `Exports.TrackExports`.
- Scripting.CheckRequired: requires the six settings it reads to be present. A missing one would be a `KeyError` in the source. That cannot happen: every manager's settings start as the defaults and `update_config` never removes a key (`Scripting.ManagerHasRequiredKeys`).
- Workflows.MatchesSaved: treats the image prefix literally, not as a regular expression. A prefix holding regular-expression metacharacters would match differently in the source.
- Text.Basename: differs from `Path.name` for a trailing `/`. `Path("a/b/").name` is `b`, while the model gives the empty string. Asset ids never end in `/`.
- Case mapping (`Text.Lower`, `Text.Upper`) and the `\d` class cover ASCII only. Python's full Unicode tables are not modelled.
- Dates.ParseDate: accepts only the extended `YYYY-MM-DD` form with ASCII digits. Newer Python versions also accept basic, week and ordinal forms in `date.fromisoformat`.
- Exporting.DefaultMonth: writes the year with four digits. For years below 1000 the width that `strftime("%Y")` gives depends on the C library.
