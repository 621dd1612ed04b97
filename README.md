# File Organizer backend core, in Dafny

This project models the planning and bookkeeping core of the File Organizer
backend and proves what that core promises. The backend scans a source folder
and runs a pipeline of steps over the files it finds. The steps are
standardize, deduplicate, filename, group and transfer. Each step only
*plans*: it marks every file record for deletion, a rename or a move. After
the last step the planned changes are executed once. Deleted files go to a
`.undo_trash` folder below the source root. The server answers one step
(`/api/run-step`) or a batch (`/api/run-all`), reports each change, and saves
the undo records. Three undo managers store them: a JSON file, SQLite and
Postgres. Each keeps the last ten operations and can undo the newest one.

How the model is built:

- **Records.** A file record is a class, `Models.FileItem`, whose `mark_*`
  methods update its fields in place. Every step is a method over a sequence
  of these objects. Each step is proved to leave them in the state that a pure
  specification function computes from their old states. That function's
  properties are proved as lemmas.
- **Filesystem.** The filesystem is a value, `FileSystem.Fs`: a set of file
  paths and a set of directory paths. `exists()`, `mkdir`, `shutil.move`
  and `rmdir` are functions on it, and the value is threaded through the
  steps.
- **Paths.** A path is a sequence of name segments (`Paths.Path`). The
  `pathlib` operations the code uses are written out.
- **Datetimes.** A datetime is a record of integer fields (`DateTimes`), and
  `timedelta` arithmetic carries explicitly.
- **Foreign inputs.** Every call into code that is not modelled becomes a
  parameter. These are EXIF dates, file times, sizes, content hashes, MIME
  guesses, `strptime` on folder names, `datetime.now()`, the `uuid` token and
  the text of a raised exception.
- **Undo storage.** The undo managers are classes. `UndoJson.UndoManager`
  holds the JSON file. `UndoDb.UndoStore` holds the two tables, which both
  database managers share. The two database managers run the same
  statements on the same tables, but they handle transactions and failures
  differently. The SQLite manager commits the inserts before the cleanup and
  catches only an integrity error. The Postgres manager runs the whole save
  in one transaction and catches every database error. The only failure in
  this model is a duplicate operation id, so these differences do not show
  up in it.
- **Shared undo logic.** Both kinds of manager use one undo loop and one
  result message, in `UndoHistory`.

Modules:

| module | models |
|---|---|
| `Models` | `ActionType`, `FileItem` and its `mark_*` methods, `Context` |
| `Paths`, `FileSystem`, `DateTimes`, `Strings` | `pathlib`, the filesystem effects, `datetime`, decimal and case helpers |
| `TimestampFormatter` | `TimestampFormatter` |
| `Scanner` | `EXTENSIONS`, `_matches_category`, `scan`, `scan_count` |
| `FilenameText`, `Filename` | the filename step's name logic and its `process` |
| `DedupNames`, `Grouping`, `Deduplicate` | the deduplicate step |
| `StandardizeNames`, `StandardizeSpec`, `StandardizeRecords`, `StandardizeFolders`, `Standardize`, `StandardizeProps` | the standardize step |
| `Group` | the group step |
| `Transfer`, `TransferCleanup` | the transfer step's `process` and `cleanup` |
| `Counter`, `NumberedPaths`, `Collisions` | the "first free `_N`" collision loops |
| `Execute`, `Pipeline` | `Pipeline.run` and `_execute_changes` |
| `Config` | `PipelineConfig` and its `validate` methods |
| `ServerReport`, `ServerSteps`, `Server` | `generate_changes`, `run_step_logic`, `api_run_step`, `api_run_all` |
| `UndoHistory`, `UndoJson`, `UndoDb` | the three undo managers |

## Model

| member | source | states |
|---|---|---|
| Models.Scanned | backend/src/core/scanner.py:54-55 | a freshly scanned record has original and current path both equal to the file, no action, no destination, no timestamp |
| Models.Deleted | backend/src/core/models.py:38-39 | `mark_delete` sets the action to DELETE and changes nothing else |
| Models.Renamed | backend/src/core/models.py:41-44 | `mark_rename(n)` keeps the folder, gives the name `n`, sets RENAME and points the destination at the new current path; original path and timestamp kept |
| Models.Moved | backend/src/core/models.py:46-51 | `mark_move(folder)` keeps the name, puts the record in `folder`, sets MOVE and points the destination at the new current path |
| Models.RenameThenMove | backend/src/core/models.py:41-51 | a rename followed by a move lands at `folder/new_name` as a MOVE, original path untouched |
| Models.FileItem.constructor | backend/src/core/models.py:19-28 | a new record carries the two paths, no action, no destination, no timestamp |
| Models.FileItem.Name | backend/src/core/models.py:30-32 | `name` is the last segment of `current_path` |
| Models.FileItem.Suffix | backend/src/core/models.py:34-36 | `suffix` is the pathlib suffix of `current_path`'s name |
| Models.FileItem.MarkDelete | backend/src/core/models.py:38-39 | the record's new state is `Deleted` of the old one |
| Models.FileItem.MarkRename | backend/src/core/models.py:41-44 | the record's new state is `Renamed` of the old one |
| Models.FileItem.MarkMove | backend/src/core/models.py:46-51 | the record's new state is `Moved` of the old one |
| Scanner.Extensions | backend/src/core/scanner.py:12-42 | an unknown category gets the empty extension set |
| Scanner.CategorySemantics | backend/src/core/scanner.py:21-42 | "all" accepts every extension, "others" exactly those in none of the five sets, a named category exactly its own set, anything else nothing |
| Scanner.FilterForMatches | backend/src/core/scanner.py:21-29 | the filter settled once per scan answers exactly as `_matches_category` |
| Scanner.Walk | backend/src/core/scanner.py:44-45 | the top-down walk visits the directory itself first, with its file names, before any pruned-visible sub-directory |
| Scanner.ScanBound | backend/src/core/scanner.py:57-63 | the scan's bound is at least one and at most 50000, and never more than a positive user limit |
| Scanner.ScanDir | backend/src/core/scanner.py:46-63 | the inner loop creates fresh, distinct records for the accepted names of one directory, in order, stopping exactly when the room is used up |
| Scanner.Scan | backend/src/core/scanner.py:32-65 | `scan` returns fresh distinct records whose paths are exactly `ScanPaths`: the accepted files in walk order, cut at the bound |
| Scanner.ScanVisits | backend/src/core/scanner.py:44-65 | the loop over visited directories returns records for exactly the first `bound` candidates |
| Scanner.Cap | backend/src/core/scanner.py:58-89 | the count at which a limit stops is at least one and at least the limit |
| Scanner.CountOf | backend/src/core/scanner.py:77-93 | `truncated` holds exactly when a limit is given and reached; the count never exceeds the candidates and falls short only when truncated |
| Scanner.CountDir | backend/src/core/scanner.py:81-91 | the inner counting loop adds the accepted names of one directory, stopping exactly at the limit |
| Scanner.ScanCount | backend/src/core/scanner.py:68-93 | `scan_count` returns `CountResult`: the number of accepted files and whether the limit cut it |
| Scanner.CountVisits | backend/src/core/scanner.py:79-93 | the counting loop over visited directories returns `CountOf` of the candidate count |
| Scanner.ScanSkipsHidden | backend/src/core/scanner.py:45-52 | every scanned path lies strictly below the root, has no segment starting with a dot below the root, and passes the category filter |
| Scanner.ScanIsBoundedPrefix | backend/src/core/scanner.py:44-65 | the scan is the walk-order prefix of the candidates, at most 50000 long and within the limit, and cut short only at the bound |
| Scanner.MissingRoot | backend/src/core/scanner.py:33-71 | a missing root gives no records and the count `(0, False)` |
| Scanner.CountMatchesScan | backend/src/core/scanner.py:32-93 | with a limit under 50000 `scan_count` reports exactly the number of records `scan` returns, truncated exactly when that number is the cap |
| TimestampFormatter.Preset | backend/src/utils/timestamp_formatter.py:14-48 | every preset separates the date with `-` and date from time with `_` or a space |
| TimestampFormatter.NewFormatter | backend/src/utils/timestamp_formatter.py:38-57 | the formatter takes its preset's separators and microseconds flag; a 12-hour override forces an unpadded 12-hour clock, a 24-hour override a padded 24-hour clock, no override keeps the preset |
| TimestampFormatter.UnknownPresetIsDefault | backend/src/utils/timestamp_formatter.py:48 | an unknown preset name behaves exactly like "default" |
| TimestampFormatter.Hour12 | backend/src/utils/timestamp_formatter.py:79-81 | `%I` is in 1..12 and agrees with the hour modulo 12 |
| TimestampFormatter.LStripZeros | backend/src/utils/timestamp_formatter.py:81 | `lstrip('0')` returns a suffix of its input that does not start with `0` |
| TimestampFormatter.LStripZeroPad2 | backend/src/utils/timestamp_formatter.py:81 | stripping the zero padding of a 12-hour `%I` gives the plain decimal, so the `or '12'` fallback never fires |
| TimestampFormatter.TwoDigitFields | backend/src/utils/timestamp_formatter.py:74-85 | month, day, hour, minute and second of a valid datetime print in exactly two characters |
| TimestampFormatter.DatePartShape | backend/src/utils/timestamp_formatter.py:74-88 | every formatted timestamp begins with `YYYY-MM-DD`, ten characters whose digit fields read back as the year, month and day |
| TimestampFormatter.UnpaddedHour | backend/src/utils/timestamp_formatter.py:80-81 | in unpadded 12-hour mode the hour is one or two digits, not zero-led, reading back as `%I` |
| TimestampFormatter.TwentyFourHour | backend/src/utils/timestamp_formatter.py:83-85 | in 24-hour mode the hour is two digits reading back as the hour, and the time is `HH-MM-SS` with no AM/PM |
| TimestampFormatter.PcloudExample | backend/src/utils/timestamp_formatter.py:102-106 | the pcloud example is `2024-01-01 2-30-45PM_123456` |
| TimestampFormatter.GooglePhotosExample | backend/src/utils/timestamp_formatter.py:102-106 | the google_photos example is `2024-01-01_14-30-45` |
| TimestampFormatter.GooglePhotos12hExample | backend/src/utils/timestamp_formatter.py:50-94 | google_photos with the 12-hour override formats 14:30:45 as `2024-01-01_2-30-45PM` |
| Pipeline.ProcessStep | backend/src/core/pipeline.py:19-21 | one step's `process`: the records it returns are distinct records of its input, and their states and the filesystem are those of the step's specification applied to the input |
| Pipeline.DeduplicateStep | backend/src/steps/deduplicate.py:64-162 | the deduplicate step returns distinct records drawn from its input, whose states are the deduplicated states |
| Pipeline.FilenameStep | backend/src/steps/filename.py:123-154 | the filename step leaves the list in place and its states become the renamed states |
| Pipeline.Pipeline.constructor | backend/src/core/pipeline.py:7-9 | a new pipeline holds its context and no steps |
| Pipeline.Pipeline.AddStep | backend/src/core/pipeline.py:11-12 | a step is appended after the ones already held |
| Pipeline.Pipeline.Run | backend/src/core/pipeline.py:14-26 | the records and filesystem after a run are every step planned in order and then the changes executed once |
| Pipeline.PlanAll | backend/src/core/pipeline.py:15-21 | the planning loop: each step gets what the one before returned, the records stay distinct and drawn from the initial ones |
| Pipeline.PlanNext | backend/src/core/pipeline.py:20-21 | one iteration of the planning loop extends the planned prefix by one step |
| Pipeline.PlannedThroughAppend | backend/src/core/pipeline.py:19-21 | planning two step lists one after the other is planning their concatenation |
| Pipeline.DryStepKeepsFs | backend/src/core/pipeline.py:19-21 | in a dry run no step changes the filesystem |
| Pipeline.DryRunKeepsFs | backend/src/core/pipeline.py:14-26 | in a dry run neither the planning nor the execution phase changes the filesystem |
| Execute.FindTrash | backend/src/core/pipeline.py:54-63 | the trash collision loop picks the trash path the specification names |
| Execute.ExecuteItem | backend/src/core/pipeline.py:31-86 | one record executed: its new state and the new filesystem are the execution function of the old ones |
| Execute.ExecutedUpTo | backend/src/core/pipeline.py:31 | executing a prefix keeps one state per record |
| Execute.ExecutedAll | backend/src/core/pipeline.py:28-86 | executing keeps one state per record |
| Execute.ExecuteChanges | backend/src/core/pipeline.py:28-86 | the execution loop: the records' states and the filesystem end as the records executed in order, each against the filesystem the ones before it left |
| Execute.ExecuteNext | backend/src/core/pipeline.py:31-86 | one iteration executes record `i` and nothing else |
| Execute.NoActionUntouched | backend/src/core/pipeline.py:32-33 | a record with no action changes nothing |
| Execute.DryRunUntouched | backend/src/core/pipeline.py:36-79 | in a dry run no record and no file changes |
| Execute.SkippedUntouched | backend/src/core/pipeline.py:40-76 | a delete whose file is gone, or a rename or move without a destination, changes nothing |
| Execute.DeleteMovesToTrash | backend/src/core/pipeline.py:39-67 | a delete moves the file to a trash path that does not exist yet: the mirrored path when free, otherwise `stem_c.suffix` for the least counter `c` whose candidate is free; the record gets that destination |
| Execute.RenameMoveMoves | backend/src/core/pipeline.py:71-86 | a rename or move creates the destination's parent and moves the file there, the record unchanged |
| Execute.EveryRecordExecuted | backend/src/core/pipeline.py:31-86 | every record's final state is its own execution against the filesystem that the records before it left |
| Transfer.Rel | backend/src/steps/transfer.py:26-36 | the path relative to the source root exists exactly when the planned destination (or the current path) or the current path lies under the root, and it is taken from the first of them that does |
| Transfer.FindDest | backend/src/steps/transfer.py:46-50 | the collision loop ends on the first `stem_c.suffix` beside the new path that is free or is the record's own path |
| Transfer.TransferredAll | backend/src/steps/transfer.py:20-65 | every record is planned on its own, against the same filesystem |
| Transfer.TransferItem | backend/src/steps/transfer.py:21-62 | one record's state becomes its transfer plan |
| Transfer.Process | backend/src/steps/transfer.py:15-65 | `process` returns the same list, every state replaced by its transfer plan |
| Transfer.TransferNext | backend/src/steps/transfer.py:20-62 | one iteration plans record `i` and nothing else |
| Transfer.SkippedUnchanged | backend/src/steps/transfer.py:21-36 | a delete, or a record with no path under the source root, is left as it is |
| Transfer.TransferMoves | backend/src/steps/transfer.py:38-62 | any other record becomes a move to the collision-free destination beside `target_root / rel`, keeping its original path; its current path follows only when the name is unchanged |
| Transfer.DestFree | backend/src/steps/transfer.py:46-50 | without overwrite the destination is free or the record's own path; it is the new path itself when that is free, otherwise `stem_c.suffix` for the least counter whose candidate is free |
| Transfer.OverwriteExact | backend/src/steps/transfer.py:43-46 | with overwrite the destination is exactly `target_root / rel` |
| Transfer.KeepsRelativePath | backend/src/steps/transfer.py:24-40 | a record already planned to `source_root / rel` goes to `target_root / rel` when that is free, so the folder structure a previous step planned is kept |
| Transfer.PlansIgnoreEachOther | backend/src/steps/transfer.py:43-50 | two records with the same relative path get the same destination, since planning consults only the filesystem and not the other plans |
| TransferCleanup.IgnorableSpec | backend/src/steps/transfer.py:106-114 | nothing is ignorable outside hidden-file mode, `.git` never is, an ignorable entry is hidden or a junk file, and a file is ignorable exactly when hidden mode is on and the unlink pass would remove it |
| TransferCleanup.HasNonIgnorableEntries | backend/src/steps/transfer.py:116-123 | the answer is true exactly when the folder cannot be listed or lists an entry that is not ignorable |
| TransferCleanup.NonIgnorableWhenOff | backend/src/steps/transfer.py:107-123 | outside hidden-file mode a folder counts as occupied exactly when it is missing or not empty |
| TransferCleanup.UnlinkFiles | backend/src/steps/transfer.py:80-88 | the unlink pass removes the unwanted files listed and swallows every failure |
| TransferCleanup.RemoveChildren | backend/src/steps/transfer.py:90-96 | each listed subfolder with nothing that counts in it is removed, failures swallowed |
| TransferCleanup.VisitDir | backend/src/steps/transfer.py:77-104 | one folder of the bottom-up walk: the unlink pass, the subfolders, then the folder itself unless it is the source root |
| TransferCleanup.Cleanup | backend/src/steps/transfer.py:67-104 | `cleanup` does nothing when the source root is missing and otherwise visits the walk's folders in order |
| TransferCleanup.RmdirTidies | backend/src/steps/transfer.py:94-102 | `rmdir` only removes, and never a folder still holding a file |
| TransferCleanup.UnlinkUnwantedTidies | backend/src/steps/transfer.py:80-88 | the unlink pass removes only unwanted files and no folder |
| TransferCleanup.RmdirChildrenTidies | backend/src/steps/transfer.py:90-96 | the subfolder pass removes no file, and only direct subfolders of the visited folder |
| TransferCleanup.VisitTidies | backend/src/steps/transfer.py:77-104 | a visit removes only unwanted files (none outside hidden mode) and only the visited folder or its direct subfolders |
| TransferCleanup.WalkTidies | backend/src/steps/transfer.py:76-104 | the same holds for every prefix of the walk, a removed folder being a visited folder or a direct subfolder of one |
| TransferCleanup.CleanupTidies | backend/src/steps/transfer.py:67-104 | cleanup deletes no file outside hidden-file mode, only unwanted ones inside it, and never removes a folder that holds a file |
| TransferCleanup.CleanupKeepsRoot | backend/src/steps/transfer.py:98-99 | the source root survives cleanup when it existed |
| TransferCleanup.VisitClearsHidden | backend/src/steps/transfer.py:80-104 | in hidden mode a folder holding only unwanted files and no subfolder is removed |
| TransferCleanup.UnlinkUnwantedGone | backend/src/steps/transfer.py:80-88 | after the unlink pass no unwanted listed file remains |
| Group.MatchStampSpec | backend/src/steps/group.py:16-56 | the group pattern matches exactly when the stem starts with four digits, `-`, one or two digits, `-`, one or two digits; the year is the first four characters and the month the one or two digits after them |
| Group.MonthTextSpec | backend/src/steps/group.py:55-67 | `:02d` pads a one-digit month with a zero and keeps a two-digit one |
| Group.GroupedAll | backend/src/steps/group.py:33-84 | every record is grouped on its own |
| Group.SkipsDeleteAndFlat | backend/src/steps/group.py:34-39 | a delete, or any record in flat mode, is left as it is |
| Group.NoDateUnchanged | backend/src/steps/group.py:58-74 | a record with no usable filename date, no EXIF date and no file date is left as it is |
| Group.YearMonthSources | backend/src/steps/group.py:48-67 | the year and month come from the filename when prioritised and matched (four digits, two digits), otherwise from EXIF, otherwise from the file date, otherwise there is none |
| Group.GroupedMoves | backend/src/steps/group.py:76-82 | a dated record is moved, under its own name, to `source_root/year` or `source_root/year/month` |
| Group.StampedYearMonth | backend/src/steps/group.py:50-56 | `2024-05-20_13-30-00.jpg` dates to 2024 and month 05 |
| Group.StampedExample | backend/src/steps/group.py:24-84 | in year_month mode `2024-05-20_13-30-00.jpg` is planned to `source_root/2024/05/2024-05-20_13-30-00.jpg` |
| Group.MonthUnchecked | backend/src/steps/group.py:16-55 | the pattern does not validate the month: `2024-13-01` groups under month 13 |
| Group.GroupItem | backend/src/steps/group.py:33-82 | one record's state becomes its grouped state |
| Group.Process | backend/src/steps/group.py:24-84 | `process` returns the same list, every state replaced by its grouped state |
| Group.GroupNext | backend/src/steps/group.py:33-82 | one iteration groups record `i` and nothing else |
| Grouping.KeyOrder | backend/src/steps/deduplicate.py:74-92 | the keys of an insertion-ordered grouping are exactly the keys present, each once |
| Grouping.MembersFacts | backend/src/steps/deduplicate.py:74-88 | a key's group lists, in increasing order, exactly the positions having that key |
| Grouping.KeptOrder | backend/src/steps/standardize.py:24-34 | the keys of a grouping that skips absent keys are exactly the present ones, each once |
| Grouping.KeptGroupedAll | backend/src/steps/standardize.py:24-31 | the folder grouping loop ends with the keys in first-seen order and each key mapped to its members |
| NumberedPaths.FirstUntaken | backend/src/steps/transfer.py:46-50 | the counter the search stops at is free and every smaller one is blocked |
| NumberedPaths.BesideInjective | backend/src/steps/transfer.py:49 | the candidates beside a path are pairwise distinct, so the search terminates |
| Collisions.FreeName | backend/src/steps/filename.py:426-437 | the name chosen is not occupied; it is the plain name when that is free, otherwise `p` + the least counter whose candidate is free + `s` |
| Collisions.FindFree | backend/src/steps/filename.py:426-437 | the collision loop returns the free name the specification names |
| Collisions.SomeFree | backend/src/steps/filename.py:426-437 | some candidate is always free, so every collision loop terminates |
| Counter.LeastFree | backend/src/steps/filename.py:430-437 | the counter found is free and every counter before it is taken |
| Counter.AllTakenBound | backend/src/steps/filename.py:430-437 | `k` distinct taken candidates need at least `k` taken names |
| Counter.SearchFree | backend/src/steps/filename.py:430-437 | the counting loop stops at the least free counter |
| Config.DefaultConfig | backend/server.py:82-132 | a configuration with only the required fields takes category `all`, the pcloud preset with a 12-hour clock, and the timestamp prefix on with no timeline mode |
| Config.ValidatePrefix | backend/server.py:88-90 | the prefix section passes exactly when the timeline mode is absent or one of off, timeline_only, timeline_plus, failing with the source's message |
| Config.ValidateTimestampFormat | backend/server.py:105-107 | the timestamp section passes exactly when the preset is pcloud, google_photos or default, failing with the source's message |
| Config.Validate | backend/server.py:133-141 | a configuration passes exactly when it is well formed; otherwise the first failing check, in the source's order (source, target, category, prefix mode, preset), gives the error |
| Config.DefaultConfigValid | backend/server.py:118-141 | the defaults pass validation whenever both directories are named |
| FilenameText.DatePrefix | backend/src/steps/filename.py:45-49 | the first prefix pattern, when it matches, covers at least `YYYY-M-D` and starts with four digits |
| FilenameText.CounterPrefix | backend/src/steps/filename.py:50 | the second prefix pattern, when it matches, covers at least two characters starting with `(`, `[` or a digit |
| FilenameText.NumberPrefix | backend/src/steps/filename.py:51 | the third prefix pattern, when it matches, covers at least two characters starting with a digit |
| FilenameText.SplitPrefixBody | backend/src/steps/filename.py:359-370 | the prefix and body concatenate back to the stem; the prefix is empty exactly when no pattern matches |
| FilenameText.Search | backend/src/steps/filename.py:261-269 | `re.search` finds the leftmost position where the pattern matches, and none exists when it finds nothing |
| FilenameText.ExtractFromFilenameSpec | backend/src/steps/filename.py:260-278 | a timestamp is extracted exactly when the name contains a `YYYY-MM-DD` date; the result is a full stamp of 21 characters with a 12-hour clock and 19 without |
| FilenameText.ExtractFull | backend/src/steps/filename.py:261-267 | a full date-and-time match gives a full stamp of the configured length |
| FilenameText.ExtractDateOnly | backend/src/steps/filename.py:269-276 | a date alone gives midnight, `_00-00-00AM` or `_00-00-00` |
| FilenameText.ExtractLeadingStamp | backend/src/steps/filename.py:261-267 | a name starting with a stamp yields that stamp's date and time with `_` between them |
| FilenameText.ReplaceUnsafeSpec | backend/src/steps/filename.py:439 | every unsafe character becomes `_` and every other character is kept |
| FilenameText.StripLeftSpec | backend/src/steps/filename.py:440 | left stripping removes exactly the leading whitespace |
| FilenameText.StripRightSpec | backend/src/steps/filename.py:440 | right stripping removes exactly the trailing whitespace |
| FilenameText.CollapseSpec | backend/src/steps/filename.py:440 | collapsing leaves no whitespace run and keeps safe text safe |
| FilenameText.MakeSafeIsNormal | backend/src/steps/filename.py:438-441 | a safe file name has no unsafe character, no whitespace run and no surrounding whitespace |
| FilenameText.MakeSafeIdempotent | backend/src/steps/filename.py:438-441 | making a name safe twice is making it safe once |
| FilenameText.MakeSafeFixedPoints | backend/src/steps/filename.py:438-441 | a name is left unchanged exactly when it is already normal |
| FilenameText.MultipartOf | backend/src/steps/filename.py:385-386 | the multipart extension found is a suffix of the lower-cased name, and when none is found no multipart extension ends it |
| FilenameText.CleanExtension | backend/src/steps/filename.py:381-400 | the cleaned name is always normal |
| FilenameText.ItselfFixed | backend/src/steps/filename.py:63-113 | every extension the table maps to itself is a canonical target |
| FilenameText.TargetsFixed | backend/src/steps/filename.py:63-113 | every target extension of the table maps to itself |
| FilenameText.MappingTarget | backend/src/steps/filename.py:63-113 | every target of the uniform table is a lower-case single extension that the table maps to itself |
| FilenameText.NoEmptyKey | backend/src/steps/filename.py:63-113 | the empty suffix has no uniform target |
| FilenameText.ApplyUniform | backend/src/steps/filename.py:418-423 | a name without a suffix comes back unchanged; otherwise the result has the same stem and its suffix is the lower-cased extension, mapped when uniform mode is on |
| FilenameText.ApplyUniformSpec | backend/src/steps/filename.py:418-423 | a name without a suffix is unchanged; otherwise the stem is kept and the new suffix is the lower-cased one mapped through the table when uniform mode is on and it has a target |
| FilenameText.ApplyUniformIdempotent | backend/src/steps/filename.py:418-423 | applying the uniform extension twice is applying it once |
| FilenameText.Append | backend/src/steps/filename.py:330-334 | an empty text leaves the body, a text after a non-empty body is joined with `_`, after an empty body it becomes the body |
| FilenameText.RStripSeps | backend/src/steps/filename.py:339 | `rstrip("_-. ")` removes exactly the trailing separators, and a prefix that starts with a non-separator keeps something |
| FilenameText.JoinStem | backend/src/steps/filename.py:336-345 | the joined stem is never empty |
| FilenameText.BodyStem | backend/src/steps/filename.py:321-345 | the new stem is never empty |
| FilenameText.BodyStemKeepsPrefix | backend/src/steps/filename.py:324-345 | the detected prefix is kept in front and the composed body at the end; with no body the prefix is trimmed; with neither the stem is `file` |
| FilenameText.ComposeAll | backend/src/steps/filename.py:327-334 | with all three texts set the body is `replace_first_second` |
| FilenameText.HolidayExample | backend/src/steps/filename.py:321-345 | `IMG_0001` with replace `holiday` and texts `beach`, `2024` becomes `holiday_beach_2024` |
| Filename.ModeOf | backend/src/steps/filename.py:193 | a timeline mode is recognised exactly when it is off, timeline_only or timeline_plus |
| Filename.LoadedMode | backend/src/steps/filename.py:184-193 | a recognised timeline mode is used as given; a missing or unknown one becomes timeline_plus when the timestamp is on and off otherwise |
| Filename.LoadedReplace | backend/src/steps/filename.py:206-210 | the replacement body is the configured text, empty when absent, with surrounding whitespace stripped |
| Filename.Loaded | backend/src/steps/filename.py:196-199 | after loading, the timestamp flag is on exactly when the timeline mode is not off |
| Filename.PrefixName | backend/src/steps/filename.py:218-243 | a name that is not to be stamped is kept; otherwise the new name does not exist in the folder and is the stamped name or one of its numbered variants |
| Filename.BodynameResult | backend/src/steps/filename.py:321-357 | the bodyname result stays in the folder, is new to the run's names and is added to them, does not exist unless it is the file itself, and is the composed stem plus suffix or a numbered variant of it |
| Filename.ResolvedName | backend/src/steps/filename.py:426-437 | the resolved name is new ignoring case, and is the name itself when that already was |
| Filename.ResolvedNameNumbered | backend/src/steps/filename.py:429-436 | a taken name becomes `stem_c.suffix` for the least counter whose candidate is not taken ignoring case |
| Filename.ExtensionResult | backend/src/steps/filename.py:371-379 | the extension step stays in the folder, gives a name new to the run ignoring case and records it, and returns the path itself when the name is unchanged |
| Filename.PlanItemSpec | backend/src/steps/filename.py:130-150 | a delete is untouched; any other record gets a name new to the run, recorded, and is renamed exactly when the name changed |
| Filename.Fold | backend/src/steps/filename.py:130-150 | the loop keeps one state per record |
| Filename.Plan | backend/src/steps/filename.py:123-152 | planning keeps one state per record |
| Filename.FoldStep | backend/src/steps/filename.py:130-150 | one iteration plans the next record against the name sets the earlier ones left |
| Filename.FoldSpec | backend/src/steps/filename.py:123-152 | over any per-record planner that behaves as one record is planned: every record ends as planned, the final names of the records not deleted are pairwise distinct ignoring case, and the name sets only grow |
| Filename.PlanSpec | backend/src/steps/filename.py:123-152 | the filename step renames a record exactly when its name changes, leaves deletes alone, and gives the surviving records pairwise distinct names ignoring case |
| Filename.Stamp24IsFull | backend/src/steps/filename.py:308-320 | a 24-hour timestamp begins a name the full-stamp pattern matches |
| Filename.StampedNameKept | backend/src/steps/filename.py:218-223 | in timeline_plus mode with a 24-hour clock, a name already starting with a stamp is not stamped again |
| Filename.UnpaddedStampRestamped | backend/src/steps/filename.py:219-223 | with the unpadded 12-hour clock, a name stamped before 10 o'clock does not match the full-stamp pattern, so a second run stamps it again |
| Filename.ShortHourNotFull | backend/src/steps/filename.py:54-57 | a name with `-` at position 12 is not a full stamp |
| Filename.FilenameStep.constructor | backend/src/steps/filename.py:19-39 | a new step holds the class defaults |
| Filename.FilenameStep.LoadConfig | backend/src/steps/filename.py:155-217 | `_load_config` sets the settings to those loaded from the configuration |
| Filename.FilenameStep.ApplyPrefix | backend/src/steps/filename.py:218-243 | the prefix stage returns the name the prefix specification names |
| Filename.FilenameStep.ApplyBodyname | backend/src/steps/filename.py:321-357 | the bodyname stage returns the path and name set the specification names |
| Filename.FilenameStep.ApplyExtension | backend/src/steps/filename.py:371-379 | the extension stage returns the path and name set the specification names |
| Filename.FilenameStep.Rename | backend/src/steps/filename.py:134-147 | prefix, bodyname and extension in that order give the new name and name sets |
| Filename.FilenameStep.ProcessItem | backend/src/steps/filename.py:131-150 | one record is planned as the per-record specification says |
| Filename.FilenameStep.ProcessAll | backend/src/steps/filename.py:130-150 | the loop plans the records in order, threading both name sets |
| Filename.FilenameStep.ProcessNext | backend/src/steps/filename.py:131-150 | one iteration plans record `i` and nothing else |
| Filename.FilenameStep.Process | backend/src/steps/filename.py:123-152 | `process` loads the configuration and the records' states become the planned states |
| Deduplicate.Planned | backend/src/steps/deduplicate.py:64-162 | the deduplicate step plans one state per record |
| Deduplicate.ScoreFoldStep | backend/src/steps/deduplicate.py:127-137 | in hashing mode a member whose hash was already seen is skipped, otherwise it is scored and appended |
| Deduplicate.ScoreFoldEntries | backend/src/steps/deduplicate.py:97-137 | every scored entry is a member of the group and carries that member's score |
| Deduplicate.ScoreFoldIncreasing | backend/src/steps/deduplicate.py:97-137 | scored entries keep the group's list order |
| Deduplicate.ScoreFoldFast | backend/src/steps/deduplicate.py:128 | without hashing every member is scored |
| Deduplicate.ScoreFoldFirst | backend/src/steps/deduplicate.py:97-137 | the first member of a group is always scored |
| Deduplicate.ScoreFoldSeen | backend/src/steps/deduplicate.py:95-135 | in hashing mode the seen set is exactly the hashes of the members |
| Deduplicate.KeptWithoutFast | backend/src/steps/deduplicate.py:128-137 | in hashing mode a member is scored exactly when no earlier member has its hash |
| Deduplicate.DroppedWhenSeen | backend/src/steps/deduplicate.py:130-133 | a member with the hash of an earlier one is not scored |
| Deduplicate.SortDistinct | backend/src/steps/deduplicate.py:143 | sorting keeps the entries distinct |
| Deduplicate.SortMembers | backend/src/steps/deduplicate.py:143 | sorting keeps exactly the same entries |
| Deduplicate.WinnerIsBest | backend/src/steps/deduplicate.py:143-144 | the winner is the first entry, in group order, with the highest score, and belongs to the group |
| Deduplicate.WinnerScore | backend/src/steps/deduplicate.py:104-144 | the winner's score is at least every scored member's score |
| Deduplicate.WinnerPlanned | backend/src/steps/deduplicate.py:146-152 | the winner ends with the canonical name `base + ext` |
| Deduplicate.OthersDeleted | backend/src/steps/deduplicate.py:131-159 | every record of a group that is not its winner is marked for deletion |
| Deduplicate.OutputOfMembers | backend/src/steps/deduplicate.py:92-160 | a record is returned exactly when its group is processed and it was scored |
| Deduplicate.OutputMembers | backend/src/steps/deduplicate.py:90-162 | a record is returned exactly when it was scored in its own group |
| Deduplicate.FastReturnsAll | backend/src/steps/deduplicate.py:128 | without hashing every record is returned |
| Deduplicate.SlowReturnsFirstOfHash | backend/src/steps/deduplicate.py:128-137 | with hashing a record is returned exactly when no earlier record of its group has the same hash |
| Deduplicate.EarlierMembers | backend/src/steps/deduplicate.py:88-97 | the members before a record in its group are exactly the earlier records with its key |
| Deduplicate.UnreadableCountsAsDuplicate | backend/src/steps/deduplicate.py:127-136 | two unreadable files of one group share the hash `None`, so the later one is dropped as a duplicate |
| Deduplicate.OutputOfUnique | backend/src/steps/deduplicate.py:90-162 | no record is returned twice |
| Deduplicate.GroupedNext | backend/src/steps/deduplicate.py:75-88 | one iteration of the grouping loop appends the record to its key's list, adding the key when new |
| Deduplicate.GroupItems | backend/src/steps/deduplicate.py:74-88 | the grouping loop maps every key present, in first-seen order, to its records' positions |
| Deduplicate.GroupedAll | backend/src/steps/deduplicate.py:74-92 | the groups are visited in first-seen key order and each lists exactly its members in list order |
| Deduplicate.ScoreGroup | backend/src/steps/deduplicate.py:94-137 | the scoring loop yields the scored entries, and in hashing mode marks the skipped members for deletion and nothing else |
| Deduplicate.ScoreGroupStep | backend/src/steps/deduplicate.py:97-137 | one iteration scores or drops exactly the next member |
| Deduplicate.MarkGroup | backend/src/steps/deduplicate.py:143-160 | the group's records are returned in sorted order; the winner is renamed, the others deleted |
| Deduplicate.RenameWinner | backend/src/steps/deduplicate.py:147-152 | the winner alone is renamed to the canonical name when its name differs |
| Deduplicate.MarkedAll | backend/src/steps/deduplicate.py:144-160 | after the winner's rename and the losers' deletion every record is in its marked state |
| Deduplicate.DeleteLosers | backend/src/steps/deduplicate.py:157-160 | the losers are returned in sorted order and each is marked for deletion |
| Deduplicate.DeletedUpTo | backend/src/steps/deduplicate.py:157-160 | marking keeps one state per record |
| Deduplicate.DeleteNext | backend/src/steps/deduplicate.py:158-160 | one iteration deletes and appends the next loser |
| Deduplicate.LosersAt | backend/src/steps/deduplicate.py:157-160 | the losers list holds the sorted entries after the winner, in order |
| Deduplicate.DeletedUpToAt | backend/src/steps/deduplicate.py:157-159 | after `k` iterations exactly the losers among the first `k` entries are deleted |
| Deduplicate.ProcessGroup | backend/src/steps/deduplicate.py:92-160 | one group: its scored records are returned winner first and every record ends in the group's effect |
| Deduplicate.Process | backend/src/steps/deduplicate.py:64-162 | `process` returns every group's scored records, winner first, in key order, and every record ends in its planned state |
| Deduplicate.ProcessGroups | backend/src/steps/deduplicate.py:90-162 | the loop over the groups returns their records in key order and plans every record |
| Deduplicate.ProcessNext | backend/src/steps/deduplicate.py:92-160 | one pass processes the next group and appends its records |
| Deduplicate.OutputOfStep | backend/src/steps/deduplicate.py:154-160 | each group appends its sorted records to the result |
| DedupNames.DigitSuffixLen | backend/src/steps/deduplicate.py:70 | the counted trailing digits are digits and the character before them is not |
| DedupNames.ExtStart | backend/src/steps/deduplicate.py:70-71 | `(\.[^.]+)$` starts at a dot followed by at least one character and no further dot |
| DedupNames.DuplicateNameKey | backend/src/steps/deduplicate.py:70-81 | `base (n).ext` groups under `(base, ext)` |
| DedupNames.CopyNameKey | backend/src/steps/deduplicate.py:71-83 | `Copy of base.ext` groups under `(base, ext)` |
| DedupNames.PlainNameKey | backend/src/steps/deduplicate.py:84-85 | any other name groups under its stem and suffix |
| DedupNames.CanonicalBeatsCopy | backend/src/steps/deduplicate.py:121-125 | with equal dates, sizes and formats the canonically named file outscores a numbered or `Copy of` one by 1001 |
| DedupNames.FormatBonus | backend/src/steps/deduplicate.py:119 | a `.raw` or `.tiff` file outscores an otherwise equal one by 10000 |
| DedupNames.Insert | backend/src/steps/deduplicate.py:143 | insertion adds exactly one entry |
| DedupNames.SortDesc | backend/src/steps/deduplicate.py:143 | the sort is a permutation of its input |
| DedupNames.InsertDescending | backend/src/steps/deduplicate.py:143 | inserting into a descending list keeps it descending, the new head being the higher of the two |
| DedupNames.SortDescDescending | backend/src/steps/deduplicate.py:143 | the sort's result is descending by score |
| DedupNames.FirstMax | backend/src/steps/deduplicate.py:143-144 | the first position holding the highest score |
| DedupNames.SortDescHead | backend/src/steps/deduplicate.py:143-144 | the stable descending sort puts first the earliest entry with the highest score |
| StandardizeSpec.FolderKeys | backend/src/steps/standardize.py:25-31 | each record's grouping key is its folder, or none for a delete |
| StandardizeSpec.DestDir | backend/src/steps/standardize.py:84-91 | files are flattened into the folder's parent or the source root, never outside the root |
| StandardizeSpec.FolderNamer | backend/src/steps/standardize.py:203-216 | the file namer used is a well-behaved namer |
| StandardizeSpec.ItemStep | backend/src/steps/standardize.py:65-138 | one file step keeps one state per record |
| StandardizeSpec.Steps | backend/src/steps/standardize.py:64-138 | the per-file loop keeps one state per record |
| StandardizeSpec.FolderBody | backend/src/steps/standardize.py:64-138 | the per-file body keeps one state per record |
| StandardizeSpec.FolderUpTo | backend/src/steps/standardize.py:64-138 | a prefix of one folder's loop keeps one state per record |
| StandardizeSpec.SkipUpTo | backend/src/steps/standardize.py:51-53 | the skip loop keeps one state per record |
| StandardizeSpec.NamedOf | backend/src/steps/standardize.py:59 | each member is paired with its current name, for the sort |
| StandardizeSpec.FolderEffect | backend/src/steps/standardize.py:34-148 | processing one folder keeps one state per record |
| StandardizeSpec.SortedInRange | backend/src/steps/standardize.py:59 | sorting keeps every position in range |
| StandardizeSpec.FolderAt | backend/src/steps/standardize.py:34-148 | one folder's pass keeps one state per record |
| StandardizeSpec.PlanUpTo | backend/src/steps/standardize.py:34-148 | the folder loop keeps one state per record |
| StandardizeNames.Hits | backend/src/steps/standardize.py:184-185 | marks exactly the positions where the pattern matches |
| StandardizeNames.FirstHit | backend/src/steps/standardize.py:185 | the first marked position, none when there is none |
| StandardizeNames.Leftmost | backend/src/steps/standardize.py:185 | `search` finds the leftmost match, and none exists when it finds nothing |
| StandardizeNames.ParseFilenameTimestamp | backend/src/steps/standardize.py:179-201 | a parsed timestamp has no microseconds, and a name with no match parses to nothing |
| StandardizeNames.ParsedFields | backend/src/steps/standardize.py:189-199 | the parsed fields are those of the leftmost match, with PM adding 12 except at 12 and 12 AM meaning 0 |
| StandardizeNames.FormatNoDot | backend/src/utils/timestamp_formatter.py:59-94 | no formatted timestamp contains a dot |
| StandardizeNames.GeneratedNameParts | backend/src/steps/standardize.py:203-216 | a generated name's stem is the formatted timestamp and its suffix the original's, and numbering keeps the suffix |
| StandardizeNames.Hour12Back | backend/src/steps/standardize.py:192-198 | reading a 12-hour hour with its AM/PM back gives the 24-hour hour |
| StandardizeNames.HourReadsBack | backend/src/steps/standardize.py:184-198 | every formatted hour is one or two digits that read back as the hour |
| StandardizeNames.FormatSplit | backend/src/utils/timestamp_formatter.py:88-94 | a formatted timestamp is the date, the separator, the time and the microseconds in that order |
| StandardizeNames.DateHereOf | backend/src/steps/standardize.py:184-189 | a formatted date reads back as its year, month and day |
| StandardizeNames.MatchHereOf | backend/src/steps/standardize.py:184 | a formatted date, a space or underscore and a matching time form a match reading back as the datetime |
| StandardizeNames.GeneratedMatch | backend/src/steps/standardize.py:184-216 | every name the standardize step generates matches the filename pattern at its start, in every preset |
| StandardizeNames.GeneratedNameParses | backend/src/steps/standardize.py:179-216 | parsing a generated name gives back its datetime with the microseconds dropped |
| StandardizeNames.TimeParts | backend/src/steps/standardize.py:184 | the formatted time reads back as the hour, minute and second, with AM/PM exactly in 12-hour mode |
| StandardizeNames.StrLessIrreflexive | backend/src/steps/standardize.py:59 | no name sorts before itself |
| StandardizeNames.StrLessTrans | backend/src/steps/standardize.py:59 | the name order is transitive |
| StandardizeNames.StrLessTotal | backend/src/steps/standardize.py:59 | of two different names one sorts first |
| StandardizeNames.InsertByName | backend/src/steps/standardize.py:59 | insertion adds exactly one entry |
| StandardizeNames.SortByName | backend/src/steps/standardize.py:59 | the sort is a permutation of its input |
| StandardizeNames.InsertOrdered | backend/src/steps/standardize.py:59 | inserting a later entry keeps the list ordered by name, ties in list order |
| StandardizeNames.SortByNameOrdered | backend/src/steps/standardize.py:59 | the stable sort orders by name and keeps equal names in list order |
| StandardizeProps.StepsOutside | backend/src/steps/standardize.py:64-138 | the per-file loop changes only the records it has visited |
| StandardizeProps.StepsAt | backend/src/steps/standardize.py:64-138 | each visited record is in the state its own iteration left |
| StandardizeProps.FolderUpToOutside | backend/src/steps/standardize.py:64-138 | a folder's loop touches no record outside the folder |
| StandardizeProps.SkippedIdempotent | backend/src/steps/standardize.py:51-53 | skipping sets a missing destination to the current path and keeps one given, so skipping twice is skipping once |
| StandardizeProps.SkipUpToAt | backend/src/steps/standardize.py:51-53 | after the skip loop exactly the listed records are skipped |
| StandardizeProps.FolderEffectOutside | backend/src/steps/standardize.py:34-148 | a folder's pass changes no record of another folder |
| StandardizeProps.DeleteUntouched | backend/src/steps/standardize.py:26-27 | the standardize step never changes a delete |
| StandardizeProps.SkippedFolder | backend/src/steps/standardize.py:45-54 | a folder without a date and without fallback only has its records skipped and the filesystem kept |
| StandardizeProps.FolderEffectDry | backend/src/steps/standardize.py:101-141 | in a dry run a folder's pass moves no file and changes no record's paths or action |
| StandardizeProps.DryRunKeepsPaths | backend/src/steps/standardize.py:20-150 | in a dry run the filesystem is kept and every record keeps its paths and action |
| StandardizeProps.SortDistinct | backend/src/steps/standardize.py:59 | sorting keeps the positions distinct |
| StandardizeProps.FolderOrder | backend/src/steps/standardize.py:59 | a folder's members sort by name with ties in list order and no position twice |
| StandardizeProps.FolderRecord | backend/src/steps/standardize.py:64-138 | the `t`-th file in name order gets the timestamp plus `t+1` microseconds: in a dry run it is planned to the target, otherwise moved there and flattened when the move succeeds and left as it was when it fails; a file with no date is left as it is |
| StandardizeProps.FallbackSkipsUnparsable | backend/src/steps/standardize.py:69-73 | with fallback, a file whose name has no timestamp is left as it is |
| StandardizeProps.DatedFolderStamps | backend/src/steps/standardize.py:58-76 | in a dated folder every file gets its increment as metadata timestamp unless its move failed, always in a dry run |
| StandardizeProps.StampsIncrease | backend/src/steps/standardize.py:76 | later files in the sort get strictly later timestamps |
| StandardizeProps.TargetFree | backend/src/steps/standardize.py:84-99 | the target lies in the destination folder under the root, does not exist or is the file itself, and is the generated name when that is free |
| StandardizeRecords.NewPath | backend/src/steps/standardize.py:82-99 | the collision loop returns the target the specification names |
| StandardizeRecords.Flatten | backend/src/steps/standardize.py:106-136 | after a successful move the record is a move whose original, current and destination paths are all the new path, with the timestamp |
| StandardizeRecords.Stamp | backend/src/steps/standardize.py:122-138 | in a dry run only the destination and the metadata timestamp are set |
| StandardizeRecords.ItemNext | backend/src/steps/standardize.py:65-138 | one file of the loop ends as its step specification says |
| StandardizeRecords.WriteAt | backend/src/steps/standardize.py:101-138 | the record at the position is stamped in a dry run and flattened otherwise; no other record changes |
| StandardizeRecords.ItemStepAt | backend/src/steps/standardize.py:68-138 | a dated file is planned to its target in a dry run, moved and flattened when the move succeeds, and left with the filesystem unchanged when it fails |
| StandardizeRecords.SkipNext | backend/src/steps/standardize.py:51-53 | one iteration of the skip loop skips exactly one member |
| StandardizeRecords.SkipItems | backend/src/steps/standardize.py:51-53 | the skip loop skips every member of the folder |
| StandardizeRecords.FlattenNext | backend/src/steps/standardize.py:64-138 | one iteration of the per-file loop advances its specification by one file |
| StandardizeFolders.ProcessFolder | backend/src/steps/standardize.py:34-148 | one folder: skipped, or sorted, flattened, and removed when empty outside a dry run, as its effect says |
| StandardizeFolders.FolderEffectRun | backend/src/steps/standardize.py:58-148 | a dated folder's effect is its files planned in name order, then the folder removed when empty outside a dry run |
| StandardizeFolders.FlattenFolder | backend/src/steps/standardize.py:64-138 | the per-file loop plans the files in sorted order |
| Standardize.GroupFolders | backend/src/steps/standardize.py:24-31 | the folders are collected in first-seen order, each with its non-deleted records |
| Standardize.Process | backend/src/steps/standardize.py:20-150 | `process` returns the same list, the records and filesystem ending as the folders processed in first-seen order |
| Standardize.PlanUpToNext | backend/src/steps/standardize.py:34-148 | one pass of the folder loop extends the plan by one folder |
| ServerReport.PathOf | backend/server.py:264-270 | reading a report text back as a path gives a clean path |
| ServerReport.JoinSlashRoundTrip | backend/server.py:268-270 | `str(path)` of a non-empty path reads back as that path |
| ServerReport.RootedRoundTrip | backend/server.py:268-270 | an absolute path's text reads back as the path |
| ServerReport.PathTextRoundTrip | backend/server.py:268-270 | every path's text reads back as the path |
| ServerReport.RelStrRoundTrip | backend/server.py:264-266 | the text of a relative path reads back as that relative path |
| ServerReport.DateTimeTextShape | backend/server.py:240 | `str(datetime)` is 19 characters, or 26 with microseconds, starting with `YYYY-MM-DD` and a space |
| ServerReport.DatePartLength | backend/server.py:240 | the date part of `str(datetime)` is the ten-character ISO date |
| ServerReport.TimePartLength | backend/server.py:240 | the time part is 8 characters, or 15 with microseconds |
| ServerReport.Entry | backend/server.py:233-278 | a record is reported exactly when it has an action or a metadata timestamp with no action; the entry names the original file with status success |
| ServerReport.GenerateChanges | backend/server.py:231-279 | the loop produces the report of the records, in order |
| ServerReport.ReportedOf | backend/server.py:233-278 | the records kept in the report all qualify |
| ServerReport.ReportEntries | backend/server.py:231-279 | the report holds one entry per qualifying record, in order, and nothing else |
| ServerReport.UnreportedDropped | backend/server.py:248-249 | records without action or metadata produce no entry |
| ServerReport.ReportAppend | backend/server.py:231-279 | the report of two lists concatenated is the two reports concatenated |
| ServerReport.DeleteRenameValues | backend/server.py:251-272 | a delete reports `deleted`; a rename with a destination reports the new name; a rename or move without one reports `unknown` |
| ServerReport.MoveTextReadsBack | backend/server.py:260-270 | a move's text reads back as the destination relative to the target root, else relative to the source root, else the destination itself |
| ServerSteps.MetadataOutlivesReset | backend/server.py:294-299 | a record keeps its metadata timestamp through the per-step reset, so a record that a later step gives no action is still reported as `Metadata Updated: <timestamp>` |
| ServerSteps.StepClass | backend/server.py:50-71 | the step ids with no class are exactly prefix, rename and clean_extension |
| ServerSteps.StepIdsDistinct | backend/server.py:50-71 | different step ids have different values, and two ids that have a class and share it are the same id (prefix, rename and clean_extension all have none) |
| ServerSteps.ContextOf | backend/server.py:283-291 | the context carries the configuration and its dry-run flag |
| ServerSteps.Cleared | backend/server.py:297-299 | the reset clears action and destination and keeps the paths and metadata timestamp |
| ServerSteps.ClearedAll | backend/server.py:294-299 | every reused record is reset |
| ServerSteps.ScannedAll | backend/server.py:301 | each scanned path becomes a fresh record |
| ServerSteps.Rebased | backend/server.py:345-347 | a rename or move with a destination is rebased onto it, anything else kept |
| ServerSteps.ActualFaithful | backend/src/core/pipeline.py:28-86 | the step planning, execution and undo saving the endpoints use are the modelled ones |
| ServerSteps.RunStepLogic | backend/server.py:281-369 | `run_step_logic` follows its specification: it raises for an unmapped id, otherwise the records, report, undo list and filesystem are those of planning, executing (outside a dry run), rebasing and cleanup; undo is saved exactly when asked, outside a dry run and with changes; reused records are reset even when it raises |
| ServerSteps.Prepare | backend/server.py:293-301 | the records are the reused ones reset, or a fresh scan |
| ServerSteps.RunClass | backend/server.py:303-369 | from the step lookup on, the run follows its specification and reused records are left reset when it raises |
| ServerSteps.ScanSource | backend/server.py:301 | the scan yields fresh, distinct records of the scanned paths |
| ServerSteps.ScannedStates | backend/src/core/scanner.py:32-65 | scanned records are in their scanned states |
| ServerSteps.PlanStep | backend/server.py:308-311 | the step's `process` gives distinct records drawn from its input, planned as its specification says |
| ServerSteps.Conclude | backend/server.py:313-369 | after planning, the run executes, records undo, cleans up and reports as its specification says |
| ServerSteps.Commit | backend/server.py:315-360 | outside a dry run records are executed, undo captured before and after, records rebased and deletions dropped, and undo saved when asked and non-empty |
| ServerSteps.ExecuteAndCapture | backend/server.py:318-338 | the undo list is the relocations before execution followed by the deletions with their trash paths after it |
| ServerSteps.SaveUndo | backend/server.py:351-360 | undo is saved exactly when asked and there are changes |
| ServerSteps.ResetItems | backend/server.py:297-299 | the reset loop resets every record |
| ServerSteps.CollectUndo | backend/server.py:320-338 | the capture loop records exactly the qualifying records, in order |
| ServerSteps.RebaseItems | backend/server.py:341-349 | deletes are dropped and every remaining record rebased, in order |
| ServerSteps.RebaseItem | backend/server.py:345-347 | one record is rebased onto its destination |
| ServerSteps.KeptSurvivors | backend/server.py:341-349 | the kept records are distinct, drawn from the input, and in the surviving states |
| ServerSteps.UnmappedRaises | backend/server.py:304-306 | a step raises exactly when its id has no class, with the no-handler message |
| ServerSteps.DryRunRecordsNothing | backend/server.py:315-369 | in a dry run a step records no undo and changes no file |
| ServerSteps.SurvivorsShape | backend/server.py:341-349 | no survivor is a delete, and every relocated survivor already sits at its destination |
| ServerSteps.SurvivorsCount | backend/server.py:341-349 | exactly the deletes are dropped |
| ServerSteps.UndoRecordsKinds | backend/server.py:320-338 | the first capture records only renames and moves, the second only deletes |
| ServerSteps.StepUndoKnown | backend/server.py:318-338 | every undo change a step records has an action the undo knows how to reverse |
| Server.Admit | backend/server.py:374-415 | a request gets through exactly when its configuration is valid and the source exists or, holding `#`, can be created; creating it adds folders only; each refusal carries the source's message |
| Server.ApiRunStep | backend/server.py:371-395 | `/api/run-step` answers, leaves the filesystem and saves undo exactly as the endpoint's specification says |
| Server.RunAdmitted | backend/server.py:390-395 | past the gate: a raising step answers a failure with its message and saves nothing; otherwise success with the report, and undo saved under `<step>_<token>` outside a dry run when there are changes |
| Server.ApiRunAll | backend/server.py:397-450 | `/api/run-all` answers, leaves the filesystem and saves the combined undo under `summary_<token>` exactly as its specification says |
| Server.RunSteps | backend/server.py:418-436 | the loop over the steps runs each on the records the previous one left, saving nothing itself, and ends where the batch specification does |
| Server.BatchedStep | backend/server.py:421-436 | the batch over the remaining steps is the current step followed by the batch over the rest |
| Server.RunNext | backend/server.py:422-436 | one step of the batch: run with the reused records and no undo saving, then recorded |
| Server.Record | backend/server.py:424-436 | a success appends its response, replaces the records and adds its undo outside a dry run; a failure appends its error and keeps the reset records |
| Server.RunStepAnswers | backend/server.py:371-395 | the response names the step, succeeds exactly when the gate opens and the step does not raise, carries an error exactly when it fails and no files then, and a failure saves no undo; a refusal leaves the filesystem alone |
| Server.DryRunStepSavesNothing | backend/server.py:369-390 | in a dry run a single step saves no undo and changes no file beyond creating the source |
| Server.BatchResponses | backend/server.py:421-436 | the batch appends exactly one well-formed response per step, in the steps' order, after those already given |
| Server.NextAnswers | backend/server.py:430-436 | each step appends one well-formed response naming that step |
| Server.RunAllShut | backend/server.py:404-440 | a refused batch returns no responses, saves nothing and leaves the filesystem alone |
| Server.RunAllAnswers | backend/server.py:418-436 | an admitted batch returns one well-formed response per requested step, in order |
| Server.DryBatchCombinesNothing | backend/server.py:431-432 | in a dry run no undo is combined |
| Server.DryBatchKeepsFs | backend/server.py:418-436 | in a dry run the batch changes no file |
| Server.BatchUndoKnown | backend/server.py:431-447 | every change in the combined undo has an action the undo can reverse |
| UndoHistory.NewestKept | backend/src/core/undo.py:37-39 | retention keeps a suffix of the history in order: all of it when short enough, exactly `max_history` entries otherwise, the newest one last |
| UndoHistory.TakeDigitsOf | backend/src/core/undo.py:105 | reading the digits of a message stops exactly at the end of the number written into it |
| UndoHistory.ReadNumber | backend/src/core/undo.py:105 | the count written in decimal is read back as the same number, leaving the rest of the text |
| UndoHistory.TailRoundTrip | backend/src/core/undo.py:105 | the message's tail after the undone count gives back the failed count |
| UndoHistory.MessageRoundTrip | backend/src/core/undo.py:105 | the result message determines both counts: parsing `Undone N changes[, F failed]` gives back exactly the counts it was built from |
| UndoHistory.CleanupEmptyParents | backend/src/core/undo_sqlite.py:143-160 | the loop removes empty parents exactly as the walk specification does |
| UndoHistory.PrunedShape | backend/src/core/undo_sqlite.py:143-160 | the walk removes only directories, at most `max_levels` of them, and exactly the nearest ancestors of the start path; no file changes |
| UndoHistory.PrunedStops | backend/src/core/undo_sqlite.py:148-156 | the walk stops early only at the top of the tree or at the first parent that is not an empty directory |
| UndoHistory.RevertRows | backend/src/core/undo_sqlite.py:200-240 | the undo loop visits the changes in order and ends where the reversal specification does |
| UndoHistory.RevertCounts | backend/src/core/undo_sqlite.py:205-240 | one change counts at most once, as undone or as failed, exactly once when its action is known, with one error per failure and earlier errors kept |
| UndoHistory.RevertedCounts | backend/src/core/undo.py:65-98 | over a list of changes the counters only grow, undone plus failed is at most the number of changes and equal to it when every action is known, one error per failure |
| UndoHistory.FinishedReports | backend/src/core/undo_sqlite.py:247-254 | the result succeeds exactly when something was undone, names the operation, and its message states both counts |
| UndoHistory.ReportAccounted | backend/src/core/undo_sqlite.py:200-254 | an undo's result accounts for every change of the operation |
| UndoHistory.JsonDeleteFails | backend/src/core/undo.py:76-80 | the JSON-file manager never restores a deletion and reports `Cannot restore deleted file: <name>` |
| UndoHistory.RestoreMovesBack | backend/src/core/undo_sqlite.py:211-231 | a rename or move whose new path exists (or, for the database managers, a deletion whose trash copy exists) is moved back to its original path, counted as undone, with only parent folders created |
| UndoHistory.MissingFails | backend/src/core/undo_sqlite.py:218-235 | a change whose new path is missing fails with `Cannot restore deleted file: <original name>` or `File not found: <new name>` and changes no file |
| UndoHistory.UnknownSkipped | backend/src/core/undo_sqlite.py:211-223 | a change with another action is skipped and counted nowhere |
| UndoHistory.Reversed | backend/src/core/undo.py:70 | the reversed list has the same length, element `i` being the `i`-th from the end |
| UndoHistory.AllKnownReversed | backend/src/core/undo.py:70 | reversing the changes keeps whether every action is known |
| UndoHistory.ChainRestored | backend/src/core/undo.py:69-70 | a rename followed by a move of the same file is undone newest first, bringing the file back to where it started |
| UndoDb.RowsFor | backend/src/core/undo_sqlite.py:100-105 | one change row per change, in order, under the operation's id |
| UndoDb.History | backend/src/core/undo_sqlite.py:349-389 | `get_history` lists one entry per stored operation |
| UndoDb.UndoStore.constructor | backend/src/core/undo_sqlite.py:17-58 | a store over tables with unique operation ids holds those tables |
| UndoDb.UndoStore.SaveOperation | backend/src/core/undo_sqlite.py:81-118 | the operation and its change rows are inserted, then the oldest expired; a duplicate id is rolled back |
| UndoDb.UndoStore.CleanupOldOperations | backend/src/core/undo_sqlite.py:120-141 | the operations beyond `max_history`, oldest first, are deleted with their changes |
| UndoDb.UndoStore.UndoLastOperation | backend/src/core/undo_sqlite.py:162-257 | the newest operation's changes are reversed newest first and the operation deleted with its changes; with none stored, a refusal |
| UndoDb.UndoStore.UndoOperation | backend/src/core/undo_sqlite.py:259-347 | the chosen operation is undone as the undo specification says, with its refusals |
| UndoDb.UndoStore.Delete | backend/src/core/undo_sqlite.py:242-245 | the operation's row and all its change rows are deleted, nothing else |
| UndoDb.UndoStore.GetHistory | backend/src/core/undo_sqlite.py:349-389 | the history is the tables' listing, newest first |
| UndoDb.UndoStore.ClearHistory | backend/src/core/undo_sqlite.py:391-402 | both tables end empty |
| UndoDb.OpIdsWithout | backend/src/core/undo_sqlite.py:244 | deleting an operation removes exactly its id |
| UndoDb.ChangesWithoutTwice | backend/src/core/undo_sqlite.py:137-139 | deleting the change rows of two id sets in turn is deleting those of their union |
| UndoDb.UniqueWithout | backend/src/core/undo_sqlite.py:244 | deleting an operation keeps the ids unique |
| UndoDb.ChangesOfAppend | backend/src/core/undo_sqlite.py:192-197 | selecting one operation's changes distributes over appended rows |
| UndoDb.ChangesOfRows | backend/src/core/undo_sqlite.py:192-197 | the rows inserted for an operation select back exactly its changes, and nothing for any other id |
| UndoDb.ChangesOfWithout | backend/src/core/undo_sqlite.py:192-197 | after deleting a set of ids' rows, those ids have no changes and every other id keeps its own |
| UndoDb.DroppedLinked | backend/src/core/undo_postgres.py:233-234 | deleting an operation with its changes leaves no change row without its operation |
| UndoDb.DroppedKeeps | backend/src/core/undo_postgres.py:323-324 | deleting an operation removes its id and its changes and keeps every other operation's changes |
| UndoDb.DuplicateRollsBack | backend/src/core/undo_sqlite.py:114-116 | saving an id already stored leaves the tables unchanged |
| UndoDb.InsertedHistory | backend/src/core/undo_postgres.py:73-92 | after the insert the new operation heads the history, followed by the old history |
| UndoDb.InsertedLinked | backend/src/core/undo_postgres.py:73-92 | the insert keeps ids unique and every change row linked, with at most one operation over the limit |
| UndoDb.SavedHistory | backend/src/core/undo_sqlite.py:81-141 | after saving, the history is the new operation followed by the newest older ones, `max_history` in all at most |
| UndoDb.ExpireOldest | backend/src/core/undo_postgres.py:104-128 | with one operation over the limit, cleanup drops exactly the oldest from the history |
| UndoDb.UndoLastEffect | backend/src/core/undo_sqlite.py:174-254 | with no operations, the refusal `No operations to undo` and nothing changed; otherwise every change of the newest one is accounted for, the result names it and the history loses exactly its head |
| UndoDb.DropNewest | backend/src/core/undo_postgres.py:233-234 | deleting the newest operation removes exactly the head of the history |
| UndoDb.HistoryAt | backend/src/core/undo_postgres.py:336-378 | entry `k` of the history is the `k`-th newest operation with its changes |
| UndoDb.UndoChosenEffect | backend/src/core/undo_sqlite.py:259-344 | the refusals `Only the latest operation can be undone` and `No changes found for this operation` change nothing; otherwise every change is accounted for and the operation and its changes are deleted, all others kept |
| UndoDb.HistoryNewestFirst | backend/src/core/undo_postgres.py:336-378 | the history's head is the operation `undo_last_operation` picks, and every entry lists its own changes |
| UndoJson.UndoManager.constructor | backend/src/core/undo.py:16-18 | a manager over the given history file |
| UndoJson.UndoManager.LoadHistory | backend/src/core/undo.py:112-131 | a stored list reads back as itself; a missing or unreadable file as no entries |
| UndoJson.UndoManager.SaveOperation | backend/src/core/undo.py:20-42 | the entry is appended and only the newest `max_history` written back: at most ten, the new one last |
| UndoJson.UndoManager.UndoLastOperation | backend/src/core/undo.py:44-110 | no entries: the refusal `No operations to undo` with nothing changed; otherwise the last entry's changes are reversed newest first and the file written back without it |
| UndoJson.UndoManager.ClearHistory | backend/src/core/undo.py:116-119 | the file holds an empty list |
| UndoJson.UndoReport | backend/src/core/undo.py:65-110 | the JSON undo's result accounts for every change of the last entry |
| UndoJson.DeletionsNeverRestored | backend/src/core/undo.py:76-80 | undoing only deletions fails each of them and moves no file |
| Paths.Parent | backend/src/core/undo.py:86 | `PurePath.parent` of a non-empty path is the path without its last part |
| Paths.WithName | backend/src/core/models.py:43 | `with_name` replaces the last part and keeps the parent |
| Paths.Child | backend/src/core/pipeline.py:51 | joining a name puts it under the folder as the last part |
| Paths.RelativeTo | backend/src/core/pipeline.py:46 | `relative_to` succeeds exactly when the root is a prefix of the path, and the root joined with the result is the path |
| Paths.RFind | backend/src/steps/filename.py:391 | the last occurrence of the character, or -1 when there is none |
| Paths.StemSuffix | backend/src/core/models.py:35-36 | `stem` followed by `suffix` is the name, the suffix being empty or a dot and at least one further character with no other dot |
| Paths.SuffixOfSegment | backend/src/steps/filename.py:227 | a non-empty stem followed by a one-dot extension has exactly that suffix and stem |
| Paths.LastSuffix | backend/src/steps/filename.py:391-393 | when `suffixes` is non-empty its last element is `suffix`, the name from its last dot |
| Paths.SplitExt | backend/src/core/scanner.py:50 | the extension `os.path.splitext` returns is empty or starts with a dot |
| FileSystem.MakeDirs | backend/src/core/undo.py:86 | `mkdir(parents=True, exist_ok=True)` leaves the files alone, keeps every folder and makes the target a folder |
| FileSystem.Move | backend/src/core/undo.py:87 | a successful `shutil.move` takes the file from its source to the target (inside the destination when that is a folder), a failed one changes nothing |
| FileSystem.Rmdir | backend/src/core/undo_sqlite.py:153-154 | `rmdir` succeeds exactly on an empty folder and removes only it |
| DateTimes.AddDays | backend/src/steps/standardize.py:76 | adding days gives a valid date that many days later |
| DateTimes.NextMonthStartsAfter | backend/src/steps/standardize.py:76 | the first of the next month is the day after the last of this month |
| DateTimes.AddMicros | backend/src/steps/standardize.py:76 | adding `timedelta(microseconds=k)` gives a valid time exactly `k` microseconds later |
| DateTimes.AddMicrosInjective | backend/src/steps/standardize.py:61-76 | distinct increments give distinct times, so the numbered files get distinct timestamps |
| Strings.NatStrRoundTrip | backend/src/core/undo.py:105 | the decimal text of a number reads back as that number |
| Strings.NatStrInjective | backend/src/core/undo.py:105 | distinct numbers are written differently |
| Strings.ZeroPadValue | backend/src/steps/group.py:67 | zero-padding a number keeps its value |
| Strings.ZeroPadExact | backend/src/utils/timestamp_formatter.py:74 | a number below `10^width` pads to exactly `width` digits |

## Left out

- HTTP and transport: the FastAPI app, CORS, the request models' parsing, uvicorn, and every other endpoint. These include scan-path, presets, defaults, undo, history and logs. They carry no planning logic.
- The TypeScript client is not part of this model.
- `print` and `logging`, `_scrub_text` and `_rotate_log` are output only and are not modelled.
- `step.py` is not modelled. It is an abstract interface; the steps are named by `Pipeline.StepKind` instead.
- The persistence wrappers `preset_overrides_*.py` and `custom_presets_*.py` are single SQL statements and are not modelled.
- Foreign calls are parameters, not models. These are PIL/EXIF, `magic`/`mimetypes`, `os.stat` times and sizes, SHA-256 hashing, `datetime.now()`, `uuid.uuid4()`, and `strptime` in `_parse_folder_name`.
- exiftool and `os.utime` in the standardize step only touch metadata. They are not modelled.
- Scores are integers. The float `timestamp()` and `int(st_mtime)` terms of the deduplicate score are oracle integers.
- Directory listings are inputs. The scanner's tree is a `Scanner.Node` value in listing order, and the cleanup walk of the transfer step is a sequence of `os.walk(..., topdown=False)` triples. Both come in as values, so `os.walk`'s order and any change to the tree during the walk are not modelled.
- Relative path strings are read from the filesystem root. The working directory is not modelled.
- Scanner.Scan: takes `Path.resolve()` as the identity, because the modelled filesystem has no symbolic links. The server keeps `source_root` unresolved. When the source folder is or lies under a symbolic link, the program's resolved record paths are not under `source_root`: transfer then leaves those records unplanned and standardize falls back to `source_root` as the destination. The model does not capture this case and always plans those records.
- Path strings are parsed as `ServerReport.PathOf` says: `/` separators, with empty and `.` segments dropped. No other `pathlib` normalisation is modelled.
- `\d` in the hand-written matchers is ASCII `0`-`9`. Python's `\d` also matches other Unicode digits.
- Upper and lower case are ASCII: `str.lower()` outside ASCII is not modelled.
- Exceptions inside a step are modelled two ways. The step's own `try`/`except` blocks act as no-ops where the filesystem call would fail. The text of an exception the server catches is a parameter (`reason`). Raising `shutil.move` calls inside the undo loop are modelled the same way.
- Any other raising call (an out-of-range `datetime`, a `ValueError` from `with_name("")`) is not modelled.
- TimestampFormatter.DateText: prints the year zero-padded to four digits, which is what the `%Y` of CPython 3.12.5, 3.13 and later does for years below 1000. Older CPython on glibc prints such a year without padding (`999-01-01`), and the standardize pattern then does not read the name back. Nothing in the repository fixes a Python version. DatePartShape, DateHereOf, GeneratedMatch and GeneratedNameParses therefore hold for every year only under the padded `%Y`. For years from 1000 on, every CPython version agrees with the model.
- DateTimes.AddMicros: does not model the `OverflowError` Python raises past year 9999. The model's datetimes are unbounded above.
- `os.makedirs` of the `#` source folder fails in the model only when a file stands in the way; the exception text is the parameter `reason`.
- `shutil.move` moves files only. Moving a directory and `mkdir` where a file stands are outside the model's filesystem.
- `run_step_logic` raises "No handler for step " followed by the step's value. The `str` of a `str`-mixin enum depends on the Python version.
- Server.ApiRunAll: the outer `except Exception: pass` matters only when `validate` raises. That case is modelled as the empty answer it returns before any step runs. The scan itself does not raise in the model.
- Server.ApiRunAll: the cleanup walk of each step is an input, one per requested step (`|walks| == |steps|`).
- Server and ServerSteps take the planner, executor and undo store as an `Effects` bundle with a `Faithful` precondition. `ServerSteps.ActualFaithful` proves that the real definitions meet it, so every contract holds of them. This is an abstraction for the verifier, not a different behaviour.
- The distinct records: every step method requires `Distinct(items)`, pairwise distinct objects, as the scanner creates them. A list holding one object twice is not modelled.
- The undo databases keep their rows in insertion order, which is the order of their `id` columns.
- Retention orders by `created_at`, whose resolution is one second. It is modelled as insertion order, so the engine's tie-breaking is not modelled.
- `_ensure_valid_db_file`, connection failures and `get_stats` of the Postgres manager are not modelled.
- The JSON manager's failing `json.dump` is not modelled. A corrupt history file is the `Corrupt` value.
- The config is modelled in its `PipelineConfig` form only, where every section is present. The `dict` and `SimpleNamespace` forms that the steps' `getattr` fallbacks also accept are not modelled.
- Filename: the doubled-extension collapse loop in `_clean_extension` rewrites a local that is never used. The model follows the code: `x.mov.mov` keeps both extensions.
- Group: a `datetime` oracle result is always truthy, as in Python. Only `None` means the date is absent.
- The stable sorts (the deduplicate winner order, standardize's name order) are specification functions, not in-place `list.sort` calls on the record list.
- StandardizeSpec.ItemStep: is written as a total function on record positions. Positions out of range leave the world unchanged, which `process` never reaches.
- Transfer.TransferMoves: states the destination's folder only for a target root other than the filesystem root.
- Unreadable directories, which `os.walk` skips silently, are not modelled.
