# Smart File Organizer: a verified model of its core

This project models the core of the Smart File Organizer. The organizer sorts
the regular files of one directory (the *target*) into category
sub-directories chosen by file extension. It records every move it makes as
an undo batch, and it can later move the files back. The model covers:

- `FileOrganizer` (`file_organizer.py`): the default category table, custom
  categories, classification, the scan, category directory creation, the
  conflict-free move, the whole `organize_files` run, the preview, and the
  hand-over of undo;
- `UndoManager` (`undo_manager.py`): the pending batch, its commit, the undo
  executor that replays the committed batch backwards, and its own
  conflict-free naming;
- the undo slot of `Logger` (`logger.py`): save, load, clear, and the read
  of recent log lines.

The disk is a value, `FileSystem.FS`. It maps paths to files (with their
bytes) or directories, and holds a set `denied` of paths that the operating
system refuses to move or create. That set is how a move or a `mkdir`
fails. Methods take the disk as a parameter and return the disk afterwards.
Classes keep the state the source updates in place:

- `FileOrganizer`: target and custom categories;
- `UndoManager`: the pending batch;
- `Logger`: the undo file.

Each method is proved against a specification function:

| method | specification function |
|---|---|
| `ScanDirectory` | `Bucketize` |
| `CreateCategoryDirectories` | `CreateDirs` |
| `MoveFileSafely` | `SafeMove` |
| `GetUniqueFilename` | `LowestFree` |
| `OrganizeFiles` | `Organize` |
| `UndoLastOperation` | `ReplayReversed` |

Lemmas about those functions state what the program promises:

- the scan puts every eligible file in exactly one bucket, the one of its
  category;
- a move never overwrites anything (the disk holds no symbolic links);
- a scanned file fails to move only when the system refuses it, never
  because of a name conflict;
- the results add up;
- undoing an organization gives back every entry the disk held before.

Classification follows the code, not its documentation. The file's suffix
is lower-cased before lookup, but custom extensions are stored as given. So
a custom extension with an upper-case letter never matches
(`Categories.UpperCaseNeverMatches`). Lookup is case-insensitive for the
default table and for custom extensions written in lower case
(`Categories.CustomMatchesUpperCaseFile`).

A conflict name keeps the original suffix exactly when the name does not
end in a dot after its first character: `notes.` becomes `notes._1`, whose
suffix is `._1`, while `.` keeps its empty suffix (`Paths.CandidateSuffix`).

## Model

| member | source | states |
|---|---|---|
| Paths.RFind | file_organizer.py:176-177 | the index of the last occurrence of the character, or -1; no later character is it |
| Paths.Suffix | file_organizer.py:71 | `Path.suffix`: empty, or a dot plus at least one character with no further dot; what precedes it plus it is the name |
| Paths.StemSuffix | file_organizer.py:176-177 | stem followed by suffix is the whole name |
| Paths.Lower | file_organizer.py:71 | same length, every character lower-cased |
| Paths.Decimal | file_organizer.py:182 | `str(n)` is one or more digits, with a leading `0` only for 0 |
| Paths.DecimalValue | file_organizer.py:182 | the digits of `str(n)` spell `n` |
| Paths.DecimalInjective | file_organizer.py:182 | different counters are written differently |
| Paths.CandidateNameInjective | file_organizer.py:176-183 | different counters give different conflict names |
| Paths.DecimalLength | file_organizer.py:181-186 | a counter of at least 10^k is written with more than k digits, which is why the name search ends |
| Paths.CandidateLastDot | file_organizer.py:182 | the last dot of `stem_N suffix` is the suffix's dot, or the original name's last dot when it has no suffix |
| Paths.CandidateSuffix | file_organizer.py:176-183 | a conflict name keeps the suffix exactly when the name does not end in a dot after its first character |
| FileSystem.Move | file_organizer.py:159 | `shutil.move` to a free place: the bytes are at the destination, the source is gone, nothing else changes |
| FileSystem.MoveBack | undo_manager.py:69 | moving a file to a free place and back restores the disk exactly |
| FileSystem.MkDir | file_organizer.py:129 | `mkdir(exist_ok=True)`: the path is a directory afterwards, nothing else changes |
| FileSystem.MakeDirs | undo_manager.py:63 | `mkdir(parents=True, exist_ok=True)`: a directory on success; only directories are added, and only at `p` or its ancestors; an existing directory is a no-op; a file at `p` fails |
| FileSystem.MakeDirsSucceeds | undo_manager.py:63 | it succeeds exactly when `p` is a directory, or is free and allowed and the same holds of its parent: the nearest existing ancestor is a directory and no missing path up to it is refused |
| FileSystem.MakeDirsOneLevel | undo_manager.py:63 | a missing folder whose parent is a directory is recreated unless the system refuses it |
| FileSystem.TakenCandidateIsSmall | file_organizer.py:181-186 | a taken conflict name has a counter below a bound set by the longest name on disk |
| FileSystem.FirstFree | file_organizer.py:179-186 | the counter found is free and every counter before it, from the start, is taken |
| FileSystem.FirstFreeIsLeast | file_organizer.py:179-186 | a free counter with every earlier one taken is the one found |
| FileSystem.LowestFree | file_organizer.py:174-186 | the conflict name is free, beside the original, and has the smallest counter from 1 that is free |
| FileSystem.LowestFreeIs | file_organizer.py:179-186 | a count-up from 1 that stops at the first free candidate returns `LowestFree` |
| FileSystem.FoundLowestFree | file_organizer.py:184-185 | a free candidate met before passing the first free counter is `LowestFree` |
| FileSystem.BelowFirstFree | file_organizer.py:184-186 | a taken candidate lies below the first free counter |
| FileSystem.LowestFreeSuffix | file_organizer.py:176-182 | a conflict name keeps the original suffix exactly when the name does not end in a dot after its first character |
| Ledger.Load | logger.py:68-77 | nothing when the file is missing or is not valid JSON, otherwise exactly the stored document |
| Ledger.Logger.SaveUndoData | logger.py:58-66 | the slot is replaced wholesale by the batch with its timestamp, and loads back as that |
| Ledger.Logger.ClearUndoData | logger.py:79-82 | the file is gone and loading yields nothing |
| Ledger.Strip | logger.py:92 | `str.strip()`: a stretch of the line with only whitespace around it, starting and ending with a non-space |
| Ledger.RecentLogs | logger.py:84-94 | `lines[-limit:]` stripped: the last `min(limit, n)` lines for a positive limit, all for 0, all but the first `-limit` for a negative one; none when the file is missing |
| Undo.RestoredName | undo_manager.py:99-114 | the original path when free, otherwise a free `stem_restored_N suffix` beside it |
| Undo.UndoRecord | undo_manager.py:56-84 | a record that is not a move, or whose file is gone, changes nothing; no entry but the destination is overwritten or lost; a restored file lands on a free path beside its source with its bytes |
| Undo.ReplayReversed | undo_manager.py:50-84 | the undo loop counts every record once, as a success or an error |
| Undo.ReplayKeeps | undo_manager.py:55-84 | every entry that no record names as destination survives the whole undo unchanged |
| Undo.UndoReversesBatch | undo_manager.py:55-84 | undoing, last first, a batch performed from a disk restores that disk and counts every record as a success |
| Undo.UndoManager.constructor | undo_manager.py:15-17 | the manager keeps its logger and starts with an empty batch |
| Undo.UndoManager.AddOperation | undo_manager.py:19-26 | appends exactly one record; the count grows by one |
| Undo.UndoManager.CommitOperations | undo_manager.py:28-32 | a non-empty batch becomes the undo slot and undo is possible; an empty one keeps the previous slot; the batch is empty afterwards |
| Undo.UndoManager.CanUndo | undo_manager.py:34-37 | true exactly when the undo file parses and holds a non-empty operations list |
| Undo.UndoManager.UndoLastOperation | undo_manager.py:39-97 | nothing to undo changes nothing; otherwise the disk is the reverse replay, the slot is cleared, and the message and flag follow the success and error counts |
| Undo.UndoManager.UndoOne | undo_manager.py:56-84 | one pass of the undo loop's body does what `UndoRecord` says |
| Undo.UndoManager.GetUniqueFilename | undo_manager.py:99-114 | the path itself when free, otherwise the free `_restored_N` name with the smallest N |
| Undo.UndoManager.ClearCurrentOperations | undo_manager.py:116-118 | the batch is dropped and the count is 0 |
| Categories.NormalizeExtensions | file_organizer.py:66 | every extension starts with a dot; those that did are kept, the others get one prepended |
| Categories.NormalizeIdempotent | file_organizer.py:66 | normalizing twice is normalizing once |
| Categories.Assign | file_organizer.py:67 | `dict[k] = v` keeps keys distinct and existing keys in place, growing by at most one |
| Categories.AssignLookup | file_organizer.py:67 | after `dict[k] = v`, `k` reads `v` and every other key what it read before |
| Categories.MatchFrom | file_organizer.py:74-81 | the first category from a position on that lists the extension, or none lists it |
| Categories.FirstMatchSpec | file_organizer.py:74-81 | the search finds nothing exactly when no category lists the extension, otherwise the first that does |
| Categories.GetFileCategorySpec | file_organizer.py:69-84 | the first custom category listing the lower-cased suffix, else the first default one, else Miscellaneous |
| Categories.UpperCaseNeverMatches | file_organizer.py:66-75 | a custom extension holding an upper-case letter never equals a looked-up extension |
| Categories.UpperCaseDefault | file_organizer.py:69-81 | example: `photo1.JPG` is an Image |
| Categories.CustomOverridesDefault | file_organizer.py:73-76 | example: a custom category listing `.jpg` wins over Images |
| Categories.CustomMatchesUpperCaseFile | file_organizer.py:71-76 | example: a custom `.jpg` matches `PHOTO.JPG` |
| Categories.GzIsArchive | file_organizer.py:18-47 | example: `.gz` is first listed by Archives |
| Categories.LastSuffixDecides | file_organizer.py:71 | example: `archive.tar.gz` is classified by `.gz` |
| Categories.UnknownIsMiscellaneous | file_organizer.py:83-84 | example: any `stem.xyz` is Miscellaneous under a custom table without `.xyz`, as no default category lists it (the general rule is `GetFileCategorySpec`'s last clause) |
| OrganizeSpec.PutSteps | file_organizer.py:102-105 | creating a missing key with an empty list and then appending equals `Put` |
| OrganizeSpec.Select | file_organizer.py:98-105 | exactly the eligible items of a category, in listing order |
| OrganizeSpec.BucketizeSpec | file_organizer.py:94-105 | the scan's categories are distinct; each bucket holds exactly the eligible items of its category, in order, and is not empty; every eligible item has a bucket |
| OrganizeSpec.BucketsConsistent | file_organizer.py:98-105 | each bucket's files are eligible listed items of its category, without repeats |
| OrganizeSpec.CategoryNames | file_organizer.py:207 | `list(categorized_files.keys())`, in bucket order |
| OrganizeSpec.CategoryPaths | file_organizer.py:124-130 | `target / category` for each category, in order |
| OrganizeSpec.CreateDirs | file_organizer.py:120-144 | only directories are added; on success every category path is a directory; paths that are not category paths are untouched |
| OrganizeSpec.CreateDirsFails | file_organizer.py:124-142 | creation fails exactly when some category path cannot be made, and the failing path is such a one |
| OrganizeSpec.CreateDirsStops | file_organizer.py:140-142 | after the first failure the later categories change nothing |
| OrganizeSpec.SafeDestination | file_organizer.py:152-156 | a free path in the directory: the file's own name when free there |
| OrganizeSpec.SafeMoveSpec | file_organizer.py:146-172 | fails exactly when the source is not a movable regular file or the directory is missing; a failure changes nothing; a success never replaces an entry and changes nothing else |
| OrganizeSpec.Jobs | file_organizer.py:220-229 | one move per scanned file, category by category |
| OrganizeSpec.RunJobs | file_organizer.py:220-249 | one outcome per file and one undo record per successful move |
| OrganizeSpec.RunDestinations | file_organizer.py:159-162 | every record is a `"move"` into one of the category directories |
| OrganizeSpec.RunRedo | file_organizer.py:159-162 | performing the recorded batch from the starting disk leads to the disk the run ends with |
| OrganizeSpec.RunKeeps | file_organizer.py:220-249 | an entry that is neither moved nor inside a category directory is untouched |
| OrganizeSpec.OutcomeAt | file_organizer.py:152-172 | for independent jobs, a file fails to move exactly when the system refuses to let it go |
| OrganizeSpec.JobsFrom | file_organizer.py:220-229 | each move takes an eligible listed file into the directory of its category |
| OrganizeSpec.JobsDistinct | file_organizer.py:98-105 | no file is moved twice |
| OrganizeSpec.ScanJobsIndependent | file_organizer.py:201-229 | the scan's moves, once the directories exist, are of distinct existing files into existing directories, and none goes where a source sits |
| Organizer.Descriptions | file_organizer.py:234-247 | one `files` entry per file, in order, describing its outcome |
| Organizer.Notices | file_organizer.py:224-225 | one progress call per file, numbered from 0, with the total and the file's name |
| Organizer.Announced | file_organizer.py:224-225 | the progress calls of one category, numbered on from the files before it |
| Organizer.Names | file_organizer.py:287 | the names of the files, in order |
| Organizer.Report | file_organizer.py:220-251 | one `categories` entry per bucket |
| Organizer.FailureMessagesCount | file_organizer.py:239-242 | one error message per file that did not move |
| Organizer.ReportAt | file_organizer.py:220-251 | each category's entry is made from its own files' outcomes |
| Organizer.JobsAt | file_organizer.py:220-229 | file `j` of category `i` is moved into that category's directory |
| Organizer.JobsDirs | file_organizer.py:207-228 | every move goes into a directory directly under the target |
| Organizer.OrganizeSteps | file_organizer.py:193-208 | results come only from a run after every directory was made; every other way out keeps every entry of the disk, adds at most directories, records and announces nothing |
| Organizer.OrganizeReport | file_organizer.py:211-262 | moved plus failed is the total; one error per failure; "successfully" exactly when none failed; one notice per file; the categories are the scan's, each listing its files by name |
| Organizer.FinishReport | file_organizer.py:219-251 | `OrganizeReport` for the moving stage itself |
| Organizer.ReportCategoryAt | file_organizer.py:221-251 | a category's entry names it, counts each of its files once, and lists them by name in order |
| Organizer.OrganizeMovesAllowed | file_organizer.py:188-267 | on a listing of an existing target, a file is reported moved exactly when the system lets it be moved |
| Organizer.RunMovesAllowed | file_organizer.py:220-251 | `OrganizeMovesAllowed` for the moving stage itself |
| Organizer.RunOutcomes | file_organizer.py:146-172 | for independent moves, name conflicts never cause a failure |
| Organizer.CategoryMovedAt | file_organizer.py:223-251 | in one category, each file is reported moved exactly when it was not protected |
| Organizer.EntryMovedAt | file_organizer.py:227-247 | one file is reported moved exactly when it was not protected |
| Organizer.OrganizeUnprotectedSucceeds | file_organizer.py:257-259 | when no listed file is protected, nothing fails, there are no errors, and the message is "successfully organized" |
| Organizer.JobsUnprotected | file_organizer.py:98-105 | no move takes a protected file when no listed file is protected |
| Organizer.FinishUnprotected | file_organizer.py:231-259 | unprotected independent moves all succeed, and the summary says so |
| Organizer.OrganizeThenUndo | undo_manager.py:39-97 | undoing an organization counts every record as a success, restores every entry the disk held before, and leaves only new directories |
| Organizer.RunThenUndo | undo_manager.py:55-84 | undoing the moving stage's batch gives back the disk the stage started from |
| Organizer.BatchUnprotected | file_organizer.py:159-162 | no record lands on a protected path when nothing inside the category directories is protected |
| Organizer.AppendToCategory | file_organizer.py:102-105 | `categorized_files[c].append(p)` done in place is `Put` |
| Organizer.TallyMove | file_organizer.py:223-249 | one file's notice, report entry and failure message extend those of the files before it |
| Organizer.TallyBucket | file_organizer.py:220-251 | one category's counts, report, errors and notices extend the running ones |
| Organizer.FileOrganizer.constructor | file_organizer.py:49-53 | the target as given, no custom categories, the default table |
| Organizer.FileOrganizer.SetTargetDirectory | file_organizer.py:55-61 | the target is replaced; a missing path, then a non-directory, is reported |
| Organizer.FileOrganizer.AddCustomCategory | file_organizer.py:63-67 | the category maps to its normalized extensions; every other category keeps its own |
| Organizer.FileOrganizer.ScanDirectory | file_organizer.py:86-118 | no target is an error; a target that cannot be listed is an error; otherwise the scan's buckets |
| Organizer.FileOrganizer.CreateCategoryDirectories | file_organizer.py:120-144 | the disk and outcome of `CreateDirs`; on success the category paths in order |
| Organizer.FileOrganizer.MoveFileSafely | file_organizer.py:146-172 | performs `SafeMove`; on success records exactly one undo entry, on failure none; the message names where the file went or the file that failed |
| Organizer.FileOrganizer.GetUniqueFilename | file_organizer.py:174-186 | the free `stem_N suffix` with the smallest N from 1, beside the original, keeping the suffix exactly when the name does not end in a dot after its first character |
| Organizer.FileOrganizer.MoveCategory | file_organizer.py:221-251 | one category's files moved in order, extending the run; its report, errors and notices |
| Organizer.FileOrganizer.MoveCategoryStep | file_organizer.py:223-249 | one file announced, moved and tallied |
| Organizer.FileOrganizer.MoveBucketsStep | file_organizer.py:220-251 | one category moved into its directory and tallied |
| Organizer.FileOrganizer.MoveBuckets | file_organizer.py:211-251 | the disk, pending batch, counts, report, errors and notices are those of the run of the scan's moves |
| Organizer.FileOrganizer.MoveAndCommit | file_organizer.py:211-262 | the moving stage and the commit: the results of `Finish`, a non-empty batch becoming the undo slot |
| Organizer.FileOrganizer.OrganizeFiles | file_organizer.py:188-267 | no target changes nothing; otherwise exactly `Organize`, with the pending batch emptied and a non-empty batch committed |
| Organizer.FileOrganizer.CanUndo | file_organizer.py:269-271 | true exactly when the stored batch holds a record |
| Organizer.FileOrganizer.UndoLastOrganization | file_organizer.py:273-275 | the undo executor's result; undo is not possible afterwards |
| Organizer.FileOrganizer.GetPreview | file_organizer.py:277-293 | nothing without a listable target; otherwise the scan's categories in order, each with its files' names |

## Left out

- Logging (`log_operation`, `log_error`, the CSV log, `_init_csv_log`) is not modelled, and every log write is assumed to succeed. The log writes have no `try` of their own, so in the program a failing write decides results the model does not show:
  - after a successful move and its undo record (file_organizer.py:165), it makes `move_file_safely` report a failure for a moved file, so the batch holds more records than the moved count;
  - inside the move's error handler (file_organizer.py:171), it ends `organize_files` with the generic error, and nothing is committed;
  - after a successful restore (undo_manager.py:70-73), it counts an error for a file that did go back;
  - at the end of the scan (file_organizer.py:107-116), it makes the scan raise.
- The clock is a parameter `now` of the commit. The undo document's timestamp is kept as the text it is given.
- JSON encoding and parsing are not modelled. The undo file holds either a parsed document or `Corrupt`, and a corrupt file loads as nothing.
- Ledger.Load: `Corrupt` stands only for a JSON syntax error (`JSONDecodeError`, logger.py:76). An undo file that is not UTF-8, or a document that parses but is not an object (such as `[]`), makes `can_undo` and `undo_last_operation` raise; the model has no such file.
- Ledger.Logger.SaveUndoData: the write is assumed to succeed. In the program a failing write (after `'w'` has truncated the file) makes `organize_files` return its generic error with empty results after every move was made, and the batch stays pending; `MoveAndCommit` does not model that branch.
- Undo records with missing keys are not modelled. A record always has a source, a destination and a kind.
- `str.lower()` is modelled on the ASCII letters only.
- Moving a directory, or moving across devices, is not modelled. `shutil.move` succeeds or fails as `CanMove` says: a regular, unprotected source and an existing target directory.
- Permissions, read-only media and full disks are modelled only as the `denied` set.
- Category names are taken as single path components.
- Messages are datatypes, not formatted strings. A failed move's message keeps the file name but not the exception text.
- The progress callback is modelled as the returned list of the calls it would receive.
- Exceptions are modelled as `Result` values or as the error branch they lead to, except the ledger's read and write errors and the failing log writes named above.
- Symbolic links are not modelled: the disk holds only files and directories. In the program `exists()` follows links, so a dangling link at a destination or at a conflict name counts as free, and `shutil.move` would replace it.
- Categories.UnknownIsMiscellaneous: is a worked example for `.xyz`; the general rule (an extension no table lists is Miscellaneous) is stated by `GetFileCategorySpec`.
- The directory listing is a parameter `listing`, in the order `iterdir` yields.
- Organizer.FileOrganizer.constructor: takes its `UndoManager` (and so its `Logger`) as an argument instead of creating them.
- Organizer.FileOrganizer.OrganizeFiles: is split into `MoveAndCommit`, `MoveBuckets`, `MoveBucketsStep`, `MoveCategory`, `MoveCategoryStep`, `TallyBucket` and `TallyMove`, one per loop and loop body. They keep the source's order of effects.
- Undo.UndoManager.GetOperationsCount: carries no contract of its own. `AddOperation` and `ClearCurrentOperations` state what it returns.
- The GUI (`gui.py`), the command-line entry point (`main.py`) and `get_recent_logs`' encoding handling are not part of this model.
- Python dicts are sequences of pairs in insertion order.
