# FilterOfFile, modelled in Dafny

FilterOfFile sorts the files of a directory tree into `<root>/Organized`. It
looks at each file's extension and uses one of three sort methods:

- "1": by year, to `Organized/<Category>/<year>`;
- "2": by type, to `Organized/<Category>`;
- "3": by user categories plus the fixed ones, always with the year.

Zip archives found on the way are extracted and their contents are sorted the
same way. A file whose name is already taken gets the name `<stem>_<n><ext>`.

This project models `main.py` and proves properties of it:

- `wrappers.dfy`: the `Result` type of an operation that can fail.
- `strings.dfy`: the Python string operations the program depends on, written out on `seq<char>`. These are `str.strip()`, `str.lower()`, `os.path.splitext`, `str.split` and `str(n)`.
- `paths.dfy`: resolved paths as component sequences. It also holds the "output base is among the parents" test of `process_directory` and `os.path.join` of a directory with a text, as the operating system resolves it.
- `filters.dfy`: the user category table of method "3" and `get_custom_filters`. The table is an insertion-ordered dictionary.
- `categories.dfy`: the fixed extension sets, the if/elif classification chain, the year text, the three target-directory builders and the per-file dispatch.
- `naming.dfy`: the free-name loop of `move_file`.
- `filetree.dfy`: the file system as a set of file paths and a set of directory paths that form a tree. It holds what `ensure_dir` and a run of `ensure_dir` calls do to it.
- `organizer.dfy`: a `FileSystem` class that holds these two sets. Its methods are `ensure_dir`, `move_file`, `process_zip`, `process_directory` and `main` (here `Organize` and `Run`). Each run of `process_directory` keeps a log with one record per handled file; each record is tied to the dispatch of that file.

In three places the code behaves differently from what one might expect; the model follows the code:

- **The output base itself is walked.** The skip test `Path(base) in Path(dirpath).parents` skips only directories strictly below `Organized`. Files lying directly in `Organized` are therefore still processed (`Paths.SkippedIffStrictAncestor`).
- **Extension lists are not checked.** Custom extension lists are split on `,` and lower-cased, and empty pieces are dropped. The pieces are neither trimmed nor checked for a leading dot.
- **`ensure_dir` in `move_file` is not guarded.** It runs before the `try` of `move_file`. If an ancestor of the target directory is a regular file, `os.makedirs` raises. For a file found by the top-level walk, nothing catches this, so the whole run stops; the model reports it as `Crashed`. For a file extracted from an archive, the `except Exception` of `process_zip` (main.py:66, 71-72) catches it. The walk of that archive stops, the archive is kept and the top-level walk continues (`Organizer.ExtractionEffect`: the archive is deleted only when no round of its walk aborted).

## Model

| member | source | states |
|---|---|---|
| `Strings.Strip` | main.py:187 | neither end of the result is whitespace (Python's `isspace` set), and the result is empty exactly when the input is all whitespace |
| `Strings.StripIsSlice` | main.py:187 | the stripped string is a contiguous slice of the input, and only whitespace was removed on either side |
| `Strings.Lower` | main.py:76 | same length, every character mapped by ASCII lower-casing, the result has no upper-case ASCII letter |
| `Strings.LowerOfLower` | main.py:191 | lower-casing a lower-case text changes nothing, so lower-casing twice is lower-casing once |
| `Strings.SplitExt` | main.py:48 | `os.path.splitext` on a file name: stem + extension is the name; a non-empty extension starts with the only dot it holds and the stem is not all dots; there is no extension exactly when no dot follows a non-dot character |
| `Strings.SplitExtOfDotted` | main.py:171 | a dot-free stem followed by a one-dot extension splits back into that stem and that extension |
| `Strings.ExtOf` | main.py:171 | the compared extension is lower-case and is empty or starts with '.' |
| `Strings.FirstField` | main.py:26 | `split(':')[0]`: a prefix of the text without ':', ending at the first ':' or at the end |
| `Strings.FirstFieldOfFree` | main.py:26 | a ':'-free text followed by nothing or by ':' and more has itself as its first field |
| `Strings.Split` | main.py:191 | `split(',')` yields at least one piece, no piece holds ',', and joining the pieces with ',' gives back the text |
| `Strings.SplitJoin` | main.py:191 | the other round trip: splitting the join of separator-free pieces gives the pieces back |
| `Strings.Dec` | main.py:50 | `str(n)` is non-empty, all digits, without a leading zero |
| `Strings.DecRoundTrip` | main.py:35 | the decimal text of a number reads back as that number |
| `Strings.DecInjective` | main.py:50 | different counters give different texts |
| `Strings.DecCanonical` | main.py:35 | a digit string without a leading zero is `str` of the number it denotes |
| `Paths.Skipped` | main.py:166-167 | a skipped directory has the output base as a proper prefix |
| `Paths.SkippedIffStrictAncestor` | main.py:166-167 | a walked directory is skipped exactly when the output base is a proper ancestor of it; the base itself is not skipped, its children are |
| `Paths.JoinText` | main.py:45 | `os.path.join` from a resolved directory names a resolved directory (no empty, "." or ".." component) |
| `Paths.JoinPlain` | main.py:112 | joining an ordinary component appends it, and such a component cannot leave the directory |
| `Paths.JoinConfined` | main.py:81 | a relative text without a ".." piece names the directory or one below it |
| `Paths.JoinBelowChild` | main.py:81 | `os.path.join(base, <Category>, text)` is `base/<Category>/text` for an ordinary text, and lies strictly below `base` for any confined text |
| `Paths.JoinThenName` | main.py:155 | `os.path.join(base, category, year)` is `base/category/year` for an ordinary category name, and lies strictly below `base` for any confined name |
| `Paths.ConfinedJoin` | main.py:155 | the corrected join: whatever the text holds, the result lies at or below the directory |
| `Paths.ConfinedJoinAgrees` | main.py:155 | on every confined text the corrected join and `os.path.join` name the same directory |
| `Filters.Find` | main.py:191 | the position of a key in the dict: the first entry with that key, or the end when there is none |
| `Filters.FindUnique` | main.py:191 | the first index whose entry holds the key is the one `Find` returns |
| `Filters.FirstMatch` | main.py:153-157 | the first user category in insertion order whose set holds the extension, or none |
| `Filters.Assign` | main.py:191 | `d[key] = value`: afterwards the key's entry holds the value; other entries keep their place and value; an existing key keeps its position; a new key is appended; no key changes position |
| `Filters.AssignKeepsKeysDistinct` | main.py:191 | assignment keeps one entry per key |
| `Filters.ParseExtensions` | main.py:191 | the stored set is exactly the lower-cased non-empty comma pieces (untrimmed); it holds no empty string and only lower-case strings |
| `Filters.ReadFilters` | main.py:186-191 | the answers read, added to a table: a category already in the table keeps its position |
| `Filters.ReadFiltersOkIff` | main.py:186-191 | the reading ends normally exactly when some category prompt gets a blank answer; otherwise the lines run out first and `input()` raises EOFError |
| `Filters.ReadFiltersWellFormed` | main.py:186-191 | every table read has distinct, non-empty, stripped category names and non-empty lower-case extensions |
| `Filters.ReadFiltersStopsAtBlank` | main.py:187-189 | input after the terminating blank category name is never read |
| `Filters.ReenteredCategoryReplaces` | main.py:191 | entering a category name again replaces its set and keeps its first position |
| `Filters.GetCustomFilters` | main.py:182-192 | the loop returns the table `ReadFilters` defines (or end-of-input), and the table is well formed |
| `Categories.Name` | main.py:217 | every category directory name is one ordinary path component |
| `Categories.Classify` | main.py:79-102 | a fixed category is returned only for an extension in its set; `Other` exactly when no fixed set holds the extension |
| `Categories.ExtensionSetsDisjoint` | main.py:10-17 | the seven fixed sets are pairwise disjoint and none holds ".zip" |
| `Categories.ClassifyExact` | main.py:111-126 | because of disjointness, an extension is classified as fixed category c exactly when it is in c's set |
| `Categories.PhotoYear` | main.py:19-30 | with a `DateTimeOriginal` tag the year is the tag text up to its first ':' (a ':'-free prefix of the tag); without one it is the modification year |
| `Categories.FileYear` | main.py:32-35 | the year text is all digits, has no leading zero, reads back as the modification year and is one ordinary path component |
| `Categories.FileYearUnique` | main.py:32-35 | the year text is the only digit string without a leading zero that reads as the year |
| `Categories.ByTypeTarget` | main.py:106-128 | `base/<Category>` with no year; photos go to `base/Photos`, unmatched extensions to `base/Other` |
| `Categories.ByYearTarget` | main.py:74-104 | a non-photo goes to `base/<Category>/<FileYear>`; a photo goes to `os.path.join(base/Photos, <EXIF year text>)`, which is `base/Photos/<text>` for an ordinary text and strictly below `base` for any confined text |
| `Categories.CustomCategory` | main.py:136-159 | a fixed category wins; otherwise the first user category in insertion order that lists the extension; otherwise "Other"; with confined user names the chosen name is confined |
| `Categories.ByCustomTarget` | main.py:130-161 | `os.path.join(base, category)` followed by the `FileYear` component, for every category ("Other" and photos included); `base/<category>/<FileYear>` for an ordinary name, strictly below `base` for a confined one |
| `Categories.FixedCategoryPrecedence` | main.py:137-157 | an extension of a fixed set goes to that category in custom mode even when a user category lists it too |
| `Categories.Dispatch` | main.py:171-180 | archive handling exactly for ".zip"; nothing is done exactly for a non-zip file when the method is not "1" or "2" and not "3" with a non-empty table; method "1", "2" and "3" move to `ByYearTarget`, `ByTypeTarget` and `ByCustomTarget`; a move target lies strictly below the output base when the EXIF year text and the user names are confined |
| `Categories.ArchiveNeverClassified` | main.py:171-174 | a ".zip" file (any case) is never given a move target, under any method |
| `Categories.ExifTagEscapesOutput` | main.py:80-81 | as written: a photo whose EXIF date text is "/tmp/x" is sent to `/tmp/x`, outside the output base |
| `Categories.UserCategoryEscapesOutput` | main.py:155 | as written: a file matched by the user category "../Out" is sent to `<root>/Out/<year>`, outside the output base `<root>/Organized` |
| `Naming.CandidateInjective` | main.py:47-51 | the names tried by the loop are pairwise different |
| `Naming.CandidateKeepsExtension` | main.py:48-50 | a suffixed name has the same `splitext` extension as the original |
| `Naming.SecondCopyGetsSuffix` | main.py:50 | the first alternative to "a.txt" is "a_1.txt" |
| `Naming.ChooseName` | main.py:45-51 | the chosen name is free; it is the file name when that is free; otherwise it is `<stem>_<k><ext>` for the least k >= 1 whose name is free |
| `FileTree.AncestorsAreDirs` | main.py:39 | in a tree every proper ancestor of an existing entry is a directory, so an existing path is never blocked by a file |
| `FileTree.EntriesIn` | main.py:49 | the names inside a directory are exactly those whose joined path exists |
| `FileTree.BlockedMeansMissing` | main.py:39-40 | a path below a regular file does not exist, so `os.makedirs` is reached for it |
| `FileTree.WithDir` | main.py:37-40 | after `ensure_dir` the directory exists unless a file holds its path; no directory disappears; only the directory and its ancestors are added; when the directory was missing, it and every ancestor exist |
| `FileTree.WithDirKeepsTree` | main.py:37-40 | `ensure_dir` that does not raise keeps the file system a tree |
| `FileTree.EnsureDirIdempotent` | main.py:37-40 | a second `ensure_dir` of the same directory changes nothing |
| `FileTree.GrowsTransitive` | main.py:212-229 | growth below and along the output base composes over consecutive steps |
| `FileTree.MakeAll` | main.py:220-226 | a run of `ensure_dir` calls never removes a directory |
| `FileTree.MakeAllMakesAll` | main.py:220-226 | when the run gets through, every target exists, as a directory unless a file holds its path |
| `FileTree.MakeAllOkIff` | main.py:220-226 | in a tree the run of `ensure_dir` calls on resolved targets fails exactly when some target has a regular file among its ancestors, and it keeps the tree a tree |
| `FileTree.MakeAllAlong` | main.py:220-226 | making targets at or below the base changes no file and adds directories only along the base |
| `FileTree.Outside` | main.py:62 | removing the scratch directory leaves exactly the entries not at or below it |
| `FileTree.OutsideKeepsTree` | main.py:62 | removing a subtree other than the root keeps the file system a tree |
| `FileTree.NothingBelowMissing` | main.py:62 | nothing lies at or below a path that does not exist, so a fresh scratch directory is empty |
| `FileTree.ExtractKeepsTree` | main.py:62-64 | creating the scratch directory with the extracted files directly inside it keeps the file system a tree |
| `FileTree.RemoveFileKeepsTree` | main.py:67 | deleting a regular file keeps the file system a tree |
| `Organizer.MoveEffect` | main.py:42-57 | what one `move_file` call does: it aborts exactly when the resolved target directory is missing below a regular file, and then changes nothing; otherwise the directory is made; a failed move changes no file; a successful move replaces the source by one new file `dir/<name>` with `<name>` the first free candidate; in every case no directory disappears and only the source can disappear |
| `Organizer.TargetBelowBase` | main.py:171-180 | under confinement every move target of the dispatch lies strictly below the output base |
| `Organizer.MoveEffects` | main.py:42-57 | one `move_file`: no directory disappears, only the source can disappear, and with a target directory strictly below the base new files appear only below it and new directories only along it |
| `Organizer.StepEffects` | main.py:169-180 | one file's round: no directory disappears; only the file itself can disappear, never when the dispatch ignores it, and only as an archive when the method and table move nothing; under confinement growth is below and along the base |
| `Organizer.FilesOf` | main.py:165-170 | a listing yields no file in a skipped directory and otherwise `dirpath/<name>` for each name, in order |
| `Organizer.Visited` | main.py:165-170 | no walked file lies in a directory strictly below the output base |
| `Organizer.ChainSnoc` | main.py:169-180 | a round that starts where the log ends extends the log |
| `Organizer.StepRemoves` | main.py:169-180 | round `k` of a log removes at most its own file, and only one the dispatch does not ignore |
| `Organizer.ChainEffects` | main.py:163-180 | over a whole log no directory disappears, and under confinement growth is below and along the base |
| `Organizer.RemovalsUpTo` | main.py:163-180 | the first `k` rounds removed only the files they handled |
| `Organizer.IgnoredStays` | main.py:175-180 | a file the dispatch ignores is still there after any number of rounds |
| `Organizer.ChainRemovals` | main.py:163-180 | over a whole log every removed file was handled, and no ignored file was removed |
| `Organizer.OnlyArchivesHandled` | main.py:173-180 | when the method and table move nothing, a file the dispatch acts on is a ".zip" |
| `Organizer.ListingRound` | main.py:169-180 | one round extends the log by the handled file; the log has no abort exactly when this round did not abort, and an abort ends it |
| `Organizer.WalkStep` | main.py:165 | the handled files stay a prefix of the walk's files, and a finished listing moves the prefix one listing on |
| `Organizer.ScratchWalkEffects` | main.py:66 | a walk of the extracted files removes nothing that existed before extraction, and under confinement its growth outside the scratch directory stays below and along the base |
| `Organizer.ArchiveFinish` | main.py:62-67 | removing the scratch directory, then the archive when it is deleted, gives what `process_zip` promises |
| `Organizer.CategoryTargets` | main.py:217-226 | one directory per category name, fixed names first, then the user's in insertion order |
| `Organizer.CategoryTargetsCover` | main.py:217-226 | the creation list holds every fixed category directory and the joined path of every user category; with confined user names every target lies at or below the output base |
| `Organizer.CategoryTargetBelow` | main.py:225-226 | with confined user names, each single target lies at or below the output base |
| `Organizer.CategoryDirEscapesOutput` | main.py:225-226 | as written: the user category "../Out" makes `main` create `<root>/Out`, outside the output base |
| `Organizer.TableOf` | main.py:218-224 | whatever the answers, the table a run uses is well formed: distinct, stripped, non-empty category names and only non-empty lower-case extensions |
| `Organizer.LogRemovals` | main.py:163-180 | a file removed by a walk is one it handled, outside a skipped directory, that the dispatch does not ignore |
| `Organizer.CompletedRunMadeCategoryDirs` | main.py:212-229 | after a completed run the output base, every fixed category directory and every user category directory exist, unless a file held that path from the start |
| `Organizer.RunRemovesOnlyVisited` | main.py:163-180 | in a run only walked files disappear, so a file in a skipped directory stays; when the method and table move nothing, only ".zip" files disappear |
| `Organizer.RunGrowsConfined` | main.py:212-229 | under confinement a whole run adds files only below the output base and directories only along it, and removes no directory |
| `Organizer.FileSystem.EnsureDir` | main.py:37-40 | on a resolved directory, fails exactly when an ancestor of the directory is a regular file, and then the directory was missing; otherwise the directories become `WithDir`; files are unchanged; the tree stays a tree |
| `Organizer.FileSystem.MoveFile` | main.py:42-57 | aborts exactly when the resolved target directory is missing below a regular file, and then changes nothing. Otherwise the directory is made. A failed move changes no file. A successful move replaces the source by exactly one new file `targetDir/<name>`, where `<name>` is the first free candidate and nothing held that path before |
| `Organizer.FileSystem.ProcessArchive` | main.py:59-72 | an unreadable archive changes nothing and is kept; otherwise it returns the extraction record (`ExtractionEffect`): a fresh scratch directory holds the extracted files, each is handled in order by a logged `FileStep` until one aborts (none when the scratch directory lies below the output base), the scratch tree is removed, and the archive is deleted only when no round aborted; in every case only the archive itself can disappear, no directory disappears, and under confinement growth is below and along the output base |
| `Organizer.FileSystem.WalkScratch` | main.py:61-67 | from the freshly extracted state: walk the members unless skipped, remove the scratch tree, then delete the archive only after an abort-free walk; the outcome is `ExtractionEffect`'s |
| `Organizer.FileSystem.ProcessMembers` | main.py:66 | the log records one `FileStep` per extracted file, in order, chained from the extracted state to the final one; `failed` exactly when a round aborted, and then that round ends the log; otherwise every member was handled; nothing that existed before extraction is removed, and under confinement growth outside the scratch directory stays below and along the base |
| `Organizer.FileSystem.ProcessMember` | main.py:169-180 | one extracted file's round is its `FileStep`; a nested archive changes nothing; `ok` is false exactly when `move_file` aborted |
| `Organizer.FileSystem.RemoveScratch` | main.py:62-67 | the scratch tree is gone and nothing else is, except the archive, which is removed only when the walk did not fail |
| `Organizer.FileSystem.ProcessFile` | main.py:169-180 | the round is the file's `FileStep`: an ignored file changes nothing, a file with a target is moved by `move_file`, an archive is handled by `process_zip`; `ok` is false exactly when `move_file` aborted |
| `Organizer.FileSystem.ProcessListing` | main.py:165-180 | one listing: a skipped directory adds nothing to the log; otherwise each file in order gets a logged round; `ok` is false exactly when a round aborted, which ends the listing there |
| `Organizer.FileSystem.ProcessDirectory` | main.py:163-180 | the log records one `FileStep` per handled file, each starting where the previous ended, and ends at the final file system; the handled files are a prefix of the walk's files; the walk completes exactly when no round aborted, and then it handled every walked file; otherwise the last round aborted |
| `Organizer.FileSystem.MakeCategoryDirs` | main.py:220-226 | `ok` is false exactly when one resolved target lies below a regular file; the directories afterwards are `MakeAll`'s; files are unchanged |
| `Organizer.FileSystem.Run` | main.py:212-229 | a blocked output base crashes at once; for method "3" running out of input ends the run after the base is made; a blocked category directory (resolved) crashes; otherwise the walk is logged and completes exactly when no round aborted |
| `Organizer.FileSystem.Organize` | main.py:194-230 | a missing source directory and a sort method other than "1", "2", "3" are rejected before anything changes; no answer at all ends the input; otherwise the run is `Run` on `root/Organized` |

## Findings

| source | as written | input that shows it | evidently intended | confidence | as-written member | corrected member |
|---|---|---|---|---|---|---|
| main.py:81 | `os.path.join(base_output_dir, 'Photos', year)` with `year` taken from the EXIF `DateTimeOriginal` text | a photo whose tag text is "/tmp/x" is moved to `/tmp/x` | the photo lands below `Organized/Photos` | not executed | `Categories.ExifTagEscapesOutput` | `Paths.ConfinedJoin` |
| main.py:155 | `os.path.join(base_output_dir, category, year)` with a user category name | category "../Out" sends its files to `<root>/Out/<year>` | the file lands below `Organized` | not executed | `Categories.UserCategoryEscapesOutput` | `Paths.ConfinedJoin` |
| main.py:225-226 | `ensure_dir(os.path.join(base_output_dir, category))` with a user category name | category "../Out" creates `<root>/Out` | the directory is created below `Organized` | not executed | `Organizer.CategoryDirEscapesOutput` | `Paths.ConfinedJoin` |

`Paths.ConfinedJoin` keeps only the ordinary pieces of the text, so its result always lies at or below the directory. `Paths.ConfinedJoinAgrees` proves that it agrees with `os.path.join` on every confined text. The rest of the model keeps the join as written and states each containment property under the hypothesis `Organizer.Confinement`: no user category name can leave the directory, and, under method "1" (the only one that reads the EXIF tag), no EXIF year text can. Under that hypothesis the model behaves as the corrected join would.

## Left out

- Real file-system effects are left out: `os.walk`, `shutil.move`, `os.makedirs`, `os.path.exists`, `os.remove`. The file system is a set of file paths and a set of directory paths, and the same names stand for the same objects.
- The initial file system is assumed to be a tree (`FileTree.IsTree`); every method keeps it one.
- The `os.walk` listing is an input. Its relation to the actual tree is not modelled, and neither is its laziness (directories created during the walk).
- `os.path.getmtime` with `time.localtime` is out because it involves the clock and the time zone. The modification year of each file is a parameter. `get_file_year` raising for a vanished file is not modelled.
- `exifread.process_file` is a foreign image parser. The `EXIF DateTimeOriginal` tag is an optional string per file. A missing tag and a read error are both `None`, since the code treats them the same.
- `Organizer.FileSystem.ProcessArchive`: `zipfile` extraction is abstract. Whether the archive can be read, the scratch directory's path and the member names are nondeterministic choices, and so is whether `os.remove` succeeds. Members are extracted flat into the scratch directory; folders inside an archive are not modelled.
- `Organizer.FileSystem.ProcessMembers`: an archive nested inside an archive is logged as `Expanded(false)` with no change; it stays in the scratch directory and is discarded with it. The recursive `process_zip` call on it is not modelled.
- `Organizer.FileSystem.MoveFile`: whether `shutil.move` succeeds is a nondeterministic choice. Only a missing source or a missing target directory forces a failure.
- `Organizer.FileSystem.EnsureDir`: receives the resolved directory, so for a text with ".." pieces it does not follow the lexical `os.path.exists` and `os.makedirs` of the source. With the text `x/../Photos`, where `x` is missing and `Photos` exists, the source creates `x` and then raises FileExistsError; the model reports success and creates nothing. Failures of `os.makedirs` other than a regular file on the path (permissions, a full disk) are not modelled either. Under `Organizer.Confinement` no text with ".." pieces reaches `ensure_dir`, and there the two agree.
- `Organizer.FileSystem.MoveFile`: an EXIF year text such as `x/../2020` under method "1" makes the `ensure_dir` of main.py:44 raise FileExistsError when `Photos/2020` already exists; the model does not count this as an abort (see `EnsureDir`).
- `Organizer.MoveEffect`: states the abort condition on the resolved target directory, so it misses the same FileExistsError for a ".." text (see `Organizer.FileSystem.MoveFile`).
- `FileTree.MakeAllOkIff`: the failure condition is stated on resolved targets; a user category such as `x/../Photos` makes the loop of main.py:225-226 raise FileExistsError, which the model does not report (see `EnsureDir`).
- `Organizer.FileSystem.MakeCategoryDirs`: the same FileExistsError for a user category such as `x/../Photos` is not reported; the model gives `ok`.
- `Organizer.FileSystem.Run`: for a user category such as `x/../Photos` the source crashes at main.py:226, while the model goes on to the walk and can end `Completed`.
- `Paths.JoinText`: a ".." after a path that names a regular file is resolved lexically; the operating system would refuse it.
- `Path.resolve()` is not modelled: paths are already resolved component sequences.
- Console I/O is not modelled (`input`, `print`). Reading and stripping the source directory line is left out: `Organize` receives the path. The remaining answers are a sequence of lines, and running out of them is `InputEnded`.
- `Strings.Lower` maps only ASCII letters, because Python's full Unicode case mapping is not modelled.
- Progress and error messages are not modelled.
