# Directory cleaner: a Dafny model

This project models the core of a terminal tool that finds and deletes
build clutter, such as `node_modules` folders and `.log` files, below
folders the user picks. Two source files form the core.

`scanner.py` holds the scanning engine:

- the `ScanResult` record;
- the comma-separated pattern parser;
- the folder and file matchers (an `fnmatch` glob or equality for folders,
  a suffix test for files);
- the recursive size of a path;
- the `os.walk` scan, which prunes matched folders, yields each match and
  stops at a cancellation;
- the human-readable size formatter.

`app.py` holds the state logic of the application:

- the list of folders to scan, kept free of duplicates;
- the selection of results (toggle, select all, deselect all);
- the scan session over all listed folders, which selects every result it
  finds;
- the deletion batch and its counters;
- the aggregates shown by the confirmation dialog.

Modules:

- `Wrappers`: `Option`.
- `Text`: Python's `str.strip`, `split(",")` and the decimal rendering of
  integers.
- `Glob`: an `fnmatch`-style matcher built from a tokenizer and a matcher.
- `Patterns`: `parse_patterns`, `match_folder` and `match_file`.
- `SizeFormat`: `format_size`, with Python's round-half-to-even for
  `.1f`/`.2f`.
- `FileTree`: a directory tree as a value (`Dir`/`File` nodes with
  readability and stat flags), and its sizes.
- `ScanSpec`: the scan as a trace of events. A `Poll` is a check of the
  cancel flag. An `Emit` is a record appended and yielded. `Observed` is
  what a scan yields when a cancellation lands before a given check.
- `ScanProperties`: what the trace contains (exactly the matches, pruning,
  order, record facts).
- `ScanReach`: which directories the walk enters, and that no path is
  reported twice when no directory lists two entries under one name.
- `ScanEngine`: the imperative `Scanner` class. `ScanDirectory` is an
  explicit-stack walk proved equal to the trace.
- `Cleaner`: the imperative `CleanerApp` and `ConfirmModal` classes, plus
  the specification functions for the scan session and the deletion batch.

A cancellation arriving from another thread is a parameter,
`cancelAt: Option<nat>`: the cancel is seen by check number `cancelAt`,
counting from 0, and `None` means it never arrives. Filesystem effects are
values. A scanned tree is a `Node`. The folders the application scans are
a function `disk: Path -> Node`. The paths still present during a deletion
form a `set<Path>`. Which removals raise is the parameter
`failing: map<nat, set<Path>>`. It maps each batch position whose removal
raises to the paths that removal had already taken off the disk when it
raised.

## Model

| member | source | states |
|---|---|---|
| `ScanEngine.Scanner.constructor` | scanner.py:25-28 | a new scanner has no results and is neither scanning nor cancelled |
| `ScanEngine.Scanner.Cancel` | scanner.py:30-32 | sets the cancel flag and changes nothing else |
| `Text.StripSpec` | scanner.py:37-39 | `strip` leaves no surrounding whitespace, keeps only characters of the input, and is empty exactly when the input is blank |
| `Text.StrippedIsFixed` | scanner.py:39 | stripping an already stripped string changes nothing |
| `Text.SplitComma` | scanner.py:39 | `split(",")` yields at least one piece, no piece contains a comma, and joining the pieces with commas gives back the input |
| `Text.SplitJoinRoundTrip` | scanner.py:39 | splitting a comma-join of comma-free pieces gives back the pieces |
| `Patterns.ParsePatterns` | scanner.py:34-39 | every parsed pattern is non-empty, stripped and comma-free; a blank input gives no patterns |
| `Patterns.ParsePatternsGuardIsShortcut` | scanner.py:37-39 | the blank-input early return agrees with the general comprehension |
| `Patterns.ParsePatternsOfComma` | scanner.py:39 | parsing `a,b` is parsing `a` followed by parsing `b` |
| `Patterns.ParsePatternsOfPiece` | scanner.py:39 | a comma-free piece parses to nothing if blank, otherwise to its stripped self |
| `Patterns.ParsePatternsRoundTrip` | scanner.py:35-39 | parsing the comma-join of a well-formed pattern list gives back that list |
| `Patterns.ParsePatternsIdempotent` | scanner.py:35-39 | re-parsing the joined result of a parse gives the same list |
| `Patterns.ParsePaddedExample` | scanner.py:39 | `"tmp "` parses to `["tmp"]` |
| `ScanEngine.Scanner.GetSize` | scanner.py:41-61 | the stack walk returns the sum of the stat sizes of every file below the path, skipping unreadable directories and failing stats; a file gives its own size |
| `FileTree.TreeSize` | scanner.py:41-61 | definition of `get_size` on a tree: a file's stat size, 0 for an unreadable directory, else the sum over the children |
| `FileTree.DirSize` | scanner.py:50-61 | a readable directory's size is the size of its children together |
| `FileTree.ForestSizeSplit` | scanner.py:52-58 | a directory's size splits into its files' sizes plus its subdirectories' sizes |
| `Glob.GlobMatch` | scanner.py:67 | definition of `fnmatch.fnmatch`: the name matches the token list read from the pattern; its properties are the `Glob` rows below |
| `Glob.LiteralPatternMatchesItself` | scanner.py:67 | a pattern without wildcards matches exactly the name equal to it |
| `Glob.StarPatternMatchesEverything` | scanner.py:67 | `*` matches every name |
| `Glob.StarSuffixMatchesEndings` | scanner.py:67 | `*suffix` with a literal suffix matches exactly the names ending in that suffix |
| `Glob.QuestionMarkMatchesOneCharacter` | scanner.py:67 | `?` matches exactly the one-character names |
| `Glob.BracketMatchesOneCharacter` | scanner.py:67 | `[seq]` matches one character in the set, `[!seq]` one character outside it |
| `Glob.ClosedBracketMatchesOneCharacter` | scanner.py:67 | a pattern that is one closed bracket expression matches exactly the one-character names its body accepts |
| `Glob.LeadingCloseBracketIsMember` | scanner.py:67 | a `]` right after `[` or `[!` belongs to the set: `[]rest]` matches one character of `]rest`, `[!]rest]` one character outside it |
| `Glob.NoCloseLeavesOpen` | scanner.py:67 | a `[` with no `]` from the third character on is unclosed |
| `Glob.UnclosedBracket` | scanner.py:67 | an unclosed `[` reads as the literal `[`: the pattern matches iff the name starts with `[` and the rest matches the rest |
| `Glob.UnclosedBracketIsLiteral` | scanner.py:67 | an unclosed `[` is an ordinary character: `[abc` matches `[abc` and not `a` |
| `Patterns.MatchFolder` | scanner.py:63-69 | definition of `match_folder`: the first pattern that glob-matches or equals the name; its properties are the next rows |
| `Patterns.MatchFolderSpec` | scanner.py:63-69 | `match_folder` returns `None` iff no pattern glob-matches or equals the name; otherwise it returns a hitting pattern from the list |
| `Patterns.MatchFolderFirst` | scanner.py:65-68 | the first hitting pattern in list order is the one returned |
| `Patterns.MatchFolderByEquality` | scanner.py:67 | a name that its own glob does not match is still matched by equality |
| `Patterns.MatchFolderExampleFirst` | scanner.py:65-68 | `build` against `["b*", "build"]` returns `b*` |
| `Patterns.MatchFolderExampleMiss` | scanner.py:69 | `src` against `["node_modules"]` returns `None` |
| `Patterns.Dotted` | scanner.py:75 | the normalised extension starts with a dot, and is the extension itself when it already did |
| `Patterns.FileHit` | scanner.py:75-76 | definition of one extension test: the name ends with the dotted extension, or equals the extension with its leading dots stripped |
| `Patterns.MatchFile` | scanner.py:71-78 | definition of `match_file`: the first extension, as written, that the name hits; its properties are the next rows |
| `Patterns.MatchFileSpec` | scanner.py:71-78 | `match_file` returns `None` iff no extension is a suffix (dotted) or the bare name (dots stripped); otherwise it returns a hitting extension as written |
| `Patterns.MatchFileFirst` | scanner.py:73-77 | the first hitting extension in list order is the one returned |
| `Text.TrimLeadingDotsSpec` | scanner.py:76 | `lstrip(".")` removes exactly the run of dots at the front |
| `Patterns.LeadingDotIsOptional` | scanner.py:75-76 | `log` and `.log` hit the same names |
| `Patterns.MatchFileWithDots` | scanner.py:73-77 | adding dots to every pattern changes only the returned string, never which position wins |
| `Patterns.MatchFileExampleBareName` | scanner.py:76 | the file `env` matches the pattern `.env` |
| `Patterns.MatchFileExampleMiss` | scanner.py:78 | `notes.txt` against `["log", "tmp"]` returns `None` |
| `Patterns.EmptyPatternMatchIsFalsy` | scanner.py:140-141 | an empty pattern can be returned as a match and is then falsy, so the file is not recorded |
| `Patterns.TruthyIffMatched` | scanner.py:116-117 | with non-empty patterns, as parsing produces them, the truthiness test is the same as "some pattern matched" |
| `ScanEngine.Scanner.CheckCancelled` | scanner.py:105-106 | each check reads the cancel flag; the flag is set once the cancellation's check number has been reached |
| `ScanEngine.Scanner.TestFolder` | scanner.py:116-129 | one subdirectory yields its folder record iff it matches, and it is pruned exactly then |
| `ScanEngine.Scanner.TestFile` | scanner.py:140-154 | one file yields its file record iff it matches |
| `ScanEngine.Scanner.ScanDirNames` | scanner.py:111-129 | the subdirectory loop appends exactly the records of its part of the trace, or the records before the cancellation |
| `ScanEngine.Scanner.Prune` | scanner.py:131-133 | removing the matched names one occurrence at a time leaves the list `RemoveAll` describes |
| `ScanSpec.RemovingMatchedKeepsTheRest` | scanner.py:131-133 | removing the matched names leaves exactly the unmatched subdirectories, in order |
| `ScanSpec.KeptDirsMembers` | scanner.py:131-133 | a subdirectory is descended into iff it is not pruned |
| `ScanEngine.Scanner.ScanFileNames` | scanner.py:135-154 | the file loop appends exactly the records of its part of the trace, or the records before the cancellation |
| `ScanEngine.Scanner.ScanPhases` | scanner.py:110-154 | the two loops of one directory append its records and hand back the unpruned subdirectories for the walk |
| `ScanEngine.Scanner.VisitDir` | scanner.py:104-154 | one directory of the walk: its head check, its records, and its children pushed with a smaller weight |
| `ScanEngine.Scanner.WalkDir` | scanner.py:104-154 | the walk's turn at a listable directory on top of the stack: its records are the trace's next part, or those before the cancellation; its kept subdirectories go in front of the rest with a smaller stack weight |
| `ScanEngine.Scanner.ScanDirectory` | scanner.py:80-160 | the scan yields and stores what the trace shows up to the cancellation; the flag ends set iff the cancellation landed; scanning is off at the end |
| `ScanSpec.FolderRecord` | scanner.py:118-127 | definition of a folder's `ScanResult`: its path, type `folder`, its tree size when sizes are on and 0 otherwise, and the matching pattern |
| `ScanSpec.FileRecord` | scanner.py:142-152 | definition of a file's `ScanResult`: its path, type `file`, its stat size when sizes are on and 0 otherwise, and the matching pattern |
| `ScanSpec.Trace` | scanner.py:80-160 | definition of the walk as events: a check per directory, then per subdirectory and per file, with records for the matches, then the kept subdirectories in order; `ScanDirectory` and the `ScanProperties` and `ScanReach` rows are about it |
| `ScanSpec.TracesAsStack` | scanner.py:104 | walking subtrees in order is the same as popping them from the explicit stack |
| `ScanSpec.BeforeIsPrefix` | scanner.py:105-138 | a cancelled scan yields a prefix of what the full scan yields |
| `ScanSpec.BeforeMonotone` | scanner.py:105-138 | a cancellation that lands one check later yields the same results plus possibly more |
| `ScanSpec.BeforeBeyond` | scanner.py:105-138 | a cancellation after the last check changes nothing |
| `ScanProperties.ScanFindsExactlyTheMatches` | scanner.py:104-154 | a record is produced iff some visited directory has a matching subdirectory or file that gives that record |
| `ScanReach.VisitedRoot` | scanner.py:104 | a listable root is the first directory the walk enters |
| `ScanReach.VisitedClosed` | scanner.py:104-133 | from every directory it enters, the walk enters each listable subdirectory that no folder pattern matched, at that subdirectory's path |
| `ScanReach.OwnDistinct` | scanner.py:110-154 | one directory's records have distinct paths, one level below it |
| `ScanReach.TraceDistinct` | scanner.py:80-160 | when no directory lists two entries under one name, no two records of the walk share a path |
| `ScanReach.ScanYieldsEachPathOnce` | scanner.py:80-160 | the same for what the scan yields, cancelled or not |
| `ScanProperties.VisitedPaths` | scanner.py:104-133 | every visited directory is readable and lies on a path none of whose folders matched |
| `ScanProperties.NothingInsideMatchedFolders` | scanner.py:128-133 | no record lies strictly inside a recorded folder |
| `ScanProperties.DirectoryOrder` | scanner.py:110-154 | in each directory the folder records come before the file records, with item types `folder` and `file` |
| `ScanProperties.RecordPath` | scanner.py:118-142 | a record's path is its directory's path plus one name, and a folder record's last name matches a folder pattern |
| `ScanProperties.RecordFacts` | scanner.py:116-154 | every record has a non-negative size, and size 0 when sizes are off; a non-empty pattern; and type `folder` or `file` |
| `SizeFormat.FormatSize` | scanner.py:168-177 | definition of `format_size`; what it renders is `FormatSizeMeaning` |
| `SizeFormat.RoundHalfEven` | scanner.py:173 | the quotient is rounded to the nearest integer, ties to even |
| `SizeFormat.RoundsToUnique` | scanner.py:173 | that rounding has one answer |
| `SizeFormat.FormatSizeMeaning` | scanner.py:168-177 | below 1 KiB the exact count is shown in `B`; below 1 MiB tenths of a KB; below 1 GiB tenths of an MB; beyond that hundredths of a GB, each correctly rounded |
| `Text.IntRoundTrip` | scanner.py:171 | the decimal rendering of an integer reads back as that integer |
| `SizeFormat.FormatSizeBytesExample` | scanner.py:170-171 | 999 gives `999 B`, 0 gives `0 B` |
| `SizeFormat.FormatSizeKiloExample` | scanner.py:172-173 | 1536 gives `1.5 KB` |
| `SizeFormat.FormatSizeCarryExample` | scanner.py:172-173 | 1048575 gives `1024.0 KB`: rounding may carry past the unit boundary |
| `SizeFormat.FormatSizeGigaExample` | scanner.py:176-177 | 1073741824 gives `1.00 GB` |
| `Cleaner.ConfirmModal.constructor` | app.py:82-87 | the dialog keeps its items, their total size, and the counts of folders and files |
| `Cleaner.FolderAndFileCounts` | app.py:86-87 | the folder and file counts add up to at most the item count, and to exactly it when every item is a folder or a file |
| `Cleaner.TotalSize` | app.py:85 | definition of `sum(item.size for item in items)`; its properties are the next rows |
| `Cleaner.CountType` | app.py:86-87 | definition of the count of items of one type; its property is `FolderAndFileCounts` |
| `Cleaner.TotalSizeBounds` | app.py:85 | with non-negative sizes the total is non-negative and at least every single size |
| `Cleaner.TotalSizeAppend` | app.py:85 | the total of two item lists together is the sum of their totals |
| `Cleaner.CleanerApp.constructor` | app.py:132-138 | the application starts with a fresh idle scanner, no results, no selection and no folders, so the selection is within the results |
| `Cleaner.CleanerApp.AddDirectory` | app.py:236-266 | the outcomes are: empty input; not found; not a folder; already added; otherwise the resolved path is appended. Only the last case changes the list, and the list stays free of duplicates |
| `Cleaner.AppendNewKeepsDistinct` | app.py:255-259 | appending a path not yet listed keeps the list free of duplicates |
| `Cleaner.CleanerApp.DirectorySelected` | app.py:268-278 | a path from the tree is appended iff it is not yet listed |
| `Cleaner.CleanerApp.RemoveSelectedDirectory` | app.py:305-313 | with a cursor inside the list, that entry is removed; otherwise nothing changes |
| `Cleaner.RemoveAt` | app.py:309 | `pop(i)` keeps the entries before `i` and shifts the ones after it down by one |
| `Cleaner.RemoveAtMembers` | app.py:309 | `pop(i)` removes exactly one occurrence of the entry at `i` |
| `Cleaner.RemoveAtKeepsDistinct` | app.py:305-313 | removing an entry keeps the list free of duplicates |
| `Cleaner.CleanerApp.ClearDirectoryList` | app.py:315-319 | the folder list becomes empty; results and selection stay |
| `Cleaner.Toggled` | app.py:332-335 | toggling flips the membership of the index and of no other index |
| `Cleaner.ToggleTwice` | app.py:330-336 | toggling the same index twice restores the selection |
| `Cleaner.ToggleSize` | app.py:332-335 | toggling shrinks the selection by one if the index was selected, and grows it by one otherwise |
| `Cleaner.CleanerApp.ToggleSelection` | app.py:330-336 | the selection becomes the toggled one; nothing else changes; an in-range toggle keeps the selection within the results |
| `Cleaner.CleanerApp.ActionScan` | app.py:357-392 | a scan starts iff folders are listed and some pattern list parses non-empty; it then replaces the results with what the session yields and selects them all; otherwise nothing changes; a selection within the results stays so |
| `Cleaner.CleanerApp.StartScan` | app.py:370-392 | with both pattern lists empty nothing happens; otherwise results and selection are cleared and the session's results are all selected; a selection within the results stays so |
| `Cleaner.CleanerApp.PerformScan` | app.py:394-458 | the results gain what the session over the listed folders yields up to the cancellation, in folder order, and each new index is selected; a selection within the results stays so |
| `Cleaner.CleanerApp.ScanFolder` | app.py:404-421 | one folder of the session: the check, then that folder's results taken one by one |
| `Cleaner.CleanerApp.TakeResults` | app.py:411-421 | results are taken from one folder's scan, each after a cancellation check, appended and selected |
| `Cleaner.SessionRecords` | app.py:404-421 | an uncancelled session yields each folder's scan in list order, with one check per folder plus one per result |
| `Cleaner.SessionPrefix` | app.py:404-421 | a cancelled session yields a prefix of the uncancelled one, and without a cancellation it yields everything |
| `Cleaner.ScanAllMembers` | app.py:404-421 | a result comes from the session iff it comes from the scan of one of the listed folders |
| `Cleaner.CleanerApp.SelectAll` | app.py:467-473 | with results, every index of them is selected; without results nothing changes |
| `Cleaner.IndexRangeMembers` | app.py:471 | `range(lo, hi)` as a set holds exactly the integers from `lo` up to, but not including, `hi` |
| `Cleaner.AllIndicesSize` | app.py:471 | selecting all of `n` results selects `n` indices |
| `Cleaner.CleanerApp.DeselectAll` | app.py:475-479 | the selection becomes empty, so within the results; nothing else changes |
| `Cleaner.DescendingIndicesSpec` | app.py:509 | `sorted(selected, reverse=True)` lists each selected index in range once, highest first |
| `Cleaner.Batch` | app.py:509 | definition of `[scan_results[i] for i in sorted(selected, reverse=True)]`; its property is `BatchOrder` |
| `Cleaner.BatchOrder` | app.py:509-510 | the batch holds the selected results, highest index first, and has as many items as indices are selected |
| `Cleaner.Removed` | app.py:521-525 | a removal takes away only present paths at or below the item; the item goes if present; a folder's removal takes every present path below it |
| `Cleaner.Step` | app.py:519-528 | one item: it is skipped iff its path is gone, fails iff it is present and its removal raises; a step only removes paths; a deleted item's path is gone and a failed one's stays |
| `Cleaner.Run` | app.py:512-528 | the batch processed in order, one outcome per item, each step on the disk the previous ones left |
| `Cleaner.Processed` | app.py:513-515 | a cancellation processes a prefix of the batch; without one the whole batch is processed |
| `Cleaner.OutcomeAt` | app.py:520-528 | an item is skipped iff its path is already gone, is an error iff it is present and its removal raises, and is deleted iff it is present and its removal succeeds |
| `Cleaner.CountsAddUp` | app.py:506-528 | deleted, error and skipped counts add up to the number of items processed |
| `Cleaner.CountersBounded` | app.py:506-528 | `deleted + errors` never exceeds the batch size |
| `Cleaner.RunPrefix` | app.py:513-515 | stopping early gives the same outcomes for the items already processed |
| `Cleaner.RunShrinks` | app.py:513-528 | deletion only ever removes paths |
| `Cleaner.DeletedAreGone` | app.py:521-526 | an item counted as deleted is no longer on disk afterwards |
| `Cleaner.StepRemoves` | app.py:519-528 | a path disappears in one step only by a removal of an item at or above it that succeeded, or by an `rmtree` that raised part-way and never takes the folder itself |
| `Cleaner.RunLast` | app.py:512-528 | the last item of a batch is processed on the disk its prefix left |
| `Cleaner.OnlyWithinRemoved` | app.py:512-528 | every path that disappeared lies at or below an item that was deleted, or below (not at) a folder whose `rmtree` raised |
| `Cleaner.OnlyWithinDeleted` | app.py:512-528 | with no raising removals, every path that disappeared lies at or below an item counted as deleted |
| `Cleaner.NoFailureNoErrors` | app.py:527-528 | with no raising removals the error count is 0 |
| `Cleaner.CleanerApp.PerformDeletion` | app.py:503-537 | the loop's counters and final disk are those of the processed batch prefix, including what raising removals took; results and selection are cleared; the folder list stays |

## Left out

- Widgets, rendering, notifications, the status line, the progress bar,
  key bindings and the help screen are not modelled. `update_table_display`
  with its size sum is one of these.
- Workers and threads are not modelled as such. A cancellation is the
  parameter `cancelAt`, naming the check that first sees it.
- `action_cancel_scan` is not modelled as a method. It cancels both the
  worker and the scanner. Either way no further result is appended, so the
  model lets the application's checks see the cancellation and calls
  `ScanDirectory` with no cancellation of its own.
- Filesystem calls are not modelled: `os.walk`, `stat`, `exists`,
  `is_dir`, `rmtree` and `unlink`. They become values: a `Node` tree for a
  scan, `existing`/`folders` sets and a `resolve` function for adding a
  folder, and for deletion a path set with a map from each raising
  position to what it removed before raising.
  `expanduser().resolve()` is the `resolve` parameter.
- Symbolic links, case-insensitive file systems and Windows path
  normalisation are not modelled. A path is a sequence of names.
- An error from `os.walk` itself, which the scan catches and ignores, is
  modelled only as unreadable directories. The walk skips such a
  directory.
- `FormatSize`: Python formats a binary float. The model computes exact
  rational rounding, which agrees with it while byte counts stay below
  2^53.
- `Glob`: only the constructs `*`, `?`, `[seq]`, `[!seq]` and ranges are
  modelled. `fnmatch.fnmatch`'s case normalisation (`os.path.normcase`) is
  not, because it is the identity on POSIX.
- `action_delete` and `handle_delete` are not modelled as methods. They
  build the dialog's list in ascending order and start the deletion
  worker. `ConfirmModal` accepts any item list; the deletion batch is
  modelled by `Batch`.
- `on_data_table_row_selected`: its string-to-integer row-key parsing is
  not modelled. `ToggleSelection` takes the index directly.
- `Cleaner.CleanerApp.PerformDeletion` requires every selected index to be
  in range. Python would raise `IndexError` otherwise. Every modelled
  operation of the application keeps the selection within the results,
  and only a toggle of an out-of-range row key could break this. The
  constructor, `DeselectAll`, `SelectAll`, `ActionScan`, `StartScan`,
  `PerformScan` and `PerformDeletion` each state that they keep it.
- The scanner's `is_scanning` is the function `IsScanning`, with no
  contract of its own. `ScanDirectory` ensures that it is false at the end.
- A batch item that no longer exists when its turn comes is counted
  neither as deleted nor as an error. So `deleted + errors` can be smaller
  than the batch; the model follows `app.py:521-528` here.
- A raising `rmtree` may have removed part of the folder. The model takes
  what it removed as the parameter `failing`, limited to the paths strictly
  below the folder. `rmtree` removes the folder itself last, so a raising
  call keeps it. A raising `unlink` removes nothing. Which paths go before
  the error depends on the order of the directory listing and is not
  modelled further.
- `ScanReach.TraceDistinct` needs every directory's entries to have
  distinct names. A real filesystem guarantees this, but a `Node` value
  does not.
