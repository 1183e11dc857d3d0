# Verification of remote-merge's core

remote-merge compares and merges file trees on this machine and over SSH. This project models the parts of
it whose decisions do not depend on the machine they run on, and proves what their comments and
documentation promise. File systems, collectors of entries, the diff algorithm, glob matching, decoders
and the calendar are parameters: what is proved holds for all of them.

`dafny verify dfyconfig.toml` checks everything.

## What is modelled

- **Path resolution** (`PathResolution`, `PathResolutionLaws`, `PathFollowing`): the symlink resolver as it
  runs, with one queue of elements and counters of what was left behind each link, is proved equal to a
  resolver that calls itself for each link target. About that resolver it is proved that what it reports as
  existing really is there, exactly when it blames an ancestor that is no directory, exactly which element
  refuses it, and where plain paths, ".." and both kinds of link texts lead.
- **Backup sessions** (`SessionId`, `BackupStore`, `BackupRuns`): ids, the reserve loop, and the store as a
  state machine in which the single directory operations of any number of runs and cleanups interleave, and
  what a run and a cleanup achieve when their steps go through.
- **Diff, hunks and merging** (`Content`, `DiffScript`, `HunkApply`, `HunkSelection`, `HunkMerge`): lines
  and their byte ranges, display and merge hunks, and taking chosen hunks byte for byte.
- **Three-way conflicts** (`Changes`, `Overlaps`, `Conflict`, `ConflictLines`): edits against a common
  ancestor, the overlaps of edits, joining them in place, and which lines are reported.
- **Scanning** (`RelativePath`, `Exclude`, `ExcludeRules`, `Starts`, `StartPaths`, `ScanData`, `WalkSteps`,
  `Walk`, `ScanRun`, `ScanDriver`): excludes, the tidying of starts, and the walk that turns the answers of
  an untrusted collector into a listing. `Walk` holds the mutable walk; `WalkSteps` and `ScanRun` say what
  each of its methods does to the state and what the rounds are. `WalkCounts` (limits and stored indexes),
  `ScanPruning` (excluded items do not matter), `ScanChains` (cycles and nesting), `ScanParts` with
  `ScanComplete` (nothing is missed) and `ScanStops` (why a scan is truncated, reports a cycle or fails) are
  proved about them.
- **Comparison** (`Compare`, `StateTable`): from listings to a table of states, judgements, and verdicts
  settled with hashes.
- **Changing files** (`Disk`, `Parents`, `OpenForWrite`): making missing parent directories, undoing it, and
  opening a file to write, on a file system that others may change before every single operation.
- **Login shells** (`LoginShell`): quoting a script so that a POSIX shell (sections 2.2.1 and 2.2.2 of the
  Shell Command Language of POSIX.1-2017) and fish read the same words.

`Texts`, `Sorting` and `OpFailures` are shared.

A `string` stands for the bytes of a text, one character for each byte; "/", "." and the other characters
the rules look at are ASCII. Errors are datatype cases; the wording of messages is not modelled.

## Model

| member | source | states |
|---|---|---|
| `RelativePath.BelowIsHavingAncestor` | crates/remote-merge-core/src/relative_path/mod.rs:86-96 | being below a path, tested on the text, is having that path among the ancestors, for every pair of paths |
| `RelativePath.NormalizedIsStable` | crates/remote-merge-core/src/relative_path/mod.rs:103-108 | removing "." and empty elements once is enough |
| `RelativePath.NormalizedExactly` | crates/remote-merge-core/src/relative_path/mod.rs:103-108 | text without a slash stays as it is, apart from a lone dot, and around a slash both sides are normalized and joined by it if neither is empty |
| `RelativePath.AboveComesFirst` | crates/remote-merge-core/src/relative_path/mod.rs:98-100 | in the byte order of paths a path comes before everything below it |
| `RelativePath.LexLeExactly` | crates/remote-merge-core/src/scan/walk.rs:47-59 | the order is that of the first byte that differs, and a text comes before what continues it |
| `PathResolution.ResolvePath` | crates/remote-merge-core/src/path_resolution/walk.rs:100-214 | the work-list resolver with its `rest` counters gives, for every file system, root and relative path, the result of the resolver that calls itself for each link target, and follows as many links as that one, at most 40 |
| `PathResolution.CountersNeverDecrease` | crates/remote-merge-core/src/path_resolution/walk.rs:33-38 | the counters form a stack that never decreases and mark the links of the relative path |
| `PathResolution.OutermostCounter` | crates/remote-merge-core/src/path_resolution/walk.rs:56-80 | the outermost counter is below what is left exactly when elements are left inside some link target |
| `PathResolution.NextElement` | crates/remote-merge-core/src/path_resolution/walk.rs:119-132 | dropping the counters above what is left leaves exactly the counters of the links the next element came from |
| `PathResolution.NonDirectoryWithRest` | crates/remote-merge-core/src/path_resolution/walk.rs:60-80 | a non-directory with elements behind it stops the whole resolution, and blames the relative path only if nothing is left inside a link target |
| `PathResolutionLaws.ResolutionIsTruthful` | crates/remote-merge-core/src/path_resolution/walk.rs:100-214 | a path reported as existing is a path from "/" without empty, "." or ".." elements and within the limits, all its proper ancestors are directories, and its kind is the real kind of the entry |
| `PathResolutionLaws.WaitingTurnsMissingIntoDangling` | crates/remote-merge-core/src/path_resolution/walk.rs:133-170 | elements waiting behind a link leave where its target ends as it is or make the link dangling: always if the target ends in a missing part, never if it ends at something that exists |
| `PathResolutionLaws.TargetRefusesExactly` | crates/remote-merge-core/src/path_resolution/walk.rs:133-170 | a link target is refused with one of these errors (all but a path that is too long, a non-directory and a parent reference in a missing part) if and only if one of its elements, reached through the ones before it, is: looking it up fails with it, or it is missing while an element waits behind some link it is part of, or it is itself a link whose target is refused with it |
| `PathResolutionLaws.RefusedExactlyWhenSomeElementIs` | crates/remote-merge-core/src/path_resolution/walk.rs:100-214 | each of these errors is the result if and only if some element of the path, reached through the ones before it, is refused with it; so PermissionDenied is the result exactly where a directory that has to be searched may not be (or an operation answers it), and DanglingSymlink exactly where a link with elements behind it has a missing element in its target |
| `PathResolutionLaws.LookFinds` | crates/remote-merge-core/src/path_resolution/walk.rs:133-170 | looking an element up fails with each error exactly where an operation answers it, the directory may not be searched, or the entry is a symlink beyond the fortieth or with a text that is not UTF-8 |
| `PathResolutionLaws.AncestorExactlyWhenStopped` | crates/remote-merge-core/src/path_resolution/walk.rs:56-80 | AncestorNotDirectory is the result if and only if what a non-last element of the relative path itself resolves to is that non-directory |
| `PathFollowing.ElementsAroundSlash` | crates/remote-merge-core/src/path_resolution/walk.rs:18-31 | the elements of a text around a slash are those before it, the last of them asked to be a directory, and those behind it |
| `PathFollowing.PlainPathResolves` | crates/remote-merge-core/src/path_resolution/walk.rs:100-214 | a path without links and dots whose ancestors may all be searched resolves to the entry it names, whatever that is, and only a slash at its end asks for a directory |
| `PathFollowing.MissingInside` | crates/remote-merge-core/src/path_resolution/walk.rs:117-147 | behind a missing element a plain path names a missing path whose parent does not exist |
| `PathFollowing.UpLeadsToParent` | crates/remote-merge-core/src/path_resolution/walk.rs:120-127 | two dots lead to the directory above, and from the root directory to itself |
| `PathFollowing.AbsoluteLinkStartsAtRoot` | crates/remote-merge-core/src/path_resolution/walk.rs:148-165 | a link whose text begins with a slash ends where the elements of its text lead from the root directory, from whatever directory it is followed |
| `PathFollowing.RelativeLinkStartsThere` | crates/remote-merge-core/src/path_resolution/walk.rs:148-165 | a link whose text does not begin with a slash ends where the elements of its text lead from the directory it stands in |
| `PathFollowing.LinkIsItsText` | crates/remote-merge-core/src/path_resolution/walk.rs:148-165 | a link that leads to a directory may be replaced in the path by the elements of its text, followed from the root directory or from where it stands |
| `PathFollowing.LastLinkIsTold` | crates/remote-merge-core/src/path_resolution/walk.rs:148-214 | a plain path whose last element is a symlink gives the text of the link and what stands where the text leads |
| `SessionId.ParseFormat` | crates/remote-merge-engine/src/backup/mod.rs:103-143 | an id that was written is read back as the same second and number |
| `SessionId.FormatParse` | crates/remote-merge-engine/src/backup/mod.rs:129-143 | a name that is read as an id is the name that id is written as, apart from the spelling of its time and a plus sign or zeros in front of its number |
| `SessionId.LastSequence` | crates/remote-merge-engine/src/backup/mod.rs:107-117 | the largest number used for a second, over all names that are ids of that second |
| `SessionId.NextIsNew` | crates/remote-merge-engine/src/backup/mod.rs:103-123 | the next id names the second, comes after every id of it and so is none of the existing names; there is none exactly when the largest number is taken |
| `SessionId.NextIsSuccessor` | crates/remote-merge-engine/src/backup/mod.rs:103-123 | the next id has number 1 if there is no id of that second, and else one more than the largest |
| `SessionId.ExpiredExactly` | crates/remote-merge-engine/src/backup/mod.rs:150-160 | a name is expired if and only if it is an id and at least that many days of 86400 seconds have passed since the second it names, and undecided if and only if it is no id |
| `SessionId.WrittenIdExpires` | crates/remote-merge-engine/src/backup/mod.rs:150-160 | an id that was written expires that many days after its second, whatever its number |
| `SessionId.ReserveSession` | crates/remote-merge-engine/src/backup_store.rs:119-154 | the reserve loop ends: with an id that is neither listed nor tried and whose mkdir succeeded, with exhaustion when the largest number is taken, or at the first mkdir that failed otherwise; the ids tried rise strictly |
| `BackupStore.StepKeepsInv` | crates/remote-merge-engine/src/backup_store.rs:119-280 | every step of every run and cleanup keeps the invariant: sessions and holders are guarded by their reservation or their day is over, and no two runs own one id |
| `BackupStore.InvThroughout` | crates/remote-merge-engine/src/backup_store.rs:119-280 | the invariant holds in every state of every interleaving, from any store left by earlier runs |
| `BackupStore.NewIdIsFree` | crates/remote-merge-engine/src/backup_store.rs:119-154 | in every interleaving, an id that is handed out names no session directory and is owned by no other run |
| `BackupStore.HandedOutAgainOnlyAfterRelease` | crates/remote-merge-engine/src/backup_store.rs:257-280 | an id handed out twice was released by its earlier holder in between |
| `BackupStore.RecordLostOnlyToExpiry` | crates/remote-merge-engine/src/backup_store_cleanup.rs:54-90 | a stored record disappears only when a cleanup removes the area of a session whose retention was over; finishing a session never removes one |
| `BackupStore.RecordStaysWhileRetained` | crates/remote-merge-engine/src/backup_store_cleanup.rs:14-51 | over a whole run, a record stays while its session is younger than the retention of every cleanup |
| `BackupRuns.PickedExactlyWhenExpired` | crates/remote-merge-engine/src/backup_store_cleanup.rs:26-49 | a cleanup that scans picks exactly the names that are ids whose retention is over |
| `BackupRuns.AreasOfTargetsAreCleaned` | crates/remote-merge-engine/src/backup_store_cleanup.rs:54-75 | a cleanup removes the areas of the configured targets, and of no others, from an expired session |
| `BackupRuns.EmptySessionIsCleaned` | crates/remote-merge-engine/src/backup_store_cleanup.rs:76-90 | an emptied session goes, and its reservation goes exactly when the retention and at least one day have passed |
| `BackupRuns.ExpiredSessionDisappears` | crates/remote-merge-engine/src/backup_store_cleanup.rs:16-90 | an expired session whose areas are all of configured targets disappears in one cleanup, and nothing else changes |
| `BackupRuns.ReservesAtOnce` | crates/remote-merge-engine/src/backup_store.rs:119-154 | a run that lists all reservations holds a new id of this second after one mkdir |
| `BackupRuns.SaveStores` | crates/remote-merge-engine/src/backup_store.rs:213-252 | a save adds its record to its own area and changes nothing else |
| `BackupRuns.SavedSessionIsKept` | crates/remote-merge-engine/src/backup_store.rs:257-280 | finishing keeps a session that holds a record, and its reservation |
| `BackupRuns.UnusedRunLeavesNothing` | crates/remote-merge-engine/src/backup_store.rs:257-280 | a run that prepares an area and saves nothing leaves the store as it found it, whatever it held |
| `Content.LinesAreTheBytes` | crates/remote-merge-core/src/content/mod.rs:81-95 | the lines put together are the bytes |
| `Content.LinesEndOnce` | crates/remote-merge-core/src/content/mod.rs:80-95 | no line holds a line end before its last byte, every line but the last ends, and no CR LF is taken apart |
| `Content.RangesCutTheLines` | crates/remote-merge-core/src/content/mod.rs:76-95 | each range cuts exactly its line out of the whole bytes, the BOM in front included |
| `Content.LineRanges` | crates/remote-merge-core/src/content/mod.rs:81-95 | the loop gives the ranges of the lines ended by LF, CR LF or a CR alone |
| `Content.RawLineIsLine` | crates/remote-merge-core/src/content/mod.rs:76-78 | a raw line is the line with that number of the bytes behind the BOM |
| `Content.Interpret` | crates/remote-merge-core/src/content/mod.rs:97-133 | contents are binary if and only if so interpreted, or a NUL is among the first 8192 bytes, or they have no interpretation and are not UTF-8; a decode error if and only if an encoding was asked for that they are not in; what is text keeps its raw bytes, its line ranges are those of its body, and a BOM is cut only from UTF-8 |
| `DiffScript.NumberedAligns` | crates/remote-merge-core/src/diff/engine.rs:170-215 | the numbered lines carry the running line numbers of both sides and project to the old and the new lines |
| `DiffScript.NumberLines` | crates/remote-merge-core/src/diff/engine.rs:176-205 | the loop numbers the lines of the script |
| `DiffScript.BuildHunks` | crates/remote-merge-core/src/diff/engine.rs:283-342 | the hunks are the maximal runs of lines within the context of a change, in order and apart, and their starting numbers are the counts of old and new lines before them |
| `DiffScript.HunksAreUnique` | crates/remote-merge-core/src/diff/engine.rs:283-342 | that description determines the hunks |
| `DiffScript.ChangeInOneMergeHunk` | crates/remote-merge-core/src/diff/engine.rs:253-281 | a line is changed exactly if it lies in a merge hunk, and then in one |
| `DiffScript.MergeHunkInOneDisplayHunk` | crates/remote-merge-core/src/diff/engine.rs:253-281 | each merge hunk lies in exactly one display hunk |
| `DiffScript.BuildScript` | crates/remote-merge-core/src/diff/engine.rs:170-225 | equal texts have no script; otherwise the script projects to both texts, deletions lead insertions, and both hunk lists are the runs with context 3 and 0 |
| `HunkApply.Assemble` | crates/remote-merge-core/src/diff/engine.rs:140-167 | the bytes of the selected lines in order, each from the side it is taken from, and nothing else |
| `HunkApply.Apply` | crates/remote-merge-core/src/diff/engine.rs:128-167 | applying display hunks is taking the merge hunks inside them line by line behind the BOM of the target |
| `HunkSelection.TakenExactlyInSelected` | crates/remote-merge-core/src/diff/engine.rs:261-281 | a changed line is taken from the source if and only if it is shown in a display hunk whose number, counted from 0, is selected |
| `HunkSelection.ShownNearChanges` | crates/remote-merge-core/src/diff/engine.rs:128-167 | a line is shown in a display hunk if and only if a changed line is at most three lines away |
| `HunkSelection.SelectionIsExact` | crates/remote-merge-core/src/diff/engine.rs:128-167 | for every selection, direction and encoding: behind the BOM of the target stand the lines of the source where a change is shown in a selected hunk, and the lines of the target everywhere else |
| `HunkApply.NothingSelectedIsTarget` | crates/remote-merge-core/src/diff/engine.rs:128-167 | in any encoding, selecting nothing gives the exact bytes of the target |
| `HunkApply.ChosenByExactlyOne` | crates/remote-merge-core/src/diff/engine.rs:260-281 | of two complementary selections exactly one takes each changed line |
| `HunkApply.ComplementarySelectionsMeet` | crates/remote-merge-core/src/diff/engine.rs:128-167 | for UTF-8 texts, any selection applied left to right and its complement applied right to left give the same body |
| `HunkApply.EverythingSelectedIsSource` | crates/remote-merge-core/src/diff/engine.rs:128-167 | for UTF-8 texts, selecting everything gives the body of the source behind the BOM of the target |
| `HunkApply.EverythingOntoNothing` | crates/remote-merge-core/src/diff/engine.rs:128-167 | in any encoding, selecting everything onto an empty text gives the body of the source |
| `HunkMerge.MergePrepared` | crates/remote-merge-engine/src/treat/hunk_merge.rs:14-77 | a merge is refused as invalid exactly when the sides cannot be compared, and as conflicting exactly when a three-way merge finds the sides conflicting; otherwise the selected hunks are applied, the first index out of range is refused, and a BOM is kept for an absent target |
| `HunkMerge.MergeScript` | crates/remote-merge-engine/src/treat/hunk_merge.rs:57-76 | the application and the range check on the script of both sides, with the results of selecting nothing and everything |
| `HunkMerge.HasConflicts` | crates/remote-merge-engine/src/treat/hunk_merge.rs:53-55 | three texts conflict when their edits do; other contents when all three differ |
| `HunkMerge.ConflictsExactly` | crates/remote-merge-engine/src/treat/hunk_merge.rs:53-55 | three files that are not all text conflict if and only if no two of them are the same, and three texts if and only if their lines do |
| `Changes.ExtractChanges` | crates/remote-merge-core/src/diff/conflict.rs:61-141 | the loop gives one change for each run of changed lines, at the reference line where the run begins, and never meets a key twice |
| `Changes.ChangesAreSeparate` | crates/remote-merge-core/src/diff/conflict.rs:61-141 | between two extracted changes lies a reference line neither of them takes out |
| `Changes.ChangesAreFaithful` | crates/remote-merge-core/src/diff/conflict.rs:61-141 | the replacement of a change is the stretch of new lines its line numbers name |
| `Changes.ChangesRebuildTheFile` | crates/remote-merge-core/src/diff/conflict.rs:61-141 | applying the extracted changes to the reference gives the file |
| `Overlaps.MergeOverlapping` | crates/remote-merge-core/src/diff/conflict.rs:227-251 | the sorting and joining loop gives regions in order and apart, each a connected component of the found overlaps with exactly their line numbers, and houses every overlap |
| `Overlaps.JoinedIsUnique` | crates/remote-merge-core/src/diff/conflict.rs:227-251 | that description determines the joined regions |
| `Conflict.FoundIsWellFormed` | crates/remote-merge-core/src/diff/conflict.rs:164-197 | an insertion found in conflict is found once and touches no other found overlap, for every pair of edits of both sides |
| `Conflict.LookupsHold` | crates/remote-merge-core/src/diff/conflict.rs:219-225 | looking lines up by number finds every inserted line of every edit, and finds the line of the file with that number |
| `Conflict.TextConflicts` | crates/remote-merge-core/src/diff/conflict.rs:144-217 | the nested loops, the joining and the lookups give the joined regions of all clashing edits with the lines both sides put in; no lookup fails |
| `Conflict.ConflictsAreSymmetric` | crates/remote-merge-core/src/diff/conflict.rs:144-217 | exchanging left and right gives the same reference ranges with the lines exchanged, for all three texts |
| `Conflict.NoConflictWithoutTwoEdits` | crates/remote-merge-core/src/diff/conflict.rs:144-163 | nothing is reported when the sides are equal or one of them is the reference |
| `Conflict.RegionsAreDisjoint` | crates/remote-merge-core/src/diff/conflict.rs:198-217 | the regions are in order and disjoint |
| `Conflict.ClashesAreReported` | crates/remote-merge-core/src/diff/conflict.rs:164-217 | two overlapping edits that differ lie inside one region, which shows the lines both put in |
| `ConflictLines.EditsRebuildTheSide` | crates/remote-merge-core/src/diff/conflict.rs:144-160 | the edits of a side applied to the reference give the side |
| `ConflictLines.OddsAreReported` | crates/remote-merge-core/src/diff/conflict.rs:160-217 | if an edit of each side takes out one and the same line, or puts lines in right before it, and they put in different lines, both lie inside one region, which shows the lines of both |
| `ConflictLines.RegionsHoldOdds` | crates/remote-merge-core/src/diff/conflict.rs:160-217 | every region holds two such edits, one of which begins where the region does |
| `ConflictLines.RegionLinesAreInOdds` | crates/remote-merge-core/src/diff/conflict.rs:160-217 | every reference line of a region is taken out by one of two such edits inside it |
| `ConflictLines.ShownLinesAreOdds` | crates/remote-merge-core/src/diff/conflict.rs:160-217 | a region shows only lines that such edits inside it put in |
| `ConflictLines.TrimLfTrims` | crates/remote-merge-core/src/diff/conflict.rs:144-217 | a line is shown without the line feeds at its end and otherwise as it is |
| `Exclude.TwoWaysAgree` | crates/remote-merge-core/src/scan/exclude.rs:21-56 | element patterns once for each element and path patterns on each prefix decide the same as: some prefix of the path matches some pattern |
| `Exclude.Excludes` | crates/remote-merge-core/src/scan/exclude.rs:35-56 | the check with its running prefix is that simple rule, for every glob predicate |
| `Exclude.PrefixExcluded` | crates/remote-merge-core/src/scan/exclude.rs:45-56 | the prefix that grows by one element at a time is the join of the elements up to it |
| `Exclude.ExclusionIsInherited` | crates/remote-merge-core/src/filter.rs:16-35 | what is excluded is excluded with everything below it |
| `ExcludeRules.ExcludedExactly` | crates/remote-merge-core/src/filter.rs:16-35 | a path is excluded if and only if some pattern without a parent reference hits it: one with a slash matches a front part of the path that ends with an element, one that ends in a slash and two stars also hits the directory itself, and one without a slash matches a single element |
| `ExcludeRules.StarsExcludeTheDirectory` | crates/remote-merge-core/src/filter.rs:26-32 | a pattern of a directory, a slash and two stars excludes the directory itself and everything below it |
| `Starts.ScopeIsTheIntersection` | crates/remote-merge-core/src/scan/starts.rs:9-55 | the paths reached by a descending start are exactly those at or below some named directory and some include value |
| `Starts.StartsExactly` | crates/remote-merge-core/src/scan/starts.rs:9-51 | the starts are exactly these: an include value is listed itself, a named directory is not and is read below unless include values restrict it, and every directory has a group of its own |
| `StartPaths.PrefixesDecideCover` | crates/remote-merge-core/src/scan/start_paths.rs:44-53 | looking the prefixes of a path up in the set of descending starts is comparing it with each of them |
| `StartPaths.TidyStartPaths` | crates/remote-merge-core/src/scan/start_paths.rs:22-71 | the loop keeps starts of which none lies at or below another descending one; every start is reached by a kept one, kept, or excluded and then kept only as a named directory for itself |
| `StartPaths.TidiedExactly` | crates/remote-merge-core/src/scan/start_paths.rs:22-71 | what is kept are starts as they were given, or excluded named directories that are only looked at, and no start is lost but excluded include values and what another start reaches |
| `StartPaths.TidyingKeepsTheScope` | crates/remote-merge-core/src/scan/start_paths.rs:22-71 | for every path that is not excluded, tidying changes nothing about whether it is reached |
| `ScanData.ParentIds` | crates/remote-merge-core/src/scan/parts.rs:37-45 | the loop gives the ids of the start and of every collected directory above the path, top first |
| `ScanData.ItemsAreOrdered` | crates/remote-merge-core/src/scan/parts.rs:130-144 | the order of the items, by path and with what changed first, is total and transitive |
| `Sorting.FilteredSorted` | crates/remote-merge-core/src/scan/parts.rs:141-143 | leaving items out before the stable sort or after it is the same |
| `Walk.Walk.TakeItem` | crates/remote-merge-core/src/scan/walk.rs:104-147 | one item of a subtree: passed over if excluded, a failure if it was not read or changed, a cycle if it is a directory above itself, counted up to the limit, then listed or reported by name |
| `Walk.Walk.TakeSubtree` | crates/remote-merge-core/src/scan/walk.rs:71-149 | the loop takes the items in path order until the walk stops |
| `Walk.Walk.TakeLink` | crates/remote-merge-core/src/scan/walk_links.rs:12-63 | an answered link: its own entry is pointed through the stored index, and the subtree of a directory is taken |
| `Walk.TakeBelow` | crates/remote-merge-core/src/scan/start_take.rs:58-94 | a directory named as a start, or a link to one: listed itself, and taken below unless only asked for itself; an excluded start that is not reached is no failure |
| `ScanDriver.TakeFirstOf` | crates/remote-merge-core/src/scan/drive.rs:37-50 | the first answers are taken: root_dir if all of it is scanned, then each start |
| `ScanDriver.TakeRoundOf` | crates/remote-merge-core/src/scan/drive.rs:61-63 | the links of one round are taken with the answers about them |
| `ScanDriver.ScanScope` | crates/remote-merge-core/src/scan/drive.rs:11-67 | the driver, for any collector: its listing or failure is that of the rounds the scan is defined by, over tidied starts |
| `ScanRun.RoundCounts` | crates/remote-merge-core/src/scan/drive.rs:52-65 | whatever newly waits after a round was counted in it, and the walk stays within its limits |
| `ScanRun.ScanEnds` | crates/remote-merge-core/src/scan/drive.rs:52-66 | for every collector the scan asks at most 1 + groups x max_entries batches; no group counts more than the limit, and the scan is truncated exactly when one single group counted one entry more |
| `ScanRun.QuestionsAre` | crates/remote-merge-core/src/scan/drive.rs:11-66 | root_dir, each start and each link are asked about with everything below exactly where it is to be read |
| `WalkCounts.TakeSubtreeGrows` | crates/remote-merge-core/src/scan/walk.rs:62-149 | taking a subtree keeps the limits, changes no entry but where links point, and each link that newly waits was counted and stands at the symlink entry of its own path, at an index of its own |
| `WalkCounts.TakeLinkGrows` | crates/remote-merge-core/src/scan/walk_links.rs:12-63 | following a link keeps all that too |
| `WalkCounts.TakeStartGrows` | crates/remote-merge-core/src/scan/start_take.rs:10-94 | taking a start keeps all that too |
| `ScanPruning.PruningKeepsSubtree` | crates/remote-merge-core/src/scan/walk.rs:71-149 | leaving the excluded items out of a subtree changes nothing about what taking it does |
| `ScanPruning.ExcludedDoesNotMatter` | crates/remote-merge-core/src/scan/raw.rs:150-158 | two collectors that differ only in excluded items give the same walk or the same failure after as many batches |
| `ScanPruning.PruningChangesNothing` | crates/remote-merge-core/src/scan/walk.rs:71-149 | a collector that descends into excluded directories and the one that leaves them out are equivalent |
| `ScanChains.ChainIsGood` | crates/remote-merge-core/src/scan/walk.rs:124-146 | the chain of a link that waits holds no directory twice, if none occurs twice along a collected path |
| `ScanChains.NestingIsBounded` | crates/remote-merge-core/src/scan/walk.rs:71-146 | under that condition no link ever waits with a directory twice above it, each round goes one directory deeper, and the scan asks at most one batch more than there are directories |
| `ScanComplete.TakenLinkLists` | crates/remote-merge-core/src/scan/walk_links.rs:12-63 | following one link points its own entry as answered and touches no other, reports it by name if it leads nowhere and could not be listed, lists the subtree it leads to, and waits for the symlinks of that subtree |
| `ScanComplete.CompleteScan` | crates/remote-merge-core/src/scan/drive.rs:11-66 | for every collector and all starts, a scan that ends without truncation or cycle lists every entry that is not excluded of root_dir, of each start and of each followed subtree once, with its own kind, size, time and permissions, or reports its name; none of them was unread, changed or without a time or link target; each round asked about exactly the symlinks found before it and used the answers the collector gave; and each symlink points to what was answered about its own path |
| `ScanComplete.StartsList` | crates/remote-merge-core/src/scan/start_take.rs:10-94 | the starts in order list exactly their own entries and subtrees as their answers say; a start that was neither reached nor missing, or a symlink without an answer, does not get by, except above an excluded start |
| `ScanComplete.FinishSorts` | crates/remote-merge-core/src/scan/walk.rs:47-59 | the listing holds the entries and reported names of the walk, each as often, in order |
| `ScanStops.ChainHolds` | crates/remote-merge-core/src/scan/walk.rs:71-149 | above a link are the directories above the subtree it was found in, the start of the subtree, and its directories the link lies below |
| `ScanStops.CycleExactlyWhenMet` | crates/remote-merge-core/src/scan/walk.rs:71-149 | a scan that ends reports a cycle only where a subtree it took begins at, or holds in a place that is not excluded, a directory that is above that subtree, and unless it is truncated it reports one if there is such a place |
| `ScanStops.TruncatedExactlyWhenTooMany` | crates/remote-merge-core/src/scan/walk_leaf.rs:21-68 | a group counts exactly what is no directory and not excluded in what was taken for it, and without a cycle a scan that ends is truncated if and only if that is more than the limit for some group |
| `ScanStops.FailsOnlyForAReason` | crates/remote-merge-core/src/scan/drive.rs:11-110 | a scan that fails has a reason in what the collector answered and fails with it: a refused batch, a root_dir that cannot be scanned, a start or link without a usable answer, or an item that counts and was not read or changed |
| `StateTable.MakeTable` | crates/remote-merge-core/src/compare/table.rs:28-83 | the two passes give, for each listed path and scanned side, what the listing said last, or absent if a complete listing said nothing, or not collected |
| `StateTable.EntryIsTold` | crates/remote-merge-core/src/compare/table.rs:28-64 | a listed entry is told with its kind, size, time, link and permissions, and nothing is told of one below a link that leads outside root_dir, which was not collected |
| `StateTable.UnreadableIsTold` | crates/remote-merge-core/src/compare/table.rs:28-64 | a name that is not UTF-8 is told as unreadable |
| `StateTable.SideIsInExactlyOne` | crates/remote-merge-core/src/compare/table.rs:66-80 | each scanned side of a path is in exactly one of states and not_collected, and is absent if and only if a complete listing does not list it |
| `StateTable.JudgedExactlyWhenCollected` | crates/remote-merge-core/src/compare/pairs.rs:52-81 | a pair is judged if and only if both its sides have a state |
| `StateTable.AbsenceRestsOnCompleteListings` | crates/remote-merge-core/src/compare/pairs.rs:52-81 | from listings to settled verdicts, a side is said to be absent only by a complete listing that does not list the path |
| `Compare.WhatJudgementsMean` | crates/remote-merge-core/src/compare/judge.rs:9-84 | two states are judged one-sided, absent, of different kinds, undecidable, the same, different or by content exactly in these cases, with the reason and the sides that leave them undecided; contents decide two files whose sizes are not known to differ and whose times do not make them the same |
| `Compare.SameTimeExactly` | crates/remote-merge-core/src/compare/judge.rs:103-110 | whole seconds never decide, and nanoseconds, microseconds and milliseconds decide by being equal in the coarser of the two |
| `Compare.FollowedExactly` | crates/remote-merge-core/src/compare/pairs.rs:52-81 | what two links lead to is judged if and only if it is asked for and neither link leaves root_dir, and then exactly by where they lead |
| `Compare.JudgingIsSymmetric` | crates/remote-merge-core/src/compare/judge.rs:9-64 | exchanging the sides exchanges them in the judgement and changes nothing else |
| `Compare.LessPreciseIsStillSame` | crates/remote-merge-core/src/compare/judge.rs:103-110 | times that are the same stay the same when one is known less precisely, down to a tenth of a second |
| `Compare.ReadOutcomeOf` | crates/remote-merge-core/src/compare/contents.rs:54-69 | the loop returns the first failure that stops, or all failures, or that everything was read |
| `Compare.HashesDecide` | crates/remote-merge-core/src/compare/contents.rs:72-91 | hashes decide by being equal once both are there, and a stopping failure of either side stops |
| `Compare.CombiningIsSymmetric` | crates/remote-merge-core/src/compare/method.rs:47-66 | when a pair of links is the same, different or undecided, from the links and from what they lead to, and combining does not tell the sides apart |
| `Compare.SettlingIsSymmetric` | crates/remote-merge-core/src/compare/settle.rs:78-115 | exchanging the sides of a pair exchanges them in its settled verdict and changes nothing else |
| `Compare.HashRoles` | crates/remote-merge-core/src/compare/pairs.rs:84-93 | the sides of the pairs that ask for contents |
| `Compare.OnlyAskedHashesMatter` | crates/remote-merge-core/src/compare/settle.rs:24-33 | settling depends on no hash but those of the sides asked for |
| `Compare.AskedHashesSuffice` | crates/remote-merge-core/src/compare/settle.rs:24-127 | settling stops if and only if one of the sides asked for has no answer or one that stops, and then it names such a side and its failure |
| `Compare.LosingBeforeOrAfter` | crates/remote-merge-core/src/compare/settle.rs:36-76 | losing a side while settling is settling first and losing it afterwards |
| `Compare.LostHashIsNotUsed` | crates/remote-merge-core/src/compare/settle.rs:36-54 | the hash of the lost side is not used |
| `Compare.ReadsAreApplied` | crates/remote-merge-core/src/compare/settle.rs:131-154 | applying read failures stops if and only if a side of a pair failed in a way that stops, and otherwise leaves exactly the pairs with a failed side undecided, keeping an earlier reason |
| `Parents.MissingParents` | crates/remote-merge-core/src/machine_ops/parents.rs:11-24 | the parents not seen, from below up to the first that is, top first |
| `Parents.CreateParents` | crates/remote-merge-core/src/machine_ops/parents.rs:37-76 | only directories whose mkdir succeeded in this call are reported or removed again, deepest first; without interference a success made exactly the parents that were missing, and a failure leaves the file system as it was and follows from it: root_dir is no directory, something above the path is no directory, a permission is missing for a part that was not there, or the system refused |
| `Parents.UndoParents` | crates/remote-merge-core/src/machine_ops/parents.rs:107-128 | removes the directories from the last to the first; without interference nothing is left, and otherwise the failure names what was |
| `Parents.ParentFailure` | crates/remote-merge-core/src/machine_ops/parents.rs:92-104 | the failure is that an element is not a directory exactly when something at or above the directory exists and is none |
| `Parents.LastCanGo` | crates/remote-merge-core/src/machine_ops/parents.rs:107-138 | the last directory made is empty and can be removed, which leaves the directories made before it |
| `OpenForWrite.Open` | crates/remote-merge-core/src/machine_ops/open.rs:33-64 | a failed open removes what this call made and without interference leaves the file system as it was, with a failure that follows from it; a success left the existing file as it was, or made exactly the missing parents and the file |
| `LoginShell.WrapForLoginShell` | crates/remote-merge-ssh/src/login_shell.rs:10-25 | the loop closes, escapes and reopens the quotes at each quote and backslash |
| `LoginShell.ReadScript` | crates/remote-merge-ssh/src/login_shell.rs:4-25 | inside the quotes both shells read the protected script back |
| `LoginShell.BothShellsReadTheScript` | crates/remote-merge-ssh/src/login_shell.rs:4-25 | for every script, a POSIX shell and fish read the command as the three words sh, -c and the unchanged script |

## Left out

- The diff algorithm, glob matching, the decoders and the calendar are parameters. Of the diff it is taken that its lines project to the old and the new lines and that deletions come before insertions in each run; of the calendar, that a time that was written is read back; of writing unreadable names, that it works on each element of a path by itself.
- BackupStore.StepKeepsInv: the clock counts whole seconds, which is exact for the expiry test because ids name whole seconds; a run makes its reservation within a day of reading the clock, and the clock does not go back.
- BackupStore.RecordLostOnlyToExpiry: removing an area with all its records is one step, and so is writing one; the temporary entry of a save is only "pending", and a record that replaces one of the same name is the same record.
- Listing sessions, reading records back, fixed reservation times and the descriptions of targets: file formats and reading, with no decision of the protocol.
- SessionId.LastSequence: names that are not UTF-8 are not among the existing names, as in the code.
- The listing of direct children (`scan/children.rs`): one question and no rounds; it would only add an easy case of the walk.
- ScanChains.NestingIsBounded: needs a collector that reports relative paths and no directory twice along one path, which a file system without changes gives; the limit of `ScanRun.ScanEnds` needs nothing.
- Sizes, times and permissions of entries are carried but their width (64-bit and 32-bit) is not modelled; nothing computes with them except the comparison of times.
- Parents.CreateParents: paths are spelled below root_dir, so a directory reached by two spellings through symlinks counts as two; what lies above root_dir is taken to be searchable.
- OpenForWrite.Open: the contents of the opened file are not modelled, only that it exists; the callback between checking and opening is one of the interferences before every operation.
- LoginShell.BothShellsReadTheScript: of a shell's grammar only words, single quotes and backslashes are modelled; a command that uses anything else is read as no words at all, and the wrapped command uses nothing else.
- HunkMerge.MergePrepared: the reasons of invalid merges are texts of the model's own, not the wording of the program.
- Choosing the comparison method from the command line, checking again right before a change, and the starts of a comparison: single tables of cases.
- The agent, SSH connections, configuration, prompts and output formats: I/O and wording.
