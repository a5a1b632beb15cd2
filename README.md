# Directory helpers, modelled and proved in Dafny

This project models `directoryHelpers.py`, a small module of directory-tree
helpers, over an abstract host filesystem, and proves what the helpers
promise. The helpers are:
- an existence guard (`is_existing_directory`, `ensure_is_existing_directory`);
- shallow listings of a directory (`list_only_dirs`, `list_only_files`, `list_content`);
- recursive listings (`list_dirs_recursively`, `list_files_recursively`,
  `list_all_dir_content_recursively`);
- two bulk moves (`move_all_files`, `move_all_content`). Each bulk move creates a
  missing target with `mkdir(parents=True)` and takes a snapshot of the source:
  `move_all_files` of its immediate files, `move_all_content` of all its immediate
  children. It then renames each snapshot item to the same name under the target.

Files:
- `host_fs.dfy` (module `HostFs`) is the host filesystem as a value.
  - A path is a sequence of names; the empty path is the working directory, which always exists.
  - A filesystem is a sequence of `Entry(path, kind)`, with `Kind = Dir | File`
    (`is_dir()` is binary). The order of the entries is the order `iterdir` reports.
  - `WellFormed` says every entry hangs below an existing directory and no path appears twice.
  - Also here: `iterdir`, `mkdir(parents=True)` as `MakeDirs`, and `shutil.move` onto a
    missing destination as `Move`, a rename of a whole subtree.
- `relocation.dfy` (module `Relocation`) holds the closed form of renaming a snapshot of
  children one at a time (`MoveChildren`). It proves the loop step and that the renames
  keep the filesystem well formed.
- `directory_helpers.dfy` (module `DirectoryHelpers`) holds the helpers themselves.
  - The guard and the shallow listings are functions.
  - The recursive listings are recursive methods with the source's accumulator loops.
  - The bulk moves are methods of class `Disk`, whose `entries` field they update in place,
    each with a loop over the fixed snapshot. Each method is proved equal to a
    specification function (`MoveAllFilesResult`, `MoveAllContentResult`). Lemmas about
    those functions state what the moves do to the source and the target.
- `sample_tree.dfy` (module `SampleTree`) encodes the test suite's `polygon` tree.
  It proves every expectation of the test file against the model.

A note on the content move. One might expect `b`'s recursive content to grow by `a`'s
three immediate children. The code renames each child of `a` with its whole subtree, and
the test expects `2 + 4` entries under `b`: `3`, `4`, `c` and `c/5` are all four
descendants of `a`. `MoveAllContentCount` states that the target's descendants grow by
all of the source's descendants.

## Model

| member | source | states |
|---|---|---|
| DirectoryHelpers.IsExistingDirectory | directoryHelpers.py:5-6 | `exists() and is_dir()` on the model. The predicate carries no contract of its own: its meaning is stated by `ExistingDirectoryExactly` and `GuardFailsExactly` |
| DirectoryHelpers.ExistingDirectoryExactly | directoryHelpers.py:5-6 | on a well-formed filesystem a path is an existing directory exactly when it exists and is not a file |
| DirectoryHelpers.EnsureIsExistingDirectory | directoryHelpers.py:9-11 | the guard passes exactly for existing directories and otherwise fails with `NotADirectory` of that path |
| DirectoryHelpers.GuardFailsExactly | directoryHelpers.py:9-11 | the guard fails exactly for missing paths and for files, and passes exactly for directory entries and the working directory |
| DirectoryHelpers.ListOnlyDirs | directoryHelpers.py:14-16 | fails exactly when the guard fails; otherwise lists, without duplicates, exactly the immediate children that are directories |
| DirectoryHelpers.ListOnlyFiles | directoryHelpers.py:19-21 | fails exactly when the guard fails; otherwise lists, without duplicates, exactly the immediate children that are not directories |
| DirectoryHelpers.ListContent | directoryHelpers.py:24-26 | fails exactly when the guard fails; otherwise lists, without duplicates, exactly the existing immediate children |
| DirectoryHelpers.ShallowListingsPartition | directoryHelpers.py:14-26 | the two shallow listings are disjoint; `list_content` is a permutation of `iterdir`, and its length is the sum of theirs |
| DirectoryHelpers.SelectSplits | directoryHelpers.py:16-21 | the directory filter and the non-directory filter split any listing as a multiset |
| DirectoryHelpers.LeafDirectoryListsNothing | directoryHelpers.py:14-26 | a directory without children lists nothing, shallowly or recursively |
| DirectoryHelpers.NoSubdirectoriesNoDirs | directoryHelpers.py:29-38 | a directory whose children are all files, or that has none, has no directory below it; by the contract of `ListDirsRecursively` its recursive directory listing is then empty |
| DirectoryHelpers.ListDirsRecursively | directoryHelpers.py:29-38 | fails exactly when the guard fails; otherwise returns, without duplicates and never the directory itself, exactly its strict descendant directories |
| DirectoryHelpers.DirsStep | directoryHelpers.py:33-36 | appending a child directory and its recursive listing extends the found directories by exactly that child's subtree, still without duplicates |
| DirectoryHelpers.ListFilesRecursively | directoryHelpers.py:41-50 | fails exactly when the guard fails; otherwise returns, without duplicates, exactly the files anywhere in the subtree |
| DirectoryHelpers.FilesStep | directoryHelpers.py:47-48 | appending one child directory's recursive file listing extends the found files by exactly that subtree's files, still without duplicates |
| DirectoryHelpers.ListAllDirContentRecursively | directoryHelpers.py:53-56 | fails exactly when the guard fails; otherwise returns, without duplicates and without the directory itself, exactly its strict descendants, as many as its files plus its directories |
| DirectoryHelpers.ChildOnTheWay | directoryHelpers.py:33-36 | every strict descendant lies below, or is, an immediate child reported by `iterdir`, so the depth-first walk reaches it |
| DirectoryHelpers.PrepareTarget | directoryHelpers.py:62-63 | the target step succeeds exactly when the target is an existing directory or can be created; it then adds only the missing prefixes of the target, as directories |
| DirectoryHelpers.MoveAllFilesResult | directoryHelpers.py:59-67 | the specification of a files move. It fails with `NotADirectory` exactly when the source is not an existing directory, and with an I/O error exactly when the source is one and the target cannot be created. It models the program only where `FilesCanMove` holds (see "Left out") |
| DirectoryHelpers.MoveAllContentResult | directoryHelpers.py:70-77 | the specification of a content move: the same two failures, in the same cases. It models the program only where `ContentCanMove` holds (see "Left out") |
| DirectoryHelpers.MoveOntoItself | directoryHelpers.py:59-77 | moving files or content of a directory onto itself succeeds and changes nothing |
| DirectoryHelpers.MoveAllFilesEffect | directoryHelpers.py:59-67 | a files move succeeds, keeps the filesystem well formed, and leaves the target an existing directory. Each entry goes to its destination: a file child of the source to the same name under the target, everything else stays. Nothing else appears except the created target prefixes |
| DirectoryHelpers.MoveAllContentEffect | directoryHelpers.py:70-77 | a content move succeeds and keeps well-formedness. Every strict descendant of the source is re-rooted under the target with the same relative path; nothing else changes except the created target prefixes |
| DirectoryHelpers.FilesRelocation | directoryHelpers.py:65-67 | renaming the files snapshot one by one moves exactly the file children of the source, entry by entry |
| DirectoryHelpers.ContentRelocation | directoryHelpers.py:75-77 | renaming the content snapshot one by one moves exactly the strict descendants of the source, entry by entry |
| DirectoryHelpers.FilesSnapshotSafe | directoryHelpers.py:62-66 | after the target step, every item of the files snapshot can be renamed without collision |
| DirectoryHelpers.ContentSnapshotSafe | directoryHelpers.py:72-76 | after the target step, every item of the content snapshot can be renamed without collision or self-nesting |
| DirectoryHelpers.FileOrigin | directoryHelpers.py:59-67 | every entry after a files move is the destination of an entry before it, or a created prefix of the target |
| DirectoryHelpers.ContentOrigin | directoryHelpers.py:70-77 | every entry after a content move is the destination of an entry before it, or a created prefix of the target |
| DirectoryHelpers.MoveAllFilesEmptiesSource | directoryHelpers.py:59-67 | for a different target, the source is still an existing directory afterwards and lists no files |
| DirectoryHelpers.FilesReachTarget | directoryHelpers.py:65-67 | afterwards the target's files are its former files plus the source's former files re-rooted under it |
| DirectoryHelpers.MoveAllFilesCount | directoryHelpers.py:59-67 | afterwards the target lists as many files as it had plus as many as the source listed |
| DirectoryHelpers.MovedFileListed | directoryHelpers.py:65-67 | each file `s/n` of the source is listed as `t/n` in the target afterwards |
| DirectoryHelpers.UnmovedFileListed | directoryHelpers.py:65-67 | each file of a directory other than the source is still listed there afterwards |
| DirectoryHelpers.MoveAllFilesSubtree | directoryHelpers.py:59-67 | for a target not inside the source, the files below the source afterwards are exactly its former deeper files: subdirectories and their files are untouched |
| DirectoryHelpers.MoveAllFilesIntermediate | directoryHelpers.py:62-63 | the directories created on the way to a missing target exist afterwards and hold no files |
| DirectoryHelpers.ReRootedIsNew | directoryHelpers.py:75-77 | no descendant of the source has its re-rooted counterpart under the target before the move |
| DirectoryHelpers.ContentReachesTarget | directoryHelpers.py:75-77 | for source and target not inside one another, the target's descendants afterwards are its former ones plus the source's re-rooted ones |
| DirectoryHelpers.MovedContentListed | directoryHelpers.py:70-77 | each former descendant `s/rest` is a descendant `t/rest` of the target afterwards |
| DirectoryHelpers.UnmovedContentListed | directoryHelpers.py:70-77 | for source and target not inside one another, each former descendant of the target remains one |
| DirectoryHelpers.MoveAllContentEmptiesSource | directoryHelpers.py:70-77 | for a different target, the source is an existing directory afterwards with nothing inside |
| DirectoryHelpers.MoveAllContentCount | directoryHelpers.py:70-77 | for source and target not inside one another, the target's descendant count grows by the source's descendant count |
| DirectoryHelpers.ListingCount | directoryHelpers.py:14-21 | the shallow listings have as many elements as the directory has children of that kind |
| DirectoryHelpers.ReRootCount | directoryHelpers.py:75-77 | re-rooting a set of paths under another directory keeps its size |
| DirectoryHelpers.Disk.MoveEach | directoryHelpers.py:66-67 | the snapshot loop of `shutil.move` calls leaves the filesystem equal to renaming every snapshot item |
| DirectoryHelpers.Disk.MoveAllFiles | directoryHelpers.py:59-67 | the in-place files move keeps the filesystem well formed. It ends in the state and outcome of `MoveAllFilesResult`, and a failure changes nothing |
| DirectoryHelpers.Disk.MoveAllContent | directoryHelpers.py:70-77 | the in-place content move keeps the filesystem well formed. It ends in the state and outcome of `MoveAllContentResult`, and a failure changes nothing |
| HostFs.Move | directoryHelpers.py:67 | one `shutil.move` onto a missing destination: a rename that re-roots the source together with its whole subtree, keeping every entry's kind and position. `Relocation.MoveStep` and `Disk.MoveEach` tie its repeated use in the loops at lines 66-67 and 76-77 to `MoveChildren` |
| HostFs.IterDir | directoryHelpers.py:16 | `iterdir` reports exactly the existing immediate children, each once |
| HostFs.KindIsUnique | directoryHelpers.py:16-21 | no path is both a directory and a file |
| HostFs.PrefixIsDir | directoryHelpers.py:29-38 | every proper prefix of an existing path is an existing directory |
| HostFs.NothingBelowFile | directoryHelpers.py:47-48 | nothing exists below a file |
| HostFs.MakeParentsSpec | directoryHelpers.py:63 | `mkdir(parents=True)` adds exactly the missing prefixes of the target, as directories, and keeps the filesystem well formed |
| HostFs.MakeDirs | directoryHelpers.py:63 | `mkdir(parents=True)` without `exist_ok` succeeds exactly when the target is missing and no component of it is a file |
| Relocation.RelocateStep | directoryHelpers.py:66-67 | one more `shutil.move` of a snapshot child extends the renamed children by that child |
| Relocation.MoveStep | directoryHelpers.py:66-67 | the loop step on the whole filesystem: renaming the next child is `MoveChildren` over one more item |
| Relocation.RelocateOntoSelf | directoryHelpers.py:66-67 | renaming onto the same directory changes no path |
| Relocation.MoveChildrenWellFormed | directoryHelpers.py:66-67 | renaming every item of a safe snapshot keeps the filesystem well formed |
| Relocation.SafeSnapshotSteps | directoryHelpers.py:65-67 | under a safe snapshot no destination lies on the way to the source |
| SampleTree.PolygonIsPolygon | test/testDirectoryHelpers.py:10-53 | the sample tree is a well-formed filesystem with exactly the test's five directories and six files |
| SampleTree.GuardOnPolygon | test/testDirectoryHelpers.py:59-71 | the guard passes for the root and fails with `NotADirectory` for a file and for a missing path |
| SampleTree.DirsOfRoot | test/testDirectoryHelpers.py:73-78 | the root lists the two directories `a` and `b` |
| SampleTree.DirsOfA | test/testDirectoryHelpers.py:79-81 | `a` lists the one directory `c` |
| SampleTree.DirsOfC | test/testDirectoryHelpers.py:83-86 | `c` lists no directories, and listing the directories of a file fails |
| SampleTree.FilesOfRoot | test/testDirectoryHelpers.py:89-92 | the root lists the two files `1` and `2` |
| SampleTree.FilesOfA | test/testDirectoryHelpers.py:94-97 | `a` lists the two files `3` and `4` |
| SampleTree.FilesOfB | test/testDirectoryHelpers.py:103-105 | `b` lists the one file `6` |
| SampleTree.FilesOfLeaves | test/testDirectoryHelpers.py:99-108 | `c` lists the one file `5`, `d` lists none |
| SampleTree.FilesOfNonDirectories | test/testDirectoryHelpers.py:110-111 | listing the files of a missing path or of a file fails |
| SampleTree.ContentOfRoot | test/testDirectoryHelpers.py:114-119 | the root's content has four entries: `1`, `2`, `a`, `b` |
| SampleTree.ContentOfA | test/testDirectoryHelpers.py:121-125 | `a`'s content has three entries: `3`, `4`, `c` |
| SampleTree.ContentOfLeaves | test/testDirectoryHelpers.py:127-132 | `c`'s content is `5` alone, `d`'s content is empty |
| SampleTree.ContentOfNonDirectories | test/testDirectoryHelpers.py:134-135 | listing the content of a missing path or of a file fails |
| SampleTree.DirsRecursivelyOnPolygon | test/testDirectoryHelpers.py:137-152 | recursively the root holds the four directories, `a` one, `d` none, and a file fails |
| SampleTree.FilesRecursivelyOnPolygon | test/testDirectoryHelpers.py:154-168 | recursively the root holds all six files, `c` one, `d` none; a missing path and a file fail |
| SampleTree.ContentRecursivelyOfRoot | test/testDirectoryHelpers.py:170-178 | the root's recursive content is its ten strict descendants |
| SampleTree.ContentRecursivelyBelowRoot | test/testDirectoryHelpers.py:180-193 | `b` holds `d` and `6`, `c` holds `5`, `d` holds nothing; a missing path and a file fail |
| SampleTree.MoveAllFilesIntoSubdirectory | test/testDirectoryHelpers.py:195-205 | after moving the root's files into `b/d`, the root lists no files and `d` lists `d/1` and `d/2` |
| SampleTree.MoveAllFilesIntoParent | test/testDirectoryHelpers.py:207-219 | after moving `a`'s files into the root, `a` holds only `c/5` below it and the root lists four files `1`, `2`, `3`, `4` |
| SampleTree.MoveAllFilesIntoNewDirectory | test/testDirectoryHelpers.py:221-237 | moving into the missing `asdf/ghi` creates it. Afterwards the root and `asdf` list no files, and the target lists `1` and `2` |
| SampleTree.MoveAllFilesFromEmptyDirectory | test/testDirectoryHelpers.py:239-249 | moving the files of the empty `d` into the root leaves the root with `1` and `2` and `d` with none |
| SampleTree.MoveAllFilesOntoItself | test/testDirectoryHelpers.py:251-259 | moving the root's files onto the root leaves it listing `1` and `2` |
| SampleTree.MoveAllContentToSibling | test/testDirectoryHelpers.py:261-275 | after moving `a`'s content into `b`, `a` holds nothing. `b` holds `2 + 4` entries: `6`, `d`, `3`, `4`, `c` and `c/5` |
| SampleTree.MoveContentAToBCount | test/testDirectoryHelpers.py:264-268 | on the specification function, `b`'s descendants number `2 + 4` after the content move |

## Left out

- Each location has one spelling: no `..`, `.` or empty component, and every path is relative to one working directory. How the OS resolves other spellings (for example `polygon/..` naming the working directory) is not modelled; the model treats such a component as an ordinary name.
- The order of `iterdir` is unspecified. The model fixes it as entry order and states listings by membership, duplicates and counts, never by position.
- The text of the `NotADirectoryError` message is not modelled; the error carries the offending path.
- The exception type of a failing `mkdir` becomes the one `IoError` outcome.
- Symlinks, permissions, devices, cross-device moves and partial failure of `shutil.move` are host behaviour and are not modelled. Every non-directory counts as a file, as `is_dir()` makes it.
- Concurrent changes to the filesystem between the guard and its use are out of scope, because the module is single-threaded.
- DirectoryHelpers.Disk.MoveAllFiles: requires that no destination `t/name` of a moved file exists (`FilesCanMove`). The module does not handle such collisions, and `shutil.move` into an existing path has semantics it leaves open.
- DirectoryHelpers.Disk.MoveAllContent: requires that no destination exists and that the target does not lie strictly inside the source (`ContentCanMove`). The latter would move a directory into itself, which the module does not handle.
- DirectoryHelpers.MoveAllFilesResult: outside `FilesCanMove` (a destination `t/name` of a moved file already exists), its value is not the program's outcome. It is `Ok` with a renamed entry beside the existing one, which need not be well formed. The program instead replaces an existing file, or raises `shutil.Error` when the destination is a directory that already holds that name. Collisions are not modelled; every lemma about the move assumes `FilesCanMove`, as `Disk.MoveAllFiles` requires.
- DirectoryHelpers.MoveAllContentResult: outside `ContentCanMove` (a destination already exists, or the target lies strictly inside the source), its value is not the program's outcome either. For a target inside the source, `shutil.move` raises "Cannot move a directory into itself", while the function returns an `Ok` state that need not be well formed. Every lemma about the move assumes `ContentCanMove`, as `Disk.MoveAllContent` requires.
- MoveAllContentCount: stated only for a source and target that are not inside one another, where the sizes simply add.
- ContentReachesTarget: stated only for a source and target that are not inside one another, where the sizes simply add.
- UnmovedContentListed: stated only for a source and target that are not inside one another.
- MoveAllFilesSubtree: stated only for a target outside the source. A target inside the source receives files the subtree then holds.
- The test harness's set-up and tear-down (`mkdir`, `touch`, `rmtree`) are not modelled; the sample tree is given as a value.
