# folderclone reconciler, modelled in Dafny

folderclone makes one directory tree a copy of another. `sync_directories`
resolves two paths and refuses unless both are directories, checking the
source first. `_sync_recursive` then reconciles the two trees one level at a time:

- it takes a `filecmp.dircmp` snapshot of both levels;
- it copies the names only the source has, whole subtrees included;
- it overwrites common files whose contents differ, using `_files_are_equal`
  (a size check, then 8192-byte chunks);
- it deletes the names only the destination has;
- it then descends into the directories both sides have.

Each action prints one line; a common file that compares equal prints
nothing. In a dry run that line says "Would …" and nothing is changed. A real
run also prints a fixed phrase and a banner after each action line.

The model works on immutable values:

- a tree is a `Node`, either `File(bytes)` or `Dir(children)`, with children
  keyed by name;
- a run returns the new destination tree plus the list of `Action`s it
  emitted;
- an action records its kind, the entry's path below both roots, and the mode.

The four passes of one level run in the order `_sync_recursive` runs them. Each pass
reads the destination as the passes before it left it. The model takes the
dircmp snapshot once per level, before the first pass. dircmp itself builds
its lists lazily: the left_only, right_only and common lists on first use
(core.py line 31), and the split of the common names into files,
directories and mismatched names on first use of `common_files` (line 48),
after the left_only pass has run. The result is the same, because that pass
touches no common name. Names that are a file
on one side and a directory on the other (dircmp's `common_funny`) are never
visited: the code leaves them as they are. The code does not reclassify them
by the destination's type, and it does not treat them as a removal followed
by a copy. The model follows the code.

Modules, one file each:

| file | module | contents |
|---|---|---|
| tree.dfy | Tree | `Node`, `Option`, paths, small tree facts |
| names.dfy | Names | Python's string order and `Sorted`, the order dircmp lists names in |
| compare.dfy | Compare | `_files_are_equal`: chunked reads, a functional and a loop version |
| listing.dfy | Listing | the dircmp snapshot of one level |
| reconcile.dfy | Reconcile | the four passes, `_sync_recursive`, `sync_directories` |
| convergence.dfy | Convergence | a real run makes the destination equal to the source |
| dryrun.dfy | DryRun | a dry run changes nothing and reports exactly the real run's actions |
| idempotence.dfy | Idempotence | a second real run does nothing |
| entries.dfy | Entries | which actions a run emits at and below one name |
| order.dfy | Ordering | the order in which one level prints its lines |
| report.dfy | Report | the printed lines and refusal messages |

## Model

| member | source | states |
|---|---|---|
| Compare.Read | src/folderclone/core.py:85-88 | a read at a position returns the next bytes of the file, at most 8192 of them, and fewer only at end of file |
| Compare.ChunksMatch | src/folderclone/core.py:84-93 | once the prefixes read so far are equal, comparing chunk by chunk to the end answers true exactly when the two byte sequences are equal |
| Compare.SameContents | src/folderclone/core.py:79-93 | the size check followed by the chunked comparison is true exactly when the two files hold the same bytes; different sizes answer false |
| Compare.FilesAreEqual | src/folderclone/core.py:79-93 | the loop over 8192-byte chunks returns true exactly when the two files hold the same bytes; it keeps the invariant that the bytes compared so far match and stops at end of file |
| Names.Least | src/folderclone/core.py:28 | the least name of a non-empty set in Python's string order is in the set and sorts before or with every other member |
| Names.Sorted | src/folderclone/core.py:28 | a dircmp listing holds exactly the names of the set, each once, in ascending code-point order |
| Listing.Classify | src/folderclone/core.py:28 | the snapshot splits the names that are not ignored into left_only, right_only, common_files (files on both sides), common_dirs (directories on both sides) and common_funny (type differs); each list holds exactly those names, sorted, each once |
| Reconcile.CopyNew | src/folderclone/core.py:31-45 | the left_only pass emits one action per listed name, in listing order, at that name's path: CopyDir for a source directory and CopyFile otherwise; a real run adds the source entries, whole subtrees included, and a dry run changes nothing |
| Reconcile.Differing | src/folderclone/core.py:48-51 | the common files whose two entries differ: a name is listed exactly when its contents differ, and at most once |
| Reconcile.DifferingInOrder | src/folderclone/core.py:48-51 | from a sorted listing the differing names come out sorted, so the Update actions follow dircmp's order |
| Reconcile.UpdateChanged | src/folderclone/core.py:47-56 | the common_files pass emits one Update, in listing order, for exactly the names whose contents differ; a real run replaces their destination entries with the source entries and a dry run changes nothing |
| Reconcile.RemoveStale | src/folderclone/core.py:58-72 | the right_only pass emits one action per listed name: RemoveDir when the destination entry is a directory and RemoveFile otherwise; a real run deletes the names and a dry run changes nothing |
| Reconcile.RecurseCommon | src/folderclone/core.py:74-76 | the common_dirs pass keeps the destination's set of names, changes nothing in a dry run, and emits only actions strictly below this level and in this run's mode |
| Reconcile.SyncDir | src/folderclone/core.py:27-76 | one level and everything below it: the result is a directory; a dry run returns the destination unchanged; after a real run the destination lists exactly the source's names that are not ignored plus its own ignored names; every action lies below the level and carries the run's mode |
| Reconcile.NestedEntry | src/folderclone/core.py:74-76 | after the common_dirs pass, a listed name holds the reconciled subdirectory and any other name keeps its entry |
| Reconcile.LevelEffect | src/folderclone/core.py:31-76 | what a real run leaves at one name. A left-only or common file entry becomes the source entry. A common directory becomes the reconciled subdirectory. A right-only name is gone. An ignored or type-mismatched name keeps the destination's entry |
| Reconcile.SyncDirectories | src/folderclone/core.py:9-24 | the source is checked first and then the destination, each refusal naming its side; a run happens exactly when both are directories; a dry run returns the destination unchanged |
| Entries.EntryActions | src/folderclone/core.py:31-76 | the actions at or below one name are exactly: one CopyDir/CopyFile if only the source has it; one Update if both have it as files with different contents; one RemoveDir/RemoveFile, by the destination's type, if only the destination has it; the subdirectory's own actions if both have it as directories; nothing for ignored or type-mismatched names or equal files |
| Ordering.NestedOrdered | src/folderclone/core.py:74-76 | the common_dirs pass prints each subdirectory's lines together, the subdirectories one after another in listing order |
| Ordering.LevelOrder | src/folderclone/core.py:31-76 | one level prints all its copies, then its updates, then its removals, then the subdirectories' lines; within each pass the names follow dircmp's sorted order. With Entries.EntryActions this fixes the whole list of lines |
| Convergence.Converges | src/folderclone/core.py:27-76 | a real run leaves the destination tree equal to the source tree, provided no compared pair of directories holds an ignored name or a name whose type differs between the sides |
| Convergence.SyncDirectoriesConverges | src/folderclone/core.py:9-24 | the same at the entry point: two compatible directory trees are accepted and the destination becomes the source |
| Convergence.SkippedNameBlocksConvergence | src/folderclone/core.py:27-76 | the proviso is needed. If a name is a file on one side and a directory on the other, or an ignored name exists only in the destination, a real run leaves it there and the result differs from the source |
| DryRun.Mirrored | src/folderclone/core.py:35-72 | a dry run leaves the destination unchanged and emits, in the same order, the real run's actions with the same kinds and paths, marked as dry |
| DryRun.DryRunIsPure | src/folderclone/core.py:9-24 | at the entry point a dry run is refused exactly when the real run is, with the same error; otherwise it changes nothing and reports the real run's actions |
| Idempotence.SyncReachesInSync | src/folderclone/core.py:27-76 | after a real run, source and destination are in sync: they list the same names that are not ignored, common files are equal, and common directories are in sync |
| Idempotence.Settled | src/folderclone/core.py:31-76 | a pair already in sync is left alone: no action and the same destination, in either mode |
| Idempotence.Idempotent | src/folderclone/core.py:31-76 | a second run straight after a real run emits nothing and changes nothing, whatever the trees, including ignored and type-mismatched names |
| Idempotence.SyncDirectoriesIdempotent | src/folderclone/core.py:9-24 | the same at the entry point |
| Report.Render | src/folderclone/core.py:32-33 | an entry's path as printed starts with the resolved root it lies under and ends with "/" and the entry's own name |
| Report.RenderSingleSlashes | src/folderclone/core.py:32-33 | joining entry names onto a root never prints two "/" in a row, the root "/" included, as POSIX `pathlib` prints paths |
| Report.Describe | src/folderclone/core.py:35-72 | the printed line opens with the wording of its kind and mode, and starts with "Would " exactly in a dry run |
| Report.DescribeRecognized | src/folderclone/core.py:35-72 | the kind and mode of an action can be read back off its printed line, so no two kinds or modes share a wording |
| Report.DryRunTranscript | src/folderclone/core.py:35-72 | a dry run prints as many action lines as the real run, and line for line the same kind of action, in the "Would …" wording instead of the past tense |
| Report.Refusal | src/folderclone/core.py:19-22 | the refusal message starts with "Source path " exactly when the source was rejected, then names the rejected path as the caller gave it, and ends with " is not a directory." |
| Report.RefusalReadBack | src/folderclone/core.py:19-22 | the rejected side and the path can be read back off every refusal message |

## Left out

- Path resolution: `Path.resolve`, relative paths and symbolic links are not modelled. The caller supplies what each path resolves to, as an `Option<Node>`, and trees contain no links.
- File metadata: `shutil.copy2` and `copytree` also copy timestamps and permission bits. A `File` holds only its bytes.
- Operating-system failures are not modelled: permission errors, I/O errors, entries that vanish between listing and acting, and `stat` failures that make dircmp file a name under `common_funny`. The code does not handle any of them.
- `print_confirmation_message`: a real run prints a fixed phrase and an ASCII-art banner after each action line. The model renders only the action line (`Report.Describe`).
- The ignore list is a parameter. The code always uses dircmp's default list, `filecmp.DEFAULT_IGNORES` (RCS, CVS, tags, .git, .hg, .bzr, _darcs, __pycache__), which is not part of this model. Every result holds for any list, that one included.
- dircmp's `os.path.normcase` (case folding on case-insensitive platforms) is left out. So is its hide list (`.` and `..`), which never appears in a directory listing.
- Entries that are neither regular files nor directories (sockets, devices) are not modelled.
- The two roots are independent values. A destination nested inside the source, or the reverse, is not modelled.
- The source tree is an input value, so no step can modify it; there is nothing to state about that.
- `Reconcile.LevelEffect` describes a real run only. For a dry run, `Reconcile.SyncDir` states that the destination is returned unchanged.
- File names are strings of Unicode scalar values. Python hands dircmp names that are not valid UTF-8 as strings holding lone surrogates (the surrogateescape handler). Such names are not modelled.
- `Report.Render`: the contract states the root at the front and the entry's name at the end. The components in between are not stated one by one. Paths are printed as on POSIX, with "/" as the separator; Windows separators and drive roots such as "C:\" are not modelled.
- `Report.Describe`: the contract states the opening wording and mode of each line. The quoted paths after the opening are not stated in the contract; `Report.Render` states how each path begins and ends.
