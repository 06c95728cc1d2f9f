# folder_sync in Dafny

A model of `folder_sync`, a one-way folder mirroring daemon. The daemon compares a source
folder with a destination folder and copies the files only in the source. It removes
the files only in the destination. It overwrites the common files that `filecmp` reports
as different, and after each copy it checks the copy by comparing SHA-256 digests. It
then polls at a fixed interval and runs the sync again whenever the comparison finds a
difference.

The model works on flat directories. A directory is a finite map from top-level file
name to file content (`FileTypes.Directory`), and the filesystem is the pair
(source, destination), held by the class `Synchronizer.FileSystem`.

- `file_types.dfy`: bytes, names, directories and the log events (`Copied`, `Removed`,
  `Updated`, `CopyValidationFailed`).
- `comparator.dfy`: the three name sets of `filecmp.dircmp` (`left_only`, `right_only`,
  `diff_files`) and `is_folder_changed`. The file-equality test is a parameter
  `same: (Bytes, Bytes) -> bool`.
- `verifier.dfy`: `get_file_hash`, a loop that reads 4096-byte chunks until the empty
  read, and `validate_file_copy`. SHA-256 is a parameter `hash: Bytes -> Digest`. The
  streaming hasher is modelled by the bytes it has been fed.
- `synchronizer.dfy`: the specification function `Synced` with the convergence,
  mirroring and idempotence lemmas. It also holds the `FileSystem` class, whose
  `SyncFolders` runs the copy, removal and update loops on the destination map, plus
  one poll tick and the start of `synchronize_folders`.
- `paths.dfy`: `validate_folder_path`, `validate_log_file` with POSIX
  `os.path.dirname`, and the log-directory bootstrap of the entry point.

Two properties depend on the equality test. Convergence (the comparison is empty right
after a sync) needs the test to call a file equal to itself (`Reflexive`). `shutil.copy2`
copies content and timestamps, so a stat-based test sees a copy as equal to its original.
"The destination equals the source" holds only when the test is also `Sound`, meaning it
calls only identical files equal. `filecmp`'s stat-based test is not sound: a common file
whose size and modification time match is never updated, whatever its bytes. The model
keeps that behaviour (`SyncedOutcome`, last clause).

## Model

| member | source | states |
|---|---|---|
| `Comparator.Compare` | main.py:28-31 | `left_only`, `right_only` and `diff_files` are pairwise disjoint; `left_only` lies within the source names, `right_only` within the destination names, `diff_files` within the common names |
| `Synchronizer.Synced` | main.py:27-50 | the destination one sync leaves: copy `left_only`, remove `right_only`, overwrite `diff_files`, all from one comparison made up front; it holds exactly the source's names |
| `Comparator.ComparePartition` | main.py:28-31 | a name is in `left_only` iff it is only in the source, in `right_only` iff only in the destination, in `diff_files` iff common and the test says the files differ; every other name of either side is common with files the test calls equal |
| `Comparator.IsFolderChanged` | main.py:53-55 | `is_folder_changed` is true exactly when the directories are not in sync: they hold different names, or some common file is called different |
| `Verifier.Read` | main.py:81 | `file.read(4096)` at a position: the next at most 4096 bytes of the file, empty exactly at the end, and short only when it reaches the end |
| `Verifier.Chunks` | main.py:81 | the chunks `iter(lambda: file.read(4096), b'')` yields, in order: each is non-empty and at most 4096 bytes |
| `Verifier.ChunksCoverFile` | main.py:79-82 | the chunks `iter(lambda: file.read(4096), b'')` yields concatenate to the file; each is non-empty and at most 4096 bytes; all but the last are full; there are ceil(size / 4096) of them |
| `Verifier.GetFileHash` | main.py:78-83 | the chunk loop stops on the empty read; it feeds the hasher exactly `Chunks(data)`, which together make the whole file in order; the digest is the hash of the whole file |
| `Verifier.ValidateFileCopy` | main.py:71-75 | warns iff the digests of the two files differ; a faithful copy never warns |
| `Synchronizer.SyncedOutcome` | main.py:27-50 | after a sync the destination holds exactly the source's names; names only in the source, and differing names, carry the source's content; names only in the destination are gone; common names the test calls equal keep the destination's content |
| `Synchronizer.SyncConverges` | main.py:27-55 | with a reflexive test, right after a sync the directories are in sync, the comparison is empty and `is_folder_changed` is false |
| `Synchronizer.SyncMirrors` | main.py:27-50 | with a test that calls only identical files equal, the destination after a sync equals the source |
| `Synchronizer.SyncUnchangedWhenInSync` | main.py:53-55 | when `is_folder_changed` is false, a sync would leave the destination as it is |
| `Synchronizer.SyncNoOpIffInSync` | main.py:27-55 | with a reflexive test, a sync changes nothing iff `is_folder_changed` is false |
| `Synchronizer.SyncIdempotent` | main.py:27-50 | with a reflexive test, a second sync right after the first leaves the destination unchanged |
| `Synchronizer.FileSystem.CopyFile` | main.py:36 | `shutil.copy2` sets the destination entry to the source file and touches nothing else |
| `Synchronizer.FileSystem.RemoveFile` | main.py:42 | `os.remove` deletes exactly one destination entry |
| `Synchronizer.FileSystem.CopyValidated` | main.py:34-38 | one copy-loop iteration: copy, one log line, then validation; the validation warning never appears |
| `Synchronizer.FileSystem.CopyEach` | main.py:33-38 | the copy loop (and the update loop at lines 45-50): every name of the set takes the source's content; the log names exactly that set under one action, one line per name, and has no warning line |
| `Synchronizer.FileSystem.RemoveEach` | main.py:40-43 | the removal loop: every name of the set leaves the destination and nothing else changes; the log names exactly that set, one line per name |
| `Synchronizer.FileSystem.SyncFolders` | main.py:27-50 | the source is untouched; the destination becomes `Synced` of the old state; the log reports `left_only` as copied, `right_only` as removed, `diff_files` as updated, one line per file operation, with no validation warning |
| `Synchronizer.FileSystem.PollTick` | main.py:21-24 | a tick syncs iff `is_folder_changed`; either way the destination becomes `Synced` of the state the tick found; a tick that does not sync logs nothing |
| `Synchronizer.FileSystem.SynchronizeFolders` | main.py:19-24 | initial sync, then one tick after either directory may have changed during the sleep; the tick compares both afresh and ends in `Synced` of what it found; with a reflexive test the directories end in sync, and when neither directory changed the tick does not sync and leaves the destination as it was |
| `Paths.Dirname` | main.py:65 | POSIX `os.path.dirname`: everything up to the last `/`, trailing `/` stripped unless only `/` remain; the result is a prefix of the path |
| `Paths.DirnameShape` | main.py:65 | `os.path.dirname` gives a prefix of the path; it is empty iff the path has no `/`; it ends in `/` only when it is the root |
| `Paths.DirnameOfJoin` | main.py:65 | the parent of `dir/file` is `dir` (for a file name with no `/` and a directory path not ending in `/`), so `logs/sync.log` gives `logs` |
| `Paths.DirnameOfRootEntry` | main.py:65 | the parent of `/file` is the root `/` |
| `Paths.ValidateFolderPath` | main.py:58-61 | accepts exactly the paths of existing directories, returning them unchanged; otherwise raises with `Invalid folder path: <path>` |
| `Paths.ValidateLogFile` | main.py:64-68 | accepts a log path iff it has no `/` or its `dirname` is an existing directory; otherwise raises with `Invalid log file path: <path>` |
| `Paths.MakeDirs` | main.py:99 | `os.makedirs(path, exist_ok=True)`: fails exactly on the empty path; otherwise the path is a directory afterwards |
| `Paths.BootstrapLogDirAsWritten` | main.py:99 | the bootstrap as written, `os.makedirs(os.path.dirname(log_file))`: succeeds exactly when the log path contains a `/`, and then adds its parent to the directories |
| `Paths.BootstrapRejectsBareName` | main.py:99 | as written, the bootstrap raises for every log path with no `/`, although `validate_log_file` accepts every such path |
| `Paths.BootstrapLogDir` | main.py:99-100 | corrected bootstrap: always succeeds, keeps every existing directory, and afterwards `validate_log_file` accepts the log path |

## Left out

- Logging configuration and the message text (main.py:12-17, 37, 43, 49, 75). Each log line is an `Event` naming an action and a file name.
- `time.sleep` and the endless `while True` (main.py:21-22). `SynchronizeFolders` runs the initial sync and one tick. The sleep is where the outside world may replace the source, the destination or both.
- SHA-256 internals (main.py:80-83). The hash is an uninterpreted parameter. `ValidateFileCopy` can therefore miss a corrupt copy whose digest collides, exactly as the original can.
- `filecmp`'s stat-based shallow comparison. The test is the parameter `same`, and the results that rely on it state what they need from it (`Reflexive`, `Sound`).
- `dircmp`'s default ignore list (`RCS`, `CVS`, `tags`, `.git`, `.hg`, `.bzr`, `_darcs`, `__pycache__`) and its hidden `.`/`..`. The model compares every name, so the convergence lemmas hold for the original only on names outside that list.
- Subdirectories, `common_funny` and `funny_files` entries, and `os.remove` failing on a directory. Directories are flat maps of regular files.
- `shutil.copy2` metadata. A file is its content only, and a copy makes the destination entry equal to the source entry.
- Filesystem errors (permissions, disk full, a file vanishing between listing and copy, an unreadable file). Nothing catches them (main.py:19-24, 102), so one failing `shutil.copy2`, `os.remove` or `open` ends the daemon; the model covers only runs in which every file operation succeeds. An unreadable file makes `open` at main.py:79 raise; the model has no unreadable files.
- The order of names within each loop. The loops pick names from a set, so every order is covered.
- `argparse` construction and parsing (main.py:86-97). `validate_log_file` is modelled although the entry point never uses it (`--log-file` has `type=str` at main.py:90).
- MakeDirs: does not model `os.makedirs` creating intermediate parents; it records only the directory it was asked for.

## Findings

| source | as written | input that shows it | evidently intended | confidence | as-written member | corrected member |
|---|---|---|---|---|---|---|
| main.py:99 | `os.makedirs(os.path.dirname(log_file), exist_ok=True)` runs even when `dirname` is empty, and `os.makedirs('')` raises `FileNotFoundError` | `--log-file sync.log` | a log file in the working directory works, as `validate_log_file` (main.py:66) treats an empty parent as valid | high, not executed | `Paths.BootstrapRejectsBareName` | `Paths.BootstrapLogDir` |
