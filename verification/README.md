# Duplicacy: a verified model

Duplicacy is a lock-free, deduplicating backup tool.  Files are packed into one stream, the stream is cut into chunks
by content, chunks are stored under their hashes, and a snapshot is a list of files that refer to ranges of chunks.
Hosts back up to the same storage without locks, while a pruner deletes old snapshots in two steps.  This project
models the parts of Duplicacy that are hardest to get right, in Dafny, and proves what they are for.

Loops, buffers and objects that the source updates in place are methods and classes here; each is proved against a
function or predicate, and the guarantees are lemmas about those.  A hash is modelled by the bytes that are hashed, so
equal hashes mean equal contents; where a hash only names something, it is an arbitrary function.

## What is proved

* **Fossil collection** (`FossilProtocol`, `FossilSafety`, `FossilReclamation`, `FossilRecollection`,
  `PruneOperations`, `PruneTargets`). Backups on any number of hosts and the runs of one pruner are a state machine
  whose actions are single storage operations. The environment assumptions are explicit: one pruner, one backup at a
  time per host, one clock, no ignored ids, and no backup of a dormant or new host that spans both steps
  (`NoSpanningBackup`). The main theorem, `FossilSafety`, holds for every interleaving, the pruner may stop between
  any two actions, and it covers the snapshots the resurrection list leaves out. It needs one guard that the source
  does not have: a chunk may be renamed to a fossil while a saved collection records the same chunk only if that does
  not matter to that collection (`Harmless`): no backup begun since holds the chunk other than from the latest
  revision of its id, and no snapshot references it behind a settled one that does not. `HarmfulLoses` and
  `HarmfulLosesLater` are the other direction. If the guard is violated, some run loses the chunk, by plain prunes if
  no new snapshot makes the older collection resurrect the chunk, and otherwise by pruning those snapshots first,
  except where the latest snapshot of another id of the host that holds the chunk references it. A pruner could check
  a stronger guard, never to rename what a saved collection records (`UnrecordedIsSafe`), and keeps it if it collects
  only when no collection is left (`OneCollectionIsSafe`). `RecollectionLosesChunk` is a run from a healthy storage,
  for every chunk and any two hosts, in which a completed snapshot loses a chunk, although every prune processes all
  collections it can before it collects: the first collection must wait for the other host while the second prune
  renames the chunk again. `FossilReclamation` is the other side: what is no longer needed is recorded completely, and
  a collection is given up only when none of its fossils is left. `IsDeletable` is also stated on ids, revisions and
  times themselves.
* **Chunker** (`Buzhash`, `Chunking`, `ChunkMakers`). The circular buffer and the rolling hash send exactly the chunks
  of a recursive cut function of the whole stream, for every split into files and every size of read. Each chunk ends
  at the first place where the masked bits of its last bytes, folded by rotating and adding, are clear. Hence nothing
  is lost, the bounds hold, and streams that agree after a cut have the same chunks from there on.
* **Chunk references** (`ChunkLists`, `EntryLists`, `BackupMerge`, `SnapshotCodec`, `EndToEnd`). A backup, from the
  join with the previous snapshot to reading the stored list back, with chunks cut by content or of a fixed size,
  keeps every file, directory and link, and for every file exactly the bytes read, or those of the previous snapshot
  if that has a file of its path and size whose time is at most a second away. It stops exactly if there is no file at
  all, although directories and links would be backed up too (src/duplicacy_backupmanager.go:361-364). The delta
  encoding round trip holds exactly when no file with contents comes after empty files whose numbers drift; `Backup`
  shows that the lists it stores never drift.
* **Order and walk** (`PathOrder`, `DirectoryWalk`, `WalkOrder`). The comparison of paths is a strict total order, and
  the directory walk lists exactly the paths of the tree, in that order: the files of a directory, then its
  subdirectories, then what lies in those, each by name.
* **Restore** (`FileSystems`, `ChunkDownloaders`, `RestoreFiles`, `RestoreMerge`, `Restores`, `RestoreTargets`,
  `RoundTrip`). The target is a file system of names and of the files they lead to, so that links of either kind can
  make several names one file. `RestoreTargets.Restore` states exactly when an in-place restore from intact chunks
  succeeds. It stops at a directory of the snapshot in whose place there is a file, at a link in whose place there is
  a directory with something in it, at a file in whose place there is a directory, and, unless it may go on after
  failures, at the first file that exists, differs and must not be overwritten
  (src/duplicacy_backupmanager.go:1366-1371). It also fails on a snapshot with files to restore but without chunks,
  that is, with nothing but empty files: the lookup of the first occurrence of a chunk is out of range
  (src/duplicacy_backupmanager.go:832-834). If it stops, every entry is done or untouched. If it succeeds, every file
  holds its contents if and only if no two files with different contents lead to the same place: where two do, the
  restore still reports success, with one of them wrong. In quick mode exactly the files are left alone that look the
  same by size and time. Directories have their times at the end. A file restored through a link that leads nowhere
  appears in the target under a name of its own. The extra files are deleted by name, so a local path that has the
  name of an entry but not its path takes the entry with it: a link restored in the place of an empty directory, for
  example, is deleted again. With the delete option the target holds exactly the names of the snapshot if and only if
  there is no such clash, and no such name of its own. The downloader submits no task twice, waits for no released
  chunk, and stays within its limit. `RoundTrip.BackupAndRestore` composes backup and restore, for directory trees as
  the walk lists them.
* **Policies and algorithms** (`Retention`, `Wildcards`, `Concurrency`, `Expansion`). The snapshots a prune flags are
  characterised declaratively and, if later revisions do not start earlier, by the buckets of their ages alone, and
  pruning twice then flags nothing more; wildcard matching decides the meaning of the pattern for texts or patterns
  without asterisk, except that two asterisks in a row mean something else, which is characterised; NULs may follow
  the part of a text that matches; expanding chunk sequences in groups, with any number of threads, gives what
  expanding them one by one does.
* **Stored form** (`Padding`, `ErasureCoding`, `ChunkDownload`). Padding (section 6.3 of RFC 5652, widened to blocks
  of 256 bytes) and the shard layout are undone; damaged shards are repaired if and only if enough are good, and wrong
  contents never come back; what the snapshot cache holds cannot change what a download delivers. Reading an
  erasure-coded chunk divides by the configured number of data shards instead of the one in the header
  (src/duplicacy_chunk.go:517), so it needs a configuration that gives shards of the size stored, and one without data
  shards fails (`ErasureCoding.Decode`).

## Model

| member | source | states |
|---|---|---|
| `PruneOperations.ScanNew` | src/duplicacy_snapshotmanager.go:127-151 | of one id, exactly the new snapshots up to and including the first that settles are found, and whether one settles |
| `PruneOperations.IsDeletable` | src/duplicacy_snapshotmanager.go:90-181 | deletable if and only if every host with a snapshot has settled or is dormant, which is stated on the protocol and, independently of it, on ids, revisions and times: ids with the same part after the first '@', seven days, and half a day more where listings lag behind; the new snapshots are exactly those consulted for resurrection |
| `FossilProtocol.HostOfMeans` | src/duplicacy_snapshotmanager.go:115-120 | the host of `repo@host` is `host`, whatever it holds, and an id without '@' is its own host |
| `PruneOperations.DeletableMeans` | src/duplicacy_snapshotmanager.go:157-176 | the condition of the protocol is that every host with a snapshot has an id with a new snapshot that ended late enough, or that all its last snapshots ended more than 604800 seconds ago |
| `PruneOperations.ResurrectsMeans` | src/duplicacy_snapshotmanager.go:127-151 | consulted are the new snapshots of each id up to the first that ended late enough |
| `PruneOperations.ChunkOperator.MoveToFossil` | src/duplicacy_chunkoperator.go:273-295 | a rename makes the chunk a fossil; a storage may refuse only if the fossil is there |
| `PruneOperations.ChunkOperator.Fossilize` | src/duplicacy_chunkoperator.go:226-295 | a chunk becomes a fossil and is recorded; one that already is only a fossil is recorded again |
| `PruneOperations.ChunkOperator.Resurrect` | src/duplicacy_chunkoperator.go:296-315 | a fossil becomes a chunk again, or is dropped if the chunk has been uploaded anew |
| `PruneTargets.LatestAgrees` | src/duplicacy_snapshotmanager.go:2947-2976 | the protocol and the computation refuse the same: to delete the latest snapshot of an id |
| `PruneTargets.CollectTargets` | src/duplicacy_snapshotmanager.go:2947-3014 | the chunks computed are those of the step of the protocol that begins a collection, which is allowed exactly when the computation goes on |
| `FossilSafety.StartKeeps` | src/duplicacy_backupmanager.go:170-188 | a backup that starts with the chunks of the latest revision at hand keeps the invariant |
| `FossilSafety.CheckKeeps` | src/duplicacy_chunkoperator.go:584-612 | the existence check keeps the invariant: what is found as a chunk may be referenced |
| `FossilSafety.UploadKeeps` | src/duplicacy_chunkoperator.go:614-640 | an upload keeps the invariant |
| `FossilSafety.WriteKeeps` | src/duplicacy_backupmanager.go:451-472 | a completed snapshot, whatever the pruner did meanwhile, keeps the invariant |
| `FossilSafety.ListKeeps` | src/duplicacy_snapshotmanager.go:2440-2490 | what a listing decides about every saved collection stays true however long the pruner takes afterwards |
| `FossilSafety.DiscardKeeps` | src/duplicacy_snapshotmanager.go:2527-2548 | dropping a collection that still has one of its snapshots keeps the invariant |
| `FossilSafety.ProcessKeeps` | src/duplicacy_snapshotmanager.go:2556-2595 | resurrecting or deleting one fossil harms no snapshot and no backup in progress |
| `FossilSafety.BeginCollectKeeps` | src/duplicacy_snapshotmanager.go:2947-3017 | the chunks to be collected are referenced by no snapshot that is kept |
| `FossilSafety.FossilizeKeeps` | src/duplicacy_snapshotmanager.go:2999-3014 | renaming one chunk keeps the invariant, if that does not matter to any saved collection that records the chunk |
| `FossilSafety.SaveKeeps` | src/duplicacy_snapshotmanager.go:2736-2768 | a saved collection satisfies all that later runs rely on |
| `FossilSafety.RemoveKeeps` | src/duplicacy_snapshotmanager.go:2770-2830 | deleting the snapshots one by one, in any order, keeps the invariant |
| `FossilSafety.StepKeeps` | src/duplicacy_snapshotmanager.go:2337-2350 | every action of every participant keeps the invariant, renaming under that condition |
| `FossilSafety.RunKeeps` | src/duplicacy_snapshotmanager.go:2337-2350 | so does every run |
| `FossilSafety.FossilSafety` | src/duplicacy_snapshotmanager.go:90-181 | after any interleaving of harmless steps, with the pruner stopping anywhere, every chunk of a completed, undeleted snapshot is in the storage as a chunk or a fossil |
| `FossilSafety.UnrecordedIsSafe` | src/duplicacy_snapshotmanager.go:2999-3014 | the same if no chunk is renamed that a saved collection records, which the pruner could check |
| `FossilSafety.OneCollectionIsSafe` | src/duplicacy_snapshotmanager.go:2736-2768 | the same without further conditions, if the pruner collects only when no collection is left |
| `FossilReclamation.RecordsAll` | src/duplicacy_snapshotmanager.go:2978-3017 | whatever happens meanwhile, a collection is saved with all chunks that only the snapshots to be deleted reference, and none is saved if there are none |
| `FossilReclamation.GoesWithItsFossils` | src/duplicacy_snapshotmanager.go:2527-2610 | a collection is given up only when none of its fossils is left as a fossil, or because a snapshot it was made for is still there |
| `FossilReclamation.CanBeFinished` | src/duplicacy_snapshotmanager.go:2550-2610 | a collection that is being processed can be finished: the fossils that new snapshots reference are chunks again, the others deleted, and nothing else has changed |
| `FossilRecollection.CondemnedIsLost` | src/duplicacy_snapshotmanager.go:2550-2595 | a chunk that is only a fossil and still wanted is lost once such a collection is processed |
| `FossilRecollection.HarmfulLoses` | src/duplicacy_snapshotmanager.go:2999-3014 | if renaming a chunk does matter to a saved collection, and no new snapshot makes that collection resurrect the chunk, some run of plain prunes loses the chunk after the renaming |
| `FossilRecollection.HarmfulLosesLater` | src/duplicacy_snapshotmanager.go:2499-2510 | new snapshots that reference the chunk do not help if their ids are backed up again without it and they are pruned before the older collection is processed: some run loses the chunk, unless the latest snapshot of another id of the host that holds the chunk references it |
| `FossilRecollection.RecollectionLosesChunk` | src/duplicacy_snapshotmanager.go:2499-2510 | for every chunk and any two hosts, a run of plain prunes from a healthy storage in which a completed snapshot loses a chunk collected twice |
| `Buzhash.BuzhashSum` | src/duplicacy_chunkmaker.go:126-131 | the loop computes the hash of a block from a starting value |
| `Buzhash.SumAppend` | src/duplicacy_chunkmaker.go:126-131 | hashing in two parts is hashing the whole |
| `Buzhash.Roll` | src/duplicacy_chunkmaker.go:118-135 | updating the hash of a window gives the hash of the next window, for every window length, multiples of 64 included |
| `Chunking.BuzhashOf` | src/duplicacy_chunkmaker.go:118-135 | buzhash, with the test that ends a chunk, is a rolling hash |
| `Chunking.HashMeans` | src/duplicacy_chunkmaker.go:269-295 | a chunk may end where every bit of the mask is clear in the bytes folded by rotating and adding |
| `Chunking.ChunksEndRight` | src/duplicacy_chunkmaker.go:257-303 | every chunk but the last ends at the maximum or where the masked bits of its last bytes are clear, and at no earlier place are they |
| `Chunking.Conservation` | src/duplicacy_chunkmaker.go:150-320 | the chunks of a stream make up the stream |
| `Chunking.Bounds` | src/duplicacy_chunkmaker.go:211-319 | every chunk but the last has between the minimum and the maximum length, the last between one byte and the maximum |
| `Chunking.Later` | src/duplicacy_chunkmaker.go:257-303 | the chunks after any number of them are the chunks of what follows |
| `Chunking.Resynchronization` | src/duplicacy_chunkmaker.go:257-303 | streams with equal remaining bytes after a cut have the same later chunks |
| `ChunkMakers.ChunkMaker.constructor` | src/duplicacy_chunkmaker.go:53-95 | a new maker has sent nothing and read nothing |
| `ChunkMakers.ChunkMaker.Fill` | src/duplicacy_chunkmaker.go:157-169 | bytes move from the circular buffer to the chunk, across the end of the buffer, and what is pending stays the same |
| `ChunkMakers.ChunkMaker.Refill` | src/duplicacy_chunkmaker.go:213-239 | reading extends the buffered window by what was read, until it is full or the file ends |
| `ChunkMakers.ChunkMaker.FirstHash` | src/duplicacy_chunkmaker.go:256-267 | the hash of a new chunk is that of the first bytes of the window, wrapped or not |
| `ChunkMakers.ChunkMaker.Slide` | src/duplicacy_chunkmaker.go:284-301 | one step of the hash, and whether the chunk ends there |
| `ChunkMakers.ChunkMaker.Scan` | src/duplicacy_chunkmaker.go:280-301 | the scan stops at the first boundary or before the last minimum |
| `ChunkMakers.ChunkMaker.AddFixed` | src/duplicacy_chunkmaker.go:173-209 | with equal sizes every file is cut into pieces of that size |
| `ChunkMakers.ChunkMaker.AddFile` | src/duplicacy_chunkmaker.go:211-319 | a file is read to its end, added to the input, and returned for its hash |
| `ChunkMakers.ChunkMaker.AddData` | src/duplicacy_chunkmaker.go:150-320 | after the last call the chunks sent are exactly those of the whole input, and each ends where the masked bits are clear for the first time, or at the maximum; each call returns the size and hash of what it read |
| `PathOrder.DecideIsCompare` | src/duplicacy_entry.go:573-647 | the decision at the first difference is the order of the keys |
| `PathOrder.KeyInjective` | src/duplicacy_entry.go:573-647 | different paths have different keys |
| `PathOrder.TotalOrder` | src/duplicacy_entry.go:573-647 | a strict total order on paths without NUL |
| `PathOrder.OrderOnNames` | src/duplicacy_entry.go:573-647 | of two paths that part in a directory, first come its files, then its subdirectories, then what lies in the subdirectories, each by name, byte by byte |
| `PathOrder.ComparePaths` | src/duplicacy_entry.go:573-647 | the loops compute that order |
| `DirectoryWalk.SortInfosSorts` | src/duplicacy_entry.go:675-695 | sorting a directory puts files before directories and keeps names in order |
| `DirectoryWalk.ReverseInPlace` | src/duplicacy_entry.go:803-807 | the in-place reversal reverses |
| `DirectoryWalk.ListEntries` | src/duplicacy_entry.go:699-807 | a directory is listed files first, and its subdirectories come back in reverse |
| `DirectoryWalk.ListLocalFiles` | src/duplicacy_snapshot.go:66-105 | the stack of directories lists the tree as the recursive listing does |
| `WalkOrder.WalkIsComplete` | src/duplicacy_snapshot.go:77-103 | the walk lists exactly the paths of the tree |
| `WalkOrder.WalkIsIncreasing` | src/duplicacy_snapshot.go:77-103 | in strictly increasing path order |
| `WalkOrder.WalkIsClosed` | src/duplicacy_snapshot.go:77-103 | with a path it lists all directories above it |
| `WalkOrder.OneKind` | src/duplicacy_snapshot.go:77-103 | a tree does not hold a file and a directory of one name |
| `RoundTrip.WalkedIsListing` | src/duplicacy_snapshot.go:66-105 | so what the walk lists is fit to be backed up, and to be restored over |
| `ChunkLists.SliceOfStream` | src/duplicacy_snapshotmanager.go:1736-1800 | a range of chunks is an interval of the stream |
| `ChunkLists.SameSlice` | src/duplicacy_backupmanager.go:316-337 | renumbering to the same chunks keeps the bytes |
| `ChunkLists.SizeOfSlice` | src/duplicacy_entry.go:923-944 | the size computed from the lengths is the number of bytes in the range |
| `ChunkLists.RangeContent` | src/duplicacy_entrylist.go:262-318 | the range computed for a file names exactly its bytes in the list of all chunks |
| `EntryLists.EntryList.AddEntry` | src/duplicacy_entrylist.go:112-145 | an entry is added, in memory or on disk, a modified file waits for its contents, and files are counted |
| `EntryLists.EntryList.AddUploadedChunk` | src/duplicacy_entrylist.go:153-167 | an upload is recorded at its index, extending the lists as far as needed |
| `EntryLists.EntryList.CollectUploads` | src/duplicacy_entrylist.go:153-167 | uploads that complete in any order end up in chunk order |
| `EntryLists.EntryList.CheckEntry` | src/duplicacy_entrylist.go:200-259 | accepts exactly the entries whose range is sound and has their size |
| `EntryLists.EntryList.Locate` | src/duplicacy_entrylist.go:278-310 | the reading position moves over a file, and the range is that of its bytes, if so much was uploaded |
| `EntryLists.EntryList.FillAndSendEntry` | src/duplicacy_entrylist.go:262-318 | an entry is sent, completed from the next modified entry, or skipped if that is empty; this fails exactly if it does not pass the check or does not fit |
| `EntryLists.FilledIsChecked` | src/duplicacy_entrylist.go:200-310 | what is filled in passes the sanity check |
| `EntryLists.ProgressWaits` | src/duplicacy_entrylist.go:321-369 | the modified entries are used in the order of the entries that wait for them |
| `EntryLists.EntryList.ReadEntries` | src/duplicacy_entrylist.go:321-369 | reading succeeds if and only if the complete entries pass the check and the modified files fit what was uploaded; the ranges then follow each other without gap or overlap, on disk or not |
| `BackupMerge.Renumbered` | src/duplicacy_backupmanager.go:316-337 | appending the chunks of a range, the first unless it is the last of the list, and numbering from the end names the same chunks |
| `BackupMerge.Preserver.Preserve` | src/duplicacy_backupmanager.go:317-337 | the chunks of an unmodified file are carried over under new numbers |
| `BackupMerge.Cursor.Seek` | src/duplicacy_backupmanager.go:284-309 | remote entries before the path are skipped, and no others |
| `BackupMerge.Cursor.Reached` | src/duplicacy_backupmanager.go:284-309 | the counterpart is found if and only if there is one |
| `BackupMerge.MergeOne` | src/duplicacy_backupmanager.go:284-355 | a file is kept, with the hash and the chunks of its counterpart, if that looks the same, and marked otherwise |
| `BackupMerge.KeepOrMark` | src/duplicacy_backupmanager.go:314-345 | the entry is the one kept, with the hash and chunks of the counterpart, or is marked as modified |
| `BackupMerge.Merge` | src/duplicacy_backupmanager.go:282-355 | so for every local file, in order |
| `SnapshotCodec.DecodeDrifts` | src/duplicacy_snapshot.go:183-187 | files with contents are read back with their chunks, off by what the empty files before them drift |
| `SnapshotCodec.DecodedEmpty` | src/duplicacy_snapshot.go:183-187 | an empty file is read back with the number of the chunk last read before it |
| `SnapshotCodec.RoundTripExact` | src/duplicacy_snapshot.go:183-187 | decoding undoes encoding if and only if nothing drifts before a file with contents |
| `SnapshotCodec.Uploader.Compact` | src/duplicacy_backupmanager.go:1084-1100 | the chunk list is compacted and the range renumbered to the same chunks |
| `SnapshotCodec.Uploader.UploadEntryInfo` | src/duplicacy_backupmanager.go:1082-1118 | one more entry is compacted and encoded |
| `SnapshotCodec.UploadSnapshot` | src/duplicacy_backupmanager.go:1027-1126 | the stored lists describe the compacted chunks and the stored entries are the encoded ones |
| `SnapshotCodec.Check` | src/duplicacy_entry.go:889-945 | accepts exactly the entries whose range is sound and has their size |
| `SnapshotCodec.CheckedIsWithin` | src/duplicacy_entry.go:889-945 | an accepted range lies within the chunks and has the size of the file |
| `SnapshotCodec.ListRemoteFiles` | src/duplicacy_snapshot.go:107-205 | succeeds exactly if every decoded entry is sound, and then returns them all |
| `SnapshotCodec.RetrieveFile` | src/duplicacy_snapshotmanager.go:1736-1800 | outputs exactly the bytes of the range; succeeds exactly if no chunk is corrupted and their hash is the recorded one |
| `EndToEnd.Pack` | src/duplicacy_backupmanager.go:448-507 | the chunks uploaded, cut by content or of a fixed size, make up all modified files one after the other, none is empty, and each file gets its size and hash |
| `EndToEnd.ListDelivers` | src/duplicacy_entrylist.go:262-369 | the completed list is, entry by entry, what is expected: path, kind, time and bytes |
| `EndToEnd.StoredAndRead` | src/duplicacy_backupmanager.go:1082-1128 | compacting, encoding and decoding keep what every entry denotes, and the order |
| `EndToEnd.FilesMerged` | src/duplicacy_backupmanager.go:316-364 | the list has as many files as the listing, so that it counts none exactly if the listing has none |
| `EndToEnd.StoredAsExpected` | src/duplicacy_entry.go:512-514 | what a backup is expected to hold, on paths, sizes and times alone |
| `EndToEnd.Backup` | src/duplicacy_backupmanager.go:282-620 | a backup succeeds if and only if the listing has a file; it can then be read back, is again a proper snapshot, and its files, directories and links are exactly the local ones; a file is stored with the bytes of the previous snapshot if that has one of its path and size with a time at most a second away, otherwise with the bytes read, and is missing only if there are none; it has chunks exactly if some file has contents |
| `RoundTrip.EntriesFrom` | src/duplicacy_backupmanager.go:282-620 | the paths and kinds of the new snapshot are exactly those of the local listing, without the modified files for which nothing could be read |
| `RoundTrip.SnapshotIsClosed` | src/duplicacy_backupmanager.go:282-620 | if the local listing holds with a path all directories above it, and no two kinds of one name, so does the snapshot |
| `EndToEnd.RetrieveFromSnapshot` | src/duplicacy_snapshotmanager.go:1736-1800 | a file of a snapshot is retrieved with its bytes and its hash matches |
| `ChunkDownloaders.ChunkDownloader.AddFile` | src/duplicacy_chunkdownloader.go:73-92 | the chunks of a file are listed, a shared first chunk once |
| `ChunkDownloaders.ChunkDownloader.AddFiles` | src/duplicacy_chunkdownloader.go:67-95 | every file names the same chunks as before, and files use the tasks from left to right; no chunk is listed twice in a row |
| `ChunkDownloaders.ChunkDownloader.Prefetch` | src/duplicacy_chunkdownloader.go:98-125 | the needed chunks of the file are in progress, or the limit is reached; no task is submitted twice |
| `ChunkDownloaders.ChunkDownloader.LookAhead` | src/duplicacy_chunkdownloader.go:171-191 | so are the chunks ahead up to the first that is not needed |
| `ChunkDownloaders.ChunkDownloader.Reclaim` | src/duplicacy_chunkdownloader.go:128-151 | exactly the completed chunks before the index are released |
| `ChunkDownloaders.ChunkDownloader.Receive` | src/duplicacy_chunkdownloader.go:193-199 | any download in progress may complete next; the counters stay equal to the sets |
| `ChunkDownloaders.ChunkDownloader.WaitForChunk` | src/duplicacy_chunkdownloader.go:154-201 | ends, and returns the chunk of this index or a sign of corruption; at most one chunk more than threads is in memory |
| `RestoreFiles.Target.ReadSegment` | src/duplicacy_backupmanager.go:1324-1342 | short reads add up to the segment or the rest of the file |
| `RestoreFiles.ScanExisting` | src/duplicacy_backupmanager.go:1275-1360 | the segments are named by what lies at their offsets, also when zeros are skipped; the file hash covers all or more than the size |
| `RestoreFiles.KeptSegment` | src/duplicacy_backupmanager.go:1460-1469 | a segment that matches by offset, length and hash is the piece itself and has not been overwritten |
| `RestoreFiles.WritePiece` | src/duplicacy_backupmanager.go:1436-1485 | one more piece is in place, nothing behind it has been touched, and a chunk found in place is not downloaded |
| `RestoreFiles.WriteInPlace` | src/duplicacy_backupmanager.go:1429-1496 | all pieces are in place, or the file is restored up to the corrupted chunk |
| `RestoreFiles.CreateSparse` | src/duplicacy_backupmanager.go:1237-1272 | a new large file reads as zeros of the right size |
| `RestoreFiles.RestoreFile` | src/duplicacy_backupmanager.go:1176-1506 | success leaves exactly the contents; a file is refused if and only if it exists, differs and must not be overwritten; one that is right is never rewritten |
| `RestoreMerge.InExtra` | src/duplicacy_backupmanager.go:724-818 | extra are exactly the local paths that the snapshot does not have |
| `RestoreMerge.InSelected` | src/duplicacy_backupmanager.go:750-800 | to be restored is everything that does not look unchanged |
| `RestoreMerge.NextRemote` | src/duplicacy_backupmanager.go:730-748 | local entries without a counterpart are collected, and the next one is compared |
| `RestoreMerge.MergeListings` | src/duplicacy_backupmanager.go:724-818 | the join computes the extra paths and the entries to be restored, makes the directories and links, and stops exactly at the first that finds something in its way |
| `RestoreMerge.Place` | src/duplicacy_backupmanager.go:761-806 | a directory stops at a file, and a link at a directory with something in it; otherwise it is there afterwards, and no other name has changed |
| `RestoreMerge.SameStops` | src/duplicacy_backupmanager.go:762-806 | what has been made before is never in the way |
| `RestoreMerge.DirectoryFirst` | src/duplicacy_entry.go:573-647 | a directory comes before everything in it |
| `RestoreMerge.DeleteExtra` | src/duplicacy_backupmanager.go:931-939 | deleting last to first removes no directory with something left in it, leaves of the extra names only such directories, finds every one empty if what lies in it is extra, and never removes anything else |
| `RestoreMerge.LeftAfterDeletion` | src/duplicacy_backupmanager.go:931-939 | deleting by name leaves exactly the names of the snapshot if and only if nothing local has the name, but not the path, of one of its entries, and nothing has been written under any other name |
| `RestoreMerge.SetTimes` | src/duplicacy_backupmanager.go:941-944 | every directory made or found different has the time of the snapshot at the end, of those that lead to one place the last, and nothing else changes |
| `Restores.FirstOccurrences` | src/duplicacy_backupmanager.go:822-829 | every chunk is mapped to its first index |
| `Restores.UseFirst` | src/duplicacy_backupmanager.go:831-838 | small files are moved to the first place of their chunk and keep their bytes; the lookup fails exactly if an index is out of range |
| `Restores.RangesInSnapshot` | src/duplicacy_backupmanager.go:831-838 | in a proper snapshot it fails exactly if there are files but no chunks |
| `Restores.SortOrders` | src/duplicacy_entry.go:663-670 | no file starts before one that comes earlier |
| `Restores.SortKeeps` | src/duplicacy_entry.go:663-670 | sorting keeps exactly the files |
| `Restores.Schedule` | src/duplicacy_backupmanager.go:831-846 | the files scheduled are those of the snapshot, with the same contents |
| `Restores.RestoreOne` | src/duplicacy_backupmanager.go:857-929 | a file is skipped, blocked by a directory, emptied or tried, each with what is then seen there; only the file that the name leads to is written; it is refused exactly if it is there, differs, can be read and must not be overwritten |
| `Restores.Foreseen` | src/duplicacy_backupmanager.go:856-929 | a restore that goes through has met no file that blocks it; with intact chunks, whether it stops, and whether any file fails, can be seen before it starts |
| `Restores.RestoreEach` | src/duplicacy_backupmanager.go:856-929 | the files up to the first that stops the restore are settled, the last one where several lead to one place, and nothing that no name leads to is touched; without an option to go on, that is the first refused or broken file; failures are counted one by one |
| `Restores.AllShownIfAgreed` | src/duplicacy_backupmanager.go:856-929 | when none has failed, all files hold their contents if and only if no two with different contents lead to the same place |
| `FileSystems.WriteShows` | src/duplicacy_backupmanager.go:1176-1230 | writing at a name is seen at every name that leads to the same file, and nowhere else |
| `FileSystems.WriteAgain` | src/duplicacy_backupmanager.go:866-880 | a file that is left as it is leaves the file system as it is |
| `RestoreTargets.MergeStopped` | src/duplicacy_backupmanager.go:761-806 | if something is in the way, the entries before it are done and the rest is untouched |
| `RestoreTargets.AllInTheEnd` | src/duplicacy_backupmanager.go:856-944 | what the downloads have done outlasts the deletion of the extra files and the times of the directories, unless its name, or the file it leads to, is deleted |
| `RestoreTargets.NamesRebuilt` | src/duplicacy_backupmanager.go:724-929 | before the deletion there are the names of the target, those of the snapshot, and those written through links that led nowhere |
| `RestoreTargets.DoneIsRestored` | src/duplicacy_entry.go:516-519 | without a failure, every file has the contents and the time of the snapshot, except one that already had its size and, to a second, its time, in quick mode or if it is empty, which is left as it was |
| `RestoreTargets.Restore` | src/duplicacy_backupmanager.go:643-975 | succeeds exactly if no directory or link finds something in its way, no file stops it, and there are chunks unless there are no files to restore; every entry is then done if all lead to places of their own, and if it stops, done or untouched; the files hold their contents if and only if none with different ones share a place; in quick mode exactly those are left alone that look the same by size and time; the failures counted are the refused files; all else is untouched or, with the delete option, gone |
| `RoundTrip.BackupAndRestore` | src/duplicacy_backupmanager.go:131-975 | backing up and restoring succeeds exactly if there is a file, not all files are empty, and nothing in the target is in the way; each file that lasts then holds what was backed up if and only if no two with different contents lead to the same place; all of it is given back if everything leads to a place of its own; and with the delete option exactly that is left if and only if nothing in the target clashes with it and nothing is written under other names |
| `Wildcards.MatchPattern` | src/duplicacy_utils.go:279-337 | the loop ends on all inputs; unless text and pattern both have asterisks it decides the meaning of the pattern or, with two asterisks in a row, that only asterisks follow and nothing shorter than the text matches what comes before them |
| `Wildcards.RunIsGlob` | src/duplicacy_utils.go:279-337 | returning only to the last asterisk suffices |
| `Wildcards.EarliestSuffices` | src/duplicacy_utils.go:279-337 | of the part before an asterisk only the earliest match matters |
| `Wildcards.RunIsGlobToStars` | src/duplicacy_utils.go:279-337 | what two asterisks in a row do instead of matching anything |
| `Wildcards.StrictGlobMeans` | src/duplicacy_utils.go:279-337 | an asterisk (42) matches any part of the text, a question mark (63) any byte, and every other byte itself |
| `Wildcards.GlobIsStrict` | src/duplicacy_utils.go:279-337 | for a text without NUL, as paths are, the meaning is that the whole text matches |
| `Wildcards.GlobIsPadded` | src/duplicacy_utils.go:279-337 | in general it is that a part of the text matches and only NULs follow |
| `Wildcards.PrefixPattern` | src/duplicacy_utils.go:279-337 | for every text, a pattern of a prefix and an asterisk: the text begins so, and if an asterisk comes next, only NULs follow it |
| `Wildcards.OtherwiseNotGlob` | src/duplicacy_utils.go:279-337 | with asterisks in both, the result is not always the meaning |
| `Retention.DaysAreDays` | src/duplicacy_snapshotmanager.go:195-203 | the days between two times, and how they are off when the second is earlier |
| `Retention.DayMeans` | src/duplicacy_snapshotmanager.go:195-203 | a day begins at a local midnight |
| `Retention.FindPolicy` | src/duplicacy_snapshotmanager.go:2678-2683 | the policy that applies is the first, from the one reached before, whose age the snapshot has |
| `Retention.FlagByPolicy` | src/duplicacy_snapshotmanager.go:2663-2709 | flagged are exactly the snapshots under a policy with the interval 0, and those closer than the interval to the last one kept under their policy |
| `Retention.SelectSnapshots` | src/duplicacy_snapshotmanager.go:2640-2718 | the flags are those the request demands, by revision, by policy or by tag, for any start times |
| `Retention.PolicyIsBucket` | src/duplicacy_snapshotmanager.go:2678-2683 | if later revisions do not start earlier, the policy that applies depends on the age alone |
| `Retention.ExpiredIsCrowded` | src/duplicacy_snapshotmanager.go:2678-2704 | if later revisions do not start earlier, expired are exactly the snapshots closer than the interval to any earlier one kept in the bucket of their age |
| `Retention.KeptAreApart` | src/duplicacy_snapshotmanager.go:2685-2704 | then any two snapshots kept in one bucket are at least the interval apart |
| `Retention.FlagsAreUnique` | src/duplicacy_snapshotmanager.go:2657-2706 | the request determines the flags |
| `Retention.PruningAgain` | src/duplicacy_snapshotmanager.go:2657-2706 | if later revisions do not start earlier, pruning what is left at the same time flags nothing |
| `Concurrency.Pool.Claim` | src/duplicacy_concurrency.go:56-61 | a worker claims an index nobody else has, or ends |
| `Concurrency.Pool.Finish` | src/duplicacy_concurrency.go:43-65 | a result is recorded, or the first failure |
| `Concurrency.RunConcurrently` | src/duplicacy_concurrency.go:23-72 | fails exactly if some job fails; otherwise every job has been run exactly once, for every interleaving |
| `Expansion.KeyIsInjective` | src/duplicacy_snapshotmanager.go:463-474 | different sequences of byte strings have different keys |
| `Expansion.GetSnapshotChunks` | src/duplicacy_snapshotmanager.go:814-842 | the chunks a snapshot refers to |
| `Expansion.ReferencesMeans` | src/duplicacy_snapshotmanager.go:814-842 | these are the chunks of the three metadata sequences and those named by the chunk list |
| `Expansion.GroupSnapshots` | src/duplicacy_snapshotmanager.go:393-407 | every snapshot is in the group of its sequence |
| `Expansion.ExpandSnapshots` | src/duplicacy_snapshotmanager.go:383-427 | for any number of threads, each snapshot gets the list it would get by itself |
| `Expansion.TargetChunks` | src/duplicacy_snapshotmanager.go:2978-2995 | the marks say which chunks of deleted snapshots a kept one refers to |
| `Expansion.PruneNonExhaustive` | src/duplicacy_snapshotmanager.go:2947-3017 | fossilized are exactly the chunks referenced by deleted and by no kept snapshots, so that none is that a kept snapshot needs for its metadata or files; nothing if a latest snapshot is flagged |
| `Padding.Unpad` | src/duplicacy_chunk.go:707-723 | accepts exactly what is some data followed by its padding, refuses the rest, and panics on nothing at all |
| `Padding.PaddingIsUnique` | src/duplicacy_chunk.go:707-723 | padded data has only one reading |
| `Padding.PadAndUnpad` | src/duplicacy_chunk.go:396-403 | padding is undone, except that padding nothing is refused |
| `ErasureCoding.HeaderRoundTrip` | src/duplicacy_chunk.go:442-448 | the parameters are read back from the header |
| `ErasureCoding.SingleByteDamage` | src/duplicacy_chunk.go:506-511 | damage to a single byte of the header is noticed |
| `ErasureCoding.DamageBreaks` | src/duplicacy_chunk.go:506-511 | so a file with a damaged header fails to be read |
| `ErasureCoding.Encode` | src/duplicacy_chunk.go:414-468 | what is stored is the header, the hashes, the shards and the header |
| `ErasureCoding.StoredLayout` | src/duplicacy_chunk.go:432-468 | byte by byte: the banner, the header, 32 bytes of hash for each shard, the shards and the header again |
| `ErasureCoding.ZerosFollow` | src/duplicacy_chunk.go:421-424 | the data shards are the contents, filled up with zeros |
| `ErasureCoding.CollectShards` | src/duplicacy_chunk.go:538-591 | enough shards are collected if and only if enough are good; recovery is needed if and only if a data shard is not |
| `ErasureCoding.AllDataGood` | src/duplicacy_chunk.go:593-597 | with undamaged data shards the contents lie behind the hashes |
| `ErasureCoding.FewDamaged` | src/duplicacy_chunk.go:598-601 | if no more shards are damaged than there are parity shards, enough are good |
| `ErasureCoding.Decode` | src/duplicacy_chunk.go:500-634 | if the configuration gives the size of the shards stored, the contents come back exactly when enough shards are good, and never wrong ones; otherwise the read fails unless slices of the wrong size have the hashes of shards; a configuration without data shards panics; a file that does not begin with the banner is passed on as it is, and a broken header fails |
| `ErasureCoding.StoredIsStored` | src/duplicacy_chunk.go:414-468 | every shard just stored is good |
| `ErasureCoding.RoundTrip` | src/duplicacy_chunk.go:414-634 | storing and reading gives back the contents, for every length |
| `ChunkDownload.FetchIsFirst` | src/duplicacy_chunkoperator.go:381-491 | the chunk comes from the first attempt that succeeds, if only attempts to be repeated come before |
| `ChunkDownload.FetchYields` | src/duplicacy_chunkoperator.go:370-490 | a chunk is fetched exactly if, at one of four attempts, the storage has it, or its fossil, with the right contents, and each attempt before found something spoilt, was cut short, or failed in a way this storage is known for |
| `ChunkDownload.DownloadChunk` | src/duplicacy_chunkoperator.go:318-490 | what is delivered has the requested id, whatever the cache holds; unless the cache has it, it is delivered exactly if one of four attempts finds it as a chunk or a fossil and every one before gives a reason to ask again |
| `ChunkDownload.DownloadIsRight` | src/duplicacy_chunkoperator.go:318-490 | with names that are not shared, only the right contents are delivered or cached |

## Left out

- FossilSafety: holds under the guard `Harmless`, which the source does not have; by `HarmfulLoses` and `HarmfulLosesLater` it cannot be had for much less.
- HarmfulLosesLater: says nothing if the guard is violated by a backup in progress, and a latest snapshot of another id of the same host is new to the older collection and references the chunk, so that the host would have to finish that backup before the snapshot can be superseded and pruned; nor if a backup is about to upload the chunk again, or began before the older collection was saved.
- ListKeeps: takes all snapshot files at once; the source lists the ids one after the other, and a backup of one id of a host that completes between the listing of that id and the listing of another id of the host is not covered.
- MatchPattern: if text and pattern both have asterisks, the result differs from the meaning on some inputs (`OtherwiseNotGlob`); on which ones is characterised only for a prefix followed by an asterisk (`PrefixPattern`).
- RetrieveFile: a recorded hash that starts with '#' is a hash of the chunk hashes in the source, and there is a switch to ignore hashes; neither is modelled.
- DaysAreDays: local days are at a fixed distance from universal time, so changes of the clock for daylight saving are not modelled.
- PruningAgain: assumes, as `KeptAreApart` does, that start times do not decrease with the revision, which clocks set back can violate.
- Restore: takes snapshots as the walk makes them, which hold with a path all directories above it and no two kinds of one name; a link of the target in the place of a directory of the snapshot is seen as that directory, but the paths below it are not looked up through it, and no other name leads through a name where the snapshot has a link; when a file leads to a directory of the snapshot through a link of the target, whether the restore stops is not foreseen; where files lead to one place and neither overwriting nor going on after failures is allowed, whether the restore stops depends on the order of the files and is not foreseen.
- Fossils that a deleting run hands to the chunk operator are resurrected or deleted before the collection file is removed, and before the next chunk is renamed; in the source these tasks run concurrently and may overlap the existence checks, renames and deletions of later ones.
- Exhaustive and exclusive pruning, temporary files and dry runs; ignored ids appear only as a parameter of `IsDeletable`.
- Incomplete snapshots that are saved and resumed, and the hash mode of a backup.
- Read errors in the middle of a file, symbolic links to directories at the top, attributes, and filters of a listing.
- Storage backends with their retries, rate limits and errors; a write to the disk or the storage is assumed to succeed.
- AES-GCM, RSA, compression, Reed-Solomon arithmetic and highwayhash: the code is any in which enough shards determine the rest, the hash any function.
- The encoding of single entries and of the snapshot file, which is assumed to be undone by decoding; the old file list format.
- Restore to a temporary file, extended metadata, the creation of parent directories, the targets of symbolic links, and restore patterns.
- Entries whose recorded hash starts with '#', and the hash of a file recorded for a symbolic link.
- The time of a failed file after a restore is arbitrary.
- The release of chunk lists from memory after an expansion.
- Keep-alive connections, statistics, progress messages, the command line, preferences and passwords.
