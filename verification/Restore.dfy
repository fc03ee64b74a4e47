/**
 The files of a restore in place: they are scheduled by their chunks, and restored one after the other.  What has
 become of each is stated for files that lead to places of their own, and for those that lead to the same place.
 */
module Restores {
  import opened Common
  import opened Buzhash
  import opened Chunking
  import opened ChunkMakers
  import opened ChunkLists
  import opened PathOrder
  import opened EntryLists
  import opened BackupMerge
  import opened SnapshotCodec
  import opened EndToEnd
  import opened ChunkDownloaders
  import opened RestoreFiles
  import opened FileSystems
  import opened RestoreMerge

  // ------------------------------------------------------------------ the first occurrence of a chunk

  method FirstOccurrences(hashes: seq<ChunkHash>) returns (chunkMap: map<ChunkHash, nat>)
    ensures forall i :: 0 <= i < |hashes| ==> hashes[i] in chunkMap
    ensures forall h :: h in chunkMap ==> chunkMap[h] < |hashes| && hashes[chunkMap[h]] == h
    ensures forall i, h :: 0 <= i < |hashes| && h in chunkMap && hashes[i] == h ==> chunkMap[h] <= i
  {
    chunkMap := map[];
    for i := 0 to |hashes|
      invariant forall k :: 0 <= k < i ==> hashes[k] in chunkMap
      invariant forall h :: h in chunkMap ==> chunkMap[h] < i && hashes[chunkMap[h]] == h
      invariant forall k, h :: 0 <= k < i && h in chunkMap && hashes[k] == h ==> chunkMap[h] <= k
    {
      if hashes[i] !in chunkMap {
        chunkMap := chunkMap[hashes[i] := i];
      }
    }
  }

  /** The same file, in other chunks of the same list. */
  ghost predicate Moved(e: Entry, f: Entry, chunks: seq<Bytes>) {
    f == e.(range := f.range) && (HasContents(e) ==> SameChunks(chunks, e.range, chunks, f.range))
  }

  /** Looking up the chunk of a small file: there must be one. */
  predicate InRange(e: Entry, n: nat) { e.range.startChunk == e.range.endChunk ==> 0 <= e.range.startChunk < n }

  /** A range of a single chunk has moved to the first place where this chunk is. */
  ghost predicate AtFirst(r: Range, q: Range, hashes: seq<ChunkHash>) {
    if r.startChunk == r.endChunk then
      0 <= q.startChunk == q.endChunk < |hashes| && 0 <= r.startChunk < |hashes| &&
      hashes[q.startChunk] == hashes[r.startChunk] &&
      forall k :: 0 <= k < q.startChunk ==> hashes[k] != hashes[r.startChunk]
    else q == r
  }

  /**
   Small files use the first occurrence of their chunk.  The lookup is also made for empty files, and fails
   if it is out of range.
   */
  method UseFirst(files: seq<Entry>, hashes: seq<ChunkHash>, lengths: seq<nat>, ghost chunks: seq<Bytes>)
    returns (ok: bool, moved: seq<Entry>)
    requires Describes(hashes, lengths, chunks)
    requires forall e :: e in files && HasContents(e) ==> Within(chunks, e.range)
    ensures ok <==> forall e :: e in files ==> InRange(e, |hashes|)
    ensures ok ==> |moved| == |files| && forall i :: 0 <= i < |files| ==> Moved(files[i], moved[i], chunks)
    ensures ok ==> forall i :: 0 <= i < |files| ==> AtFirst(files[i].range, moved[i].range, hashes)
  {
    var chunkMap := FirstOccurrences(hashes);
    moved := [];
    for i := 0 to |files|
      invariant |moved| == i
      invariant forall k :: 0 <= k < i ==> InRange(files[k], |hashes|) && Moved(files[k], moved[k], chunks)
      invariant forall k :: 0 <= k < i ==> AtFirst(files[k].range, moved[k].range, hashes)
    {
      var file := files[i];
      assert file in files;
      if file.range.startChunk == file.range.endChunk {
        if !(0 <= file.range.startChunk < |hashes|) {
          return false, moved;
        }
        var first := chunkMap[hashes[file.range.startChunk]];
        OneChunkMoves(hashes, lengths, chunks, file.range, first);
        file := file.(range := file.range.(startChunk := first, endChunk := first));
      } else {
        assert HasContents(file) ==> SameChunks(chunks, file.range, chunks, file.range);
      }
      moved := moved + [file];
    }
    ok := true;
  }

  lemma OneChunkMoves(hashes: seq<ChunkHash>, lengths: seq<nat>, chunks: seq<Bytes>, r: Range, first: nat)
    requires Describes(hashes, lengths, chunks) && 0 <= r.startChunk == r.endChunk < |hashes| && first < |hashes|
    requires hashes[first] == hashes[r.startChunk]
    ensures SameChunks(chunks, r, chunks, r.(startChunk := first, endChunk := first))
  {
    assert chunks[first..first + 1] == [chunks[first]] == [chunks[r.startChunk]] ==
           chunks[r.startChunk..r.endChunk + 1];
  }

  /** A sound snapshot is out of range only if it has no chunks at all. */
  lemma RangesInSnapshot(entries: seq<Entry>, hashes: seq<ChunkHash>, lengths: seq<nat>, chunks: seq<Bytes>,
                         files: seq<Entry>)
    requires ProperSnapshot(entries, hashes, lengths, chunks) && forall e :: e in files ==> e in entries && e.IsFile()
    ensures (forall e :: e in files ==> InRange(e, |hashes|)) <==> files == [] || hashes != []
  {
    forall e | e in files ensures hashes != [] ==> InRange(e, |hashes|) {
      assert Sound(e, chunks) && AnchoredOne(e, |chunks|);
    }
    if files != [] && hashes == [] {
      var e := files[0];
      assert e in files && Sound(e, chunks) && AnchoredOne(e, |chunks|);
      assert !InRange(e, 0);
    }
  }

  // ------------------------------------------------------------------ one file after the other

  /** The options of a restore, and whether all chunks in the storage are intact. */
  datatype Options = Options(quickMode: bool, overwrite: bool, allowFailures: bool, reliable: bool)

  /** A directory in the place of a file blocks it. */
  datatype FileOutcome = Unchanged | Emptied | Blocked | Tried(outcome: RestoreOutcome)

  /** Same size, and times that differ by at most a second. */
  predicate IsSameAsFileInfo(e: Entry, stat: Seen) {
    match stat
    case Nothing => false
    case Regular(content, time) => e.size == |content| && time - 1 <= e.time <= time + 1
    case Folder(size, time) => e.size == size && time - 1 <= e.time <= time + 1
  }

  predicate Skips(e: Entry, stat: Seen, quickMode: bool) { (quickMode || e.size == 0) && IsSameAsFileInfo(e, stat) }

  function ContentOf(stat: Seen): Option<Bytes> { if stat.Regular? then Some(stat.content) else None }

  /** The file is there, can be read, holds something else, and may not be overwritten. */
  ghost predicate Refused(e: Entry, whole: Bytes, options: Options, readable: bool, stat: Seen) {
    !Skips(e, stat, options.quickMode) && e.size > 0 && !options.overwrite && readable && stat.Regular? &&
    stat.content != whole
  }

  /** The restore stops at this file, even if all chunks are intact. */
  ghost predicate Blocks(e: Entry, whole: Bytes, options: Options, readable: bool, stat: Seen) {
    (stat.Folder? && !Skips(e, stat, options.quickMode)) ||
    (!options.allowFailures && Refused(e, whole, options, readable, stat))
  }

  predicate Fails(o: FileOutcome) { o.Tried? && (o.outcome.FileExists? || o.outcome.ChunkBroken?) }

  predicate Stopped(o: FileOutcome, options: Options) { o.Blocked? || (Fails(o) && !options.allowFailures) }

  /** What a file has become, if this was seen at its path before, and that is seen after. */
  ghost predicate Settled(o: FileOutcome, e: Entry, whole: Bytes, options: Options, readable: bool, stat: Seen,
                          after: Seen)
  {
    (o.Unchanged? <==> Skips(e, stat, options.quickMode)) &&
    match o
    case Unchanged => after == stat
    case Blocked => stat.Folder? && after == stat
    case Emptied => !stat.Folder? && e.size == 0 && after == Regular([], e.time)
    case Tried(outcome) =>
      !stat.Folder? && e.size > 0 && (outcome.FileExists? <==> Refused(e, whole, options, readable, stat)) &&
      match outcome
      case Downloaded | SkippedByHash => after == Regular(whole, e.time)
      case FileExists => after == stat
      case ChunkBroken => !options.reliable && after.Regular?
      case HashMismatch => false
  }

  /** With intact chunks, whether a file stops the restore can be seen when its turn comes. */
  lemma StoppedIsBlocked(o: FileOutcome, e: Entry, whole: Bytes, options: Options, readable: bool, stat: Seen,
                         after: Seen)
    requires Settled(o, e, whole, options, readable, stat, after)
    ensures !Stopped(o, options) ==> !Blocks(e, whole, options, readable, stat)
    ensures options.reliable ==> (Stopped(o, options) <==> Blocks(e, whole, options, readable, stat))
    ensures options.reliable ==> (Fails(o) <==> Refused(e, whole, options, readable, stat))
  {
  }

  /** Restore one file of a sound snapshot; whatever else leads to the same file sees it too. */
  method RestoreOne(file: Entry, downloader: ChunkDownloader, disk: FileSystem, options: Options, readable: bool,
                    sparse: bool, ghost chunks: seq<Bytes>)
    returns (outcome: FileOutcome, after: FileSystem)
    requires downloader.Valid(chunks) && downloader.reliable == options.reliable && file.IsFile() && Sound(file, chunks)
    requires HasContents(file) ==> downloader.lastChunkIndex <= file.range.startChunk
    requires Rooted(disk)
    modifies downloader
    ensures downloader.Valid(chunks)
    ensures downloader.lastChunkIndex <=
      if HasContents(file) then Max(old(downloader.lastChunkIndex), file.range.endChunk)
      else old(downloader.lastChunkIndex)
    ensures Settled(outcome, file, BytesOf(file, chunks), options, readable, SeenAt(disk, file.path),
                    SeenAt(after, file.path))
    ensures !SeenAt(after, file.path).Nothing? && after == Write(disk, file.path, SeenAt(after, file.path))
  {
    var stat := SeenAt(disk, file.path);
    if Skips(file, stat, options.quickMode) {
      WriteAgain(disk, file.path);
      return Unchanged, disk;
    }
    if stat.Folder? {
      WriteAgain(disk, file.path);
      return Blocked, disk;
    }
    if file.size == 0 {
      WriteShows(disk, file.path, Regular([], file.time));
      return Emptied, Write(disk, file.path, Regular([], file.time));
    }
    var target := new Target(ContentOf(stat));
    var o := RestoreFile(target, downloader, file, options.overwrite, stat.Nothing?, readable, sparse, chunks);
    outcome := Tried(o);
    if o.FileExists? {
      WriteAgain(disk, file.path);
      after := disk;
    } else {
      var time: int := *;
      var seen := Regular(target.content.value, if o.ChunkBroken? then time else file.time);
      WriteShows(disk, file.path, seen);
      after := Write(disk, file.path, seen);
    }
  }

  ghost predicate DistinctPaths(files: seq<Entry>) {
    forall i, j :: 0 <= i < j < |files| ==> files[i].path != files[j].path
  }

  function PathsIn(files: seq<Entry>): set<Path> { set e | e in files :: e.path }

  /** No two of the files lead to the same place. */
  ghost predicate AllApart(disk: FileSystem, files: seq<Entry>) { Distinguishes(disk, PathsIn(files)) }

  ghost predicate Distinguishes(disk: FileSystem, names: set<Path>) {
    forall p, q :: p in names && q in names && p != q ==> LeadsTo(disk, p) != LeadsTo(disk, q)
  }

  /** One of the first `n` files leads there. */
  ghost predicate Touched(files: seq<Entry>, n: nat, disk: FileSystem, f: FileId)
    requires n <= |files|
  {
    n > 0 && (LeadsTo(disk, files[n - 1].path) == f || Touched(files, n - 1, disk, f))
  }

  lemma {:induction false} TouchedMeans(files: seq<Entry>, n: nat, disk: FileSystem, f: FileId)
    requires n <= |files|
    ensures Touched(files, n, disk, f) <==> exists k :: 0 <= k < n && LeadsTo(disk, files[k].path) == f
  {
    if n > 0 { TouchedMeans(files, n - 1, disk, f); }
  }

  /** Only what the first `n` files lead to has been written; no link has changed, and no directory. */
  ghost predicate Reached(files: seq<Entry>, n: nat, disk: FileSystem, after: FileSystem)
    requires n <= |files|
  {
    Rooted(after) && (forall q :: LeadsTo(after, q) == LeadsTo(disk, q)) &&
    (forall p :: p in disk.names ==> p in after.names && after.names[p] == disk.names[p]) &&
    (forall p :: p in after.names && p !in disk.names ==> Touched(files, n, disk, Own(p)) && !after.names[p].isLink) &&
    (forall f :: !Touched(files, n, disk, f) ==> SeenIn(after, f) == SeenIn(disk, f)) &&
    (forall f :: Touched(files, n, disk, f) ==> f in after.files) &&
    (forall f :: SeenIn(disk, f).Folder? || SeenIn(after, f).Folder? ==> SeenIn(after, f) == SeenIn(disk, f))
  }

  lemma ReachedNext(files: seq<Entry>, n: nat, disk: FileSystem, before: FileSystem, after: FileSystem)
    requires n < |files| && Reached(files, n, disk, before)
    requires var seen := SeenAt(after, files[n].path);
      !seen.Nothing? && after == Write(before, files[n].path, seen) &&
      (seen.Folder? || SeenAt(before, files[n].path).Folder? ==> seen == SeenAt(before, files[n].path))
    ensures Reached(files, n + 1, disk, after)
  {
    WriteShows(before, files[n].path, SeenAt(after, files[n].path));
  }

  ghost predicate SettledAt(o: FileOutcome, e: Entry, chunks: seq<Bytes>, options: Options, unreadable: set<Path>,
                            stat: Seen, after: FileSystem)
  {
    Settled(o, e, BytesOf(e, chunks), options, e.path !in unreadable, stat, SeenAt(after, e.path))
  }

  /** If no two files lead to the same place, the first ones have been settled. */
  ghost predicate AllSettled(outcomes: seq<FileOutcome>, files: seq<Entry>, chunks: seq<Bytes>, options: Options,
                             unreadable: set<Path>, before: FileSystem, after: FileSystem)
  {
    |outcomes| <= |files| &&
    forall i :: 0 <= i < |outcomes| ==>
      SettledAt(outcomes[i], files[i], chunks, options, unreadable, SeenAt(before, files[i].path), after)
  }

  /** What is seen at the `k`-th file is what one of the files left that lead there. */
  ghost predicate LastWins(outcomes: seq<FileOutcome>, files: seq<Entry>, chunks: seq<Bytes>, options: Options,
                           unreadable: set<Path>, disk: FileSystem, after: FileSystem, k: nat)
    requires k < |outcomes| <= |files|
  {
    exists j, stat :: 0 <= j < |outcomes| && LeadsTo(disk, files[j].path) == LeadsTo(disk, files[k].path) &&
      SettledAt(outcomes[j], files[j], chunks, options, unreadable, stat, after)
  }

  /** Whatever happens to the other files, a directory in the place of a file decides. */
  ghost predicate FolderDecides(o: FileOutcome, e: Entry, options: Options, disk: FileSystem) {
    var stat := SeenAt(disk, e.path);
    (o.Blocked? ==> stat.Folder?) &&
    (stat.Folder? ==> !Fails(o) && (o.Blocked? <==> !Skips(e, stat, options.quickMode)))
  }

  /** What the loop has done with the first files. */
  ghost predicate Progress(outcomes: seq<FileOutcome>, files: seq<Entry>, chunks: seq<Bytes>, options: Options,
                           unreadable: set<Path>, disk: FileSystem, after: FileSystem)
  {
    |outcomes| <= |files| && Reached(files, |outcomes|, disk, after) &&
    (AllApart(disk, files) ==> AllSettled(outcomes, files, chunks, options, unreadable, disk, after)) &&
    (forall k :: 0 <= k < |outcomes| ==> LastWins(outcomes, files, chunks, options, unreadable, disk, after, k)) &&
    (forall k :: 0 <= k < |outcomes| ==> FolderDecides(outcomes[k], files[k], options, disk)) &&
    (options.overwrite && options.reliable ==> forall k :: 0 <= k < |outcomes| ==> !Fails(outcomes[k]))
  }

  /** Which of these outcomes are failures. */
  function Failed(outcomes: seq<FileOutcome>): set<nat> { set i | 0 <= i < |outcomes| && Fails(outcomes[i]) }

  /** None of these outcomes stopped the restore, and so many failed. */
  ghost predicate WentOn(outcomes: seq<FileOutcome>, options: Options, failures: nat) {
    (forall i :: 0 <= i < |outcomes| ==> !Stopped(outcomes[i], options)) &&
    failures == |Failed(outcomes)|
  }

  lemma NoneFailed(outcomes: seq<FileOutcome>)
    ensures |Failed(outcomes)| == 0 <==> forall i :: 0 <= i < |outcomes| ==> !Fails(outcomes[i])
  {
    if i :| 0 <= i < |outcomes| && Fails(outcomes[i]) { assert i in Failed(outcomes); }
  }

  /** Restore one file after the other, up to the first that stops the restore. */
  method RestoreEach(files: seq<Entry>, downloader: ChunkDownloader, disk: FileSystem, options: Options,
                     unreadable: set<Path>, sparse: bool, ghost chunks: seq<Bytes>)
    returns (ok: bool, outcomes: seq<FileOutcome>, failures: nat, after: FileSystem)
    requires downloader.Valid(chunks) && downloader.reliable == options.reliable && Rooted(disk)
    requires downloader.lastChunkIndex == 0 && Ordered(files, |chunks|) && DistinctPaths(files)
    requires forall e :: e in files ==> e.IsFile() && Sound(e, chunks)
    modifies downloader
    ensures Progress(outcomes, files, chunks, options, unreadable, disk, after)
    ensures if ok then |outcomes| == |files| && WentOn(outcomes, options, failures)
            else
              outcomes != [] && Stopped(outcomes[|outcomes| - 1], options) &&
              WentOn(outcomes[..|outcomes| - 1], options, failures)
  {
    outcomes, failures, after := [], 0, disk;
    for i := 0 to |files|
      invariant downloader.Valid(chunks) && |outcomes| == i
      invariant forall k :: i <= k < |files| && HasContents(files[k]) ==>
        downloader.lastChunkIndex <= files[k].range.startChunk
      invariant Progress(outcomes, files, chunks, options, unreadable, disk, after)
      invariant WentOn(outcomes, options, failures)
    {
      var o;
      o, after := RestoreNext(files, outcomes, downloader, disk, after, options, unreadable, sparse, chunks);
      WentOnNext(outcomes, o, options, failures);
      outcomes := outcomes + [o];
      if Stopped(o, options) {
        return false, outcomes, failures, after;
      }
      if Fails(o) {
        failures := failures + 1;
      }
    }
    ok := true;
  }

  /** The next file. */
  method RestoreNext(files: seq<Entry>, outcomes: seq<FileOutcome>, downloader: ChunkDownloader, ghost disk: FileSystem,
                     before: FileSystem, options: Options, unreadable: set<Path>, sparse: bool,
                     ghost chunks: seq<Bytes>)
    returns (o: FileOutcome, after: FileSystem)
    requires downloader.Valid(chunks) && downloader.reliable == options.reliable
    requires |outcomes| < |files| && DistinctPaths(files)
    requires files[|outcomes|].IsFile() && Sound(files[|outcomes|], chunks)
    requires HasContents(files[|outcomes|]) ==> downloader.lastChunkIndex <= files[|outcomes|].range.startChunk
    requires Progress(outcomes, files, chunks, options, unreadable, disk, before)
    modifies downloader
    ensures downloader.Valid(chunks)
    ensures downloader.lastChunkIndex <=
      if HasContents(files[|outcomes|]) then Max(old(downloader.lastChunkIndex), files[|outcomes|].range.endChunk)
      else old(downloader.lastChunkIndex)
    ensures Progress(outcomes + [o], files, chunks, options, unreadable, disk, after)
  {
    var e := files[|outcomes|];
    o, after := RestoreOne(e, downloader, before, options, e.path !in unreadable, sparse, chunks);
    ProgressNext(outcomes, files, chunks, options, unreadable, disk, before, o, after);
  }

  lemma WentOnNext(outcomes: seq<FileOutcome>, o: FileOutcome, options: Options, failures: nat)
    requires WentOn(outcomes, options, failures)
    ensures (outcomes + [o])[..|outcomes|] == outcomes
    ensures !Stopped(o, options) ==> WentOn(outcomes + [o], options, if Fails(o) then failures + 1 else failures)
  {
    assert (outcomes + [o])[|outcomes|] == o;
    assert forall i :: 0 <= i < |outcomes| ==> (outcomes + [o])[i] == outcomes[i];
    FailedNext(outcomes, o);
  }

  lemma FailedNext(outcomes: seq<FileOutcome>, o: FileOutcome)
    ensures |Failed(outcomes + [o])| == |Failed(outcomes)| + if Fails(o) then 1 else 0
  {
    var before, after := Failed(outcomes), Failed(outcomes + [o]);
    if Fails(o) { assert after == before + {|outcomes|}; } else { assert after == before; }
  }

  lemma ProgressNext(outcomes: seq<FileOutcome>, files: seq<Entry>, chunks: seq<Bytes>, options: Options,
                     unreadable: set<Path>, disk: FileSystem, before: FileSystem, o: FileOutcome, after: FileSystem)
    requires |outcomes| < |files| && DistinctPaths(files)
    requires Progress(outcomes, files, chunks, options, unreadable, disk, before)
    requires var e := files[|outcomes|];
      SettledAt(o, e, chunks, options, unreadable, SeenAt(before, e.path), after) &&
      !SeenAt(after, e.path).Nothing? && after == Write(before, e.path, SeenAt(after, e.path))
    ensures Progress(outcomes + [o], files, chunks, options, unreadable, disk, after)
  {
    var n, all := |outcomes|, outcomes + [o];
    var e := files[n];
    assert SeenAt(before, e.path) == SeenIn(before, LeadsTo(disk, e.path));
    assert FolderDecides(o, e, options, disk);
    ReachedNext(files, n, disk, before, after);
    if AllApart(disk, files) { SettledNext(outcomes, files, chunks, options, unreadable, disk, before, o, after); }
    forall k | 0 <= k < n + 1 ensures LastWins(all, files, chunks, options, unreadable, disk, after, k) {
      LastWinsNext(outcomes, files, chunks, options, unreadable, disk, before, o, after, k);
    }
  }

  lemma SettledNext(outcomes: seq<FileOutcome>, files: seq<Entry>, chunks: seq<Bytes>, options: Options,
                    unreadable: set<Path>, disk: FileSystem, before: FileSystem, o: FileOutcome, after: FileSystem)
    requires |outcomes| < |files| && DistinctPaths(files) && AllApart(disk, files)
    requires Reached(files, |outcomes|, disk, before)
    requires AllSettled(outcomes, files, chunks, options, unreadable, disk, before)
    requires var e := files[|outcomes|];
      SettledAt(o, e, chunks, options, unreadable, SeenAt(before, e.path), after) &&
      !SeenAt(after, e.path).Nothing? && after == Write(before, e.path, SeenAt(after, e.path))
    ensures AllSettled(outcomes + [o], files, chunks, options, unreadable, disk, after)
  {
    var n, all := |outcomes|, outcomes + [o];
    var e := files[n];
    WriteShows(before, e.path, SeenAt(after, e.path));
    assert e.path in PathsIn(files);
    forall k | 0 <= k < n ensures LeadsTo(disk, files[k].path) != LeadsTo(disk, e.path) {
      assert files[k].path in PathsIn(files);
    }
    TouchedMeans(files, n, disk, LeadsTo(disk, e.path));
    assert SeenAt(before, e.path) == SeenAt(disk, e.path);
    forall i | 0 <= i < n + 1
      ensures SettledAt(all[i], files[i], chunks, options, unreadable, SeenAt(disk, files[i].path), after)
    {
      if i < n {
        assert SettledAt(outcomes[i], files[i], chunks, options, unreadable, SeenAt(disk, files[i].path), before);
      }
    }
  }

  lemma LastWinsNext(outcomes: seq<FileOutcome>, files: seq<Entry>, chunks: seq<Bytes>, options: Options,
                     unreadable: set<Path>, disk: FileSystem, before: FileSystem, o: FileOutcome, after: FileSystem,
                     k: nat)
    requires |outcomes| < |files| && k <= |outcomes| && Reached(files, |outcomes|, disk, before)
    requires k < |outcomes| ==> LastWins(outcomes, files, chunks, options, unreadable, disk, before, k)
    requires var e := files[|outcomes|];
      SettledAt(o, e, chunks, options, unreadable, SeenAt(before, e.path), after) &&
      !SeenAt(after, e.path).Nothing? && after == Write(before, e.path, SeenAt(after, e.path))
    ensures LastWins(outcomes + [o], files, chunks, options, unreadable, disk, after, k)
  {
    var n, all := |outcomes|, outcomes + [o];
    var e := files[n];
    WriteShows(before, e.path, SeenAt(after, e.path));
    if LeadsTo(disk, files[k].path) == LeadsTo(disk, e.path) {
      assert all[n] == o;
      assert SettledAt(all[n], files[n], chunks, options, unreadable, SeenAt(before, e.path), after);
    } else {
      var j, stat :| 0 <= j < n && LeadsTo(disk, files[j].path) == LeadsTo(disk, files[k].path) &&
        SettledAt(outcomes[j], files[j], chunks, options, unreadable, stat, before);
      assert all[j] == outcomes[j] && SeenAt(after, files[j].path) == SeenAt(before, files[j].path);
      assert SettledAt(all[j], files[j], chunks, options, unreadable, stat, after);
    }
  }

  // ------------------------------------------------------------------ the order of the downloads

  predicate ByChunk(left: Entry, right: Entry) {
    left.range.startChunk < right.range.startChunk ||
    (left.range.startChunk == right.range.startChunk && left.range.startOffset < right.range.startOffset)
  }

  function Insert(e: Entry, files: seq<Entry>): seq<Entry> {
    if files == [] || !ByChunk(files[0], e) then [e] + files else [files[0]] + Insert(e, files[1..])
  }

  function SortByChunk(files: seq<Entry>): seq<Entry> {
    if files == [] then [] else Insert(files[0], SortByChunk(files[1..]))
  }

  lemma DistinctCons(e: Entry, files: seq<Entry>)
    requires DistinctPaths(files) && forall f :: f in files ==> f.path != e.path
    ensures DistinctPaths([e] + files)
  {
    var all := [e] + files;
    forall i, j | 0 <= i < j < |all| ensures all[i].path != all[j].path { assert all[j] in files; }
  }

  lemma {:induction false} InsertInserts(e: Entry, files: seq<Entry>)
    requires DistinctPaths(files) && forall f :: f in files ==> f.path != e.path
    ensures DistinctPaths(Insert(e, files)) && forall f :: f in Insert(e, files) <==> f == e || f in files
  {
    if files != [] {
      assert files == [files[0]] + files[1..];
      if ByChunk(files[0], e) {
        InsertInserts(e, files[1..]);
        DistinctCons(files[0], Insert(e, files[1..]));
      } else {
        DistinctCons(e, files);
      }
    }
  }

  lemma {:induction false} SortKeeps(files: seq<Entry>)
    requires DistinctPaths(files)
    ensures DistinctPaths(SortByChunk(files)) && forall f :: f in SortByChunk(files) <==> f in files
  {
    if files != [] {
      assert files == [files[0]] + files[1..];
      SortKeeps(files[1..]);
      forall f | f in files[1..] ensures f.path != files[0].path {
        var j :| 1 <= j < |files| && files[j] == f;
      }
      InsertInserts(files[0], SortByChunk(files[1..]));
    }
  }

  /** No file starts before one that comes earlier. */
  ghost predicate InChunkOrder(files: seq<Entry>) {
    forall i, j :: 0 <= i < j < |files| ==> !ByChunk(files[j], files[i])
  }

  lemma {:induction false} InsertOrders(e: Entry, files: seq<Entry>)
    requires InChunkOrder(files)
    ensures InChunkOrder(Insert(e, files)) && forall f :: f in Insert(e, files) <==> f == e || f in files
  {
    if files != [] {
      assert files == [files[0]] + files[1..];
      if ByChunk(files[0], e) {
        InsertOrders(e, files[1..]);
        OrderCons(files[0], Insert(e, files[1..]));
      } else {
        OrderCons(e, files);
      }
    }
  }

  lemma OrderCons(e: Entry, files: seq<Entry>)
    requires InChunkOrder(files) && forall f :: f in files ==> !ByChunk(f, e)
    ensures InChunkOrder([e] + files)
  {
    var all := [e] + files;
    forall i, j | 0 <= i < j < |all| ensures !ByChunk(all[j], all[i]) { assert all[j] in files; }
  }

  lemma {:induction false} SortOrders(files: seq<Entry>)
    ensures InChunkOrder(SortByChunk(files))
  {
    if files != [] {
      SortOrders(files[1..]);
      InsertOrders(files[0], SortByChunk(files[1..]));
    }
  }

  // ------------------------------------------------------------------ from the snapshot to the downloads

  /** The same sound file with the same contents, in another chunk list. */
  ghost predicate Same(e: Entry, chunks: seq<Bytes>, f: Entry, others: seq<Bytes>) {
    f == e.(range := f.range) && Sound(f, others) && BytesOf(f, others) == BytesOf(e, chunks)
  }

  lemma SameInChunks(e: Entry, chunks: seq<Bytes>, f: Entry, others: seq<Bytes>)
    requires Sound(e, chunks) && f == e.(range := f.range)
    requires HasContents(e) ==> SameChunks(chunks, e.range, others, f.range)
    ensures Same(e, chunks, f, others)
  {
    if HasContents(e) { SolidMoves(e, chunks, f.range, others); }
  }

  ghost predicate Represented(e: Entry, chunks: seq<Bytes>, b: seq<Entry>, others: seq<Bytes>) {
    exists i :: 0 <= i < |b| && Same(e, chunks, b[i], others)
  }

  ghost predicate Original(a: seq<Entry>, chunks: seq<Bytes>, f: Entry, others: seq<Bytes>) {
    exists e :: e in a && Same(e, chunks, f, others)
  }

  /** Each file of the first list is one of the second, and the other way around. */
  ghost predicate Matches(a: seq<Entry>, chunks: seq<Bytes>, b: seq<Entry>, others: seq<Bytes>) {
    (forall e :: e in a ==> Represented(e, chunks, b, others)) &&
    (forall f :: f in b ==> Original(a, chunks, f, others))
  }

  /** The list of files to download names what the snapshot names. */
  method Schedule(files: seq<Entry>, downloader: ChunkDownloader, hashes: seq<ChunkHash>, lengths: seq<nat>,
                  ghost chunks: seq<Bytes>)
    returns (ok: bool, scheduled: seq<Entry>, ghost list: seq<Bytes>)
    requires Describes(hashes, lengths, chunks) && DistinctPaths(files)
    requires forall e :: e in files ==> e.IsFile() && Sound(e, chunks)
    requires downloader.Valid([]) && downloader.taskList == [] && downloader.lastChunkIndex == 0
    modifies downloader
    ensures ok <==> forall e :: e in files ==> InRange(e, |hashes|)
    ensures ok ==>
      downloader.Valid(list) && downloader.lastChunkIndex == 0 && Ordered(scheduled, |list|) && DistinctPaths(scheduled)
    ensures ok ==> Matches(files, chunks, scheduled, list)
    ensures ok ==> forall e :: e in scheduled ==> e.IsFile() && Sound(e, list)
  {
    list, scheduled := [], [];
    var moved;
    ok, moved := UseFirst(files, hashes, lengths, chunks);
    if ok {
      MovedSame(files, moved, chunks);
      SortKeeps(moved);
      var sorted := SortByChunk(moved);
      forall e | e in sorted ensures e.IsFile() && Sound(e, chunks) {
        assert e in moved;
      }
      scheduled, list := downloader.AddFiles(hashes, lengths, sorted, chunks);
      ScheduledSame(sorted, chunks, scheduled, list);
      Chained(files, moved, sorted, scheduled, chunks, list);
    }
  }

  lemma MovedSame(files: seq<Entry>, moved: seq<Entry>, chunks: seq<Bytes>)
    requires |moved| == |files| && forall i :: 0 <= i < |files| ==> Moved(files[i], moved[i], chunks)
    requires DistinctPaths(files) && forall e :: e in files ==> e.IsFile() && Sound(e, chunks)
    ensures DistinctPaths(moved)
    ensures forall i :: 0 <= i < |files| ==> Same(files[i], chunks, moved[i], chunks)
    ensures forall e :: e in moved ==> e.IsFile() && Sound(e, chunks)
  {
    forall i | 0 <= i < |files|
      ensures Same(files[i], chunks, moved[i], chunks) && moved[i].IsFile() && moved[i].path == files[i].path
    {
      assert files[i] in files;
      SameInChunks(files[i], chunks, moved[i], chunks);
    }
  }

  lemma ScheduledSame(sorted: seq<Entry>, chunks: seq<Bytes>, scheduled: seq<Entry>, list: seq<Bytes>)
    requires AllCompacted(sorted, chunks, scheduled, list) && |scheduled| == |sorted|
    requires DistinctPaths(sorted) && forall e :: e in sorted ==> e.IsFile() && Sound(e, chunks)
    ensures DistinctPaths(scheduled)
    ensures forall i :: 0 <= i < |sorted| ==> Same(sorted[i], chunks, scheduled[i], list)
    ensures forall e :: e in scheduled ==> e.IsFile() && Sound(e, list)
  {
    forall i | 0 <= i < |sorted|
      ensures Same(sorted[i], chunks, scheduled[i], list) && scheduled[i].IsFile()
      ensures scheduled[i].path == sorted[i].path
    {
      assert sorted[i] in sorted;
      CompactedAt(sorted, chunks, scheduled, list, i);
      SameInChunks(sorted[i], chunks, scheduled[i], list);
    }
  }

  lemma Chained(files: seq<Entry>, moved: seq<Entry>, sorted: seq<Entry>, scheduled: seq<Entry>, chunks: seq<Bytes>,
                list: seq<Bytes>)
    requires |moved| == |files| && forall i :: 0 <= i < |files| ==> Same(files[i], chunks, moved[i], chunks)
    requires forall e :: e in sorted <==> e in moved
    requires |scheduled| == |sorted| && forall i :: 0 <= i < |sorted| ==> Same(sorted[i], chunks, scheduled[i], list)
    ensures Matches(files, chunks, scheduled, list)
  {
    forall e | e in files ensures Represented(e, chunks, scheduled, list) {
      var k :| 0 <= k < |files| && files[k] == e;
      assert moved[k] in sorted;
      var i :| 0 <= i < |sorted| && sorted[i] == moved[k];
      assert Same(e, chunks, scheduled[i], list);
    }
    forall f | f in scheduled ensures Original(files, chunks, f, list) {
      var i :| 0 <= i < |scheduled| && scheduled[i] == f;
      assert sorted[i] in moved;
      var k :| 0 <= k < |moved| && moved[k] == sorted[i];
      assert files[k] in files && Same(files[k], chunks, f, list);
    }
  }

  // ------------------------------------------------------------------ the restore

  lemma {:induction false} SelectedDistinct(local: seq<Entry>, remote: seq<Entry>, m: nat, quickMode: bool, kind: Kind)
    requires Sorted(remote) && m <= |remote|
    ensures DistinctPaths(Selected(local, remote, m, quickMode, kind))
  {
    if m > 0 {
      SelectedDistinct(local, remote, m - 1, quickMode, kind);
      var e := remote[m - 1];
      forall f | f in Selected(local, remote, m - 1, quickMode, kind) ensures f.path != e.path {
        InSelected(local, remote, m - 1, quickMode, kind, f);
        var k :| 0 <= k < m - 1 && remote[k] == f;
        TotalOrder(f.path, e.path, e.path);
      }
    }
  }

  /** A file is as the snapshot has it, or what its outcome says; it may be that the restore of it failed or stopped. */
  ghost predicate FileDone(e: Entry, chunks: seq<Bytes>, options: Options, unreadable: set<Path>, before: FileSystem,
                           after: FileSystem, mayFail: bool, mayStop: bool)
  {
    exists o :: SettledAt(o, e, chunks, options, unreadable, SeenAt(before, e.path), after) &&
      (Fails(o) ==> mayFail || mayStop) && (Stopped(o, options) ==> mayStop)
  }

  /** One of the files leads there. */
  ghost predicate LedTo(files: seq<Entry>, disk: FileSystem, f: FileId) {
    exists p :: p in PathsIn(files) && LeadsTo(disk, p) == f
  }

  /** Only what the files lead to has been written, and all of it unless the downloads stopped. */
  ghost predicate OnlyFiles(files: seq<Entry>, disk: FileSystem, after: FileSystem, ok: bool) {
    Rooted(after) && (forall q :: LeadsTo(after, q) == LeadsTo(disk, q)) &&
    (forall p :: p in disk.names ==> p in after.names && after.names[p] == disk.names[p]) &&
    (forall p :: p in after.names && p !in disk.names ==> LedTo(files, disk, Own(p)) && !after.names[p].isLink) &&
    (forall f :: !LedTo(files, disk, f) ==> SeenIn(after, f) == SeenIn(disk, f)) &&
    (ok ==> forall f :: LedTo(files, disk, f) ==> f in after.files) &&
    (forall f :: SeenIn(disk, f).Folder? || SeenIn(after, f).Folder? ==> SeenIn(after, f) == SeenIn(disk, f))
  }

  /** What is seen at the file is what one of the files left that lead there, without a failure unless there was one. */
  ghost predicate LeftByOne(e: Entry, files: seq<Entry>, chunks: seq<Bytes>, options: Options, unreadable: set<Path>,
                            disk: FileSystem, after: FileSystem, mayFail: bool)
  {
    exists f, o, stat :: f in files && LeadsTo(disk, f.path) == LeadsTo(disk, e.path) &&
      SettledAt(o, f, chunks, options, unreadable, stat, after) && !Stopped(o, options) && (Fails(o) ==> mayFail)
  }

  /** If the files lead to places of their own, each of them is done, or untouched if the downloads stopped. */
  ghost predicate DoneApart(files: seq<Entry>, chunks: seq<Bytes>, options: Options, unreadable: set<Path>,
                            before: FileSystem, after: FileSystem, ok: bool, failures: nat)
  {
    AllApart(before, files) ==> forall e :: e in files ==>
      FileDone(e, chunks, options, unreadable, before, after, failures > 0, !ok) ||
      (!ok && SeenAt(after, e.path) == SeenAt(before, e.path))
  }

  ghost predicate AllLeft(files: seq<Entry>, chunks: seq<Bytes>, options: Options, unreadable: set<Path>,
                          before: FileSystem, after: FileSystem, failures: nat)
  {
    forall e :: e in files ==> LeftByOne(e, files, chunks, options, unreadable, before, after, failures > 0)
  }

  /** What the downloads make of the disk. */
  ghost predicate FilesDone(files: seq<Entry>, chunks: seq<Bytes>, options: Options, unreadable: set<Path>,
                            before: FileSystem, after: FileSystem, ok: bool, failures: nat)
  {
    OnlyFiles(files, before, after, ok) &&
    DoneApart(files, chunks, options, unreadable, before, after, ok, failures) &&
    (ok ==> AllLeft(files, chunks, options, unreadable, before, after, failures)) &&
    (options.overwrite && options.reliable && ok ==> failures == 0)
  }

  ghost function AllRefused(files: seq<Entry>, chunks: seq<Bytes>, options: Options, unreadable: set<Path>,
                            disk: FileSystem): set<Path>
  {
    set e | e in files && Refused(e, BytesOf(e, chunks), options, e.path !in unreadable, SeenAt(disk, e.path)) :: e.path
  }

  /** As many paths as there are places in a list of different paths. */
  lemma {:induction false} CountPaths(files: seq<Entry>, places: set<nat>)
    requires DistinctPaths(files) && forall i :: i in places ==> i < |files|
    ensures |set i | i in places :: files[i].path| == |places|
  {
    if k :| k in places {
      var rest := places - {k};
      CountPaths(files, rest);
      assert places == rest + {k};
      assert files[k].path !in (set i | i in rest :: files[i].path);
      assert (set i | i in places :: files[i].path) == (set i | i in rest :: files[i].path) + {files[k].path};
    }
  }

  ghost predicate AnyBlocks(files: seq<Entry>, chunks: seq<Bytes>, options: Options, unreadable: set<Path>,
                            disk: FileSystem)
  {
    exists e :: e in files && Blocks(e, BytesOf(e, chunks), options, e.path !in unreadable, SeenAt(disk, e.path))
  }

  /** Whether a file stops the downloads can be seen before they start, whatever the other files do. */
  ghost predicate StopsForeseen(files: seq<Entry>, options: Options, disk: FileSystem) {
    options.overwrite || options.allowFailures || AllApart(disk, files)
  }

  /** So can whether a file is refused. */
  ghost predicate FailuresForeseen(files: seq<Entry>, options: Options, disk: FileSystem) {
    options.overwrite || AllApart(disk, files)
  }

  /** Download what is scheduled. */
  method DownloadFiles(files: seq<Entry>, disk: FileSystem, options: Options, threads: nat, unreadable: set<Path>,
                  sparse: bool, hashes: seq<ChunkHash>, lengths: seq<nat>, ghost chunks: seq<Bytes>)
    returns (ok: bool, failures: nat, after: FileSystem)
    requires Describes(hashes, lengths, chunks) && DistinctPaths(files) && Rooted(disk)
    requires forall e :: e in files ==> e.IsFile() && Sound(e, chunks)
    ensures ok ==> forall e :: e in files ==> InRange(e, |hashes|)
    ensures ok && StopsForeseen(files, options, disk) ==> !AnyBlocks(files, chunks, options, unreadable, disk)
    ensures options.reliable && !ok && StopsForeseen(files, options, disk) ==>
      !(forall e :: e in files ==> InRange(e, |hashes|)) || AnyBlocks(files, chunks, options, unreadable, disk)
    ensures options.reliable && ok && FailuresForeseen(files, options, disk) ==>
      failures == |AllRefused(files, chunks, options, unreadable, disk)|
    ensures FilesDone(files, chunks, options, unreadable, disk, after, ok, failures)
  {
    var downloader := new ChunkDownloader(threads, options.reliable);
    var inRange, scheduled, list := Schedule(files, downloader, hashes, lengths, chunks);
    ok, failures, after := inRange, 0, disk;
    if ok {
      var outcomes;
      ok, outcomes, failures, after := RestoreEach(scheduled, downloader, disk, options, unreadable, sparse, list);
      Traced(files, chunks, scheduled, list, outcomes, options, unreadable, disk, after, ok, failures);
      Foreseen(files, chunks, scheduled, list, outcomes, options, unreadable, disk, after, ok, failures);
    }
  }

  /** What the whole loop promises. */
  ghost predicate Finished(scheduled: seq<Entry>, list: seq<Bytes>, outcomes: seq<FileOutcome>, options: Options,
                           unreadable: set<Path>, disk: FileSystem, after: FileSystem, ok: bool, failures: nat)
  {
    Progress(outcomes, scheduled, list, options, unreadable, disk, after) &&
    if ok then |outcomes| == |scheduled| && WentOn(outcomes, options, failures)
    else
      outcomes != [] && Stopped(outcomes[|outcomes| - 1], options) &&
      WentOn(outcomes[..|outcomes| - 1], options, failures)
  }

  lemma SettledSame(o: FileOutcome, e: Entry, chunks: seq<Bytes>, f: Entry, list: seq<Bytes>, options: Options,
                    unreadable: set<Path>, stat: Seen, after: FileSystem)
    requires Same(e, chunks, f, list) && SettledAt(o, f, list, options, unreadable, stat, after)
    ensures SettledAt(o, e, chunks, options, unreadable, stat, after)
  {
  }

  /** The scheduled files have the paths of those of the snapshot. */
  lemma SamePathsIn(files: seq<Entry>, chunks: seq<Bytes>, scheduled: seq<Entry>, list: seq<Bytes>)
    requires Matches(files, chunks, scheduled, list)
    ensures PathsIn(files) == PathsIn(scheduled)
  {
    forall e | e in files ensures e.path in PathsIn(scheduled) {
      assert Represented(e, chunks, scheduled, list);
      var i :| 0 <= i < |scheduled| && Same(e, chunks, scheduled[i], list);
      assert scheduled[i] in scheduled;
    }
    forall f | f in scheduled ensures f.path in PathsIn(files) {
      assert Original(files, chunks, f, list);
      var e :| e in files && Same(e, chunks, f, list);
    }
  }

  lemma LedToIsTouched(files: seq<Entry>, scheduled: seq<Entry>, disk: FileSystem, f: FileId)
    requires PathsIn(files) == PathsIn(scheduled)
    ensures LedTo(files, disk, f) <==> Touched(scheduled, |scheduled|, disk, f)
  {
    TouchedMeans(scheduled, |scheduled|, disk, f);
    if LedTo(files, disk, f) {
      var p :| p in PathsIn(scheduled) && LeadsTo(disk, p) == f;
      var e :| e in scheduled && e.path == p;
      var i :| 0 <= i < |scheduled| && scheduled[i] == e;
    }
    if i :| 0 <= i < |scheduled| && LeadsTo(disk, scheduled[i].path) == f {
      assert scheduled[i] in scheduled && scheduled[i].path in PathsIn(scheduled);
    }
  }

  /** What has become of the scheduled files has become of those of the snapshot. */
  lemma Traced(files: seq<Entry>, chunks: seq<Bytes>, scheduled: seq<Entry>, list: seq<Bytes>,
               outcomes: seq<FileOutcome>, options: Options, unreadable: set<Path>, disk: FileSystem, after: FileSystem,
               ok: bool, failures: nat)
    requires Matches(files, chunks, scheduled, list) && DistinctPaths(scheduled)
    requires Finished(scheduled, list, outcomes, options, unreadable, disk, after, ok, failures)
    ensures FilesDone(files, chunks, options, unreadable, disk, after, ok, failures)
  {
    SamePathsIn(files, chunks, scheduled, list);
    forall f ensures LedTo(files, disk, f) <==> Touched(scheduled, |scheduled|, disk, f) {
      LedToIsTouched(files, scheduled, disk, f);
    }
    OnlyReached(files, scheduled, |outcomes|, disk, after, ok);
    if AllApart(disk, files) {
      forall e | e in files
        ensures FileDone(e, chunks, options, unreadable, disk, after, failures > 0, !ok) ||
          (!ok && SeenAt(after, e.path) == SeenAt(disk, e.path))
      {
        assert Represented(e, chunks, scheduled, list);
        var i :| 0 <= i < |scheduled| && Same(e, chunks, scheduled[i], list);
        OneTraced(e, chunks, scheduled, list, outcomes, options, unreadable, disk, after, ok, failures, i);
      }
    }
    if ok { AllTraced(files, chunks, scheduled, list, outcomes, options, unreadable, disk, after, failures); }
  }

  lemma AllTraced(files: seq<Entry>, chunks: seq<Bytes>, scheduled: seq<Entry>, list: seq<Bytes>,
                  outcomes: seq<FileOutcome>, options: Options, unreadable: set<Path>, disk: FileSystem,
                  after: FileSystem, failures: nat)
    requires Matches(files, chunks, scheduled, list)
    requires Finished(scheduled, list, outcomes, options, unreadable, disk, after, true, failures)
    ensures AllLeft(files, chunks, options, unreadable, disk, after, failures)
  {
    forall e | e in files ensures LeftByOne(e, files, chunks, options, unreadable, disk, after, failures > 0) {
      assert Represented(e, chunks, scheduled, list);
      var i :| 0 <= i < |scheduled| && Same(e, chunks, scheduled[i], list);
      OneLeft(e, files, chunks, scheduled, list, outcomes, options, unreadable, disk, after, failures, i);
    }
  }

  lemma OnlyReached(files: seq<Entry>, scheduled: seq<Entry>, n: nat, disk: FileSystem, after: FileSystem, ok: bool)
    requires n <= |scheduled| && Reached(scheduled, n, disk, after) && (ok ==> n == |scheduled|)
    requires forall f :: LedTo(files, disk, f) <==> Touched(scheduled, |scheduled|, disk, f)
    ensures OnlyFiles(files, disk, after, ok)
  {
    forall f | Touched(scheduled, n, disk, f) ensures LedTo(files, disk, f) {
      TouchedMeans(scheduled, n, disk, f);
      TouchedMeans(scheduled, |scheduled|, disk, f);
    }
  }

  lemma OneTraced(e: Entry, chunks: seq<Bytes>, scheduled: seq<Entry>, list: seq<Bytes>, outcomes: seq<FileOutcome>,
                  options: Options, unreadable: set<Path>, disk: FileSystem, after: FileSystem, ok: bool,
                  failures: nat, i: nat)
    requires Finished(scheduled, list, outcomes, options, unreadable, disk, after, ok, failures)
    requires i < |scheduled| && Same(e, chunks, scheduled[i], list) && AllApart(disk, scheduled)
    requires DistinctPaths(scheduled)
    ensures FileDone(e, chunks, options, unreadable, disk, after, failures > 0, !ok) ||
      (!ok && SeenAt(after, e.path) == SeenAt(disk, e.path))
  {
    NoneFailed(if ok then outcomes else outcomes[..|outcomes| - 1]);
    if i < |outcomes| {
      SettledSame(outcomes[i], e, chunks, scheduled[i], list, options, unreadable, SeenAt(disk, e.path), after);
    } else {
      var f := LeadsTo(disk, e.path);
      forall k | 0 <= k < |outcomes| ensures LeadsTo(disk, scheduled[k].path) != f {
        assert scheduled[k].path in PathsIn(scheduled) && scheduled[i].path in PathsIn(scheduled);
      }
      TouchedMeans(scheduled, |outcomes|, disk, f);
    }
  }

  lemma OneLeft(e: Entry, files: seq<Entry>, chunks: seq<Bytes>, scheduled: seq<Entry>, list: seq<Bytes>,
                outcomes: seq<FileOutcome>, options: Options, unreadable: set<Path>, disk: FileSystem,
                after: FileSystem, failures: nat, i: nat)
    requires Matches(files, chunks, scheduled, list)
    requires Finished(scheduled, list, outcomes, options, unreadable, disk, after, true, failures)
    requires i < |scheduled| && Same(e, chunks, scheduled[i], list)
    ensures LeftByOne(e, files, chunks, options, unreadable, disk, after, failures > 0)
  {
    NoneFailed(outcomes);
    assert LastWins(outcomes, scheduled, list, options, unreadable, disk, after, i);
    var j, stat :| 0 <= j < |outcomes| && LeadsTo(disk, scheduled[j].path) == LeadsTo(disk, scheduled[i].path) &&
      SettledAt(outcomes[j], scheduled[j], list, options, unreadable, stat, after);
    assert Original(files, chunks, scheduled[j], list);
    var f :| f in files && Same(f, chunks, scheduled[j], list);
    SettledSame(outcomes[j], f, chunks, scheduled[j], list, options, unreadable, stat, after);
  }

  /** With intact chunks, whether the downloads stop, and whether any fails, can be seen beforehand. */
  lemma Foreseen(files: seq<Entry>, chunks: seq<Bytes>, scheduled: seq<Entry>, list: seq<Bytes>,
                 outcomes: seq<FileOutcome>, options: Options, unreadable: set<Path>, disk: FileSystem,
                 after: FileSystem, ok: bool, failures: nat)
    requires Matches(files, chunks, scheduled, list) && DistinctPaths(scheduled)
    requires Finished(scheduled, list, outcomes, options, unreadable, disk, after, ok, failures)
    ensures ok && StopsForeseen(files, options, disk) ==> !AnyBlocks(files, chunks, options, unreadable, disk)
    ensures options.reliable && !ok && StopsForeseen(files, options, disk) ==>
      AnyBlocks(files, chunks, options, unreadable, disk)
    ensures options.reliable && ok && FailuresForeseen(files, options, disk) ==>
      failures == |AllRefused(files, chunks, options, unreadable, disk)|
  {
    SamePathsIn(files, chunks, scheduled, list);
    forall e | e in files && ok && StopsForeseen(files, options, disk)
      ensures !Blocks(e, BytesOf(e, chunks), options, e.path !in unreadable, SeenAt(disk, e.path))
    {
      assert Represented(e, chunks, scheduled, list);
      var i :| 0 <= i < |scheduled| && Same(e, chunks, scheduled[i], list);
      SeenBefore(e, chunks, scheduled, list, outcomes, options, unreadable, disk, after, i);
    }
    if options.reliable && !ok {
      var i := |outcomes| - 1;
      assert Original(files, chunks, scheduled[i], list);
      var e :| e in files && Same(e, chunks, scheduled[i], list);
      SeenBefore(e, chunks, scheduled, list, outcomes, options, unreadable, disk, after, i);
    }
    if options.reliable && ok && FailuresForeseen(files, options, disk) {
      RefusedAreFailed(files, chunks, scheduled, list, outcomes, options, unreadable, disk, after);
      CountPaths(scheduled, Failed(outcomes));
    }
  }

  /** The files refused are those whose outcome is a failure. */
  lemma RefusedAreFailed(files: seq<Entry>, chunks: seq<Bytes>, scheduled: seq<Entry>, list: seq<Bytes>,
                         outcomes: seq<FileOutcome>, options: Options, unreadable: set<Path>, disk: FileSystem,
                         after: FileSystem)
    requires Matches(files, chunks, scheduled, list) && |outcomes| == |scheduled|
    requires Progress(outcomes, scheduled, list, options, unreadable, disk, after)
    requires options.reliable && FailuresForeseen(scheduled, options, disk)
    ensures AllRefused(files, chunks, options, unreadable, disk) ==
            set i | i in Failed(outcomes) :: scheduled[i].path
  {
    forall e | e in files
      ensures Refused(e, BytesOf(e, chunks), options, e.path !in unreadable, SeenAt(disk, e.path)) ==>
        e.path in set i | i in Failed(outcomes) :: scheduled[i].path
    {
      assert Represented(e, chunks, scheduled, list);
      var i :| 0 <= i < |scheduled| && Same(e, chunks, scheduled[i], list);
      SeenBefore(e, chunks, scheduled, list, outcomes, options, unreadable, disk, after, i);
      if Fails(outcomes[i]) { assert i in Failed(outcomes); }
    }
    forall i | i in Failed(outcomes)
      ensures scheduled[i].path in AllRefused(files, chunks, options, unreadable, disk)
    {
      assert Original(files, chunks, scheduled[i], list);
      var e :| e in files && Same(e, chunks, scheduled[i], list);
      SeenBefore(e, chunks, scheduled, list, outcomes, options, unreadable, disk, after, i);
    }
  }

  lemma SeenBefore(e: Entry, chunks: seq<Bytes>, scheduled: seq<Entry>, list: seq<Bytes>, outcomes: seq<FileOutcome>,
                   options: Options, unreadable: set<Path>, disk: FileSystem, after: FileSystem, i: nat)
    requires Progress(outcomes, scheduled, list, options, unreadable, disk, after) && i < |outcomes|
    requires Same(e, chunks, scheduled[i], list)
    ensures var o, whole, readable, stat :=
              outcomes[i], BytesOf(e, chunks), e.path !in unreadable, SeenAt(disk, e.path);
      (StopsForeseen(scheduled, options, disk) && !Stopped(o, options) ==>
        !Blocks(e, whole, options, readable, stat)) &&
      (options.reliable && StopsForeseen(scheduled, options, disk) ==>
        (Stopped(o, options) <==> Blocks(e, whole, options, readable, stat))) &&
      (options.reliable && FailuresForeseen(scheduled, options, disk) ==>
        (Fails(o) <==> Refused(e, whole, options, readable, stat)))
  {
    var stat := SeenAt(disk, e.path);
    assert FolderDecides(outcomes[i], scheduled[i], options, disk);
    if AllApart(disk, scheduled) {
      SettledSame(outcomes[i], e, chunks, scheduled[i], list, options, unreadable, stat, after);
      StoppedIsBlocked(outcomes[i], e, BytesOf(e, chunks), options, e.path !in unreadable, stat, SeenAt(after, e.path));
    }
  }

  // ------------------------------------------------------------------ files that lead to one place

  /** These bytes are seen; a directory is left in the place of an empty file only. */
  predicate Shows(bytes: Bytes, seen: Seen) {
    match seen
    case Nothing => false
    case Regular(content, _) => content == bytes
    case Folder(_, _) => bytes == []
  }

  predicate Lasts(f: FileId, gone: set<Path>) { f.Own? ==> f.name !in gone }

  /** No two files with different contents lead to the same place, if that lasts. */
  ghost predicate Agree(files: seq<Entry>, chunks: seq<Bytes>, disk: FileSystem, gone: set<Path>) {
    forall e, f :: e in files && f in files && Lasts(LeadsTo(disk, e.path), gone) &&
                   LeadsTo(disk, e.path) == LeadsTo(disk, f.path) ==>
      BytesOf(e, chunks) == BytesOf(f, chunks)
  }

  /** What the files lead to holds what they should. */
  ghost predicate AllShow(files: seq<Entry>, chunks: seq<Bytes>, disk: FileSystem, after: FileSystem, gone: set<Path>) {
    forall e :: e in files && Lasts(LeadsTo(disk, e.path), gone) ==>
      Shows(BytesOf(e, chunks), SeenIn(after, LeadsTo(disk, e.path)))
  }

  /** When nothing has failed, all files hold what they should if and only if they agree. */
  lemma AllShownIfAgreed(files: seq<Entry>, chunks: seq<Bytes>, options: Options, unreadable: set<Path>,
                         disk: FileSystem, after: FileSystem, gone: set<Path>)
    requires FilesDone(files, chunks, options, unreadable, disk, after, true, 0) && !options.quickMode
    requires forall e :: e in files ==> e.IsFile() && Sound(e, chunks)
    ensures AllShow(files, chunks, disk, after, gone) <==> Agree(files, chunks, disk, gone)
  {
    if Agree(files, chunks, disk, gone) {
      forall e | e in files && Lasts(LeadsTo(disk, e.path), gone)
        ensures Shows(BytesOf(e, chunks), SeenIn(after, LeadsTo(disk, e.path)))
      {
        assert LeftByOne(e, files, chunks, options, unreadable, disk, after, false);
        ShownByOne(e, files, chunks, options, unreadable, disk, after);
        AgreedIsShown(e, files, chunks, disk, after, gone);
      }
    }
    if AllShow(files, chunks, disk, after, gone) { ShownAgree(files, chunks, disk, after, gone); }
  }

  lemma ShownAgree(files: seq<Entry>, chunks: seq<Bytes>, disk: FileSystem, after: FileSystem, gone: set<Path>)
    requires AllShow(files, chunks, disk, after, gone)
    ensures Agree(files, chunks, disk, gone)
  {
  }

  lemma AgreedIsShown(e: Entry, files: seq<Entry>, chunks: seq<Bytes>, disk: FileSystem, after: FileSystem,
                      gone: set<Path>)
    requires e in files && Lasts(LeadsTo(disk, e.path), gone)
    requires Agree(files, chunks, disk, gone) && Shown(e, files, chunks, disk, after)
    ensures Shows(BytesOf(e, chunks), SeenIn(after, LeadsTo(disk, e.path)))
  {
    var f :| f in files && LeadsTo(disk, f.path) == LeadsTo(disk, e.path) &&
      Shows(BytesOf(f, chunks), SeenIn(after, LeadsTo(disk, e.path)));
  }

  /** What is seen at the file is what one of those that lead there should hold. */
  ghost predicate Shown(e: Entry, files: seq<Entry>, chunks: seq<Bytes>, disk: FileSystem, after: FileSystem) {
    exists f :: f in files && LeadsTo(disk, f.path) == LeadsTo(disk, e.path) &&
      Shows(BytesOf(f, chunks), SeenIn(after, LeadsTo(disk, e.path)))
  }

  lemma ShownByOne(e: Entry, files: seq<Entry>, chunks: seq<Bytes>, options: Options, unreadable: set<Path>,
                   disk: FileSystem, after: FileSystem)
    requires forall q :: LeadsTo(after, q) == LeadsTo(disk, q)
    requires LeftByOne(e, files, chunks, options, unreadable, disk, after, false) && !options.quickMode
    ensures Shown(e, files, chunks, disk, after)
  {
    var f, o, stat :| f in files && LeadsTo(disk, f.path) == LeadsTo(disk, e.path) &&
      SettledAt(o, f, chunks, options, unreadable, stat, after) && !Stopped(o, options) && !Fails(o);
    assert SeenAt(after, e.path) == SeenAt(after, f.path);
  }
}
