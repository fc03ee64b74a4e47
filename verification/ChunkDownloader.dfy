/**
 Downloading the chunks of the files to be restored: several files at once are listed chunk by chunk, chunks are
 fetched ahead of their use in any order of completion, and released once all files that use them have been passed.
 */
module ChunkDownloaders {
  import opened Common
  import opened Buzhash
  import opened Chunking
  import opened ChunkLists
  import opened EntryLists
  import opened BackupMerge
  import opened SnapshotCodec

  /** What a download delivers: the contents of the chunk, or a sign that they are corrupted. */
  datatype Download = Download(content: Bytes, isBroken: bool)

  datatype Task = Task(chunk: Option<Download>, chunkIndex: nat, chunkHash: ChunkHash, chunkLength: nat,
                       needed: bool, isDownloading: bool)

  /** The tasks are numbered, and name and measure these chunks. */
  ghost predicate Names(tasks: seq<Task>, chunks: seq<Bytes>) {
    |tasks| == |chunks| &&
    forall i :: 0 <= i < |chunks| ==>
      tasks[i].chunkIndex == i && tasks[i].chunkHash == HashOf(chunks[i]) && tasks[i].chunkLength == |chunks[i]|
  }

  ghost predicate Untouched(tasks: seq<Task>) {
    forall i :: 0 <= i < |tasks| ==> !tasks[i].isDownloading && tasks[i].chunk.None?
  }

  /** Files use the tasks from left to right: each starts at or after the last task of those before it. */
  ghost predicate Ordered(files: seq<Entry>, n: nat) {
    (forall i :: 0 <= i < |files| && HasContents(files[i]) ==>
      0 <= files[i].range.startChunk <= files[i].range.endChunk < n) &&
    (forall i, j :: 0 <= i < j < |files| && HasContents(files[i]) && HasContents(files[j]) ==>
      files[i].range.endChunk <= files[j].range.startChunk)
  }

  lemma OrderedNext(files: seq<Entry>, n: nat, file: Entry, m: nat)
    requires Ordered(files, n) && n <= m
    requires HasContents(file) ==>
      n - 1 <= file.range.startChunk <= file.range.endChunk < m && 0 <= file.range.startChunk
    ensures Ordered(files + [file], m)
  {
    var l := files + [file];
    forall i | 0 <= i < |files| && HasContents(l[i])
      ensures l[i].range.endChunk < n && (HasContents(file) ==> l[i].range.endChunk <= file.range.startChunk)
    {
      assert l[i] == files[i];
    }
  }

  /** No task has been submitted twice, and the submitted ones are those marked as downloading. */
  ghost predicate Once(submitted: seq<nat>, tasks: seq<Task>) {
    (forall i, j :: 0 <= i < j < |submitted| ==> submitted[i] != submitted[j]) &&
    (forall k: nat :: k in submitted <==> k < |tasks| && tasks[k].isDownloading)
  }

  /** A completed task holds its chunk, and a task not yet passed that was submitted is in progress or completed. */
  ghost predicate Holds(tasks: seq<Task>, downloading: set<nat>, completed: set<nat>, last: nat, chunks: seq<Bytes>,
                        reliable: bool)
  {
    (forall i :: i in downloading ==> i < |tasks| && tasks[i].isDownloading && i !in completed) &&
    (forall i :: i in completed ==>
      i < |tasks| && tasks[i].isDownloading && Delivered(tasks[i].chunk, i, chunks, reliable)) &&
    (forall i :: last <= i < |tasks| && tasks[i].isDownloading ==> i in downloading || i in completed)
  }

  ghost predicate Delivered(chunk: Option<Download>, i: nat, chunks: seq<Bytes>, reliable: bool) {
    i < |chunks| && chunk.Some? && if chunk.value.isBroken then !reliable else chunk.value.content == chunks[i]
  }

  ghost predicate Intact(tasks: seq<Task>, downloading: set<nat>, completed: set<nat>, last: nat, submitted: seq<nat>,
                         chunks: seq<Bytes>, reliable: bool)
  {
    Names(tasks, chunks) && Holds(tasks, downloading, completed, last, chunks, reliable) && Once(submitted, tasks)
  }

  lemma SubmitKeeps(tasks: seq<Task>, downloading: set<nat>, completed: set<nat>, last: nat, submitted: seq<nat>,
                    chunks: seq<Bytes>, reliable: bool, i: nat)
    requires Intact(tasks, downloading, completed, last, submitted, chunks, reliable) && i < |tasks|
    requires !tasks[i].isDownloading
    ensures i !in downloading && i !in completed
    ensures Intact(tasks[i := tasks[i].(isDownloading := true)], downloading + {i}, completed, last, submitted + [i],
                   chunks, reliable)
  {
  }

  lemma ReceiveKeeps(tasks: seq<Task>, downloading: set<nat>, completed: set<nat>, last: nat, submitted: seq<nat>,
                     chunks: seq<Bytes>, reliable: bool, i: nat, chunk: Download)
    requires Intact(tasks, downloading, completed, last, submitted, chunks, reliable) && i in downloading
    requires if chunk.isBroken then !reliable else chunk.content == tasks[i].chunkHash.content
    ensures Intact(tasks[i := tasks[i].(chunk := Some(chunk))], downloading - {i}, completed + {i}, last, submitted,
                   chunks, reliable)
  {
  }

  lemma ReleaseKeeps(tasks: seq<Task>, downloading: set<nat>, completed: set<nat>, bound: nat, submitted: seq<nat>,
                     chunks: seq<Bytes>, reliable: bool, i: nat)
    requires Intact(tasks, downloading, completed, bound, submitted, chunks, reliable) && i in completed && i < bound
    ensures Intact(tasks[i := tasks[i].(chunk := None)], downloading, completed - {i}, bound, submitted, chunks,
                   reliable)
  {
  }

  /** The chunks of these tasks, as far as they come before `n`, have been given back. */
  ghost predicate Released(before: seq<Task>, done: set<nat>, n: nat, after: seq<Task>) {
    |after| == |before| &&
    forall i :: 0 <= i < |after| ==>
      after[i] == if i in done && i < n then before[i].(chunk := None) else before[i]
  }

  lemma ReleasedNext(before: seq<Task>, done: set<nat>, n: nat, after: seq<Task>, i: nat)
    requires Released(before, done, n, after) && i < |after|
    ensures i < n ==> Released(before, done + {i}, n, after[i := after[i].(chunk := None)])
    ensures i >= n ==> Released(before, done + {i}, n, after)
  {
  }

  /** The tasks are for the chunks at these places, and no two neighbours for the same. */
  ghost predicate Planned(tasks: seq<Task>, hashes: seq<ChunkHash>, places: seq<nat>) {
    |places| == |tasks| &&
    (forall k :: 0 <= k < |places| ==> places[k] < |hashes| && tasks[k].chunkHash == hashes[places[k]]) &&
    (forall k :: 0 < k < |places| ==> places[k] != places[k - 1])
  }

  ghost predicate EndsAt(places: seq<nat>, last: int) {
    if places == [] then last == -1 else places[|places| - 1] == last
  }

  /** The places of a range, all but the first if that is the last one planned. */
  ghost function PlacesOf(last: int, r: Range): seq<nat>
    requires 0 <= r.startChunk <= r.endChunk
  {
    var first := if last == r.startChunk then r.startChunk + 1 else r.startChunk;
    seq(r.endChunk + 1 - first, i => first + i)
  }

  lemma PlannedNext(tasks: seq<Task>, list: seq<Bytes>, more: seq<Task>, hashes: seq<ChunkHash>, lengths: seq<nat>,
                    all: seq<Bytes>, places: seq<nat>, last: int, r: Range)
    requires Planned(tasks, hashes, places) && EndsAt(places, last) && Describes(hashes, lengths, all)
    requires 0 <= r.startChunk <= r.endChunk < |all| && Names(tasks, list)
    requires Names(more, list + Appended(all, last, r))
    ensures Planned(more, hashes, places + PlacesOf(last, r)) && EndsAt(places + PlacesOf(last, r), r.endChunk)
  {
    var longer := places + PlacesOf(last, r);
    NeighboursDiffer(tasks, hashes, places, last, r);
    forall k | 0 <= k < |longer| ensures longer[k] < |hashes| && more[k].chunkHash == hashes[longer[k]] {
      PlaceOf(tasks, list, more, hashes, lengths, all, places, last, r, k);
    }
  }

  lemma NeighboursDiffer(tasks: seq<Task>, hashes: seq<ChunkHash>, places: seq<nat>, last: int, r: Range)
    requires Planned(tasks, hashes, places) && EndsAt(places, last) && 0 <= r.startChunk <= r.endChunk
    ensures var longer := places + PlacesOf(last, r);
      EndsAt(longer, r.endChunk) && forall k :: 0 < k < |longer| ==> longer[k] != longer[k - 1]
  {
  }

  lemma PlaceOf(tasks: seq<Task>, list: seq<Bytes>, more: seq<Task>, hashes: seq<ChunkHash>, lengths: seq<nat>,
                all: seq<Bytes>, places: seq<nat>, last: int, r: Range, k: nat)
    requires Planned(tasks, hashes, places) && Describes(hashes, lengths, all)
    requires 0 <= r.startChunk <= r.endChunk < |all| && Names(tasks, list)
    requires Names(more, list + Appended(all, last, r)) && k < |places + PlacesOf(last, r)|
    ensures |more| == |places + PlacesOf(last, r)|
    ensures var longer := places + PlacesOf(last, r); longer[k] < |hashes| && more[k].chunkHash == hashes[longer[k]]
  {
    assert more[k].chunkHash == HashOf((list + Appended(all, last, r))[k]);
    if k < |places| { assert tasks[k].chunkHash == HashOf(list[k]); }
  }

  lemma FirstAndNext(files: seq<Entry>, i: nat)
    requires i < |files|
    ensures files[..i + 1] == files[..i] + [files[i]]
  {
  }

  class ChunkDownloader {
    const threads: nat
    /** Whether all chunks in the storage are intact. */
    const reliable: bool
    var taskList: seq<Task>
    var completedTasks: set<nat>
    var lastChunkIndex: nat
    var numberOfDownloadedChunks: nat
    var numberOfDownloadingChunks: int
    var numberOfActiveChunks: int
    /** The tasks the operator is working on. */
    var downloading: set<nat>
    ghost var submitted: seq<nat>

    ghost predicate Counted()
      reads this
    {
      numberOfDownloadingChunks == |downloading| && numberOfActiveChunks == |downloading| + |completedTasks| &&
      numberOfDownloadedChunks + numberOfDownloadingChunks == |submitted|
    }

    /** At most as many chunks as threads, not counting the one last waited for. */
    ghost predicate Limited()
      reads this
    {
      numberOfActiveChunks <= threads || (numberOfActiveChunks == threads + 1 && lastChunkIndex in completedTasks)
    }

    ghost predicate Consistent(chunks: seq<Bytes>)
      reads this
    {
      Intact(taskList, downloading, completedTasks, lastChunkIndex, submitted, chunks, reliable) && Counted()
    }

    ghost predicate Valid(chunks: seq<Bytes>)
      reads this
    {
      Consistent(chunks) && Limited()
    }

    constructor (threads: nat, reliable: bool)
      ensures Valid([]) && this.threads == threads && this.reliable == reliable && lastChunkIndex == 0 && taskList == []
      ensures submitted == []
    {
      this.reliable := reliable;
      this.threads, taskList, completedTasks, lastChunkIndex := threads, [], {}, 0;
      numberOfDownloadedChunks, numberOfDownloadingChunks, numberOfActiveChunks := 0, 0, 0;
      downloading, submitted := {}, [];
    }

    method AddTask(hash: ChunkHash, length: nat, ghost chunk: Bytes, ghost list: seq<Bytes>)
      requires Names(taskList, list) && Untouched(taskList) && hash == HashOf(chunk) && length == |chunk|
      modifies this`taskList
      ensures Names(taskList, list + [chunk]) && Untouched(taskList)
      ensures taskList == old(taskList) + [Task(None, |list|, hash, length, false, false)]
    {
      taskList := taskList + [Task(None, |taskList|, hash, length, false, false)];
    }

    method ShareLast(ghost list: seq<Bytes>)
      requires Names(taskList, list) && Untouched(taskList) && taskList != []
      modifies this`taskList
      ensures Names(taskList, list) && Untouched(taskList)
      ensures taskList == old(taskList)[|list| - 1 := old(taskList)[|list| - 1].(needed := true)]
    {
      taskList := taskList[|taskList| - 1 := taskList[|taskList| - 1].(needed := true)];
    }

    /** List the chunks of one file; a first chunk that ends the list is shared with the file before. */
    method AddFile(r: Range, last: int, hashes: seq<ChunkHash>, lengths: seq<nat>, ghost all: seq<Bytes>,
                   ghost list: seq<Bytes>)
      returns (q: Range, ghost longer: seq<Bytes>)
      requires Describes(hashes, lengths, all) && Names(taskList, list) && Untouched(taskList) && Tail(all, last, list)
      requires 0 <= r.startChunk <= r.endChunk < |all|
      modifies this`taskList
      ensures Names(taskList, longer) && Untouched(taskList) && Tail(all, r.endChunk, longer)
      ensures list <= longer && SameChunks(all, r, longer, q) && longer == list + Appended(all, last, r)
      ensures q == r.(startChunk := |longer| - 1 - (r.endChunk - r.startChunk), endChunk := |longer| - 1)
      ensures q.endChunk == |longer| - 1 && |list| - 1 <= q.startChunk
    {
      Renumbered(all, last, list, r);
      ghost var first := if last == r.startChunk then r.startChunk + 1 else r.startChunk;
      ghost var whole := list + Appended(all, last, r);
      ghost var renumbered := r.(startChunk := |whole| - 1 - (r.endChunk - r.startChunk), endChunk := |whole| - 1);
      longer := AddChunks(r, last, first, hashes, lengths, all, list);
      assert longer == whole && |taskList| == |whole|;
      q := r.(startChunk := |taskList| - (r.endChunk - r.startChunk) - 1, endChunk := |taskList| - 1);
      assert q == renumbered;
    }

    /** List the chunks of a range, all but the first if that ends the list. */
    method AddChunks(r: Range, last: int, ghost first: nat, hashes: seq<ChunkHash>, lengths: seq<nat>,
                     ghost all: seq<Bytes>, ghost list: seq<Bytes>)
      returns (ghost longer: seq<Bytes>)
      requires Describes(hashes, lengths, all) && Names(taskList, list) && Untouched(taskList)
      requires 0 <= r.startChunk <= r.endChunk < |all| && (last == r.startChunk ==> list != [])
      requires first == if last == r.startChunk then r.startChunk + 1 else r.startChunk
      modifies this`taskList
      ensures Names(taskList, longer) && Untouched(taskList) && longer == list + all[first..r.endChunk + 1]
    {
      longer := list;
      assert all[first..first] == [];
      var lastChunkIndex := last;
      for i := r.startChunk to r.endChunk + 1
        invariant Names(taskList, longer) && Untouched(taskList)
        invariant longer == list + all[first..Max(first, i)]
        invariant lastChunkIndex == if i == r.startChunk then last else i - 1
      {
        if lastChunkIndex != i {
          AddTask(hashes[i], lengths[i], all[i], longer);
          OneLonger(list, all, first, i);
          longer := longer + [all[i]];
        } else {
          ShareLast(longer);
        }
        lastChunkIndex := i;
      }
    }

    /** The same, and where the chunks are from. */
    method AddPlanned(r: Range, last: int, hashes: seq<ChunkHash>, lengths: seq<nat>, ghost all: seq<Bytes>,
                      ghost list: seq<Bytes>, ghost places: seq<nat>)
      returns (q: Range, ghost longer: seq<Bytes>, ghost more: seq<nat>)
      requires Describes(hashes, lengths, all) && Names(taskList, list) && Untouched(taskList) && Tail(all, last, list)
      requires 0 <= r.startChunk <= r.endChunk < |all|
      requires Planned(taskList, hashes, places) && EndsAt(places, last)
      modifies this`taskList
      ensures Names(taskList, longer) && Untouched(taskList) && Tail(all, r.endChunk, longer)
      ensures list <= longer && SameChunks(all, r, longer, q)
      ensures q == r.(startChunk := q.startChunk, endChunk := |longer| - 1) && |list| - 1 <= q.startChunk
      ensures Planned(taskList, hashes, more) && EndsAt(more, r.endChunk)
    {
      ghost var tasks := taskList;
      q, longer := AddFile(r, last, hashes, lengths, all, list);
      PlannedNext(tasks, list, taskList, hashes, lengths, all, places, last, r);
      more := places + PlacesOf(last, r);
    }

    /** The next file, after those done. */
    method AddOne(file: Entry, last: int, hashes: seq<ChunkHash>, lengths: seq<nat>, ghost all: seq<Bytes>,
                  ghost list: seq<Bytes>, ghost places: seq<nat>, ghost done: seq<Entry>, ghost renumbered: seq<Entry>)
      returns (moved: Entry, lastChunkIndex: int, ghost longer: seq<Bytes>, ghost more: seq<nat>)
      requires Describes(hashes, lengths, all) && Names(taskList, list) && Untouched(taskList) && Tail(all, last, list)
      requires file.IsFile() && file.size >= 0
      requires HasContents(file) ==> 0 <= file.range.startChunk <= file.range.endChunk < |all|
      requires Planned(taskList, hashes, places) && EndsAt(places, last)
      requires AllCompacted(done, all, renumbered, list) && Ordered(renumbered, |list|)
      modifies this`taskList
      ensures Names(taskList, longer) && Untouched(taskList) && Tail(all, lastChunkIndex, longer)
      ensures Planned(taskList, hashes, more) && EndsAt(more, lastChunkIndex)
      ensures AllCompacted(done + [file], all, renumbered + [moved], longer) && Ordered(renumbered + [moved], |longer|)
    {
      moved, lastChunkIndex, longer, more := file, last, list, places;
      if file.size != 0 {
        var q;
        q, longer, more := AddPlanned(file.range, last, hashes, lengths, all, list, places);
        lastChunkIndex := file.range.endChunk;
        moved := file.(range := q);
      }
      AllCompactedNext(done, all, renumbered, list, longer, file, moved);
      OrderedNext(renumbered, |list|, moved, |longer|);
    }

    /** List the chunks of all files, and renumber the files accordingly. */
    method AddFiles(hashes: seq<ChunkHash>, lengths: seq<nat>, files: seq<Entry>, ghost all: seq<Bytes>)
      returns (renumbered: seq<Entry>, ghost chunks: seq<Bytes>)
      requires Describes(hashes, lengths, all) && taskList == [] && lastChunkIndex == 0 && Valid([])
      requires forall e :: e in files ==> e.IsFile() && e.size >= 0
      requires forall e :: e in files && HasContents(e) ==> 0 <= e.range.startChunk <= e.range.endChunk < |all|
      modifies this`taskList
      ensures Valid(chunks) && AllCompacted(files, all, renumbered, chunks)
      ensures |renumbered| == |files| && Ordered(renumbered, |chunks|)
      ensures exists places :: Planned(taskList, hashes, places)
    {
      var lastChunkIndex := -1;
      ghost var places: seq<nat> := [];
      renumbered, chunks := [], [];
      assert files[..0] == [];
      for i := 0 to |files|
        invariant Names(taskList, chunks) && Untouched(taskList) && Tail(all, lastChunkIndex, chunks)
        invariant AllCompacted(files[..i], all, renumbered, chunks)
        invariant |renumbered| == i && Ordered(renumbered, |chunks|)
        invariant Planned(taskList, hashes, places) && EndsAt(places, lastChunkIndex)
      {
        assert files[i] in files;
        var file;
        file, lastChunkIndex, chunks, places :=
          AddOne(files[i], lastChunkIndex, hashes, lengths, all, chunks, places, files[..i], renumbered);
        renumbered := renumbered + [file];
        FirstAndNext(files, i);
      }
      assert files[..|files|] == files;
    }

    /** A chunk of which there is no local copy. */
    method Need(i: nat, ghost chunks: seq<Bytes>)
      requires Valid(chunks) && i < |taskList|
      modifies this`taskList
      ensures Valid(chunks) && taskList == old(taskList)[i := old(taskList)[i].(needed := true)]
    {
      taskList := taskList[i := taskList[i].(needed := true)];
    }

    /** Hand a task to the operator. */
    method Submit(i: nat, ghost chunks: seq<Bytes>)
      requires Consistent(chunks) && i < |taskList| && !taskList[i].isDownloading && lastChunkIndex <= i
      modifies this`taskList, this`downloading, this`submitted, this`numberOfDownloadingChunks,
        this`numberOfActiveChunks
      ensures Consistent(chunks) && numberOfActiveChunks == old(numberOfActiveChunks) + 1
      ensures downloading == old(downloading) + {i} && submitted == old(submitted) + [i]
      ensures taskList == old(taskList)[i := old(taskList)[i].(isDownloading := true)]
    {
      SubmitKeeps(taskList, downloading, completedTasks, lastChunkIndex, submitted, chunks, reliable, i);
      downloading, submitted := downloading + {i}, submitted + [i];
      taskList := taskList[i := taskList[i].(isDownloading := true)];
      numberOfDownloadingChunks := numberOfDownloadingChunks + 1;
      numberOfActiveChunks := numberOfActiveChunks + 1;
    }

    /** Release the completed chunks before the given one. */
    method Reclaim(chunkIndex: nat, ghost chunks: seq<Bytes>)
      requires Valid(chunks) && chunkIndex < |taskList|
      modifies this`taskList, this`completedTasks, this`lastChunkIndex, this`numberOfActiveChunks
      ensures Valid(chunks) && lastChunkIndex == Max(old(lastChunkIndex), chunkIndex)
      ensures old(lastChunkIndex) < chunkIndex ==>
        completedTasks == (set i | i in old(completedTasks) && i >= chunkIndex) && numberOfActiveChunks <= threads
      ensures old(lastChunkIndex) < chunkIndex ==> Released(old(taskList), old(completedTasks), chunkIndex, taskList)
      ensures old(lastChunkIndex) >= chunkIndex ==> completedTasks == old(completedTasks) && taskList == old(taskList)
    {
      if lastChunkIndex >= chunkIndex { return; }
      assert lastChunkIndex in completedTasks ==> numberOfActiveChunks <= threads + 1;
      ReleaseAll(chunkIndex, chunks);
      if old(lastChunkIndex in completedTasks) {
        assert old(lastChunkIndex) !in completedTasks;
        SmallerSet(completedTasks, old(completedTasks));
      } else {
        SubsetSize(completedTasks, old(completedTasks));
      }
      lastChunkIndex := chunkIndex;
    }

    method ReleaseAll(chunkIndex: nat, ghost chunks: seq<Bytes>)
      requires Consistent(chunks) && lastChunkIndex < chunkIndex < |taskList|
      modifies this`taskList, this`completedTasks, this`numberOfActiveChunks
      ensures Intact(taskList, downloading, completedTasks, chunkIndex, submitted, chunks, reliable) && Counted()
      ensures completedTasks == (set i | i in old(completedTasks) && i >= chunkIndex)
      ensures Released(old(taskList), old(completedTasks), chunkIndex, taskList)
    {
      var rest := completedTasks;
      while rest != {}
        invariant rest <= completedTasks <= old(completedTasks)
        invariant Intact(taskList, downloading, completedTasks, chunkIndex, submitted, chunks, reliable)
        invariant forall i :: i in old(completedTasks) && i !in rest ==> (i in completedTasks <==> i >= chunkIndex)
        invariant Counted()
        invariant Released(old(taskList), old(completedTasks) - rest, chunkIndex, taskList)
        decreases |rest|
      {
        var i :| i in rest;
        ReleasedNext(old(taskList), old(completedTasks) - rest, chunkIndex, taskList, i);
        assert old(completedTasks) - (rest - {i}) == old(completedTasks) - rest + {i};
        rest := rest - {i};
        if i < chunkIndex && taskList[i].chunk.Some? {
          Release(i, chunkIndex, chunks);
        }
      }
    }

    /** Release one completed chunk. */
    method Release(i: nat, ghost bound: nat, ghost chunks: seq<Bytes>)
      requires Intact(taskList, downloading, completedTasks, bound, submitted, chunks, reliable) && Counted()
      requires i in completedTasks && i < bound && i < |taskList|
      modifies this`taskList, this`completedTasks, this`numberOfActiveChunks
      ensures Intact(taskList, downloading, completedTasks, bound, submitted, chunks, reliable) && Counted()
      ensures completedTasks == old(completedTasks) - {i}
      ensures taskList == old(taskList)[i := old(taskList)[i].(chunk := None)]
    {
      ReleaseKeeps(taskList, downloading, completedTasks, bound, submitted, chunks, reliable, i);
      taskList := taskList[i := taskList[i].(chunk := None)];
      completedTasks := completedTasks - {i};
      numberOfActiveChunks := numberOfActiveChunks - 1;
    }

    /** Submit the needed chunks of a file, as many as the threads permit. */
    method Prefetch(file: Entry, ghost chunks: seq<Bytes>)
      requires Valid(chunks) && HasContents(file)
      requires lastChunkIndex <= file.range.startChunk <= file.range.endChunk < |chunks|
      modifies this
      ensures Valid(chunks) && lastChunkIndex == file.range.startChunk
      ensures numberOfActiveChunks >= threads ||
        forall i :: file.range.startChunk <= i <= file.range.endChunk && taskList[i].needed ==>
          taskList[i].isDownloading
    {
      Reclaim(file.range.startChunk, chunks);
      for i := file.range.startChunk to file.range.endChunk + 1
        invariant Valid(chunks) && lastChunkIndex == file.range.startChunk
        invariant forall k :: file.range.startChunk <= k < i && taskList[k].needed ==> taskList[k].isDownloading
      {
        if taskList[i].needed && !taskList[i].isDownloading {
          if numberOfActiveChunks >= threads { return; }
          Submit(i, chunks);
        }
      }
    }

    /** The operator delivers one of the chunks it is working on. */
    method Receive(ghost chunks: seq<Bytes>) returns (i: nat)
      requires Consistent(chunks) && downloading != {}
      modifies this`taskList, this`downloading, this`completedTasks, this`numberOfDownloadedChunks,
        this`numberOfDownloadingChunks
      ensures Consistent(chunks) && downloading < old(downloading)
      ensures i in old(downloading) && downloading == old(downloading) - {i}
      ensures completedTasks == old(completedTasks) + {i}
      ensures |taskList| == |old(taskList)| && old(completedTasks) <= completedTasks
    {
      i :| i in downloading;
      var isBroken: bool := *;
      var chunk := Download(taskList[i].chunkHash.content, false);
      if isBroken && !reliable { chunk := Download([], true); }
      ReceiveKeeps(taskList, downloading, completedTasks, lastChunkIndex, submitted, chunks, reliable, i, chunk);
      downloading, completedTasks := downloading - {i}, completedTasks + {i};
      taskList := taskList[i := taskList[i].(chunk := Some(chunk))];
      numberOfDownloadedChunks := numberOfDownloadedChunks + 1;
      numberOfDownloadingChunks := numberOfDownloadingChunks - 1;
    }

    /** Look ahead of the chunk to be waited for, up to the limit or the first chunk not needed. */
    method LookAhead(chunkIndex: nat, ghost chunks: seq<Bytes>) returns (ghost n: nat)
      requires Consistent(chunks) && chunkIndex < |taskList| && lastChunkIndex == chunkIndex
      modifies this`taskList, this`downloading, this`submitted, this`numberOfDownloadingChunks,
        this`numberOfActiveChunks
      ensures Consistent(chunks) && old(downloading) <= downloading
      ensures numberOfActiveChunks >= threads ||
        (chunkIndex < n <= |taskList| && (n < |taskList| ==> !taskList[n].needed) &&
         forall k :: chunkIndex < k < n ==> taskList[k].isDownloading)
      ensures numberOfActiveChunks <= if old(numberOfActiveChunks) < threads then threads else old(numberOfActiveChunks)
    {
      var i := chunkIndex + 1;
      while i < |taskList|
        invariant Consistent(chunks) && chunkIndex < i <= |taskList| && old(downloading) <= downloading
        invariant forall k :: chunkIndex < k < i ==> taskList[k].isDownloading
        invariant numberOfActiveChunks <=
                  if old(numberOfActiveChunks) < threads then threads else old(numberOfActiveChunks)
        decreases |chunks| - i
      {
        if numberOfActiveChunks >= threads || !taskList[i].needed { break; }
        if !taskList[i].isDownloading { Submit(i, chunks); }
        i := i + 1;
      }
      n := i;
    }

    /** Wait for a chunk; whatever order the downloads complete in, it is the chunk of this index that is returned. */
    method WaitForChunk(chunkIndex: nat, ghost chunks: seq<Bytes>) returns (chunk: Download)
      requires Valid(chunks) && lastChunkIndex <= chunkIndex < |chunks|
      modifies this
      ensures Valid(chunks) && lastChunkIndex == chunkIndex
      ensures if chunk.isBroken then !reliable else chunk.content == chunks[chunkIndex]
    {
      Reclaim(chunkIndex, chunks);
      ghost var among := chunkIndex in completedTasks;
      if !taskList[chunkIndex].isDownloading { Submit(chunkIndex, chunks); }
      ghost var ahead := LookAhead(chunkIndex, chunks);
      while chunkIndex !in completedTasks
        invariant Consistent(chunks) && lastChunkIndex == chunkIndex && numberOfActiveChunks <= threads + 1
        invariant chunkIndex in downloading || chunkIndex in completedTasks
        decreases |downloading|
      {
        ghost var before := downloading;
        var _ := Receive(chunks);
        SmallerSet(downloading, before);
      }
      chunk := taskList[chunkIndex].chunk.value;
    }
  }
}
