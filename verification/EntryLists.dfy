/**
 The list of files of a backup in progress.  Unmodified files refer to preserved chunks; modified ones
 wait, with a size of -1, until their contents have been uploaded, and are completed when read back.
 */
module EntryLists {
  import opened Common
  import opened Buzhash
  import opened Chunking
  import opened ChunkMakers
  import opened ChunkLists
  import opened PathOrder

  datatype Kind = File | Directory | Link

  datatype Entry = Entry(path: Path, kind: Kind, size: int, time: int, hash: Option<FileHash>, range: Range) {
    predicate IsFile() { kind.File? }

    predicate IsComplete() { size >= 0 }
  }

  /** A file to be uploaded; its size is -1 until it has been packed, and stays so if it cannot be opened. */
  datatype ModifiedEntry = ModifiedEntry(path: Path, size: int, hash: Option<FileHash>)

  /** The sanity check of an entry against the lengths of the chunks. */
  predicate Checked(lengths: seq<nat>, e: Entry) {
    e.size >= 0 &&
    (e.IsFile() && e.size > 0 ==>
      var r := e.range;
      0 <= r.startChunk <= r.endChunk < |lengths| &&
      r.startOffset < lengths[r.startChunk] && r.endOffset <= lengths[r.endChunk] &&
      e.size == Measure(lengths, r, r.startChunk))
  }

  /** A directory or link never waits. */
  function Normal(e: Entry): Entry { if !e.IsComplete() && !e.IsFile() then e.(size := 0) else e }

  /** The paths of those of the first `n` entries that wait for their contents. */
  function Waiting(entries: seq<Entry>, n: nat): seq<Path>
    requires n <= |entries|
  {
    if n == 0 then []
    else Waiting(entries, n - 1) + if entries[n - 1].IsComplete() then [] else [entries[n - 1].path]
  }

  /** The number of files among the first `n` entries. */
  function FileCount(entries: seq<Entry>, n: nat): nat
    requires n <= |entries|
  {
    if n == 0 then 0 else FileCount(entries, n - 1) + if entries[n - 1].IsFile() then 1 else 0
  }

  lemma {:induction false} FileCountPrefix(entries: seq<Entry>, longer: seq<Entry>, n: nat)
    requires entries <= longer && n <= |entries|
    ensures FileCount(longer, n) == FileCount(entries, n)
  {
    if n > 0 { FileCountPrefix(entries, longer, n - 1); }
  }

  lemma {:induction false} FileCountPositive(entries: seq<Entry>, n: nat)
    requires n <= |entries|
    ensures FileCount(entries, n) > 0 <==> exists i :: 0 <= i < n && entries[i].IsFile()
  {
    if n > 0 { FileCountPositive(entries, n - 1); }
  }

  lemma FileCountAdd(entries: seq<Entry>, e: Entry)
    ensures FileCount(entries + [e], |entries| + 1) == FileCount(entries, |entries|) + if e.IsFile() then 1 else 0
  {
    FileCountPrefix(entries, entries + [e], |entries|);
    assert (entries + [e])[|entries|] == e;
  }

  function PathsOf(modified: seq<ModifiedEntry>): seq<Path> {
    seq(|modified|, i requires 0 <= i < |modified| => modified[i].path)
  }

  /** The entry completed from what has been uploaded for it. */
  function Filled(e: Entry, m: ModifiedEntry, uploaded: seq<nat>, base: nat, position: nat): Entry
    requires m.size > 0
  {
    e.(size := m.size, hash := m.hash, range := RangeAt(uploaded, base, position, m.size))
  }

  /** The bytes one entry takes up, when `k` modified entries have been used. */
  function TakenAt(e: Entry, modified: seq<ModifiedEntry>, k: nat): nat {
    if e.IsComplete() || k >= |modified| || modified[k].size <= 0 then 0 else modified[k].size
  }

  /** What is sent for one entry: itself if complete, completed if something was uploaded for it, else nothing. */
  function SentAt(e: Entry, modified: seq<ModifiedEntry>, k: nat, uploaded: seq<nat>, base: nat,
                  position: nat): seq<Entry>
  {
    if e.IsComplete() then [e]
    else if k >= |modified| || modified[k].size <= 0 then []
    else [Filled(e, modified[k], uploaded, base, position)]
  }

  function Next(e: Entry, k: nat): nat { if e.IsComplete() then k else k + 1 }

  /** The modified entries used, the bytes they take up, and what has been sent. */
  datatype Progress = Progress(k: nat, position: nat, sent: seq<Entry>)

  /** What reading the first `i` entries does. */
  function Progressed(entries: seq<Entry>, i: nat, modified: seq<ModifiedEntry>, uploaded: seq<nat>,
                      base: nat): Progress
    requires i <= |entries|
  {
    if i == 0 then Progress(0, 0, [])
    else
      var e, p := entries[i - 1], Progressed(entries, i - 1, modified, uploaded, base);
      Progress(Next(e, p.k), p.position + TakenAt(e, modified, p.k),
               p.sent + SentAt(e, modified, p.k, uploaded, base, p.position))
  }

  /** What reading the whole list back sends. */
  function Completed(entries: seq<Entry>, modified: seq<ModifiedEntry>, uploaded: seq<nat>, base: nat): seq<Entry> {
    Progressed(entries, |entries|, modified, uploaded, base).sent
  }

  /** The bytes uploaded for the first `k` modified files. */
  function UploadedUpto(modified: seq<ModifiedEntry>, k: nat): nat
    requires k <= |modified|
  {
    if k == 0 then 0 else UploadedUpto(modified, k - 1) + if modified[k - 1].size > 0 then modified[k - 1].size else 0
  }

  function UploadedSize(modified: seq<ModifiedEntry>): nat { UploadedUpto(modified, |modified|) }

  /** The sanity check passes for what is filled in. */
  lemma FilledIsChecked(e: Entry, m: ModifiedEntry, uploaded: seq<nat>, preserved: seq<nat>, position: nat)
    requires m.size > 0 && position + m.size <= Total(uploaded)
    ensures Checked(preserved + uploaded, Filled(e, m, uploaded, |preserved|, position))
  {
    var r := RangeAt(uploaded, |preserved|, position, m.size);
    RangeInside(uploaded, |preserved|, position, m.size);
    RangeMeasures(uploaded, preserved, r);
  }

  /** The measure of a range behind the preserved chunks. */
  lemma RangeMeasures(uploaded: seq<nat>, preserved: seq<nat>, r: Range)
    requires |preserved| <= r.startChunk <= r.endChunk < |preserved| + |uploaded|
    ensures Measure(preserved + uploaded, r, r.startChunk) ==
            Upto(uploaded, r.endChunk - |preserved|) +
              r.endOffset - Upto(uploaded, r.startChunk - |preserved|) - r.startOffset
  {
    UptoAppend(preserved, uploaded, r.startChunk);
    UptoAppend(preserved, uploaded, r.endChunk);
    MeasureIsDistance(preserved + uploaded, r, r.startChunk);
  }

  lemma {:induction false} WaitingPrefix(entries: seq<Entry>, longer: seq<Entry>, n: nat)
    requires entries <= longer && n <= |entries|
    ensures Waiting(longer, n) == Waiting(entries, n)
  {
    if n > 0 { WaitingPrefix(entries, longer, n - 1); }
  }

  lemma {:induction false} WaitingGrows(entries: seq<Entry>, i: nat, n: nat)
    requires i <= n <= |entries|
    ensures Waiting(entries, i) <= Waiting(entries, n)
  {
    if i < n { WaitingGrows(entries, i, n - 1); }
  }

  lemma {:induction false} WaitingAdd(entries: seq<Entry>, e: Entry, modified: seq<ModifiedEntry>)
    requires Waiting(entries, |entries|) == PathsOf(modified)
    ensures e.IsComplete() ==> Waiting(entries + [e], |entries| + 1) == PathsOf(modified)
    ensures !e.IsComplete() ==>
      Waiting(entries + [e], |entries| + 1) == PathsOf(modified + [ModifiedEntry(e.path, -1, None)])
  {
    WaitingPrefix(entries, entries + [e], |entries|);
    assert (entries + [e])[|entries|] == e;
    var waiting := ModifiedEntry(e.path, -1, None);
    assert PathsOf(modified + [waiting]) == PathsOf(modified) + [e.path];
  }

  ghost predicate Fitting(entries: seq<Entry>, modified: seq<ModifiedEntry>, uploaded: seq<nat>, lengths: seq<nat>) {
    UploadedSize(modified) <= Total(uploaded) && forall e :: e in entries && e.IsComplete() ==> Checked(lengths, e)
  }

  function Max(a: nat, b: nat): nat { if a < b then b else a }

  datatype Outcome = Failed | Skipped | Sent(entry: Entry)

  class EntryList {
    var entries: seq<Entry>
    var onDisk: Option<seq<Entry>>
    var modifiedEntries: seq<ModifiedEntry>
    var uploadedHashes: seq<ChunkHash>
    var uploadedLengths: seq<nat>
    var preservedHashes: seq<ChunkHash>
    var preservedLengths: seq<nat>
    var numberOfEntries: nat
    const maximumInMemoryEntries: int
    var modifiedEntryIndex: nat
    var uploadedChunkIndex: nat
    var uploadedChunkOffset: nat

    /** All entries added, wherever they are kept. */
    function All(): seq<Entry>
      reads this
    {
      if onDisk.Some? then onDisk.value else entries
    }

    /** The lengths of all chunks, the preserved ones first. */
    function ChunkLengths(): seq<nat>
      reads this
    {
      preservedLengths + uploadedLengths
    }

    ghost predicate Valid()
      reads this
    {
      Waiting(All(), |All()|) == PathsOf(modifiedEntries) && |preservedHashes| == |preservedLengths| &&
      numberOfEntries == FileCount(All(), |All()|)
    }

    constructor (maximumInMemoryEntries: int)
      ensures Valid() && All() == [] && modifiedEntries == []
      ensures preservedHashes == [] && uploadedHashes == [] && uploadedLengths == []
    {
      this.maximumInMemoryEntries := maximumInMemoryEntries;
      entries, onDisk, modifiedEntries := [], None, [];
      uploadedHashes, uploadedLengths, preservedHashes, preservedLengths := [], [], [], [];
      numberOfEntries, modifiedEntryIndex, uploadedChunkIndex, uploadedChunkOffset := 0, 0, 0, 0;
    }

    /** Add an entry, moving all of them to disk once there are too many. */
    method AddEntry(entry: Entry)
      requires Valid()
      modifies this`entries, this`onDisk, this`modifiedEntries, this`numberOfEntries
      ensures Valid() && All() == old(All()) + [Normal(entry)]
      ensures modifiedEntries == old(modifiedEntries) +
        if entry.IsFile() && !entry.IsComplete() then [ModifiedEntry(entry.path, -1, None)] else []
      ensures numberOfEntries == old(numberOfEntries) + if entry.IsFile() then 1 else 0
    {
      var added := entry;
      if entry.IsFile() {
        numberOfEntries := numberOfEntries + 1;
      }
      if !entry.IsComplete() {
        if !entry.IsFile() {
          added := entry.(size := 0);
        } else {
          modifiedEntries := modifiedEntries + [ModifiedEntry(entry.path, -1, None)];
        }
      }
      WaitingAdd(All(), added, old(modifiedEntries));
      FileCountAdd(All(), added);
      if onDisk.Some? {
        onDisk := Some(onDisk.value + [added]);
      } else {
        entries := entries + [added];
        if maximumInMemoryEntries >= 0 && |entries| > maximumInMemoryEntries {
          onDisk := Some(entries);
        }
      }
    }

    method AddPreservedChunk(hash: ChunkHash, size: nat)
      modifies this`preservedHashes, this`preservedLengths
      ensures preservedHashes == old(preservedHashes) + [hash] && preservedLengths == old(preservedLengths) + [size]
    {
      preservedHashes, preservedLengths := preservedHashes + [hash], preservedLengths + [size];
    }

    /** Record an upload; chunks may complete in any order, so the lists are extended as far as needed. */
    method AddUploadedChunk(chunkIndex: nat, hash: ChunkHash, size: nat)
      modifies this`uploadedHashes, this`uploadedLengths
      ensures |uploadedHashes| == Max(|old(uploadedHashes)|, chunkIndex + 1)
      ensures |uploadedLengths| == Max(|old(uploadedLengths)|, chunkIndex + 1)
      ensures forall i :: 0 <= i < |uploadedHashes| ==>
        uploadedHashes[i] ==
        if i == chunkIndex then hash else if i < |old(uploadedHashes)| then old(uploadedHashes)[i] else NoHash
      ensures forall i :: 0 <= i < |uploadedLengths| ==>
        uploadedLengths[i] ==
        if i == chunkIndex then size else if i < |old(uploadedLengths)| then old(uploadedLengths)[i] else 0
    {
      while |uploadedHashes| <= chunkIndex
        invariant |old(uploadedHashes)| <= |uploadedHashes| <= Max(|old(uploadedHashes)|, chunkIndex + 1)
        invariant forall i :: 0 <= i < |uploadedHashes| ==>
          uploadedHashes[i] == (if i < |old(uploadedHashes)| then old(uploadedHashes)[i] else NoHash)
        invariant uploadedLengths == old(uploadedLengths)
      {
        uploadedHashes := uploadedHashes + [NoHash];
      }
      while |uploadedLengths| <= chunkIndex
        invariant |old(uploadedLengths)| <= |uploadedLengths| <= Max(|old(uploadedLengths)|, chunkIndex + 1)
        invariant forall i :: 0 <= i < |uploadedLengths| ==>
          uploadedLengths[i] == (if i < |old(uploadedLengths)| then old(uploadedLengths)[i] else 0)
        invariant |uploadedHashes| == Max(|old(uploadedHashes)|, chunkIndex + 1)
        invariant forall i :: 0 <= i < |uploadedHashes| ==>
          uploadedHashes[i] == (if i < |old(uploadedHashes)| then old(uploadedHashes)[i] else NoHash)
      {
        uploadedLengths := uploadedLengths + [0];
      }
      uploadedHashes := uploadedHashes[chunkIndex := hash];
      uploadedLengths := uploadedLengths[chunkIndex := size];
    }

    /** The uploads of all chunks, completing in any order: the lists end up in chunk order. */
    method CollectUploads(chunks: seq<Bytes>)
      requires uploadedHashes == [] && uploadedLengths == []
      modifies this`uploadedHashes, this`uploadedLengths
      ensures Describes(uploadedHashes, uploadedLengths, chunks)
    {
      var pending := set i: nat {:trigger chunks[i]} | i < |chunks|;
      while pending != {}
        invariant forall i :: i in pending ==> i < |chunks|
        invariant |uploadedHashes| == |uploadedLengths| <= |chunks|
        invariant forall i: nat :: i < |chunks| && i !in pending ==>
          i < |uploadedHashes| && uploadedHashes[i] == HashOf(chunks[i]) && uploadedLengths[i] == |chunks[i]|
      {
        var k :| k in pending;
        AddUploadedChunk(k, HashOf(chunks[k]), |chunks[k]|);
        pending := pending - {k};
      }
      assert |chunks| > 0 ==> |chunks| - 1 !in pending;
    }

    function GetChunkLength(index: nat): (n: nat)
      requires index < |preservedLengths| + |uploadedLengths|
      reads this
      ensures n == ChunkLengths()[index]
    {
      if index < |preservedLengths| then preservedLengths[index] else uploadedLengths[index - |preservedLengths|]
    }

    method CheckEntry(entry: Entry) returns (ok: bool)
      ensures ok <==> Checked(ChunkLengths(), entry)
    {
      if entry.size < 0 { return false; }
      if !entry.IsFile() || entry.size == 0 { return true; }
      var r := entry.range;
      var numberOfChunks := |preservedLengths| + |uploadedLengths|;
      if r.startChunk < 0 { return false; }
      if r.endChunk >= numberOfChunks { return false; }
      if r.endChunk < r.startChunk { return false; }
      if r.startOffset >= GetChunkLength(r.startChunk) { return false; }
      if r.endOffset > GetChunkLength(r.endChunk) { return false; }
      var fileSize := 0;
      var i := r.startChunk;
      while i <= r.endChunk
        invariant r.startChunk <= i <= r.endChunk + 1
        invariant fileSize + Measure(ChunkLengths(), r, i) == Measure(ChunkLengths(), r, r.startChunk)
      {
        var start := if i == r.startChunk then r.startOffset else 0;
        var end := if i == r.endChunk then r.endOffset else GetChunkLength(i);
        fileSize := fileSize + (end - start);
        i := i + 1;
      }
      return entry.size == fileSize;
    }

    /** The reading position in the uploaded chunks. */
    ghost predicate At(position: nat)
      reads this
    {
      uploadedChunkIndex <= |uploadedLengths| &&
      (uploadedChunkIndex, uploadedChunkOffset) == StartAt(uploadedLengths, position, 0)
    }

    /** Go to the chunk in which the next `length` bytes end. */
    method PassChunks(length: nat) returns (endOffset: nat, passed: nat)
      requires uploadedChunkIndex <= |uploadedLengths| && length > 0
      modifies this`uploadedChunkIndex
      ensures (uploadedChunkIndex, endOffset) == EndAt(uploadedLengths, length, old(uploadedChunkIndex))
      ensures passed == uploadedChunkIndex - old(uploadedChunkIndex)
    {
      endOffset, passed := length, 0;
      while uploadedChunkIndex < |uploadedLengths| && endOffset > uploadedLengths[uploadedChunkIndex]
        invariant uploadedChunkIndex <= |uploadedLengths| && passed == uploadedChunkIndex - old(uploadedChunkIndex)
        invariant EndAt(uploadedLengths, length, old(uploadedChunkIndex)) ==
                  EndAt(uploadedLengths, endOffset, uploadedChunkIndex)
      {
        endOffset := endOffset - uploadedLengths[uploadedChunkIndex];
        passed := passed + 1;
        uploadedChunkIndex := uploadedChunkIndex + 1;
      }
    }

    /** Advance the reading position over a file of the given size; where it lies, if so much has been uploaded. */
    method Locate(size: nat, ghost position: nat) returns (found: bool, r: Range)
      requires At(position) && Positive(uploadedLengths) && size > 0
      modifies this`uploadedChunkIndex, this`uploadedChunkOffset
      ensures found <==> position + size <= Total(uploadedLengths)
      ensures found ==> r == RangeAt(uploadedLengths, |preservedHashes|, position, size) && At(position + size)
    {
      ghost var next := position + size;
      var startChunk := uploadedChunkIndex + |preservedHashes|;
      var startOffset := uploadedChunkOffset;
      EndFromStart(uploadedLengths, position, size, 0);
      var endOffset, passed := PassChunks(startOffset + size);
      r := Range(startChunk, startOffset, startChunk + passed, endOffset);
      assert (uploadedChunkIndex, endOffset) == EndAt(uploadedLengths, next, 0);
      EndInside(uploadedLengths, next);
      if uploadedChunkIndex >= |uploadedLengths| {
        return false, r;
      }
      NextStart(uploadedLengths, next, 0);
      uploadedChunkOffset := endOffset;
      if endOffset == uploadedLengths[uploadedChunkIndex] {
        uploadedChunkIndex, uploadedChunkOffset := uploadedChunkIndex + 1, 0;
      }
      return true, r;
    }

    /** Send one entry, completing it first if it waits. */
    method FillAndSendEntry(entry: Entry, ghost position: nat) returns (outcome: Outcome)
      requires At(position) && Positive(uploadedLengths) && |preservedHashes| == |preservedLengths|
      modifies this`modifiedEntryIndex, this`uploadedChunkIndex, this`uploadedChunkOffset
      ensures !outcome.Failed? <==>
        Ready(entry, modifiedEntries, old(modifiedEntryIndex), uploadedLengths, ChunkLengths(), position)
      ensures !outcome.Failed? ==>
        modifiedEntryIndex == Next(entry, old(modifiedEntryIndex)) &&
        At(position + TakenAt(entry, modifiedEntries, old(modifiedEntryIndex))) &&
        Answers(entry, modifiedEntries, old(modifiedEntryIndex), uploadedLengths, |preservedHashes|, position, outcome)
    {
      if entry.IsComplete() {
        var ok := CheckEntry(entry);
        return if ok then Sent(entry) else Failed;
      }
      if modifiedEntryIndex >= |modifiedEntries| { return Failed; }
      var m := modifiedEntries[modifiedEntryIndex];
      modifiedEntryIndex := modifiedEntryIndex + 1;
      if m.path != entry.path { return Failed; }
      if m.size <= 0 { return Skipped; }
      var found, r := Locate(m.size, position);
      if !found { return Failed; }
      var filled := entry.(size := m.size, hash := m.hash, range := r);
      FilledIsChecked(entry, m, uploadedLengths, preservedLengths, position);
      var ok := CheckEntry(filled);
      return if ok then Sent(filled) else Failed;
    }

    /** The packed files fit what has been uploaded, and the unmodified entries are sound. */
    ghost predicate Fits()
      reads this
    {
      Fitting(All(), modifiedEntries, uploadedLengths, ChunkLengths())
    }

    /** What reading the first `i` entries does. */
    ghost function Track(list: seq<Entry>, i: nat): Progress
      requires i <= |list|
      reads this
    {
      Progressed(list, i, modifiedEntries, uploadedLengths, |preservedHashes|)
    }

    /** The first `i` entries have been read. */
    ghost predicate Reading(list: seq<Entry>, i: nat, sent: seq<Entry>)
      requires i <= |list|
      reads this
    {
      modifiedEntryIndex == Track(list, i).k <= |modifiedEntries| && At(Track(list, i).position) &&
      sent == Track(list, i).sent
    }

    /** Read one entry. */
    method ReadOne(list: seq<Entry>, i: nat, sent: seq<Entry>) returns (ok: bool, sent': seq<Entry>)
      requires Valid() && Positive(uploadedLengths) && list == All() && i < |list| && Reading(list, i, sent)
      modifies this`modifiedEntryIndex, this`uploadedChunkIndex, this`uploadedChunkOffset
      ensures ok <==> ReadyAt(list, i, modifiedEntries, uploadedLengths, |preservedHashes|, ChunkLengths())
      ensures ok ==> Reading(list, i + 1, sent')
    {
      var entry := list[i];
      ghost var progress := Track(list, i);
      ProgressWaits(list, i, modifiedEntries, uploadedLengths, |preservedHashes|);
      var outcome := FillAndSendEntry(entry, progress.position);
      ok := !outcome.Failed?;
      sent' := if outcome.Sent? then sent + [outcome.entry] else sent;
    }

    /** Read one entry after the other until one cannot be sent. */
    method ReadList(list: seq<Entry>) returns (ok: bool, sent: seq<Entry>)
      requires Valid() && Positive(uploadedLengths) && list == All() && Reading(list, 0, [])
      modifies this`modifiedEntryIndex, this`uploadedChunkIndex, this`uploadedChunkOffset
      ensures ok <==> AllReady(list, |list|, modifiedEntries, uploadedLengths, |preservedHashes|, ChunkLengths())
      ensures ok ==> sent == Track(list, |list|).sent
    {
      sent := [];
      AllReadyMeans(list, |list|, modifiedEntries, uploadedLengths, |preservedHashes|, ChunkLengths());
      for i := 0 to |list|
        invariant Reading(list, i, sent)
        invariant AllReady(list, i, modifiedEntries, uploadedLengths, |preservedHashes|, ChunkLengths())
      {
        var fine, more := ReadOne(list, i, sent);
        sent := more;
        if !fine { return false, sent; }
      }
      ok := true;
    }

    /**
     Read the whole list back.  This succeeds exactly if what was packed fits what was uploaded and the
     unmodified entries are sound, whether or not the entries have been moved to disk.
     */
    method ReadEntries() returns (ok: bool, sent: seq<Entry>)
      requires Valid() && Positive(uploadedLengths)
      modifies this`modifiedEntryIndex, this`uploadedChunkIndex, this`uploadedChunkOffset
      ensures ok <==> Fits()
      ensures ok ==> sent == Completed(All(), modifiedEntries, uploadedLengths, |preservedHashes|)
    {
      modifiedEntryIndex, uploadedChunkIndex, uploadedChunkOffset := 0, 0, 0;
      var list := if onDisk.Some? then onDisk.value else entries;
      StartOfStream(uploadedLengths);
      FitsIsReady(list, modifiedEntries, uploadedLengths, |preservedHashes|, ChunkLengths());
      ok, sent := ReadList(list);
    }
  }

  /** The outcome of sending an entry at a position. */
  ghost predicate Answers(e: Entry, modified: seq<ModifiedEntry>, k: nat, uploaded: seq<nat>, base: nat, position: nat,
                          outcome: Outcome)
  {
    if e.IsComplete() then outcome == Sent(e)
    else
      k < |modified| &&
      outcome == if modified[k].size <= 0 then Skipped else Sent(Filled(e, modified[k], uploaded, base, position))
  }

  /** Before each entry, the modified entries used are those of the entries that waited, and the next is its own. */
  lemma {:induction false} ProgressWaits(entries: seq<Entry>, i: nat, modified: seq<ModifiedEntry>, uploaded: seq<nat>,
                                         base: nat)
    requires i <= |entries| && Waiting(entries, |entries|) == PathsOf(modified)
    ensures var k := Progressed(entries, i, modified, uploaded, base).k;
      k == |Waiting(entries, i)| <= |modified| &&
      (i < |entries| && !entries[i].IsComplete() ==> k < |modified| && modified[k].path == entries[i].path)
  {
    if i > 0 { ProgressWaits(entries, i - 1, modified, uploaded, base); }
    WaitingGrows(entries, i, |entries|);
    if i < |entries| && !entries[i].IsComplete() {
      WaitingGrows(entries, i + 1, |entries|);
      assert Waiting(entries, i + 1)[|Waiting(entries, i)|] == PathsOf(modified)[|Waiting(entries, i)|];
    }
  }

  /** The position is behind all contents used. */
  lemma {:induction false} ProgressSize(entries: seq<Entry>, i: nat, modified: seq<ModifiedEntry>, uploaded: seq<nat>,
                                        base: nat)
    requires i <= |entries| && Waiting(entries, |entries|) == PathsOf(modified)
    ensures var p := Progressed(entries, i, modified, uploaded, base);
      p.k <= |modified| && p.position == UploadedUpto(modified, p.k)
  {
    ProgressWaits(entries, i, modified, uploaded, base);
    if i > 0 {
      ProgressSize(entries, i - 1, modified, uploaded, base);
      ProgressWaits(entries, i - 1, modified, uploaded, base);
    }
  }

  lemma {:induction false} UploadedGrows(modified: seq<ModifiedEntry>, j: nat, k: nat)
    requires j <= k <= |modified|
    ensures UploadedUpto(modified, j) <= UploadedUpto(modified, k)
  {
    if j < k { UploadedGrows(modified, j, k - 1); }
  }

  /** The entry can be sent: it is sound, or its contents are the next ones and lie within what has been uploaded. */
  ghost predicate Ready(e: Entry, modified: seq<ModifiedEntry>, k: nat, uploaded: seq<nat>, lengths: seq<nat>,
                        position: nat)
  {
    if e.IsComplete() then Checked(lengths, e)
    else
      k < |modified| && modified[k].path == e.path &&
      (modified[k].size > 0 ==> position + modified[k].size <= Total(uploaded))
  }

  ghost predicate ReadyAt(entries: seq<Entry>, i: nat, modified: seq<ModifiedEntry>, uploaded: seq<nat>, base: nat,
                          lengths: seq<nat>)
    requires i < |entries|
  {
    var p := Progressed(entries, i, modified, uploaded, base);
    Ready(entries[i], modified, p.k, uploaded, lengths, p.position)
  }

  ghost predicate AllReady(entries: seq<Entry>, n: nat, modified: seq<ModifiedEntry>, uploaded: seq<nat>, base: nat,
                           lengths: seq<nat>)
    requires n <= |entries|
  {
    n > 0 ==>
      AllReady(entries, n - 1, modified, uploaded, base, lengths) &&
      ReadyAt(entries, n - 1, modified, uploaded, base, lengths)
  }

  lemma {:induction false} AllReadyMeans(entries: seq<Entry>, n: nat, modified: seq<ModifiedEntry>, uploaded: seq<nat>,
                                         base: nat, lengths: seq<nat>)
    requires n <= |entries|
    ensures AllReady(entries, n, modified, uploaded, base, lengths) <==>
            forall i :: 0 <= i < n ==> ReadyAt(entries, i, modified, uploaded, base, lengths)
  {
    if n > 0 { AllReadyMeans(entries, n - 1, modified, uploaded, base, lengths); }
  }

  /** If all entries can be sent, all contents lie within what has been uploaded. */
  lemma {:induction false} PositionInside(entries: seq<Entry>, i: nat, modified: seq<ModifiedEntry>, uploaded: seq<nat>,
                                          base: nat, lengths: seq<nat>)
    requires i <= |entries| && AllReady(entries, i, modified, uploaded, base, lengths)
    ensures Progressed(entries, i, modified, uploaded, base).position <= Total(uploaded)
  {
    if i > 0 {
      PositionInside(entries, i - 1, modified, uploaded, base, lengths);
    }
  }

  /** Everything fits if and only if every entry can be sent when its turn comes. */
  lemma FitsIsReady(entries: seq<Entry>, modified: seq<ModifiedEntry>, uploaded: seq<nat>, base: nat, lengths: seq<nat>)
    requires Waiting(entries, |entries|) == PathsOf(modified)
    ensures Fitting(entries, modified, uploaded, lengths) <==>
            AllReady(entries, |entries|, modified, uploaded, base, lengths)
  {
    AllReadyMeans(entries, |entries|, modified, uploaded, base, lengths);
    if Fitting(entries, modified, uploaded, lengths) {
      forall i | 0 <= i < |entries| ensures ReadyAt(entries, i, modified, uploaded, base, lengths) {
        ProgressWaits(entries, i, modified, uploaded, base);
        ProgressFits(entries, i, modified, uploaded, base);
        assert entries[i] in entries;
      }
    }
    if AllReady(entries, |entries|, modified, uploaded, base, lengths) {
      var n := |entries|;
      PositionInside(entries, n, modified, uploaded, base, lengths);
      ProgressWaits(entries, n, modified, uploaded, base);
      ProgressSize(entries, n, modified, uploaded, base);
      assert |Waiting(entries, n)| == |PathsOf(modified)| == |modified|;
      forall e | e in entries && e.IsComplete() ensures Checked(lengths, e) {
        var i :| 0 <= i < n && entries[i] == e;
        assert ReadyAt(entries, i, modified, uploaded, base, lengths);
      }
    }
  }

  lemma ProgressFits(entries: seq<Entry>, i: nat, modified: seq<ModifiedEntry>, uploaded: seq<nat>, base: nat)
    requires i < |entries| && Waiting(entries, |entries|) == PathsOf(modified)
    requires UploadedSize(modified) <= Total(uploaded)
    ensures var p := Progressed(entries, i, modified, uploaded, base);
      p.position + TakenAt(entries[i], modified, p.k) <= Total(uploaded)
  {
    var p := Progressed(entries, i, modified, uploaded, base);
    ProgressSize(entries, i, modified, uploaded, base);
    UploadedGrows(modified, if p.k < |modified| then p.k + 1 else p.k, |modified|);
  }

  lemma StartOfStream(lengths: seq<nat>)
    requires Positive(lengths)
    ensures StartAt(lengths, 0, 0) == (0, 0)
  {
  }
}
