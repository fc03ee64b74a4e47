/**
 Restoring a file in place: an existing target is split where the chunks of the file would end, segments that
 match are kept, and all others are overwritten with downloaded chunks.
 */
module RestoreFiles {
  import opened Common
  import opened Buzhash
  import opened Chunking
  import opened ChunkMakers
  import opened ChunkLists
  import opened EntryLists
  import opened SnapshotCodec
  import opened ChunkDownloaders

  function Min(a: nat, b: nat): nat { if a < b then a else b }

  function Zeros(n: nat): (z: Bytes)
    ensures |z| == n
  {
    seq(n, _ => 0 as Byte)
  }

  /** At most `n` bytes from a position on. */
  function Portion(s: Bytes, position: nat, n: nat): Bytes {
    if position >= |s| then [] else s[position..Min(position + n, |s|)]
  }

  /** What comes after the first `n` bytes, if anything. */
  function Rest(s: Bytes, n: nat): Bytes { if n >= |s| then [] else s[n..] }

  /** The file at the path to be restored, with the position of its handle. */
  class Target {
    var content: Option<Bytes>
    var position: nat

    constructor (content: Option<Bytes>)
      ensures this.content == content
    {
      this.content, position := content, 0;
    }

    /** Open for writing, and empty the file or create it. */
    method Create()
      modifies this
      ensures content == Some([]) && position == 0
    {
      content, position := Some([]), 0;
    }

    method Seek(offset: nat)
      modifies this`position
      ensures position == offset
    {
      position := offset;
    }

    /** A read may be short, and ends the file only when there is nothing left. */
    method Read(room: nat) returns (data: Bytes, eof: bool)
      requires content.Some? && room > 0
      modifies this`position
      ensures |data| <= room && position == old(position) + |data|
      ensures eof <==> old(position) >= |content.value|
      ensures eof ==> data == []
      ensures !eof ==>
        data != [] && position <= |content.value| && data == content.value[old(position)..position]
    {
      if position >= |content.value| { return [], true; }
      var n: nat :| 0 < n <= room && position + n <= |content.value|;
      data, eof := content.value[position..position + n], false;
      position := position + n;
    }

    /** A write past the end leaves a hole of zeros. */
    method Write(data: Bytes)
      requires content.Some?
      modifies this
      ensures position == old(position) + |data|
      ensures content == Some(
        Portion(old(content.value), 0, old(position)) +
        Zeros(old(if position > |content.value| then position - |content.value| else 0)) + data +
        Rest(old(content.value), position))
    {
      var s := content.value;
      content := Some(Portion(s, 0, position) + Zeros(if position > |s| then position - |s| else 0) + data +
                      Rest(s, position + |data|));
      position := position + |data|;
    }

    method Truncate(n: nat)
      requires content.Some? && n <= |content.value|
      modifies this`content
      ensures content == Some(old(content.value)[..n])
    {
      content := Some(content.value[..n]);
    }

    /** Read a whole segment, or up to the end of the file. */
    method ReadSegment(size: nat) returns (data: Bytes)
      requires content.Some?
      modifies this`position
      ensures data == Portion(content.value, old(position), size) && position == old(position) + |data|
    {
      data := [];
      while |data| < size
        invariant |data| <= size && position == old(position) + |data|
        invariant data == Portion(content.value, old(position), |data|)
        decreases size - |data|
      {
        var more, eof := Read(Min(size - |data|, 64 * 1024));
        if eof { break; }
        data := data + more;
      }
    }
  }

  // ------------------------------------------------------------------ the pieces of a file

  function PieceStart(r: Range, i: int): int { if i == r.startChunk then r.startOffset else 0 }

  ghost function Piece(chunks: seq<Bytes>, r: Range, i: nat): Bytes
    requires Within(chunks, r) && r.startChunk <= i <= r.endChunk
  {
    chunks[i][PieceStart(r, i)..if i == r.endChunk then r.endOffset else |chunks[i]|]
  }

  /** The pieces before chunk `i`. */
  ghost function Before(chunks: seq<Bytes>, r: Range, i: nat): Bytes
    requires Within(chunks, r) && r.startChunk <= i <= r.endChunk + 1
  {
    if i == r.startChunk then [] else Before(chunks, r, i - 1) + Piece(chunks, r, i - 1)
  }

  lemma {:induction false} BeforeInside(chunks: seq<Bytes>, r: Range, i: nat)
    requires Within(chunks, r) && r.startChunk < i <= r.endChunk
    ensures Before(chunks, r, i) == chunks[r.startChunk][r.startOffset..] + Flatten(chunks[r.startChunk + 1..i])
  {
    if i == r.startChunk + 1 {
      assert Before(chunks, r, i - 1) == [] && chunks[r.startChunk + 1..i] == [];
    } else {
      BeforeInside(chunks, r, i - 1);
      OneMoreChunk(chunks, r.startChunk + 1, i - 1, chunks[r.startChunk][r.startOffset..]);
    }
  }

  /** All pieces together are the contents. */
  lemma AllPieces(chunks: seq<Bytes>, r: Range)
    requires Within(chunks, r)
    ensures Before(chunks, r, r.endChunk + 1) == Slice(chunks, r)
  {
    if r.startChunk < r.endChunk {
      BeforeInside(chunks, r, r.endChunk);
    } else {
      assert Before(chunks, r, r.endChunk) == [];
    }
  }

  lemma {:induction false} BeforeIsPrefix(chunks: seq<Bytes>, r: Range, i: nat)
    requires Within(chunks, r) && r.startChunk <= i <= r.endChunk + 1
    ensures Before(chunks, r, i) <= Slice(chunks, r)
    decreases r.endChunk + 1 - i
  {
    if i == r.endChunk + 1 { AllPieces(chunks, r); } else { BeforeIsPrefix(chunks, r, i + 1); }
  }

  // ------------------------------------------------------------------ splitting the existing file

  /** The size of the segment read for chunk `i`; past the last chunk, one more byte. */
  function SegmentSize(tasks: seq<Task>, r: Range, i: nat): int
    requires 0 <= r.startChunk <= r.endChunk < |tasks| && r.startChunk <= i <= r.endChunk + 1
  {
    if i == r.startChunk then tasks[i].chunkLength - r.startOffset
    else if i == r.endChunk then r.endOffset
    else if i <= r.endChunk then tasks[i].chunkLength
    else 1
  }

  /** A segment is named by the hash of what is there; in a new file one may lie past the end. */
  ghost predicate Segment(existing: Bytes, isNew: bool, offset: nat, length: nat, hash: ChunkHash) {
    length > 0 && if offset >= |existing| then isNew else hash == HashOf(Portion(existing, offset, length))
  }

  ghost predicate Split(existing: Bytes, isNew: bool, hashes: seq<ChunkHash>, lengths: seq<nat>) {
    |hashes| == |lengths| && SplitUpto(existing, isNew, hashes, lengths, |hashes|)
  }

  ghost predicate SplitUpto(existing: Bytes, isNew: bool, hashes: seq<ChunkHash>, lengths: seq<nat>, n: nat)
    requires n <= |hashes| == |lengths|
  {
    n > 0 ==>
      SplitUpto(existing, isNew, hashes, lengths, n - 1) &&
      Segment(existing, isNew, Upto(lengths, n - 1), lengths[n - 1], hashes[n - 1])
  }

  lemma {:induction false} SplitAt(existing: Bytes, isNew: bool, hashes: seq<ChunkHash>, lengths: seq<nat>, n: nat,
                                   j: nat)
    requires j < n <= |hashes| == |lengths| && SplitUpto(existing, isNew, hashes, lengths, n)
    ensures Segment(existing, isNew, Upto(lengths, j), lengths[j], hashes[j])
  {
    if j < n - 1 { SplitAt(existing, isNew, hashes, lengths, n - 1, j); }
  }

  lemma {:induction false} SplitLonger(existing: Bytes, isNew: bool, hashes: seq<ChunkHash>, lengths: seq<nat>, n: nat,
                                       hash: ChunkHash, length: nat)
    requires n <= |hashes| == |lengths| && SplitUpto(existing, isNew, hashes, lengths, n)
    ensures SplitUpto(existing, isNew, hashes + [hash], lengths + [length], n)
  {
    if n > 0 {
      SplitLonger(existing, isNew, hashes, lengths, n - 1, hash, length);
      UptoAppend(lengths, [length], n - 1);
    }
  }

  lemma SplitNext(existing: Bytes, isNew: bool, hashes: seq<ChunkHash>, lengths: seq<nat>, hash: ChunkHash, length: nat)
    requires Split(existing, isNew, hashes, lengths) && Segment(existing, isNew, Total(lengths), length, hash)
    ensures Split(existing, isNew, hashes + [hash], lengths + [length])
    ensures Total(lengths + [length]) == Total(lengths) + length
  {
    SplitLonger(existing, isNew, hashes, lengths, |hashes|, hash, length);
    UptoAppend(lengths, [length], |lengths|);
  }

  /**
   Where the scan stands: exactly behind the pieces before chunk `i`, or behind the end of the existing file.
   In a new file the segments lie as the pieces do.
   */
  ghost predicate Scanned(existing: Bytes, isNew: bool, chunks: seq<Bytes>, r: Range, i: nat, offset: nat)
    requires Within(chunks, r) && r.startChunk <= i <= r.endChunk + 2
  {
    if i <= r.endChunk then offset == |Before(chunks, r, i)| || (!isNew && |existing| <= offset)
    else offset >= Min(|existing|, |Slice(chunks, r)| + i - r.endChunk - 1)
  }

  /** One more segment, unless there was nothing to read. */
  lemma ScanAdvances(existing: Bytes, isNew: bool, tasks: seq<Task>, chunks: seq<Bytes>, r: Range, i: nat, offset: nat,
                     next: nat)
    requires Names(tasks, chunks) && Within(chunks, r) && r.startChunk <= i <= r.endChunk + 1
    requires Scanned(existing, isNew, chunks, r, i, offset) && (isNew ==> |existing| == |Slice(chunks, r)|)
    requires next == offset + SegmentSize(tasks, r, i) ||
             (next == offset && Portion(existing, offset, SegmentSize(tasks, r, i)) == [])
    ensures Scanned(existing, isNew, chunks, r, i + 1, next)
    ensures isNew && offset < |existing| ==>
      i <= r.endChunk && (offset == 0 || offset + SegmentSize(tasks, r, i) <= |existing|)
  {
    if i <= r.endChunk {
      BeforeIsPrefix(chunks, r, i + 1);
      AllPieces(chunks, r);
    }
  }

  /** The zeros hashed so far for a new file, by number. */
  ghost predicate Known(known: map<int, ChunkHash>, size: nat) {
    forall n :: n in known ==> n > 0 && known[n] == HashOf(Zeros(Min(n, size)))
  }

  lemma ZeroPortion(size: nat, offset: nat, n: nat)
    requires offset < size && (offset == 0 || offset + n <= size)
    ensures Portion(Zeros(size), offset, n) == Zeros(Min(n, size))
  {
  }

  lemma PortionExtends(s: Bytes, offset: nat, n: nat)
    ensures Portion(s, 0, offset) + Portion(s, offset, n) == Portion(s, 0, offset + n)
  {
  }

  /** Whether a hash has been computed over the whole file, or over more than `size` bytes of it. */
  ghost predicate HashedBeyond(read: Bytes, existing: Bytes, isNew: bool, size: nat) {
    read <= existing && (isNew || |read| == |existing| || |read| > size)
  }

  /**
   The segments found, the bytes hashed for the whole file, and the hashes of zeros already computed for a new one.
   */
  datatype Scan = Scan(hashes: seq<ChunkHash>, lengths: seq<nat>, offset: nat, read: Bytes, known: map<int, ChunkHash>,
                       isSkipped: bool)
  {
    function Add(hash: ChunkHash, length: nat): Scan {
      this.(hashes := hashes + [hash], lengths := lengths + [length], offset := offset + length)
    }
  }

  /** The segments found before chunk `i`. */
  ghost predicate Found(existing: Bytes, isNew: bool, chunks: seq<Bytes>, r: Range, i: nat, s: Scan)
    requires Within(chunks, r) && r.startChunk <= i <= r.endChunk + 2
  {
    Split(existing, isNew, s.hashes, s.lengths) && Total(s.lengths) == s.offset &&
    Scanned(existing, isNew, chunks, r, i, s.offset)
  }

  /** What has been hashed. */
  ghost predicate Hashed(existing: Bytes, isNew: bool, s: Scan) {
    s.read <= existing && |s.read| <= s.offset && Known(s.known, |existing|) &&
    if isNew then existing == Zeros(|existing|) else s.read == Portion(existing, 0, s.offset)
  }

  ghost predicate SoFar(existing: Bytes, isNew: bool, chunks: seq<Bytes>, r: Range, i: nat, s: Scan)
    requires Within(chunks, r) && r.startChunk <= i <= r.endChunk + 2
  {
    Found(existing, isNew, chunks, r, i, s) && Hashed(existing, isNew, s) &&
    (isNew ==> |existing| == |Slice(chunks, r)|)
  }

  lemma SegmentSkipped(existing: Bytes, tasks: seq<Task>, chunks: seq<Bytes>, r: Range, i: nat, s: Scan)
    requires Names(tasks, chunks) && Within(chunks, r) && r.startChunk <= i <= r.endChunk + 1
    requires SoFar(existing, true, chunks, r, i, s) && SegmentSize(tasks, r, i) in s.known
    ensures var n := SegmentSize(tasks, r, i); n > 0 && SoFar(existing, true, chunks, r, i + 1, s.Add(s.known[n], n))
  {
    var n := SegmentSize(tasks, r, i);
    ScanAdvances(existing, true, tasks, chunks, r, i, s.offset, s.offset + n);
    if s.offset < |existing| { ZeroPortion(|existing|, s.offset, n); }
    SplitNext(existing, true, s.hashes, s.lengths, s.known[n], n);
  }

  lemma NothingRead(existing: Bytes, isNew: bool, tasks: seq<Task>, chunks: seq<Bytes>, r: Range, i: nat, s: Scan)
    requires Names(tasks, chunks) && Within(chunks, r) && r.startChunk <= i <= r.endChunk + 1
    requires SoFar(existing, isNew, chunks, r, i, s) && SegmentSize(tasks, r, i) >= 0
    requires Portion(existing, s.offset, SegmentSize(tasks, r, i)) == []
    ensures SoFar(existing, isNew, chunks, r, i + 1, s)
  {
    ScanAdvances(existing, isNew, tasks, chunks, r, i, s.offset, s.offset);
  }

  lemma SegmentRead(existing: Bytes, isNew: bool, tasks: seq<Task>, chunks: seq<Bytes>, r: Range, i: nat, s: Scan,
                    data: Bytes, next: Scan)
    requires Names(tasks, chunks) && Within(chunks, r) && r.startChunk <= i <= r.endChunk + 1
    requires SoFar(existing, isNew, chunks, r, i, s)
    requires SegmentSize(tasks, r, i) >= 0 && data == Portion(existing, s.offset, SegmentSize(tasks, r, i)) != []
    requires var n := SegmentSize(tasks, r, i);
      next == s.Add(HashOf(data), n).(read := s.read + data,
                                      known := if isNew then s.known[n := HashOf(data)] else s.known,
                                      isSkipped := false)
    ensures SoFar(existing, isNew, chunks, r, i + 1, next)
  {
    var n := SegmentSize(tasks, r, i);
    ScanAdvances(existing, isNew, tasks, chunks, r, i, s.offset, s.offset + n);
    SplitNext(existing, isNew, s.hashes, s.lengths, HashOf(data), n);
    DataHashed(existing, isNew, s, n, next);
  }

  lemma DataHashed(existing: Bytes, isNew: bool, s: Scan, n: nat, next: Scan)
    requires Hashed(existing, isNew, s) && n > 0 && s.offset < |existing|
    requires isNew ==> s.offset == 0 || s.offset + n <= |existing|
    requires next.offset == s.offset + n && next.read == s.read + Portion(existing, s.offset, n)
    requires next.known == if isNew then s.known[n := HashOf(Portion(existing, s.offset, n))] else s.known
    ensures Hashed(existing, isNew, next)
  {
    ReadExtends(existing, isNew, s.offset, n, s.read);
    if isNew { KnownNext(s.known, |existing|, s.offset, n); }
  }

  lemma KnownNext(known: map<int, ChunkHash>, size: nat, offset: nat, n: nat)
    requires Known(known, size) && n > 0 && offset < size && (offset == 0 || offset + n <= size)
    ensures Known(known[n := HashOf(Portion(Zeros(size), offset, n))], size)
  {
    ZeroPortion(size, offset, n);
  }

  lemma ReadExtends(existing: Bytes, isNew: bool, offset: nat, n: nat, read: Bytes)
    requires read <= existing && |read| <= offset && offset < |existing|
    requires if isNew then existing == Zeros(|existing|) else read == Portion(existing, 0, offset)
    ensures read + Portion(existing, offset, n) <= existing
    ensures |read + Portion(existing, offset, n)| <= offset + n
    ensures !isNew ==> read + Portion(existing, offset, n) == Portion(existing, 0, offset + n)
  {
    var data := Portion(existing, offset, n);
    PortionExtends(existing, offset, n);
    forall k | 0 <= k < |read + data| ensures (read + data)[k] == existing[k] {
      if k >= |read| { assert (read + data)[k] == existing[offset + (k - |read|)]; }
    }
  }

  lemma SegmentSizeIsNat(tasks: seq<Task>, chunks: seq<Bytes>, r: Range, i: nat)
    requires Names(tasks, chunks) && Within(chunks, r) && r.startChunk <= i <= r.endChunk + 1
    ensures SegmentSize(tasks, r, i) >= 0
  {
  }

  /** The handle stands where the scan does, unless a segment has been skipped or the end of the file reached. */
  ghost predicate At(position: nat, existing: Bytes, s: Scan) {
    s.isSkipped || position == s.offset || (position >= |existing| && s.offset >= |existing|)
  }

  /** What is read is the segment at the offset, and the handle stays with the scan. */
  lemma ReadMoves(existing: Bytes, position: nat, offset: nat, n: nat, data: Bytes)
    requires position == offset || (position >= |existing| && offset >= |existing|)
    requires data == Portion(existing, position, n)
    ensures data == Portion(existing, offset, n)
    ensures var next := if data == [] then offset else offset + n;
      position + |data| == next || (position + |data| >= |existing| && next >= |existing|)
  {
  }

  /** One segment: hash it, or take the hash of as many zeros. */
  method ScanSegment(target: Target, tasks: seq<Task>, r: Range, isNewFile: bool, i: nat, s: Scan,
                     ghost chunks: seq<Bytes>)
    returns (next: Scan)
    requires Names(tasks, chunks) && Within(chunks, r) && target.content.Some? && r.startChunk <= i <= r.endChunk + 1
    requires SoFar(target.content.value, isNewFile, chunks, r, i, s) && At(target.position, target.content.value, s)
    modifies target`position
    ensures SoFar(target.content.value, isNewFile, chunks, r, i + 1, next)
    ensures At(target.position, target.content.value, next)
  {
    ghost var existing := target.content.value;
    SegmentSizeIsNat(tasks, chunks, r, i);
    var chunkSize: nat := SegmentSize(tasks, r, i);
    if isNewFile && chunkSize in s.known {
      SegmentSkipped(existing, tasks, chunks, r, i, s);
      return s.Add(s.known[chunkSize], chunkSize).(isSkipped := true);
    }
    if s.isSkipped {
      target.Seek(s.offset);
    }
    ghost var position := target.position;
    var data := target.ReadSegment(chunkSize);
    ReadMoves(existing, position, s.offset, chunkSize, data);
    if data == [] {
      NothingRead(existing, isNewFile, tasks, chunks, r, i, s);
      return s.(isSkipped := false);
    }
    next := s.Add(HashOf(data), chunkSize).(read := s.read + data,
            known := if isNewFile then s.known[chunkSize := HashOf(data)] else s.known, isSkipped := false);
    SegmentRead(existing, isNewFile, tasks, chunks, r, i, s, data, next);
  }

  /** Split the existing file at the offsets of the backup. */
  method ScanExisting(target: Target, tasks: seq<Task>, r: Range, isNewFile: bool, ghost chunks: seq<Bytes>)
    returns (existingChunks: seq<ChunkHash>, existingLengths: seq<nat>, fileHash: FileHash)
    requires Names(tasks, chunks) && Within(chunks, r) && target.content.Some? && target.position == 0
    requires isNewFile ==> target.content.value == Zeros(|Slice(chunks, r)|)
    modifies target`position
    ensures Split(target.content.value, isNewFile, existingChunks, existingLengths)
    ensures HashedBeyond(fileHash.content, target.content.value, isNewFile, |Slice(chunks, r)|)
  {
    var s := Scan([], [], 0, [], map[], false);
    assert SoFar(target.content.value, isNewFile, chunks, r, r.startChunk, s);
    for i := r.startChunk to r.endChunk + 2
      invariant SoFar(target.content.value, isNewFile, chunks, r, i, s) && At(target.position, target.content.value, s)
    {
      s := ScanSegment(target, tasks, r, isNewFile, i, s, chunks);
    }
    existingChunks, existingLengths, fileHash := s.hashes, s.lengths, FileHash(s.read);
    ScanEnds(target.content.value, isNewFile, chunks, r, s);
  }

  lemma ScanEnds(existing: Bytes, isNew: bool, chunks: seq<Bytes>, r: Range, s: Scan)
    requires Within(chunks, r) && SoFar(existing, isNew, chunks, r, r.endChunk + 2, s)
    ensures Split(existing, isNew, s.hashes, s.lengths) && HashedBeyond(s.read, existing, isNew, |Slice(chunks, r)|)
  {
  }

  // ------------------------------------------------------------------ writing in place

  /** The file when its beginning has been restored. */
  function Mixed(done: Bytes, existing: Bytes): Bytes { done + Rest(existing, |done|) }

  /** Writing at the end of what has been restored. */
  lemma Overwritten(content: Bytes, done: Bytes, existing: Bytes, data: Bytes)
    requires content == Mixed(done, existing)
    ensures Portion(content, 0, |done|) + Zeros(0) + data + Rest(content, |done| + |data|) ==
            Mixed(done + data, existing)
  {
    assert Portion(content, 0, |done|) == done;
    RestOfRest(done, existing, |data|);
  }

  lemma RestOfRest(done: Bytes, existing: Bytes, n: nat)
    ensures Rest(done + Rest(existing, |done|), |done| + n) == Rest(existing, |done| + n)
  {
    var l, r := Rest(done + Rest(existing, |done|), |done| + n), Rest(existing, |done| + n);
    assert |l| == |r|;
    forall k | 0 <= k < |l| ensures l[k] == r[k] { }
  }

  /** A segment with the hash of the chunk at the same offset is the piece itself, and has not been overwritten. */
  lemma KeptSegment(existing: Bytes, isNew: bool, hashes: seq<ChunkHash>, lengths: seq<nat>, j: nat, chunk: Bytes,
                    content: Bytes, done: Bytes, size: nat)
    requires Split(existing, isNew, hashes, lengths) && j < |hashes| && Upto(lengths, j) == |done|
    requires hashes[j] == HashOf(chunk) && lengths[j] <= |chunk|
    requires |done| + lengths[j] <= size && (isNew ==> |existing| == size)
    requires content == Mixed(done, existing)
    ensures Portion(content, |done|, lengths[j]) == chunk[..lengths[j]]
    ensures content == Mixed(done + chunk[..lengths[j]], existing)
  {
    SplitAt(existing, isNew, hashes, lengths, |hashes|, j);
    assert |chunk| == lengths[j] && chunk[..lengths[j]] == chunk;
    KeptChunk(existing, done, chunk);
  }

  lemma KeptChunk(existing: Bytes, done: Bytes, chunk: Bytes)
    requires chunk != [] && chunk == Portion(existing, |done|, |chunk|)
    ensures Portion(Mixed(done, existing), |done|, |chunk|) == chunk
    ensures Mixed(done, existing) == Mixed(done + chunk, existing)
  {
    KeptPortion(existing, |done|, |chunk|);
    PortionBehind(done, chunk, Rest(existing, |done| + |chunk|));
  }

  lemma KeptPortion(existing: Bytes, offset: nat, n: nat)
    requires offset + n <= |existing|
    ensures Rest(existing, offset) == Portion(existing, offset, n) + Rest(existing, offset + n)
  {
  }

  lemma PortionBehind(done: Bytes, data: Bytes, rest: Bytes)
    ensures Portion(done + (data + rest), |done|, |data|) == data
    ensures done + (data + rest) == done + data + rest
  {
  }

  ghost predicate PartlyWritten(existing: Bytes, size: nat, whole: Bytes, content: Option<Bytes>) {
    exists n: nat :: n <= size <= |whole| && content == Some(Mixed(whole[..n], existing))
  }

  /** The loop that keeps or overwrites one piece after the other. */
  method WriteInPlace(target: Target, downloader: ChunkDownloader, r: Range, existingChunks: seq<ChunkHash>,
                      existingLengths: seq<nat>, ghost chunks: seq<Bytes>, ghost existing: Bytes, ghost isNew: bool)
    returns (broken: bool, hashed: Bytes, ghost stopped: nat)
    requires downloader.Valid(chunks) && Within(chunks, r) && downloader.lastChunkIndex <= r.startChunk
    requires Split(existing, isNew, existingChunks, existingLengths) && (isNew ==> |existing| == |Slice(chunks, r)|)
    requires target.content == Some(existing)
    modifies target, downloader
    ensures downloader.Valid(chunks) && downloader.lastChunkIndex <= r.endChunk
    ensures broken ==>
      !downloader.reliable && r.startChunk <= stopped <= r.endChunk &&
      Written(chunks, r, stopped, existing, target.content)
    ensures !broken ==> hashed == Slice(chunks, r) && target.content == Some(Mixed(hashed, existing))
  {
    WriteStarts(chunks, r, existing);
    target.Seek(0);
    broken, hashed, stopped := WritePieces(target, downloader, r, existingChunks, existingLengths, chunks, existing,
                                           isNew);
    PiecesDone(chunks, r, existing, broken, hashed, stopped, target.content);
  }

  method WritePieces(target: Target, downloader: ChunkDownloader, r: Range, existingChunks: seq<ChunkHash>,
                     existingLengths: seq<nat>, ghost chunks: seq<Bytes>, ghost existing: Bytes, ghost isNew: bool)
    returns (broken: bool, hashed: Bytes, ghost stopped: nat)
    requires downloader.Valid(chunks) && Within(chunks, r) && downloader.lastChunkIndex <= r.startChunk
    requires Split(existing, isNew, existingChunks, existingLengths) && (isNew ==> |existing| == |Slice(chunks, r)|)
    requires Before(chunks, r, r.startChunk) == [] && Written(chunks, r, r.startChunk, existing, target.content)
    modifies target, downloader
    ensures downloader.Valid(chunks) && downloader.lastChunkIndex <= r.endChunk
    ensures r.startChunk <= stopped <= r.endChunk + 1 && Written(chunks, r, stopped, existing, target.content)
    ensures if broken then !downloader.reliable && stopped <= r.endChunk
            else stopped == r.endChunk + 1 && hashed == Before(chunks, r, stopped)
  {
    var j: nat, offset: nat, existingOffset: nat := 0, 0, 0;
    hashed, stopped := [], r.startChunk;
    for i := r.startChunk to r.endChunk + 1
      invariant downloader.Valid(chunks) && downloader.lastChunkIndex <= i && stopped == i
      invariant j <= |existingLengths| && existingOffset == Upto(existingLengths, j)
      invariant downloader.lastChunkIndex <= r.endChunk
      invariant hashed == Before(chunks, r, i) && offset == |hashed| && Written(chunks, r, i, existing, target.content)
    {
      broken, hashed, offset, j, existingOffset :=
        WritePiece(target, downloader, r, i, existingChunks, existingLengths,
                   hashed, offset, j, existingOffset, chunks, existing, isNew);
      if broken {
        return;
      }
      stopped := i + 1;
    }
    broken := false;
  }

  lemma PiecesDone(chunks: seq<Bytes>, r: Range, existing: Bytes, broken: bool, hashed: Bytes, stopped: nat,
                   content: Option<Bytes>)
    requires Within(chunks, r) && r.startChunk <= stopped <= r.endChunk + 1
    requires Written(chunks, r, stopped, existing, content)
    requires !broken ==> stopped == r.endChunk + 1 && hashed == Before(chunks, r, stopped)
    ensures !broken ==> hashed == Slice(chunks, r) && content == Some(Mixed(hashed, existing))
  {
    AllPieces(chunks, r);
  }

  lemma WriteStarts(chunks: seq<Bytes>, r: Range, existing: Bytes)
    requires Within(chunks, r)
    ensures Before(chunks, r, r.startChunk) == [] && Written(chunks, r, r.startChunk, existing, Some(existing))
  {
    assert Mixed([], existing) == existing;
  }

  /** The pieces before chunk `i` are in place, and nothing behind them has been touched. */
  ghost predicate Written(chunks: seq<Bytes>, r: Range, i: nat, existing: Bytes, content: Option<Bytes>)
    requires Within(chunks, r) && r.startChunk <= i <= r.endChunk + 1
  {
    content == Some(Mixed(Before(chunks, r, i), existing))
  }

  lemma PieceFits(chunks: seq<Bytes>, r: Range, i: nat)
    requires Within(chunks, r) && r.startChunk <= i <= r.endChunk
    ensures |Before(chunks, r, i)| + |Piece(chunks, r, i)| <= |Slice(chunks, r)|
    ensures Before(chunks, r, i + 1) == Before(chunks, r, i) + Piece(chunks, r, i)
  {
    BeforeIsPrefix(chunks, r, i + 1);
  }

  lemma Partly(existing: Bytes, chunks: seq<Bytes>, r: Range, i: nat, content: Option<Bytes>)
    requires Within(chunks, r) && r.startChunk <= i <= r.endChunk + 1
    requires Written(chunks, r, i, existing, content)
    ensures PartlyWritten(existing, |Slice(chunks, r)|, Slice(chunks, r), content)
  {
    BeforeIsPrefix(chunks, r, i);
    assert Slice(chunks, r)[..|Before(chunks, r, i)|] == Before(chunks, r, i);
  }

  /** Read a piece that is already there. */
  method KeepPiece(target: Target, existingChunks: seq<ChunkHash>, existingLengths: seq<nat>, j: nat,
                   ghost chunk: Bytes, ghost existing: Bytes, ghost isNew: bool, ghost done: Bytes, ghost size: nat)
    returns (data: Bytes)
    requires Split(existing, isNew, existingChunks, existingLengths) && (isNew ==> |existing| == size)
    requires j < |existingChunks| && Upto(existingLengths, j) == |done| == target.position
    requires existingChunks[j] == HashOf(chunk) && existingLengths[j] <= |chunk| && |done| + existingLengths[j] <= size
    requires target.content == Some(Mixed(done, existing))
    modifies target`position
    ensures data == chunk[..existingLengths[j]] && target.content == Some(Mixed(done + data, existing))
  {
    KeptSegment(existing, isNew, existingChunks, existingLengths, j, chunk, target.content.value, done, size);
    data := target.ReadSegment(existingLengths[j]);
  }

  /** Put a piece in its place. */
  method OverwritePiece(target: Target, data: Bytes, ghost existing: Bytes, ghost done: Bytes)
    requires target.content == Some(Mixed(done, existing)) && target.position == |done|
    modifies target
    ensures target.content == Some(Mixed(done + data, existing))
  {
    Overwritten(target.content.value, done, existing, data);
    target.Write(data);
  }

  /** The whole chunk belongs to the file, and the segment is the chunk; there is no need to download it. */
  ghost predicate Reusable(chunks: seq<Bytes>, r: Range, i: nat, hash: ChunkHash, length: nat)
    requires Within(chunks, r) && i < |chunks|
  {
    PieceStart(r, i) == 0 && length == (if i == r.endChunk then r.endOffset else |chunks[i]|) &&
    hash == HashOf(chunks[i])
  }

  /** One piece: keep it if the segment at this offset is the chunk, else overwrite it. */
  method WritePiece(target: Target, downloader: ChunkDownloader, r: Range, i: nat, existingChunks: seq<ChunkHash>,
                    existingLengths: seq<nat>, hashed0: Bytes, offset0: nat, j0: nat, existingOffset0: nat,
                    ghost chunks: seq<Bytes>, ghost existing: Bytes, ghost isNew: bool)
    returns (broken: bool, hashed: Bytes, offset: nat, j: nat, existingOffset: nat)
    requires downloader.Valid(chunks) && Within(chunks, r) && r.startChunk <= i <= r.endChunk
    requires downloader.lastChunkIndex <= i
    requires Split(existing, isNew, existingChunks, existingLengths) && (isNew ==> |existing| == |Slice(chunks, r)|)
    requires j0 <= |existingLengths| && existingOffset0 == Upto(existingLengths, j0)
    requires hashed0 == Before(chunks, r, i) && offset0 == |hashed0| && Written(chunks, r, i, existing, target.content)
    modifies target, downloader
    ensures downloader.Valid(chunks) && downloader.lastChunkIndex <= i
    ensures j <= |existingLengths| && existingOffset == Upto(existingLengths, j)
    ensures if broken then !downloader.reliable && Written(chunks, r, i, existing, target.content)
            else
              hashed == Before(chunks, r, i + 1) && offset == |hashed| &&
              Written(chunks, r, i + 1, existing, target.content)
    ensures existingOffset == offset0 && j < |existingChunks| &&
            Reusable(chunks, r, i, existingChunks[j], existingLengths[j]) ==>
      downloader.submitted == old(downloader.submitted)
  {
    hashed, offset := hashed0, offset0;
    j, existingOffset := Advance(existingLengths, j0, existingOffset0, offset);
    PieceFits(chunks, r, i);
    var task := downloader.taskList[i];
    var start := PieceStart(r, i);
    var end := if i == r.endChunk then r.endOffset else task.chunkLength;
    var data := [];
    target.Seek(offset);
    if existingOffset == offset && start == 0 && j < |existingChunks| && end == existingLengths[j] &&
       existingChunks[j] == task.chunkHash
    {
      data := KeepPiece(target, existingChunks, existingLengths, j, chunks[i], existing, isNew, hashed,
                        |Slice(chunks, r)|);
    } else {
      var chunk := downloader.WaitForChunk(i, chunks);
      if chunk.isBroken {
        return true, hashed, offset, j, existingOffset;
      }
      data := chunk.content[start..end];
      OverwritePiece(target, data, existing, hashed);
    }
    assert data == Piece(chunks, r, i);
    hashed := hashed + data;
    offset := offset + (end - start);
    broken := false;
  }

  method Advance(existingLengths: seq<nat>, j0: nat, existingOffset0: nat, offset: nat)
    returns (j: nat, existingOffset: nat)
    requires j0 <= |existingLengths| && existingOffset0 == Upto(existingLengths, j0)
    ensures j <= |existingLengths| && existingOffset == Upto(existingLengths, j)
    ensures j0 <= j && (j < |existingLengths| ==> existingOffset >= offset)
  {
    j, existingOffset := j0, existingOffset0;
    while existingOffset < offset && j < |existingLengths|
      invariant j0 <= j <= |existingLengths| && existingOffset == Upto(existingLengths, j)
    {
      existingOffset, j := existingOffset + existingLengths[j], j + 1;
    }
  }

  lemma HashDecides(read: Bytes, existing: Bytes, isNew: bool, whole: Bytes)
    requires HashedBeyond(read, existing, isNew, |whole|) && (isNew ==> |existing| == |whole|)
    ensures read == whole ==> existing == whole
    ensures !isNew && existing == whole ==> read == whole
  {
  }

  // ------------------------------------------------------------------ the whole operation

  const SparseThreshold: nat := 100 * 1024 * 1024

  /** A new file of zeros, of which only the last bytes are written. */
  method CreateSparse(target: Target, size: nat)
    requires size > SparseThreshold
    modifies target
    ensures target.content == Some(Zeros(size)) && forall b :: b in target.content.value ==> b == 0
  {
    target.Create();
    var n := if size % 0x1_0000_0000 == 0 then 2 else 1;
    target.Seek(size - n);
    target.Write(Zeros(n));
    assert target.content.value == Zeros(size);
  }

  /** What writing starts from: the existing file, a new file of zeros, or an empty file. */
  function Initial(content: Option<Bytes>, openable: bool, sparse: bool, size: nat): Bytes {
    match content
    case Some(existing) => if openable then existing else []
    case None => if sparse && size > SparseThreshold then Zeros(size) else []
  }

  datatype RestoreOutcome = Downloaded | SkippedByHash | FileExists | ChunkBroken | HashMismatch

  /** What the target holds after each outcome; `whole` are the contents of the file in the snapshot. */
  ghost predicate Restored(outcome: RestoreOutcome, entry: Entry, whole: Bytes, initial: Bytes, before: Option<Bytes>,
                           after: Option<Bytes>)
  {
    match outcome
    case Downloaded => after == Some(whole) && (entry.hash.None? || entry.hash == Some(FileHash(whole)))
    case HashMismatch => after == Some(whole) && entry.hash.Some? && entry.hash != Some(FileHash(whole))
    case SkippedByHash => after == Some(initial) && (entry.hash == Some(FileHash(whole)) ==> initial == whole)
    case FileExists =>
      before.Some? && after == before && (entry.hash == Some(FileHash(whole)) ==> before != Some(whole))
    case ChunkBroken => PartlyWritten(initial, |whole|, whole, after)
  }

  lemma WholeOnly(initial: Bytes, whole: Bytes, fileCreated: bool)
    requires fileCreated ==> |initial| <= |whole|
    ensures Mixed(whole, initial)[..|whole|] == whole
    ensures fileCreated ==> Mixed(whole, initial) == whole
  {
  }

  /** The tasks of the range before `n` whose chunks the file does not have are needed, and no others than before. */
  ghost predicate Marked(before: seq<Task>, r: Range, n: int, existingChunks: seq<ChunkHash>, after: seq<Task>) {
    |after| == |before| &&
    forall i :: 0 <= i < |after| ==>
      after[i] == before[i].(needed := before[i].needed ||
                                       (r.startChunk <= i < n && before[i].chunkHash !in existingChunks))
  }

  /** Mark the chunks to be downloaded. */
  method NeedChunks(downloader: ChunkDownloader, r: Range, existingChunks: seq<ChunkHash>, ghost chunks: seq<Bytes>)
    requires downloader.Valid(chunks) && Within(chunks, r) && downloader.lastChunkIndex <= r.startChunk
    modifies downloader
    ensures downloader.Valid(chunks) && downloader.lastChunkIndex == old(downloader.lastChunkIndex)
    ensures Marked(old(downloader.taskList), r, r.endChunk + 1, existingChunks, downloader.taskList)
  {
    for i := r.startChunk to r.endChunk + 1
      invariant downloader.Valid(chunks) && downloader.lastChunkIndex == old(downloader.lastChunkIndex)
      invariant Marked(old(downloader.taskList), r, i, existingChunks, downloader.taskList)
    {
      if downloader.taskList[i].chunkHash !in existingChunks {
        downloader.Need(i, chunks);
      }
    }
  }

  /** Download what is needed, and write the file over what is in the target. */
  method DownloadFile(target: Target, downloader: ChunkDownloader, entry: Entry, existingChunks: seq<ChunkHash>,
                      existingLengths: seq<nat>, isOpen: bool, created: bool, ghost isNewFile: bool,
                      ghost initial: Bytes, ghost before: Option<Bytes>, ghost chunks: seq<Bytes>)
    returns (outcome: RestoreOutcome)
    requires downloader.Valid(chunks) && HasContents(entry) && Within(chunks, entry.range)
    requires downloader.lastChunkIndex <= entry.range.startChunk
    requires if isOpen then target.content == Some(initial) else initial == []
    requires Split(initial, isNewFile, existingChunks, existingLengths)
    requires isNewFile ==> |initial| == |Slice(chunks, entry.range)|
    requires created ==> |initial| <= |Slice(chunks, entry.range)|
    modifies target, downloader
    ensures downloader.Valid(chunks) && downloader.lastChunkIndex <= entry.range.endChunk
    ensures !outcome.FileExists? && !outcome.SkippedByHash? && (outcome.ChunkBroken? ==> !downloader.reliable)
    ensures Restored(outcome, entry, Slice(chunks, entry.range), initial, before, target.content)
  {
    ghost var whole := Slice(chunks, entry.range);
    NeedChunks(downloader, entry.range, existingChunks, chunks);
    downloader.Prefetch(entry, chunks);
    var fileCreated := created;
    if !isOpen {
      target.Create();
      fileCreated := true;
    }
    var broken, hashed, stopped :=
      WriteInPlace(target, downloader, entry.range, existingChunks, existingLengths, chunks, initial, isNewFile);
    if broken {
      Partly(initial, chunks, entry.range, stopped, target.content);
      return ChunkBroken;
    }
    if !fileCreated {
      target.Truncate(|hashed|);
    }
    WholeOnly(initial, whole, fileCreated);
    outcome := if entry.hash.Some? && entry.hash != Some(FileHash(hashed)) then HashMismatch else Downloaded;
  }

  method RestoreFile(target: Target, downloader: ChunkDownloader, entry: Entry, overwrite: bool, knownAbsent: bool,
                     openable: bool, sparse: bool, ghost chunks: seq<Bytes>)
    returns (outcome: RestoreOutcome)
    requires downloader.Valid(chunks) && HasContents(entry) && Within(chunks, entry.range)
    requires entry.size == |Slice(chunks, entry.range)|
    requires downloader.lastChunkIndex <= entry.range.startChunk
    requires knownAbsent ==> target.content.None?
    modifies target, downloader
    ensures downloader.Valid(chunks) && downloader.lastChunkIndex <= entry.range.endChunk
    ensures Restored(outcome, entry, Slice(chunks, entry.range),
                     Initial(old(target.content), openable, sparse, entry.size),
                     old(target.content), target.content)
    ensures outcome == ChunkBroken ==> !downloader.reliable
    ensures entry.hash == Some(FileHash(Slice(chunks, entry.range))) ==>
      (outcome == FileExists <==>
        old(target.content).Some? && openable && !overwrite &&
        old(target.content) != Some(Slice(chunks, entry.range))) &&
      (openable && old(target.content) == Some(Slice(chunks, entry.range)) ==> outcome == SkippedByHash)
  {
    ghost var whole := Slice(chunks, entry.range);
    var existingChunks: seq<ChunkHash>, existingLengths: seq<nat> := [], [];
    var isNewFile, fileCreated := false, false;
    var isOpen := !knownAbsent && target.content.Some? && openable;
    if target.content.None? && sparse && entry.size > SparseThreshold {
      CreateSparse(target, entry.size);
      isOpen, isNewFile, fileCreated := true, true, true;
    }
    if isOpen {
      target.Seek(0);
      var fileHash;
      existingChunks, existingLengths, fileHash :=
        ScanExisting(target, downloader.taskList, entry.range, isNewFile, chunks);
      HashDecides(fileHash.content, target.content.value, isNewFile, whole);
      if entry.hash == Some(fileHash) {
        return SkippedByHash;
      }
      if !overwrite && !isNewFile {
        return FileExists;
      }
    }
    outcome := DownloadFile(target, downloader, entry, existingChunks, existingLengths, isOpen, fileCreated, isNewFile,
                            Initial(old(target.content), openable, sparse, entry.size), old(target.content), chunks);
  }
}
