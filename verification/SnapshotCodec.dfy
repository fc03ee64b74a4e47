/**
 Storing and reading back the file list of a snapshot: the chunk list is compacted to the chunks in use,
 chunk numbers are stored as differences, and reading undoes this.
 */
module SnapshotCodec {
  import opened Common
  import opened Buzhash
  import opened Chunking
  import opened ChunkLists
  import opened ChunkMakers
  import opened PathOrder
  import opened EntryLists
  import opened BackupMerge

  predicate HasContents(e: Entry) { e.IsFile() && e.size > 0 }

  // ------------------------------------------------------------------ delta encoding

  /** The start chunk relative to the end of the previous file with contents, the end chunk relative to the start. */
  function EncodeOne(e: Entry, lastEndChunk: int): Entry {
    if HasContents(e) then
      e.(range := e.range.(startChunk := e.range.startChunk - lastEndChunk,
                           endChunk := e.range.endChunk - e.range.startChunk))
    else e
  }

  /** The end chunk of the last file with contents. */
  function LastEnd(entries: seq<Entry>): int {
    if entries == [] then 0
    else if HasContents(entries[|entries| - 1]) then entries[|entries| - 1].range.endChunk
    else LastEnd(entries[..|entries| - 1])
  }

  function EncodeAll(entries: seq<Entry>): (r: seq<Entry>)
    ensures |r| == |entries|
  {
    if entries == [] then []
    else EncodeAll(entries[..|entries| - 1]) + [EncodeOne(entries[|entries| - 1], LastEnd(entries[..|entries| - 1]))]
  }

  /** Reading treats all files alike, also the empty ones. */
  function DecodeOne(e: Entry, lastEndChunk: int): Entry {
    if e.IsFile() then
      e.(range := e.range.(startChunk := e.range.startChunk + lastEndChunk,
                           endChunk := e.range.endChunk + e.range.startChunk + lastEndChunk))
    else e
  }

  /** The end chunk of the last file read. */
  function LastRead(encoded: seq<Entry>): int {
    if encoded == [] then 0
    else
      var last := LastRead(encoded[..|encoded| - 1]);
      var d := DecodeOne(encoded[|encoded| - 1], last);
      if d.IsFile() then d.range.endChunk else last
  }

  function DecodeAll(encoded: seq<Entry>): (r: seq<Entry>)
    ensures |r| == |encoded|
  {
    if encoded == [] then []
    else DecodeAll(encoded[..|encoded| - 1]) + [DecodeOne(encoded[|encoded| - 1], LastRead(encoded[..|encoded| - 1]))]
  }

  /** What the empty files of a list add to the chunk numbers read after them. */
  function Drift(entries: seq<Entry>): int {
    if entries == [] then 0
    else
      var e := entries[|entries| - 1];
      Drift(entries[..|entries| - 1]) +
      if e.IsFile() && e.size <= 0 then e.range.startChunk + e.range.endChunk else 0
  }

  lemma {:induction false} ReadDrifts(entries: seq<Entry>)
    ensures LastRead(EncodeAll(entries)) == LastEnd(entries) + Drift(entries)
  {
    if entries != [] {
      var front := entries[..|entries| - 1];
      ReadDrifts(front);
      assert EncodeAll(entries)[..|entries| - 1] == EncodeAll(front);
    }
  }

  lemma {:induction false} EncodePrefix(entries: seq<Entry>, i: nat)
    requires i <= |entries|
    ensures EncodeAll(entries)[..i] == EncodeAll(entries[..i])
  {
    if i < |entries| {
      var front := entries[..|entries| - 1];
      EncodePrefix(front, i);
      assert front[..i] == entries[..i];
    } else {
      assert entries[..i] == entries;
    }
  }

  lemma {:induction false} DecodePrefix(encoded: seq<Entry>, i: nat)
    requires i <= |encoded|
    ensures DecodeAll(encoded)[..i] == DecodeAll(encoded[..i])
  {
    if i < |encoded| {
      var front := encoded[..|encoded| - 1];
      DecodePrefix(front, i);
      assert front[..i] == encoded[..i];
    } else {
      assert encoded[..i] == encoded;
    }
  }

  lemma DecodeEncoded(e: Entry, lastEndChunk: int, drift: int)
    ensures var d := DecodeOne(EncodeOne(e, lastEndChunk), lastEndChunk + drift);
      if HasContents(e) then d == e.(range := Shifted(e.range, drift))
      else d == e.(range := d.range) && (!e.IsFile() ==> d == e)
  {
  }

  /** What is read for an entry depends on the entries before it. */
  lemma {:induction false} DecodedFrom(entries: seq<Entry>, i: nat)
    requires i < |entries|
    ensures DecodeAll(EncodeAll(entries))[i] ==
            DecodeOne(EncodeOne(entries[i], LastEnd(entries[..i])), LastRead(EncodeAll(entries[..i])))
  {
    EncodedAt(entries, i);
    DecodedAt(EncodeAll(entries), i);
    EncodePrefix(entries, i);
  }

  /** The next entry is read with the drift of those before it. */
  lemma {:induction false} NextDrifts(front: seq<Entry>, e: Entry)
    ensures var d := DecodeOne(EncodeOne(e, LastEnd(front)), LastRead(EncodeAll(front)));
      if HasContents(e) then d == e.(range := Shifted(e.range, Drift(front)))
      else d == e.(range := d.range) && (!e.IsFile() ==> d == e)
  {
    ReadDrifts(front);
    DecodeEncoded(e, LastEnd(front), Drift(front));
  }

  /** Reading restores every file with contents, off by what the empty files before it drift. */
  lemma {:induction false} DecodeDrifts(entries: seq<Entry>, i: nat)
    requires i < |entries|
    ensures var d := DecodeAll(EncodeAll(entries))[i];
      if HasContents(entries[i]) then d == entries[i].(range := Shifted(entries[i].range, Drift(entries[..i])))
      else d == entries[i].(range := d.range) && (!entries[i].IsFile() ==> d == entries[i])
  {
    DecodedFrom(entries, i);
    NextDrifts(entries[..i], entries[i]);
  }

  lemma {:induction false} EncodedAt(entries: seq<Entry>, i: nat)
    requires i < |entries|
    ensures EncodeAll(entries)[i] == EncodeOne(entries[i], LastEnd(entries[..i]))
  {
    EncodePrefix(entries, i + 1);
    var x := entries[..i + 1];
    assert x[..i] == entries[..i] && EncodeAll(x)[i] == EncodeOne(x[i], LastEnd(x[..i]));
    assert EncodeAll(entries)[..i + 1][i] == EncodeAll(entries)[i];
  }

  lemma {:induction false} DecodedAt(encoded: seq<Entry>, i: nat)
    requires i < |encoded|
    ensures DecodeAll(encoded)[i] == DecodeOne(encoded[i], LastRead(encoded[..i]))
  {
    DecodePrefix(encoded, i + 1);
    var x := encoded[..i + 1];
    assert x[..i] == encoded[..i] && DecodeAll(x)[i] == DecodeOne(x[i], LastRead(x[..i]));
    assert DecodeAll(encoded)[..i + 1][i] == DecodeAll(encoded)[i];
  }

  lemma EncodeNext(entries: seq<Entry>, e: Entry)
    ensures EncodeAll(entries + [e]) == EncodeAll(entries) + [EncodeOne(e, LastEnd(entries))]
    ensures LastEnd(entries + [e]) == if HasContents(e) then e.range.endChunk else LastEnd(entries)
  {
    assert (entries + [e])[..|entries|] == entries;
  }

  /** Decoding undoes the encoding exactly when no file with contents comes after empty files whose numbers drift. */
  lemma {:induction false} RoundTripExact(entries: seq<Entry>)
    ensures (forall i :: 0 <= i < |entries| && HasContents(entries[i]) ==>
              DecodeAll(EncodeAll(entries))[i] == entries[i]) <==>
            (forall i :: 0 <= i < |entries| && HasContents(entries[i]) ==> Drift(entries[..i]) == 0)
  {
    forall i | 0 <= i < |entries| && HasContents(entries[i])
      ensures DecodeAll(EncodeAll(entries))[i] == entries[i] <==> Drift(entries[..i]) == 0
    {
      DriftDecides(entries, i);
    }
  }

  lemma {:induction false} DriftDecides(entries: seq<Entry>, i: nat)
    requires i < |entries| && HasContents(entries[i])
    ensures DecodeAll(EncodeAll(entries))[i] == entries[i] <==> Drift(entries[..i]) == 0
  {
    DecodeDrifts(entries, i);
    ShiftShows(entries[i], Drift(entries[..i]));
  }

  lemma ShiftShows(e: Entry, drift: int)
    ensures e.(range := Shifted(e.range, drift)) == e <==> drift == 0
  {
  }

  /** Empty files as the listing makes them: chunk numbers 0. */
  ghost predicate NoDrift(entries: seq<Entry>) {
    forall e :: e in entries && e.IsFile() && e.size <= 0 ==> e.range.startChunk == e.range.endChunk == 0
  }

  lemma {:induction false} NoDriftAt(entries: seq<Entry>, i: nat)
    requires NoDrift(entries) && i <= |entries|
    ensures Drift(entries[..i]) == 0
  {
    if i > 0 {
      NoDriftAt(entries, i - 1);
      assert entries[..i][..i - 1] == entries[..i - 1];
    }
  }

  /** An empty file is read back with the number of the chunk last read before it. */
  lemma DecodedEmpty(entries: seq<Entry>, i: nat)
    requires NoDrift(entries) && i < |entries| && entries[i].IsFile() && entries[i].size == 0
    ensures var d := DecodeAll(EncodeAll(entries))[i];
      d == entries[i].(range := d.range) && d.range.startChunk == d.range.endChunk == LastEnd(entries[..i])
  {
    EncodedAt(entries, i);
    DecodedAt(EncodeAll(entries), i);
    EncodePrefix(entries, i);
    ReadDrifts(entries[..i]);
    NoDriftAt(entries, i);
    assert entries[i] in entries;
  }

  // ------------------------------------------------------------------ what a list of entries denotes

  /** The bytes of a file; none if it has no contents. */
  ghost function BytesOf(e: Entry, chunks: seq<Bytes>): Bytes {
    if HasContents(e) && Within(chunks, e.range) then Slice(chunks, e.range) else []
  }

  /** A file, directory or link as a user sees it. */
  datatype Item = Item(path: Path, kind: Kind, time: int, content: Bytes)

  ghost function ItemOf(e: Entry, chunks: seq<Bytes>): Item { Item(e.path, e.kind, e.time, BytesOf(e, chunks)) }

  ghost function Denoted(entries: seq<Entry>, chunks: seq<Bytes>): seq<Item> {
    seq(|entries|, i requires 0 <= i < |entries| => ItemOf(entries[i], chunks))
  }

  /** An entry that passes the sanity check has a range within the chunks, of its own size. */
  lemma CheckedIsWithin(e: Entry, hashes: seq<ChunkHash>, lengths: seq<nat>, chunks: seq<Bytes>)
    requires Describes(hashes, lengths, chunks) && Checked(lengths, e) && HasContents(e)
    requires e.range.startOffset >= 0 && e.range.endOffset >= 0
    ensures Within(chunks, e.range) && |Slice(chunks, e.range)| == e.size
  {
    var r := e.range;
    MeasureIsDistance(lengths, r, r.startChunk);
    SizeOfSlice(hashes, lengths, chunks, r);
  }

  /** And conversely, if it starts inside its first chunk. */
  lemma WithinIsChecked(e: Entry, hashes: seq<ChunkHash>, lengths: seq<nat>, chunks: seq<Bytes>)
    requires Describes(hashes, lengths, chunks) && HasContents(e) && Within(chunks, e.range)
    requires e.size == |Slice(chunks, e.range)| && e.range.startOffset < |chunks[e.range.startChunk]|
    ensures Checked(lengths, e)
  {
    SizeOfSlice(hashes, lengths, chunks, e.range);
  }

  // ------------------------------------------------------------------ compaction at upload

  /** The entry with the chunk numbers of the compacted list. */
  ghost predicate Compacted(e: Entry, chunks: seq<Bytes>, p: Entry, compact: seq<Bytes>) {
    if HasContents(e) then p == e.(range := p.range) && SameChunks(chunks, e.range, compact, p.range) else p == e
  }

  ghost predicate AllCompacted(entries: seq<Entry>, chunks: seq<Bytes>, plain: seq<Entry>, compact: seq<Bytes>) {
    if entries == [] then plain == []
    else
      plain != [] && Compacted(entries[|entries| - 1], chunks, plain[|plain| - 1], compact) &&
      AllCompacted(entries[..|entries| - 1], chunks, plain[..|plain| - 1], compact)
  }

  lemma {:induction false} AllCompactedGrows(entries: seq<Entry>, chunks: seq<Bytes>, plain: seq<Entry>,
                                             compact: seq<Bytes>, longer: seq<Bytes>)
    requires AllCompacted(entries, chunks, plain, compact) && compact <= longer
    ensures AllCompacted(entries, chunks, plain, longer)
  {
    if entries != [] {
      var e, p := entries[|entries| - 1], plain[|plain| - 1];
      if HasContents(e) {
        SameChunksExtended(chunks, e.range, compact, p.range, longer[|compact|..]);
        assert compact + longer[|compact|..] == longer;
      }
      AllCompactedGrows(entries[..|entries| - 1], chunks, plain[..|plain| - 1], compact, longer);
    }
  }

  lemma AllCompactedNext(entries: seq<Entry>, chunks: seq<Bytes>, plain: seq<Entry>, compact: seq<Bytes>,
                         longer: seq<Bytes>, e: Entry, p: Entry)
    requires AllCompacted(entries, chunks, plain, compact) && compact <= longer && Compacted(e, chunks, p, longer)
    ensures AllCompacted(entries + [e], chunks, plain + [p], longer)
  {
    AllCompactedGrows(entries, chunks, plain, compact, longer);
    var l, k := entries + [e], plain + [p];
    assert l[..|l| - 1] == entries && k[..|k| - 1] == plain;
  }

  lemma {:induction false} CompactedAt(entries: seq<Entry>, chunks: seq<Bytes>, plain: seq<Entry>, compact: seq<Bytes>,
                                       i: nat)
    requires AllCompacted(entries, chunks, plain, compact) && i < |entries|
    ensures |plain| == |entries| && Compacted(entries[i], chunks, plain[i], compact)
  {
    var l, k := entries[..|entries| - 1], plain[..|plain| - 1];
    if |entries| > 1 {
      CompactedAt(l, chunks, k, compact, if i < |l| then i else 0);
    }
  }

  /** The state of the upload of a file list. */
  class Uploader {
    const hashes: seq<ChunkHash>
    const lengths: seq<nat>
    var chunkHashes: seq<ChunkHash>
    var chunkLengths: seq<nat>
    var lastChunk: int
    var lastEndChunk: int
    var encoded: seq<Entry>

    ghost predicate Valid(entries: seq<Entry>, chunks: seq<Bytes>, plain: seq<Entry>, compact: seq<Bytes>)
      reads this
    {
      Describes(hashes, lengths, chunks) && Describes(chunkHashes, chunkLengths, compact) &&
      Tail(chunks, lastChunk, compact) &&
      AllCompacted(entries, chunks, plain, compact) && encoded == EncodeAll(plain) && lastEndChunk == LastEnd(plain)
    }

    constructor (hashes: seq<ChunkHash>, lengths: seq<nat>)
      ensures this.hashes == hashes && this.lengths == lengths && chunkHashes == [] && chunkLengths == []
      ensures encoded == []
      ensures lastChunk == -1 && lastEndChunk == 0
    {
      this.hashes, this.lengths, chunkHashes, chunkLengths, encoded := hashes, lengths, [], [], [];
      lastChunk, lastEndChunk := -1, 0;
    }

    /** Append the chunks of a range that are not yet the end of the list, and renumber it. */
    method Compact(r: Range, ghost chunks: seq<Bytes>, ghost compact: seq<Bytes>)
      returns (q: Range, ghost longer: seq<Bytes>)
      requires Describes(hashes, lengths, chunks) && Describes(chunkHashes, chunkLengths, compact)
      requires Tail(chunks, lastChunk, compact)
      requires 0 <= r.startChunk <= r.endChunk < |chunks|
      modifies this`chunkHashes, this`chunkLengths, this`lastChunk
      ensures Describes(chunkHashes, chunkLengths, longer) && Tail(chunks, lastChunk, longer)
      ensures compact <= longer && SameChunks(chunks, r, longer, q)
    {
      Renumbered(chunks, lastChunk, compact, r);
      ghost var first := if lastChunk == r.startChunk then r.startChunk + 1 else r.startChunk;
      longer := compact + Appended(chunks, lastChunk, r);
      assert compact + chunks[first..first] == compact;
      ghost var renumbered := r.(startChunk := |longer| - 1 - (r.endChunk - r.startChunk), endChunk := |longer| - 1);
      var delta := r.startChunk - |chunkHashes| + 1;
      if r.startChunk != lastChunk {
        DescribesNext(chunkHashes, chunkLengths, compact, hashes[r.startChunk], lengths[r.startChunk],
                      chunks[r.startChunk]);
        OneLonger(compact, chunks, first, first);
        chunkHashes, chunkLengths := chunkHashes + [hashes[r.startChunk]], chunkLengths + [lengths[r.startChunk]];
        delta := delta - 1;
      }
      AppendRest(r, first, chunks, compact);
      lastChunk := r.endChunk;
      q := r.(startChunk := r.startChunk - delta, endChunk := r.endChunk - delta);
      assert q == renumbered;
    }

    /** Append the chunks after the first one. */
    method AppendRest(r: Range, ghost first: nat, ghost chunks: seq<Bytes>, ghost compact: seq<Bytes>)
      requires Describes(hashes, lengths, chunks) && 0 <= r.startChunk <= r.endChunk < |chunks|
      requires first <= r.startChunk + 1
      requires Describes(chunkHashes, chunkLengths, compact + chunks[first..r.startChunk + 1])
      modifies this`chunkHashes, this`chunkLengths
      ensures Describes(chunkHashes, chunkLengths, compact + chunks[first..r.endChunk + 1])
    {
      for i := r.startChunk + 1 to r.endChunk + 1
        invariant Describes(chunkHashes, chunkLengths, compact + chunks[first..i])
      {
        DescribesNext(chunkHashes, chunkLengths, compact + chunks[first..i], hashes[i], lengths[i], chunks[i]);
        chunkHashes, chunkLengths := chunkHashes + [hashes[i]], chunkLengths + [lengths[i]];
        OneLonger(compact, chunks, first, i);
      }
    }

    method UploadEntryInfo(entry: Entry, ghost entries: seq<Entry>, ghost chunks: seq<Bytes>, ghost plain: seq<Entry>,
                           ghost compact: seq<Bytes>)
      returns (ghost plain': seq<Entry>, ghost compact': seq<Bytes>)
      requires Valid(entries, chunks, plain, compact)
      requires HasContents(entry) ==> 0 <= entry.range.startChunk <= entry.range.endChunk < |chunks|
      modifies this
      ensures Valid(entries + [entry], chunks, plain', compact') && (HasContents(entry) || compact' == compact)
    {
      var e, p := entry, entry;
      compact' := compact;
      if HasContents(entry) {
        var q, longer := Compact(entry.range, chunks, compact);
        compact' := longer;
        p := entry.(range := q);
        var delta := q.endChunk - q.startChunk;
        e := p.(range := q.(startChunk := q.startChunk - lastEndChunk, endChunk := delta));
        lastEndChunk := q.endChunk;
      }
      EncodeNext(plain, p);
      AllCompactedNext(entries, chunks, plain, compact, compact', entry, p);
      encoded := encoded + [e];
      plain' := plain + [p];
    }
  }

  /** Store the file list: the compacted chunk list and the encoded entries. */
  method UploadSnapshot(entries: seq<Entry>, hashes: seq<ChunkHash>, lengths: seq<nat>, ghost chunks: seq<Bytes>)
    returns (chunkHashes: seq<ChunkHash>, chunkLengths: seq<nat>, encoded: seq<Entry>, ghost plain: seq<Entry>,
             ghost compact: seq<Bytes>)
    requires Describes(hashes, lengths, chunks)
    requires forall e :: e in entries && HasContents(e) ==> 0 <= e.range.startChunk <= e.range.endChunk < |chunks|
    ensures Describes(chunkHashes, chunkLengths, compact)
    ensures AllCompacted(entries, chunks, plain, compact) && encoded == EncodeAll(plain)
    ensures compact != [] ==> exists e :: e in entries && HasContents(e)
  {
    var uploader := new Uploader(hashes, lengths);
    plain, compact := [], [];
    assert entries[..0] == [];
    for i := 0 to |entries|
      invariant fresh(uploader) && uploader.hashes == hashes && uploader.lengths == lengths
      invariant uploader.Valid(entries[..i], chunks, plain, compact)
      invariant compact != [] ==> exists e :: e in entries && HasContents(e)
    {
      assert entries[i] in entries && entries[..i + 1] == entries[..i] + [entries[i]];
      plain, compact := uploader.UploadEntryInfo(entries[i], entries[..i], chunks, plain, compact);
    }
    assert entries[..|entries|] == entries;
    chunkHashes, chunkLengths, encoded := uploader.chunkHashes, uploader.chunkLengths, uploader.encoded;
  }

  // ------------------------------------------------------------------ reading back

  /** The sanity check of an entry against the chunk lengths of its snapshot. */
  method Check(entry: Entry, lengths: seq<nat>) returns (ok: bool)
    ensures ok <==> Checked(lengths, entry)
  {
    if entry.size < 0 { return false; }
    if !entry.IsFile() || entry.size == 0 { return true; }
    var r := entry.range;
    if r.startChunk < 0 || r.endChunk >= |lengths| || r.endChunk < r.startChunk { return false; }
    if r.startOffset >= lengths[r.startChunk] || r.endOffset > lengths[r.endChunk] { return false; }
    var fileSize := 0;
    var i := r.startChunk;
    while i <= r.endChunk
      invariant r.startChunk <= i <= r.endChunk + 1
      invariant fileSize + Measure(lengths, r, i) == Measure(lengths, r, r.startChunk)
    {
      var start := if i == r.startChunk then r.startOffset else 0;
      var end := if i == r.endChunk then r.endOffset else lengths[i];
      fileSize := fileSize + (end - start);
      i := i + 1;
    }
    return entry.size == fileSize;
  }

  /** Read the list back, stopping at the first entry that does not pass the check. */
  method ListRemoteFiles(encoded: seq<Entry>, lengths: seq<nat>) returns (ok: bool, entries: seq<Entry>)
    ensures ok <==> forall e :: e in DecodeAll(encoded) ==> Checked(lengths, e)
    ensures ok ==> entries == DecodeAll(encoded)
  {
    entries := [];
    var lastEndChunk := 0;
    assert encoded[..0] == [];
    for i := 0 to |encoded|
      invariant entries == DecodeAll(encoded[..i]) && lastEndChunk == LastRead(encoded[..i])
      invariant forall e :: e in entries ==> Checked(lengths, e)
    {
      var entry := encoded[i];
      assert encoded[..i + 1][..i] == encoded[..i];
      if entry.IsFile() {
        var start := entry.range.startChunk + lastEndChunk;
        entry := entry.(range := entry.range.(startChunk := start, endChunk := entry.range.endChunk + start));
        lastEndChunk := entry.range.endChunk;
      }
      var fine := Check(entry, lengths);
      if !fine {
        DecodePrefix(encoded, i + 1);
        assert DecodeAll(encoded)[i] == DecodeAll(encoded[..i + 1])[i] == entry;
        return false, entries;
      }
      entries := entries + [entry];
    }
    assert encoded[..|encoded|] == encoded;
    ok := true;
  }

  /** The output before chunk `i` of a range. */
  ghost predicate Retrieved(chunks: seq<Bytes>, r: Range, i: nat, output: Bytes)
    requires Within(chunks, r) && r.startChunk <= i <= r.endChunk + 1
  {
    if i == r.startChunk then output == []
    else if i <= r.endChunk then output == chunks[r.startChunk][r.startOffset..] + Flatten(chunks[r.startChunk + 1..i])
    else output == Slice(chunks, r)
  }

  lemma RetrieveNext(chunks: seq<Bytes>, r: Range, i: nat, output: Bytes)
    requires Within(chunks, r) && r.startChunk <= i <= r.endChunk && Retrieved(chunks, r, i, output)
    ensures var start := if i == r.startChunk then r.startOffset else 0;
      var end := if i == r.endChunk then r.endOffset else |chunks[i]|;
      Retrieved(chunks, r, i + 1, output + chunks[i][start..end])
  {
    var start := if i == r.startChunk then r.startOffset else 0;
    var end := if i == r.endChunk then r.endOffset else |chunks[i]|;
    assert chunks[i][0..end] == chunks[i][..end] && chunks[i][start..|chunks[i]|] == chunks[i][start..];
    if i == r.startChunk {
      assert chunks[r.startChunk + 1..r.startChunk + 1] == [];
      assert [] + chunks[i][start..end] == chunks[i][start..end];
    } else if i < r.endChunk {
      OneMoreChunk(chunks, r.startChunk + 1, i, chunks[r.startChunk][r.startOffset..]);
    }
  }

  /**
   Output the bytes of a file chunk by chunk.  This succeeds exactly if no chunk is corrupted and the hash
   of the bytes is the one recorded.
   */
  method RetrieveFile(file: Entry, hashes: seq<ChunkHash>, lengths: seq<nat>, corrupted: set<ChunkHash>,
                      ghost chunks: seq<Bytes>)
    returns (output: Bytes, ok: bool)
    requires Describes(hashes, lengths, chunks) && (file.size != 0 ==> Within(chunks, file.range))
    ensures file.size == 0 ==> ok && output == []
    ensures file.size != 0 ==>
      (ok <==> (forall i :: file.range.startChunk <= i <= file.range.endChunk ==> hashes[i] !in corrupted) &&
               file.hash == Some(FileHash(Slice(chunks, file.range))))
    ensures file.size != 0 && ok ==> output == Slice(chunks, file.range)
  {
    output := [];
    if file.size == 0 { return output, true; }
    var r := file.range;
    for i := r.startChunk to r.endChunk + 1
      invariant Retrieved(chunks, r, i, output)
      invariant forall k :: r.startChunk <= k < i ==> hashes[k] !in corrupted
    {
      var start := if i == r.startChunk then r.startOffset else 0;
      var end := if i == r.endChunk then r.endOffset else lengths[i];
      if hashes[i] in corrupted { return output, false; }
      RetrieveNext(chunks, r, i, output);
      output := output + hashes[i].content[start..end];
    }
    ok := file.hash == Some(FileHash(output));
  }

  lemma OneMoreChunk(chunks: seq<Bytes>, lo: nat, i: nat, front: Bytes)
    requires lo <= i < |chunks|
    ensures front + Flatten(chunks[lo..i]) + chunks[i] == front + Flatten(chunks[lo..i + 1])
    ensures chunks[i][0..|chunks[i]|] == chunks[i]
  {
    assert chunks[lo..i + 1] == chunks[lo..i] + [chunks[i]];
    FlattenAppend(chunks[lo..i], [chunks[i]]);
    FlattenOne(chunks[i]);
  }
}
