/**
 A whole backup: the listings are joined, modified files are packed and uploaded, and the file list is
 completed, compacted and encoded.  What is read back from the new snapshot is, file by file, what was
 read from the disk or what the previous snapshot held.
 */
module EndToEnd {
  import opened Common
  import opened Buzhash
  import opened Chunking
  import opened ChunkLists
  import opened ChunkMakers
  import opened PathOrder
  import opened EntryLists
  import opened BackupMerge
  import opened SnapshotCodec

  /** The range of a file with contents holds as many bytes as the file has, and hashes to its hash. */
  ghost predicate Solid(e: Entry, chunks: seq<Bytes>) {
    Within(chunks, e.range) && e.range.startOffset < |chunks[e.range.startChunk]| &&
    e.size == |Slice(chunks, e.range)| && e.hash == Some(FileHash(Slice(chunks, e.range)))
  }

  /** An entry as snapshots hold it. */
  ghost predicate Sound(e: Entry, chunks: seq<Bytes>) {
    e.size >= 0 && (!e.IsFile() ==> e.size == 0) && (HasContents(e) ==> Solid(e, chunks))
  }

  ghost predicate AllSound(entries: seq<Entry>, chunks: seq<Bytes>) {
    forall e :: e in entries ==> Sound(e, chunks)
  }

  /** A snapshot as it is read back. */
  ghost predicate ProperSnapshot(entries: seq<Entry>, hashes: seq<ChunkHash>, lengths: seq<nat>, chunks: seq<Bytes>) {
    Describes(hashes, lengths, chunks) && Sorted(entries) && AllSound(entries, chunks) && Anchored(entries, |chunks|)
  }

  /** An empty file, as it is read back, names a chunk of the list, unless the list is empty. */
  ghost predicate Anchored(entries: seq<Entry>, n: nat) {
    forall e :: e in entries ==> AnchoredOne(e, n)
  }

  ghost predicate AnchoredOne(e: Entry, n: nat) {
    e.IsFile() && e.size == 0 ==>
      e.range.startChunk == e.range.endChunk && 0 <= e.range.startChunk < if n == 0 then 1 else n
  }

  /** A local listing: in path order, and with chunk numbers 0 in empty files. */
  ghost predicate Listed(local: seq<Entry>) {
    Sorted(local) && forall e :: e in local ==> e.size >= 0 && (e.size == 0 ==> e.range == Range(0, 0, 0, 0))
  }

  lemma SoundIsChecked(e: Entry, hashes: seq<ChunkHash>, lengths: seq<nat>, chunks: seq<Bytes>)
    requires Describes(hashes, lengths, chunks) && Sound(e, chunks)
    ensures Checked(lengths, e)
  {
    if HasContents(e) { WithinIsChecked(e, hashes, lengths, chunks); }
  }

  lemma SnapshotIsStored(entries: seq<Entry>, hashes: seq<ChunkHash>, lengths: seq<nat>, chunks: seq<Bytes>)
    requires ProperSnapshot(entries, hashes, lengths, chunks)
    ensures Stored(entries, lengths)
  {
    forall e | e in entries ensures Checked(lengths, e) { SoundIsChecked(e, hashes, lengths, chunks); }
  }

  /** Renumbering keeps an entry sound. */
  lemma SolidMoves(e: Entry, chunks: seq<Bytes>, q: Range, others: seq<Bytes>)
    requires Solid(e, chunks) && SameChunks(chunks, e.range, others, q)
    ensures Solid(e.(range := q), others) && Slice(others, q) == Slice(chunks, e.range)
  {
    SameSlice(chunks, e.range, others, q);
    assert chunks[e.range.startChunk..e.range.endChunk + 1][0] == others[q.startChunk..q.endChunk + 1][0];
  }

  // ------------------------------------------------------------------ what the new snapshot should hold

  /** The bytes of the unmodified counterpart of a file. */
  ghost function Kept(e: Entry, remote: seq<Entry>, previous: seq<Bytes>): Bytes {
    var f := Find(remote, e.path);
    if f.Some? then BytesOf(f.value, previous) else []
  }

  /** The disk at the time of packing: a file that is not in it cannot be opened. */
  type Disk = map<Path, Bytes>

  function Read(disk: Disk, path: Path): Bytes { if path in disk then disk[path] else [] }

  /**
   What the new snapshot should hold of a local entry: a file with contents holds the bytes of the previous
   snapshot if unmodified, else the bytes read, and is missing if it could not be opened or turned out empty.
   */
  ghost function ExpectedOne(e: Entry, remote: seq<Entry>, previous: seq<Bytes>, disk: Disk): seq<Item> {
    if !HasContents(e) then [Item(e.path, e.kind, e.time, [])]
    else if Unmodified(e, remote) then [Item(e.path, e.kind, e.time, Kept(e, remote, previous))]
    else if Read(disk, e.path) == [] then []
    else [Item(e.path, e.kind, e.time, Read(disk, e.path))]
  }

  ghost function ExpectedUpto(local: seq<Entry>, n: nat, remote: seq<Entry>, previous: seq<Bytes>,
                              disk: Disk): seq<Item>
    requires n <= |local|
  {
    if n == 0 then []
    else ExpectedUpto(local, n - 1, remote, previous, disk) + ExpectedOne(local[n - 1], remote, previous, disk)
  }

  ghost function Expected(local: seq<Entry>, remote: seq<Entry>, previous: seq<Bytes>, disk: Disk): seq<Item> {
    ExpectedUpto(local, |local|, remote, previous, disk)
  }

  // ------------------------------------------------------------------ packing

  /** Every modified entry has the size and hash of what was read for it. */
  ghost predicate Packed(modified: seq<ModifiedEntry>, contents: seq<Bytes>) {
    |modified| == |contents| &&
    forall i :: 0 <= i < |modified| ==> PackedOne(modified[i], contents[i])
  }

  /** What is read for each modified file. */
  function ContentsOf(modified: seq<ModifiedEntry>, disk: Disk): seq<Bytes> {
    seq(|modified|, i requires 0 <= i < |modified| => Read(disk, modified[i].path))
  }

  ghost predicate PackedOne(m: ModifiedEntry, content: Bytes) {
    if content == [] then m.size <= 0 else m.size == |content| && m.hash == Some(FileHash(content))
  }

  /** In the fixed-size mode every file has been cut and sent by itself. */
  ghost predicate SentAsRead(maker: ChunkMaker)
    reads maker
  {
    maker.p.min == maker.p.max ==> Flatten(maker.sent) == maker.input && AllNonempty(maker.sent)
  }

  lemma SentMore(sent: seq<Bytes>, content: Bytes, size: nat)
    requires size > 0 && AllNonempty(sent)
    ensures Flatten(sent + Pieces(content, size)) == Flatten(sent) + content
    ensures AllNonempty(sent + Pieces(content, size))
  {
    FlattenAppend(sent, Pieces(content, size));
    PiecesMakeUp(content, size);
  }

  /** Open one modified file and feed it to the chunk maker. */
  method PackOne(maker: ChunkMaker, m: ModifiedEntry, disk: Disk) returns (packed: ModifiedEntry)
    requires maker.Valid() && SentAsRead(maker) && m.size == -1
    modifies maker, maker.buffer
    ensures maker.Valid() && SentAsRead(maker) && maker.input == old(maker.input) + Read(disk, m.path)
    ensures packed.path == m.path && PackedOne(packed, Read(disk, m.path))
  {
    packed := m;
    if m.path in disk {
      var stalls: nat := *;
      var reader := new Reader(disk[m.path], stalls);
      if maker.p.min == maker.p.max { SentMore(maker.sent, disk[m.path], maker.p.min); }
      var size, hash := maker.AddData(reader);
      packed := m.(size := size, hash := hash);
    }
  }

  method PackAll(maker: ChunkMaker, modified: seq<ModifiedEntry>, disk: Disk) returns (packed: seq<ModifiedEntry>)
    requires maker.Valid() && SentAsRead(maker) && maker.input == []
    requires forall m :: m in modified ==> m.size == -1
    modifies maker, maker.buffer
    ensures maker.Valid() && SentAsRead(maker) && maker.input == Flatten(ContentsOf(modified, disk))
    ensures Packed(packed, ContentsOf(modified, disk)) && PathsOf(packed) == PathsOf(modified)
  {
    ghost var contents := ContentsOf(modified, disk);
    packed := [];
    assert Flatten(contents[..0]) == [];
    for i := 0 to |modified|
      invariant maker.Valid() && SentAsRead(maker) && maker.input == Flatten(contents[..i])
      invariant PackedSoFar(packed, modified, contents, i)
    {
      FlattenNext(contents, i);
      var m := PackOne(maker, modified[i], disk);
      OneMorePacked(packed, modified, contents, i, m);
      packed := packed + [m];
    }
    assert contents[..|modified|] == contents;
  }

  ghost predicate PackedSoFar(packed: seq<ModifiedEntry>, modified: seq<ModifiedEntry>, contents: seq<Bytes>, i: nat) {
    |packed| == i <= |modified| == |contents| &&
    forall j :: 0 <= j < i ==> packed[j].path == modified[j].path && PackedOne(packed[j], contents[j])
  }

  lemma OneMorePacked(packed: seq<ModifiedEntry>, modified: seq<ModifiedEntry>, contents: seq<Bytes>, i: nat,
                      m: ModifiedEntry)
    requires PackedSoFar(packed, modified, contents, i) && i < |modified|
    requires m.path == modified[i].path && PackedOne(m, contents[i])
    ensures PackedSoFar(packed + [m], modified, contents, i + 1)
  {
  }

  /** Nothing is left behind: the chunks sent make up the input, in either mode. */
  method Flush(maker: ChunkMaker) returns (chunks: seq<Bytes>)
    requires maker.Valid() && SentAsRead(maker)
    modifies maker, maker.buffer
    ensures Flatten(chunks) == old(maker.input) && AllNonempty(chunks)
  {
    ghost var p, input, sent := maker.p, maker.input, maker.sent;
    var _, _ := maker.AddData(null);
    chunks := maker.sent;
    if p.min < p.max {
      Conservation(p, input);
      forall i | 0 <= i < |chunks| ensures chunks[i] != [] { Bounds(p, input, i); }
    } else {
      assert p.min == p.max;
      assert sent + [] == sent;
    }
  }

  /** Pack the modified files, one after the other, into one stream of chunks. */
  method PackFiles(modified: seq<ModifiedEntry>, disk: Disk, p: Params)
    returns (packed: seq<ModifiedEntry>, chunks: seq<Bytes>)
    requires p.Valid() && p.hash.Valid()
    requires forall m :: m in modified ==> m.size == -1
    ensures PathsOf(packed) == PathsOf(modified) && Packed(packed, ContentsOf(modified, disk))
    ensures Flatten(chunks) == Flatten(ContentsOf(modified, disk)) && AllNonempty(chunks)
  {
    var maker := new ChunkMaker(p);
    packed := PackAll(maker, modified, disk);
    chunks := Flush(maker);
  }

  /** Pack the modified files of the list. */
  method Pack(list: EntryList, disk: Disk, p: Params) returns (chunks: seq<Bytes>)
    requires list.Valid() && p.Valid() && p.hash.Valid()
    requires forall m :: m in list.modifiedEntries ==> m.size == -1
    modifies list`modifiedEntries
    ensures list.Valid() && PathsOf(list.modifiedEntries) == PathsOf(old(list.modifiedEntries))
    ensures Packed(list.modifiedEntries, ContentsOf(list.modifiedEntries, disk))
    ensures Flatten(chunks) == Flatten(ContentsOf(list.modifiedEntries, disk)) && AllNonempty(chunks)
  {
    var packed;
    packed, chunks := PackFiles(list.modifiedEntries, disk, p);
    SamePaths(packed, list.modifiedEntries, disk);
    list.modifiedEntries := packed;
  }

  lemma SamePaths(a: seq<ModifiedEntry>, b: seq<ModifiedEntry>, disk: Disk)
    requires PathsOf(a) == PathsOf(b)
    ensures ContentsOf(a, disk) == ContentsOf(b, disk)
  {
    assert forall i :: 0 <= i < |a| ==> a[i].path == PathsOf(a)[i] == PathsOf(b)[i] == b[i].path;
  }

  // ------------------------------------------------------------------ the merged list

  /** A complete entry of the merged list is sound. */
  lemma MergedIsSound(e: Entry, remote: seq<Entry>, previous: seq<Bytes>, m: Entry, preserved: seq<Bytes>)
    requires Merged(e, remote, previous, m, preserved) && AllSound(remote, previous)
    requires e.size >= 0 && (e.size == 0 ==> e.range == Range(0, 0, 0, 0))
    ensures m.path == e.path && m.kind == e.kind && m.time == e.time && (!m.IsComplete() ==> m.IsFile())
    ensures m.IsComplete() ==> Sound(m, preserved) && (m.size == 0 ==> m == e || !m.IsFile())
    ensures HasContents(e) && Unmodified(e, remote) ==>
      m.IsComplete() && HasContents(m) && BytesOf(m, preserved) == Kept(e, remote, previous)
    ensures HasContents(e) && !Unmodified(e, remote) ==> !m.IsComplete()
    ensures !HasContents(e) ==> m.IsComplete() && !HasContents(m)
  {
    if HasContents(e) && Unmodified(e, remote) {
      var r := Find(remote, e.path).value;
      assert r in remote;
      SolidMoves(r, previous, m.range, preserved);
    }
  }

  ghost predicate PathwiseMerged(local: seq<Entry>, remote: seq<Entry>, previous: seq<Bytes>, merged: seq<Entry>,
                                 preserved: seq<Bytes>)
  {
    |merged| == |local| &&
    forall i :: 0 <= i < |local| ==> Merged(local[i], remote, previous, merged[i], preserved)
  }

  // ------------------------------------------------------------------ the completed list

  /** A sound entry, with chunk numbers 0 in an empty file, that looks like this. */
  ghost predicate Fine(e: Entry, chunks: seq<Bytes>, item: Item) {
    Sound(e, chunks) && (e.IsFile() && e.size == 0 ==> e.range.startChunk == e.range.endChunk == 0) &&
    ItemOf(e, chunks) == item
  }

  ghost predicate Delivered(sent: seq<Entry>, chunks: seq<Bytes>, items: seq<Item>) {
    |sent| == |items| && forall i :: 0 <= i < |sent| ==> Fine(sent[i], chunks, items[i])
  }

  lemma DeliveredAppend(a: seq<Entry>, b: seq<Entry>, chunks: seq<Bytes>, f: seq<Item>, g: seq<Item>)
    requires Delivered(a, chunks, f) && Delivered(b, chunks, g)
    ensures Delivered(a + b, chunks, f + g)
  {
    forall i | 0 <= i < |a + b| ensures Fine((a + b)[i], chunks, (f + g)[i]) {
      if i < |a| {
        assert (a + b)[i] == a[i] && (f + g)[i] == f[i];
      } else {
        assert (a + b)[i] == b[i - |a|] && (f + g)[i] == g[i - |a|];
      }
    }
  }

  /** All of the list is sound, and it denotes these. */
  lemma DeliveredMeans(sent: seq<Entry>, chunks: seq<Bytes>, items: seq<Item>)
    requires Delivered(sent, chunks, items)
    ensures AllSound(sent, chunks) && NoDrift(sent) && Denoted(sent, chunks) == items
  {
    forall e | e in sent
      ensures Sound(e, chunks) && (e.IsFile() && e.size <= 0 ==> e.range.startChunk == e.range.endChunk == 0)
    {
      var i :| 0 <= i < |sent| && sent[i] == e;
      assert Fine(sent[i], chunks, items[i]);
    }
    forall i | 0 <= i < |sent| ensures ItemOf(sent[i], chunks) == items[i] { assert Fine(sent[i], chunks, items[i]); }
  }

  /** More chunks behind do not matter. */
  lemma SoundExtended(e: Entry, chunks: seq<Bytes>, more: seq<Bytes>)
    requires Sound(e, chunks)
    ensures Sound(e, chunks + more) && BytesOf(e, chunks + more) == BytesOf(e, chunks)
  {
    if HasContents(e) {
      var r := e.range;
      assert (chunks + more)[r.startChunk..r.endChunk + 1] == chunks[r.startChunk..r.endChunk + 1];
      SolidMoves(e, chunks, r, chunks + more);
      assert e.(range := r) == e;
    }
  }

  /** A completed entry holds what was read for it. */
  lemma FilledIsSound(m: Entry, mod: ModifiedEntry, content: Bytes, preserved: seq<Bytes>,
                      hashes: seq<ChunkHash>, lengths: seq<nat>, chunks: seq<Bytes>, position: nat)
    requires m.IsFile() && content != [] && PackedOne(mod, content) && Describes(hashes, lengths, chunks)
    requires position + |content| <= |Flatten(chunks)| && Flatten(chunks)[position..position + |content|] == content
    ensures var f := Filled(m, mod, lengths, |preserved|, position);
      Sound(f, preserved + chunks) && HasContents(f) && Slice(preserved + chunks, f.range) == content
  {
    RangeContent(preserved, hashes, lengths, chunks, position, |content|);
    OffsetIsTotal(hashes, lengths, chunks, |chunks|);
    assert chunks[..|chunks|] == chunks && lengths[..|lengths|] == lengths;
    RangeInside(lengths, |preserved|, position, |content|);
  }

  lemma FilledDelivers(m: Entry, mod: ModifiedEntry, content: Bytes, preserved: seq<Bytes>,
                       hashes: seq<ChunkHash>, lengths: seq<nat>, chunks: seq<Bytes>, position: nat)
    requires m.IsFile() && content != [] && PackedOne(mod, content) && Describes(hashes, lengths, chunks)
    requires position + |content| <= |Flatten(chunks)| && Flatten(chunks)[position..position + |content|] == content
    ensures Fine(Filled(m, mod, lengths, |preserved|, position), preserved + chunks,
                 Item(m.path, m.kind, m.time, content))
  {
    FilledIsSound(m, mod, content, preserved, hashes, lengths, chunks, position);
  }

  /** The contents of the `k`-th modified file lie where the files before it end. */
  lemma ContentAt(chunks: seq<Bytes>, modified: seq<ModifiedEntry>, contents: seq<Bytes>, k: nat)
    requires Packed(modified, contents) && Flatten(chunks) == Flatten(contents) && k < |contents|
    ensures var position := UploadedUpto(modified, k);
      position + |contents[k]| <= |Flatten(chunks)| &&
      Flatten(chunks)[position..position + |contents[k]|] == contents[k]
  {
    UploadedIsFlat(modified, contents, k);
    FlattenNext(contents, k);
    assert contents == contents[..k + 1] + contents[k + 1..];
    FlattenAppend(contents[..k + 1], contents[k + 1..]);
  }

  lemma {:induction false} UploadedIsFlat(modified: seq<ModifiedEntry>, contents: seq<Bytes>, k: nat)
    requires Packed(modified, contents) && k <= |contents|
    ensures UploadedUpto(modified, k) == |Flatten(contents[..k])|
  {
    if k > 0 {
      UploadedIsFlat(modified, contents, k - 1);
      FlattenNext(contents, k - 1);
      assert PackedOne(modified[k - 1], contents[k - 1]);
    } else {
      assert contents[..0] == [];
    }
  }

  /** What is sent for one entry is what is expected of it. */
  lemma EntryDelivers(e: Entry, remote: seq<Entry>, previous: seq<Bytes>, m: Entry, preserved: seq<Bytes>,
      modified: seq<ModifiedEntry>, k: nat, disk: Disk, hashes: seq<ChunkHash>, lengths: seq<nat>, chunks: seq<Bytes>)
    requires Merged(e, remote, previous, m, preserved) && AllSound(remote, previous)
    requires e.size >= 0 && (e.size == 0 ==> e.range == Range(0, 0, 0, 0))
    requires k <= |modified| && Packed(modified, ContentsOf(modified, disk))
    requires !m.IsComplete() ==> k < |modified| && modified[k].path == m.path
    requires Describes(hashes, lengths, chunks) && Flatten(chunks) == Flatten(ContentsOf(modified, disk))
    ensures Delivered(SentAt(m, modified, k, lengths, |preserved|, UploadedUpto(modified, k)), preserved + chunks,
                      ExpectedOne(e, remote, previous, disk))
  {
    MergedIsSound(e, remote, previous, m, preserved);
    if m.IsComplete() {
      SoundExtended(m, preserved, chunks);
      assert Fine(m, preserved + chunks, ExpectedOne(e, remote, previous, disk)[0]);
    } else {
      var contents := ContentsOf(modified, disk);
      assert PackedOne(modified[k], contents[k]);
      ContentAt(chunks, modified, contents, k);
      if contents[k] != [] {
        FilledDelivers(m, modified[k], contents[k], preserved, hashes, lengths, chunks, UploadedUpto(modified, k));
      }
    }
  }

  /** What is sent for the `n`-th entry when the list is read back. */
  function SentFor(merged: seq<Entry>, n: nat, modified: seq<ModifiedEntry>, lengths: seq<nat>, base: nat): seq<Entry>
    requires n < |merged|
  {
    var p := Progressed(merged, n, modified, lengths, base);
    SentAt(merged[n], modified, p.k, lengths, base, p.position)
  }

  lemma NextDelivers(e: Entry, n: nat, remote: seq<Entry>, previous: seq<Bytes>, merged: seq<Entry>,
      preserved: seq<Bytes>, modified: seq<ModifiedEntry>, disk: Disk,
      hashes: seq<ChunkHash>, lengths: seq<nat>, chunks: seq<Bytes>)
    requires n < |merged| && Merged(e, remote, previous, merged[n], preserved) && AllSound(remote, previous)
    requires e.size >= 0 && (e.size == 0 ==> e.range == Range(0, 0, 0, 0))
    requires PathsOf(modified) == Waiting(merged, |merged|) && Packed(modified, ContentsOf(modified, disk))
    requires Describes(hashes, lengths, chunks) && Flatten(chunks) == Flatten(ContentsOf(modified, disk))
    ensures Delivered(SentFor(merged, n, modified, lengths, |preserved|), preserved + chunks,
                      ExpectedOne(e, remote, previous, disk))
  {
    var p := Progressed(merged, n, modified, lengths, |preserved|);
    ProgressWaits(merged, n, modified, lengths, |preserved|);
    ProgressSize(merged, n, modified, lengths, |preserved|);
    EntryDelivers(e, remote, previous, merged[n], preserved, modified, p.k, disk, hashes, lengths, chunks);
  }

  ghost predicate EachDelivers(local: seq<Entry>, n: nat, remote: seq<Entry>, previous: seq<Bytes>, merged: seq<Entry>,
      modified: seq<ModifiedEntry>, disk: Disk, lengths: seq<nat>, base: nat, chunks: seq<Bytes>)
    requires n <= |local| == |merged|
  {
    forall i :: 0 <= i < n ==>
      Delivered(SentFor(merged, i, modified, lengths, base), chunks, ExpectedOne(local[i], remote, previous, disk))
  }

  lemma {:induction false} AllDeliver(local: seq<Entry>, n: nat, remote: seq<Entry>, previous: seq<Bytes>,
                                      merged: seq<Entry>, modified: seq<ModifiedEntry>, disk: Disk, lengths: seq<nat>,
                                      base: nat, chunks: seq<Bytes>)
    requires n <= |local| == |merged|
    requires EachDelivers(local, n, remote, previous, merged, modified, disk, lengths, base, chunks)
    ensures Delivered(Progressed(merged, n, modified, lengths, base).sent, chunks,
                      ExpectedUpto(local, n, remote, previous, disk))
  {
    if n > 0 {
      AllDeliver(local, n - 1, remote, previous, merged, modified, disk, lengths, base, chunks);
      DeliveredAppend(Progressed(merged, n - 1, modified, lengths, base).sent,
                      SentFor(merged, n - 1, modified, lengths, base), chunks,
                      ExpectedUpto(local, n - 1, remote, previous, disk),
                      ExpectedOne(local[n - 1], remote, previous, disk));
    }
  }

  /** Reading the merged list back sends, in order, what is expected. */
  lemma ListDelivers(local: seq<Entry>, remote: seq<Entry>, previous: seq<Bytes>, merged: seq<Entry>,
      preserved: seq<Bytes>, modified: seq<ModifiedEntry>, disk: Disk,
      hashes: seq<ChunkHash>, lengths: seq<nat>, chunks: seq<Bytes>)
    requires Listed(local) && PathwiseMerged(local, remote, previous, merged, preserved) && AllSound(remote, previous)
    requires PathsOf(modified) == Waiting(merged, |merged|) && Packed(modified, ContentsOf(modified, disk))
    requires Describes(hashes, lengths, chunks) && Flatten(chunks) == Flatten(ContentsOf(modified, disk))
    ensures Delivered(Completed(merged, modified, lengths, |preserved|), preserved + chunks,
                      Expected(local, remote, previous, disk))
  {
    forall i | 0 <= i < |local|
      ensures Delivered(SentFor(merged, i, modified, lengths, |preserved|), preserved + chunks,
                        ExpectedOne(local[i], remote, previous, disk))
    {
      assert local[i] in local;
      NextDelivers(local[i], i, remote, previous, merged, preserved, modified, disk, hashes, lengths, chunks);
    }
    AllDeliver(local, |local|, remote, previous, merged, modified, disk, lengths, |preserved|, preserved + chunks);
  }

  // ------------------------------------------------------------------ order, fit, and what is stored

  /** Only paths of the list are sent, in its order. */
  lemma {:induction false} ProgressSorted(entries: seq<Entry>, n: nat, modified: seq<ModifiedEntry>, uploaded: seq<nat>,
                                          base: nat)
    requires Sorted(entries) && n <= |entries|
    ensures var sent := Progressed(entries, n, modified, uploaded, base).sent;
      Sorted(sent) && forall f :: f in sent ==> exists i :: 0 <= i < n && entries[i].path == f.path
  {
    if n > 0 {
      ProgressSorted(entries, n - 1, modified, uploaded, base);
      var p, e := Progressed(entries, n - 1, modified, uploaded, base), entries[n - 1];
      var one := SentAt(e, modified, p.k, uploaded, base, p.position);
      forall f | f in p.sent ensures Compare(f.path, e.path) < 0 {
        var i :| 0 <= i < n - 1 && entries[i].path == f.path;
      }
      if one != [] {
        assert one == [one[0]] && one[0].path == e.path;
        SortedSnoc(p.sent, one[0]);
      } else {
        assert p.sent + one == p.sent;
      }
    }
  }

  lemma SortedSnoc(earlier: seq<Entry>, e: Entry)
    requires Sorted(earlier) && Clean(e.path) && forall f :: f in earlier ==> Compare(f.path, e.path) < 0
    ensures Sorted(earlier + [e])
  {
    var all := earlier + [e];
    forall i, j | 0 <= i < j < |all| ensures Compare(all[i].path, all[j].path) < 0 {
      assert all[i] in earlier;
    }
  }

  lemma LengthsArePositive(chunks: seq<Bytes>, hashes: seq<ChunkHash>, lengths: seq<nat>)
    requires AllNonempty(chunks) && Describes(hashes, lengths, chunks)
    ensures Positive(lengths)
  {
  }

  /** What the compacted and re-read list holds is what was sent. */
  lemma StoredAndRead(sent: seq<Entry>, chunks: seq<Bytes>, plain: seq<Entry>, compact: seq<Bytes>, items: seq<Item>)
    requires Delivered(sent, chunks, items) && Sorted(sent) && AllCompacted(sent, chunks, plain, compact)
    ensures var decoded := DecodeAll(EncodeAll(plain));
      Sorted(decoded) && AllSound(decoded, compact) && Denoted(decoded, compact) == items &&
      Anchored(decoded, |compact|)
  {
    var decoded := DecodeAll(EncodeAll(plain));
    DeliveredMeans(sent, chunks, items);
    if sent != [] { CompactedAt(sent, chunks, plain, compact, 0); } else { assert plain == []; }
    forall i | 0 <= i < |sent|
      ensures ItemOf(decoded[i], compact) == items[i] && Sound(decoded[i], compact)
      ensures AnchoredOne(decoded[i], |compact|)
    {
      StoredEntry(sent, chunks, plain, compact, i);
      assert Fine(sent[i], chunks, items[i]);
    }
    forall d | d in decoded ensures Sound(d, compact) && AnchoredOne(d, |compact|) {
      var i :| 0 <= i < |decoded| && decoded[i] == d;
    }
    assert Sorted(decoded) by {
      assert forall i :: 0 <= i < |sent| ==> decoded[i].path == items[i].path == sent[i].path;
    }
  }

  lemma StoredEntry(sent: seq<Entry>, chunks: seq<Bytes>, plain: seq<Entry>, compact: seq<Bytes>, i: nat)
    requires AllSound(sent, chunks) && NoDrift(sent) && AllCompacted(sent, chunks, plain, compact) && |plain| == |sent|
    requires i < |sent|
    ensures var d := DecodeAll(EncodeAll(plain))[i];
      ItemOf(d, compact) == ItemOf(sent[i], chunks) && Sound(d, compact) && AnchoredOne(d, |compact|)
  {
    CompactedAt(sent, chunks, plain, compact, i);
    assert Sound(sent[i], chunks) by { assert sent[i] in sent; }
    CompactNoDrift(sent, chunks, plain, compact);
    DecodeDrifts(plain, i);
    NoDriftAt(plain, i);
    if HasContents(sent[i]) {
      SolidMoves(sent[i], chunks, plain[i].range, compact);
      assert Shifted(plain[i].range, 0) == plain[i].range;
    } else if plain[i].IsFile() {
      EmptyIsAnchored(sent, chunks, plain, compact, i);
    }
  }

  lemma EmptyIsAnchored(sent: seq<Entry>, chunks: seq<Bytes>, plain: seq<Entry>, compact: seq<Bytes>, i: nat)
    requires NoDrift(sent) && AllCompacted(sent, chunks, plain, compact) && |plain| == |sent| && i < |plain|
    requires plain[i].IsFile() && plain[i].size == 0
    ensures AnchoredOne(DecodeAll(EncodeAll(plain))[i], |compact|)
  {
    CompactNoDrift(sent, chunks, plain, compact);
    DecodedEmpty(plain, i);
    forall k | 0 <= k < |plain| && HasContents(plain[k]) ensures 0 <= plain[k].range.endChunk < |compact| {
      CompactedAt(sent, chunks, plain, compact, k);
    }
    LastEndInside(plain, |compact|, i);
  }

  lemma {:induction false} LastEndInside(plain: seq<Entry>, n: nat, i: nat)
    requires i <= |plain| && forall k :: 0 <= k < |plain| && HasContents(plain[k]) ==> 0 <= plain[k].range.endChunk < n
    ensures 0 <= LastEnd(plain[..i]) < if n == 0 then 1 else n
  {
    if i > 0 {
      assert plain[..i][..i - 1] == plain[..i - 1];
      LastEndInside(plain, n, i - 1);
    }
  }

  lemma CompactNoDrift(sent: seq<Entry>, chunks: seq<Bytes>, plain: seq<Entry>, compact: seq<Bytes>)
    requires NoDrift(sent) && AllCompacted(sent, chunks, plain, compact) && |plain| == |sent|
    ensures NoDrift(plain)
  {
    forall p | p in plain && p.IsFile() && p.size <= 0 ensures p.range.startChunk == p.range.endChunk == 0 {
      var i :| 0 <= i < |plain| && plain[i] == p;
      CompactedAt(sent, chunks, plain, compact, i);
      assert sent[i] in sent;
    }
  }

  // ------------------------------------------------------------------ the backup

  /** Every complete entry of the merged list passes the check. */
  lemma MergedIsChecked(local: seq<Entry>, remote: seq<Entry>, previous: seq<Bytes>, merged: seq<Entry>,
                        preserved: seq<Bytes>, preservedHashes: seq<ChunkHash>, preservedLengths: seq<nat>,
                        hashes: seq<ChunkHash>, lengths: seq<nat>, chunks: seq<Bytes>)
    requires Listed(local) && PathwiseMerged(local, remote, previous, merged, preserved) && AllSound(remote, previous)
    requires Describes(preservedHashes, preservedLengths, preserved) && Describes(hashes, lengths, chunks)
    ensures forall e :: e in merged && e.IsComplete() ==> Checked(preservedLengths + lengths, e)
  {
    DescribesAppend(preservedHashes, preservedLengths, preserved, hashes, lengths, chunks);
    forall e | e in merged && e.IsComplete() ensures Checked(preservedLengths + lengths, e) {
      var i :| 0 <= i < |merged| && merged[i] == e;
      assert local[i] in local;
      MergedIsSound(local[i], remote, previous, e, preserved);
      SoundExtended(e, preserved, chunks);
      SoundIsChecked(e, preservedHashes + hashes, preservedLengths + lengths, preserved + chunks);
    }
  }

  lemma MergedPathwise(local: seq<Entry>, remote: seq<Entry>, previous: seq<Bytes>, merged: seq<Entry>,
                       preserved: seq<Bytes>)
    requires AllMerged(local, remote, previous, merged, preserved)
    ensures PathwiseMerged(local, remote, previous, merged, preserved)
    ensures Sorted(local) ==> Sorted(merged)
  {
    if local == [] { assert merged == []; } else { MergedAt(local, remote, previous, merged, preserved, 0); }
    forall i | 0 <= i < |local|
      ensures Merged(local[i], remote, previous, merged[i], preserved) && merged[i].path == local[i].path
    {
      MergedAt(local, remote, previous, merged, preserved, i);
    }
  }

  /** As much has been uploaded as the modified files take up. */
  lemma UploadFits(modified: seq<ModifiedEntry>, contents: seq<Bytes>, hashes: seq<ChunkHash>, lengths: seq<nat>,
                   chunks: seq<Bytes>)
    requires Packed(modified, contents) && Describes(hashes, lengths, chunks) && Flatten(chunks) == Flatten(contents)
    ensures UploadedSize(modified) == Total(lengths)
  {
    UploadedIsFlat(modified, contents, |contents|);
    OffsetIsTotal(hashes, lengths, chunks, |chunks|);
    assert contents[..|contents|] == contents && chunks[..|chunks|] == chunks;
  }

  /** The merged and packed list fits what has been uploaded for it, and reads back as expected. */
  lemma ListIsReady(local: seq<Entry>, remote: seq<Entry>, previous: seq<Bytes>, merged: seq<Entry>,
                    preserved: seq<Bytes>, modified: seq<ModifiedEntry>, disk: Disk, preservedHashes: seq<ChunkHash>,
                    preservedLengths: seq<nat>, hashes: seq<ChunkHash>, lengths: seq<nat>, chunks: seq<Bytes>)
    requires Listed(local) && AllMerged(local, remote, previous, merged, preserved) && AllSound(remote, previous)
    requires PathsOf(modified) == Waiting(merged, |merged|) && Packed(modified, ContentsOf(modified, disk))
    requires Describes(preservedHashes, preservedLengths, preserved) && Describes(hashes, lengths, chunks)
    requires Flatten(chunks) == Flatten(ContentsOf(modified, disk))
    ensures Fitting(merged, modified, lengths, preservedLengths + lengths)
    ensures var sent := Completed(merged, modified, lengths, |preserved|);
      Delivered(sent, preserved + chunks, Expected(local, remote, previous, disk)) && Sorted(sent)
  {
    MergedPathwise(local, remote, previous, merged, preserved);
    MergedIsChecked(local, remote, previous, merged, preserved, preservedHashes, preservedLengths, hashes, lengths,
                    chunks);
    UploadFits(modified, ContentsOf(modified, disk), hashes, lengths, chunks);
    ListDelivers(local, remote, previous, merged, preserved, modified, disk, hashes, lengths, chunks);
    ProgressSorted(merged, |merged|, modified, lengths, |preserved|);
  }

  /** Pack the modified files, and record the chunks uploaded. */
  method Upload(list: EntryList, disk: Disk, p: Params) returns (ghost uploads: seq<Bytes>)
    requires list.Valid() && p.Valid() && p.hash.Valid() && list.uploadedHashes == [] && list.uploadedLengths == []
    requires forall m :: m in list.modifiedEntries ==> m.size == -1
    modifies list`modifiedEntries, list`uploadedHashes, list`uploadedLengths
    ensures list.Valid() && Packed(list.modifiedEntries, ContentsOf(list.modifiedEntries, disk))
    ensures Describes(list.uploadedHashes, list.uploadedLengths, uploads)
    ensures Flatten(uploads) == Flatten(ContentsOf(list.modifiedEntries, disk)) && AllNonempty(uploads)
  {
    var chunks := Pack(list, disk, p);
    list.CollectUploads(chunks);
    uploads := chunks;
  }

  /** The merged list has as many files as the local one. */
  lemma FilesMerged(local: seq<Entry>, remote: seq<Entry>, previous: seq<Bytes>, merged: seq<Entry>,
                    preserved: seq<Bytes>)
    requires AllMerged(local, remote, previous, merged, preserved)
    ensures FileCount(merged, |merged|) > 0 <==> exists e :: e in local && e.IsFile()
  {
    MergedPathwise(local, remote, previous, merged, preserved);
    FileCountPositive(merged, |merged|);
    forall i | 0 <= i < |local| ensures merged[i].kind == local[i].kind {
      assert Merged(local[i], remote, previous, merged[i], preserved);
    }
    if i :| 0 <= i < |merged| && merged[i].IsFile() {
      assert local[i] in local;
    }
    if e :| e in local && e.IsFile() {
      var i :| 0 <= i < |local| && local[i] == e;
      assert merged[i].IsFile();
    }
  }

  /** Merge, pack, upload and read back: the entries sent to be stored, and the chunks they refer to. */
  method BuildList(local: seq<Entry>, remote: seq<Entry>, hashes: seq<ChunkHash>, lengths: seq<nat>, disk: Disk,
                   p: Params, maximumInMemoryEntries: int, ghost previous: seq<Bytes>)
    returns (ok: bool, sent: seq<Entry>, allHashes: seq<ChunkHash>, allLengths: seq<nat>, ghost chunks: seq<Bytes>)
    requires Listed(local) && ProperSnapshot(remote, hashes, lengths, previous)
    requires p.Valid() && p.hash.Valid()
    ensures ok <==> exists e :: e in local && e.IsFile()
    ensures ok ==> Describes(allHashes, allLengths, chunks)
    ensures ok ==> Delivered(sent, chunks, Expected(local, remote, previous, disk)) && Sorted(sent)
  {
    SnapshotIsStored(remote, hashes, lengths, previous);
    var list, preserved := Merge(local, remote, hashes, lengths, maximumInMemoryEntries, previous);
    FilesMerged(local, remote, previous, list.All(), preserved);
    if list.numberOfEntries == 0 {
      return false, [], [], [], [];
    }
    var uploads := Upload(list, disk, p);
    ok, sent, allHashes, allLengths, chunks := ReadBack(list, uploads, local, remote, previous, preserved, disk);
  }

  /** What has been merged, packed and uploaded is read back. */
  method ReadBack(list: EntryList, ghost uploads: seq<Bytes>, ghost local: seq<Entry>, ghost remote: seq<Entry>,
                  ghost previous: seq<Bytes>, ghost preserved: seq<Bytes>, ghost disk: Disk)
    returns (ok: bool, sent: seq<Entry>, allHashes: seq<ChunkHash>, allLengths: seq<nat>, ghost chunks: seq<Bytes>)
    requires Listed(local) && AllSound(remote, previous) && list.Valid()
    requires AllMerged(local, remote, previous, list.All(), preserved)
    requires Packed(list.modifiedEntries, ContentsOf(list.modifiedEntries, disk))
    requires Describes(list.preservedHashes, list.preservedLengths, preserved)
    requires Describes(list.uploadedHashes, list.uploadedLengths, uploads)
    requires Flatten(uploads) == Flatten(ContentsOf(list.modifiedEntries, disk)) && AllNonempty(uploads)
    modifies list`modifiedEntryIndex, list`uploadedChunkIndex, list`uploadedChunkOffset
    ensures ok && Describes(allHashes, allLengths, chunks)
    ensures Delivered(sent, chunks, Expected(local, remote, previous, disk)) && Sorted(sent)
  {
    LengthsArePositive(uploads, list.uploadedHashes, list.uploadedLengths);
    ListIsReady(local, remote, previous, list.All(), preserved, list.modifiedEntries, disk,
                list.preservedHashes, list.preservedLengths, list.uploadedHashes, list.uploadedLengths, uploads);
    DescribesAppend(list.preservedHashes, list.preservedLengths, preserved,
                    list.uploadedHashes, list.uploadedLengths, uploads);
    allHashes, allLengths := list.preservedHashes + list.uploadedHashes, list.preservedLengths + list.uploadedLengths;
    chunks := preserved + uploads;
    ok, sent := list.ReadEntries();
  }

  // ------------------------------------------------------------------ what a backup stores, by sizes and times

  /** An entry of this path holds these bytes. */
  ghost predicate Stores(entries: seq<Entry>, chunks: seq<Bytes>, e: Entry, content: Bytes) {
    exists s :: s in entries && s.path == e.path && s.kind == e.kind && s.time == e.time && s.size == |content| &&
      (content != [] ==> Within(chunks, s.range) && Slice(chunks, s.range) == content)
  }

  /** The previous snapshot has a file of this path and size, and its time differs by at most a second. */
  predicate Twins(e: Entry, r: Entry) { r.path == e.path && r.size == e.size && -1 <= e.time - r.time <= 1 }

  /**
   A file with contents is stored with the bytes of its twin, if it has one; otherwise with the bytes read, or not at
   all if there are none.  Everything else is stored as it is.
   */
  ghost predicate StoredRight(e: Entry, remote: seq<Entry>, previous: seq<Bytes>, disk: Disk, entries: seq<Entry>,
                              chunks: seq<Bytes>)
  {
    if e.kind == File && e.size > 0 then
      (forall r :: r in remote && Twins(e, r) ==>
        Within(previous, r.range) && Stores(entries, chunks, e, Slice(previous, r.range))) &&
      ((forall r :: r in remote ==> !Twins(e, r)) ==>
        if e.path in disk && disk[e.path] != [] then Stores(entries, chunks, e, disk[e.path])
        else forall s :: s in entries ==> s.path != e.path)
    else Stores(entries, chunks, e, [])
  }

  ghost predicate AllStoredRight(local: seq<Entry>, remote: seq<Entry>, previous: seq<Bytes>, disk: Disk,
                                 entries: seq<Entry>, chunks: seq<Bytes>)
  {
    (forall e :: e in local ==> StoredRight(e, remote, previous, disk, entries, chunks)) &&
    forall s :: s in entries ==> exists e :: e in local && e.path == s.path && e.kind == s.kind
  }

  /** The twin is the counterpart by which a file is unmodified. */
  lemma TwinIsCounterpart(e: Entry, remote: seq<Entry>)
    requires Sorted(remote) && e.kind == File && e.size > 0
    ensures forall r :: r in remote && Twins(e, r) ==> Unmodified(e, remote) && Find(remote, e.path) == Some(r)
    ensures (forall r :: r in remote ==> !Twins(e, r)) ==> !Unmodified(e, remote)
  {
    forall r | r in remote && Twins(e, r) ensures Unmodified(e, remote) && Find(remote, e.path) == Some(r) {
      OnlyOne(remote, r, Find(remote, e.path).value);
    }
  }

  lemma OnlyOne(list: seq<Entry>, a: Entry, b: Entry)
    requires Sorted(list) && a in list && b in list && a.path == b.path
    ensures a == b
  {
    var i :| 0 <= i < |list| && list[i] == a;
    var j :| 0 <= j < |list| && list[j] == b;
    TotalOrder(a.path, a.path, a.path);
  }

  lemma {:induction false} ExpectedHas(local: seq<Entry>, n: nat, remote: seq<Entry>, previous: seq<Bytes>, disk: Disk,
                                       k: nat, i: Item)
    requires k < n <= |local| && i in ExpectedOne(local[k], remote, previous, disk)
    ensures i in ExpectedUpto(local, n, remote, previous, disk)
  {
    if k < n - 1 { ExpectedHas(local, n - 1, remote, previous, disk, k, i); }
  }

  /** What the snapshot denotes, it stores. */
  lemma DenotedIsStored(entries: seq<Entry>, chunks: seq<Bytes>, e: Entry, content: Bytes)
    requires AllSound(entries, chunks) && Item(e.path, e.kind, e.time, content) in Denoted(entries, chunks)
    ensures Stores(entries, chunks, e, content)
  {
    var k :| 0 <= k < |entries| && Denoted(entries, chunks)[k] == Item(e.path, e.kind, e.time, content);
    var s := entries[k];
    assert s in entries && ItemOf(s, chunks) == Item(e.path, e.kind, e.time, content) && Sound(s, chunks);
  }

  /** What is expected of a file that has a twin, or none. */
  lemma ExpectedByTwin(e: Entry, remote: seq<Entry>, previous: seq<Bytes>, disk: Disk)
    requires Sorted(remote) && AllSound(remote, previous) && e.kind == File && e.size > 0
    ensures forall r :: r in remote && Twins(e, r) ==>
      Within(previous, r.range) &&
      ExpectedOne(e, remote, previous, disk) == [Item(e.path, e.kind, e.time, Slice(previous, r.range))]
    ensures (forall r :: r in remote ==> !Twins(e, r)) ==>
      if e.path in disk && disk[e.path] != [] then
        ExpectedOne(e, remote, previous, disk) == [Item(e.path, e.kind, e.time, disk[e.path])]
      else Dropped(e, remote, disk)
  {
    TwinIsCounterpart(e, remote);
    forall r | r in remote && Twins(e, r)
      ensures Within(previous, r.range) &&
        ExpectedOne(e, remote, previous, disk) == [Item(e.path, e.kind, e.time, Slice(previous, r.range))]
    {
      assert Sound(r, previous);
      TwinIsFile(e, r, previous);
    }
  }

  lemma TwinIsFile(e: Entry, r: Entry, previous: seq<Bytes>)
    requires Sound(r, previous) && Twins(e, r) && e.size > 0
    ensures HasContents(r) && Solid(r, previous)
  {
  }

  lemma OneStoredRight(local: seq<Entry>, k: nat, remote: seq<Entry>, previous: seq<Bytes>, disk: Disk,
                       entries: seq<Entry>, chunks: seq<Bytes>)
    requires Listed(local) && k < |local| && Sorted(remote) && AllSound(remote, previous)
    requires AllSound(entries, chunks) && Denoted(entries, chunks) == Expected(local, remote, previous, disk)
    ensures StoredRight(local[k], remote, previous, disk, entries, chunks)
  {
    var e := local[k];
    forall content | ExpectedOne(e, remote, previous, disk) == [Item(e.path, e.kind, e.time, content)]
      ensures Stores(entries, chunks, e, content)
    {
      ExpectedHas(local, |local|, remote, previous, disk, k, Item(e.path, e.kind, e.time, content));
      DenotedIsStored(entries, chunks, e, content);
    }
    if e.kind == File && e.size > 0 {
      ExpectedByTwin(e, remote, previous, disk);
      if Dropped(e, remote, disk) { DroppedIsMissing(local, k, remote, previous, disk, entries, chunks); }
    } else {
      assert ExpectedOne(e, remote, previous, disk) == [Item(e.path, e.kind, e.time, [])];
    }
  }

  lemma DroppedIsMissing(local: seq<Entry>, k: nat, remote: seq<Entry>, previous: seq<Bytes>, disk: Disk,
                         entries: seq<Entry>, chunks: seq<Bytes>)
    requires Listed(local) && k < |local| && Dropped(local[k], remote, disk)
    requires Denoted(entries, chunks) == Expected(local, remote, previous, disk)
    ensures forall s :: s in entries ==> s.path != local[k].path
  {
    forall s | s in entries ensures s.path != local[k].path {
      var i := StemOf(local, remote, previous, disk, entries, chunks, s);
      if local[i].path == local[k].path { OnlyOne(local, local[i], local[k]); }
    }
  }

  /** The local entry from which one of the snapshot comes. */
  lemma StemOf(local: seq<Entry>, remote: seq<Entry>, previous: seq<Bytes>, disk: Disk, entries: seq<Entry>,
               chunks: seq<Bytes>, s: Entry)
    returns (k: nat)
    requires s in entries && Denoted(entries, chunks) == Expected(local, remote, previous, disk)
    ensures k < |local| && local[k].path == s.path && local[k].kind == s.kind && !Dropped(local[k], remote, disk)
  {
    var j :| 0 <= j < |entries| && entries[j] == s;
    var i := ItemOf(s, chunks);
    assert Denoted(entries, chunks)[j] == i && i in Expected(local, remote, previous, disk);
    ExpectedStems(local, |local|, remote, previous, disk, i);
    k :| 0 <= k < |local| && local[k].path == i.path && local[k].kind == i.kind && !Dropped(local[k], remote, disk);
  }

  lemma StoredAsExpected(local: seq<Entry>, remote: seq<Entry>, previous: seq<Bytes>, disk: Disk, entries: seq<Entry>,
                         chunks: seq<Bytes>)
    requires Listed(local) && Sorted(remote) && AllSound(remote, previous)
    requires AllSound(entries, chunks) && Denoted(entries, chunks) == Expected(local, remote, previous, disk)
    ensures AllStoredRight(local, remote, previous, disk, entries, chunks)
  {
    forall e | e in local ensures StoredRight(e, remote, previous, disk, entries, chunks) {
      var k :| 0 <= k < |local| && local[k] == e;
      OneStoredRight(local, k, remote, previous, disk, entries, chunks);
    }
    forall s | s in entries ensures exists e :: e in local && e.path == s.path && e.kind == s.kind {
      var k := StemOf(local, remote, previous, disk, entries, chunks, s);
      assert local[k] in local;
    }
  }

  /**
   A backup, and the snapshot as the next command reads it.  It stops if there is no file in the listing.  Otherwise
   the snapshot can be read, is again a proper one, and its files, directories and links are exactly what was to be
   backed up: by sizes and times, the bytes of the previous snapshot or those read.
   */
  method Backup(local: seq<Entry>, remote: seq<Entry>, hashes: seq<ChunkHash>, lengths: seq<nat>, disk: Disk, p: Params,
                maximumInMemoryEntries: int, ghost previous: seq<Bytes>)
    returns (ok: bool, entries: seq<Entry>, newHashes: seq<ChunkHash>, newLengths: seq<nat>, ghost chunks: seq<Bytes>)
    requires Listed(local) && ProperSnapshot(remote, hashes, lengths, previous)
    requires p.Valid() && p.hash.Valid()
    ensures ok <==> exists e :: e in local && e.IsFile()
    ensures ok ==> ProperSnapshot(entries, newHashes, newLengths, chunks)
    ensures ok ==> Denoted(entries, chunks) == Expected(local, remote, previous, disk)
    ensures ok ==> AllStoredRight(local, remote, previous, disk, entries, chunks)
    ensures ok ==> (newHashes != [] <==> exists i :: i in Expected(local, remote, previous, disk) && i.content != [])
  {
    var built, sent, allHashes, allLengths, all :=
      BuildList(local, remote, hashes, lengths, disk, p, maximumInMemoryEntries, previous);
    if !built {
      return false, [], [], [], [];
    }
    ok, entries, newHashes, newLengths, chunks :=
      StoreList(sent, allHashes, allLengths, all, Expected(local, remote, previous, disk));
    StoredAsExpected(local, remote, previous, disk, entries, chunks);
  }

  /** Store the list, and read it again. */
  method StoreList(sent: seq<Entry>, hashes: seq<ChunkHash>, lengths: seq<nat>, ghost all: seq<Bytes>,
                   ghost items: seq<Item>)
    returns (ok: bool, entries: seq<Entry>, newHashes: seq<ChunkHash>, newLengths: seq<nat>, ghost chunks: seq<Bytes>)
    requires Describes(hashes, lengths, all) && Delivered(sent, all, items) && Sorted(sent)
    ensures ok && ProperSnapshot(entries, newHashes, newLengths, chunks) && Denoted(entries, chunks) == items
    ensures newHashes != [] <==> exists i :: i in items && i.content != []
  {
    DeliveredMeans(sent, all, items);
    var h, l, encoded, plain, compact := UploadSnapshot(sent, hashes, lengths, all);
    StoredAndRead(sent, all, plain, compact, items);
    newHashes, newLengths, chunks := h, l, compact;
    forall e | e in DecodeAll(encoded) ensures Checked(newLengths, e) { SoundIsChecked(e, h, l, compact); }
    ok, entries := ListRemoteFiles(encoded, newLengths);
    ContentsNeedChunks(sent, all, entries, compact, items);
  }

  /** The new snapshot has chunks if and only if some file has contents. */
  lemma ContentsNeedChunks(sent: seq<Entry>, all: seq<Bytes>, entries: seq<Entry>, compact: seq<Bytes>,
                           items: seq<Item>)
    requires Delivered(sent, all, items) && Denoted(entries, compact) == items
    requires compact != [] ==> exists e :: e in sent && HasContents(e)
    ensures compact != [] <==> exists i :: i in items && i.content != []
  {
    if compact != [] {
      var e :| e in sent && HasContents(e);
      var k :| 0 <= k < |sent| && sent[k] == e;
      assert Fine(sent[k], all, items[k]) && items[k] in items;
    }
    if i :| i in items && i.content != [] {
      var k :| 0 <= k < |items| && items[k] == i;
      assert ItemOf(entries[k], compact) == i;
    }
  }

  /** A modified file with contents is left out if nothing can be read for it. */
  ghost predicate Dropped(e: Entry, remote: seq<Entry>, disk: Disk) {
    HasContents(e) && !Unmodified(e, remote) && Read(disk, e.path) == []
  }

  /** What is expected of the first `n` entries comes from those that are not left out. */
  lemma {:induction false} ExpectedStems(local: seq<Entry>, n: nat, remote: seq<Entry>, previous: seq<Bytes>,
                                         disk: Disk, i: Item)
    requires n <= |local| && i in ExpectedUpto(local, n, remote, previous, disk)
    ensures Stems(local, n, remote, disk, i)
  {
    var e, earlier := local[n - 1], ExpectedUpto(local, n - 1, remote, previous, disk);
    if i in earlier {
      ExpectedStems(local, n - 1, remote, previous, disk, i);
    } else {
      assert i in ExpectedOne(e, remote, previous, disk) && e.path == i.path && e.kind == i.kind;
    }
  }

  /** Something is expected of each entry that is not left out. */
  lemma {:induction false} ExpectedOf(local: seq<Entry>, n: nat, remote: seq<Entry>, previous: seq<Bytes>, disk: Disk,
                                      k: nat)
    requires k < n <= |local| && !Dropped(local[k], remote, disk)
    ensures exists i ::
      i in ExpectedUpto(local, n, remote, previous, disk) && i.path == local[k].path && i.kind == local[k].kind
  {
    if k < n - 1 {
      ExpectedOf(local, n - 1, remote, previous, disk, k);
      var i :| i in ExpectedUpto(local, n - 1, remote, previous, disk) && i.path == local[k].path &&
        i.kind == local[k].kind;
      assert i in ExpectedUpto(local, n, remote, previous, disk);
    } else {
      var one := ExpectedOne(local[k], remote, previous, disk);
      assert one[0] in one && one[0] in ExpectedUpto(local, n, remote, previous, disk);
    }
  }

  ghost predicate Stems(local: seq<Entry>, n: nat, remote: seq<Entry>, disk: Disk, i: Item)
    requires n <= |local|
  {
    exists k :: 0 <= k < n && local[k].path == i.path && local[k].kind == i.kind && !Dropped(local[k], remote, disk)
  }

  /**
   A file of a snapshot, retrieved: with intact chunks its bytes are those the snapshot denotes, and its hash
   matches.
   */
  method RetrieveFromSnapshot(entries: seq<Entry>, hashes: seq<ChunkHash>, lengths: seq<nat>, i: nat,
                              ghost chunks: seq<Bytes>)
    returns (output: Bytes, ok: bool)
    requires ProperSnapshot(entries, hashes, lengths, chunks) && i < |entries| && entries[i].IsFile()
    ensures ok && output == BytesOf(entries[i], chunks)
  {
    assert Sound(entries[i], chunks) by { assert entries[i] in entries; }
    output, ok := RetrieveFile(entries[i], hashes, lengths, {}, chunks);
  }
}
