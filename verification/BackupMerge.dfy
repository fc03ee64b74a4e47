/**
 The comparison of the local files with the previous snapshot: two listings in path order are joined,
 and the chunks of unmodified files are carried over under new numbers.
 */
module BackupMerge {
  import opened Common
  import opened Buzhash
  import opened Chunking
  import opened ChunkLists
  import opened ChunkMakers
  import opened PathOrder
  import opened EntryLists

  /** Same size, and times that differ by at most a second. */
  predicate IsSameAs(left: Entry, right: Entry) {
    left.size == right.size && right.time - 1 <= left.time <= right.time + 1
  }

  ghost predicate Sorted(list: seq<Entry>) {
    (forall i :: 0 <= i < |list| ==> Clean(list[i].path)) &&
    (forall i, j :: 0 <= i < j < |list| ==> Compare(list[i].path, list[j].path) < 0)
  }

  /** The entry of a path in a listing. */
  function Find(list: seq<Entry>, path: Path): (r: Option<Entry>)
    ensures r.Some? ==> r.value in list && r.value.path == path
    ensures r.None? ==> forall e :: e in list ==> e.path != path
  {
    if list == [] then None else if list[0].path == path then Some(list[0]) else Find(list[1..], path)
  }

  /** A local file whose counterpart in the previous snapshot looks the same. */
  predicate Unmodified(e: Entry, remote: seq<Entry>) {
    e.IsFile() && Find(remote, e.path).Some? && IsSameAs(e, Find(remote, e.path).value)
  }

  /** The entries of a stored snapshot: they pass the sanity check, and only files have a size. */
  ghost predicate Stored(list: seq<Entry>, lengths: seq<nat>) {
    forall e :: e in list ==>
      Checked(lengths, e) && (!e.IsFile() ==> e.size == 0) &&
      (e.size > 0 ==> e.range.startOffset >= 0 && e.range.endOffset >= 0)
  }

  /** What becomes of a local entry, given the preserved chunks. */
  ghost predicate Merged(e: Entry, remote: seq<Entry>, previous: seq<Bytes>, m: Entry, preserved: seq<Bytes>) {
    if Unmodified(e, remote) then
      if e.size > 0 then
        var r := Find(remote, e.path).value;
        m == e.(hash := r.hash, range := m.range) && SameChunks(previous, r.range, preserved, m.range)
      else m == e
    else m == Normal(if e.size > 0 then e.(size := -1) else e)
  }

  lemma SameChunksExtended(a: seq<Bytes>, r: Range, b: seq<Bytes>, q: Range, more: seq<Bytes>)
    requires SameChunks(a, r, b, q)
    ensures SameChunks(a, r, b + more, q)
  {
    PrefixSlice(b, more, q.startChunk, q.endChunk + 1);
  }

  lemma PrefixSlice(s: seq<Bytes>, t: seq<Bytes>, i: nat, j: nat)
    requires i <= j <= |s|
    ensures (s + t)[i..j] == s[i..j]
  {
    assert (s + t)[..|s|] == s;
    SubSlice(s + t, 0, |s|, i, j);
  }

  lemma DescribesAppend(hashes: seq<ChunkHash>, lengths: seq<nat>, chunks: seq<Bytes>,
                        hashes': seq<ChunkHash>, lengths': seq<nat>, chunks': seq<Bytes>)
    requires Describes(hashes, lengths, chunks) && Describes(hashes', lengths', chunks')
    ensures Describes(hashes + hashes', lengths + lengths', chunks + chunks')
  {
  }

  /** The chunks appended for a range, the first one unless it is already the last of the list. */
  function Appended(previous: seq<Bytes>, last: int, r: Range): seq<Bytes>
    requires 0 <= r.startChunk <= r.endChunk < |previous|
  {
    previous[if last == r.startChunk then r.startChunk + 1 else r.startChunk..r.endChunk + 1]
  }

  /** The last chunk of the new list is the chunk numbered `last` of the old one. */
  ghost predicate Tail(previous: seq<Bytes>, last: int, list: seq<Bytes>) {
    last == -1 || (0 <= last < |previous| && list != [] && list[|list| - 1] == previous[last])
  }

  /** Both the merge and the upload renumber in this way: the range ends with the new list. */
  lemma Renumbered(previous: seq<Bytes>, last: int, list: seq<Bytes>, r: Range)
    requires Tail(previous, last, list) && 0 <= r.startChunk <= r.endChunk < |previous|
    ensures var longer := list + Appended(previous, last, r);
      var q := r.(startChunk := |longer| - 1 - (r.endChunk - r.startChunk), endChunk := |longer| - 1);
      SameChunks(previous, r, longer, q) && Tail(previous, r.endChunk, longer)
  {
    var tail := Appended(previous, last, r);
    var n := r.endChunk - r.startChunk;
    if last == r.startChunk {
      LastJoins(list, previous, last, r.endChunk);
      EndsWith(list, tail, |list| - 1, previous[r.startChunk..r.endChunk + 1]);
    } else {
      SuffixIs(list, tail);
      EndsWith(list, tail, |list|, previous[r.startChunk..r.endChunk + 1]);
    }
  }

  lemma SuffixIs(list: seq<Bytes>, tail: seq<Bytes>)
    ensures (list + tail)[|list|..] == tail
  {
  }

  /** A list that ends with these chunks, ends with the last of them. */
  lemma EndsWith(list: seq<Bytes>, tail: seq<Bytes>, k: nat, slice: seq<Bytes>)
    requires k <= |list| && (list + tail)[k..] == slice && slice != []
    ensures var longer := list + tail;
      |longer| == k + |slice| && longer[k..|longer|] == slice && longer[|longer| - 1] == slice[|slice| - 1]
  {
    var longer := list + tail;
    assert longer[k..][|slice| - 1] == longer[k + |slice| - 1];
    assert longer[k..|longer|] == longer[k..];
  }

  lemma LastJoins(list: seq<Bytes>, previous: seq<Bytes>, i: nat, j: nat)
    requires list != [] && i <= j < |previous| && list[|list| - 1] == previous[i]
    ensures (list + previous[i + 1..j + 1])[|list| - 1..] == previous[i..j + 1]
  {
    var l, r := (list + previous[i + 1..j + 1])[|list| - 1..], previous[i..j + 1];
    assert |l| == |r|;
    forall k | 0 <= k < |l| ensures l[k] == r[k] {
      if k > 0 {
        assert l[k] == previous[i + 1..j + 1][k - 1];
      }
    }
  }

  lemma DescribesNext(hashes: seq<ChunkHash>, lengths: seq<nat>, chunks: seq<Bytes>, hash: ChunkHash, length: nat,
                      chunk: Bytes)
    requires Describes(hashes, lengths, chunks) && hash == HashOf(chunk) && length == |chunk|
    ensures Describes(hashes + [hash], lengths + [length], chunks + [chunk])
  {
  }

  lemma OneLonger(list: seq<Bytes>, chunks: seq<Bytes>, first: nat, i: nat)
    requires first <= i < |chunks|
    ensures list + chunks[first..i + 1] == list + chunks[first..i] + [chunks[i]]
  {
  }

  /** The renumbering state of the merge. */
  class Preserver {
    const previousHashes: seq<ChunkHash>
    const previousLengths: seq<nat>
    const list: EntryList
    var lastPreservedChunk: int

    ghost predicate Valid(previous: seq<Bytes>, preserved: seq<Bytes>)
      reads this, list
    {
      Describes(previousHashes, previousLengths, previous) &&
      Describes(list.preservedHashes, list.preservedLengths, preserved) && Tail(previous, lastPreservedChunk, preserved)
    }

    constructor (hashes: seq<ChunkHash>, lengths: seq<nat>, list: EntryList)
      ensures previousHashes == hashes && previousLengths == lengths && this.list == list && lastPreservedChunk == -1
    {
      previousHashes, previousLengths, this.list, lastPreservedChunk := hashes, lengths, list, -1;
    }

    /** Carry over the chunks of a range; `delta` is what its chunk numbers decrease by. */
    method Preserve(r: Range, ghost previous: seq<Bytes>, ghost preserved: seq<Bytes>)
      returns (q: Range, ghost longer: seq<Bytes>)
      requires Valid(previous, preserved) && 0 <= r.startChunk <= r.endChunk < |previous|
      modifies this, list`preservedHashes, list`preservedLengths
      ensures Valid(previous, longer) && preserved <= longer && SameChunks(previous, r, longer, q)
    {
      Renumbered(previous, lastPreservedChunk, preserved, r);
      ghost var whole := preserved + Appended(previous, lastPreservedChunk, r);
      ghost var renumbered := r.(startChunk := |whole| - 1 - (r.endChunk - r.startChunk), endChunk := |whole| - 1);
      ghost var first := if lastPreservedChunk == r.startChunk then r.startChunk + 1 else r.startChunk;
      longer := preserved;
      assert previous[first..first] == [];
      var delta := r.startChunk - |list.preservedHashes|;
      if lastPreservedChunk != r.startChunk {
        lastPreservedChunk := r.startChunk;
        longer := AddOne(r.startChunk, previous, preserved);
        OneLonger(preserved, previous, first, r.startChunk);
      } else {
        delta := delta + 1;
      }
      longer := PreserveRest(r, first, previous, preserved, longer);
      q := r.(startChunk := r.startChunk - delta, endChunk := r.endChunk - delta);
      assert longer == whole && q == renumbered;
    }

    /** Carry over the chunks after the first one. */
    method PreserveRest(r: Range, ghost first: nat, ghost previous: seq<Bytes>, ghost preserved: seq<Bytes>,
                        ghost begun: seq<Bytes>)
      returns (ghost longer: seq<Bytes>)
      requires Describes(previousHashes, previousLengths, previous) && 0 <= r.startChunk <= r.endChunk < |previous|
      requires first <= r.startChunk + 1 && begun == preserved + previous[first..r.startChunk + 1]
      requires Describes(list.preservedHashes, list.preservedLengths, begun) && lastPreservedChunk == r.startChunk
      modifies this`lastPreservedChunk, list`preservedHashes, list`preservedLengths
      ensures longer == preserved + previous[first..r.endChunk + 1] && lastPreservedChunk == r.endChunk
      ensures Describes(list.preservedHashes, list.preservedLengths, longer)
    {
      longer := begun;
      for i := r.startChunk + 1 to r.endChunk + 1
        invariant Describes(list.preservedHashes, list.preservedLengths, longer)
        invariant longer == preserved + previous[first..i]
        invariant lastPreservedChunk == i - 1
      {
        longer := AddOne(i, previous, longer);
        OneLonger(preserved, previous, first, i);
        lastPreservedChunk := i;
      }
    }

    /** Carry over one chunk. */
    method AddOne(i: nat, ghost previous: seq<Bytes>, ghost preserved: seq<Bytes>) returns (ghost longer: seq<Bytes>)
      requires Describes(previousHashes, previousLengths, previous) && i < |previous|
      requires Describes(list.preservedHashes, list.preservedLengths, preserved)
      modifies list`preservedHashes, list`preservedLengths
      ensures longer == preserved + [previous[i]] && Describes(list.preservedHashes, list.preservedLengths, longer)
    {
      DescribesNext(list.preservedHashes, list.preservedLengths, preserved, previousHashes[i], previousLengths[i],
                    previous[i]);
      list.AddPreservedChunk(previousHashes[i], previousLengths[i]);
      longer := preserved + [previous[i]];
    }
  }

  /** A stream of entries in path order, with one entry of look-ahead. */
  class Cursor {
    const listing: seq<Entry>
    var next: nat
    var entry: Option<Entry>
    var listingOK: bool

    /** Everything received before the look-ahead. */
    function Passed(): int
      reads this
    {
      next - if entry.Some? then 1 else 0
    }

    ghost predicate Valid()
      reads this
    {
      next <= |listing| && (entry.Some? ==> next > 0 && entry.value == listing[next - 1]) &&
      (!listingOK ==> next == |listing| && entry.None?)
    }

    constructor (listing: seq<Entry>)
      ensures Valid() && this.listing == listing && Passed() == 0
    {
      this.listing, next, entry, listingOK := listing, 0, None, true;
    }

    method Receive()
      requires Valid() && entry.None? && listingOK
      modifies this
      ensures Valid() && Passed() == old(Passed())
      ensures if listingOK then entry.Some? else next == |listing|
    {
      if next < |listing| {
        entry, next := Some(listing[next]), next + 1;
      } else {
        listingOK := false;
      }
    }

    /** Skip the entries that come before the path; the result compares it with the one reached. */
    method Seek(path: Path) returns (compareResult: int)
      requires Valid() && Sorted(listing) && Clean(path)
      requires forall k :: 0 <= k < Passed() ==> Compare(listing[k].path, path) < 0
      modifies this
      ensures Valid() && old(Passed()) <= Passed() && compareResult <= 0
      ensures forall k :: 0 <= k < Passed() ==> Compare(listing[k].path, path) < 0
      ensures compareResult == 0 ==> entry.Some? && entry.value.path == path
      ensures compareResult < 0 ==> forall k :: Passed() <= k < |listing| ==> Compare(path, listing[k].path) < 0
    {
      while true
        invariant Valid() && old(Passed()) <= Passed()
        invariant forall k :: 0 <= k < Passed() ==> Compare(listing[k].path, path) < 0
        decreases |listing| - Passed(), listingOK
      {
        if entry.None? {
          if listingOK {
            Receive();
          }
          if !listingOK {
            return -1;
          }
        }
        var other := entry.value.path;
        compareResult := ComparePaths(path, other);
        TotalOrder(path, other, other);
        if compareResult <= 0 {
          forall k | Passed() < k < |listing| && compareResult < 0 ensures Compare(path, listing[k].path) < 0 {
            TotalOrder(path, other, listing[k].path);
          }
          return;
        }
        entry := None;
      }
    }

    /** What has been reached is the counterpart of the path, or there is none. */
    lemma Reached(path: Path, compareResult: int)
      requires Valid() && Sorted(listing) && Clean(path)
      requires forall k :: 0 <= k < Passed() ==> Compare(listing[k].path, path) < 0
      requires compareResult == 0 ==> entry.Some? && entry.value.path == path
      requires compareResult < 0 ==> forall k :: Passed() <= k < |listing| ==> Compare(path, listing[k].path) < 0
      requires compareResult <= 0
      ensures Find(listing, path) == if compareResult == 0 then entry else None
    {
      var f := Find(listing, path);
      assert compareResult == 0 ==> listing[next - 1] in listing;
      assert forall j :: compareResult == 0 && next - 1 < j < |listing| ==>
        Compare(listing[next - 1].path, listing[j].path) < 0;
      if f.Some? {
        var k :| 0 <= k < |listing| && listing[k] == f.value;
        TotalOrder(path, listing[k].path, path);
      }
    }
  }

  /** The counterpart of an unmodified file with contents is a file with contents. */
  lemma CounterpartIsFile(e: Entry, remote: seq<Entry>, lengths: seq<nat>)
    requires Stored(remote, lengths) && Unmodified(e, remote) && e.size > 0
    ensures var r := Find(remote, e.path).value;
      r.IsFile() && r.size == e.size && 0 <= r.range.startChunk <= r.range.endChunk < |lengths|
  {
    assert Find(remote, e.path).value in remote;
  }

  ghost predicate AllMerged(local: seq<Entry>, remote: seq<Entry>, previous: seq<Bytes>, merged: seq<Entry>,
                            preserved: seq<Bytes>)
  {
    if local == [] then merged == []
    else
      merged != [] && Merged(local[|local| - 1], remote, previous, merged[|merged| - 1], preserved) &&
      AllMerged(local[..|local| - 1], remote, previous, merged[..|merged| - 1], preserved)
  }

  lemma MergedGrows(e: Entry, remote: seq<Entry>, previous: seq<Bytes>, m: Entry, preserved: seq<Bytes>,
                    longer: seq<Bytes>)
    requires Merged(e, remote, previous, m, preserved) && preserved <= longer
    ensures Merged(e, remote, previous, m, longer)
  {
    if Unmodified(e, remote) && e.size > 0 {
      SameChunksExtended(previous, Find(remote, e.path).value.range, preserved, m.range, longer[|preserved|..]);
      assert preserved + longer[|preserved|..] == longer;
    }
  }

  lemma {:induction false} AllMergedGrows(local: seq<Entry>, remote: seq<Entry>, previous: seq<Bytes>,
                                          merged: seq<Entry>, preserved: seq<Bytes>, longer: seq<Bytes>)
    requires AllMerged(local, remote, previous, merged, preserved) && preserved <= longer
    ensures AllMerged(local, remote, previous, merged, longer)
  {
    if local != [] {
      MergedGrows(local[|local| - 1], remote, previous, merged[|merged| - 1], preserved, longer);
      AllMergedGrows(local[..|local| - 1], remote, previous, merged[..|merged| - 1], preserved, longer);
    }
  }

  lemma AllMergedNext(local: seq<Entry>, remote: seq<Entry>, previous: seq<Bytes>, merged: seq<Entry>,
                      preserved: seq<Bytes>, longer: seq<Bytes>, e: Entry, m: Entry)
    requires AllMerged(local, remote, previous, merged, preserved) && preserved <= longer
    requires Merged(e, remote, previous, m, longer)
    ensures AllMerged(local + [e], remote, previous, merged + [m], longer)
  {
    AllMergedGrows(local, remote, previous, merged, preserved, longer);
    var l, k := local + [e], merged + [m];
    assert l[..|l| - 1] == local && k[..|k| - 1] == merged;
  }

  lemma {:induction false} MergedAt(local: seq<Entry>, remote: seq<Entry>, previous: seq<Bytes>, merged: seq<Entry>,
                                    preserved: seq<Bytes>, i: nat)
    requires AllMerged(local, remote, previous, merged, preserved) && i < |local|
    ensures |merged| == |local| && Merged(local[i], remote, previous, merged[i], preserved)
  {
    var l, k := local[..|local| - 1], merged[..|merged| - 1];
    if |local| > 1 {
      MergedAt(l, remote, previous, k, preserved, if i < |l| then i else 0);
    }
  }

  /** All remote entries received so far come before the path. */
  ghost predicate PassedBefore(cursor: Cursor, path: Path)
    reads cursor
  {
    cursor.Valid() && forall k :: 0 <= k < cursor.Passed() ==> Compare(cursor.listing[k].path, path) < 0
  }

  ghost predicate PassedUpTo(list: seq<Entry>, n: int, path: Path) {
    n <= |list| && forall k :: 0 <= k < n ==> Compare(list[k].path, path) <= 0
  }

  lemma UpToReached(list: seq<Entry>, n: nat, path: Path)
    requires n <= |list| && Clean(path) && forall k :: 0 <= k < n ==> Compare(list[k].path, path) < 0
    ensures PassedUpTo(list, n, path)
    ensures n < |list| && list[n].path == path ==> PassedUpTo(list, n + 1, path)
  {
    TotalOrder(path, path, path);
  }

  /** The counterpart of a local entry in the previous snapshot. */
  method TakeCounterpart(cursor: Cursor, path: Path) returns (r: Option<Entry>)
    requires PassedBefore(cursor, path) && Sorted(cursor.listing) && Clean(path)
    modifies cursor
    ensures cursor.Valid() && PassedUpTo(cursor.listing, cursor.Passed(), path)
    ensures r == Find(cursor.listing, path)
  {
    var compareResult := cursor.Seek(path);
    cursor.Reached(path, compareResult);
    UpToReached(cursor.listing, cursor.Passed(), path);
    r := None;
    if compareResult == 0 {
      r := cursor.entry;
      cursor.entry := None;
    }
  }

  /** One local entry: find its counterpart, and keep or mark it. */
  method MergeOne(e: Entry, cursor: Cursor, preserver: Preserver, ghost previous: seq<Bytes>,
                  ghost preserved: seq<Bytes>)
    returns (m: Entry, ghost longer: seq<Bytes>)
    requires PassedBefore(cursor, e.path) && Sorted(cursor.listing) && Clean(e.path)
    requires preserver.Valid(previous, preserved) && Stored(cursor.listing, preserver.previousLengths)
    modifies cursor, preserver, preserver.list`preservedHashes, preserver.list`preservedLengths
    ensures cursor.Valid() && PassedUpTo(cursor.listing, cursor.Passed(), e.path)
    ensures preserver.Valid(previous, longer) && preserved <= longer
    ensures Merged(e, cursor.listing, previous, Normal(m), longer)
    ensures e.size >= 0 ==> (m.size >= 0 || m.size == -1)
  {
    m, longer := e, preserved;
    var r := TakeCounterpart(cursor, e.path);
    if r.Some? {
      m, longer := KeepOrMark(e, r.value, cursor.listing, preserver, previous, preserved);
    } else if e.size > 0 {
      m := e.(size := -1);
    }
  }

  /** Keep an entry that looks the same as its counterpart, with the chunks of that, and mark any other. */
  method KeepOrMark(e: Entry, r: Entry, ghost remote: seq<Entry>, preserver: Preserver, ghost previous: seq<Bytes>,
                    ghost preserved: seq<Bytes>)
    returns (m: Entry, ghost longer: seq<Bytes>)
    requires Find(remote, e.path) == Some(r)
    requires preserver.Valid(previous, preserved) && Stored(remote, preserver.previousLengths)
    modifies preserver, preserver.list`preservedHashes, preserver.list`preservedLengths
    ensures preserver.Valid(previous, longer) && preserved <= longer
    ensures Merged(e, remote, previous, Normal(m), longer)
    ensures e.size >= 0 ==> (m.size >= 0 || m.size == -1)
  {
    m, longer := e, preserved;
    if IsSameAs(e, r) && e.IsFile() {
      if e.size > 0 {
        CounterpartIsFile(e, remote, preserver.previousLengths);
        var q, grown := preserver.Preserve(r.range, previous, preserved);
        longer := grown;
        m := e.(hash := r.hash, range := q);
      }
    } else if e.size > 0 {
      m := e.(size := -1);
    }
  }

  /** Later local paths come after everything received for an earlier one. */
  lemma StillBefore(cursor: Cursor, path: Path, later: Path)
    requires cursor.Valid() && Sorted(cursor.listing) && Clean(path) && Clean(later) && Compare(path, later) < 0
    requires PassedUpTo(cursor.listing, cursor.Passed(), path)
    ensures PassedBefore(cursor, later)
  {
    forall k | 0 <= k < cursor.Passed() ensures Compare(cursor.listing[k].path, later) < 0 {
      TotalOrder(cursor.listing[k].path, path, later);
    }
  }

  /** The first `i` local entries have been joined. */
  ghost predicate Joining(local: seq<Entry>, i: nat, cursor: Cursor, preserver: Preserver, previous: seq<Bytes>,
                          preserved: seq<Bytes>)
    reads cursor, preserver, preserver.list
  {
    i <= |local| && (i < |local| ==> PassedBefore(cursor, local[i].path)) && preserver.Valid(previous, preserved) &&
    preserver.list.Valid() && preserver.list.uploadedHashes == [] && preserver.list.uploadedLengths == [] &&
    (forall m :: m in preserver.list.modifiedEntries ==> m.size == -1) &&
    AllMerged(local[..i], cursor.listing, previous, preserver.list.All(), preserved)
  }

  method JoinNext(local: seq<Entry>, i: nat, cursor: Cursor, preserver: Preserver, ghost previous: seq<Bytes>,
                  ghost preserved: seq<Bytes>)
    returns (ghost longer: seq<Bytes>)
    requires Sorted(local) && Sorted(cursor.listing) && Stored(cursor.listing, preserver.previousLengths)
    requires i < |local| && Joining(local, i, cursor, preserver, previous, preserved)
    modifies cursor, preserver, preserver.list
    ensures Joining(local, i + 1, cursor, preserver, previous, longer)
  {
    var list := preserver.list;
    ghost var merged := list.All();
    var m, grown := MergeOne(local[i], cursor, preserver, previous, preserved);
    longer := grown;
    AllMergedNext(local[..i], cursor.listing, previous, merged, preserved, longer, local[i], Normal(m));
    list.AddEntry(m);
    assert local[..i + 1] == local[..i] + [local[i]];
    if i + 1 < |local| { StillBefore(cursor, local[i].path, local[i + 1].path); }
  }

  /** Join the local listing with the remote one. */
  method Merge(local: seq<Entry>, remote: seq<Entry>, hashes: seq<ChunkHash>, lengths: seq<nat>,
               maximumInMemoryEntries: int, ghost previous: seq<Bytes>)
    returns (list: EntryList, ghost preserved: seq<Bytes>)
    requires Sorted(local) && Sorted(remote) && Describes(hashes, lengths, previous) && Stored(remote, lengths)
    ensures fresh(list) && list.Valid() && list.uploadedHashes == [] && list.uploadedLengths == []
    ensures forall m :: m in list.modifiedEntries ==> m.size == -1
    ensures Describes(list.preservedHashes, list.preservedLengths, preserved)
    ensures AllMerged(local, remote, previous, list.All(), preserved)
  {
    list := new EntryList(maximumInMemoryEntries);
    var preserver := new Preserver(hashes, lengths, list);
    var cursor := new Cursor(remote);
    preserved := [];
    assert local[..0] == [];
    for i := 0 to |local|
      invariant fresh(list) && fresh(preserver) && fresh(cursor)
      invariant Joining(local, i, cursor, preserver, previous, preserved)
    {
      preserved := JoinNext(local, i, cursor, preserver, previous, preserved);
    }
    assert local[..|local|] == local;
  }
}
