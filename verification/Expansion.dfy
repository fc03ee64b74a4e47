/**
 The chunks referenced by many snapshots at once: snapshots that share a chunk sequence are grouped, each
 sequence is expanded once, and the result is what expanding every snapshot by itself would give.
 */
module Expansion {
  import opened Common
  import opened Buzhash
  import opened Chunking
  import opened Concurrency

  type Hash = Bytes

  datatype Manifest = Manifest(
    fileSequence: seq<Hash>, chunkSequence: seq<Hash>, lengthSequence: seq<Hash>, chunkHashes: seq<Hash>, flag: bool)
  {
    function MetadataSequences(): seq<seq<Hash>> { [fileSequence, chunkSequence, lengthSequence] }
  }

  /** The storage: what a chunk sequence decodes to, and the name of a chunk. */
  datatype Storage<!Id> = Storage(load: seq<Hash> -> seq<Hash>, id: Hash -> Id)
  {
    function Ids(hashes: seq<Hash>): seq<Id> { seq(|hashes|, i requires 0 <= i < |hashes| => id(hashes[i])) }

    /** The chunk hashes, if they are in memory, are those the sequence decodes to. */
    predicate Loaded(s: Manifest) { s.chunkHashes == [] || s.chunkHashes == load(s.chunkSequence) }

    /** The chunks a snapshot refers to: those of its metadata, and those of its files. */
    function References(s: Manifest): seq<Id> {
      Ids(s.fileSequence) + Ids(s.chunkSequence) + Ids(s.lengthSequence) + Ids(load(s.chunkSequence))
    }
  }

  // ------------------------------------------------------------------ the key of a sequence

  const COLON: Byte := 58

  /** A number in decimal digits. */
  function Decimal(n: nat): Bytes
    decreases n
  {
    (if n < 10 then [] else Decimal(n / 10)) + [(48 + n % 10) as Byte]
  }

  function SequenceKey(sequence: seq<Hash>): Bytes {
    if sequence == [] then []
    else Decimal(|sequence[0]|) + [COLON] + sequence[0] + SequenceKey(sequence[1..])
  }

  lemma {:induction false} DecimalDigits(n: nat)
    ensures |Decimal(n)| > 0 && forall i :: 0 <= i < |Decimal(n)| ==> 48 <= Decimal(n)[i] <= 57
    decreases n
  {
    if n >= 10 { DecimalDigits(n / 10); }
  }

  lemma {:induction false} DecimalInjective(m: nat, n: nat)
    requires Decimal(m) == Decimal(n)
    ensures m == n
    decreases m
  {
    var d, e := Decimal(m), Decimal(n);
    assert d[|d| - 1] == (48 + m % 10) as Byte && e[|e| - 1] == (48 + n % 10) as Byte;
    assert m % 10 == n % 10;
    assert d[..|d| - 1] == (if m < 10 then [] else Decimal(m / 10)) &&
           e[..|e| - 1] == (if n < 10 then [] else Decimal(n / 10));
    if m >= 10 { DecimalDigits(m / 10); }
    if n >= 10 { DecimalDigits(n / 10); }
    if m >= 10 && n >= 10 { DecimalInjective(m / 10, n / 10); }
  }

  /** The first colon tells where the number ends. */
  lemma NumberEnds(m: nat, x: Bytes, n: nat, y: Bytes)
    requires Decimal(m) + [COLON] + x == Decimal(n) + [COLON] + y
    ensures m == n && x == y
  {
    var a, b := Decimal(m), Decimal(n);
    var l, r := a + [COLON] + x, b + [COLON] + y;
    DecimalDigits(m);
    DecimalDigits(n);
    assert l[|a|] == COLON && r[|b|] == COLON;
    forall k | 0 <= k < |b| ensures r[k] != COLON { assert r[k] == b[k]; }
    forall k | 0 <= k < |a| ensures l[k] != COLON { assert l[k] == a[k]; }
    assert a == l[..|a|] && b == r[..|b|] && x == l[|a| + 1..] && y == r[|b| + 1..];
    DecimalInjective(m, n);
  }

  /** Different sequences of byte strings have different keys. */
  lemma {:induction false} KeyIsInjective(a: seq<Hash>, b: seq<Hash>)
    requires SequenceKey(a) == SequenceKey(b)
    ensures a == b
  {
    assert a != [] ==> |SequenceKey(a)| > 0;
    assert b != [] ==> |SequenceKey(b)| > 0;
    if a != [] && b != [] {
      var x, y := a[0] + SequenceKey(a[1..]), b[0] + SequenceKey(b[1..]);
      assert SequenceKey(a) == Decimal(|a[0]|) + [COLON] + x && SequenceKey(b) == Decimal(|b[0]|) + [COLON] + y;
      NumberEnds(|a[0]|, x, |b[0]|, y);
      assert a[0] == x[..|a[0]|] && b[0] == y[..|b[0]|] && SequenceKey(a[1..]) == x[|a[0]|..] &&
             SequenceKey(b[1..]) == y[|b[0]|..];
      KeyIsInjective(a[1..], b[1..]);
      assert a == [a[0]] + a[1..] && b == [b[0]] + b[1..];
    }
  }

  // ------------------------------------------------------------------ one snapshot at a time

  method GetSnapshotChunks<Id>(storage: Storage<Id>, s: Manifest) returns (chunks: seq<Id>)
    requires storage.Loaded(s)
    ensures chunks == storage.References(s)
  {
    chunks := [];
    var sequences := s.MetadataSequences();
    for i := 0 to 3
      invariant chunks == [[], storage.Ids(s.fileSequence), storage.Ids(s.fileSequence) + storage.Ids(s.chunkSequence),
                           storage.Ids(s.fileSequence) + storage.Ids(s.chunkSequence) +
                           storage.Ids(s.lengthSequence)][i]
    {
      chunks := chunks + storage.Ids(sequences[i]);
    }
    var hashes := if s.chunkHashes == [] then storage.load(s.chunkSequence) else s.chunkHashes;
    chunks := chunks + storage.Ids(hashes);
  }

  // ------------------------------------------------------------------ many at once

  ghost predicate InItsGroup(s: Manifest, sequenceIndex: map<Bytes, nat>, groups: seq<seq<Manifest>>) {
    var key := SequenceKey(s.chunkSequence);
    key in sequenceIndex && sequenceIndex[key] < |groups| && s in groups[sequenceIndex[key]]
  }

  /** Every snapshot so far is in the group of its key, and a group shares one chunk sequence. */
  ghost predicate Grouped(snapshots: seq<Manifest>, n: nat, sequenceIndex: map<Bytes, nat>, groups: seq<seq<Manifest>>)
    requires n <= |snapshots|
  {
    (forall i :: 0 <= i < n ==> InItsGroup(snapshots[i], sequenceIndex, groups)) &&
    (forall k :: k in sequenceIndex ==> sequenceIndex[k] < |groups|) &&
    (forall k, g :: k in sequenceIndex && g in groups[sequenceIndex[k]] ==> SequenceKey(g.chunkSequence) == k) &&
    (forall g :: 0 <= g < |groups| ==> groups[g] != [] && forall s :: s in groups[g] ==> s in snapshots)
  }

  /** The snapshot of a group that is expanded: one with its chunk hashes in memory, or else the first. */
  method ExpandableSnapshot(group: seq<Manifest>) returns (s: Manifest)
    requires group != []
    ensures s in group && (s.chunkHashes == [] ==> s == group[0] && forall g :: g in group ==> g.chunkHashes == [])
  {
    for i := 0 to |group|
      invariant forall k :: 0 <= k < i ==> group[k].chunkHashes == []
    {
      if |group[i].chunkHashes| > 0 { return group[i]; }
    }
    return group[0];
  }

  function ExpandChunkHashes<Id>(storage: Storage<Id>, s: Manifest): seq<Id> {
    storage.Ids(if s.chunkHashes == [] then storage.load(s.chunkSequence) else s.chunkHashes)
  }

  method GroupSnapshots(snapshots: seq<Manifest>) returns (sequenceIndex: map<Bytes, nat>, groups: seq<seq<Manifest>>)
    ensures Grouped(snapshots, |snapshots|, sequenceIndex, groups)
  {
    sequenceIndex, groups := map[], [];
    for i := 0 to |snapshots|
      invariant Grouped(snapshots, i, sequenceIndex, groups)
      invariant forall j, k :: j in sequenceIndex && k in sequenceIndex && sequenceIndex[j] == sequenceIndex[k] ==>
        j == k
    {
      var key := SequenceKey(snapshots[i].chunkSequence);
      if key !in sequenceIndex {
        sequenceIndex := sequenceIndex[key := |groups|];
        groups := groups + [[snapshots[i]]];
      } else {
        var index := sequenceIndex[key];
        groups := groups[index := groups[index] + [snapshots[i]]];
      }
    }
  }

  method Representatives(groups: seq<seq<Manifest>>) returns (chosen: seq<Manifest>)
    requires forall g :: 0 <= g < |groups| ==> groups[g] != []
    ensures |chosen| == |groups| && forall g :: 0 <= g < |groups| ==> chosen[g] in groups[g]
  {
    chosen := [];
    for g := 0 to |groups|
      invariant |chosen| == g && forall k :: 0 <= k < g ==> chosen[k] in groups[k]
    {
      var s := ExpandableSnapshot(groups[g]);
      chosen := chosen + [s];
    }
  }

  /** For any number of threads, the chunks of each snapshot, in the order in which the snapshots were given. */
  method ExpandSnapshots<Id(0)>(storage: Storage<Id>, snapshots: seq<Manifest>, threads: int)
    returns (chunkLists: seq<seq<Id>>)
    requires forall s :: s in snapshots ==> storage.Loaded(s)
    ensures |chunkLists| == |snapshots|
    ensures forall i :: 0 <= i < |snapshots| ==> chunkLists[i] == storage.References(snapshots[i])
  {
    var sequenceIndex, groups := GroupSnapshots(snapshots);
    var chosen := Representatives(groups);
    var job := (g: nat) => if g < |chosen| then Some(ExpandChunkHashes(storage, chosen[g])) else None;
    var ok, expanded, runs := RunConcurrently(threads, |groups|, job);
    assert ok by { forall i | 0 <= i < |groups| ensures job(i).Some? { } }
    chunkLists := [];
    for i := 0 to |snapshots|
      invariant |chunkLists| == i && forall k :: 0 <= k < i ==> chunkLists[k] == storage.References(snapshots[k])
    {
      var s := snapshots[i];
      var index := sequenceIndex[SequenceKey(s.chunkSequence)];
      assert job(index) == Some(expanded[index]) && chosen[index] in snapshots;
      KeyIsInjective(chosen[index].chunkSequence, s.chunkSequence);
      var sequences := s.MetadataSequences();
      var list := storage.Ids(sequences[0]) + storage.Ids(sequences[1]) + storage.Ids(sequences[2]);
      chunkLists := chunkLists + [list + expanded[index]];
    }
  }

  // ------------------------------------------------------------------ the chunks to be collected

  /** Everything referenced by snapshots that are, or are not, to be deleted. */
  ghost function Referenced<Id>(storage: Storage<Id>, snapshots: seq<Manifest>, flag: bool): iset<Id> {
    iset s, c | s in snapshots && s.flag == flag && c in storage.References(s) :: c
  }

  ghost predicate AllReferenced<Id>(storage: Storage<Id>, lists: seq<seq<Id>>, snapshots: seq<Manifest>) {
    |lists| == |snapshots| && forall i :: 0 <= i < |lists| ==> lists[i] == storage.References(snapshots[i])
  }

  /** Whether a chunk is in one of the lists. */
  ghost predicate Listed<Id>(lists: seq<seq<Id>>, n: nat, c: Id)
    requires n <= |lists|
  {
    exists i :: 0 <= i < n && c in lists[i]
  }

  /** The snapshots split into those to be deleted and those to be kept. */
  method Divide(snapshots: seq<Manifest>) returns (deleted: seq<Manifest>, kept: seq<Manifest>)
    ensures forall s :: s in deleted <==> s in snapshots && s.flag
    ensures forall s :: s in kept <==> s in snapshots && !s.flag
  {
    deleted, kept := [], [];
    for i := 0 to |snapshots|
      invariant forall s :: s in deleted <==> s in snapshots[..i] && s.flag
      invariant forall s :: s in kept <==> s in snapshots[..i] && !s.flag
    {
      assert snapshots[..i + 1] == snapshots[..i] + [snapshots[i]];
      if snapshots[i].flag { deleted := deleted + [snapshots[i]]; } else { kept := kept + [snapshots[i]]; }
    }
    assert snapshots[..|snapshots|] == snapshots;
  }

  /** Mark the chunks of the deleted snapshots that a kept one refers to. */
  method TargetChunks<Id(==)>(deleted: seq<seq<Id>>, kept: seq<seq<Id>>) returns (targetChunks: map<Id, bool>)
    ensures forall c :: c in targetChunks <==> Listed(deleted, |deleted|, c)
    ensures forall c :: c in targetChunks ==> (targetChunks[c] <==> Listed(kept, |kept|, c))
  {
    targetChunks := map[];
    for i := 0 to |deleted|
      invariant forall c :: c in targetChunks <==> Listed(deleted, i, c)
      invariant forall c :: c in targetChunks ==> !targetChunks[c]
    {
      for j := 0 to |deleted[i]|
        invariant forall c :: c in targetChunks <==> Listed(deleted, i, c) || c in deleted[i][..j]
        invariant forall c :: c in targetChunks ==> !targetChunks[c]
      {
        assert deleted[i][..j + 1] == deleted[i][..j] + [deleted[i][j]];
        targetChunks := targetChunks[deleted[i][j] := false];
      }
      assert deleted[i][..|deleted[i]|] == deleted[i];
    }
    for i := 0 to |kept|
      invariant forall c :: c in targetChunks <==> Listed(deleted, |deleted|, c)
      invariant forall c :: c in targetChunks ==> (targetChunks[c] <==> Listed(kept, i, c))
    {
      for j := 0 to |kept[i]|
        invariant forall c :: c in targetChunks <==> Listed(deleted, |deleted|, c)
        invariant forall c :: c in targetChunks ==> (targetChunks[c] <==> Listed(kept, i, c) || c in kept[i][..j])
      {
        assert kept[i][..j + 1] == kept[i][..j] + [kept[i][j]];
        if kept[i][j] in targetChunks { targetChunks := targetChunks[kept[i][j] := true]; }
      }
      assert kept[i][..|kept[i]|] == kept[i];
    }
  }

  function Concat(lists: seq<seq<Manifest>>): seq<Manifest> {
    if lists == [] then [] else Concat(lists[..|lists| - 1]) + lists[|lists| - 1]
  }

  /** A chunk with this hash holds part of the metadata of the snapshot, or of its files. */
  ghost predicate Needs<Id>(storage: Storage<Id>, s: Manifest, h: Hash) {
    h in s.fileSequence || h in s.chunkSequence || h in s.lengthSequence || h in storage.load(s.chunkSequence)
  }

  ghost predicate NeededBy<Id>(storage: Storage<Id>, snapshots: seq<Manifest>, flag: bool, c: Id) {
    exists s, h :: s in snapshots && s.flag == flag && Needs(storage, s, h) && storage.id(h) == c
  }

  /** These are the chunks that only snapshots to be deleted need. */
  ghost predicate Needless<Id>(storage: Storage<Id>, snapshots: seq<Manifest>, chunks: set<Id>) {
    (forall c :: c in chunks ==> NeededBy(storage, snapshots, true, c) && !NeededBy(storage, snapshots, false, c)) &&
    forall s, h :: s in snapshots && s.flag && Needs(storage, s, h) ==>
      storage.id(h) in chunks || NeededBy(storage, snapshots, false, storage.id(h))
  }

  lemma InIds<Id>(storage: Storage<Id>, hashes: seq<Hash>, c: Id)
    ensures c in storage.Ids(hashes) <==> exists h :: h in hashes && storage.id(h) == c
  {
    if h :| h in hashes && storage.id(h) == c {
      var i :| 0 <= i < |hashes| && hashes[i] == h;
      assert storage.Ids(hashes)[i] == c;
    }
  }

  lemma ReferencesMeans<Id>(storage: Storage<Id>, s: Manifest, c: Id)
    ensures c in storage.References(s) <==> exists h :: Needs(storage, s, h) && storage.id(h) == c
  {
    InIds(storage, s.fileSequence, c);
    InIds(storage, s.chunkSequence, c);
    InIds(storage, s.lengthSequence, c);
    InIds(storage, storage.load(s.chunkSequence), c);
  }

  lemma ReferencedMeans<Id>(storage: Storage<Id>, snapshots: seq<Manifest>, flag: bool, c: Id)
    ensures c in Referenced(storage, snapshots, flag) <==> NeededBy(storage, snapshots, flag, c)
  {
    forall s | s in snapshots
      ensures c in storage.References(s) <==> exists h :: Needs(storage, s, h) && storage.id(h) == c
    {
      ReferencesMeans(storage, s, c);
    }
  }

  lemma NeedlessMeans<Id>(storage: Storage<Id>, snapshots: seq<Manifest>, chunks: set<Id>)
    requires forall c :: c in chunks <==>
      c in Referenced(storage, snapshots, true) && c !in Referenced(storage, snapshots, false)
    ensures Needless(storage, snapshots, chunks)
  {
    forall c, flag ensures c in Referenced(storage, snapshots, flag) <==> NeededBy(storage, snapshots, flag, c) {
      ReferencedMeans(storage, snapshots, flag, c);
    }
    forall s, h | s in snapshots && s.flag && Needs(storage, s, h)
      ensures storage.id(h) in chunks || NeededBy(storage, snapshots, false, storage.id(h))
    {
      assert NeededBy(storage, snapshots, true, storage.id(h));
    }
  }

  /** The latest snapshot of an id is to be deleted. */
  predicate LatestFlagged(list: seq<Manifest>) { list != [] && list[|list| - 1].flag }

  /**
   The chunks to be made fossils: referenced by a snapshot to be deleted, and by none that is kept.  Unless
   exclusive, nothing is done if the latest snapshot of any id is to be deleted. So no chunk that a kept snapshot needs,
   for its metadata or its files, becomes a fossil.
   */
  method PruneNonExhaustive<Id(==,0)>(storage: Storage<Id>, allSnapshots: seq<seq<Manifest>>, exclusive: bool,
                                      threads: int)
    returns (ok: bool, fossilized: set<Id>)
    requires forall s :: s in Concat(allSnapshots) ==> storage.Loaded(s)
    ensures ok <==> exclusive || forall list :: list in allSnapshots ==> !LatestFlagged(list)
    ensures ok ==> forall c ::
      c in fossilized <==>
        c in Referenced(storage, Concat(allSnapshots), true) && c !in Referenced(storage, Concat(allSnapshots), false)
    ensures ok ==> Needless(storage, Concat(allSnapshots), fossilized)
  {
    fossilized := {};
    var deletedSnapshots: seq<Manifest>, keptSnapshots: seq<Manifest> := [], [];
    for i := 0 to |allSnapshots|
      invariant exclusive || forall k :: 0 <= k < i ==> !LatestFlagged(allSnapshots[k])
      invariant forall s :: s in deletedSnapshots <==> s in Concat(allSnapshots[..i]) && s.flag
      invariant forall s :: s in keptSnapshots <==> s in Concat(allSnapshots[..i]) && !s.flag
    {
      if LatestFlagged(allSnapshots[i]) && !exclusive { return false, {}; }
      var d, k := Divide(allSnapshots[i]);
      assert allSnapshots[..i + 1][..i] == allSnapshots[..i];
      deletedSnapshots, keptSnapshots := deletedSnapshots + d, keptSnapshots + k;
    }
    assert allSnapshots[..|allSnapshots|] == allSnapshots;
    ok := true;
    var deleted := ExpandSnapshots(storage, deletedSnapshots, threads);
    var kept := ExpandSnapshots(storage, keptSnapshots, threads);
    var targetChunks := TargetChunks(deleted, kept);
    ListedIsReferenced(storage, Concat(allSnapshots), deletedSnapshots, deleted, true);
    ListedIsReferenced(storage, Concat(allSnapshots), keptSnapshots, kept, false);
    fossilized := set c | c in targetChunks && !targetChunks[c];
    NeedlessMeans(storage, Concat(allSnapshots), fossilized);
  }

  lemma ListedIsReferenced<Id>(storage: Storage<Id>, snapshots: seq<Manifest>, some: seq<Manifest>, lists: seq<seq<Id>>,
                               flag: bool)
    requires (forall s :: s in some <==> s in snapshots && s.flag == flag) && AllReferenced(storage, lists, some)
    ensures forall c :: Listed(lists, |lists|, c) <==> c in Referenced(storage, snapshots, flag)
  {
    forall c ensures Listed(lists, |lists|, c) <==> c in Referenced(storage, snapshots, flag) {
      if Listed(lists, |lists|, c) {
        var i :| 0 <= i < |lists| && c in lists[i];
        assert some[i] in some;
      }
      if c in Referenced(storage, snapshots, flag) {
        var s :| s in snapshots && s.flag == flag && c in storage.References(s);
        assert s in some;
        var i :| 0 <= i < |some| && some[i] == s;
        assert c in lists[i];
      }
    }
  }
}
