/** Every action keeps the invariant of the fossil protocol, hence every legal run is safe. */
module FossilSafety {
  import opened Common
  import opened FossilProtocol

  lemma LatestExists(ts: set<Snapshot>, t: Snapshot)
    requires t in ts
    ensures HasSnapshot(ts, t.id)
    decreases |set u | u in ts && u.id == t.id && u.revision > t.revision|
  {
    if u :| u in ts && u.id == t.id && u.revision > t.revision {
      var above := set v | v in ts && v.id == t.id && v.revision > t.revision;
      var aboveU := set v | v in ts && v.id == u.id && v.revision > u.revision;
      assert aboveU < above by { assert u in above && u !in aboveU; }
      SmallerSet(aboveU, above);
      LatestExists(ts, u);
    } else {
      assert IsLatest(ts, t);
    }
  }

  lemma TickKeeps(s: State, d: nat, extra: nat)
    requires Inv(s, extra)
    ensures Inv(Next(s, Tick(d), extra), extra)
  {
  }

  // ------------------------------------------------------------------ steps of a backup before its snapshot file

  /** What a backup may newly hold: a chunk the storage has, or one of the latest revision of its id. */
  ghost predicate HoldsFairly(s: State, s': State, h: Host)
    requires h in s'.running
  {
    var b := s'.running[h];
    forall c :: c in b.held ==>
      c in s'.chunks || InLatest(s.snapshots, b.id, c) ||
      (h in s.running && s.running[h].id == b.id && s.running[h].began == b.began && c in s.running[h].held)
  }

  ghost predicate BackupStep(s: State, s': State) {
    s' == s.(chunks := s'.chunks, running := s'.running) && s.chunks <= s'.chunks && BackupsOk(s') &&
    forall h :: h in s'.running ==> HoldsFairly(s, s', h)
  }

  lemma UnneededStays(s: State, s': State, c: ChunkId)
    requires BackupStep(s, s') && Unneeded(s, c)
    ensures Unneeded(s', c)
  {
  }

  lemma CollectionStays(s: State, s': State, k: Collection, extra: nat)
    requires BackupStep(s, s') && CollectionOk(s, k, extra)
    ensures CollectionOk(s', k, extra)
  {
  }

  lemma BackupStepKeeps(s: State, s': State, extra: nat)
    requires Inv(s, extra) && BackupStep(s, s')
    ensures Inv(s', extra)
  {
    forall n | n in s'.collections ensures CollectionOk(s', s'.collections[n], extra) {
      CollectionStays(s, s', s.collections[n], extra);
    }
    forall c | Unneeded(s, c) ensures Unneeded(s', c) { UnneededStays(s, s', c); }
    assert PrunerOk(s', extra);
  }

  lemma StartKeeps(s: State, id: string, listChunks: bool, extra: nat)
    requires Inv(s, extra) && Enabled(s, StartBackup(id, listChunks), extra)
    ensures Inv(Next(s, StartBackup(id, listChunks), extra), extra)
  {
    var s' := Next(s, StartBackup(id, listChunks), extra);
    var b := s'.running[HostOf(id)];
    if HasSnapshot(s.snapshots, id) {
      var t := Latest(s.snapshots, id);
      assert b.held == t.chunks && b.base == t.revision;
    } else {
      forall t | t in s.snapshots ensures t.id != id { if t.id == id { LatestExists(s.snapshots, t); } }
    }
    assert BackupOk(s', HostOf(id), b);
    assert BackupsOk(s');
    BackupStepKeeps(s, s', extra);
  }

  lemma CheckKeeps(s: State, h: Host, c: ChunkId, extra: nat)
    requires Inv(s, extra) && Enabled(s, CheckChunk(h, c), extra)
    ensures Inv(Next(s, CheckChunk(h, c), extra), extra)
  {
    var s' := Next(s, CheckChunk(h, c), extra);
    assert BackupOk(s', h, s'.running[h]);
    BackupStepKeeps(s, s', extra);
  }

  lemma UploadKeeps(s: State, h: Host, c: ChunkId, extra: nat)
    requires Inv(s, extra) && Enabled(s, UploadChunk(h, c), extra)
    ensures Inv(Next(s, UploadChunk(h, c), extra), extra)
  {
    var s' := Next(s, UploadChunk(h, c), extra);
    assert BackupOk(s', h, s'.running[h]);
    BackupStepKeeps(s, s', extra);
  }

  lemma EndKeeps(s: State, h: Host, extra: nat)
    requires Inv(s, extra) && Enabled(s, EndFileChunks(h), extra)
    ensures Inv(Next(s, EndFileChunks(h), extra), extra)
  {
    BackupStepKeeps(s, Next(s, EndFileChunks(h), extra), extra);
  }

  lemma AbortKeeps(s: State, h: Host, extra: nat)
    requires Inv(s, extra) && Enabled(s, AbortBackup(h), extra)
    ensures Inv(Next(s, AbortBackup(h), extra), extra)
  {
    BackupStepKeeps(s, Next(s, AbortBackup(h), extra), extra);
  }

  // ------------------------------------------------------------------ writing the snapshot file

  lemma WriteBackupsOk(s: State, h: Host, refs: set<ChunkId>, extra: nat)
    requires Inv(s, extra) && Enabled(s, WriteSnapshot(h, refs), extra)
    ensures BackupsOk(Next(s, WriteSnapshot(h, refs), extra))
  {
    var s' := Next(s, WriteSnapshot(h, refs), extra);
    var w := Written(s.running[h], refs);
    forall g | g in s'.running ensures BackupOk(s', g, s'.running[g]) {
      assert BackupOk(s, g, s.running[g]) && g != HostOf(w.id);
    }
  }

  /** The written snapshot against one settling predecessor: the cache argument of the early break. */
  lemma WrittenChains(s: State, h: Host, refs: set<ChunkId>, extra: nat, k: Collection, f: Snapshot, c: ChunkId)
    requires Inv(s, extra) && Enabled(s, WriteSnapshot(h, refs), extra) && CollectionOk(s, k, extra)
    requires f in s.snapshots && f.id == s.running[h].id && Settles(k, extra, f)
    requires c in refs && c in k.fossils && c !in s.chunks
    ensures c in f.chunks
  {
    var b := s.running[h];
    assert BackupOk(s, h, b);
    assert b.began > k.endTime;
    var t :| IsLatest(s.snapshots, t) && t.id == b.id && c in t.chunks;
    if t != f {
      assert f.revision < t.revision;
    }
  }

  lemma WrittenIsNew(s: State, h: Host, refs: set<ChunkId>, extra: nat, k: Collection)
    requires Inv(s, extra) && Enabled(s, WriteSnapshot(h, refs), extra) && CollectionOk(s, k, extra)
    ensures IsNew(k, Written(s.running[h], refs))
  {
    var b := s.running[h];
    assert BackupOk(s, h, b);
    if k.Last(b.id) > 0 {
      var t :| t in s.snapshots && t.id == b.id && t.revision >= k.Last(b.id);
    }
  }

  lemma WriteLateOk(s: State, h: Host, refs: set<ChunkId>, extra: nat, k: Collection)
    requires Inv(s, extra) && Enabled(s, WriteSnapshot(h, refs), extra) && LateOk(s, k)
    ensures LateOk(Next(s, WriteSnapshot(h, refs), extra), k)
  {
    var s' := Next(s, WriteSnapshot(h, refs), extra);
    assert BackupOk(s, h, s.running[h]);
    forall g, c | g in s'.running && s'.running[g].began > k.endTime && c in s'.running[g].held && c in k.fossils
      ensures c in s'.chunks || InLatest(s'.snapshots, s'.running[g].id, c)
    {
      assert BackupOk(s, g, s.running[g]);
      if c !in s.chunks {
        var t :| IsLatest(s.snapshots, t) && t.id == s.running[g].id && c in t.chunks;
        assert IsLatest(s'.snapshots, t);
      }
    }
  }

  lemma WriteChainOk(s: State, h: Host, refs: set<ChunkId>, extra: nat, k: Collection)
    requires Inv(s, extra) && Enabled(s, WriteSnapshot(h, refs), extra) && CollectionOk(s, k, extra)
    ensures ChainOk(Next(s, WriteSnapshot(h, refs), extra), k, extra)
  {
    var s' := Next(s, WriteSnapshot(h, refs), extra);
    var w := Written(s.running[h], refs);
    assert BackupOk(s, h, s.running[h]);
    forall f, t, c | f in s'.snapshots && t in s'.snapshots && f.id == t.id && f.revision < t.revision &&
                     Settles(k, extra, f) && c in t.chunks && c in k.fossils
      ensures c in s'.chunks || c in f.chunks
    {
      assert f in s.snapshots;
      if t == w && c !in s.chunks {
        WrittenChains(s, h, refs, extra, k, f, c);
      }
    }
  }

  lemma WriteCollectionOk(s: State, h: Host, refs: set<ChunkId>, extra: nat, k: Collection)
    requires Inv(s, extra) && Enabled(s, WriteSnapshot(h, refs), extra) && CollectionOk(s, k, extra)
    ensures CollectionOk(Next(s, WriteSnapshot(h, refs), extra), k, extra)
  {
    var s' := Next(s, WriteSnapshot(h, refs), extra);
    WrittenIsNew(s, h, refs, extra, k);
    WriteLateOk(s, h, refs, extra, k);
    WriteChainOk(s, h, refs, extra, k);
    forall id | k.Last(id) > 0 ensures exists t :: t in s'.snapshots && t.id == id && t.revision >= k.Last(id) {
      var t :| t in s.snapshots && t.id == id && t.revision >= k.Last(id);
      assert t in s'.snapshots;
    }
  }

  lemma WritePrunerOk(s: State, h: Host, refs: set<ChunkId>, extra: nat)
    requires Inv(s, extra) && Enabled(s, WriteSnapshot(h, refs), extra)
    ensures PrunerOk(Next(s, WriteSnapshot(h, refs), extra), extra)
  {
    var s' := Next(s, WriteSnapshot(h, refs), extra);
    assert BackupOk(s, h, s.running[h]);
    forall c | Unneeded(s, c) ensures Unneeded(s', c) {}
    if s.pruner.Removing? {
      forall t | t in s.pruner.toRemove ensures Superseded(t, s'.snapshots - s.pruner.toRemove) {
        assert Superseded(t, s.snapshots - s.pruner.toRemove);
      }
    }
  }

  lemma WriteKeeps(s: State, h: Host, refs: set<ChunkId>, extra: nat)
    requires Inv(s, extra) && Enabled(s, WriteSnapshot(h, refs), extra)
    ensures Inv(Next(s, WriteSnapshot(h, refs), extra), extra)
  {
    var s' := Next(s, WriteSnapshot(h, refs), extra);
    assert BackupOk(s, h, s.running[h]);
    assert WellNamed(s') && Safe(s');
    WriteBackupsOk(s, h, refs, extra);
    forall n | n in s'.collections ensures CollectionOk(s', s'.collections[n], extra) {
      WriteCollectionOk(s, h, refs, extra, s.collections[n]);
    }
    WritePrunerOk(s, h, refs, extra);
  }

  // ------------------------------------------------------------------ the listing decides

  /** The first settling snapshot of an id is consulted. */
  lemma FirstSettling(k: Collection, extra: nat, listing: set<Snapshot>, f: Snapshot) returns (first: Snapshot)
    requires f in listing && Settles(k, extra, f)
    ensures Consulted(k, extra, listing, first) && Settles(k, extra, first)
    ensures first.id == f.id && first.revision <= f.revision
    decreases f.revision
  {
    if g :| g in listing && g.id == f.id && g.revision < f.revision && Settles(k, extra, g) {
      first := FirstSettling(k, extra, listing, g);
    } else {
      first := f;
    }
  }

  /** A listed snapshot referencing a fossil is consulted, or covered by the consulted one before the break. */
  lemma ListedIsCovered(s: State, k: Collection, extra: nat, t: Snapshot, c: ChunkId)
    requires CollectionOk(s, k, extra) && !HasGhost(k, s.snapshots)
    requires t in s.snapshots && c in t.chunks && c in k.fossils && c !in s.chunks
    ensures c in NewChunks(k, extra, s.snapshots)
  {
    assert IsNew(k, t);
    if !Consulted(k, extra, s.snapshots, t) {
      var f :| f in s.snapshots && f.id == t.id && f.revision < t.revision && Settles(k, extra, f);
      var first := FirstSettling(k, extra, s.snapshots, f);
      assert c in first.chunks;
    }
  }

  lemma RunningIsCovered(s: State, k: Collection, extra: nat, h: Host, c: ChunkId)
    requires CollectionOk(s, k, extra) && !HasGhost(k, s.snapshots) && BackupsOk(s) && h in s.running
    requires HostSettled(k, extra, s.snapshots, h) || s.running[h].began > k.endTime
    requires c in s.running[h].held && c in k.fossils && c !in s.chunks
    ensures c in NewChunks(k, extra, s.snapshots)
  {
    assert BackupOk(s, h, s.running[h]);
    assert s.running[h].began > k.endTime;
    var t :| IsLatest(s.snapshots, t) && t.id == s.running[h].id && c in t.chunks;
    ListedIsCovered(s, k, extra, t, c);
  }

  lemma ListKeeps(s: State, extra: nat)
    requires Inv(s, extra) && Enabled(s, ListSnapshots, extra)
    ensures Inv(Next(s, ListSnapshots, extra), extra)
  {
    var s' := Next(s, ListSnapshots, extra);
    var inFlight := s'.pruner.inFlight;
    forall n | n in s.collections ensures DecisionOk(s', s.collections[n], extra, s.snapshots, inFlight) {
      var k := s.collections[n];
      assert CollectionOk(s, k, extra);
      if !HasGhost(k, s.snapshots) && InFlightOk(k, extra, s.snapshots, inFlight) {
        forall c | c in k.fossils && c !in NewChunks(k, extra, s.snapshots) ensures Unneeded(s', c) {
          if c !in s.chunks {
            forall t | t in s.snapshots ensures c !in t.chunks {
              if c in t.chunks { ListedIsCovered(s, k, extra, t, c); }
            }
            forall h | h in s.running ensures c !in s.running[h].held {
              if c in s.running[h].held { RunningIsCovered(s, k, extra, h, c); }
            }
          }
        }
      }
    }
    assert CollectionsOk(s', extra);
  }

  /** Dropping a collection leaves what is said about the others as it is. */
  lemma CollectionsDrop(s: State, n: nat, p: Pruner, extra: nat, listing: set<Snapshot>, inFlight: map<Host, int>)
    requires CollectionsOk(s, extra) && BackupsOk(s) && DecisionsOk(s, extra, listing, inFlight)
    ensures var s' := s.(collections := s.collections - {n}, pruner := p);
      CollectionsOk(s', extra) && BackupsOk(s') && DecisionsOk(s', extra, listing, inFlight)
  {
    var s' := s.(collections := s.collections - {n}, pruner := p);
    forall m | m in s'.collections ensures CollectionOk(s', s'.collections[m], extra) {
      assert CollectionOk(s, s.collections[m], extra);
    }
    forall h | h in s'.running ensures BackupOk(s', h, s'.running[h]) { assert BackupOk(s, h, s.running[h]); }
    forall m | m in s'.collections ensures DecisionOk(s', s'.collections[m], extra, listing, inFlight) {
      assert DecisionOk(s, s.collections[m], extra, listing, inFlight);
    }
  }

  lemma DiscardKeeps(s: State, n: nat, extra: nat)
    requires Inv(s, extra) && Enabled(s, DiscardCollection(n), extra)
    ensures Inv(Next(s, DiscardCollection(n), extra), extra)
  {
    CollectionsDrop(s, n, s.pruner, extra, s.pruner.listing, s.pruner.inFlight);
  }

  // ------------------------------------------------------------------ deleting fossils

  /** What the pruner does next does not matter to what is said about the storage. */
  lemma PrunerMoves(s: State, p: Pruner, extra: nat, listing: set<Snapshot>, inFlight: map<Host, int>)
    requires CollectionsOk(s, extra) && BackupsOk(s) && DecisionsOk(s, extra, listing, inFlight)
    ensures var s' := s.(pruner := p);
      CollectionsOk(s', extra) && BackupsOk(s') && DecisionsOk(s', extra, listing, inFlight) &&
      forall c :: Unneeded(s, c) ==> Unneeded(s', c)
  {
    var s' := s.(pruner := p);
    forall m | m in s'.collections ensures CollectionOk(s', s'.collections[m], extra) {
      assert CollectionOk(s, s.collections[m], extra);
    }
    forall h | h in s'.running ensures BackupOk(s', h, s'.running[h]) { assert BackupOk(s, h, s.running[h]); }
    forall m | m in s'.collections ensures DecisionOk(s', s'.collections[m], extra, listing, inFlight) {
      assert DecisionOk(s, s.collections[m], extra, listing, inFlight);
    }
  }

  lemma BeginDeleteKeeps(s: State, n: nat, extra: nat)
    requires Inv(s, extra) && Enabled(s, BeginDelete(n), extra) && NoSpanningBackup(s, BeginDelete(n))
    ensures Inv(Next(s, BeginDelete(n), extra), extra)
  {
    var k, listing, inFlight := s.collections[n], s.pruner.listing, s.pruner.inFlight;
    assert InFlightOk(k, extra, listing, inFlight);
    assert DecisionOk(s, k, extra, listing, inFlight);
    PrunerMoves(s, Next(s, BeginDelete(n), extra).pruner, extra, listing, inFlight);
  }

  lemma ProcessKeeps(s: State, c: ChunkId, extra: nat)
    requires Inv(s, extra) && Enabled(s, ProcessFossil(c), extra)
    ensures Inv(Next(s, ProcessFossil(c), extra), extra)
  {
    var s' := Next(s, ProcessFossil(c), extra);
    assert s.chunks <= s'.chunks;
    forall x | x in s.chunks + s.fossils
      ensures x in s'.chunks + s'.fossils || (x == c && Unneeded(s, c) && c !in s.chunks) {}
    assert Safe(s');
    forall h | h in s'.running ensures BackupOk(s', h, s'.running[h]) { assert BackupOk(s, h, s.running[h]); }
    forall n | n in s'.collections ensures CollectionOk(s', s'.collections[n], extra) {
      assert CollectionOk(s, s.collections[n], extra);
    }
    forall x | Unneeded(s, x) ensures Unneeded(s', x) {}
    assert PrunerOk(s', extra);
  }

  lemma FinishDeleteKeeps(s: State, extra: nat)
    requires Inv(s, extra) && Enabled(s, FinishDelete, extra)
    ensures Inv(Next(s, FinishDelete, extra), extra)
  {
    var listing, inFlight := s.pruner.listing, s.pruner.inFlight;
    CollectionsDrop(s, s.pruner.number, Listed(listing, inFlight), extra, listing, inFlight);
  }

  // ------------------------------------------------------------------ collecting fossils

  lemma BeginCollectKeeps(s: State, flagged: set<Snapshot>, extra: nat)
    requires Inv(s, extra) && Enabled(s, BeginCollect(flagged), extra)
    ensures Inv(Next(s, BeginCollect(flagged), extra), extra)
  {
    var s' := Next(s, BeginCollect(flagged), extra);
    var listing := s.pruner.listing;
    forall t | t in flagged ensures Superseded(t, listing - flagged) {
      LatestExists(listing, t);
      var u := Latest(listing, t.id);
      assert u !in flagged && u.revision != t.revision;
    }
    forall t | t in listing && t !in flagged ensures t.chunks !! s'.pruner.targets + s'.pruner.collected {
      assert t in listing - flagged;
    }
    assert BackupsOk(s') && CollectionsOk(s', extra);
  }

  lemma FossilizedCollectionOk(s: State, c: ChunkId, extra: nat, k: Collection)
    requires Enabled(s, Fossilize(c), extra) && CollectionOk(s, k, extra)
    requires c in s.chunks && c in k.fossils ==> HarmlessFor(s, k, c, extra)
    ensures CollectionOk(Next(s, Fossilize(c), extra), k, extra)
  {
  }

  lemma FossilizeKeeps(s: State, c: ChunkId, extra: nat)
    requires Inv(s, extra) && Enabled(s, Fossilize(c), extra) && Harmless(s, Fossilize(c), extra)
    ensures Inv(Next(s, Fossilize(c), extra), extra)
  {
    var s' := Next(s, Fossilize(c), extra);
    forall n | n in s'.collections ensures CollectionOk(s', s'.collections[n], extra) {
      FossilizedCollectionOk(s, c, extra, s.collections[n]);
    }
    forall h | h in s'.running ensures BackupOk(s', h, s'.running[h]) { assert BackupOk(s, h, s.running[h]); }
  }

  lemma SavedIsOk(s: State, n: nat, extra: nat)
    requires Inv(s, extra) && Enabled(s, SaveCollection(n), extra)
    ensures var s' := Next(s, SaveCollection(n), extra); n in s'.collections ==>
      CollectionOk(s', s'.collections[n], extra)
  {
    var s' := Next(s, SaveCollection(n), extra);
    if n in s'.collections {
      var k := s'.collections[n];
      var listing := s.pruner.listing;
      forall id | k.Last(id) > 0 ensures exists t :: t in s'.snapshots && t.id == id && t.revision >= k.Last(id) {
        var t :| t in listing && IsLatest(listing, t) && t.id == id;
        assert t in s'.snapshots;
      }
      forall t, c | t in s.snapshots && !IsNew(k, t) && c in t.chunks && c in k.fossils ensures t.Name() in k.deleted {
        assert t in listing;
        assert t in s.pruner.flagged;
      }
    }
  }

  lemma SaveKeeps(s: State, n: nat, extra: nat)
    requires Inv(s, extra) && Enabled(s, SaveCollection(n), extra)
    ensures Inv(Next(s, SaveCollection(n), extra), extra)
  {
    var s' := Next(s, SaveCollection(n), extra);
    SavedIsOk(s, n, extra);
    forall m | m in s'.collections ensures CollectionOk(s', s'.collections[m], extra) {
      if m != n { assert CollectionOk(s, s.collections[m], extra); }
    }
    forall t | t in s.pruner.flagged ensures Superseded(t, s'.snapshots - s.pruner.flagged) {
      assert Superseded(t, s.pruner.listing - s.pruner.flagged);
    }
    assert BackupsOk(s');
  }

  /** The latest revision of an id is never among the removed ones, so it stays the latest. */
  lemma RemoveBackupsOk(s: State, t: Snapshot, extra: nat)
    requires Inv(s, extra) && Enabled(s, RemoveSnapshot(t), extra)
    ensures BackupsOk(Next(s, RemoveSnapshot(t), extra))
    ensures forall c, id :: InLatest(s.snapshots, id, c) ==>
      InLatest(Next(s, RemoveSnapshot(t), extra).snapshots, id, c)
  {
    var s' := Next(s, RemoveSnapshot(t), extra);
    assert Superseded(t, s.snapshots - s.pruner.toRemove);
    forall h | h in s'.running ensures BackupOk(s', h, s'.running[h]) { assert BackupOk(s, h, s.running[h]); }
    forall c, id | InLatest(s.snapshots, id, c) ensures InLatest(s'.snapshots, id, c) {
      var v :| IsLatest(s.snapshots, v) && v.id == id && c in v.chunks;
      assert IsLatest(s'.snapshots, v);
    }
  }

  lemma RemoveReachOk(s: State, t: Snapshot, extra: nat, k: Collection)
    requires Inv(s, extra) && Enabled(s, RemoveSnapshot(t), extra) && ReachOk(s, k)
    ensures ReachOk(Next(s, RemoveSnapshot(t), extra), k)
  {
    var s' := Next(s, RemoveSnapshot(t), extra);
    var u :| u in s.snapshots - s.pruner.toRemove && u.id == t.id && t.revision < u.revision;
    forall id | k.Last(id) > 0 ensures exists v :: v in s'.snapshots && v.id == id && v.revision >= k.Last(id) {
      var v :| v in s.snapshots && v.id == id && v.revision >= k.Last(id);
      assert (if v == t then u else v) in s'.snapshots;
    }
  }

  lemma RemoveKeeps(s: State, t: Snapshot, extra: nat)
    requires Inv(s, extra) && Enabled(s, RemoveSnapshot(t), extra)
    ensures Inv(Next(s, RemoveSnapshot(t), extra), extra)
  {
    var s' := Next(s, RemoveSnapshot(t), extra);
    RemoveBackupsOk(s, t, extra);
    forall n | n in s'.collections ensures CollectionOk(s', s'.collections[n], extra) {
      assert CollectionOk(s, s.collections[n], extra);
      RemoveReachOk(s, t, extra, s.collections[n]);
    }
    forall v | v in s'.pruner.toRemove ensures Superseded(v, s'.snapshots - s'.pruner.toRemove) {
      assert Superseded(v, s.snapshots - s.pruner.toRemove);
    }
  }

  // ------------------------------------------------------------------ runs

  lemma StepKeeps(s: State, a: Action, extra: nat)
    requires Inv(s, extra) && Enabled(s, a, extra) && NoSpanningBackup(s, a) && Harmless(s, a, extra)
    ensures Inv(Next(s, a, extra), extra)
  {
    match a
    case Tick(d) => TickKeeps(s, d, extra);
    case StartBackup(id, listChunks) => StartKeeps(s, id, listChunks, extra);
    case CheckChunk(h, c) => CheckKeeps(s, h, c, extra);
    case UploadChunk(h, c) => UploadKeeps(s, h, c, extra);
    case EndFileChunks(h) => EndKeeps(s, h, extra);
    case WriteSnapshot(h, refs) => WriteKeeps(s, h, refs, extra);
    case AbortBackup(h) => AbortKeeps(s, h, extra);
    case ListSnapshots => ListKeeps(s, extra);
    case DiscardCollection(n) => DiscardKeeps(s, n, extra);
    case BeginDelete(n) => BeginDeleteKeeps(s, n, extra);
    case ProcessFossil(c) => ProcessKeeps(s, c, extra);
    case FinishDelete => FinishDeleteKeeps(s, extra);
    case BeginCollect(flagged) => BeginCollectKeeps(s, flagged, extra);
    case Fossilize(c) => FossilizeKeeps(s, c, extra);
    case SaveCollection(n) => SaveKeeps(s, n, extra);
    case RemoveSnapshot(t) => RemoveKeeps(s, t, extra);
    case StopPruner =>
  }

  lemma {:induction false} RunKeeps(s: State, run: seq<Action>, extra: nat)
    requires Inv(s, extra) && Legal(s, run, extra) && AlwaysHarmless(s, run, extra)
    ensures Inv(Exec(s, run, extra), extra)
    decreases |run|
  {
    if run != [] {
      StepKeeps(s, run[0], extra);
      RunKeeps(Next(s, run[0], extra), run[1..], extra);
    }
  }

  /**
   Fossil safety and crash tolerance: from a healthy storage, after any interleaving of any number
   of backups with collecting and deleting runs of the pruner, each of which may stop anywhere,
   every chunk referenced by a completed, undeleted snapshot is in the storage.
   */
  lemma FossilSafety(s: State, run: seq<Action>, strongConsistent: bool)
    requires Init(s) && Legal(s, run, ExtraTime(strongConsistent))
    requires AlwaysHarmless(s, run, ExtraTime(strongConsistent))
    ensures Safe(Exec(s, run, ExtraTime(strongConsistent)))
  {
    RunKeeps(s, run, ExtraTime(strongConsistent));
  }

  // ------------------------------------------------------------------ what the pruner can check

  lemma {:induction false} UnrecordedIsHarmless(s: State, run: seq<Action>, extra: nat)
    requires Legal(s, run, extra) && NeverRecorded(s, run, extra)
    ensures AlwaysHarmless(s, run, extra)
    decreases |run|
  {
    if run != [] { UnrecordedIsHarmless(Next(s, run[0], extra), run[1..], extra); }
  }

  /** It is enough never to rename a chunk that a saved collection records. */
  lemma UnrecordedIsSafe(s: State, run: seq<Action>, strongConsistent: bool)
    requires Init(s) && Legal(s, run, ExtraTime(strongConsistent)) && NeverRecorded(s, run, ExtraTime(strongConsistent))
    ensures Safe(Exec(s, run, ExtraTime(strongConsistent)))
  {
    UnrecordedIsHarmless(s, run, ExtraTime(strongConsistent));
    FossilSafety(s, run, strongConsistent);
  }

  /** The pruner begins to collect only when no earlier collection is left to be processed. */
  ghost predicate CollectsAlone(s: State, run: seq<Action>, extra: nat)
    requires Legal(s, run, extra)
    decreases |run|
  {
    run == [] ||
    ((run[0].BeginCollect? ==> s.collections == map[]) && CollectsAlone(Next(s, run[0], extra), run[1..], extra))
  }

  lemma {:induction false} AloneNeverRecords(s: State, run: seq<Action>, extra: nat)
    requires Legal(s, run, extra) && CollectsAlone(s, run, extra) && (s.pruner.Collecting? ==> s.collections == map[])
    ensures NeverRecorded(s, run, extra)
    decreases |run|
  {
    if run != [] { AloneNeverRecords(Next(s, run[0], extra), run[1..], extra); }
  }

  /** Then nothing else is asked of the pruner. */
  lemma OneCollectionIsSafe(s: State, run: seq<Action>, strongConsistent: bool)
    requires Init(s) && Legal(s, run, ExtraTime(strongConsistent)) && CollectsAlone(s, run, ExtraTime(strongConsistent))
    ensures Safe(Exec(s, run, ExtraTime(strongConsistent)))
  {
    AloneNeverRecords(s, run, ExtraTime(strongConsistent));
    UnrecordedIsSafe(s, run, strongConsistent);
  }
}
