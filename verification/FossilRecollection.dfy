/**
 The guard of the safety theorem is needed.  The source renames a chunk to a fossil even when an
 older collection that is still saved records the same chunk; the older collection then deletes the
 fossil on the evidence of snapshots that are older than the renaming.  So it does whenever the guard
 is violated, unless a snapshot that cannot be pruned references the chunk.
 */
module FossilRecollection {
  import opened Common
  import opened FossilProtocol
  import opened FossilSafety

  /**
   A pruner that collects has processed every collection that could be processed; the collect-only option does not
   ask for it.
   */
  ghost predicate PlainStep(s: State, a: Action, extra: nat) {
    a.BeginCollect? && s.pruner.Listed? ==>
      forall n :: n in s.collections ==> !Deletable(s.collections[n], extra, s.pruner.listing, s.now)
  }

  ghost predicate PlainRun(s: State, run: seq<Action>, extra: nat)
    requires Legal(s, run, extra)
    decreases |run|
  {
    run == [] || (PlainStep(s, run[0], extra) && PlainRun(Next(s, run[0], extra), run[1..], extra))
  }

  /** There is a run, plain if so asked. */
  ghost predicate Reaches(s: State, s': State, extra: nat, plain: bool) {
    exists run :: Legal(s, run, extra) && (plain ==> PlainRun(s, run, extra)) && Exec(s, run, extra) == s'
  }

  lemma {:induction false} ExecAppend(s: State, run: seq<Action>, a: Action, extra: nat)
    requires Legal(s, run, extra)
    requires Enabled(Exec(s, run, extra), a, extra) && NoSpanningBackup(Exec(s, run, extra), a)
    ensures Legal(s, run + [a], extra) && Exec(s, run + [a], extra) == Next(Exec(s, run, extra), a, extra)
    ensures PlainRun(s, run, extra) && PlainStep(Exec(s, run, extra), a, extra) ==> PlainRun(s, run + [a], extra)
    decreases |run|
  {
    if run == [] {
      assert [a][1..] == [];
    } else {
      assert (run + [a])[1..] == run[1..] + [a];
      ExecAppend(Next(s, run[0], extra), run[1..], a, extra);
    }
  }

  /** One more action of a run. */
  lemma Then(s0: State, s: State, a: Action, s': State, extra: nat, plain: bool)
    requires Reaches(s0, s, extra, plain) && Enabled(s, a, extra) && NoSpanningBackup(s, a) && Next(s, a, extra) == s'
    requires plain ==> PlainStep(s, a, extra)
    ensures Reaches(s0, s', extra, plain)
  {
    var run :| Legal(s0, run, extra) && (plain ==> PlainRun(s0, run, extra)) && Exec(s0, run, extra) == s;
    ExecAppend(s0, run, a, extra);
  }

  lemma Stays(s: State, extra: nat)
    ensures Reaches(s, s, extra, true) && Reaches(s, s, extra, false)
  {
    assert Legal(s, [], extra) && Exec(s, [], extra) == s && PlainRun(s, [], extra);
  }

  // ------------------------------------------------------------------ a violated guard loses the chunk

  ghost predicate LosesFrom(s: State, extra: nat, plain: bool) {
    exists run :: Legal(s, run, extra) && (plain ==> PlainRun(s, run, extra)) && !Safe(Exec(s, run, extra))
  }

  /** A snapshot references the chunk, or a backup holds it and is not about to upload it again. */
  ghost predicate Wanted(s: State, c: ChunkId) {
    (exists t :: t in s.snapshots && c in t.chunks) ||
    (exists h :: h in s.running && c in s.running[h].held && c !in s.running[h].uploading)
  }

  /** The collection can be processed now, and does not resurrect the chunk. */
  ghost predicate Condemns(s: State, k: Collection, c: ChunkId, extra: nat) {
    c in k.fossils && c !in NewChunks(k, extra, s.snapshots) && !HasGhost(k, s.snapshots) &&
    Deletable(k, extra, s.snapshots, s.now) &&
    forall h :: h in s.running && (Dormant(s.snapshots, h, s.now) || !HasHost(s.snapshots, h)) ==>
      s.running[h].began > k.endTime
  }

  /** Once a wanted chunk is only a fossil, such a collection deletes it. */
  lemma CondemnedIsLost(s0: State, s: State, n: nat, c: ChunkId, extra: nat, plain: bool)
    requires Reaches(s0, s, extra, plain) && s.pruner.Idle? && n in s.collections
    requires Condemns(s, s.collections[n], c, extra) && c !in s.chunks && Wanted(s, c)
    ensures LosesFrom(s0, extra, plain)
  {
    var k, inFlight := s.collections[n], map h | h in s.running :: s.running[h].began;
    var s1 := s.(pruner := Listed(s.snapshots, inFlight));
    Then(s0, s, ListSnapshots, s1, extra, plain);
    var s2 := Next(s1, BeginDelete(n), extra);
    Then(s0, s1, BeginDelete(n), s2, extra, plain);
    var s3 := Next(s2, ProcessFossil(c), extra);
    Then(s0, s2, ProcessFossil(c), s3, extra, plain);
    assert !s3.Exists(c) && s3.snapshots == s.snapshots && s3.running == s.running;
    if t :| t in s.snapshots && c in t.chunks {
      assert !Safe(s3);
    } else {
      var h :| h in s.running && c in s.running[h].held && c !in s.running[h].uploading;
      HolderWrites(s0, s3, h, c, extra, plain);
    }
  }

  /** A backup that holds a missing chunk completes with a reference to it. */
  lemma HolderWrites(s0: State, s: State, h: Host, c: ChunkId, extra: nat, plain: bool)
    requires Reaches(s0, s, extra, plain) && h in s.running
    requires c in s.running[h].held && c !in s.running[h].uploading && !s.Exists(c)
    ensures LosesFrom(s0, extra, plain)
    decreases |s.running[h].uploading|
  {
    if u :| u in s.running[h].uploading {
      var s1 := Next(s, UploadChunk(h, u), extra);
      Then(s0, s, UploadChunk(h, u), s1, extra, plain);
      HolderWrites(s0, s1, h, c, extra, plain);
    } else {
      var s1 := Next(s, EndFileChunks(h), extra);
      Then(s0, s, EndFileChunks(h), s1, extra, plain);
      var s2 := Next(s1, WriteSnapshot(h, {c}), extra);
      Then(s0, s1, WriteSnapshot(h, {c}), s2, extra, plain);
      assert Written(s1.running[h], {c}) in s2.snapshots;
      assert !Safe(s2);
    }
  }

  /** After eight days without a snapshot every host is dormant. */
  lemma AllDormant(ts: set<Snapshot>, now: int)
    requires forall t :: t in ts ==> 0 < t.endTime <= now
    ensures forall h :: HasHost(ts, h) ==> Dormant(ts, h, now + 8 * SECONDS_IN_DAY)
  {
    forall h | HasHost(ts, h) ensures Dormant(ts, h, now + 8 * SECONDS_IN_DAY) {
      var t :| t in ts && HostOf(t.id) == h;
      LatestExists(ts, t);
    }
  }

  /** The collection is not discarded, and every backup in progress has begun after it. */
  ghost predicate Outlasts(s: State, k: Collection) {
    !HasGhost(k, s.snapshots) && (forall h :: h in s.running ==> s.running[h].began > k.endTime) &&
    forall t :: t in s.snapshots ==> 0 < t.endTime <= s.now
  }

  /** A wanted chunk that is only a fossil is lost in time, if no new snapshot of the collection references it. */
  lemma LostInTime(s0: State, s: State, n: nat, c: ChunkId, extra: nat, plain: bool)
    requires Reaches(s0, s, extra, plain) && s.pruner.Idle? && n in s.collections && Outlasts(s, s.collections[n])
    requires c in s.collections[n].fossils && c !in NewChunks(s.collections[n], extra, s.snapshots)
    requires c !in s.chunks && Wanted(s, c)
    ensures LosesFrom(s0, extra, plain)
  {
    var later := Next(s, Tick(8 * SECONDS_IN_DAY), extra);
    Then(s0, s, Tick(8 * SECONDS_IN_DAY), later, extra, plain);
    AllDormant(s.snapshots, s.now);
    CondemnedIsLost(s0, later, n, c, extra, plain);
  }

  /**
   The guard of the safety theorem cannot be had for less: if renaming a chunk violates it for a saved collection that
   outlasts the renaming, and no new snapshot makes that collection resurrect the chunk, then some run of plain prunes
   loses the chunk after the renaming.
   */
  lemma HarmfulLoses(s: State, c: ChunkId, n: nat, extra: nat)
    requires Enabled(s, Fossilize(c), extra) && c in s.chunks && n in s.collections && Outlasts(s, s.collections[n])
    requires !HarmlessFor(s, s.collections[n], c, extra) && c in s.collections[n].fossils
    requires c !in NewChunks(s.collections[n], extra, s.snapshots)
    requires forall h :: h in s.running ==> c !in s.running[h].uploading
    ensures LosesFrom(Next(s, Fossilize(c), extra), extra, true)
  {
    var s0 := Next(s, Fossilize(c), extra);
    Stays(s0, extra);
    var s1 := Next(s0, StopPruner, extra);
    Then(s0, s0, StopPruner, s1, extra, true);
    LostInTime(s0, s1, n, c, extra, true);
  }

  // ------------------------------------------------------------------ new snapshots that can be pruned

  lemma FossilizeAll(s0: State, s: State, extra: nat) returns (s': State)
    requires Reaches(s0, s, extra, false) && s.pruner.Collecting? && s.pruner.targets <= s.chunks + s.fossils
    ensures Reaches(s0, s', extra, false) && s'.chunks <= s.chunks && s'.pruner.Collecting? && s'.pruner.targets == {}
    ensures s' == s.(chunks := s'.chunks, fossils := s'.fossils, pruner := s'.pruner)
    ensures s'.pruner.flagged == s.pruner.flagged
    decreases |s.pruner.targets|
  {
    if d :| d in s.pruner.targets {
      var next := Next(s, Fossilize(d), extra);
      Then(s0, s, Fossilize(d), next, extra, false);
      SmallerSet(next.pruner.targets, s.pruner.targets);
      s' := FossilizeAll(s0, next, extra);
    } else {
      s' := s;
    }
  }

  lemma RemoveAll(s0: State, s: State, extra: nat) returns (s': State)
    requires Reaches(s0, s, extra, false) && s.pruner.Removing?
    ensures Reaches(s0, s', extra, false)
    ensures s' == s.(snapshots := s.snapshots - s.pruner.toRemove, pruner := Removing({}))
    decreases |s.pruner.toRemove|
  {
    if t :| t in s.pruner.toRemove {
      var next := Next(s, RemoveSnapshot(t), extra);
      Then(s0, s, RemoveSnapshot(t), next, extra, false);
      SmallerSet(next.pruner.toRemove, s.pruner.toRemove);
      s' := RemoveAll(s0, next, extra);
      assert s.snapshots - {t} - next.pruner.toRemove == s.snapshots - s.pruner.toRemove;
    } else {
      s' := s;
      assert s.snapshots - {} == s.snapshots;
    }
  }

  lemma FreshNumber(numbers: set<nat>) returns (m: nat)
    ensures forall n :: n in numbers ==> n < m
    decreases |numbers|
  {
    m := 0;
    if n :| n in numbers {
      var rest := numbers - {n};
      SmallerSet(rest, numbers);
      m := FreshNumber(rest);
      assert numbers == rest + {n};
      if m <= n { m := n + 1; }
    }
  }

  /** A prune that only collects deletes the flagged snapshots, if none of them is a latest one. */
  lemma PruneAway(s0: State, s: State, flagged: set<Snapshot>, extra: nat) returns (s': State)
    requires Reaches(s0, s, extra, false) && s.pruner.Idle? && Safe(s)
    requires flagged <= s.snapshots && forall t :: t in flagged ==> !IsLatest(s.snapshots, t)
    ensures Reaches(s0, s', extra, false) && s'.pruner.Idle? && s'.chunks <= s.chunks
    ensures s'.now == s.now && s'.running == s.running && s'.snapshots == s.snapshots - flagged
    ensures forall n :: n in s.collections ==> n in s'.collections && s'.collections[n] == s.collections[n]
  {
    var s1 := Next(s, ListSnapshots, extra);
    Then(s0, s, ListSnapshots, s1, extra, false);
    var s2 := Next(s1, BeginCollect(flagged), extra);
    Then(s0, s1, BeginCollect(flagged), s2, extra, false);
    forall d | d in s2.pruner.targets ensures d in s2.chunks + s2.fossils {
      var t :| t in flagged && d in t.chunks;
    }
    var s3 := FossilizeAll(s0, s2, extra);
    var m := FreshNumber(s3.collections.Keys);
    var s4 := Next(s3, SaveCollection(m), extra);
    Then(s0, s3, SaveCollection(m), s4, extra, false);
    var s5 := RemoveAll(s0, s4, extra);
    s' := Next(s5, StopPruner, extra);
    Then(s0, s5, StopPruner, s', extra, false);
  }

  /** A host gives up what it is doing, and backs up one of its ids without the chunk. */
  lemma Renew(s0: State, s: State, t: Snapshot, extra: nat) returns (s': State)
    requires Reaches(s0, s, extra, false) && IsLatest(s.snapshots, t)
    ensures Reaches(s0, s', extra, false)
    ensures s' == s.(running := s.running - {HostOf(t.id)},
                     snapshots := s.snapshots + {Snapshot(t.id, t.revision + 1, s.now, {})})
  {
    var h, s1 := HostOf(t.id), s;
    if h in s.running {
      s1 := Next(s, AbortBackup(h), extra);
      Then(s0, s, AbortBackup(h), s1, extra, false);
    }
    assert s1.running == s.running - {h};
    var s2 := Next(s1, StartBackup(t.id, false), extra);
    Then(s0, s1, StartBackup(t.id, false), s2, extra, false);
    var s3 := Next(s2, EndFileChunks(h), extra);
    Then(s0, s2, EndFileChunks(h), s3, extra, false);
    s' := Next(s3, WriteSnapshot(h, {}), extra);
    Then(s0, s3, WriteSnapshot(h, {}), s', extra, false);
    assert s3.running - {h} == s.running - {h};
  }

  /** A revision of the id of `f` after it. */
  predicate Behind(f: Option<Snapshot>, t: Snapshot) {
    f.Some? && t.id == f.value.id && t.revision > f.value.revision
  }

  /** The new snapshots by which the collection may resurrect the chunk; those behind `f` are not consulted. */
  function Saviours(ts: set<Snapshot>, k: Collection, c: ChunkId, f: Option<Snapshot>): set<Snapshot> {
    set t | t in ts && IsNew(k, t) && c in t.chunks && !Behind(f, t)
  }

  /** No snapshot of the collection comes back, not even under its name. */
  ghost predicate OldNames(k: Collection) {
    forall name: Key :: name in k.deleted ==> name.1 <= k.Last(name.0)
  }

  /** Every collection that is saved is like that. */
  lemma SavedNamesAreOld(s: State, n: nat, extra: nat)
    requires Inv(s, extra) && Enabled(s, SaveCollection(n), extra)
    ensures var s' := Next(s, SaveCollection(n), extra); n in s'.collections ==> OldNames(s'.collections[n])
  {
    forall t | t in s.pruner.flagged
      ensures t.id in LastRevisions(s.pruner.listing) && t.revision <= LastRevisions(s.pruner.listing)[t.id]
    {
      LatestExists(s.pruner.listing, t);
    }
  }

  /** The saviours that are latest snapshots. */
  ghost function LastSaviours(ts: set<Snapshot>, k: Collection, c: ChunkId, f: Option<Snapshot>): set<Snapshot> {
    set t | t in Saviours(ts, k, c, f) && IsLatest(ts, t)
  }

  ghost predicate NoneOf(h: Host, ts: set<Snapshot>) {
    forall t :: t in ts ==> HostOf(t.id) != h
  }

  lemma OneFewer(ts: set<Snapshot>, t: Snapshot, w: Snapshot, k: Collection, c: ChunkId, f: Option<Snapshot>)
    requires t in LastSaviours(ts, k, c, f) && w.id == t.id && w.revision > t.revision && w.chunks == {}
    ensures LastSaviours(ts + {w}, k, c, f) < LastSaviours(ts, k, c, f)
  {
    assert w in ts + {w};
    assert t !in LastSaviours(ts + {w}, k, c, f);
  }

  /** Every id whose latest snapshot is a saviour is backed up again without the chunk. */
  lemma RenewAll(s0: State, s: State, n: nat, c: ChunkId, f: Option<Snapshot>, extra: nat) returns (s': State)
    requires Reaches(s0, s, extra, false) && n in s.collections && Outlasts(s, s.collections[n])
    requires OldNames(s.collections[n])
    ensures Reaches(s0, s', extra, false) && Outlasts(s', s.collections[n])
    ensures s' == s.(running := s'.running, snapshots := s'.snapshots) && s.snapshots <= s'.snapshots
    ensures LastSaviours(s'.snapshots, s.collections[n], c, f) == {}
    ensures forall h :: h in s.running && NoneOf(h, LastSaviours(s.snapshots, s.collections[n], c, f)) ==>
      h in s'.running && s'.running[h] == s.running[h]
    decreases |LastSaviours(s.snapshots, s.collections[n], c, f)|
  {
    var k := s.collections[n];
    var latest := LastSaviours(s.snapshots, k, c, f);
    if t :| t in latest {
      var next := Renew(s0, s, t, extra);
      OneFewer(s.snapshots, t, Snapshot(t.id, t.revision + 1, s.now, {}), k, c, f);
      SmallerSet(LastSaviours(next.snapshots, k, c, f), latest);
      s' := RenewAll(s0, next, n, c, f, extra);
    } else {
      s' := s;
    }
  }

  /** A backup holds the chunk other than from the latest revision of its id, and its host has no latest saviour. */
  ghost predicate HoldsApart(s: State, k: Collection, c: ChunkId, h: Host) {
    h in s.running && c in s.running[h].held && c !in s.running[h].uploading &&
    !InLatest(s.snapshots, s.running[h].id, c) && NoneOf(h, LastSaviours(s.snapshots, k, c, None))
  }

  ghost predicate HeldApart(s: State, k: Collection, c: ChunkId) {
    exists h :: HoldsApart(s, k, c, h)
  }

  /** A snapshot references the chunk behind one that settles and does not. */
  ghost predicate Shadowed(ts: set<Snapshot>, k: Collection, c: ChunkId, extra: nat) {
    exists f, t :: f in ts && t in ts && Behind(Some(f), t) && Settles(k, extra, f) && c in t.chunks && c !in f.chunks
  }

  /** With no saviour among the latest snapshots, a prune deletes them all, and the collection deletes the fossil. */
  lemma LostAfterPrune(s0: State, s: State, n: nat, c: ChunkId, f: Option<Snapshot>, extra: nat)
    requires Reaches(s0, s, extra, false) && s.pruner.Idle? && n in s.collections && Outlasts(s, s.collections[n])
    requires c in s.collections[n].fossils && c !in s.chunks
    requires LastSaviours(s.snapshots, s.collections[n], c, f) == {}
    requires f.Some? ==> f.value in s.snapshots && Settles(s.collections[n], extra, f.value) && c !in f.value.chunks
    requires (exists h :: h in s.running && c in s.running[h].held && c !in s.running[h].uploading) ||
             (exists t :: t in s.snapshots && Behind(f, t) && c in t.chunks)
    ensures LosesFrom(s0, extra, false)
  {
    if !Safe(s) { return; }
    var k := s.collections[n];
    forall t | t in Saviours(s.snapshots, k, c, f) ensures !IsLatest(s.snapshots, t) {
      assert t !in LastSaviours(s.snapshots, k, c, f);
    }
    var s' := PruneAway(s0, s, Saviours(s.snapshots, k, c, f), extra);
    assert c !in NewChunks(k, extra, s'.snapshots) by {
      forall t | t in s'.snapshots && c in t.chunks ensures !Consulted(k, extra, s'.snapshots, t) {
        if IsNew(k, t) { assert Behind(f, t) && f.value in s'.snapshots; }
      }
    }
    LostInTime(s0, s', n, c, extra, false);
  }

  /**
   New snapshots that reference the chunk help only as long as they are there.  If a backup in progress holds the chunk
   other than from the latest revision of its id, and no latest snapshot of an id of the same host is new to the
   collection and references the chunk; or if a snapshot references the chunk behind one that settles and does not;
   then some run loses the chunk after the renaming: the other hosts back up without the chunk, and a prune deletes
   the snapshots that reference it before the older collection is processed.
   */
  lemma HarmfulLosesLater(s: State, c: ChunkId, n: nat, extra: nat)
    requires Enabled(s, Fossilize(c), extra) && c in s.chunks && n in s.collections && Outlasts(s, s.collections[n])
    requires c in s.collections[n].fossils && OldNames(s.collections[n])
    requires HeldApart(s, s.collections[n], c) || Shadowed(s.snapshots, s.collections[n], c, extra)
    ensures !HarmlessFor(s, s.collections[n], c, extra)
    ensures LosesFrom(Next(s, Fossilize(c), extra), extra, false)
  {
    var s0, k := Next(s, Fossilize(c), extra), s.collections[n];
    Stays(s0, extra);
    var s1 := Next(s0, StopPruner, extra);
    Then(s0, s0, StopPruner, s1, extra, false);
    if h :| HoldsApart(s, k, c, h) {
      assert !InLatest(s.snapshots, s.running[h].id, c);
      var s2 := RenewAll(s0, s1, n, c, None, extra);
      assert s2.running[h] == s.running[h];
      LostAfterPrune(s0, s2, n, c, None, extra);
    } else {
      var f, t :| f in s.snapshots && t in s.snapshots && Behind(Some(f), t) && Settles(k, extra, f) && c in t.chunks &&
        c !in f.chunks;
      var s2 := RenewAll(s0, s1, n, c, Some(f), extra);
      LostAfterPrune(s0, s2, n, c, Some(f), extra);
    }
  }

  // ------------------------------------------------------------------ such a state is reached from a healthy storage

  function Rev(id: string, r: nat, time: int, chunks: set<ChunkId>): Snapshot { Snapshot(id, r, time, chunks) }

  /** Two revisions of one id, the older of which references the chunk, and one of an id of another host. */
  function Before(id: string, other: string, c: ChunkId): State {
    State(0, {c}, {}, {Rev(id, 1, 0, {c}), Rev(id, 2, 0, {}), Rev(other, 1, 0, {})}, map[], map[], Idle)
  }

  function FirstCollection(id: string, other: string, c: ChunkId): Collection {
    Collection(0, map[id := 2, other := 1], {(id, 1)}, {c})
  }

  function AfterFirst(id: string, other: string, c: ChunkId): State {
    State(0, {}, {c}, {Rev(id, 2, 0, {}), Rev(other, 1, 0, {})}, map[], map[1 := FirstCollection(id, other, c)], Idle)
  }

  /** Of a listing of two ids these are the latest. */
  lemma TwoLatest(ts: set<Snapshot>, t: Snapshot, b: Snapshot)
    requires t in ts && b in ts && t.id != b.id
    requires forall u :: u in ts ==> u == b || u == t || (u.id == t.id && u.revision < t.revision)
    ensures HasSnapshot(ts, t.id) && Latest(ts, t.id) == t && HasSnapshot(ts, b.id) && Latest(ts, b.id) == b
    ensures LastRevisions(ts) == map[t.id := t.revision, b.id := b.revision]
    ensures forall u :: IsLatest(ts, u) <==> u == t || u == b
  {
    assert IsLatest(ts, t) && IsLatest(ts, b);
  }

  lemma SingleSets(c: ChunkId)
    ensures {c} - {c} == {} && {} + {c} == {c} && {c} + {c} == {c}
  {
  }

  lemma NameOf(t: Snapshot)
    ensures Names({t}) == {t.Name()}
  {
  }

  function Fossilized(id: string, other: string, c: ChunkId): State {
    var r1, r2, b1 := Rev(id, 1, 0, {c}), Rev(id, 2, 0, {}), Rev(other, 1, 0, {});
    Before(id, other, c).(chunks := {}, fossils := {c}, pruner := Collecting({r1, r2, b1}, {r1}, {}, {c}))
  }

  lemma FirstFossil(id: string, other: string, c: ChunkId, extra: nat)
    requires HostOf(id) != HostOf(other)
    ensures Reaches(Before(id, other, c), Fossilized(id, other, c), extra, true)
  {
    var s0 := Before(id, other, c);
    var r1, r2, b1 := Rev(id, 1, 0, {c}), Rev(id, 2, 0, {}), Rev(other, 1, 0, {});
    Stays(s0, extra);
    TwoLatest({r1, r2, b1}, r2, b1);
    var s1 := s0.(pruner := Listed({r1, r2, b1}, map[]));
    Then(s0, s0, ListSnapshots, s1, extra, true);
    var s2 := s0.(pruner := Collecting({r1, r2, b1}, {r1}, {c}, {}));
    assert {r1, r2, b1} - {r1} == {r2, b1};
    assert Referenced({r1}) - Referenced({r2, b1}) == {c};
    var listing := s1.pruner.listing;
    assert listing - {r1} == {r2, b1} && {r1} <= listing;
    assert Enabled(s1, BeginCollect({r1}), extra);
    assert Next(s1, BeginCollect({r1}), extra) == s2;
    Then(s0, s1, BeginCollect({r1}), s2, extra, true);
    SingleSets(c);
    assert FossilizeFile(Files(s2.chunks, s2.fossils), c) == Files({}, {c});
    assert Next(s2, Fossilize(c), extra) == Fossilized(id, other, c);
    Then(s0, s2, Fossilize(c), Fossilized(id, other, c), extra, true);
  }

  /** A first run fossilizes the chunk and deletes the revision. */
  lemma FirstRun(id: string, other: string, c: ChunkId, extra: nat)
    requires HostOf(id) != HostOf(other)
    ensures Reaches(Before(id, other, c), AfterFirst(id, other, c), extra, true)
  {
    FirstFossil(id, other, c, extra);
    var s0, s3 := Before(id, other, c), Fossilized(id, other, c);
    var r1, r2, b1 := Rev(id, 1, 0, {c}), Rev(id, 2, 0, {}), Rev(other, 1, 0, {});
    TwoLatest({r1, r2, b1}, r2, b1);
    var s4 := s3.(collections := map[1 := FirstCollection(id, other, c)], pruner := Removing({r1}));
    NameOf(r1);
    assert s3.collections[1 := FirstCollection(id, other, c)] == s4.collections;
    assert c in FirstCollection(id, other, c).fossils;
    Then(s0, s3, SaveCollection(1), s4, extra, true);
    var s5 := s4.(snapshots := {r2, b1}, pruner := Removing({}));
    assert {r1} - {r1} == {} && {r1, r2, b1} - {r1} == {r2, b1};
    Then(s0, s4, RemoveSnapshot(r1), s5, extra, true);
    Then(s0, s5, StopPruner, AfterFirst(id, other, c), extra, true);
  }

  /** Later revisions: the third uploads the chunk again, the fourth drops it, the fifth is in progress. */
  function AfterBackups(id: string, other: string, c: ChunkId, now: int): State {
    State(now, {c}, {c}, {Rev(id, 2, 0, {}), Rev(id, 3, now, {c}), Rev(id, 4, now, {}), Rev(other, 1, 0, {})},
          map[HostOf(id) := Backup(id, 4, now, None, {c}, {})], map[1 := FirstCollection(id, other, c)], Idle)
  }

  function Reuploaded(id: string, other: string, c: ChunkId, now: int): State {
    AfterFirst(id, other, c).(now := now, chunks := {c},
                              snapshots := {Rev(id, 2, 0, {}), Rev(id, 3, now, {c}), Rev(other, 1, 0, {})})
  }

  lemma Reupload(id: string, other: string, c: ChunkId, extra: nat)
    requires HostOf(id) != HostOf(other)
    ensures Reaches(Before(id, other, c), Reuploaded(id, other, c, extra + 1), extra, true)
  {
    FirstRun(id, other, c, extra);
    var s0, h, now := Before(id, other, c), HostOf(id), extra + 1;
    var r2, r3, b1 := Rev(id, 2, 0, {}), Rev(id, 3, now, {c}), Rev(other, 1, 0, {});
    var s1 := AfterFirst(id, other, c).(now := now);
    Then(s0, AfterFirst(id, other, c), Tick(now), s1, extra, true);

    TwoLatest({r2, b1}, r2, b1);
    var s2 := s1.(running := map[h := Backup(id, 2, now, None, {}, {})]);
    Then(s0, s1, StartBackup(id, false), s2, extra, true);
    var s3 := s1.(running := map[h := Backup(id, 2, now, None, {}, {c})]);
    assert s2.running[h].uploading + {c} == {c};
    Then(s0, s2, CheckChunk(h, c), s3, extra, true);
    var s4 := s1.(chunks := {c}, running := map[h := Backup(id, 2, now, None, {c}, {})]);
    assert {c} - {c} == {} && s3.chunks + {c} == {c};
    Then(s0, s3, UploadChunk(h, c), s4, extra, true);
    var s5 := s4.(running := map[h := Backup(id, 2, now, Some(now), {c}, {})]);
    Then(s0, s4, EndFileChunks(h), s5, extra, true);
    assert {r2, b1} + {r3} == {r2, r3, b1};
    Then(s0, s5, WriteSnapshot(h, {c}), Reuploaded(id, other, c, now), extra, true);
  }

  lemma Backups(id: string, other: string, c: ChunkId, extra: nat)
    requires HostOf(id) != HostOf(other)
    ensures Reaches(Before(id, other, c), AfterBackups(id, other, c, extra + 1), extra, true)
  {
    Reupload(id, other, c, extra);
    var s0, h, now := Before(id, other, c), HostOf(id), extra + 1;
    var r2, r3, r4, b1 := Rev(id, 2, 0, {}), Rev(id, 3, now, {c}), Rev(id, 4, now, {}), Rev(other, 1, 0, {});
    var s6 := Reuploaded(id, other, c, now);
    TwoLatest({r2, r3, b1}, r3, b1);
    var s7 := s6.(running := map[h := Backup(id, 3, now, None, {c}, {})]);
    Then(s0, s6, StartBackup(id, false), s7, extra, true);
    var s8 := s6.(running := map[h := Backup(id, 3, now, Some(now), {c}, {})]);
    Then(s0, s7, EndFileChunks(h), s8, extra, true);
    var s9 := s6.(snapshots := {r2, r3, r4, b1}, running := map[]);
    assert {r2, r3, b1} + {r4} == {r2, r3, r4, b1};
    Then(s0, s8, WriteSnapshot(h, {}), s9, extra, true);

    TwoLatest({r2, r3, r4, b1}, r4, b1);
    var s10 := s9.(running := map[h := Backup(id, 4, now, None, {}, {})]);
    Then(s0, s9, StartBackup(id, false), s10, extra, true);
    assert {} + {c} == {c};
    Then(s0, s10, CheckChunk(h, c), AfterBackups(id, other, c, now), extra, true);
  }

  function SecondCollection(id: string, other: string, c: ChunkId, now: int): Collection {
    Collection(now, map[id := 4, other := 1], {(id, 3)}, {c})
  }

  function AfterSecond(id: string, other: string, c: ChunkId, now: int): State {
    AfterBackups(id, other, c, now).(chunks := {},
      snapshots := {Rev(id, 2, 0, {}), Rev(id, 4, now, {}), Rev(other, 1, 0, {})},
      collections := map[1 := FirstCollection(id, other, c), 2 := SecondCollection(id, other, c, now)])
  }

  function RenamedAgain(id: string, other: string, c: ChunkId, now: int): State {
    var r2, r3, r4, b1 := Rev(id, 2, 0, {}), Rev(id, 3, now, {c}), Rev(id, 4, now, {}), Rev(other, 1, 0, {});
    AfterBackups(id, other, c, now).(chunks := {}, pruner := Collecting({r2, r3, r4, b1}, {r3}, {}, {c}))
  }

  /** The first collection waits for a new snapshot of the other host. */
  lemma FirstMustWait(id: string, other: string, c: ChunkId, extra: nat)
    requires HostOf(id) != HostOf(other)
    ensures var now := extra + 1;
      var all := {Rev(id, 2, 0, {}), Rev(id, 3, now, {c}), Rev(id, 4, now, {}), Rev(other, 1, 0, {})};
      !Deletable(FirstCollection(id, other, c), extra, all, now)
  {
    var now, b1 := extra + 1, Rev(other, 1, 0, {});
    var all := {Rev(id, 2, 0, {}), Rev(id, 3, now, {c}), Rev(id, 4, now, {}), b1};
    TwoLatest(all, Rev(id, 4, now, {}), b1);
    assert b1 in all && HasHost(all, HostOf(other));
    assert forall t :: t in all && HostOf(t.id) == HostOf(other) ==> t == b1;
    assert !IsNew(FirstCollection(id, other, c), b1);
  }

  lemma SecondFossil(id: string, other: string, c: ChunkId, extra: nat)
    requires HostOf(id) != HostOf(other)
    ensures Reaches(Before(id, other, c), RenamedAgain(id, other, c, extra + 1), extra, true)
  {
    Backups(id, other, c, extra);
    FirstMustWait(id, other, c, extra);
    var s0, h, now := Before(id, other, c), HostOf(id), extra + 1;
    var r2, r3, r4, b1 := Rev(id, 2, 0, {}), Rev(id, 3, now, {c}), Rev(id, 4, now, {}), Rev(other, 1, 0, {});
    var all := {r2, r3, r4, b1};
    var b := AfterBackups(id, other, c, now);
    var s1 := b.(pruner := Listed(all, map[h := now]));
    assert (map g | g in b.running :: b.running[g].began) == map[h := now];
    Then(s0, b, ListSnapshots, s1, extra, true);
    SecondTargets(id, other, c, now);
    var s2 := b.(pruner := Collecting(all, {r3}, {c}, {}));
    Then(s0, s1, BeginCollect({r3}), s2, extra, true);
    SingleSets(c);
    assert FossilizeFile(Files(s2.chunks, s2.fossils), c) == Files({}, {c}) && s2.pruner.collected + {c} == {c};
    assert Next(s2, Fossilize(c), extra) == RenamedAgain(id, other, c, now);
    Then(s0, s2, Fossilize(c), RenamedAgain(id, other, c, now), extra, true);
  }

  lemma SecondTargets(id: string, other: string, c: ChunkId, now: int)
    requires HostOf(id) != HostOf(other)
    ensures var r3 := Rev(id, 3, now, {c});
      var all := {Rev(id, 2, 0, {}), r3, Rev(id, 4, now, {}), Rev(other, 1, 0, {})};
      Referenced({r3}) - Referenced(all - {r3}) == {c} && {r3} <= all && forall t :: IsLatest(all, t) ==> t !in {r3}
  {
    var r2, r3, r4, b1 := Rev(id, 2, 0, {}), Rev(id, 3, now, {c}), Rev(id, 4, now, {}), Rev(other, 1, 0, {});
    var all := {r2, r3, r4, b1};
    TwoLatest(all, r4, b1);
    assert all - {r3} == {r2, r4, b1};
    assert Referenced({r3}) - Referenced({r2, r4, b1}) == {c};
  }

  /** A second run renames the same chunk again, although the first collection still records it. */
  lemma SecondRun(id: string, other: string, c: ChunkId, extra: nat)
    requires HostOf(id) != HostOf(other)
    ensures Reaches(Before(id, other, c), AfterSecond(id, other, c, extra + 1), extra, true)
  {
    SecondFossil(id, other, c, extra);
    var s0, h, now := Before(id, other, c), HostOf(id), extra + 1;
    var r2, r3, r4, b1 := Rev(id, 2, 0, {}), Rev(id, 3, now, {c}), Rev(id, 4, now, {}), Rev(other, 1, 0, {});
    var all := {r2, r3, r4, b1};
    var s3 := RenamedAgain(id, other, c, now);
    var s4 := AfterSecond(id, other, c, now).(snapshots := all, pruner := Removing({r3}));
    NameOf(r3);
    assert c in SecondCollection(id, other, c, now).fossils;
    TwoLatest(all, r4, b1);
    assert s3.collections[2 := SecondCollection(id, other, c, now)] == s4.collections;
    Then(s0, s3, SaveCollection(2), s4, extra, true);
    var s5 := AfterSecond(id, other, c, now).(pruner := Removing({}));
    assert {r3} - {r3} == {} && all - {r3} == {r2, r4, b1};
    Then(s0, s4, RemoveSnapshot(r3), s5, extra, true);
    Then(s0, s5, StopPruner, AfterSecond(id, other, c, now), extra, true);
  }

  /** The other host backs up. */
  function AfterOther(id: string, other: string, c: ChunkId, now: int): State {
    AfterSecond(id, other, c, now).(snapshots :=
      {Rev(id, 2, 0, {}), Rev(id, 4, now, {}), Rev(other, 1, 0, {}), Rev(other, 2, now, {})})
  }

  lemma OtherBackup(id: string, other: string, c: ChunkId, extra: nat)
    requires HostOf(id) != HostOf(other)
    ensures Reaches(Before(id, other, c), AfterOther(id, other, c, extra + 1), extra, true)
  {
    SecondRun(id, other, c, extra);
    var s0, g, now := Before(id, other, c), HostOf(other), extra + 1;
    var r2, r4, b1, b2 := Rev(id, 2, 0, {}), Rev(id, 4, now, {}), Rev(other, 1, 0, {}), Rev(other, 2, now, {});
    var s := AfterSecond(id, other, c, now);
    TwoLatest({r2, r4, b1}, r4, b1);
    var s1 := s.(running := s.running[g := Backup(other, 1, now, None, {}, {})]);
    Then(s0, s, StartBackup(other, false), s1, extra, true);
    var s2 := s.(running := s.running[g := Backup(other, 1, now, Some(now), {}, {})]);
    assert s1.running[g := Backup(other, 1, now, Some(now), {}, {})] == s2.running;
    Then(s0, s1, EndFileChunks(g), s2, extra, true);
    assert s2.running - {g} == s.running && {r2, r4, b1} + {b2} == {r2, r4, b1, b2};
    Then(s0, s2, WriteSnapshot(g, {}), AfterOther(id, other, c, now), extra, true);
  }

  /** Now nothing stops the first collection: it has no ghost, both hosts have settled, nothing is resurrected. */
  lemma FirstIsDeletable(id: string, other: string, c: ChunkId, extra: nat)
    requires HostOf(id) != HostOf(other)
    ensures var s := AfterOther(id, other, c, extra + 1); Condemns(s, s.collections[1], c, extra)
  {
    var now := extra + 1;
    var r2, r4, b1, b2 := Rev(id, 2, 0, {}), Rev(id, 4, now, {}), Rev(other, 1, 0, {}), Rev(other, 2, now, {});
    var s, k := AfterOther(id, other, c, now), FirstCollection(id, other, c);
    assert r4 in s.snapshots && Settles(k, extra, r4) && b2 in s.snapshots && Settles(k, extra, b2);
    assert forall g :: HasHost(s.snapshots, g) ==> g == HostOf(id) || g == HostOf(other);
  }

  lemma StartsHealthy(id: string, other: string, c: ChunkId)
    requires HostOf(id) != HostOf(other)
    ensures Init(Before(id, other, c))
  {
  }

  lemma LosesAfterOther(id: string, other: string, c: ChunkId, extra: nat)
    requires HostOf(id) != HostOf(other)
    ensures LosesFrom(Before(id, other, c), extra, true)
  {
    OtherBackup(id, other, c, extra);
    FirstIsDeletable(id, other, c, extra);
    var s := AfterOther(id, other, c, extra + 1);
    assert HostOf(id) in s.running && c in s.running[HostOf(id)].held;
    CondemnedIsLost(Before(id, other, c), s, 1, c, extra, true);
  }

  /**
   Without the guard the guarantee fails, for every chunk, any two hosts and either consistency of the
   storage, even if the pruner processes every collection it can before it collects again: the first
   collection must wait for the other host while the chunk is renamed again; then it is deletable, its
   fossil is removed, and the backup in progress completes with a reference to a chunk that is gone.
   */
  lemma RecollectionLosesChunk(id: string, other: string, c: ChunkId, extra: nat)
    requires HostOf(id) != HostOf(other)
    ensures Init(Before(id, other, c)) && LosesFrom(Before(id, other, c), extra, true)
  {
    StartsHealthy(id, other, c);
    LosesAfterOther(id, other, c, extra);
  }
}
