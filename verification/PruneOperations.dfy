/** The imperative pieces of prune that the fossil protocol abstracts: the deletability decision and the chunk tasks. */
module PruneOperations {
  import opened Common
  import opened FossilProtocol

  function Members(list: seq<Snapshot>): set<Snapshot> { set t | t in list }

  /** Snapshot lists as the pruner loads them: under their id, in increasing revision order. */
  ghost predicate Loaded(all: map<string, seq<Snapshot>>) {
    forall id :: id in all ==> LoadedList(id, all[id])
  }

  ghost predicate LoadedList(id: string, list: seq<Snapshot>) {
    (forall i :: 0 <= i < |list| ==> list[i].id == id) &&
    (forall i, j :: 0 <= i < j < |list| ==> list[i].revision < list[j].revision)
  }

  /** The listed snapshots of the given ids. */
  ghost function Considered(all: map<string, seq<Snapshot>>, ids: set<string>): set<Snapshot> {
    set id, t | id in ids && id in all && t in all[id] :: t
  }

  /** The inner loop over one id: collect new snapshots and stop after the first settling one. */
  method ScanNew(k: Collection, extra: nat, id: string, list: seq<Snapshot>)
    returns (found: seq<Snapshot>, settled: bool)
    requires LoadedList(id, list)
    ensures settled <==> exists f :: f in list && Settles(k, extra, f)
    ensures forall t :: t in found <==> Consulted(k, extra, Members(list), t)
  {
    found, settled := [], false;
    var i := 0;
    while i < |list| && !settled
      invariant 0 <= i <= |list|
      invariant settled ==> i > 0 && Settles(k, extra, list[i - 1])
      invariant forall j :: 0 <= j < i - 1 ==> !Settles(k, extra, list[j])
      invariant !settled ==> forall j :: 0 <= j < i ==> !Settles(k, extra, list[j])
      invariant forall t :: t in found <==> t in list[..i] && IsNew(k, t)
    {
      var t := list[i];
      if t.revision > k.Last(id) {
        found := found + [t];
        if t.endTime > k.endTime + extra {
          settled := true;
        }
      }
      assert list[..i + 1] == list[..i] + [t];
      i := i + 1;
    }
    forall t ensures t in found <==> Consulted(k, extra, Members(list), t) {
      if t in list {
        var m :| 0 <= m < |list| && list[m] == t;
        if m >= i {
          assert list[i - 1] in list && Settles(k, extra, list[i - 1]);
          assert !Consulted(k, extra, Members(list), t);
        } else {
          assert t in list[..i];
        }
      }
    }
  }

  /** Every host with a snapshot has an entry in both tables. */
  ghost predicate HostTable(seen: set<Snapshot>, hasNew: map<Host, bool>, lastTime: map<Host, int>) {
    hasNew.Keys == lastTime.Keys && forall h :: h in hasNew <==> HasHost(seen, h)
  }

  ghost predicate SettledTable(k: Collection, extra: nat, seen: set<Snapshot>, hasNew: map<Host, bool>) {
    forall h :: h in hasNew ==> (hasNew[h] <==> HostSettled(k, extra, seen, h))
  }

  function TimeOf(lastTime: map<Host, int>, h: Host): int { if h in lastTime then lastTime[h] else 0 }

  /** The table keeps the greatest positive end time of the latest snapshots of each host. */
  ghost predicate TimeTable(seen: set<Snapshot>, lastTime: map<Host, int>) {
    (forall h :: h in lastTime ==> lastTime[h] >= 0 && (lastTime[h] == 0 || Attained(seen, h, lastTime[h]))) &&
    (forall t :: IsLatest(seen, t) ==> t.endTime <= TimeOf(lastTime, HostOf(t.id)))
  }

  ghost predicate Attained(seen: set<Snapshot>, h: Host, time: int) {
    exists t :: IsLatest(seen, t) && HostOf(t.id) == h && t.endTime == time
  }

  ghost predicate OtherIds(seen: set<Snapshot>, id: string) { forall t :: t in seen ==> t.id != id }

  /** Lists of different ids do not influence each other. */
  lemma Extend(k: Collection, extra: nat, seen: set<Snapshot>, id: string, list: seq<Snapshot>)
    requires OtherIds(seen, id) && LoadedList(id, list) && list != []
    ensures forall t :: IsLatest(seen + Members(list), t) <==> IsLatest(seen, t) || t == list[|list| - 1]
    ensures forall t :: Consulted(k, extra, seen + Members(list), t) <==>
                        Consulted(k, extra, seen, t) || Consulted(k, extra, Members(list), t)
  {
    var all := seen + Members(list);
    forall t ensures IsLatest(all, t) <==> IsLatest(seen, t) || t == list[|list| - 1] {
      if t in list {
        assert list[|list| - 1] in all;
      }
    }
  }

  lemma HostsExtend(seen: set<Snapshot>, id: string, list: seq<Snapshot>, hasNew: map<Host, bool>, lastTime: map<Host,
                    int>, new': bool, time: int)
    requires LoadedList(id, list) && list != [] && HostTable(seen, hasNew, lastTime)
    ensures HostTable(seen + Members(list), hasNew[HostOf(id) := new'], lastTime[HostOf(id) := time])
  {
    var all := seen + Members(list);
    assert list[0] in all;
    forall h ensures HasHost(all, h) <==> h == HostOf(id) || HasHost(seen, h) {
      if t :| t in all && HostOf(t.id) == h { assert t in seen || t in list; }
    }
  }

  lemma SettledExtend(k: Collection, extra: nat, seen: set<Snapshot>, id: string, list: seq<Snapshot>, settled: bool,
                      hasNew: map<Host, bool>)
    requires LoadedList(id, list) && SettledTable(k, extra, seen, hasNew)
    requires settled <==> exists f :: f in list && Settles(k, extra, f)
    requires HostOf(id) !in hasNew ==> !HasHost(seen, HostOf(id))
    ensures SettledTable(k, extra, seen + Members(list),
                         hasNew[HostOf(id) := (HostOf(id) in hasNew && hasNew[HostOf(id)]) || settled])
  {
    var all := seen + Members(list);
    forall h ensures HostSettled(k, extra, all, h) <==> HostSettled(k, extra, seen, h) || (h == HostOf(id) && settled) {
      if f :| f in all && HostOf(f.id) == h && Settles(k, extra, f) { assert f in seen || f in list; }
      if settled {
        var f :| f in list && Settles(k, extra, f);
        assert f in all;
      }
    }
  }

  lemma TimesExtend(seen: set<Snapshot>, id: string, list: seq<Snapshot>, lastTime: map<Host, int>)
    requires OtherIds(seen, id) && LoadedList(id, list) && list != [] && TimeTable(seen, lastTime)
    requires forall t :: IsLatest(seen + Members(list), t) <==> IsLatest(seen, t) || t == list[|list| - 1]
    ensures var was := TimeOf(lastTime, HostOf(id));
      var end := list[|list| - 1].endTime;
      TimeTable(seen + Members(list), lastTime[HostOf(id) := if end > was then end else was])
  {
    var all, last := seen + Members(list), list[|list| - 1];
    var was := TimeOf(lastTime, HostOf(id));
    var lastTime' := lastTime[HostOf(id) := if last.endTime > was then last.endTime else was];
    assert IsLatest(all, last) && HostOf(last.id) == HostOf(id);
    forall h | h in lastTime' && lastTime'[h] != 0 ensures Attained(all, h, lastTime'[h]) {
      if h in lastTime && lastTime'[h] == lastTime[h] {
        var t :| IsLatest(seen, t) && HostOf(t.id) == h && t.endTime == lastTime[h];
        assert IsLatest(all, t);
      }
    }
    forall t | IsLatest(all, t) ensures t.endTime <= TimeOf(lastTime', HostOf(t.id)) {
      if t != last { assert IsLatest(seen, t); }
    }
  }

  lemma ConsideredGrows(all: map<string, seq<Snapshot>>, ids: set<string>, id: string)
    requires id in all
    ensures Considered(all, ids + {id}) == Considered(all, ids) + Members(all[id])
  {
  }

  /** Dormancy as the code tests it, on the recorded time of the host. */
  lemma DormantByTable(seen: set<Snapshot>, lastTime: map<Host, int>, h: Host, now: int)
    requires TimeTable(seen, lastTime) && h in lastTime
    ensures Dormant(seen, h, now) <==>
            lastTime[h] > 0 && lastTime[h] < now - MAX_SNAPSHOT_RUNNING_DAYS * SECONDS_IN_DAY
  {
    if lastTime[h] > 0 {
      assert Attained(seen, h, lastTime[h]);
    }
  }

  // ------------------------------------------------------------------ what the decision means for the lists

  /** The collection does not know the revision. */
  predicate Unknown(k: Collection, id: string, revision: nat) {
    if id in k.lastRevisions then revision > k.lastRevisions[id] else revision > 0
  }

  /** The snapshot at `i` is new and ended after the collection, by more than half a day where listings lag behind. */
  ghost predicate SettlesAt(k: Collection, strongConsistent: bool, id: string, list: seq<Snapshot>, i: nat)
    requires i < |list|
  {
    Unknown(k, id, list[i].revision) && list[i].endTime > k.endTime + if strongConsistent then 0 else 43200
  }

  ghost predicate IdSettles(k: Collection, strongConsistent: bool, id: string, list: seq<Snapshot>) {
    exists i :: 0 <= i < |list| && SettlesAt(k, strongConsistent, id, list, i)
  }

  /** The last snapshots of the ids of the host all ended more than seven days ago, and one of them has an end time. */
  ghost predicate HostSleeps(all: map<string, seq<Snapshot>>, ids: set<string>, h: Host, now: int)
    requires ids <= all.Keys
  {
    (forall id :: id in ids && OnHost(id, h) && all[id] != [] ==> all[id][|all[id]| - 1].endTime < now - 604800) &&
    exists id :: id in ids && OnHost(id, h) && all[id] != [] && all[id][|all[id]| - 1].endTime > 0
  }

  ghost predicate HostMoved(k: Collection, strongConsistent: bool, all: map<string, seq<Snapshot>>, ids: set<string>,
                            h: Host)
    requires ids <= all.Keys
  {
    exists id :: id in ids && OnHost(id, h) && IdSettles(k, strongConsistent, id, all[id])
  }

  /** On every host that has a snapshot, one of its ids has settled, or the host sleeps. */
  ghost predicate AllHostsSafe(k: Collection, strongConsistent: bool, all: map<string, seq<Snapshot>>, ids: set<string>,
                               now: int)
    requires ids <= all.Keys
  {
    forall id, h :: id in ids && all[id] != [] && OnHost(id, h) ==>
      HostMoved(k, strongConsistent, all, ids, h) || HostSleeps(all, ids, h, now)
  }

  /** The snapshot at `i` is new, and none before it has settled. */
  ghost predicate ResurrectsAt(k: Collection, strongConsistent: bool, id: string, list: seq<Snapshot>, i: nat)
    requires i < |list|
  {
    Unknown(k, id, list[i].revision) && forall j :: 0 <= j < i ==> !SettlesAt(k, strongConsistent, id, list, j)
  }

  ghost predicate Resurrects(k: Collection, strongConsistent: bool, all: map<string, seq<Snapshot>>, ids: set<string>,
                             t: Snapshot)
    requires ids <= all.Keys
  {
    exists id, i :: id in ids && 0 <= i < |all[id]| && all[id][i] == t &&
      ResurrectsAt(k, strongConsistent, id, all[id], i)
  }

  lemma SettlesMeans(k: Collection, strongConsistent: bool, all: map<string, seq<Snapshot>>, ids: set<string>, h: Host)
    requires Loaded(all) && ids <= all.Keys
    ensures HostSettled(k, ExtraTime(strongConsistent), Considered(all, ids), h) <==>
            HostMoved(k, strongConsistent, all, ids, h)
  {
    var extra, listing := ExtraTime(strongConsistent), Considered(all, ids);
    if HostSettled(k, extra, listing, h) {
      var f :| f in listing && HostOf(f.id) == h && Settles(k, extra, f);
      var id :| id in ids && f in all[id];
      assert LoadedList(id, all[id]);
      HostOfMeans(id, h);
      var i :| 0 <= i < |all[id]| && all[id][i] == f;
      assert SettlesAt(k, strongConsistent, id, all[id], i);
    }
    if HostMoved(k, strongConsistent, all, ids, h) {
      var id :| id in ids && OnHost(id, h) && IdSettles(k, strongConsistent, id, all[id]);
      var i :| 0 <= i < |all[id]| && SettlesAt(k, strongConsistent, id, all[id], i);
      assert LoadedList(id, all[id]);
      HostOfMeans(id, h);
      assert all[id][i] in all[id] && all[id][i] in listing && Settles(k, extra, all[id][i]);
    }
  }

  lemma LatestIsLast(all: map<string, seq<Snapshot>>, ids: set<string>, id: string)
    requires Loaded(all) && ids <= all.Keys && id in ids
    ensures forall t :: IsLatest(Considered(all, ids), t) && t.id == id ==>
      all[id] != [] && t == all[id][|all[id]| - 1]
    ensures all[id] != [] ==> IsLatest(Considered(all, ids), all[id][|all[id]| - 1]) && all[id][|all[id]| - 1].id == id
  {
    assert LoadedList(id, all[id]);
    var listing := Considered(all, ids);
    forall t | t in listing && t.id == id ensures t in all[id] {
      var other :| other in ids && t in all[other];
      assert LoadedList(other, all[other]);
    }
    if all[id] != [] {
      assert all[id][|all[id]| - 1] in all[id];
      assert all[id][|all[id]| - 1] in listing;
    }
  }

  lemma SleepsMeans(all: map<string, seq<Snapshot>>, ids: set<string>, h: Host, now: int)
    requires Loaded(all) && ids <= all.Keys
    ensures Dormant(Considered(all, ids), h, now) <==> HostSleeps(all, ids, h, now)
  {
    var listing := Considered(all, ids);
    forall id | id in ids
      ensures OnHost(id, h) <==> HostOf(id) == h
      ensures forall t :: IsLatest(listing, t) && t.id == id ==> all[id] != [] && t == all[id][|all[id]| - 1]
      ensures all[id] != [] ==> IsLatest(listing, all[id][|all[id]| - 1]) && all[id][|all[id]| - 1].id == id
    {
      HostOfMeans(id, h);
      LatestIsLast(all, ids, id);
    }
    forall t | t in listing ensures t.id in ids {
      var id :| id in ids && t in all[id];
      assert LoadedList(id, all[id]);
    }
  }

  /** The decision of the protocol is one about names, revisions and times. */
  lemma DeletableMeans(k: Collection, strongConsistent: bool, all: map<string, seq<Snapshot>>, ids: set<string>,
                       now: int)
    requires Loaded(all) && ids <= all.Keys
    ensures Deletable(k, ExtraTime(strongConsistent), Considered(all, ids), now) <==>
            AllHostsSafe(k, strongConsistent, all, ids, now)
  {
    var extra, listing := ExtraTime(strongConsistent), Considered(all, ids);
    forall h
      ensures HostSettled(k, extra, listing, h) || Dormant(listing, h, now) <==>
              HostMoved(k, strongConsistent, all, ids, h) || HostSleeps(all, ids, h, now)
    {
      SettlesMeans(k, strongConsistent, all, ids, h);
      SleepsMeans(all, ids, h, now);
    }
    forall h ensures HasHost(listing, h) <==> exists id :: id in ids && all[id] != [] && OnHost(id, h) {
      HasHostMeans(all, ids, h);
    }
  }

  lemma HasHostMeans(all: map<string, seq<Snapshot>>, ids: set<string>, h: Host)
    requires Loaded(all) && ids <= all.Keys
    ensures HasHost(Considered(all, ids), h) <==> exists id :: id in ids && all[id] != [] && OnHost(id, h)
  {
    if t :| t in Considered(all, ids) && HostOf(t.id) == h {
      var id :| id in ids && t in all[id];
      assert LoadedList(id, all[id]);
      HostOfMeans(id, h);
    }
    if id :| id in ids && all[id] != [] && OnHost(id, h) {
      assert LoadedList(id, all[id]) && all[id][0] in all[id];
      HostOfMeans(id, h);
      assert all[id][0] in Considered(all, ids);
    }
  }

  lemma ResurrectsMeans(k: Collection, strongConsistent: bool, all: map<string, seq<Snapshot>>, ids: set<string>,
                        t: Snapshot)
    requires Loaded(all) && ids <= all.Keys
    ensures Consulted(k, ExtraTime(strongConsistent), Considered(all, ids), t) <==>
            Resurrects(k, strongConsistent, all, ids, t)
  {
    if Consulted(k, ExtraTime(strongConsistent), Considered(all, ids), t) {
      var id :| id in ids && t in all[id];
      var i :| 0 <= i < |all[id]| && all[id][i] == t;
      ResurrectsInList(k, strongConsistent, all, ids, id, i);
    }
    if Resurrects(k, strongConsistent, all, ids, t) {
      var id, i :| id in ids && 0 <= i < |all[id]| && all[id][i] == t &&
        ResurrectsAt(k, strongConsistent, id, all[id], i);
      ResurrectsInList(k, strongConsistent, all, ids, id, i);
    }
  }

  lemma ResurrectsInList(k: Collection, strongConsistent: bool, all: map<string, seq<Snapshot>>, ids: set<string>,
                         id: string, i: nat)
    requires Loaded(all) && ids <= all.Keys && id in ids && i < |all[id]|
    ensures Consulted(k, ExtraTime(strongConsistent), Considered(all, ids), all[id][i]) <==>
            ResurrectsAt(k, strongConsistent, id, all[id], i)
  {
    var extra, listing, list := ExtraTime(strongConsistent), Considered(all, ids), all[id];
    assert LoadedList(id, list) && list[i] in list;
    SettlesInList(k, strongConsistent, id, list);
    if ResurrectsAt(k, strongConsistent, id, list, i) {
      forall f | f in listing && f.id == id && f.revision < list[i].revision ensures !Settles(k, extra, f) {
        OnlyInItsList(all, ids, f);
      }
    } else if j :| 0 <= j < i && SettlesAt(k, strongConsistent, id, list, j) {
      assert list[j] in list;
      assert list[j] in listing;
    }
  }

  lemma SettlesInList(k: Collection, strongConsistent: bool, id: string, list: seq<Snapshot>)
    requires LoadedList(id, list)
    ensures forall j :: 0 <= j < |list| ==>
      (Settles(k, ExtraTime(strongConsistent), list[j]) <==> SettlesAt(k, strongConsistent, id, list, j))
  {
  }

  lemma OnlyInItsList(all: map<string, seq<Snapshot>>, ids: set<string>, f: Snapshot)
    requires Loaded(all) && ids <= all.Keys && f in Considered(all, ids)
    ensures f.id in ids && f in all[f.id]
  {
    var other :| other in ids && f in all[other];
    assert LoadedList(other, all[other]);
  }

  /**
   Whether the fossils of a collection can be deleted, as the protocol has it; stated again on ids, revisions and times:
   every host has settled or sleeps, and the chunks of new snapshots come back up to the first that settled.
   */
  method IsDeletable(k: Collection, strongConsistent: bool, ignoredIDs: set<string>,
                     allSnapshots: map<string, seq<Snapshot>>, now: int)
    returns (isDeletable: bool, newSnapshots: seq<Snapshot>)
    requires Loaded(allSnapshots)
    ensures var extra := ExtraTime(strongConsistent);
      var listing := Considered(allSnapshots, allSnapshots.Keys - ignoredIDs);
      (isDeletable <==> Deletable(k, extra, listing, now)) &&
      (isDeletable ==> forall t :: t in newSnapshots <==> Consulted(k, extra, listing, t)) &&
      (!isDeletable ==> newSnapshots == [])
    ensures var ids := allSnapshots.Keys - ignoredIDs;
      (isDeletable <==> AllHostsSafe(k, strongConsistent, allSnapshots, ids, now)) &&
      (isDeletable ==> forall t :: t in newSnapshots <==> Resurrects(k, strongConsistent, allSnapshots, ids, t))
  {
    var extra := ExtraTime(strongConsistent);
    var hasNewSnapshot: map<Host, bool> := map[];
    var lastSnapshotTime: map<Host, int> := map[];
    newSnapshots := [];
    var ids := allSnapshots.Keys - ignoredIDs;
    ghost var seen: set<Snapshot> := {};
    while ids != {}
      invariant ids <= allSnapshots.Keys - ignoredIDs
      invariant seen == Considered(allSnapshots, allSnapshots.Keys - ignoredIDs - ids)
      invariant HostTable(seen, hasNewSnapshot, lastSnapshotTime)
      invariant SettledTable(k, extra, seen, hasNewSnapshot)
      invariant TimeTable(seen, lastSnapshotTime)
      invariant forall t :: t in newSnapshots <==> Consulted(k, extra, seen, t)
    {
      var id :| id in ids;
      var list := allSnapshots[id];
      assert LoadedList(id, list);
      assert OtherIds(seen, id);
      ConsideredGrows(allSnapshots, allSnapshots.Keys - ignoredIDs - ids, id);
      assert allSnapshots.Keys - ignoredIDs - ids + {id} == allSnapshots.Keys - ignoredIDs - (ids - {id});
      ids := ids - {id};
      if list != [] {
        var host := HostOf(id);
        var found, settled := ScanNew(k, extra, id, list);
        Extend(k, extra, seen, id, list);
        var had := host in hasNewSnapshot && hasNewSnapshot[host];
        var was := TimeOf(lastSnapshotTime, host);
        var end := list[|list| - 1].endTime;
        HostsExtend(seen, id, list, hasNewSnapshot, lastSnapshotTime, had || settled, if end > was then end else was);
        SettledExtend(k, extra, seen, id, list, settled, hasNewSnapshot);
        TimesExtend(seen, id, list, lastSnapshotTime);
        newSnapshots := newSnapshots + found;
        hasNewSnapshot := hasNewSnapshot[host := had || settled];
        lastSnapshotTime := lastSnapshotTime[host := if end > was then end else was];
        seen := seen + Members(list);
      }
    }
    assert seen == Considered(allSnapshots, allSnapshots.Keys - ignoredIDs);
    isDeletable := AllSettled(k, extra, seen, hasNewSnapshot, lastSnapshotTime, now);
    DeletableMeans(k, strongConsistent, allSnapshots, allSnapshots.Keys - ignoredIDs, now);
    forall t
      ensures Consulted(k, extra, seen, t) <==>
              Resurrects(k, strongConsistent, allSnapshots, allSnapshots.Keys - ignoredIDs, t)
    {
      ResurrectsMeans(k, strongConsistent, allSnapshots, allSnapshots.Keys - ignoredIDs, t);
    }
    if !isDeletable {
      newSnapshots := [];
    }
  }

  /** Every host has settled or is dormant. */
  method AllSettled(ghost k: Collection, ghost extra: nat, ghost seen: set<Snapshot>, hasNewSnapshot: map<Host, bool>,
                    lastSnapshotTime: map<Host, int>, now: int)
    returns (all: bool)
    requires HostTable(seen, hasNewSnapshot, lastSnapshotTime) && TimeTable(seen, lastSnapshotTime)
    requires SettledTable(k, extra, seen, hasNewSnapshot)
    ensures all <==> Deletable(k, extra, seen, now)
  {
    var hosts := hasNewSnapshot.Keys;
    while hosts != {}
      invariant hosts <= hasNewSnapshot.Keys
      invariant forall h :: h in hasNewSnapshot.Keys - hosts ==> HostSettled(k, extra, seen, h) || Dormant(seen, h, now)
    {
      var h :| h in hosts;
      DormantByTable(seen, lastSnapshotTime, h, now);
      if !hasNewSnapshot[h] &&
         !(lastSnapshotTime[h] > 0 && lastSnapshotTime[h] < now - MAX_SNAPSHOT_RUNNING_DAYS * SECONDS_IN_DAY) {
        return false;
      }
      hosts := hosts - {h};
    }
    all := true;
  }

  /** The chunk files of the storage and the fossils the operator has recorded. */
  class ChunkOperator {
    var chunks: set<ChunkId>
    var fossilFiles: set<ChunkId>
    var recorded: seq<ChunkId>
    const moveReplaces: bool

    constructor (chunks: set<ChunkId>, fossils: set<ChunkId>, moveReplaces: bool)
      ensures Disk() == Files(chunks, fossils) && recorded == []
    {
      this.chunks, fossilFiles, recorded, this.moveReplaces := chunks, fossils, [], moveReplaces;
    }

    function Disk(): Files reads this { Files(chunks, fossilFiles) }

    /** Rename a file to its fossil; some storages refuse when the fossil is already there. */
    method MoveToFossil(c: ChunkId) returns (ok: bool)
      requires c in chunks
      modifies this`chunks, this`fossilFiles
      ensures ok == (moveReplaces || c !in old(fossilFiles))
      ensures Disk() == if ok then FossilizeFile(old(Disk()), c) else old(Disk())
    {
      ok := moveReplaces || c !in fossilFiles;
      if ok {
        chunks, fossilFiles := chunks - {c}, fossilFiles + {c};
      }
    }

    /** The fossilize task: `ok` is false only if the chunk is nowhere. */
    method Fossilize(c: ChunkId) returns (ok: bool)
      modifies this
      ensures ok <==> c in old(chunks) || c in old(fossilFiles)
      ensures Disk() == FossilizeFile(old(Disk()), c)
      ensures recorded == if ok then old(recorded) + [c] else old(recorded)
    {
      if c !in chunks {
        ok := c in fossilFiles;
        if ok {
          recorded := recorded + [c];
        }
        return;
      }
      var moved := MoveToFossil(c);
      if !moved {
        chunks := chunks - {c};
        assert fossilFiles + {c} == fossilFiles;
      }
      recorded := recorded + [c];
      ok := true;
    }

    /** The resurrect task. */
    method Resurrect(c: ChunkId) returns (ok: bool)
      modifies this`chunks, this`fossilFiles
      ensures ok <==> c in old(chunks) || c in old(fossilFiles)
      ensures Disk() == ResurrectFile(old(Disk()), c)
    {
      ok := true;
      if c in chunks {
        fossilFiles := fossilFiles - {c};
      } else if c in fossilFiles {
        chunks, fossilFiles := chunks + {c}, fossilFiles - {c};
      } else {
        ok := false;
      }
    }
  }
}
