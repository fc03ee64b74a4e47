/**
 The step of the fossil protocol that begins a collection, and the computation of what is to be collected: they
 agree on when a collection begins, and on the chunks.
 */
module PruneTargets {
  import opened Expansion
  import Protocol = FossilProtocol

  type ChunkId = Protocol.ChunkId

  /** The protocol's view of a snapshot: all the chunks it refers to, and whether it is to be deleted. */
  ghost predicate PicturedAt(storage: Storage<ChunkId>, m: Manifest, t: Protocol.Snapshot,
                             flagged: set<Protocol.Snapshot>)
  {
    t.chunks == (set c | c in storage.References(m)) && (m.flag <==> t in flagged)
  }

  /** All snapshots of one id, in increasing revision order. */
  ghost predicate Revisions(list: seq<Protocol.Snapshot>, listing: set<Protocol.Snapshot>) {
    (forall i :: 0 <= i < |list| ==> list[i] in listing) &&
    (forall i, t :: 0 <= i < |list| && t in listing && t.id == list[i].id ==> t in list) &&
    (forall i, j :: 0 <= i < j < |list| ==> list[i].id == list[j].id && list[i].revision < list[j].revision)
  }

  /** The lists of snapshots, one for each id, and the listing of the protocol. */
  ghost predicate Pictured(storage: Storage<ChunkId>, all: seq<seq<Manifest>>, lists: seq<seq<Protocol.Snapshot>>,
                           listing: set<Protocol.Snapshot>, flagged: set<Protocol.Snapshot>)
  {
    |lists| == |all| && flagged <= listing &&
    (forall t :: t in listing ==> exists k :: 0 <= k < |lists| && t in lists[k]) &&
    forall k :: 0 <= k < |lists| ==> PicturedList(storage, all[k], lists[k], flagged) && Revisions(lists[k], listing)
  }

  ghost predicate PicturedList(storage: Storage<ChunkId>, list: seq<Manifest>, pictures: seq<Protocol.Snapshot>,
                               flagged: set<Protocol.Snapshot>)
  {
    |pictures| == |list| && forall i :: 0 <= i < |list| ==> PicturedAt(storage, list[i], pictures[i], flagged)
  }

  lemma {:induction false} InConcat(lists: seq<seq<Manifest>>, m: Manifest)
    ensures m in Concat(lists) <==> exists k :: 0 <= k < |lists| && m in lists[k]
  {
    if lists != [] {
      var n := |lists| - 1;
      InConcat(lists[..n], m);
      assert Concat(lists) == Concat(lists[..n]) + lists[n];
    }
  }

  /** What is referenced by the snapshots to be deleted, or by the others, is the same in both views. */
  lemma ReferencesAgree(storage: Storage<ChunkId>, all: seq<seq<Manifest>>, lists: seq<seq<Protocol.Snapshot>>,
                        listing: set<Protocol.Snapshot>, flagged: set<Protocol.Snapshot>, flag: bool, c: ChunkId)
    requires Pictured(storage, all, lists, listing, flagged)
    ensures c in Referenced(storage, Concat(all), flag) <==>
      c in Protocol.Referenced(if flag then flagged else listing - flagged)
  {
    var some := if flag then flagged else listing - flagged;
    if c in Referenced(storage, Concat(all), flag) {
      var m :| m in Concat(all) && m.flag == flag && c in storage.References(m);
      InConcat(all, m);
      var k :| 0 <= k < |all| && m in all[k];
      var i :| 0 <= i < |all[k]| && all[k][i] == m;
      assert PicturedList(storage, all[k], lists[k], flagged) && PicturedAt(storage, m, lists[k][i], flagged);
      assert Revisions(lists[k], listing) && lists[k][i] in some && c in lists[k][i].chunks;
    }
    if c in Protocol.Referenced(some) {
      var t :| t in some && c in t.chunks;
      var k :| 0 <= k < |lists| && t in lists[k];
      var i :| 0 <= i < |lists[k]| && lists[k][i] == t;
      assert PicturedList(storage, all[k], lists[k], flagged) && PicturedAt(storage, all[k][i], t, flagged);
      InConcat(all, all[k][i]);
    }
  }

  /** The last of the revisions of an id is its latest snapshot. */
  lemma LastIsLatest(list: seq<Protocol.Snapshot>, listing: set<Protocol.Snapshot>, t: Protocol.Snapshot)
    requires Revisions(list, listing) && t in list
    ensures Protocol.IsLatest(listing, t) <==> t == list[|list| - 1]
  {
    var i :| 0 <= i < |list| && list[i] == t;
    var last := list[|list| - 1];
    assert last in listing && last.id == t.id;
    forall f | f in listing && f.id == t.id && t == last ensures f.revision <= t.revision {
      var j :| 0 <= j < |list| && list[j] == f;
    }
  }

  lemma LastAgrees(storage: Storage<ChunkId>, list: seq<Manifest>, pictures: seq<Protocol.Snapshot>,
                   listing: set<Protocol.Snapshot>, flagged: set<Protocol.Snapshot>)
    requires PicturedList(storage, list, pictures, flagged) && Revisions(pictures, listing)
    ensures LatestFlagged(list) <==> exists t :: t in pictures && Protocol.IsLatest(listing, t) && t in flagged
  {
    if list != [] {
      var n := |list| - 1;
      assert PicturedAt(storage, list[n], pictures[n], flagged) && pictures[n] in pictures;
      forall t | t in pictures ensures Protocol.IsLatest(listing, t) <==> t == pictures[n] {
        LastIsLatest(pictures, listing, t);
      }
    }
  }

  /** Both views refuse the same: to delete the latest snapshot of an id. */
  lemma LatestAgrees(storage: Storage<ChunkId>, all: seq<seq<Manifest>>, lists: seq<seq<Protocol.Snapshot>>,
                     listing: set<Protocol.Snapshot>, flagged: set<Protocol.Snapshot>)
    requires Pictured(storage, all, lists, listing, flagged)
    ensures (forall list :: list in all ==> !LatestFlagged(list)) <==>
            forall t :: Protocol.IsLatest(listing, t) ==> t !in flagged
  {
    if t :| Protocol.IsLatest(listing, t) && t in flagged {
      var k :| 0 <= k < |lists| && t in lists[k];
      LastAgrees(storage, all[k], lists[k], listing, flagged);
      assert all[k] in all;
    } else {
      forall list | list in all ensures !LatestFlagged(list) {
        var k :| 0 <= k < |all| && all[k] == list;
        LastAgrees(storage, all[k], lists[k], listing, flagged);
      }
    }
  }

  /** The computation does what the step of the protocol says. */
  method CollectTargets(storage: Storage<ChunkId>, all: seq<seq<Manifest>>, threads: int,
                        ghost lists: seq<seq<Protocol.Snapshot>>, ghost s: Protocol.State,
                        ghost flagged: set<Protocol.Snapshot>, ghost extra: nat)
    returns (ok: bool, targets: set<ChunkId>)
    requires forall m :: m in Concat(all) ==> storage.Loaded(m)
    requires s.pruner.Listed? && Pictured(storage, all, lists, s.pruner.listing, flagged)
    ensures ok <==> Protocol.Enabled(s, Protocol.BeginCollect(flagged), extra)
    ensures ok ==> targets == Protocol.Next(s, Protocol.BeginCollect(flagged), extra).pruner.targets
  {
    ok, targets := PruneNonExhaustive(storage, all, false, threads);
    LatestAgrees(storage, all, lists, s.pruner.listing, flagged);
    forall c, flag ensures c in Referenced(storage, Concat(all), flag) <==>
      c in Protocol.Referenced(if flag then flagged else s.pruner.listing - flagged)
    {
      ReferencesAgree(storage, all, lists, s.pruner.listing, flagged, flag, c);
    }
  }
}
