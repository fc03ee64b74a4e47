/**
 The other side of the fossil protocol: what is no longer needed does go.  A run of the pruner records every chunk that
 only deleted snapshots reference, and a collection is given up only when none of its fossils is left, or when one of
 the snapshots it was made for has not been deleted after all.
 */
module FossilReclamation {
  import opened Common
  import opened FossilProtocol
  import opened FossilSafety
  import opened FossilRecollection

  /** What the pruner has done so far of what it has begun. */
  ghost predicate OnTheWay(s: State) {
    match s.pruner
    case Deleting(_, _, number, _, toProcess) =>
      number in s.collections && forall c :: c in s.collections[number].fossils && c in s.fossils ==> c in toProcess
    case Collecting(listing, flagged, targets, collected) =>
      flagged <= listing && targets + collected == Referenced(flagged) - Referenced(listing - flagged)
    case _ => true
  }

  lemma StepGoesOn(s: State, a: Action, extra: nat)
    requires OnTheWay(s) && Enabled(s, a, extra)
    ensures OnTheWay(Next(s, a, extra))
  {
    if a.Fossilize? {
      var p, q := s.pruner, Next(s, a, extra).pruner;
      assert q.targets + q.collected == p.targets + p.collected;
    }
  }

  lemma {:induction false} RunGoesOn(s: State, run: seq<Action>, extra: nat)
    requires OnTheWay(s) && Legal(s, run, extra)
    ensures OnTheWay(Exec(s, run, extra))
    decreases |run|
  {
    if run != [] {
      StepGoesOn(s, run[0], extra);
      RunGoesOn(Next(s, run[0], extra), run[1..], extra);
    }
  }

  /**
   Whatever happens meanwhile, a collection is saved with all chunks that only the snapshots to be deleted
   reference.
   */
  lemma RecordsAll(s0: State, run: seq<Action>, n: nat, extra: nat)
    requires Init(s0) && Legal(s0, run, extra) && Enabled(Exec(s0, run, extra), SaveCollection(n), extra)
    ensures var s := Exec(s0, run, extra);
      var needless := Referenced(s.pruner.flagged) - Referenced(s.pruner.listing - s.pruner.flagged);
      var s' := Next(s, SaveCollection(n), extra);
      (needless == {} ==> s'.collections == s.collections) &&
      (needless != {} ==> n in s'.collections && s'.collections[n].fossils == needless) &&
      s'.pruner == Removing(s.pruner.flagged)
  {
    RunGoesOn(s0, run, extra);
  }

  /** A collection goes with the last of its fossils, or because one of its snapshots is still there. */
  lemma GoesWithItsFossils(s0: State, run: seq<Action>, a: Action, n: nat, extra: nat)
    requires Init(s0) && Legal(s0, run, extra) && Enabled(Exec(s0, run, extra), a, extra)
    requires n in Exec(s0, run, extra).collections && n !in Next(Exec(s0, run, extra), a, extra).collections
    ensures var s := Exec(s0, run, extra);
      (exists t :: t in s.pruner.listing && t.Name() in s.collections[n].deleted) ||
      forall c :: c in s.collections[n].fossils ==> c !in Next(s, a, extra).fossils
  {
    RunGoesOn(s0, run, extra);
  }

  /**
   A collection that is being processed can be finished: the fossils that new snapshots reference are chunks again, the
   others are deleted, and nothing else has changed.
   */
  lemma {:induction false} CanBeFinished(s0: State, s: State, extra: nat) returns (s': State)
    requires Reaches(s0, s, extra, true) && s.pruner.Deleting?
    ensures Reaches(s0, s', extra, true)
    ensures s' == s.(chunks := s.chunks + s.pruner.toProcess * s.pruner.newChunks * s.fossils,
                     fossils := s.fossils - s.pruner.toProcess,
                     collections := s.collections - {s.pruner.number},
                     pruner := Listed(s.pruner.listing, s.pruner.inFlight))
    decreases |s.pruner.toProcess|
  {
    if c :| c in s.pruner.toProcess {
      var next := Next(s, ProcessFossil(c), extra);
      Then(s0, s, ProcessFossil(c), next, extra, true);
      SmallerSet(next.pruner.toProcess, s.pruner.toProcess);
      s' := CanBeFinished(s0, next, extra);
      OneProcessed(s.chunks, s.fossils, s.pruner.toProcess, s.pruner.newChunks, c);
    } else {
      s' := Next(s, FinishDelete, extra);
      Then(s0, s, FinishDelete, s', extra, true);
      assert s.chunks + {} * s.pruner.newChunks * s.fossils == s.chunks && s.fossils - {} == s.fossils;
    }
  }

  lemma OneProcessed(chunks: set<ChunkId>, fossils: set<ChunkId>, toProcess: set<ChunkId>, newChunks: set<ChunkId>,
                     c: ChunkId)
    requires c in toProcess
    ensures var f := Files(chunks, fossils);
      var g := if c in newChunks then ResurrectFile(f, c) else DeleteFossilFile(f, c);
      g.chunks + (toProcess - {c}) * newChunks * g.fossils == chunks + toProcess * newChunks * fossils &&
      g.fossils - (toProcess - {c}) == fossils - toProcess
  {
  }
}
