/** Running jobs on several workers, each of which claims the next index until there are no more. */
module Concurrency {
  import opened Common

  datatype Worker = Idle | Running(index: nat) | Ended

  function Weight(w: Worker): nat { match w case Idle => 1 case Running(_) => 2 case Ended => 0 }

  function Weights(workers: seq<Worker>): nat {
    if workers == [] then 0 else Weight(workers[0]) + Weights(workers[1..])
  }

  lemma {:induction false} WeightsUpdate(workers: seq<Worker>, w: nat, x: Worker)
    requires w < |workers|
    ensures Weights(workers[w := x]) == Weights(workers) - Weight(workers[w]) + Weight(x)
  {
    if w == 0 {
      assert workers[w := x][1..] == workers[1..];
    } else {
      WeightsUpdate(workers[1..], w - 1, x);
      assert workers[w := x][1..] == workers[1..][w - 1 := x];
    }
  }

  /** Where the workers stand; `owners` are the workers that claimed the indices, in order. */
  ghost predicate Consistent<T>(count: nat, job: nat -> Option<T>, workers: seq<Worker>, owners: seq<nat>,
                                results: map<nat, T>, failed: set<nat>)
  {
    |owners| <= count &&
    (forall w :: 0 <= w < |workers| && workers[w].Running? ==>
      workers[w].index < |owners| && owners[workers[w].index] == w && workers[w].index !in results &&
      workers[w].index !in failed) &&
    (forall i :: 0 <= i < |owners| ==>
      owners[i] < |workers| && (i in results || i in failed || workers[owners[i]] == Running(i))) &&
    (forall i :: i in results ==> i < |owners| && job(i) == Some(results[i])) &&
    (forall i :: i in failed ==> i < |owners| && job(i).None?)
  }

  lemma ClaimKeeps<T>(count: nat, job: nat -> Option<T>, workers: seq<Worker>, owners: seq<nat>, results: map<nat, T>,
                      failed: set<nat>, w: nat)
    requires Consistent(count, job, workers, owners, results, failed) && w < |workers| && workers[w].Idle?
    requires |owners| < count
    ensures Consistent(count, job, workers[w := Running(|owners|)], owners + [w], results, failed)
  {
  }

  lemma EndKeeps<T>(count: nat, job: nat -> Option<T>, workers: seq<Worker>, owners: seq<nat>, results: map<nat, T>,
                    failed: set<nat>, w: nat)
    requires Consistent(count, job, workers, owners, results, failed) && w < |workers| && workers[w].Idle?
    ensures Consistent(count, job, workers[w := Ended], owners, results, failed)
  {
  }

  lemma ResultKeeps<T>(count: nat, job: nat -> Option<T>, workers: seq<Worker>, owners: seq<nat>, results: map<nat, T>,
                       failed: set<nat>, w: nat, r: T)
    requires Consistent(count, job, workers, owners, results, failed) && w < |workers| && workers[w].Running?
    requires job(workers[w].index) == Some(r)
    ensures Consistent(count, job, workers[w := Idle], owners, results[workers[w].index := r], failed)
  {
  }

  lemma FailureKeeps<T>(count: nat, job: nat -> Option<T>, workers: seq<Worker>, owners: seq<nat>, results: map<nat, T>,
                        failed: set<nat>, w: nat)
    requires Consistent(count, job, workers, owners, results, failed) && w < |workers| && workers[w].Running?
    requires job(workers[w].index).None?
    ensures Consistent(count, job, workers[w := Ended], owners, results, failed + {workers[w].index})
  {
  }

  ghost predicate Distinct(runs: seq<nat>) { forall i, j :: 0 <= i < j < |runs| ==> runs[i] != runs[j] }

  class Pool<T(0)> {
    const count: nat
    /** What a job returns; one without a result fails. */
    const job: nat -> Option<T>
    var nextIndex: nat
    var workers: seq<Worker>
    var results: map<nat, T>
    var failure: Option<nat>
    ghost var owners: seq<nat>
    ghost var failed: set<nat>
    /** The jobs that have been run, in the order in which they were finished. */
    ghost var runs: seq<nat>

    ghost predicate Valid()
      reads this
    {
      Consistent(count, job, workers, owners, results, failed) &&
      |owners| == (if nextIndex < count then nextIndex else count) &&
      (failure.None? <==> failed == {}) && (failure.Some? ==> failure.value in failed) &&
      (forall w :: 0 <= w < |workers| && workers[w].Ended? ==> nextIndex >= count || failed != {}) &&
      (forall i :: i in runs <==> i in results || i in failed) && Distinct(runs)
    }

    ghost function Steps(): nat
      reads this
    {
      2 * (if nextIndex < count then count - nextIndex else 0) + Weights(workers)
    }

    constructor (threads: nat, count: nat, job: nat -> Option<T>)
      ensures Valid() && this.count == count && this.job == job && |workers| == threads
    {
      this.count, this.job, nextIndex, results, failure := count, job, 0, map[], None;
      owners, failed, runs := [], {}, [];
      workers := seq(threads, _ => Idle);
    }

    /** A worker claims the next index, or ends. */
    method Claim(w: nat)
      requires Valid() && w < |workers| && workers[w].Idle?
      modifies this
      ensures Valid() && Steps() < old(Steps()) && |workers| == |old(workers)|
    {
      var index := nextIndex;
      nextIndex := nextIndex + 1;
      WeightsUpdate(workers, w, if index < count then Running(index) else Ended);
      if index < count {
        ClaimKeeps(count, job, workers, owners, results, failed, w);
        owners := owners + [w];
        workers := workers[w := Running(index)];
      } else {
        EndKeeps(count, job, workers, owners, results, failed, w);
        workers := workers[w := Ended];
      }
    }

    /** A worker finishes a job; if the job fails, the worker ends, and the first failure is remembered. */
    method Finish(w: nat)
      requires Valid() && w < |workers| && workers[w].Running?
      modifies this
      ensures Valid() && Steps() < old(Steps()) && |workers| == |old(workers)|
    {
      var index := workers[w].index;
      var r := job(index);
      runs := runs + [index];
      WeightsUpdate(workers, w, if r.Some? then Idle else Ended);
      if r.Some? {
        ResultKeeps(count, job, workers, owners, results, failed, w, r.value);
        results := results[index := r.value];
        workers := workers[w := Idle];
      } else {
        FailureKeeps(count, job, workers, owners, results, failed, w);
        failed := failed + {index};
        workers := workers[w := Ended];
        if failure.None? { failure := Some(index); }
      }
    }
  }

  /**
   Run a job for each index.  No job is run twice.  It fails exactly if some job fails; otherwise every job
   has been run, whatever the number of threads and the order of their steps.
   */
  method RunConcurrently<T(0)>(threads: int, count: nat, job: nat -> Option<T>)
    returns (ok: bool, results: seq<T>, ghost runs: seq<nat>)
    ensures Distinct(runs) && forall i :: i in runs ==> i < count
    ensures ok <==> forall i :: 0 <= i < count ==> job(i).Some?
    ensures ok ==> |results| == count && forall i :: 0 <= i < count ==> job(i) == Some(results[i])
    ensures ok ==> forall i :: 0 <= i < count ==> i in runs
  {
    var n := if threads > count then count else threads;
    results, runs := [], [];
    if n <= 1 {
      for index := 0 to count
        invariant |runs| == |results| == index
        invariant forall i :: 0 <= i < index ==> runs[i] == i && job(i) == Some(results[i])
      {
        runs := runs + [index];
        var r := job(index);
        if r.None? { return false, results, runs; }
        results := results + [r.value];
      }
      forall i | 0 <= i < count ensures i in runs { assert runs[i] == i; }
      return true, results, runs;
    }
    var pool := new Pool(n, count, job);
    while exists w :: 0 <= w < |pool.workers| && !pool.workers[w].Ended?
      invariant pool.Valid() && pool.count == count && pool.job == job && |pool.workers| == n
      decreases pool.Steps()
    {
      var w :| 0 <= w < |pool.workers| && !pool.workers[w].Ended?;
      if pool.workers[w].Idle? { pool.Claim(w); } else { pool.Finish(w); }
    }
    assert pool.workers[0].Ended?;
    runs, ok := pool.runs, pool.failure.None?;
    if ok {
      results := seq(count, i requires 0 <= i < count && i in pool.results reads pool => pool.results[i]);
    }
  }
}
