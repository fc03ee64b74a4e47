/** Which snapshots of one id a prune flags for deletion: by revision, by retention policy, or by tag. */
module Retention {
  import opened Common

  datatype Policy = Policy(age: int, interval: int)
  datatype Revision = Revision(revision: int, startTime: int, tag: string)

  // ------------------------------------------------------------------ days

  /** The number of the local day, at a fixed distance from universal time. */
  function Day(zone: int, time: int): int { (time + zone) / 86400 }

  /** Division that rounds toward zero. */
  function Quotient(a: int, b: int): int
    requires b > 0
  {
    if a >= 0 then a / b else -(-a / b)
  }

  /** The days between two times, by the hours between the midnights before them. */
  function DaysBetween(zone: int, start: int, end: int): int {
    Quotient((Day(zone, end) - Day(zone, start)) * 24 + 1, 24)
  }

  lemma DaysAreDays(zone: int, start: int, end: int)
    ensures Day(zone, start) <= Day(zone, end) ==> DaysBetween(zone, start, end) == Day(zone, end) - Day(zone, start)
    ensures Day(zone, start) > Day(zone, end) ==> DaysBetween(zone, start, end) == Day(zone, end) - Day(zone, start) + 1
  {
    var d := Day(zone, end) - Day(zone, start);
    if d >= 0 { assert (d * 24 + 1) / 24 == d; } else { assert -(d * 24 + 1) / 24 == -d - 1; }
  }

  /** A day begins at a local midnight, the local time being ahead of universal time by the zone. */
  lemma DayMeans(zone: int, time: int, day: int)
    ensures Day(zone, time) == day <==> day * 24 * 3600 <= time + zone < (day + 1) * 24 * 3600
  {
  }

  lemma DaysMonotone(zone: int, a: int, b: int, c: int)
    requires a <= b
    ensures DaysBetween(zone, a, c) >= DaysBetween(zone, b, c) && DaysBetween(zone, c, a) <= DaysBetween(zone, c, b)
  {
    assert Day(zone, a) <= Day(zone, b);
    DaysAreDays(zone, a, c);
    DaysAreDays(zone, b, c);
    DaysAreDays(zone, c, a);
    DaysAreDays(zone, c, b);
  }

  // ------------------------------------------------------------------ what is to be flagged

  /** The first policy whose age has been reached. */
  function Bucket(policies: seq<Policy>, age: int): (i: nat)
    ensures i <= |policies| && (i < |policies| ==> age >= policies[i].age)
    ensures forall k :: 0 <= k < i ==> age < policies[k].age
  {
    if policies == [] || age >= policies[0].age then 0 else 1 + Bucket(policies[1..], age)
  }

  /** The first policy from the `i`-th on whose age has been reached. */
  function FirstFrom(policies: seq<Policy>, i: nat, age: int): (r: nat)
    requires i <= |policies|
    ensures i <= r <= |policies| && (r < |policies| ==> age >= policies[r].age)
    ensures forall k :: i <= k < r ==> age < policies[k].age
    decreases |policies| - i
  {
    if i == |policies| || age >= policies[i].age then i else FirstFrom(policies, i + 1, age)
  }

  /**
   What is asked for, about which snapshots, where and when; tags given along with policies restrict them, tags
   alone select.
   */
  datatype Job = Job(revisions: set<int>, policies: seq<Policy>, tags: set<string>, exclusive: bool,
                     snapshots: seq<Revision>, zone: int, now: int)
  {
    function Time(j: nat): int
      requires j < |snapshots|
    {
      snapshots[j].startTime
    }

    function Age(j: nat): int
      requires j < |snapshots|
    {
      DaysBetween(zone, Time(j), now)
    }

    function BucketOf(j: nat): nat
      requires j < |snapshots|
    {
      Bucket(policies, Age(j))
    }

    function Apart(k: nat, j: nat): int
      requires k < |snapshots| && j < |snapshots|
    {
      DaysBetween(zone, Time(k), Time(j))
    }

    /** The policies are applied to this snapshot: not to the latest one, unless exclusive, and not to other tags. */
    predicate Considered(j: nat)
      requires j < |snapshots|
    {
      (exclusive || j < |snapshots| - 1) && (tags == {} || snapshots[j].tag in tags)
    }

    /** The policy that applies: the search goes on from the one reached for the snapshots before. */
    function PolicyAt(j: nat): nat
      requires j < |snapshots|
      decreases j, 1
    {
      FirstFrom(policies, PolicyBefore(j), Age(j))
    }

    function PolicyBefore(j: nat): (i: nat)
      requires j <= |snapshots|
      ensures i <= |policies|
      decreases j, 0
    {
      if j == 0 then 0 else if Considered(j - 1) then PolicyAt(j - 1) else PolicyBefore(j - 1)
    }

    /** Kept under this policy. */
    predicate KeptUnder(flags: seq<bool>, k: nat, i: nat)
      requires k < |snapshots| <= |flags|
    {
      !flags[k] && Considered(k) && PolicyAt(k) == i
    }

    /** The last snapshot before `j` kept under this policy. */
    ghost predicate LastUnder(flags: seq<bool>, k: nat, j: nat, i: nat)
      requires j <= |snapshots| <= |flags|
    {
      k < j && KeptUnder(flags, k, i) && forall m :: k < m < j ==> !KeptUnder(flags, m, i)
    }

    /** The retention policies delete this snapshot: the last one kept under its policy is closer than the interval. */
    ghost predicate Expired(flags: seq<bool>, j: nat)
      requires j < |snapshots| <= |flags|
    {
      Considered(j) && PolicyAt(j) < |policies| &&
      (policies[PolicyAt(j)].interval == 0 ||
       exists k :: LastUnder(flags, k, j, PolicyAt(j)) && Time(k) != 0 && Apart(k, j) < policies[PolicyAt(j)].interval)
    }

    /** Kept in the bucket of snapshots of this age. */
    predicate KeptIn(flags: seq<bool>, k: nat, i: nat)
      requires k < |snapshots| <= |flags|
    {
      !flags[k] && Considered(k) && BucketOf(k) == i
    }

    /** An earlier one kept in its bucket, whichever, is closer than the interval. */
    ghost predicate Crowded(flags: seq<bool>, j: nat)
      requires j < |snapshots| <= |flags|
    {
      Considered(j) && BucketOf(j) < |policies| &&
      (policies[BucketOf(j)].interval == 0 ||
       exists k :: 0 <= k < j && KeptIn(flags, k, BucketOf(j)) && Apart(k, j) < policies[BucketOf(j)].interval)
    }

    ghost predicate Selects(flags: seq<bool>, j: nat)
      requires j < |snapshots| <= |flags|
    {
      if revisions != {} then snapshots[j].revision in revisions
      else if policies != [] then |snapshots| > 1 && Expired(flags, j)
      else snapshots[j].tag in tags
    }

    /** The flags are those the request demands. */
    ghost predicate Flagged(flags: seq<bool>) {
      |flags| == |snapshots| && forall j :: 0 <= j < |snapshots| ==> (flags[j] <==> Selects(flags, j))
    }

    /** Later revisions do not start earlier. */
    ghost predicate Chronological() {
      (forall j :: 0 <= j < |snapshots| ==> Time(j) > 0) &&
      (forall k, j :: 0 <= k <= j < |snapshots| ==> Time(k) <= Time(j))
    }
  }

  // ------------------------------------------------------------------ the loop

  /** The first `j` snapshots have been flagged; `last` is the start time of the last kept under policy `i`, or 0. */
  ghost predicate Scanned(q: Job, flags: seq<bool>, j: nat, i: nat, last: int) {
    j <= |q.snapshots| == |flags| && i <= |q.policies| &&
    (forall m :: 0 <= m < j ==> (flags[m] <==> q.Expired(flags, m))) &&
    (forall m :: j <= m < |flags| ==> !flags[m]) &&
    LastKept(q, flags, j, i, last)
  }

  ghost predicate LastKept(q: Job, flags: seq<bool>, j: nat, i: nat, last: int)
    requires j <= |q.snapshots| == |flags|
  {
    (last != 0 ==> exists k :: q.LastUnder(flags, k, j, i) && q.Time(k) == last) &&
    (last == 0 ==> forall k :: q.LastUnder(flags, k, j, i) ==> q.Time(k) == 0)
  }

  /** The policies are reached one after the other. */
  lemma {:induction false} PolicyGrows(q: Job, k: nat, j: nat)
    requires k < j <= |q.snapshots| && q.Considered(k)
    ensures q.PolicyAt(k) <= q.PolicyBefore(j)
  {
    if k < j - 1 { PolicyGrows(q, k, j - 1); }
  }

  /** Under a policy just reached nothing has been kept yet. */
  lemma NewPolicy(q: Job, flags: seq<bool>, j: nat, i: nat)
    requires j < |q.snapshots| == |flags| && q.PolicyBefore(j) < i
    ensures LastKept(q, flags, j, i, 0)
  {
    forall k | 0 <= k < j ensures !q.KeptUnder(flags, k, i) {
      if q.Considered(k) { PolicyGrows(q, k, j); }
    }
  }

  /** A snapshot not flagged does not change what has been decided before. */
  lemma SameExpired(q: Job, flags: seq<bool>, others: seq<bool>, m: nat)
    requires |q.snapshots| == |flags| == |others| && m < |flags| && forall k :: 0 <= k < m ==> flags[k] == others[k]
    ensures q.Expired(flags, m) == q.Expired(others, m)
  {
    var i := q.PolicyAt(m);
    forall k | 0 <= k < m ensures q.KeptUnder(flags, k, i) == q.KeptUnder(others, k, i) { }
    forall k ensures q.LastUnder(flags, k, m, i) == q.LastUnder(others, k, m, i) { }
  }

  /** What the last snapshot kept under the policy decides. */
  lemma LastDecides(q: Job, flags: seq<bool>, j: nat, i: nat, last: int)
    requires Scanned(q, flags, j, i, last) && j < |flags| && q.Considered(j) && q.PolicyAt(j) == i < |q.policies|
    ensures q.Expired(flags, j) <==>
      q.policies[i].interval == 0 || (last != 0 && DaysBetween(q.zone, last, q.Time(j)) < q.policies[i].interval)
  {
    if last != 0 {
      var l :| q.LastUnder(flags, l, j, i) && q.Time(l) == last;
      forall k | q.LastUnder(flags, k, j, i) ensures k == l { }
      assert q.Apart(l, j) == DaysBetween(q.zone, last, q.Time(j));
    }
  }

  /** A flagged snapshot is not the last one kept. */
  lemma FlaggedIsNotKept(q: Job, flags: seq<bool>, j: nat, i: nat, last: int)
    requires j < |q.snapshots| == |flags| && LastKept(q, flags, j, i, last)
    ensures LastKept(q, flags[j := true], j + 1, i, last)
  {
    var f := flags[j := true];
    forall k | 0 <= k < j ensures q.KeptUnder(f, k, i) == q.KeptUnder(flags, k, i) { }
    assert !q.KeptUnder(f, j, i);
    forall k ensures q.LastUnder(f, k, j + 1, i) == q.LastUnder(flags, k, j, i) { }
  }

  lemma FlagNext(q: Job, flags: seq<bool>, j: nat, i: nat, last: int)
    requires Scanned(q, flags, j, i, last) && j < |flags| && q.Expired(flags, j)
    ensures Scanned(q, flags[j := true], j + 1, i, last)
  {
    var f := flags[j := true];
    forall m | 0 <= m < j + 1 ensures f[m] <==> q.Expired(f, m) { SameExpired(q, flags, f, m); }
    FlaggedIsNotKept(q, flags, j, i, last);
  }

  lemma KeepNext(q: Job, flags: seq<bool>, j: nat, i: nat, last: int)
    requires Scanned(q, flags, j, i, last) && j < |flags|
    requires q.Considered(j) && q.PolicyAt(j) == i && !q.Expired(flags, j)
    ensures Scanned(q, flags, j + 1, i, q.Time(j))
  {
    assert q.KeptUnder(flags, j, i) && q.LastUnder(flags, j, j + 1, i);
  }

  lemma SkipNext(q: Job, flags: seq<bool>, j: nat, i: nat, last: int)
    requires Scanned(q, flags, j, i, last) && j < |flags| && !q.Considered(j)
    ensures Scanned(q, flags, j + 1, i, last)
  {
    assert !q.KeptUnder(flags, j, i);
    forall k ensures q.LastUnder(flags, k, j + 1, i) == q.LastUnder(flags, k, j, i) { }
  }

  /** When the policies have run out, nothing more is flagged. */
  lemma PoliciesOut(q: Job, flags: seq<bool>, j: nat, last: int)
    requires Scanned(q, flags, j, |q.policies|, last) && j < |flags| && q.Considered(j) && q.PolicyAt(j) == |q.policies|
    ensures forall m :: 0 <= m < |flags| ==> (flags[m] <==> q.Expired(flags, m))
  {
    forall m | j <= m < |flags| ensures !q.Expired(flags, m) {
      if j < m { PolicyGrows(q, j, m); }
    }
  }

  /** Go on to the policy that applies. */
  method FindPolicy(q: Job, ghost flags: seq<bool>, j: nat, i0: nat, last0: int) returns (i: nat, last: int)
    requires Scanned(q, flags, j, i0, last0) && j < |flags| && i0 == q.PolicyBefore(j)
    ensures Scanned(q, flags, j, i, last) && i == q.PolicyAt(j)
  {
    i, last := i0, last0;
    while i < |q.policies| && DaysBetween(q.zone, q.snapshots[j].startTime, q.now) < q.policies[i].age
      invariant Scanned(q, flags, j, i, last) && i0 <= i
      invariant FirstFrom(q.policies, i, q.Age(j)) == FirstFrom(q.policies, i0, q.Age(j))
    {
      NewPolicy(q, flags, j, i + 1);
      i, last := i + 1, 0;
    }
  }

  /** Flag one snapshot, or keep it. */
  method FlagOne(q: Job, flag: array<bool>, j: nat, i: nat, last: int) returns (next: int)
    requires Scanned(q, flag[..], j, i, last) && j < flag.Length
    requires q.Considered(j) && q.PolicyAt(j) == i < |q.policies|
    modifies flag
    ensures Scanned(q, flag[..], j + 1, i, next)
  {
    ghost var flags := flag[..];
    LastDecides(q, flags, j, i, last);
    if q.policies[i].interval == 0 ||
       (last != 0 && DaysBetween(q.zone, last, q.snapshots[j].startTime) < q.policies[i].interval)
    {
      FlagNext(q, flags, j, i, last);
      flag[j] := true;
      assert flag[..] == flags[j := true];
      next := last;
    } else {
      KeepNext(q, flags, j, i, last);
      next := q.snapshots[j].startTime;
    }
  }

  /** Flag the snapshots that the retention policies delete. */
  method FlagByPolicy(q: Job, flag: array<bool>)
    requires flag.Length == |q.snapshots| && forall j :: 0 <= j < flag.Length ==> !flag[j]
    modifies flag
    ensures forall m :: 0 <= m < flag.Length ==> (flag[..][m] <==> q.Expired(flag[..], m))
  {
    var lastSnapshotTime := 0;
    var i: nat := 0;
    for j := 0 to |q.snapshots|
      invariant Scanned(q, flag[..], j, i, lastSnapshotTime) && i == q.PolicyBefore(j)
    {
      if (!q.exclusive && j == |q.snapshots| - 1) || (q.tags != {} && q.snapshots[j].tag !in q.tags) {
        SkipNext(q, flag[..], j, i, lastSnapshotTime);
        continue;
      }
      i, lastSnapshotTime := FindPolicy(q, flag[..], j, i, lastSnapshotTime);
      if i == |q.policies| {
        PoliciesOut(q, flag[..], j, lastSnapshotTime);
        return;
      }
      lastSnapshotTime := FlagOne(q, flag, j, i, lastSnapshotTime);
    }
  }

  /** Flag the snapshots of one id that are to be deleted. */
  method SelectSnapshots(q: Job, flag: array<bool>)
    requires flag.Length == |q.snapshots| && forall j :: 0 <= j < flag.Length ==> !flag[j]
    modifies flag
    ensures q.Flagged(flag[..])
  {
    if q.revisions != {} {
      for j := 0 to |q.snapshots|
        invariant forall k :: 0 <= k < flag.Length ==> (flag[k] <==> k < j && q.snapshots[k].revision in q.revisions)
      {
        if q.snapshots[j].revision in q.revisions { flag[j] := true; }
      }
    } else if q.policies != [] {
      if |q.snapshots| > 1 { FlagByPolicy(q, flag); }
    } else if q.tags != {} {
      for j := 0 to |q.snapshots|
        invariant forall k :: 0 <= k < flag.Length ==> (flag[k] <==> k < j && q.snapshots[k].tag in q.tags)
      {
        if q.snapshots[j].tag in q.tags { flag[j] := true; }
      }
    }
  }

  // ------------------------------------------------------------------ later revisions start later

  lemma {:induction false} FirstIsBucket(policies: seq<Policy>, i: nat, age: int)
    requires i <= Bucket(policies, age)
    ensures FirstFrom(policies, i, age) == Bucket(policies, age)
  {
    var b, r := Bucket(policies, age), FirstFrom(policies, i, age);
    assert forall k :: 0 <= k < b ==> age < policies[k].age;
    assert r < |policies| ==> age >= policies[r].age;
  }

  /** The older snapshot has the earlier bucket. */
  lemma BucketGrows(q: Job, k: nat, j: nat)
    requires q.Chronological() && k <= j < |q.snapshots|
    ensures q.BucketOf(k) <= q.BucketOf(j)
  {
    DaysMonotone(q.zone, q.Time(k), q.Time(j), q.now);
  }

  /** Then the policy that applies depends on the age alone. */
  lemma {:induction false} PolicyIsBucket(q: Job, j: nat)
    requires q.Chronological() && j < |q.snapshots|
    ensures q.PolicyAt(j) == q.BucketOf(j)
  {
    BeforeBucket(q, j, j);
    FirstIsBucket(q.policies, q.PolicyBefore(j), q.Age(j));
  }

  lemma {:induction false} BeforeBucket(q: Job, n: nat, j: nat)
    requires q.Chronological() && n <= j < |q.snapshots|
    ensures q.PolicyBefore(n) <= q.BucketOf(j)
    decreases n
  {
    if n > 0 {
      if q.Considered(n - 1) {
        BeforeBucket(q, n - 1, n - 1);
        FirstIsBucket(q.policies, q.PolicyBefore(n - 1), q.Age(n - 1));
        BucketGrows(q, n - 1, j);
      } else {
        BeforeBucket(q, n - 1, j);
      }
    }
  }

  /** If one has been kept under a policy, one of them is the last. */
  lemma {:induction false} SomeIsLast(q: Job, flags: seq<bool>, k: nat, j: nat, i: nat) returns (l: nat)
    requires k < j <= |q.snapshots| <= |flags| && q.KeptUnder(flags, k, i)
    ensures k <= l && q.LastUnder(flags, l, j, i)
    decreases j
  {
    if k < j - 1 && !q.KeptUnder(flags, j - 1, i) {
      l := SomeIsLast(q, flags, k, j - 1, i);
    } else {
      l := j - 1;
    }
  }

  /** Then a snapshot expires if any of those kept in its bucket is too close. */
  lemma ExpiredIsCrowded(q: Job, flags: seq<bool>, j: nat)
    requires q.Chronological() && j < |q.snapshots| <= |flags|
    ensures q.Expired(flags, j) <==> q.Crowded(flags, j)
  {
    var i := q.BucketOf(j);
    PolicyIsBucket(q, j);
    forall k | 0 <= k < j ensures q.KeptUnder(flags, k, i) == q.KeptIn(flags, k, i) { PolicyIsBucket(q, k); }
    if k: nat :| k < j && q.KeptIn(flags, k, i) && i < |q.policies| && q.Apart(k, j) < q.policies[i].interval {
      var l := SomeIsLast(q, flags, k, j, i);
      DaysMonotone(q.zone, q.Time(k), q.Time(l), q.Time(j));
    }
  }

  /** Snapshots kept in one bucket are at least the interval apart. */
  lemma KeptAreApart(q: Job, flags: seq<bool>, k: nat, j: nat)
    requires q.Flagged(flags) && q.Chronological() && q.revisions == {} && q.policies != [] && k < j < |flags|
    requires q.Considered(j) && q.BucketOf(j) < |q.policies| && q.KeptIn(flags, k, q.BucketOf(j)) && !flags[j]
    ensures q.policies[q.BucketOf(j)].interval != 0 && q.Apart(k, j) >= q.policies[q.BucketOf(j)].interval
  {
    assert !q.Selects(flags, j);
    ExpiredIsCrowded(q, flags, j);
  }

  // ------------------------------------------------------------------ what follows from it

  /** Whether a snapshot is deleted depends on the flags before it only. */
  lemma SameFlagsBefore(q: Job, flags: seq<bool>, others: seq<bool>, j: nat)
    requires |flags| == |others| == |q.snapshots| && j < |flags| && forall k :: 0 <= k < j ==> flags[k] == others[k]
    ensures q.Selects(flags, j) == q.Selects(others, j)
  {
    SameExpired(q, flags, others, j);
  }

  /** The request determines the flags. */
  lemma {:induction false} FlagsAreUnique(q: Job, flags: seq<bool>, others: seq<bool>, n: nat)
    requires q.Flagged(flags) && q.Flagged(others) && n <= |flags|
    ensures forall k :: 0 <= k < n ==> flags[k] == others[k]
  {
    if n > 0 {
      FlagsAreUnique(q, flags, others, n - 1);
      SameFlagsBefore(q, flags, others, n - 1);
    }
  }

  /** Where the remaining snapshots come from: strictly later ones from later ones. */
  function Origin(flags: seq<bool>): (r: seq<nat>)
    ensures forall i :: 0 <= i < |r| ==> r[i] < |flags| && !flags[r[i]]
    ensures forall i, k :: 0 <= i < k < |r| ==> r[i] < r[k]
    ensures flags != [] && !flags[|flags| - 1] ==> r != [] && r[|r| - 1] == |flags| - 1
  {
    if flags == [] then []
    else
      var r := Origin(flags[..|flags| - 1]);
      if flags[|flags| - 1] then r else r + [|flags| - 1]
  }

  /** The snapshots that remain. */
  function Remaining(snapshots: seq<Revision>, flags: seq<bool>): (r: seq<Revision>)
    requires |snapshots| == |flags|
  {
    var o := Origin(flags);
    seq(|o|, i requires 0 <= i < |o| => snapshots[o[i]])
  }

  /** Pruning again, at the same time and with the same policies, flags nothing. */
  lemma PruningAgain(q: Job, flags: seq<bool>, again: seq<bool>)
    requires q.Flagged(flags) && q.Chronological() && q.revisions == {} && q.policies != []
    requires var r := q.(snapshots := Remaining(q.snapshots, flags)); r.Flagged(again)
    ensures forall i :: 0 <= i < |again| ==> !again[i]
  {
    var r := q.(snapshots := Remaining(q.snapshots, flags));
    var none := seq(|r.snapshots|, _ => false);
    forall j | 0 <= j < |r.snapshots| ensures !r.Selects(none, j) {
      NothingExpires(q, flags, none, j);
    }
    assert r.Flagged(none);
    FlagsAreUnique(r, again, none, |again|);
  }

  lemma RemainsChronological(q: Job, flags: seq<bool>)
    requires |flags| == |q.snapshots| && q.Chronological()
    ensures q.(snapshots := Remaining(q.snapshots, flags)).Chronological()
  {
    var r, o := q.(snapshots := Remaining(q.snapshots, flags)), Origin(flags);
    forall j | 0 <= j < |r.snapshots| ensures r.Time(j) == q.Time(o[j]) { }
    forall k, j | 0 <= k <= j < |r.snapshots| ensures r.Time(k) <= r.Time(j) {
      assert o[k] <= o[j];
      assert q.Time(o[k]) <= q.Time(o[j]);
    }
  }

  lemma NothingExpires(q: Job, flags: seq<bool>, none: seq<bool>, j: nat)
    requires q.Flagged(flags) && q.Chronological() && q.revisions == {} && q.policies != []
    requires |Origin(flags)| == |none| && j < |none| && forall i :: 0 <= i < |none| ==> !none[i]
    ensures var r := q.(snapshots := Remaining(q.snapshots, flags)); |r.snapshots| > 1 ==> !r.Expired(none, j)
  {
    var r, o := q.(snapshots := Remaining(q.snapshots, flags)), Origin(flags);
    RemainsChronological(q, flags);
    ExpiredIsCrowded(r, none, j);
    ExpiredIsCrowded(q, flags, o[j]);
    if |r.snapshots| > 1 && r.Considered(j) && r.BucketOf(j) < |q.policies| {
      assert |q.snapshots| > 1;
      assert !q.Selects(flags, o[j]);
      assert q.exclusive || o[j] < |flags| - 1 by {
        if !q.exclusive { assert o[j] < o[j + 1] < |flags|; }
      }
      assert q.Considered(o[j]) && !q.Expired(flags, o[j]);
      forall k | 0 <= k < j && r.KeptIn(none, k, r.BucketOf(j))
        ensures r.Apart(k, j) >= q.policies[r.BucketOf(j)].interval
      {
        assert o[k] < o[j] < |flags| && (q.exclusive || o[k] < |flags| - 1);
        assert q.KeptIn(flags, o[k], q.BucketOf(o[j]));
      }
    }
  }
}
