/**
 Content-defined chunking as a function of the whole stream: a chunk ends at the first position
 where the hash of the last `min` bytes has its masked bits clear, or at the maximum length.
 */
module Chunking {
  import opened Buzhash

  type Bytes = seq<Byte>

  /** A rolling hash: of a whole block, updated by one byte, and the test that ends a chunk. */
  datatype RollingHash = RollingHash(
    sum: (Word, Bytes) -> Word, update: (Word, Byte, Byte, nat) -> Word, hit: Word -> bool)
  {
    ghost predicate Valid() {
      (forall a, b :: sum(sum(Zero(), a), b) == sum(Zero(), a + b)) &&
      (forall w, b :: w != [] ==> update(sum(Zero(), w), w[0], b, |w|) == sum(Zero(), w[1..] + [b]))
    }
  }

  /** The hash the chunk maker uses: buzhash, ending a chunk where all bits of the mask are clear. */
  function BuzhashOf(table: Table, mask: Word): (h: RollingHash)
    ensures h.Valid()
  {
    var h := RollingHash((sum: Word, data: Bytes) => Sum(table, sum, data),
                         (sum: Word, out: Byte, incoming: Byte, length: nat) =>
                           Update(table, sum, out, incoming, length),
                         (sum: Word) => And(sum, mask) == Zero());
    assert h.Valid() by {
      forall a, b ensures h.sum(h.sum(Zero(), a), b) == h.sum(Zero(), a + b) { SumAppend(table, Zero(), a, b); }
      forall w: Bytes, b | w != [] ensures h.update(h.sum(Zero(), w), w[0], b, |w|) == h.sum(Zero(), w[1..] + [b]) {
        Roll(table, w, b);
      }
    }
    h
  }

  datatype Params = Params(min: nat, max: nat, hash: RollingHash) {
    predicate Valid() { 0 < min <= max }

    /** The hash of a window. */
    function Hash(w: Bytes): Word { hash.sum(Zero(), w) }
  }

  predicate Boundary(p: Params, s: Bytes, n: nat)
    requires p.Valid()
  {
    p.min <= n <= |s| && (n == p.max || p.hash.hit(p.Hash(s[n - p.min..n])))
  }

  /** The length of the first chunk, looking for a boundary from `n` on. */
  function Cut(p: Params, s: Bytes, n: nat): (r: nat)
    requires p.Valid() && p.min <= n
    ensures r <= |s| && (r < |s| ==> Boundary(p, s, r))
    ensures |s| >= n ==> r >= n
    ensures forall k :: n <= k < r ==> !Boundary(p, s, k)
    decreases |s| - n
  {
    if n >= |s| then |s| else if Boundary(p, s, n) then n else Cut(p, s, n + 1)
  }

  function ChunksOf(p: Params, s: Bytes): seq<Bytes>
    requires p.Valid()
    decreases |s|
  {
    if s == [] then [] else
      var n := Cut(p, s, p.min);
      assert n > 0;
      [s[..n]] + ChunksOf(p, s[n..])
  }

  function Flatten(pieces: seq<Bytes>): Bytes {
    if pieces == [] then [] else pieces[0] + Flatten(pieces[1..])
  }

  ghost predicate NoBoundary(p: Params, s: Bytes, n: nat)
    requires p.Valid()
  {
    forall k: nat :: k <= n ==> !Boundary(p, s, k)
  }

  ghost predicate FirstBoundary(p: Params, s: Bytes, n: nat)
    requires p.Valid()
  {
    Boundary(p, s, n) && forall k: nat :: k < n ==> !Boundary(p, s, k)
  }

  /** Whether a position is a boundary depends only on what precedes it. */
  lemma BoundaryPrefix(p: Params, s: Bytes, t: Bytes, n: nat)
    requires p.Valid() && n <= |s|
    ensures Boundary(p, s + t, n) <==> Boundary(p, s, n)
  {
    if p.min <= n {
      assert (s + t)[n - p.min..n] == s[n - p.min..n];
    }
  }

  lemma NoBoundaryPrefix(p: Params, s: Bytes, t: Bytes, n: nat)
    requires p.Valid() && n <= |s| && NoBoundary(p, s, n)
    ensures NoBoundary(p, s + t, n)
  {
    forall k: nat | k <= n ensures !Boundary(p, s + t, k) { BoundaryPrefix(p, s, t, k); }
  }

  /** A first boundary seen so far stays the first cut, whatever follows. */
  lemma CutFound(p: Params, s: Bytes, t: Bytes, n: nat)
    requires p.Valid() && FirstBoundary(p, s, n)
    ensures ChunksOf(p, s + t) == [s[..n]] + ChunksOf(p, s[n..] + t)
  {
    BoundaryPrefix(p, s, t, n);
    forall k: nat | p.min <= k < n ensures !Boundary(p, s + t, k) { BoundaryPrefix(p, s, t, k); }
    var r := Cut(p, s + t, p.min);
    assert r == n;
    assert (s + t)[..n] == s[..n] && (s + t)[n..] == s[n..] + t;
  }

  /** Without a boundary the whole remainder is one chunk. */
  lemma NoCut(p: Params, s: Bytes)
    requires p.Valid() && s != [] && NoBoundary(p, s, |s|)
    ensures ChunksOf(p, s) == [s]
  {
    assert Cut(p, s, p.min) == |s|;
    assert s[..|s|] == s && s[|s|..] == [];
  }

  // ------------------------------------------------------------------ what the chunks of a stream are

  /** Nothing is lost, duplicated or reordered. */
  lemma {:induction false} Conservation(p: Params, s: Bytes)
    requires p.Valid()
    ensures Flatten(ChunksOf(p, s)) == s
    decreases |s|
  {
    if s != [] {
      var n := Cut(p, s, p.min);
      Conservation(p, s[n..]);
      assert ChunksOf(p, s)[1..] == ChunksOf(p, s[n..]);
    }
  }

  /** Every chunk but the last has between the minimum and the maximum length, the last between 1 and the maximum. */
  lemma {:induction false} Bounds(p: Params, s: Bytes, i: nat)
    requires p.Valid() && i < |ChunksOf(p, s)|
    ensures 0 < |ChunksOf(p, s)[i]| <= p.max
    ensures i < |ChunksOf(p, s)| - 1 ==> p.min <= |ChunksOf(p, s)[i]|
    decreases i
  {
    var n := Cut(p, s, p.min);
    if i == 0 {
      assert n > p.max ==> !Boundary(p, s, p.max);
      if n < p.min {
        assert s[n..] == [];
      }
    } else {
      Bounds(p, s[n..], i - 1);
    }
  }

  /** The chunks after the first `k` are the chunks of what follows them. */
  lemma {:induction false} Later(p: Params, s: Bytes, k: nat)
    requires p.Valid() && k <= |ChunksOf(p, s)|
    ensures |Flatten(ChunksOf(p, s)[..k])| <= |s|
    ensures ChunksOf(p, s)[k..] == ChunksOf(p, s[|Flatten(ChunksOf(p, s)[..k])|..])
    decreases k
  {
    if k > 0 {
      var n := Cut(p, s, p.min);
      Later(p, s[n..], k - 1);
      LaterByOne(p, s, n, ChunksOf(p, s[n..]), k);
    } else {
      assert ChunksOf(p, s)[0..] == ChunksOf(p, s) && s[0..] == s;
    }
  }

  lemma LaterByOne(p: Params, s: Bytes, n: nat, rest: seq<Bytes>, k: nat)
    requires p.Valid() && n <= |s| && 0 < k <= |rest| + 1
    requires |Flatten(rest[..k - 1])| <= |s| - n
    requires rest[k - 1..] == ChunksOf(p, s[n..][|Flatten(rest[..k - 1])|..])
    ensures |Flatten(([s[..n]] + rest)[..k])| == n + |Flatten(rest[..k - 1])|
    ensures ([s[..n]] + rest)[k..] == ChunksOf(p, s[|Flatten(([s[..n]] + rest)[..k])|..])
  {
    FirstOfAll(s[..n], rest, k);
    DropTwice(s, n, |Flatten(rest[..k - 1])|);
  }

  lemma FirstOfAll(first: Bytes, rest: seq<Bytes>, k: nat)
    requires 0 < k <= |rest| + 1
    ensures ([first] + rest)[k..] == rest[k - 1..]
    ensures |Flatten(([first] + rest)[..k])| == |first| + |Flatten(rest[..k - 1])|
  {
    assert ([first] + rest)[..k] == [first] + rest[..k - 1];
    assert ([first] + rest[..k - 1])[1..] == rest[..k - 1];
  }

  lemma DropTwice(s: Bytes, n: nat, m: nat)
    requires n + m <= |s|
    ensures s[n..][m..] == s[n + m..]
  {
  }

  /**
   Deduplication: two streams that agree on everything after a cut of each have the same chunks
   from there on, whatever came before.
   */
  lemma Resynchronization(p: Params, s: Bytes, t: Bytes, k: nat, j: nat)
    requires p.Valid() && k <= |ChunksOf(p, s)| && j <= |ChunksOf(p, t)|
    requires |Flatten(ChunksOf(p, s)[..k])| <= |s| && |Flatten(ChunksOf(p, t)[..j])| <= |t|
    requires s[|Flatten(ChunksOf(p, s)[..k])|..] == t[|Flatten(ChunksOf(p, t)[..j])|..]
    ensures ChunksOf(p, s)[k..] == ChunksOf(p, t)[j..]
  {
    Later(p, s, k);
    Later(p, t, j);
  }

  // ------------------------------------------------------------------ where the chunks end, on bytes and bits

  /** Bit `i` of a block folded from its first byte to its last: rotate left by one, then add the word of the byte. */
  ghost function FoldedBit(table: Table, w: Bytes, i: nat): bool
    requires i < 64
  {
    if w == [] then false
    else FoldedBit(table, w[..|w| - 1], if i == 0 then 63 else i - 1) != table[w[|w| - 1]].at[i]
  }

  /** Every bit set in the mask is clear. */
  ghost predicate Masked(table: Table, mask: Word, w: Bytes) {
    forall i :: 0 <= i < 64 && mask.at[i] ==> !FoldedBit(table, w, i)
  }

  lemma {:induction false} SumBit(table: Table, w: Bytes, i: nat)
    requires i < 64
    ensures Sum(table, Zero(), w).at[i] == FoldedBit(table, w, i)
  {
    if w != [] { SumBit(table, w[..|w| - 1], if i == 0 then 63 else i - 1); }
  }

  lemma HashMeans(table: Table, mask: Word, w: Bytes)
    ensures var h := BuzhashOf(table, mask); h.hit(h.sum(Zero(), w)) <==> Masked(table, mask, w)
  {
    HitMeans(table, mask, w);
  }

  lemma HitMeans(table: Table, mask: Word, w: Bytes)
    ensures And(Sum(table, Zero(), w), mask) == Zero() <==> Masked(table, mask, w)
  {
    forall i | 0 <= i < 64 ensures Sum(table, Zero(), w).at[i] == FoldedBit(table, w, i) { SumBit(table, w, i); }
    if Masked(table, mask, w) { SameIsEqual(And(Sum(table, Zero(), w), mask), Zero()); }
    if And(Sum(table, Zero(), w), mask) == Zero() {
      forall i | 0 <= i < 64 && mask.at[i] ensures !FoldedBit(table, w, i) {
        assert !And(Sum(table, Zero(), w), mask).at[i];
      }
    }
  }

  /** A chunk ends at the first place where the masked bits are clear, at the maximum, or with the stream. */
  ghost predicate EndsRight(table: Table, mask: Word, min: nat, max: nat, chunk: Bytes, last: bool) {
    |chunk| <= max && (!last ==> min <= |chunk|) &&
    (!last && |chunk| < max ==> MaskedUpTo(table, mask, min, chunk, |chunk|)) &&
    forall n :: min <= n < |chunk| ==> !MaskedUpTo(table, mask, min, chunk, n)
  }

  /** They are clear for the `min` bytes up to `n`. */
  ghost predicate MaskedUpTo(table: Table, mask: Word, min: nat, s: Bytes, n: nat)
    requires min <= n <= |s|
  {
    Masked(table, mask, s[n - min..n])
  }

  ghost predicate AllEndRight(table: Table, mask: Word, min: nat, max: nat, chunks: seq<Bytes>) {
    forall i :: 0 <= i < |chunks| ==> EndsRight(table, mask, min, max, chunks[i], i == |chunks| - 1)
  }

  /** So does the first chunk of a stream. */
  lemma FirstEndsRight(table: Table, mask: Word, min: nat, max: nat, s: Bytes)
    requires 0 < min <= max && s != []
    ensures var r := Cut(Params(min, max, BuzhashOf(table, mask)), s, min);
      EndsRight(table, mask, min, max, s[..r], r == |s|)
  {
    var p := Params(min, max, BuzhashOf(table, mask));
    var r := Cut(p, s, min);
    if min <= r {
      BoundaryMeans(table, mask, min, max, s, r, r);
      if r > max { assert Boundary(p, s, max); }
    }
    forall n | min <= n < r ensures !MaskedUpTo(table, mask, min, s[..r], n) {
      assert !Boundary(p, s, n);
      BoundaryMeans(table, mask, min, max, s, r, n);
    }
  }

  lemma BoundaryMeans(table: Table, mask: Word, min: nat, max: nat, s: Bytes, r: nat, n: nat)
    requires 0 < min <= max && min <= n <= r <= |s|
    ensures Boundary(Params(min, max, BuzhashOf(table, mask)), s, n) <==>
            n == max || MaskedUpTo(table, mask, min, s[..r], n)
  {
    assert s[..r][n - min..n] == s[n - min..n];
    HashMeans(table, mask, s[n - min..n]);
  }

  /** And every chunk of it. */
  lemma {:induction false} ChunksEndRight(table: Table, mask: Word, min: nat, max: nat, s: Bytes)
    requires 0 < min <= max
    ensures AllEndRight(table, mask, min, max, ChunksOf(Params(min, max, BuzhashOf(table, mask)), s))
    decreases |s|
  {
    if s != [] {
      var p := Params(min, max, BuzhashOf(table, mask));
      var n := Cut(p, s, min);
      FirstEndsRight(table, mask, min, max, s);
      ChunksEndRight(table, mask, min, max, s[n..]);
      assert ChunksOf(p, s) == [s[..n]] + ChunksOf(p, s[n..]);
    }
  }

  lemma {:induction false} FlattenAppend(a: seq<Bytes>, b: seq<Bytes>)
    ensures Flatten(a + b) == Flatten(a) + Flatten(b)
  {
    if a == [] {
      assert a + b == b;
    } else {
      assert (a + b)[1..] == a[1..] + b;
      FlattenAppend(a[1..], b);
    }
  }

  lemma FlattenNext(pieces: seq<Bytes>, i: nat)
    requires i < |pieces|
    ensures Flatten(pieces[..i + 1]) == Flatten(pieces[..i]) + pieces[i]
  {
    assert pieces[..i + 1] == pieces[..i] + [pieces[i]];
    FlattenAppend(pieces[..i], [pieces[i]]);
    FlattenOne(pieces[i]);
  }

  lemma FlattenOne(b: Bytes)
    ensures Flatten([b]) == b
  {
    var one: seq<Bytes> := [b];
    assert one[1..] == [];
  }

  // ------------------------------------------------------------------ fixed-size mode

  /** The pieces of a file when the minimum equals the maximum. */
  function Pieces(s: Bytes, size: nat): seq<Bytes>
    requires size > 0
    decreases |s|
  {
    if s == [] then [] else if |s| <= size then [s] else [s[..size]] + Pieces(s[size..], size)
  }

  ghost predicate AllNonempty(pieces: seq<Bytes>) { forall i :: 0 <= i < |pieces| ==> pieces[i] != [] }

  /** The pieces of a file make it up, and none is empty. */
  lemma {:induction false} PiecesMakeUp(s: Bytes, size: nat)
    requires size > 0
    ensures Flatten(Pieces(s, size)) == s && AllNonempty(Pieces(s, size))
    decreases |s|
  {
    if s != [] && |s| <= size {
      FlattenOne(s);
    } else if s != [] {
      PiecesMakeUp(s[size..], size);
      assert Pieces(s, size)[1..] == Pieces(s[size..], size);
    }
  }
}
