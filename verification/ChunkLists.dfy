/** Chunk lists, and the ranges of them that files occupy. */
module ChunkLists {
  import opened Buzhash
  import opened Chunking

  /** The hash of a chunk is modelled by the bytes hashed, which makes it injective; the empty string is `NoHash`. */
  datatype ChunkHash = NoHash | HashOf(content: Bytes)

  /** Where a file starts and where it ends, the end offset excluded. */
  datatype Range = Range(startChunk: int, startOffset: int, endChunk: int, endOffset: int)

  /** The two parallel lists a snapshot keeps name and measure these chunks. */
  ghost predicate Describes(hashes: seq<ChunkHash>, lengths: seq<nat>, chunks: seq<Bytes>) {
    |hashes| == |lengths| == |chunks| &&
    forall i :: 0 <= i < |chunks| ==> hashes[i] == HashOf(chunks[i]) && lengths[i] == |chunks[i]|
  }

  ghost predicate Within(chunks: seq<Bytes>, r: Range) {
    0 <= r.startChunk <= r.endChunk < |chunks| &&
    0 <= r.startOffset <= |chunks[r.startChunk]| && 0 <= r.endOffset <= |chunks[r.endChunk]| &&
    (r.startChunk == r.endChunk ==> r.startOffset <= r.endOffset)
  }

  /** The bytes of a range. */
  ghost function Slice(chunks: seq<Bytes>, r: Range): Bytes
    requires Within(chunks, r)
  {
    if r.startChunk == r.endChunk then chunks[r.startChunk][r.startOffset..r.endOffset]
    else
      chunks[r.startChunk][r.startOffset..] + Flatten(chunks[r.startChunk + 1..r.endChunk]) +
        chunks[r.endChunk][..r.endOffset]
  }

  /** The position of a chunk in the stream. */
  ghost function Offset(chunks: seq<Bytes>, i: nat): nat
    requires i <= |chunks|
  {
    |Flatten(chunks[..i])|
  }

  /** The chunks of one range are the chunks of the other. */
  ghost predicate SameChunks(a: seq<Bytes>, r: Range, b: seq<Bytes>, q: Range) {
    0 <= r.startChunk <= r.endChunk < |a| && 0 <= q.startChunk <= q.endChunk < |b| &&
    a[r.startChunk..r.endChunk + 1] == b[q.startChunk..q.endChunk + 1] &&
    r.startOffset == q.startOffset && r.endOffset == q.endOffset
  }

  lemma SubSlice<T>(s: seq<T>, lo: nat, hi: nat, i: nat, j: nat)
    requires lo <= hi <= |s| && i <= j <= hi - lo
    ensures s[lo..hi][i..j] == s[lo + i..lo + j]
  {
    var l, r := s[lo..hi][i..j], s[lo + i..lo + j];
    assert |l| == |r| && forall k :: 0 <= k < |l| ==> l[k] == r[k];
  }

  lemma ThreeParts<T>(s: seq<T>, a: nat, b: nat, c: nat, d: nat)
    requires a <= b <= c <= d <= |s|
    ensures s[a..d] == s[a..b] + s[b..c] + s[c..d]
  {
  }

  /** Renumbering a range keeps its bytes. */
  lemma SameSlice(a: seq<Bytes>, r: Range, b: seq<Bytes>, q: Range)
    requires SameChunks(a, r, b, q) && Within(a, r)
    ensures Within(b, q) && Slice(b, q) == Slice(a, r)
  {
    var s, t := a[r.startChunk..r.endChunk + 1], b[q.startChunk..q.endChunk + 1];
    var n := r.endChunk - r.startChunk;
    assert |s| == n + 1 == |t|;
    assert a[r.startChunk] == s[0] == b[q.startChunk] && a[r.endChunk] == s[n] == b[q.endChunk];
    if n > 0 {
      SubSlice(a, r.startChunk, r.endChunk + 1, 1, n);
      SubSlice(b, q.startChunk, q.endChunk + 1, 1, n);
    }
  }

  lemma {:induction false} OffsetNext(chunks: seq<Bytes>, i: nat)
    requires i < |chunks|
    ensures Offset(chunks, i + 1) == Offset(chunks, i) + |chunks[i]|
  {
    assert chunks[..i + 1] == chunks[..i] + [chunks[i]];
    FlattenAppend(chunks[..i], [chunks[i]]);
    FlattenOne(chunks[i]);
  }

  lemma OffsetBounds(chunks: seq<Bytes>, i: nat, j: nat)
    requires i <= j <= |chunks|
    ensures Offset(chunks, i) <= Offset(chunks, j) <= |Flatten(chunks)|
    ensures Flatten(chunks)[Offset(chunks, i)..Offset(chunks, j)] == Flatten(chunks[i..j])
  {
    assert chunks[..j] == chunks[..i] + chunks[i..j];
    FlattenAppend(chunks[..i], chunks[i..j]);
    assert chunks == chunks[..j] + chunks[j..];
    FlattenAppend(chunks[..j], chunks[j..]);
  }

  /** A range is an interval of the stream. */
  lemma SliceOfStream(chunks: seq<Bytes>, r: Range)
    requires Within(chunks, r)
    ensures Offset(chunks, r.startChunk) + r.startOffset <= Offset(chunks, r.endChunk) + r.endOffset <=
            |Flatten(chunks)|
    ensures Slice(chunks, r) ==
            Flatten(chunks)[Offset(chunks, r.startChunk) + r.startOffset..Offset(chunks, r.endChunk) + r.endOffset]
  {
    if r.startChunk == r.endChunk {
      PartOfChunk(chunks, r.startChunk, r.startOffset, r.endOffset);
    } else {
      SeveralChunks(chunks, r.startChunk, r.startOffset, r.endChunk, r.endOffset);
    }
  }

  lemma SeveralChunks(chunks: seq<Bytes>, i: nat, a: nat, j: nat, b: nat)
    requires i < j < |chunks| && a <= |chunks[i]| && b <= |chunks[j]|
    ensures Offset(chunks, i) + a <= Offset(chunks, j) + b <= |Flatten(chunks)|
    ensures chunks[i][a..] + Flatten(chunks[i + 1..j]) + chunks[j][..b] ==
            Flatten(chunks)[Offset(chunks, i) + a..Offset(chunks, j) + b]
  {
    var s, x, y, n := Flatten(chunks), Offset(chunks, i), Offset(chunks, j), |chunks[i]|;
    assert chunks[i][a..n] == chunks[i][a..] && chunks[j][0..b] == chunks[j][..b];
    PartOfChunk(chunks, i, a, n);
    PartOfChunk(chunks, j, 0, b);
    Between(chunks, i, j);
    ThreeParts(s, x + a, x + n, y, y + b);
  }

  lemma Between(chunks: seq<Bytes>, i: nat, j: nat)
    requires i < j <= |chunks|
    ensures Offset(chunks, i) + |chunks[i]| <= Offset(chunks, j) <= |Flatten(chunks)|
    ensures Flatten(chunks)[Offset(chunks, i) + |chunks[i]|..Offset(chunks, j)] == Flatten(chunks[i + 1..j])
  {
    OffsetNext(chunks, i);
    OffsetBounds(chunks, i + 1, j);
  }

  lemma PartOfChunk(chunks: seq<Bytes>, i: nat, a: nat, b: nat)
    requires i < |chunks| && a <= b <= |chunks[i]|
    ensures Offset(chunks, i) + b <= |Flatten(chunks)|
    ensures Flatten(chunks)[Offset(chunks, i) + a..Offset(chunks, i) + b] == chunks[i][a..b]
  {
    ChunkOfStream(chunks, i);
    SubSlice(Flatten(chunks), Offset(chunks, i), Offset(chunks, i + 1), a, b);
  }

  lemma ChunkOfStream(chunks: seq<Bytes>, i: nat)
    requires i < |chunks|
    ensures Offset(chunks, i + 1) == Offset(chunks, i) + |chunks[i]| <= |Flatten(chunks)|
    ensures Flatten(chunks)[Offset(chunks, i)..Offset(chunks, i + 1)] == chunks[i]
  {
    OffsetNext(chunks, i);
    OffsetBounds(chunks, i, i + 1);
    assert chunks[i..i + 1] == [chunks[i]];
    FlattenOne(chunks[i]);
  }

  // ------------------------------------------------------------------ measuring a range from the lengths alone

  /** The part of chunk `i` that belongs to the range. */
  function PieceLength(lengths: seq<nat>, r: Range, i: int): int
    requires 0 <= r.startChunk <= i <= r.endChunk < |lengths|
  {
    (if i == r.endChunk then r.endOffset else lengths[i]) - (if i == r.startChunk then r.startOffset else 0)
  }

  /** The total of the parts from chunk `i` on. */
  function Measure(lengths: seq<nat>, r: Range, i: int): int
    requires 0 <= r.startChunk <= i <= r.endChunk + 1 && r.endChunk < |lengths|
    decreases r.endChunk + 1 - i
  {
    if i > r.endChunk then 0 else PieceLength(lengths, r, i) + Measure(lengths, r, i + 1)
  }

  /** The total of the first `i` lengths. */
  function Upto(lengths: seq<nat>, i: nat): nat
    requires i <= |lengths|
  {
    if i == 0 then 0 else Upto(lengths, i - 1) + lengths[i - 1]
  }

  function Total(lengths: seq<nat>): nat { Upto(lengths, |lengths|) }

  lemma {:induction false} UptoAppend(a: seq<nat>, b: seq<nat>, i: nat)
    requires i <= |a| + |b|
    ensures Upto(a + b, i) == if i <= |a| then Upto(a, i) else Total(a) + Upto(b, i - |a|)
  {
    if i > 0 { UptoAppend(a, b, i - 1); }
  }

  lemma {:induction false} UptoGrows(lengths: seq<nat>, i: nat, j: nat)
    requires i <= j <= |lengths|
    ensures Upto(lengths, i) <= Upto(lengths, j)
  {
    if i < j { UptoGrows(lengths, i, j - 1); }
  }

  /** The measure of a range is the distance between its ends. */
  lemma {:induction false} MeasureIsDistance(lengths: seq<nat>, r: Range, i: nat)
    requires 0 <= r.startChunk <= i <= r.endChunk < |lengths|
    ensures Measure(lengths, r, i) ==
            Upto(lengths, r.endChunk) + r.endOffset - Upto(lengths, i) - if i == r.startChunk then r.startOffset else 0
    decreases r.endChunk - i
  {
    if i < r.endChunk {
      MeasureIsDistance(lengths, r, i + 1);
    } else {
      assert Measure(lengths, r, i + 1) == 0;
    }
  }

  lemma {:induction false} OffsetIsTotal(hashes: seq<ChunkHash>, lengths: seq<nat>, chunks: seq<Bytes>, i: nat)
    requires Describes(hashes, lengths, chunks) && i <= |chunks|
    ensures Offset(chunks, i) == Upto(lengths, i)
  {
    if i > 0 {
      OffsetNext(chunks, i - 1);
      OffsetIsTotal(hashes, lengths, chunks, i - 1);
    }
  }

  /** The size computed from the lengths is the number of bytes in the range. */
  lemma SizeOfSlice(hashes: seq<ChunkHash>, lengths: seq<nat>, chunks: seq<Bytes>, r: Range)
    requires Describes(hashes, lengths, chunks) && Within(chunks, r)
    ensures Measure(lengths, r, r.startChunk) == |Slice(chunks, r)|
  {
    SliceOfStream(chunks, r);
    MeasureIsDistance(lengths, r, r.startChunk);
    OffsetIsTotal(hashes, lengths, chunks, r.startChunk);
    OffsetIsTotal(hashes, lengths, chunks, r.endChunk);
  }

  // ------------------------------------------------------------------ positions in a stream of chunks

  /** The chunk that holds the byte at `position`, and its offset there; past the end, the chunk after the last. */
  function StartAt(lengths: seq<nat>, position: nat, i: nat): (at: (nat, nat))
    requires i <= |lengths|
    ensures i <= at.0 <= |lengths| && (at.0 < |lengths| ==> at.1 < lengths[at.0])
    decreases |lengths| - i
  {
    if i == |lengths| || position < lengths[i] then (i, position)
    else StartAt(lengths, position - lengths[i], i + 1)
  }

  /** The chunk in which the first `position` bytes end, and how far into it. */
  function EndAt(lengths: seq<nat>, position: nat, i: nat): (at: (nat, nat))
    requires i <= |lengths|
    ensures i <= at.0 <= |lengths| && (at.0 < |lengths| ==> at.1 <= lengths[at.0])
    ensures position > 0 ==> at.1 > 0
    decreases |lengths| - i
  {
    if i == |lengths| || position <= lengths[i] then (i, position)
    else EndAt(lengths, position - lengths[i], i + 1)
  }

  lemma {:induction false} StartPosition(lengths: seq<nat>, position: nat, i: nat)
    requires i <= |lengths|
    ensures var at := StartAt(lengths, position, i); Upto(lengths, at.0) + at.1 == Upto(lengths, i) + position
    decreases |lengths| - i
  {
    if i < |lengths| && position >= lengths[i] {
      StartPosition(lengths, position - lengths[i], i + 1);
    }
  }

  lemma {:induction false} EndPosition(lengths: seq<nat>, position: nat, i: nat)
    requires i <= |lengths|
    ensures var at := EndAt(lengths, position, i); Upto(lengths, at.0) + at.1 == Upto(lengths, i) + position
    decreases |lengths| - i
  {
    if i < |lengths| && position > lengths[i] {
      EndPosition(lengths, position - lengths[i], i + 1);
    }
  }

  /** The range, in a list whose first `base` chunks come before these, of `n` bytes from `position` on. */
  function RangeAt(lengths: seq<nat>, base: nat, position: nat, n: nat): Range {
    var s, e := StartAt(lengths, position, 0), EndAt(lengths, position + n, 0);
    Range(base + s.0, s.1, base + e.0, e.1)
  }

  predicate Positive(lengths: seq<nat>) { forall i :: 0 <= i < |lengths| ==> lengths[i] > 0 }

  /** The end lies in a chunk of the list exactly if it does not lie behind them all. */
  lemma EndInside(lengths: seq<nat>, position: nat)
    ensures EndAt(lengths, position, 0).0 < |lengths| <==> position <= Total(lengths) && lengths != []
  {
    EndPosition(lengths, position, 0);
    var e := EndAt(lengths, position, 0);
    assert lengths[..|lengths|] == lengths;
    if e.0 < |lengths| {
      UptoGrows(lengths, e.0 + 1, |lengths|);
    } else if lengths != [] {
      EndPast(lengths, position, 0);
    }
  }

  /** Past the end, something is left over. */
  lemma {:induction false} EndPast(lengths: seq<nat>, position: nat, i: nat)
    requires i < |lengths| && EndAt(lengths, position, i).0 == |lengths|
    ensures EndAt(lengths, position, i).1 > 0
    decreases |lengths| - i
  {
    if i + 1 < |lengths| { EndPast(lengths, position - lengths[i], i + 1); }
  }

  /** Looking for the end may begin where the start was found. */
  lemma {:induction false} EndFromStart(lengths: seq<nat>, position: nat, n: nat, i: nat)
    requires n > 0 && i <= |lengths|
    ensures var s := StartAt(lengths, position, i); EndAt(lengths, position + n, i) == EndAt(lengths, s.1 + n, s.0)
    decreases |lengths| - i
  {
    if i < |lengths| && position >= lengths[i] {
      EndFromStart(lengths, position - lengths[i], n, i + 1);
    }
  }

  /** The next file starts where this one ends, or at the next chunk if this one fills its last chunk. */
  lemma {:induction false} NextStart(lengths: seq<nat>, position: nat, i: nat)
    requires Positive(lengths) && position > 0 && i <= |lengths|
    ensures var e := EndAt(lengths, position, i);
      StartAt(lengths, position, i) == if e.0 < |lengths| && e.1 == lengths[e.0] then (e.0 + 1, 0) else e
    decreases |lengths| - i
  {
    if i < |lengths| && position > lengths[i] {
      NextStart(lengths, position - lengths[i], i + 1);
    }
  }

  /** The ends of a nonempty interval inside the stream are in order and inside the list. */
  lemma RangeInside(lengths: seq<nat>, base: nat, position: nat, n: nat)
    requires n > 0 && position + n <= Total(lengths)
    ensures var s, e := StartAt(lengths, position, 0), EndAt(lengths, position + n, 0);
      s.0 <= e.0 < |lengths| && (s.0 == e.0 ==> s.1 < e.1) &&
      Upto(lengths, s.0) + s.1 == position && Upto(lengths, e.0) + e.1 == position + n
  {
    StartPosition(lengths, position, 0);
    EndPosition(lengths, position + n, 0);
    var s, e := StartAt(lengths, position, 0), EndAt(lengths, position + n, 0);
    assert lengths[..|lengths|] == lengths;
    if s.0 > e.0 {
      UptoGrows(lengths, e.0 + 1, s.0);
    }
  }

  lemma RangeInStream(hashes: seq<ChunkHash>, lengths: seq<nat>, chunks: seq<Bytes>, position: nat, n: nat)
    requires Describes(hashes, lengths, chunks) && n > 0 && position + n <= |Flatten(chunks)|
    ensures var q := RangeAt(lengths, 0, position, n);
      Within(chunks, q) && Slice(chunks, q) == Flatten(chunks)[position..position + n]
  {
    var q := RangeAt(lengths, 0, position, n);
    OffsetIsTotal(hashes, lengths, chunks, |chunks|);
    assert chunks[..|chunks|] == chunks && lengths[..|lengths|] == lengths;
    RangeInside(lengths, 0, position, n);
    RangeEnds(hashes, lengths, chunks, q, position, n);
  }

  lemma RangeEnds(hashes: seq<ChunkHash>, lengths: seq<nat>, chunks: seq<Bytes>, q: Range, position: nat, n: nat)
    requires Describes(hashes, lengths, chunks) && Within(chunks, q)
    requires Upto(lengths, q.startChunk) + q.startOffset == position
    requires Upto(lengths, q.endChunk) + q.endOffset == position + n
    ensures position + n <= |Flatten(chunks)| && Slice(chunks, q) == Flatten(chunks)[position..position + n]
  {
    OffsetIsTotal(hashes, lengths, chunks, q.startChunk);
    OffsetIsTotal(hashes, lengths, chunks, q.endChunk);
    SliceOfStream(chunks, q);
  }

  function Shifted(r: Range, n: int): Range { r.(startChunk := r.startChunk + n, endChunk := r.endChunk + n) }

  lemma ShiftedSlice(front: seq<Bytes>, chunks: seq<Bytes>, q: Range)
    requires Within(chunks, q)
    ensures Within(front + chunks, Shifted(q, |front|))
    ensures Slice(front + chunks, Shifted(q, |front|)) == Slice(chunks, q)
  {
    assert (front + chunks)[|front| + q.startChunk..|front| + q.endChunk + 1] == chunks[q.startChunk..q.endChunk + 1];
    SameSlice(chunks, q, front + chunks, Shifted(q, |front|));
  }

  /** What a file occupies, in the list of all chunks, is what it occupies in the stream of its own. */
  lemma RangeContent(front: seq<Bytes>, hashes: seq<ChunkHash>, lengths: seq<nat>, chunks: seq<Bytes>, position: nat,
                     n: nat)
    requires Describes(hashes, lengths, chunks) && n > 0 && position + n <= |Flatten(chunks)|
    ensures var r := RangeAt(lengths, |front|, position, n);
      Within(front + chunks, r) && Slice(front + chunks, r) == Flatten(chunks)[position..position + n]
  {
    var q := RangeAt(lengths, 0, position, n);
    RangeInStream(hashes, lengths, chunks, position, n);
    ShiftedSlice(front, chunks, q);
    assert RangeAt(lengths, |front|, position, n) == Shifted(q, |front|);
  }
}
