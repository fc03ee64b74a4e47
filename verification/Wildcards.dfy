/** Matching a path against a pattern with wildcards, keeping only the last asterisk to return to. */
module Wildcards {
  import opened Buzhash
  import opened PathOrder

  const STAR: Byte := 42
  const QUESTION: Byte := 63

  /** Only NULs are left; the algorithm takes them for the end. */
  predicate Ended(text: Path) { forall i :: 0 <= i < |text| ==> text[i] == 0 }

  /** What a pattern means, for a text that may be followed by NULs. */
  predicate Glob(text: Path, pattern: Path)
    decreases |text| + |pattern|
  {
    if pattern == [] then Ended(text)
    else if pattern[0] == STAR then Glob(text, pattern[1..]) || (text != [] && Glob(text[1..], pattern))
    else text != [] && (pattern[0] == QUESTION || pattern[0] == text[0]) && Glob(text[1..], pattern[1..])
  }

  /** What it means for a text that ends where it does. */
  predicate StrictGlob(text: Path, pattern: Path)
    decreases |text| + |pattern|
  {
    if pattern == [] then text == []
    else if pattern[0] == STAR then StrictGlob(text, pattern[1..]) || (text != [] && StrictGlob(text[1..], pattern))
    else text != [] && (pattern[0] == QUESTION || pattern[0] == text[0]) && StrictGlob(text[1..], pattern[1..])
  }

  /** An asterisk (42) matches any part of the text, a question mark (63) any byte, and every other byte itself. */
  lemma {:induction false} StrictGlobMeans(text: Path, c: Byte, rest: Path)
    ensures StrictGlob(text, [c] + rest) <==>
      if c == 42 then exists k :: 0 <= k <= |text| && StrictGlob(text[k..], rest)
      else text != [] && (c == 63 || text[0] == c) && StrictGlob(text[1..], rest)
  {
    assert ([c] + rest)[1..] == rest;
    if c == 42 {
      if text != [] { StrictGlobMeans(text[1..], c, rest); }
      if StrictGlob(text, rest) { assert text[0..] == text; }
      if text != [] && StrictGlob(text[1..], [c] + rest) {
        var k :| 0 <= k <= |text[1..]| && StrictGlob(text[1..][k..], rest);
        assert text[1..][k..] == text[k + 1..];
      }
      if k :| 0 <= k <= |text| && StrictGlob(text[k..], rest) {
        if k == 0 { assert text[0..] == text; } else { assert text[1..][k - 1..] == text[k..]; }
      }
    }
  }

  /** A text without NULs, as paths are, just has to match. */
  lemma {:induction false} GlobIsStrict(text: Path, pattern: Path)
    requires 0 !in text
    ensures Glob(text, pattern) <==> StrictGlob(text, pattern)
    decreases |text| + |pattern|
  {
    if pattern != [] {
      if pattern[0] == STAR { GlobIsStrict(text, pattern[1..]); }
      if text != [] {
        GlobIsStrict(text[1..], pattern);
        GlobIsStrict(text[1..], pattern[1..]);
      }
    } else if text != [] {
      assert text[0] in text;
    }
  }

  /** Any other text matches if a part of it does that only NULs follow. */
  lemma {:induction false} GlobIsPadded(text: Path, pattern: Path)
    ensures Glob(text, pattern) <==> exists n :: 0 <= n <= |text| && StrictGlob(text[..n], pattern) && Ended(text[n..])
    decreases |text| + |pattern|
  {
    if Glob(text, pattern) {
      var n := PaddedPart(text, pattern);
    }
    if n :| 0 <= n <= |text| && StrictGlob(text[..n], pattern) && Ended(text[n..]) { PartIsGlob(text, pattern, n); }
  }

  lemma {:induction false} PaddedPart(text: Path, pattern: Path) returns (n: nat)
    requires Glob(text, pattern)
    ensures n <= |text| && StrictGlob(text[..n], pattern) && Ended(text[n..])
    decreases |text| + |pattern|
  {
    if pattern == [] {
      n := 0;
    } else if pattern[0] == STAR && Glob(text, pattern[1..]) {
      n := PaddedPart(text, pattern[1..]);
    } else {
      n := PaddedPart(text[1..], if pattern[0] == STAR then pattern else pattern[1..]);
      n := n + 1;
      assert text[..n][1..] == text[1..][..n - 1] && text[n..] == text[1..][n - 1..];
    }
  }

  lemma {:induction false} PartIsGlob(text: Path, pattern: Path, n: nat)
    requires n <= |text| && StrictGlob(text[..n], pattern) && Ended(text[n..])
    ensures Glob(text, pattern)
    decreases |text| + |pattern|
  {
    if pattern == [] {
      assert text[n..] == text;
    } else if pattern[0] == STAR && StrictGlob(text[..n], pattern[1..]) {
      PartIsGlob(text, pattern[1..], n);
    } else {
      assert text[..n][1..] == text[1..][..n - 1] && text[n..] == text[1..][n - 1..];
      PartIsGlob(text[1..], if pattern[0] == STAR then pattern else pattern[1..], n - 1);
    }
  }

  /** The algorithm is meant for texts without asterisks; if both have them, it takes one for the other. */
  predicate Plain(text: Path, pattern: Path) { STAR !in text || STAR !in pattern }

  predicate Simple(pattern: Path) {
    forall i :: 0 <= i < |pattern| - 1 ==> !(pattern[i] == STAR && pattern[i + 1] == STAR)
  }

  // ------------------------------------------------------------------ the algorithm

  /** The first position that may match the byte. */
  function Seek(text: Path, t: nat, c: Byte): (r: nat)
    requires t <= |text|
    ensures t <= r <= |text|
    decreases |text| - t
  {
    if t < |text| && text[t] != c && c != QUESTION then Seek(text, t + 1, c) else t
  }

  /** The byte of the pattern, or 0 at its end. */
  function At(pattern: Path, p: nat): Byte { if p < |pattern| then pattern[p] else 0 }

  /**
   The result from position `t` in the text and `p` in the pattern, when the part of the pattern after the last
   asterisk starts at `afterLastWildcard` and was matched from `afterLastMatched` on.
   */
  function Run(text: Path, pattern: Path, t: nat, p: nat, afterLastWildcard: nat, afterLastMatched: nat): bool
    requires afterLastMatched <= t <= |text| && afterLastWildcard <= p
    requires afterLastWildcard > 0 ==> afterLastWildcard < |pattern|
    decreases |pattern| - afterLastWildcard, |text| - afterLastMatched, |text| - t, |pattern| - p
  {
    if t == |text| then
      p >= |pattern| || (pattern[p] == STAR && Run(text, pattern, t, p + 1, afterLastWildcard, afterLastMatched))
    else
      var w := At(pattern, p);
      if text[t] == w || w == QUESTION then Run(text, pattern, t + 1, p + 1, afterLastWildcard, afterLastMatched)
      else if w == STAR then p + 1 >= |pattern| || Resume(text, pattern, t, p + 1)
      else if afterLastWildcard > 0 then Resume(text, pattern, afterLastMatched + 1, afterLastWildcard)
      else false
  }

  /** Look for the first byte after the asterisk. */
  function Resume(text: Path, pattern: Path, t: nat, afterLastWildcard: nat): bool
    requires t <= |text| && 0 < afterLastWildcard < |pattern|
    decreases |pattern| - afterLastWildcard, |text| - t, |text| + 1, 0
  {
    var s := Seek(text, t, pattern[afterLastWildcard]);
    s < |text| && Run(text, pattern, s + 1, afterLastWildcard + 1, afterLastWildcard, s)
  }

  /** The loop; it ends, and stays within both strings, whatever they are. */
  method MatchPattern(text: Path, pattern: Path) returns (matched: bool)
    ensures matched == Run(text, pattern, 0, 0, 0, 0)
    ensures Plain(text, pattern) ==>
      (matched <==> if Simple(pattern) then Glob(text, pattern) else GlobToStars(text, pattern, FirstPair(pattern, 0)))
  {
    if Plain(text, pattern) {
      if Simple(pattern) { RunIsGlob(text, pattern, 0, 0, 0, 0); } else { RunIsGlobToStars(text, pattern); }
    }
    var t, p, afterLastWildcard, afterLastMatched := 0, 0, 0, 0;
    while true
      invariant 0 <= afterLastMatched <= t <= |text| && 0 <= afterLastWildcard <= p
      invariant afterLastWildcard > 0 ==> afterLastWildcard < |pattern|
      invariant Run(text, pattern, 0, 0, 0, 0) == Run(text, pattern, t, p, afterLastWildcard, afterLastMatched)
      decreases |pattern| - afterLastWildcard, |text| - afterLastMatched, |text| - t, |pattern| - p
    {
      if t >= |text| {
        if p >= |pattern| { return true; }
        if pattern[p] == STAR {
          p := p + 1;
          continue;
        }
        return false;
      }
      var w := if p < |pattern| then pattern[p] else 0;
      if text[t] != w {
        if w == QUESTION {
          t, p := t + 1, p + 1;
          continue;
        }
        if w == STAR {
          p := p + 1;
          afterLastWildcard := p;
          if p >= |pattern| { return true; }
        } else if afterLastWildcard > 0 {
          p, t := afterLastWildcard, afterLastMatched;
          t := t + 1;
        } else {
          return false;
        }
        t := SkipTo(text, t, pattern[p]);
        if t >= |text| { return false; }
        afterLastMatched := t;
      }
      t, p := t + 1, p + 1;
    }
  }

  /** The loop over the bytes that an asterisk skips. */
  method SkipTo(text: Path, from: nat, c: Byte) returns (t: nat)
    requires from <= |text|
    ensures t == Seek(text, from, c)
  {
    t := from;
    while t < |text| && text[t] != c && c != QUESTION
      invariant from <= t <= |text| && Seek(text, from, c) == Seek(text, t, c)
    {
      t := t + 1;
    }
  }

  // ------------------------------------------------------------------ what it computes

  /** A byte of the pattern that is not an asterisk matches a byte of the text. */
  predicate Fits(c: Byte, b: Byte) { c != STAR && (c == QUESTION || c == b) }

  /** The text before `t`, from `m` on, has been matched byte by byte with the pattern from `w` on. */
  ghost predicate Aligned(text: Path, pattern: Path, m: nat, w: nat, n: nat) {
    m + n <= |text| && w + n <= |pattern| && forall j :: w <= j < w + n ==> Fits(pattern[j], text[m + (j - w)])
  }

  lemma {:induction false} AlignedGlob(text: Path, pattern: Path, m: nat, w: nat, n: nat)
    requires Aligned(text, pattern, m, w, n)
    ensures Glob(text[m..], pattern[w..]) <==> Glob(text[m + n..], pattern[w + n..])
    decreases n
  {
    if n > 0 {
      assert Fits(pattern[w], text[m + (w - w)]);
      AlignedGlob(text, pattern, m + 1, w + 1, n - 1);
      GlobStep(text, pattern, m, w);
    }
  }

  /** The meaning at a position, in terms of the next ones. */
  lemma GlobStep(text: Path, pattern: Path, t: nat, p: nat)
    requires t <= |text| && p < |pattern|
    ensures pattern[p] == STAR ==>
      (Glob(text[t..], pattern[p..]) <==>
       Glob(text[t..], pattern[p + 1..]) || (t < |text| && Glob(text[t + 1..], pattern[p..])))
    ensures pattern[p] != STAR ==>
      (Glob(text[t..], pattern[p..]) <==>
       t < |text| && Fits(pattern[p], text[t]) && Glob(text[t + 1..], pattern[p + 1..]))
  {
    var x, y := text[t..], pattern[p..];
    assert y[1..] == pattern[p + 1..] && (t < |text| ==> x[1..] == text[t + 1..]);
  }

  /** What an asterisk may skip, it may skip from further ahead. */
  lemma {:induction false} StarReaches(text: Path, pattern: Path, t: nat, k: nat, p: nat)
    requires t <= k <= |text| && p < |pattern| && pattern[p] == STAR && Glob(text[k..], pattern[p..])
    ensures Glob(text[t..], pattern[p..])
    decreases k - t
  {
    if t < k {
      GlobStep(text, pattern, t, p);
      StarReaches(text, pattern, t + 1, k, p);
    }
  }

  /** An asterisk matches somewhere. */
  lemma {:induction false} StarMatches(text: Path, pattern: Path, t: nat, p: nat) returns (k: nat)
    requires t <= |text| && p < |pattern| && pattern[p] == STAR && Glob(text[t..], pattern[p..])
    ensures t <= k <= |text| && Glob(text[k..], pattern[p + 1..])
    decreases |text| - t
  {
    GlobStep(text, pattern, t, p);
    k := t;
    if !Glob(text[t..], pattern[p + 1..]) { k := StarMatches(text, pattern, t + 1, p); }
  }

  /** A match of the part before the next asterisk takes as many bytes wherever it lies. */
  lemma {:induction false} PartMatches(text: Path, pattern: Path, k: nat, w: nat, n: nat)
    requires k <= |text| && w + n <= |pattern| && Glob(text[k..], pattern[w..])
    requires forall j :: w <= j < w + n ==> pattern[j] != STAR
    ensures k + n <= |text| && Glob(text[k + n..], pattern[w + n..])
    decreases n
  {
    if n > 0 {
      GlobStep(text, pattern, k, w);
      PartMatches(text, pattern, k + 1, w + 1, n - 1);
    }
  }

  /** Only the earliest match before the next asterisk, or before the end of the text, matters. */
  lemma EarliestSuffices(text: Path, pattern: Path, t: nat, p: nat, w: nat, m: nat)
    requires 0 < w <= p <= |pattern| && m <= t && t - m == p - w && pattern[w - 1] == STAR
    requires Aligned(text, pattern, m, w, p - w)
    requires t == |text| || (p < |pattern| && pattern[p] == STAR)
    ensures Glob(text[m..], pattern[w - 1..]) <==> Glob(text[t..], pattern[p..])
  {
    AlignedGlob(text, pattern, m, w, p - w);
    GlobStep(text, pattern, m, w - 1);
    if Glob(text[m..], pattern[w - 1..]) {
      var k := StarMatches(text, pattern, m, w - 1);
      PartMatches(text, pattern, k, w, p - w);
      if t < |text| { StarReaches(text, pattern, t, k + (p - w), p); }
    }
  }

  /**
   The text matches if and only if the rest does from where the algorithm stands, or from a later start of the last
   part.
   */
  ghost predicate Stands(text: Path, pattern: Path, t: nat, p: nat, w: nat, m: nat) {
    m <= t <= |text| && w <= p <= |pattern| && (w > 0 ==> w < |pattern|) &&
    ((t == |text| && (Glob(text, pattern) <==> Glob(text[t..], pattern[p..]))) ||
     (if w == 0 then Glob(text, pattern) <==> Glob(text[t..], pattern[p..])
      else pattern[w - 1] == STAR && t - m == p - w && Aligned(text, pattern, m, w, p - w) &&
           (Glob(text, pattern) <==> Glob(text[m..], pattern[w - 1..]))))
  }

  lemma {:induction false} SeekSkips(text: Path, pattern: Path, t: nat, w: nat)
    requires t <= |text| && 0 < w < |pattern| && pattern[w - 1] == STAR && pattern[w] != STAR
    ensures var s := Seek(text, t, pattern[w]);
      (Glob(text[t..], pattern[w - 1..]) <==> Glob(text[s..], pattern[w - 1..])) &&
      (s == |text| ==> !Glob(text[s..], pattern[w - 1..])) && (s < |text| ==> Fits(pattern[w], text[s]))
    decreases |text| - t
  {
    GlobStep(text, pattern, t, w - 1);
    GlobStep(text, pattern, t, w);
    if t < |text| && text[t] != pattern[w] && pattern[w] != QUESTION { SeekSkips(text, pattern, t + 1, w); }
  }

  lemma {:induction false} ResumeIsGlob(text: Path, pattern: Path, t: nat, w: nat)
    requires Plain(text, pattern) && Simple(pattern) && t <= |text| && 0 < w < |pattern| && pattern[w - 1] == STAR
    requires Glob(text, pattern) <==> Glob(text[t..], pattern[w - 1..])
    ensures Resume(text, pattern, t, w) <==> Glob(text, pattern)
    decreases |pattern| - w, |text| - t, |text| + 1, 0
  {
    assert !(pattern[w - 1] == STAR && pattern[w - 1 + 1] == STAR);
    SeekSkips(text, pattern, t, w);
    var s := Seek(text, t, pattern[w]);
    if s < |text| {
      assert Aligned(text, pattern, s, w, 1);
      RunIsGlob(text, pattern, s + 1, w + 1, w, s);
    }
  }

  /** A trailing asterisk matches everything. */
  lemma {:induction false} LastStar(text: Path, pattern: Path, t: nat)
    requires t <= |text| && pattern != [] && pattern[|pattern| - 1] == STAR
    ensures Glob(text[t..], pattern[|pattern| - 1..])
    decreases |text| - t
  {
    GlobStep(text, pattern, t, |pattern| - 1);
    if t < |text| { LastStar(text, pattern, t + 1); }
  }

  lemma Settles(text: Path, pattern: Path, t: nat, p: nat, w: nat, m: nat)
    requires Stands(text, pattern, t, p, w, m) && (t == |text| || (p < |pattern| && pattern[p] == STAR))
    ensures Glob(text, pattern) <==> Glob(text[t..], pattern[p..])
  {
    if w > 0 && !(Glob(text, pattern) <==> Glob(text[t..], pattern[p..])) {
      EarliestSuffices(text, pattern, t, p, w, m);
    }
  }

  /** After a mismatch the last part must start later. */
  lemma StartsLater(text: Path, pattern: Path, t: nat, p: nat, w: nat, m: nat)
    requires Stands(text, pattern, t, p, w, m) && t < |text| && w > 0
    requires if p < |pattern| then pattern[p] != STAR && !Fits(pattern[p], text[t]) else !Ended(text[t..])
    ensures pattern[w - 1] == STAR && (Glob(text, pattern) <==> Glob(text[m + 1..], pattern[w - 1..]))
  {
    AlignedGlob(text, pattern, m, w, p - w);
    GlobStep(text, pattern, m, w - 1);
    if p < |pattern| { GlobStep(text, pattern, t, p); }
  }

  lemma EndedStep(text: Path, t: nat)
    requires t < |text|
    ensures Ended(text[t..]) <==> text[t] == 0 && Ended(text[t + 1..])
  {
    var rest := text[t..];
    assert rest[0] == text[t] && rest[1..] == text[t + 1..];
    if Ended(rest[1..]) && rest[0] == 0 {
      forall i | 0 <= i < |rest| ensures rest[i] == 0 {
        if i > 0 { assert rest[1..][i - 1] == rest[i]; }
      }
    }
  }

  /** At the end of the pattern the text must have ended, too, or the last part must start later. */
  lemma {:induction false} RunBehind(text: Path, pattern: Path, t: nat, p: nat, w: nat, m: nat)
    requires m <= t <= |text| && |pattern| <= p && w <= p && (w > 0 ==> w < |pattern|)
    ensures Run(text, pattern, t, p, w, m) <==> Ended(text[t..]) || (w > 0 && Resume(text, pattern, m + 1, w))
    decreases |text| - t
  {
    if t < |text| {
      EndedStep(text, t);
      if text[t] == 0 { RunBehind(text, pattern, t + 1, p + 1, w, m); }
    }
  }

  /** The algorithm decides the meaning of the pattern. */
  lemma {:induction false} RunIsGlob(text: Path, pattern: Path, t: nat, p: nat, w: nat, m: nat)
    requires Plain(text, pattern) && Simple(pattern) && Stands(text, pattern, t, p, w, m)
    ensures Run(text, pattern, t, p, w, m) <==> Glob(text, pattern)
    decreases |pattern| - w, |text| - m, |text| - t, |pattern| - p, 1
  {
    if p < |pattern| { GlobStep(text, pattern, t, p); }
    if t == |text| {
      Settles(text, pattern, t, p, w, m);
      if p < |pattern| && pattern[p] == STAR { RunIsGlob(text, pattern, t, p + 1, w, m); }
    } else if p == |pattern| {
      BehindIsGlob(text, pattern, t, w, m);
    } else {
      assert text[t] in text && pattern[p] in pattern;
      if text[t] == pattern[p] || pattern[p] == QUESTION {
        NextByte(text, pattern, t, p, w, m);
        RunIsGlob(text, pattern, t + 1, p + 1, w, m);
      } else if pattern[p] == STAR {
        Settles(text, pattern, t, p, w, m);
        if p + 1 == |pattern| { LastStar(text, pattern, t); } else { ResumeIsGlob(text, pattern, t, p + 1); }
      } else if w > 0 {
        StartsLater(text, pattern, t, p, w, m);
        ResumeIsGlob(text, pattern, m + 1, w);
      }
    }
  }

  lemma {:induction false} BehindIsGlob(text: Path, pattern: Path, t: nat, w: nat, m: nat)
    requires Plain(text, pattern) && Simple(pattern) && Stands(text, pattern, t, |pattern|, w, m) && t < |text|
    ensures Run(text, pattern, t, |pattern|, w, m) <==> Glob(text, pattern)
    decreases |pattern| - w, |text| - m, |text| - t, 0, 0
  {
    RunBehind(text, pattern, t, |pattern|, w, m);
    if w > 0 {
      if Ended(text[t..]) {
        AlignedGlob(text, pattern, m, w, |pattern| - w);
        GlobStep(text, pattern, m, w - 1);
      } else {
        StartsLater(text, pattern, t, |pattern|, w, m);
        ResumeIsGlob(text, pattern, m + 1, w);
      }
    }
  }

  lemma NextByte(text: Path, pattern: Path, t: nat, p: nat, w: nat, m: nat)
    requires Stands(text, pattern, t, p, w, m) && t < |text| && p < |pattern| && Fits(pattern[p], text[t])
    ensures Stands(text, pattern, t + 1, p + 1, w, m)
  {
    GlobStep(text, pattern, t, p);
    if w > 0 {
      assert m + (p - w) == t;
    }
  }

  // ------------------------------------------------------------------ two asterisks in a row

  /** The first position from `i` on at which an asterisk follows an asterisk. */
  function FirstPair(pattern: Path, i: nat): (q: nat)
    requires exists k :: i <= k < |pattern| - 1 && pattern[k] == STAR && pattern[k + 1] == STAR
    ensures i <= q < |pattern| - 1 && pattern[q] == STAR && pattern[q + 1] == STAR
    ensures forall k :: i <= k < q ==> !(pattern[k] == STAR && pattern[k + 1] == STAR)
    decreases |pattern| - i
  {
    if pattern[i] == STAR && pattern[i + 1] == STAR then i else FirstPair(pattern, i + 1)
  }

  /** Only asterisks follow, the text matches what comes before them, and nothing shorter does. */
  ghost predicate GlobToStars(text: Path, pattern: Path, q: nat)
    requires q <= |pattern|
  {
    AllStars(pattern, q) && Glob(text, pattern[..q]) && forall n :: 0 <= n < |text| ==> !Glob(text[..n], pattern[..q])
  }

  predicate AllStars(pattern: Path, q: nat) { forall j :: q <= j < |pattern| ==> pattern[j] == STAR }

  ghost predicate FirstPairAt(pattern: Path, q: nat) {
    q + 1 < |pattern| && pattern[q] == STAR && pattern[q + 1] == STAR &&
    forall k :: 0 <= k < q ==> !(pattern[k] == STAR && pattern[k + 1] == STAR)
  }

  /** Where the algorithm stands, before it has reached the pair. */
  ghost predicate Before(text: Path, pattern: Path, q: nat, t: nat, p: nat, w: nat, m: nat) {
    m <= t <= |text| && w <= p <= q <= |pattern| &&
    (w > 0 ==> w < p && t - m == p - w && forall j :: w <= j < p ==> pattern[j] != STAR)
  }

  /** The text is matched from there, and nothing shorter is. */
  ghost predicate FirstRun(text: Path, pattern: Path, t: nat, p: nat, w: nat, m: nat)
    requires m <= t <= |text| && w <= p && (w > 0 ==> w < |pattern|)
  {
    Run(text, pattern, t, p, w, m) && forall n :: t <= n < |text| ==> !Run(text[..n], pattern, t, p, w, m)
  }

  ghost predicate FirstResume(text: Path, pattern: Path, t: nat, w: nat)
    requires t <= |text| && 0 < w < |pattern|
  {
    Resume(text, pattern, t, w) && forall n :: t <= n < |text| ==> !Resume(text[..n], pattern, t, w)
  }

  /** At the end of the text only asterisks may be left. */
  lemma {:induction false} RunAtEnd(text: Path, pattern: Path, p: nat, w: nat, m: nat)
    requires m <= |text| && w <= p && (w > 0 ==> w < |pattern|)
    ensures Run(text, pattern, |text|, p, w, m) <==> AllStars(pattern, p)
    decreases |pattern| - p
  {
    if p < |pattern| && pattern[p] == STAR { RunAtEnd(text, pattern, p + 1, w, m); }
  }

  lemma {:induction false} NoStarToSeek(text: Path, t: nat)
    requires STAR !in text && t <= |text|
    ensures Seek(text, t, STAR) == |text|
    decreases |text| - t
  {
    if t < |text| {
      assert text[t] in text;
      NoStarToSeek(text, t + 1);
    }
  }

  /** Searching a part of the text. */
  lemma {:induction false} SeekInPart(text: Path, t: nat, c: Byte, n: nat)
    requires t <= n <= |text|
    ensures Seek(text[..n], t, c) == if Seek(text, t, c) < n then Seek(text, t, c) else n
    decreases n - t
  {
    if t < n { SeekInPart(text, t + 1, c, n); }
  }

  /** A run that succeeds has a byte left for every byte of the pattern up to the next asterisk. */
  lemma {:induction false} RunNeeds(text: Path, pattern: Path, t: nat, p: nat, w: nat, m: nat, k: nat)
    requires m <= t <= |text| && w <= p <= k <= |pattern| && (w > 0 ==> w < |pattern| && t - m == p - w)
    requires forall j :: (if w > 0 then w else p) <= j < k ==> pattern[j] != STAR
    requires Run(text, pattern, t, p, w, m)
    ensures |text| - t >= k - p
    decreases |text| - m, |text| - t
  {
    if p < k {
      if t == |text| {
        RunAtEnd(text, pattern, p, w, m);
      } else if text[t] == At(pattern, p) || At(pattern, p) == QUESTION {
        RunNeeds(text, pattern, t + 1, p + 1, w, m, k);
      } else {
        var s := Seek(text, m + 1, pattern[w]);
        RunNeeds(text, pattern, s + 1, w + 1, w, s, k);
      }
    }
  }

  /** A text that ends where the last part has failed does not match. */
  lemma TooShort(text: Path, pattern: Path, t: nat, p: nat, w: nat, m: nat, n: nat)
    requires 0 < w < p < |pattern| && m < n <= t <= |text| && t - m == p - w
    requires forall j :: w <= j <= p ==> pattern[j] != STAR
    ensures !Resume(text[..n], pattern, m + 1, w)
  {
    var s := Seek(text[..n], m + 1, pattern[w]);
    if s < n && Run(text[..n], pattern, s + 1, w + 1, w, s) { RunNeeds(text[..n], pattern, s + 1, w + 1, w, s, p + 1); }
  }

  /** Up to the pair the algorithm does what it does with the pattern before the pair; there it stops. */
  lemma {:induction false} RunToStars(text: Path, pattern: Path, q: nat, t: nat, p: nat, w: nat, m: nat)
    requires STAR !in text && FirstPairAt(pattern, q) && Before(text, pattern, q, t, p, w, m)
    ensures Run(text, pattern, t, p, w, m) <==> AllStars(pattern, q) && FirstRun(text, pattern[..q], t, p, w, m)
    decreases |pattern| - w, |text| - m, |text| - t, |pattern| - p
  {
    var head := pattern[..q];
    if t == |text| {
      RunAtEnd(text, pattern, p, w, m);
      RunAtEnd(text, head, p, w, m);
    } else if p == q {
      NoStarToSeek(text, t);
      assert text[t] in text;
      assert Run(text[..t], head, t, p, w, m);
    } else {
      assert text[t] in text;
      RunAtEnd(text[..t], head, p, w, m);
      if text[t] == pattern[p] || pattern[p] == QUESTION {
        RunToStars(text, pattern, q, t + 1, p + 1, w, m);
        forall n | t < n < |text|
          ensures Run(text[..n], head, t, p, w, m) == Run(text[..n], head, t + 1, p + 1, w, m) {}
      } else if pattern[p] == STAR {
        ResumeToStars(text, pattern, q, t, p + 1);
        forall n | t < n < |text| ensures Run(text[..n], head, t, p, w, m) == Resume(text[..n], head, t, p + 1) {}
        assert !Resume(text[..t], head, t, p + 1);
      } else if w > 0 {
        ResumeToStars(text, pattern, q, m + 1, w);
        forall n | t < n < |text| ensures Run(text[..n], head, t, p, w, m) == Resume(text[..n], head, m + 1, w) {}
        forall n | m + 1 <= n <= t ensures !Resume(text[..n], head, m + 1, w) { TooShort(text, head, t, p, w, m, n); }
      }
    }
  }

  lemma {:induction false} ResumeToStars(text: Path, pattern: Path, q: nat, t: nat, w: nat)
    requires STAR !in text && FirstPairAt(pattern, q) && t <= |text| && 0 < w < q && pattern[w] != STAR
    ensures Resume(text, pattern, t, w) <==> AllStars(pattern, q) && FirstResume(text, pattern[..q], t, w)
    decreases |pattern| - w, |text| - t, |text| + 1, 0
  {
    var head, s := pattern[..q], Seek(text, t, pattern[w]);
    forall n | t <= n < |text|
      ensures Resume(text[..n], head, t, w) <==> s < n && Run(text[..n], head, s + 1, w + 1, w, s)
    {
      SeekInPart(text, t, pattern[w], n);
    }
    if s < |text| { RunToStars(text, pattern, q, s + 1, w + 1, w, s); }
  }

  /** With two asterisks in a row the algorithm decides something else. */
  lemma RunIsGlobToStars(text: Path, pattern: Path)
    requires Plain(text, pattern) && !Simple(pattern)
    ensures Run(text, pattern, 0, 0, 0, 0) <==> GlobToStars(text, pattern, FirstPair(pattern, 0))
  {
    var q := FirstPair(pattern, 0);
    var head := pattern[..q];
    RunToStars(text, pattern, q, 0, 0, 0, 0);
    RunIsGlob(text, head, 0, 0, 0, 0);
    forall n | 0 <= n < |text| ensures Run(text[..n], head, 0, 0, 0, 0) <==> Glob(text[..n], head) {
      RunIsGlob(text[..n], head, 0, 0, 0, 0);
    }
  }

  // ------------------------------------------------------------------ asterisks in both

  /**
   The beginning of a path, and then anything: the text must begin so, and an asterisk behind that only matches the one
   in the pattern, so that nothing but NULs may follow it.
   */
  lemma PrefixPattern(text: Path, prefix: Path)
    requires STAR !in prefix
    ensures Run(text, prefix + [STAR], 0, 0, 0, 0) <==>
      |prefix| <= |text| && (forall i :: 0 <= i < |prefix| ==> Fits(prefix[i], text[i])) &&
      (|text| == |prefix| || text[|prefix|] != STAR || Ended(text[|prefix| + 1..]))
  {
    PrefixFrom(text, prefix, 0);
  }

  lemma {:induction false} PrefixFrom(text: Path, prefix: Path, t: nat)
    requires STAR !in prefix && t <= |prefix| && t <= |text|
    ensures Run(text, prefix + [STAR], t, t, 0, 0) <==>
      |prefix| <= |text| && (forall i :: t <= i < |prefix| ==> Fits(prefix[i], text[i])) &&
      (|text| == |prefix| || text[|prefix|] != STAR || Ended(text[|prefix| + 1..]))
    decreases |prefix| - t
  {
    var pattern := prefix + [STAR];
    if t < |prefix| {
      assert prefix[t] in prefix && pattern[t] == prefix[t];
      if t < |text| && Fits(prefix[t], text[t]) { PrefixFrom(text, prefix, t + 1); }
    } else if t < |text| && text[t] == STAR {
      RunBehind(text, pattern, t + 1, t + 1, 0, 0);
    }
  }

  /** With asterisks in both, the result is not always the meaning. */
  lemma OtherwiseNotGlob()
    ensures Glob([STAR, 97], [STAR]) && !Run([STAR, 97], [STAR], 0, 0, 0, 0)
  {
    assert [STAR, 97][1..] == [97] && [97][1..] == [] && [STAR][1..] == [];
    assert Glob([], []) && Glob([], [STAR]) && Glob([97], [STAR]);
  }
}
