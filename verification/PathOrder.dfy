/**
 The order of paths: within a directory files come first, then the subdirectories, and only then
 the contents of the subdirectories.  A directory's path ends with a slash.
 */
module PathOrder {
  import opened Buzhash

  type Path = seq<Byte>

  const SLASH: Byte := 47

  /** Comparison byte by byte, with the sign of the result. */
  function Lex(a: seq<int>, b: seq<int>): int {
    if a == [] then (if b == [] then 0 else -1)
    else if b == [] then 1
    else if a[0] < b[0] then -1
    else if a[0] > b[0] then 1
    else Lex(a[1..], b[1..])
  }

  predicate Clean(path: Path) { 0 !in path }

  // ------------------------------------------------------------------ the key of a path

  /**
   The components in order, each preceded by its class and followed by 0.  The class is 0 for
   nothing at all, 1 for a file, 2 for a directory itself and 3 for a directory that is entered.
   */
  function Key(path: Path): (k: seq<int>)
    ensures |k| > 0
  {
    if path == [] then [0]
    else if path[0] == SLASH then (if |path| == 1 then [2, 0] else [3, 0] + Key(path[1..]))
    else if |path| == 1 then [1, path[0], 0]
    else [Key(path[1..])[0], path[0]] + Key(path[1..])[1..]
  }

  function Compare(left: Path, right: Path): int { Lex(Key(left), Key(right)) }

  // ------------------------------------------------------------------ the comparison as it is computed

  predicate HasSlash(path: Path) { SLASH in path }

  /** No slash follows, or only as the very last byte. */
  predicate Last(path: Path) {
    path == [] || if path[0] == SLASH then |path| == 1 else Last(path[1..])
  }

  function First(path: Path): int { if path == [] then 0 else path[0] }

  /** The decision at the first difference. */
  function AtDifference(left: Path, right: Path): int {
    if Last(left) != Last(right) then (if Last(left) then -1 else 1)
    else if HasSlash(left) then
      if !HasSlash(right) then 1
      else if First(left) == SLASH then -1
      else if First(right) == SLASH then 1
      else First(left) - First(right)
    else if HasSlash(right) then -1
    else First(left) - First(right)
  }

  /** The comparison, dropping equal bytes one by one. */
  function Decide(left: Path, right: Path): int {
    if left != [] && right != [] && left[0] == right[0] then Decide(left[1..], right[1..])
    else AtDifference(left, right)
  }

  function Sign(x: int): int { if x < 0 then -1 else if x > 0 then 1 else 0 }

  lemma {:induction false} LexSkip(prefix: seq<int>, a: seq<int>, b: seq<int>)
    ensures Lex(prefix + a, prefix + b) == Lex(a, b)
  {
    if prefix == [] {
      assert prefix + a == a && prefix + b == b;
    } else {
      assert (prefix + a)[1..] == prefix[1..] + a && (prefix + b)[1..] == prefix[1..] + b;
      LexSkip(prefix[1..], a, b);
    }
  }

  /** A key starts with the class and the first byte of the component, or 0 for an empty one. */
  lemma {:induction false} KeyHead(path: Path)
    ensures Key(path)[0] == if path == [] then 0 else if !Last(path) then 3 else if HasSlash(path) then 2 else 1
    ensures path != [] ==> |Key(path)| > 1 && Key(path)[1] == if path[0] == SLASH then 0 else path[0]
    ensures !Last(path) ==> HasSlash(path)
  {
    if path != [] {
      assert path == [path[0]] + path[1..];
      KeyHead(path[1..]);
    }
  }

  lemma DifferenceIsLex(left: Path, right: Path)
    requires Clean(left) && Clean(right)
    requires left == [] || right == [] || left[0] != right[0]
    ensures Sign(AtDifference(left, right)) == Compare(left, right)
  {
    KeyHead(left);
    KeyHead(right);
    assert (left != [] ==> left[0] in left) && (right != [] ==> right[0] in right);
    assert Last([]) && !HasSlash([]);
    var a, b := Key(left), Key(right);
    if a[0] == b[0] && left != [] {
      assert a[1] != b[1];
      assert Lex(a, b) == Lex(a[1..], b[1..]);
    }
  }

  lemma SameHead(left: Path, right: Path)
    requires Clean(left) && Clean(right) && left != [] && right != [] && left[0] == right[0]
    ensures Compare(left, right) == Compare(left[1..], right[1..])
  {
    var l, r := left[1..], right[1..];
    assert (l != [] ==> l[0] in left) && (r != [] ==> r[0] in right) && left[0] in left;
    KeyHead(l);
    KeyHead(r);
    if l != [] && r != [] {
      var p, q := Key(l), Key(r);
      if left[0] == SLASH { LexSkip([3, 0], p, q); } else { LexSkip([p[0], left[0]], p[1..], q[1..]); }
    } else if left[0] != SLASH {
      LexSkip([1, left[0]], Key(left)[2..], Key(right)[2..]);
      assert |left| == 1 ==> Key(left) == [1, left[0]] + Key(left)[2..];
      assert |right| == 1 ==> Key(right) == [1, right[0]] + Key(right)[2..];
    }
  }

  /** The computed comparison is the lexicographic order of the keys. */
  lemma {:induction false} DecideIsCompare(left: Path, right: Path)
    requires Clean(left) && Clean(right)
    ensures Sign(Decide(left, right)) == Compare(left, right)
    decreases |left|
  {
    if left != [] && right != [] && left[0] == right[0] {
      SameHead(left, right);
      DecideIsCompare(left[1..], right[1..]);
    } else {
      DifferenceIsLex(left, right);
    }
  }

  // ------------------------------------------------------------------ a strict total order

  lemma {:induction false} LexSame(a: seq<int>)
    ensures Lex(a, a) == 0
  {
    if a != [] { LexSame(a[1..]); }
  }

  lemma {:induction false} LexReverse(a: seq<int>, b: seq<int>)
    ensures Lex(b, a) == -Lex(a, b)
  {
    if a != [] && b != [] { LexReverse(a[1..], b[1..]); }
  }

  lemma {:induction false} LexZero(a: seq<int>, b: seq<int>)
    requires Lex(a, b) == 0
    ensures a == b
  {
    if a != [] && b != [] {
      LexZero(a[1..], b[1..]);
      assert a == [a[0]] + a[1..] && b == [b[0]] + b[1..];
    }
  }

  lemma {:induction false} LexTransitive(a: seq<int>, b: seq<int>, c: seq<int>)
    requires Lex(a, b) < 0 && Lex(b, c) < 0
    ensures Lex(a, c) < 0
  {
    if a != [] && c != [] && a[0] == b[0] == c[0] { LexTransitive(a[1..], b[1..], c[1..]); }
  }

  lemma {:induction false} KeyInjective(p: Path, q: Path)
    requires Clean(p) && Clean(q) && Key(p) == Key(q)
    ensures p == q
    decreases |p|
  {
    KeyHead(p);
    KeyHead(q);
    if p != [] && q != [] {
      assert p[0] in p && q[0] in q;
      var k, m := p[1..], q[1..];
      KeyHead(k);
      KeyHead(m);
      assert (k != [] ==> k[0] in p) && (m != [] ==> m[0] in q);
      if p[0] != SLASH {
        assert Key(p)[2] == if k == [] then 0 else Key(k)[1];
        assert Key(q)[2] == if m == [] then 0 else Key(m)[1];
      }
      if k != [] && m != [] {
        var d, e := Key(k), Key(m);
        if p[0] == SLASH {
          assert d == Key(p)[2..] && e == Key(q)[2..];
        } else {
          assert d[1..] == Key(p)[2..] && e[1..] == Key(q)[2..];
          assert d == [d[0]] + d[1..] && e == [e[0]] + e[1..];
        }
        KeyInjective(k, m);
      }
      assert p == [p[0]] + k && q == [q[0]] + m;
    }
  }

  lemma TotalOrder(p: Path, q: Path, r: Path)
    requires Clean(p) && Clean(q) && Clean(r)
    ensures Compare(p, q) == 0 <==> p == q
    ensures Compare(q, p) == -Compare(p, q)
    ensures Compare(p, q) < 0 && Compare(q, r) < 0 ==> Compare(p, r) < 0
  {
    if Compare(p, q) == 0 {
      LexZero(Key(p), Key(q));
      KeyInjective(p, q);
    }
    LexSame(Key(p));
    LexReverse(Key(p), Key(q));
    if Compare(p, q) < 0 && Compare(q, r) < 0 { LexTransitive(Key(p), Key(q), Key(r)); }
  }

  // ------------------------------------------------------------------ what the order is, on names

  /** A name of a file or directory: a slash is byte 47. */
  predicate IsName(name: Path) { name != [] && 0 !in name && 47 !in name }

  /** Byte by byte, and a shorter name before one that continues it. */
  ghost predicate NameBefore(a: Path, b: Path) { exists i :: NamesPartAt(a, b, i) }

  ghost predicate NamesPartAt(a: Path, b: Path, i: nat) {
    i <= |a| && i < |b| && a[..i] == b[..i] && (i == |a| || a[i] < b[i])
  }

  lemma {:induction false} NameBeforeNext(a: Path, b: Path)
    requires a != [] && b != [] && a[0] == b[0]
    ensures NameBefore(a, b) <==> NameBefore(a[1..], b[1..])
  {
    if i: nat :| NamesPartAt(a, b, i) {
      assert i > 0 && a[..i][1..] == a[1..][..i - 1] && b[..i][1..] == b[1..][..i - 1];
      assert NamesPartAt(a[1..], b[1..], i - 1);
    }
    if i: nat :| NamesPartAt(a[1..], b[1..], i) {
      assert a[..i + 1] == [a[0]] + a[1..][..i] && b[..i + 1] == [b[0]] + b[1..][..i];
      assert NamesPartAt(a, b, i + 1);
    }
  }

  lemma NameBeforeHere(a: Path, b: Path)
    requires a == [] || b == [] || a[0] != b[0]
    ensures NameBefore(a, b) <==> b != [] && (a == [] || a[0] < b[0])
  {
    if b != [] && (a == [] || a[0] < b[0]) { assert NamesPartAt(a, b, 0); }
    if i: nat :| NamesPartAt(a, b, i) {
      if i > 0 {
        PartsEqual(a, b, i);
        assert false;
      }
    }
  }

  lemma PartsEqual(a: Path, b: Path, i: nat)
    requires 0 < i <= |a| && i <= |b| && a[..i] == b[..i]
    ensures a[0] == b[0]
  {
    assert a[..i][0] == b[..i][0];
  }

  /** What follows a name: nothing for a file, a slash for a directory, and more for what lies in it. */
  predicate IsTail(tail: Path) { 0 !in tail && (tail != [] ==> tail[0] == 47) }

  predicate Inside(tail: Path) { |tail| > 1 }

  lemma {:induction false} LastOf(name: Path, tail: Path)
    requires 47 !in name && IsTail(tail)
    ensures Last(name + tail) <==> !Inside(tail)
    ensures HasSlash(name + tail) <==> tail != []
  {
    if name == [] {
      assert name + tail == tail;
    } else {
      assert name[0] in name && (name + tail)[1..] == name[1..] + tail;
      LastOf(name[1..], tail);
    }
  }

  /** The decision for two paths that part in their last common directory. */
  lemma {:induction false} DecideOnNames(a: Path, s: Path, b: Path, t: Path)
    requires 47 !in a && 0 !in a && 47 !in b && 0 !in b && IsTail(s) && IsTail(t) && a != b
    ensures Inside(s) != Inside(t) ==> (Decide(a + s, b + t) < 0 <==> Inside(t))
    ensures Inside(s) == Inside(t) && (s == []) != (t == []) ==> (Decide(a + s, b + t) < 0 <==> s == [])
    ensures Inside(s) == Inside(t) && (s == []) == (t == []) ==> (Decide(a + s, b + t) < 0 <==> NameBefore(a, b))
  {
    if a != [] && b != [] && a[0] == b[0] {
      assert (a + s)[1..] == a[1..] + s && (b + t)[1..] == b[1..] + t;
      NameBeforeNext(a, b);
      assert a == [a[0]] + a[1..] && b == [b[0]] + b[1..];
      DecideOnNames(a[1..], s, b[1..], t);
    } else {
      NameBeforeHere(a, b);
      LastOf(a, s);
      LastOf(b, t);
      assert (a != [] ==> a[0] in a) && (b != [] ==> b[0] in b);
    }
  }

  lemma {:induction false} DecideSkip(prefix: Path, a: Path, b: Path)
    ensures Decide(prefix + a, prefix + b) == Decide(a, b)
  {
    if prefix == [] {
      assert prefix + a == a && prefix + b == b;
    } else {
      assert (prefix + a)[1..] == prefix[1..] + a && (prefix + b)[1..] == prefix[1..] + b;
      DecideSkip(prefix[1..], a, b);
    }
  }

  /**
   Of two paths that part in a directory, first come its files, then its subdirectories, and then what lies in the
   subdirectories, each by name.
   */
  lemma OrderOnNames(prefix: Path, a: Path, s: Path, b: Path, t: Path)
    requires Clean(prefix) && IsName(a) && IsName(b) && a != b && IsTail(s) && IsTail(t)
    ensures Compare(prefix + a + s, prefix + b + t) < 0 <==>
      if Inside(s) != Inside(t) then Inside(t) else if (s == []) != (t == []) then s == [] else NameBefore(a, b)
  {
    assert prefix + a + s == prefix + (a + s) && prefix + b + t == prefix + (b + t);
    DecideIsCompare(prefix + (a + s), prefix + (b + t));
    DecideSkip(prefix, a + s, b + t);
    DecideOnNames(a, s, b, t);
  }

  // ------------------------------------------------------------------ the loops

  /** How the component of `path` at `p` ends: its last byte looked at, and whether it is the last component. */
  method ComponentEnd(path: Path, p: nat) returns (c: int, last: bool)
    requires p <= |path|
    ensures last == Last(path[p..])
    ensures c == SLASH <==> HasSlash(path[p..])
  {
    c := if p < |path| then path[p] else 0;
    last := true;
    var i := p;
    while i < |path|
      invariant p <= i <= |path| && last && Last(path[p..]) == Last(path[i..])
      invariant HasSlash(path[p..]) == HasSlash(path[i..])
      invariant p < i ==> c != SLASH
      invariant p == i ==> c == First(path[p..])
    {
      assert path[i..][1..] == path[i + 1..] && path[i..] == [path[i]] + path[i + 1..];
      c := path[i];
      if c == SLASH {
        last := i == |path| - 1;
        return;
      }
      i := i + 1;
    }
  }

  method ComparePaths(left: Path, right: Path) returns (r: int)
    ensures r == Decide(left, right)
    ensures Clean(left) && Clean(right) ==> Sign(r) == Compare(left, right)
  {
    if Clean(left) && Clean(right) { DecideIsCompare(left, right); }
    var p := 0;
    while p < |left| && p < |right| && left[p] == right[p]
      invariant p <= |left| && p <= |right| && Decide(left, right) == Decide(left[p..], right[p..])
    {
      assert left[p..][1..] == left[p + 1..] && right[p..][1..] == right[p + 1..];
      p := p + 1;
    }
    var c1: int := if p < |left| then left[p] else 0;
    var c2: int := if p < |right| then right[p] else 0;
    var c3, last1 := ComponentEnd(left, p);
    var c4, last2 := ComponentEnd(right, p);
    if last1 != last2 {
      return if last1 then -1 else 1;
    }
    if c3 == SLASH {
      if c4 == SLASH {
        if c1 == SLASH { return -1; }
        if c2 == SLASH { return 1; }
        return c1 - c2;
      }
      return 1;
    }
    return if c4 == SLASH then -1 else c1 - c2;
  }
}
