/** The directory walk sends every path of the tree, in strictly increasing path order. */
module WalkOrder {
  import opened Buzhash
  import opened PathOrder
  import opened DirectoryWalk

  ghost predicate Increasing(paths: seq<Path>) {
    forall i, j :: 0 <= i < j < |paths| ==> Compare(paths[i], paths[j]) < 0
  }

  /** Every path of the first list comes before every path of the second. */
  ghost predicate Before(a: seq<Path>, b: seq<Path>) {
    forall p, q :: p in a && q in b ==> Compare(p, q) < 0
  }

  lemma Joined(a: seq<Path>, b: seq<Path>)
    requires Increasing(a) && Increasing(b) && Before(a, b)
    ensures Increasing(a + b)
  {
    var s := a + b;
    forall i, j | 0 <= i < j < |s| ensures Compare(s[i], s[j]) < 0 {
      if i < |a| <= j { assert s[i] in a && s[j] in b; }
    }
  }

  // ------------------------------------------------------------------ comparing within a directory

  lemma {:induction false} SamePrefix(prefix: Path, p: Path, q: Path)
    requires Clean(prefix) && Clean(p) && Clean(q)
    ensures Compare(prefix + p, prefix + q) == Compare(p, q)
  {
    if prefix == [] {
      assert prefix + p == p && prefix + q == q;
    } else {
      var l, r, tail := prefix + p, prefix + q, prefix[1..];
      assert l[1..] == tail + p && r[1..] == tail + q && l[0] == r[0] == prefix[0];
      assert Clean(l) && Clean(r);
      SamePrefix(tail, p, q);
      SameHead(l, r);
    }
  }

  /** The key of a name followed by nothing, by a slash, or by a slash and a path below. */
  lemma {:induction false} KeyOfName(name: Path, suffix: Path)
    requires name != [] && SLASH !in name && (suffix == [] || suffix[0] == SLASH)
    ensures Key(name + suffix) ==
            [if suffix == [] then 1 else Key(suffix)[0]] + name + (if suffix == [] then [0] else Key(suffix)[1..])
  {
    var path, rest := name + suffix, if suffix == [] then [0] else Key(suffix)[1..];
    assert path[1..] == name[1..] + suffix && path[0] == name[0];
    if |name| == 1 {
      assert name[1..] + suffix == suffix && name == [name[0]];
    } else {
      KeyOfName(name[1..], suffix);
      NameInFront(Key(path[1..]), if suffix == [] then 1 else Key(suffix)[0], name, rest);
    }
  }

  lemma NameInFront(key: seq<int>, kind: int, name: Path, rest: seq<int>)
    requires name != [] && key == [kind] + name[1..] + rest
    ensures [key[0], name[0]] + key[1..] == [kind] + name + rest
  {
    assert key[1..] == name[1..] + rest;
  }

  lemma {:induction false} NamesDecide(a: Path, b: Path, s: seq<int>, t: seq<int>)
    requires Clean(a) && Clean(b) && Lex(a, b) < 0
    ensures Lex(a + [0] + s, b + [0] + t) < 0
  {
    assert b[0] in b;
    if a != [] {
      assert (a + [0] + s)[1..] == a[1..] + [0] + s && (b + [0] + t)[1..] == b[1..] + [0] + t;
      if a[0] == b[0] { NamesDecide(a[1..], b[1..], s, t); }
    }
  }

  /**
   How a path of a directory goes on after its first component: 1 for a file, 2 for a subdirectory, 3 for what is
   below one.
   */
  function Depth(suffix: Path): int { if suffix == [] then 1 else if |suffix| == 1 then 2 else 3 }

  lemma KeyOfComponent(name: Path, suffix: Path) returns (rest: seq<int>)
    requires ValidName(name) && (suffix == [] || suffix[0] == SLASH)
    ensures Key(name + suffix) == [Depth(suffix)] + (name + [0] + rest)
  {
    KeyOfName(name, suffix);
    rest := if |suffix| <= 1 then [] else Key(suffix[1..]);
    KeyOfSuffix(suffix);
    Regroup(Depth(suffix), name, rest);
  }

  lemma KeyOfSuffix(suffix: Path)
    requires suffix == [] || suffix[0] == SLASH
    ensures (if suffix == [] then 1 else Key(suffix)[0]) == Depth(suffix)
    ensures (if suffix == [] then [0] else Key(suffix)[1..]) == [0] + if |suffix| <= 1 then [] else Key(suffix[1..])
  {
  }

  lemma Regroup(d: int, name: Path, rest: seq<int>)
    ensures [d] + name + ([0] + rest) == [d] + (name + [0] + rest)
  {
  }

  lemma ComponentsDecide(a: Path, s: Path, b: Path, t: Path)
    requires ValidName(a) && ValidName(b) && (s == [] || s[0] == SLASH) && (t == [] || t[0] == SLASH)
    requires Depth(s) < Depth(t) || (Depth(s) == Depth(t) && Lex(a, b) < 0)
    ensures Compare(a + s, b + t) < 0
  {
    var x := KeyOfComponent(a, s);
    var y := KeyOfComponent(b, t);
    KeysDecide(Depth(s), a, x, Depth(t), b, y);
  }

  lemma KeysDecide(d: int, a: Path, x: seq<int>, e: int, b: Path, y: seq<int>)
    requires Clean(a) && Clean(b) && (d < e || (d == e && Lex(a, b) < 0))
    ensures Lex([d] + (a + [0] + x), [e] + (b + [0] + y)) < 0
  {
    if d == e {
      NamesDecide(a, b, x, y);
      LexSkip([d], a + [0] + x, b + [0] + y);
    }
  }

  function Suffix(c: Child): Path { if c.node.DirectoryNode? then [SLASH] else [] }

  /** The sorting order of directory entries is the path order of what they are listed as. */
  lemma InfoLessIsCompare(a: Child, b: Child)
    requires ValidName(a.name) && ValidName(b.name) && InfoLess(a, b)
    ensures Compare(PathOf([], a), PathOf([], b)) < 0
  {
    ComponentsDecide(a.name, Suffix(a), b.name, Suffix(b));
    assert PathOf([], a) == a.name + Suffix(a) && PathOf([], b) == b.name + Suffix(b);
  }

  // ------------------------------------------------------------------ listings under a prefix

  function Under(prefix: Path, paths: seq<Path>): seq<Path> {
    seq(|paths|, i requires 0 <= i < |paths| => prefix + paths[i])
  }

  lemma {:induction false} PathsUnder(prefix: Path, children: seq<Child>)
    ensures Paths(prefix, children) == Under(prefix, Paths([], children))
  {
    if children != [] {
      PathsUnder(prefix, children[1..]);
      PathUnder(prefix, children[0]);
    }
  }

  lemma PathUnder(prefix: Path, c: Child)
    ensures PathOf(prefix, c) == prefix + PathOf([], c)
  {
  }

  lemma {:induction false} ListingUnder(prefix: Path, children: seq<Child>)
    ensures Listing(prefix, children) == Under(prefix, Listing([], children))
    decreases children, 1
  {
    PathsUnder(prefix, SortInfos(children));
    SubtreesUnder(prefix, children);
    UnderAppend(prefix, Paths([], SortInfos(children)), Subtrees([], children));
  }

  lemma {:induction false} SubtreesUnder(prefix: Path, children: seq<Child>)
    ensures Subtrees(prefix, children) == Under(prefix, Subtrees([], children))
    decreases children, 0
  {
    if children != [] {
      SubtreesUnder(prefix, children[1..]);
      match children[0].node
      case FileNode =>
      case DirectoryNode(sub) =>
        var p := PathOf([], children[0]);
        ListingUnder(PathOf(prefix, children[0]), sub);
        ListingUnder(p, sub);
        PathUnder(prefix, children[0]);
        UnderTwice(prefix, p, Listing([], sub));
        UnderAppend(prefix, Listing(p, sub), Subtrees([], children[1..]));
    }
  }

  lemma UnderTwice(prefix: Path, p: Path, paths: seq<Path>)
    ensures Under(prefix + p, paths) == Under(prefix, Under(p, paths))
  {
    assert forall i :: 0 <= i < |paths| ==> prefix + p + paths[i] == prefix + (p + paths[i]);
  }

  lemma UnderAppend(prefix: Path, a: seq<Path>, b: seq<Path>)
    ensures Under(prefix, a + b) == Under(prefix, a) + Under(prefix, b)
  {
  }

  lemma UnderIncreasing(prefix: Path, paths: seq<Path>)
    requires Clean(prefix) && Increasing(paths) && forall p :: p in paths ==> Clean(p)
    ensures Increasing(Under(prefix, paths))
  {
    forall i, j | 0 <= i < j < |paths| ensures Compare(prefix + paths[i], prefix + paths[j]) < 0 {
      SamePrefix(prefix, paths[i], paths[j]);
    }
  }

  // ------------------------------------------------------------------ what a listing contains

  /** The paths of the tree, relative to it. */
  ghost predicate InTree(children: seq<Child>, path: Path)
    decreases children
  {
    exists i :: 0 <= i < |children| &&
      (path == PathOf([], children[i]) ||
       (children[i].node.DirectoryNode? && Below(PathOf([], children[i]), path) &&
        InTree(children[i].node.children, path[|PathOf([], children[i])|..])))
  }

  predicate Below(prefix: Path, path: Path) { prefix < path }

  lemma {:induction false} InPaths(children: seq<Child>, path: Path)
    ensures path in Paths([], children) <==> exists c :: c in children && path == PathOf([], c)
  {
    if children != [] {
      InPaths(children[1..], path);
      assert children == [children[0]] + children[1..];
    }
  }

  lemma InSorted(children: seq<Child>, c: Child)
    ensures c in SortInfos(children) <==> c in children
  {
    PickOrdered(children, false);
    PickOrdered(children, true);
  }

  /** A path below the subdirectory `c`. */
  ghost predicate Inside(c: Child, path: Path) {
    c.node.DirectoryNode? && PathOf([], c) <= path && path[|PathOf([], c)|..] in Listing([], c.node.children)
  }

  lemma {:induction false} InSubtrees(children: seq<Child>, path: Path)
    ensures path in Subtrees([], children) <==> exists c :: c in children && Inside(c, path)
  {
    if children != [] {
      InSubtrees(children[1..], path);
      assert children == [children[0]] + children[1..];
      match children[0].node
      case FileNode =>
      case DirectoryNode(sub) =>
        var p := PathOf([], children[0]);
        ListingUnder(p, sub);
        InUnder(p, Listing([], sub), path);
        assert path in Listing(p, sub) <==> Inside(children[0], path);
    }
  }

  lemma InUnder(prefix: Path, paths: seq<Path>, path: Path)
    ensures path in Under(prefix, paths) <==> prefix <= path && path[|prefix|..] in paths
  {
    if path in Under(prefix, paths) {
      var i :| 0 <= i < |paths| && Under(prefix, paths)[i] == path;
      assert path[|prefix|..] == paths[i];
    }
    if prefix <= path && path[|prefix|..] in paths {
      var i :| 0 <= i < |paths| && paths[i] == path[|prefix|..];
      assert Under(prefix, paths)[i] == path;
    }
  }

  lemma {:induction false} ListedIsClean(children: seq<Child>, path: Path)
    requires Readable(children) && path in Listing([], children)
    ensures path != [] && Clean(path)
    decreases children
  {
    if path in Paths([], SortInfos(children)) {
      InPaths(SortInfos(children), path);
      var c :| c in SortInfos(children) && path == PathOf([], c);
      InSorted(children, c);
    } else {
      InSubtrees(children, path);
      var c :| c in children && Inside(c, path);
      var p := PathOf([], c);
      ListedIsClean(c.node.children, path[|p|..]);
      CleanBehind(p, path);
    }
  }

  lemma CleanBehind(p: Path, path: Path)
    requires p <= path && p != [] && Clean(p) && Clean(path[|p|..])
    ensures path != [] && Clean(path)
  {
    assert path == p + path[|p|..];
  }

  /** The walk lists exactly the paths of the tree. */
  lemma {:induction false} WalkIsComplete(children: seq<Child>, path: Path)
    requires Readable(children)
    ensures path in Listing([], children) <==> InTree(children, path)
    decreases children
  {
    InPaths(SortInfos(children), path);
    forall c ensures c in SortInfos(children) <==> c in children { InSorted(children, c); }
    InSubtrees(children, path);
    forall i | 0 <= i < |children| && children[i].node.DirectoryNode? && PathOf([], children[i]) <= path
      ensures path[|PathOf([], children[i])|..] in Listing([], children[i].node.children) <==>
              InTree(children[i].node.children, path[|PathOf([], children[i])|..])
    {
      WalkIsComplete(children[i].node.children, path[|PathOf([], children[i])|..]);
    }
    if path in Subtrees([], children) {
      var c :| c in children && Inside(c, path);
      var i :| 0 <= i < |children| && children[i] == c;
      ListedIsClean(c.node.children, path[|PathOf([], c)|..]);
      assert Below(PathOf([], c), path);
    }
    if InTree(children, path) && path !in Paths([], SortInfos(children)) {
      var i :| 0 <= i < |children| &&
        (path == PathOf([], children[i]) ||
         (children[i].node.DirectoryNode? && Below(PathOf([], children[i]), path) &&
          InTree(children[i].node.children, path[|PathOf([], children[i])|..])));
      assert children[i] in children && Inside(children[i], path);
    }
  }

  /** Whatever a tree contains, it contains the directories above it. */
  lemma {:induction false} TreeIsClosed(children: seq<Child>, path: Path, directory: Path)
    requires Readable(children) && InTree(children, path)
    requires directory != [] && directory[|directory| - 1] == SLASH && Below(directory, path)
    ensures InTree(children, directory)
    decreases children
  {
    var i :| 0 <= i < |children| &&
      (path == PathOf([], children[i]) ||
       (children[i].node.DirectoryNode? && Below(PathOf([], children[i]), path) &&
        InTree(children[i].node.children, path[|PathOf([], children[i])|..])));
    var c, n := children[i], |directory|;
    var p := PathOf([], c);
    assert directory[n - 1] == path[n - 1];
    if n <= |p| {
      assert directory == p[..n] && p[n - 1] == SLASH;
      forall k | 0 <= k < |c.name| ensures p[k] != SLASH { assert p[k] == c.name[k]; }
      assert directory == p;
    } else {
      TreeIsClosed(c.node.children, path[|p|..], directory[|p|..]);
    }
  }

  /** The listing of a tree contains, with a path, all directories above it. */
  lemma WalkIsClosed(children: seq<Child>, path: Path, directory: Path)
    requires Readable(children) && path in Listing([], children)
    requires directory != [] && directory[|directory| - 1] == SLASH && Below(directory, path)
    ensures directory in Listing([], children)
  {
    WalkIsComplete(children, path);
    TreeIsClosed(children, path, directory);
    WalkIsComplete(children, directory);
  }

  /** Up to its first slash a path in the tree is the name of a child. */
  ghost predicate Through(children: seq<Child>, i: nat, path: Path) {
    i < |children| &&
    (path == PathOf([], children[i]) ||
     (children[i].node.DirectoryNode? && Below(PathOf([], children[i]), path) &&
      InTree(children[i].node.children, path[|PathOf([], children[i])|..])))
  }

  lemma GoesThrough(children: seq<Child>, path: Path) returns (i: nat)
    requires InTree(children, path)
    ensures Through(children, i, path)
  {
    i :| 0 <= i < |children| &&
      (path == PathOf([], children[i]) ||
       (children[i].node.DirectoryNode? && Below(PathOf([], children[i]), path) &&
        InTree(children[i].node.children, path[|PathOf([], children[i])|..])));
  }

  /** The first component decides which child it is. */
  lemma SameChild(children: seq<Child>, i: nat, j: nat, rest: Path, more: Path)
    requires Readable(children) && i < |children| && j < |children|
    requires children[i].name + rest == children[j].name + more
    requires (rest == [] || rest[0] == SLASH) && (more == [] || more[0] == SLASH)
    ensures i == j && rest == more
  {
    var a, b := children[i].name, children[j].name;
    var whole := a + rest;
    assert forall k :: 0 <= k < |a| ==> whole[k] == a[k];
    assert forall k :: 0 <= k < |b| ==> whole[k] == b[k];
    assert |a| < |whole| ==> whole[|a|] == rest[0];
    assert |b| < |whole| ==> whole[|b|] == more[0];
    assert a == whole[..|a|] && b == whole[..|b|];
    LexSame(a);
  }

  /** The rest of a path after the name of the child it goes through. */
  lemma ThroughShape(children: seq<Child>, i: nat, path: Path) returns (rest: Path)
    requires Readable(children) && Through(children, i, path)
    ensures path == children[i].name + rest && (rest == [] || rest[0] == SLASH)
    ensures rest == [] <==> !children[i].node.DirectoryNode?
    ensures |rest| > 1 ==> InTree(children[i].node.children, rest[1..])
  {
    var c := children[i];
    rest := path[|c.name|..];
    if path != PathOf([], c) {
      assert PathOf([], c) == c.name + [SLASH];
      assert rest[1..] == path[|PathOf([], c)|..];
    }
  }

  lemma NoSlashFirst(children: seq<Child>, path: Path)
    requires Readable(children) && InTree(children, path)
    ensures path != [] && path[0] != SLASH
  {
    var i := GoesThrough(children, path);
    var rest := ThroughShape(children, i, path);
    assert path[0] == children[i].name[0];
  }

  /** If a path is in the tree with and without a slash at its end, so is the rest of it one level down. */
  lemma OneLevelDown(children: seq<Child>, path: Path) returns (i: nat, rest: Path)
    requires Readable(children) && InTree(children, path) && InTree(children, path + [SLASH])
    ensures i < |children| && children[i].node.DirectoryNode? && Readable(children[i].node.children)
    ensures InTree(children[i].node.children, rest) && InTree(children[i].node.children, rest + [SLASH])
  {
    i := GoesThrough(children, path);
    var j := GoesThrough(children, path + [SLASH]);
    var tail := ThroughShape(children, i, path);
    var more := ThroughShape(children, j, path + [SLASH]);
    SlashBehind(children[i].name, tail);
    SameChild(children, i, j, tail + [SLASH], more);
    if |more| > 1 { NoSlashFirst(children[i].node.children, more[1..]); }
    rest := tail[1..];
  }

  lemma SlashBehind(name: Path, tail: Path)
    ensures name + tail + [SLASH] == name + (tail + [SLASH])
    ensures tail != [] ==> (tail + [SLASH])[1..] == tail[1..] + [SLASH]
  {
  }

  /** A tree does not contain a file and a directory of the same name. */
  lemma {:induction false} OneKind(children: seq<Child>, path: Path)
    requires Readable(children) && InTree(children, path)
    ensures !InTree(children, path + [SLASH])
    decreases children
  {
    if InTree(children, path + [SLASH]) {
      var i, rest := OneLevelDown(children, path);
      OneKind(children[i].node.children, rest);
    }
  }

  // ------------------------------------------------------------------ the order of the walk

  lemma {:induction false} PathsIncrease(children: seq<Child>)
    requires forall c :: c in children ==> ValidName(c.name)
    requires forall i, j :: 0 <= i < j < |children| ==> InfoLess(children[i], children[j])
    ensures Increasing(Paths([], children))
  {
    if children != [] {
      PathsIncrease(children[1..]);
      var p := PathOf([], children[0]);
      forall q | q in Paths([], children[1..]) ensures Compare(p, q) < 0 {
        InPaths(children[1..], q);
        var c :| c in children[1..] && q == PathOf([], c);
        InfoLessIsCompare(children[0], c);
      }
      Joined([p], Paths([], children[1..]));
    }
  }

  lemma OwnIncrease(children: seq<Child>)
    requires Readable(children)
    ensures Increasing(Paths([], SortInfos(children)))
  {
    SortInfosSorts(children);
    forall c | c in SortInfos(children) ensures ValidName(c.name) { InSorted(children, c); }
    PathsIncrease(SortInfos(children));
  }

  /** A path below `c`, as the name of `c` and the rest. */
  lemma InsideShape(c: Child, path: Path) returns (rest: Path)
    requires Inside(c, path) && Readable(c.node.children)
    ensures path == c.name + ([SLASH] + rest) && Depth([SLASH] + rest) == 3
  {
    rest := path[|PathOf([], c)|..];
    ListedIsClean(c.node.children, rest);
    assert path == PathOf([], c) + rest;
    assert PathOf([], c) == c.name + [SLASH];
  }

  lemma {:induction false} SubtreesIncrease(children: seq<Child>)
    requires Readable(children)
    ensures Increasing(Subtrees([], children))
    decreases children, 0
  {
    if children != [] {
      var head, rest := children[0], children[1..];
      SubtreesIncrease(rest);
      match head.node
      case FileNode =>
      case DirectoryNode(sub) =>
        var p := PathOf([], head);
        WalkIsIncreasing(sub);
        ListingUnder(p, sub);
        forall q | q in Listing([], sub) ensures Clean(q) { ListedIsClean(sub, q); }
        UnderIncreasing(p, Listing([], sub));
        forall q, r | q in Listing(p, sub) && r in Subtrees([], rest) ensures Compare(q, r) < 0 {
          InUnder(p, Listing([], sub), q);
          InSubtrees(rest, r);
          var c :| c in rest && Inside(c, r);
          BelowSiblings(head, q, c, r);
        }
        Joined(Listing(p, sub), Subtrees([], rest));
    }
  }

  /** What is below one subdirectory precedes what is below the next. */
  lemma BelowSiblings(a: Child, q: Path, b: Child, r: Path)
    requires ValidName(a.name) && ValidName(b.name) && Lex(a.name, b.name) < 0
    requires a.node.DirectoryNode? && Readable(a.node.children) && b.node.DirectoryNode? && Readable(b.node.children)
    requires Inside(a, q) && Inside(b, r)
    ensures Compare(q, r) < 0
  {
    var x := InsideShape(a, q);
    var y := InsideShape(b, r);
    ComponentsDecide(a.name, [SLASH] + x, b.name, [SLASH] + y);
  }

  lemma OwnShape(children: seq<Child>, path: Path) returns (c: Child)
    requires path in Paths([], SortInfos(children))
    ensures c in children && path == c.name + Suffix(c)
  {
    InPaths(SortInfos(children), path);
    c :| c in SortInfos(children) && path == PathOf([], c);
    InSorted(children, c);
  }

  /** What a directory lists itself precedes what is below its subdirectories. */
  lemma OwnFirst(children: seq<Child>, p: Path, q: Path)
    requires Readable(children) && p in Paths([], SortInfos(children)) && q in Subtrees([], children)
    ensures Compare(p, q) < 0
  {
    var a := OwnShape(children, p);
    InSubtrees(children, q);
    var b :| b in children && Inside(b, q);
    var y := InsideShape(b, q);
    ComponentsDecide(a.name, Suffix(a), b.name, [SLASH] + y);
  }

  /** The walk sends the paths of any tree in strictly increasing order. */
  lemma {:induction false} WalkIsIncreasing(children: seq<Child>)
    requires Readable(children)
    ensures Increasing(Listing([], children))
    decreases children, 1
  {
    OwnIncrease(children);
    SubtreesIncrease(children);
    forall p, q | p in Paths([], SortInfos(children)) && q in Subtrees([], children) ensures Compare(p, q) < 0 {
      OwnFirst(children, p, q);
    }
    Joined(Paths([], SortInfos(children)), Subtrees([], children));
  }
}
