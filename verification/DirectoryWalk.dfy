/** The listing of a directory tree: a stack of directories, each listed files first, then its subdirectories. */
module DirectoryWalk {
  import opened Buzhash
  import opened PathOrder

  datatype Node = FileNode | DirectoryNode(children: seq<Child>)
  datatype Child = Child(name: Path, node: Node)

  /** A directory still to be listed; its path ends with a slash unless it is the top. */
  datatype Pending = Pending(path: Path, children: seq<Child>)

  predicate ValidName(name: Path) { name != [] && 0 !in name && SLASH !in name }

  /** What reading a directory returns: distinct names in byte order, all the way down. */
  ghost predicate Readable(children: seq<Child>)
    decreases children
  {
    (forall i :: 0 <= i < |children| ==> ValidName(children[i].name)) &&
    (forall i, j :: 0 <= i < j < |children| ==> Lex(children[i].name, children[j].name) < 0) &&
    (forall i :: 0 <= i < |children| && children[i].node.DirectoryNode? ==> Readable(children[i].node.children))
  }

  /** The order directory entries are sorted in before they are listed. */
  predicate InfoLess(left: Child, right: Child) {
    if left.node.DirectoryNode? then right.node.DirectoryNode? && Lex(left.name, right.name) < 0
    else right.node.DirectoryNode? || Lex(left.name, right.name) < 0
  }

  function Pick(children: seq<Child>, directories: bool): seq<Child> {
    if children == [] then []
    else
      (if children[0].node.DirectoryNode? == directories then [children[0]] else []) + Pick(children[1..], directories)
  }

  /** Sorting a directory that is already in name order moves the files before the subdirectories. */
  function SortInfos(children: seq<Child>): seq<Child> { Pick(children, false) + Pick(children, true) }

  lemma {:induction false} PickOrdered(children: seq<Child>, directories: bool)
    ensures forall c :: c in Pick(children, directories) <==> c in children && c.node.DirectoryNode? == directories
    ensures (forall i, j :: 0 <= i < j < |children| ==> Lex(children[i].name, children[j].name) < 0) ==>
      forall i, j :: 0 <= i < j < |Pick(children, directories)| ==>
        Lex(Pick(children, directories)[i].name, Pick(children, directories)[j].name) < 0
  {
    if children != [] {
      PickOrdered(children[1..], directories);
      assert children == [children[0]] + children[1..];
    }
  }

  lemma {:induction false} PickAll(children: seq<Child>)
    ensures multiset(Pick(children, false)) + multiset(Pick(children, true)) == multiset(children)
  {
    if children != [] {
      PickAll(children[1..]);
      assert children == [children[0]] + children[1..];
    }
  }

  /** `SortInfos` is the sorted permutation of the directory. */
  lemma SortInfosSorts(children: seq<Child>)
    requires forall i, j :: 0 <= i < j < |children| ==> Lex(children[i].name, children[j].name) < 0
    ensures multiset(SortInfos(children)) == multiset(children) && |SortInfos(children)| == |children|
    ensures forall i, j :: 0 <= i < j < |children| ==> InfoLess(SortInfos(children)[i], SortInfos(children)[j])
  {
    PickAll(children);
    PickOrdered(children, false);
    PickOrdered(children, true);
    var s := SortInfos(children);
    assert |s| == |multiset(s)| == |multiset(children)| == |children|;
    var f := |Pick(children, false)|;
    forall i, j | 0 <= i < j < |s| ensures InfoLess(s[i], s[j]) {
      if i < f { assert s[i] in Pick(children, false); } else { assert s[i] in Pick(children, true); }
      if j < f { assert s[j] in Pick(children, false); } else { assert s[j] in Pick(children, true); }
    }
  }

  function PathOf(prefix: Path, c: Child): Path {
    prefix + c.name + if c.node.DirectoryNode? then [SLASH] else []
  }

  function Paths(prefix: Path, children: seq<Child>): seq<Path> {
    if children == [] then [] else [PathOf(prefix, children[0])] + Paths(prefix, children[1..])
  }

  /** The listing: files, subdirectories, and then the listing of each subdirectory in turn. */
  function Listing(prefix: Path, children: seq<Child>): seq<Path>
    decreases children, 1
  {
    Paths(prefix, SortInfos(children)) + Subtrees(prefix, children)
  }

  function Subtrees(prefix: Path, children: seq<Child>): seq<Path>
    decreases children, 0
  {
    if children == [] then []
    else
      (match children[0].node
       case FileNode => []
       case DirectoryNode(sub) => Listing(PathOf(prefix, children[0]), sub))
      + Subtrees(prefix, children[1..])
  }

  // ------------------------------------------------------------------ the walk

  function Reverse<T>(s: seq<T>): seq<T> { if s == [] then [] else Reverse(s[1..]) + [s[0]] }

  lemma {:induction false} ReverseAt<T>(s: seq<T>, k: nat)
    requires k < |s|
    ensures |Reverse(s)| == |s| && Reverse(s)[k] == s[|s| - 1 - k]
  {
    if |s| > 1 { ReverseAt(s[1..], if k < |s| - 1 then k else 0); }
  }

  method ReverseInPlace<T>(list: seq<T>) returns (r: seq<T>)
    ensures r == Reverse(list)
  {
    r := list;
    var i, j := 0, |r| - 1;
    while i < j
      invariant 0 <= i && i + j == |list| - 1 && i <= j + 1 && |r| == |list|
      invariant forall k :: i <= k <= j ==> r[k] == list[k]
      invariant forall k :: 0 <= k < i ==> r[k] == list[|list| - 1 - k]
      invariant forall k :: j < k < |list| ==> r[k] == list[|list| - 1 - k]
    {
      var x, y := r[i], r[j];
      r := r[i := y];
      r := r[j := x];
      i, j := i + 1, j - 1;
    }
    assert list == [] ==> Reverse(list) == [];
    forall k | 0 <= k < |list| ensures |Reverse(list)| == |list| && r[k] == Reverse(list)[k] { ReverseAt(list, k); }
  }

  function Subdirectories(prefix: Path, children: seq<Child>): seq<Pending> {
    if children == [] then []
    else
      (match children[0].node
       case FileNode => []
       case DirectoryNode(sub) => [Pending(PathOf(prefix, children[0]), sub)])
      + Subdirectories(prefix, children[1..])
  }

  function PendingPaths(list: seq<Pending>): seq<Path> {
    if list == [] then [] else [list[0].path] + PendingPaths(list[1..])
  }

  lemma {:induction false} PickAppend(a: seq<Child>, b: seq<Child>, directories: bool)
    ensures Pick(a + b, directories) == Pick(a, directories) + Pick(b, directories)
  {
    if a == [] { assert a + b == b; } else {
      assert (a + b)[1..] == a[1..] + b;
      PickAppend(a[1..], b, directories);
    }
  }

  lemma {:induction false} PickPick(s: seq<Child>, d: bool, e: bool)
    ensures Pick(Pick(s, d), e) == if d == e then Pick(s, d) else []
  {
    if s != [] {
      PickPick(s[1..], d, e);
      PickAppend(if s[0].node.DirectoryNode? == d then [s[0]] else [], Pick(s[1..], d), e);
    }
  }

  lemma {:induction false} PathsAppend(prefix: Path, a: seq<Child>, b: seq<Child>)
    ensures Paths(prefix, a + b) == Paths(prefix, a) + Paths(prefix, b)
  {
    if a == [] { assert a + b == b; } else {
      assert (a + b)[1..] == a[1..] + b;
      PathsAppend(prefix, a[1..], b);
    }
  }

  lemma {:induction false} SubdirectoriesAppend(prefix: Path, a: seq<Child>, b: seq<Child>)
    ensures Subdirectories(prefix, a + b) == Subdirectories(prefix, a) + Subdirectories(prefix, b)
  {
    if a == [] { assert a + b == b; } else {
      assert (a + b)[1..] == a[1..] + b;
      SubdirectoriesAppend(prefix, a[1..], b);
    }
  }

  /** The subdirectories do not depend on where the files stand. */
  lemma {:induction false} SubdirectoriesOfPick(prefix: Path, s: seq<Child>)
    ensures Subdirectories(prefix, Pick(s, false)) == []
    ensures Subdirectories(prefix, Pick(s, true)) == Subdirectories(prefix, s)
    ensures PendingPaths(Subdirectories(prefix, s)) == Paths(prefix, Pick(s, true))
  {
    if s != [] {
      SubdirectoriesOfPick(prefix, s[1..]);
      var f, d := Pick(s[1..], false), Pick(s[1..], true);
      match s[0].node
      case FileNode =>
        assert Pick(s, true) == d && Pick(s, false) == [s[0]] + f && ([s[0]] + f)[1..] == f;
        assert Subdirectories(prefix, s) == Subdirectories(prefix, s[1..]);
        assert Subdirectories(prefix, [s[0]] + f) == Subdirectories(prefix, f);
      case DirectoryNode(sub) =>
        assert Pick(s, false) == f && Pick(s, true) == [s[0]] + d && ([s[0]] + d)[1..] == d;
        assert Subdirectories(prefix, s)[1..] == Subdirectories(prefix, s[1..]);
    }
  }

  lemma WholeDirectory(prefix: Path, children: seq<Child>)
    ensures var files := SortInfos(children);
      Subdirectories(prefix, files) == Subdirectories(prefix, children) &&
      Paths(prefix, Pick(files, false)) + PendingPaths(Subdirectories(prefix, files)) == Paths(prefix, files)
  {
    var a, b := Pick(children, false), Pick(children, true);
    PickAppend(a, b, false);
    PickPick(children, false, false);
    PickPick(children, true, false);
    assert Pick(a + b, false) == a;
    SubdirectoriesAppend(prefix, a, b);
    SubdirectoriesOfPick(prefix, children);
    PathsAppend(prefix, a, b);
  }

  lemma OneMore(prefix: Path, done: seq<Child>, f: Child)
    ensures Paths(prefix, Pick(done + [f], false)) ==
            Paths(prefix, Pick(done, false)) + if f.node.FileNode? then [PathOf(prefix, f)] else []
    ensures Subdirectories(prefix, done + [f]) ==
            Subdirectories(prefix, done) +
              match f.node case FileNode => [] case DirectoryNode(sub) => [Pending(PathOf(prefix, f), sub)]
  {
    PickAppend(done, [f], false);
    PathsAppend(prefix, Pick(done, false), Pick([f], false));
    SubdirectoriesAppend(prefix, done, [f]);
    assert [f][1..] == [];
  }

  method SendDirectories(directories: seq<Pending>) returns (sent: seq<Path>)
    ensures sent == PendingPaths(directories)
  {
    sent := [];
    assert directories[0..] == directories;
    for i := 0 to |directories|
      invariant sent + PendingPaths(directories[i..]) == PendingPaths(directories)
    {
      assert directories[i..][1..] == directories[i + 1..];
      sent := sent + [directories[i].path];
    }
  }

  /** List one directory: send its files and then its subdirectories, and return the latter in reverse. */
  method ListEntries(directory: Pending) returns (sent: seq<Path>, directories: seq<Pending>)
    ensures sent == Paths(directory.path, SortInfos(directory.children))
    ensures directories == Reverse(Subdirectories(directory.path, directory.children))
  {
    var files := SortInfos(directory.children);
    ghost var prefix := directory.path;
    sent, directories := [], [];
    for i := 0 to |files|
      invariant sent == Paths(prefix, Pick(files[..i], false))
      invariant directories == Subdirectories(prefix, files[..i])
    {
      var f := files[i];
      assert files[..i + 1] == files[..i] + [f];
      OneMore(prefix, files[..i], f);
      match f.node
      case FileNode => sent := sent + [PathOf(directory.path, f)];
      case DirectoryNode(sub) => directories := directories + [Pending(PathOf(directory.path, f), sub)];
    }
    assert files[..|files|] == files;
    WholeDirectory(prefix, directory.children);
    var names := SendDirectories(directories);
    sent := sent + names;
    directories := ReverseInPlace(directories);
  }

  /** What the directories on the stack, popped from the end, will still list. */
  function Remaining(stack: seq<Pending>): seq<Path> {
    if stack == [] then []
    else Listing(stack[|stack| - 1].path, stack[|stack| - 1].children) + Remaining(stack[..|stack| - 1])
  }

  lemma {:induction false} RemainingAppend(a: seq<Pending>, b: seq<Pending>)
    ensures Remaining(a + b) == Remaining(b) + Remaining(a)
  {
    if b == [] { assert a + b == a; } else {
      assert (a + b)[..|a + b| - 1] == a + b[..|b| - 1];
      RemainingAppend(a, b[..|b| - 1]);
    }
  }

  /** Pushed in reverse, the subdirectories come off the stack in order. */
  lemma {:induction false} PushedInReverse(prefix: Path, children: seq<Child>)
    ensures Remaining(Reverse(Subdirectories(prefix, children))) == Subtrees(prefix, children)
  {
    if children != [] {
      var rest := Subdirectories(prefix, children[1..]);
      PushedInReverse(prefix, children[1..]);
      match children[0].node
      case FileNode =>
        assert Subdirectories(prefix, children) == rest;
      case DirectoryNode(sub) =>
        var d := Pending(PathOf(prefix, children[0]), sub);
        assert Subdirectories(prefix, children) == [d] + rest;
        assert ([d] + rest)[1..] == rest;
        RemainingAppend(Reverse(rest), [d]);
        assert [d][..0] == [];
        assert Remaining([d]) == Listing(d.path, d.children);
    }
  }

  function Weight(children: seq<Child>): nat {
    if children == [] then 0
    else (match children[0].node case FileNode => 0 case DirectoryNode(sub) => 1 + Weight(sub)) + Weight(children[1..])
  }

  function StackWeight(stack: seq<Pending>): nat {
    if stack == [] then 0 else 1 + Weight(stack[|stack| - 1].children) + StackWeight(stack[..|stack| - 1])
  }

  lemma {:induction false} StackWeightAppend(a: seq<Pending>, b: seq<Pending>)
    ensures StackWeight(a + b) == StackWeight(a) + StackWeight(b)
  {
    if b == [] { assert a + b == a; } else {
      assert (a + b)[..|a + b| - 1] == a + b[..|b| - 1];
      StackWeightAppend(a, b[..|b| - 1]);
    }
  }

  lemma {:induction false} PushedWeight(prefix: Path, children: seq<Child>)
    ensures StackWeight(Reverse(Subdirectories(prefix, children))) == Weight(children)
  {
    if children != [] {
      var rest := Subdirectories(prefix, children[1..]);
      PushedWeight(prefix, children[1..]);
      match children[0].node
      case FileNode =>
        assert Subdirectories(prefix, children) == rest;
      case DirectoryNode(sub) =>
        var d := Pending(PathOf(prefix, children[0]), sub);
        assert Subdirectories(prefix, children) == [d] + rest;
        assert ([d] + rest)[1..] == rest;
        StackWeightAppend(Reverse(rest), [d]);
        assert [d][..0] == [];
        assert StackWeight([d]) == 1 + Weight(sub);
    }
  }

  lemma Reassociate(a: seq<Path>, b: seq<Path>, c: seq<Path>, d: seq<Path>)
    ensures a + ((b + c) + d) == (a + b) + (c + d)
  {
  }

  /** The walk over the whole tree. */
  method ListLocalFiles(top: seq<Child>) returns (sent: seq<Path>)
    ensures sent == Listing([], top)
  {
    var directories := [Pending([], top)];
    sent := [];
    assert directories[..0] == [];
    while |directories| > 0
      invariant sent + Remaining(directories) == Listing([], top)
      decreases StackWeight(directories)
    {
      var directory := directories[|directories| - 1];
      directories := directories[..|directories| - 1];
      var listed, subdirectories := ListEntries(directory);
      RemainingAppend(directories, subdirectories);
      PushedInReverse(directory.path, directory.children);
      StackWeightAppend(directories, subdirectories);
      PushedWeight(directory.path, directory.children);
      Reassociate(sent, listed, Subtrees(directory.path, directory.children), Remaining(directories));
      sent := sent + listed;
      directories := directories + subdirectories;
    }
  }
}
