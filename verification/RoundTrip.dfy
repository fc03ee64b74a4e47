/**
 A backup followed by a restore gives back what was backed up.
 */
module RoundTrip {
  import opened Common
  import opened Buzhash
  import opened Chunking
  import opened ChunkLists
  import opened PathOrder
  import opened DirectoryWalk
  import opened WalkOrder
  import opened EntryLists
  import opened BackupMerge
  import opened SnapshotCodec
  import opened EndToEnd
  import opened FileSystems
  import opened RestoreMerge
  import opened Restores
  import opened RestoreTargets

  // ------------------------------------------------------------------ the new snapshot can be restored

  /** The entries of the new snapshot are the local ones, without those left out. */
  lemma EntriesFrom(local: seq<Entry>, remote: seq<Entry>, previous: seq<Bytes>, disk: Disk, entries: seq<Entry>,
                    chunks: seq<Bytes>)
    requires Denoted(entries, chunks) == Expected(local, remote, previous, disk)
    ensures forall e :: e in entries ==>
      exists l :: l in local && l.path == e.path && l.kind == e.kind && !Dropped(l, remote, disk)
    ensures forall l :: l in local && !Dropped(l, remote, disk) ==>
      exists e :: e in entries && e.path == l.path && e.kind == l.kind
  {
    var items := Expected(local, remote, previous, disk);
    forall e | e in entries
      ensures exists l :: l in local && l.path == e.path && l.kind == e.kind && !Dropped(l, remote, disk)
    {
      var k :| 0 <= k < |entries| && entries[k] == e;
      assert items[k] == ItemOf(e, chunks) && items[k] in items;
      ExpectedStems(local, |local|, remote, previous, disk, items[k]);
      var j :| 0 <= j < |local| && local[j].path == e.path && local[j].kind == e.kind &&
        !Dropped(local[j], remote, disk);
      assert local[j] in local;
    }
    forall l | l in local && !Dropped(l, remote, disk)
      ensures exists e :: e in entries && e.path == l.path && e.kind == l.kind
    {
      var k :| 0 <= k < |local| && local[k] == l;
      ExpectedOf(local, |local|, remote, previous, disk, k);
      var item :| item in items && item.path == l.path && item.kind == l.kind;
      var j :| 0 <= j < |items| && items[j] == item;
      assert ItemOf(entries[j], chunks) == item && entries[j] in entries;
    }
  }

  /** The entries are some of the local ones; only files may be missing. */
  ghost predicate Trails(local: seq<Entry>, entries: seq<Entry>) {
    (forall e :: e in entries ==> exists l :: l in local && l.path == e.path && l.kind == e.kind) &&
    (forall l :: l in local && !l.IsFile() ==> exists e :: e in entries && e.path == l.path)
  }

  lemma TrailIsTidy(local: seq<Entry>, entries: seq<Entry>)
    requires Trails(local, entries) && Tidy(local) && Sorted(entries)
    ensures Tidy(entries)
  {
    forall i | 0 <= i < |entries| ensures entries[i].kind.Directory? <==> IsDirectory(entries[i].path) {
      var _ := TrailOf(local, entries, i);
    }
    forall i, j | 0 <= i < j < |entries| ensures Name(entries[i].path) != Name(entries[j].path) {
      TotalOrder(entries[i].path, entries[j].path, entries[i].path);
      var k := TrailOf(local, entries, i);
      var l := TrailOf(local, entries, j);
      OneName(local, k, l);
    }
  }

  lemma TrailOf(local: seq<Entry>, entries: seq<Entry>, i: nat) returns (l: Entry)
    requires Trails(local, entries) && Tidy(local) && i < |entries|
    ensures l in local && l.path == entries[i].path && (entries[i].kind.Directory? <==> IsDirectory(entries[i].path))
  {
    assert entries[i] in entries;
    l :| l in local && l.path == entries[i].path && l.kind == entries[i].kind;
    var k :| 0 <= k < |local| && local[k] == l;
  }

  lemma TrailIsClosed(local: seq<Entry>, entries: seq<Entry>)
    requires Trails(local, entries) && Tidy(local) && Closed(local)
    ensures Closed(entries)
  {
    forall e, d | e in entries && IsDirectory(d) && Below(d, e.path) ensures Find(entries, d).Some? {
      var l :| l in local && l.path == e.path;
      var f := Find(local, d).value;
      var k :| 0 <= k < |local| && local[k] == f;
      assert !f.IsFile();
    }
  }

  /** If the local listing is tidy and closed, the new snapshot is. */
  lemma SnapshotIsClosed(local: seq<Entry>, remote: seq<Entry>, previous: seq<Bytes>, disk: Disk, entries: seq<Entry>,
                         chunks: seq<Bytes>)
    requires Denoted(entries, chunks) == Expected(local, remote, previous, disk)
    requires Tidy(local) && Closed(local) && Sorted(entries)
    ensures Tidy(entries) && Closed(entries)
  {
    EntriesFrom(local, remote, previous, disk, entries, chunks);
    assert Trails(local, entries);
    TrailIsTidy(local, entries);
    TrailIsClosed(local, entries);
  }

  /**
   A listing of a directory tree: its paths in the order of the walk, those of directories with a slash at the end.
   */
  ghost predicate Walked(children: seq<Child>, listing: seq<Entry>) {
    Readable(children) && |listing| == |Listing([], children)| &&
    forall i :: 0 <= i < |listing| ==>
      listing[i].path == Listing([], children)[i] && (listing[i].kind.Directory? <==> IsDirectory(listing[i].path))
  }

  /** What the walk of a directory tree lists is fit to be backed up, and to be restored over. */
  lemma WalkedIsListing(children: seq<Child>, listing: seq<Entry>)
    requires Walked(children, listing)
    ensures Sorted(listing) && Tidy(listing) && Closed(listing)
  {
    WalkIsIncreasing(children);
    forall i | 0 <= i < |listing|
      ensures Clean(listing[i].path) && InTree(children, listing[i].path) && listing[i].path != []
    {
      assert listing[i].path in Listing([], children);
      ListedIsClean(children, listing[i].path);
      WalkIsComplete(children, listing[i].path);
    }
    forall i, j | 0 <= i < j < |listing| ensures Name(listing[i].path) != Name(listing[j].path) {
      TotalOrder(listing[i].path, listing[j].path, listing[i].path);
      NamesDiffer(children, listing[i].path, listing[j].path);
    }
    WalkedIsClosed(children, listing);
  }

  lemma NamesDiffer(children: seq<Child>, p: Path, q: Path)
    requires Readable(children) && InTree(children, p) && InTree(children, q) && p != q
    ensures Name(p) != Name(q)
  {
    if Name(p) == Name(q) {
      if IsDirectory(p) { NameAndSlash(p); }
      if IsDirectory(q) { NameAndSlash(q); }
      OneKind(children, if IsDirectory(p) then q else p);
    }
  }

  lemma WalkedIsClosed(children: seq<Child>, listing: seq<Entry>)
    requires Walked(children, listing)
    ensures Closed(listing)
  {
    forall e, d | e in listing && IsDirectory(d) && Below(d, e.path) ensures Find(listing, d).Some? {
      var k :| 0 <= k < |listing| && listing[k] == e;
      assert e.path in Listing([], children);
      WalkIsClosed(children, e.path, d);
      var i :| 0 <= i < |Listing([], children)| && Listing([], children)[i] == d;
      assert listing[i] in listing && listing[i].path == d;
    }
  }

  // ------------------------------------------------------------------ what is given back

  ghost function ItemNames(items: seq<Item>): set<Path> { set i | i in items :: Name(i.path) }

  /** What is in the target is not in the way of this. */
  ghost predicate Fits(i: Item, disk: FileSystem) {
    !Stops(disk, i.path, i.kind) &&
    (i.kind.File? ==> SeenAt(disk, i.path).Folder? ==> LooksEmpty(i, SeenAt(disk, i.path)))
  }

  /** An empty file is left alone if something with its size and time is there. */
  predicate LooksEmpty(i: Item, stat: Seen) {
    i.content == [] &&
    match stat
    case Nothing => false
    case Regular(content, time) => content == [] && time - 1 <= i.time <= time + 1
    case Folder(size, time) => size == 0 && time - 1 <= i.time <= time + 1
  }

  /** What has become of the place of a file, directory or link. */
  ghost predicate GivenBack(i: Item, before: FileSystem, after: FileSystem) {
    var n := Name(i.path);
    match i.kind
    case File =>
      SeenAt(after, n) == if LooksEmpty(i, SeenAt(before, n)) then SeenAt(before, n) else Regular(i.content, i.time)
    case Directory =>
      n in after.names && !SeenAt(after, n).Regular? &&
      (SeenAt(after, n).Folder? ==> SeenAt(after, n).time == i.time) &&
      if n in before.names then after.names[n] == before.names[n]
      else after.names[n] == Inode(false, Own(n)) && SeenAt(after, n).Folder?
    case Link => n in after.names && after.names[n].isLink
  }

  /** Nothing in the target has the name, but not the path, of something restored. */
  ghost predicate Compatible(target: seq<Entry>, items: seq<Item>) {
    forall l, i :: l in target && i in items && Name(l.path) == Name(i.path) ==> l.path == i.path
  }

  /** The options under which a backup is restored whole: everything is compared by contents and may be overwritten. */
  function WholeOptions(allowFailures: bool): Options {
    Options(quickMode := false, overwrite := true, allowFailures := allowFailures, reliable := true)
  }

  lemma EntryFits(e: Entry, local: seq<Entry>, chunks: seq<Bytes>, allowFailures: bool, readable: bool,
                  disk: FileSystem)
    requires Sound(e, chunks) && (e.kind.Directory? <==> IsDirectory(e.path))
    ensures var options := WholeOptions(allowFailures);
      Fits(ItemOf(e, chunks), disk) <==>
      Passes(local, e, false, disk) &&
      (e.IsFile() ==> !Blocks(e, BytesOf(e, chunks), options, readable, SeenAt(disk, e.path)))
  {
  }

  /** Neither the merge nor the downloads stop at the entry. */
  ghost predicate PassesAll(target: seq<Entry>, e: Entry, chunks: seq<Bytes>, files: seq<Entry>, options: Options,
                            unreadable: set<Path>, disk: FileSystem)
  {
    Passes(target, e, false, disk) &&
    (e in files ==> !Blocks(e, BytesOf(e, chunks), options, e.path !in unreadable, SeenAt(disk, e.path)))
  }

  /** The snapshot can be restored if everything in it fits, and some file has contents unless there is no file. */
  lemma FitsIsRestorable(target: seq<Entry>, entries: seq<Entry>, hashes: seq<ChunkHash>, chunks: seq<Bytes>,
                         items: seq<Item>, allowFailures: bool, unreadable: set<Path>, disk: FileSystem)
    requires AllSound(entries, chunks) && Tidy(entries) && Sorted(entries) && Denoted(entries, chunks) == items
    requires hashes != [] <==> exists i :: i in items && i.content != []
    ensures Restorable(target, entries, hashes, chunks, WholeOptions(allowFailures), unreadable, disk) <==>
      (forall i :: i in items ==> Fits(i, disk)) &&
      ((exists i :: i in items && i.content != []) || forall i :: i in items ==> !i.kind.File?)
  {
    var options := WholeOptions(allowFailures);
    var files := Chosen(target, entries, options);
    ChosenFiles(target, entries, options, files);
    forall k | 0 <= k < |entries|
      ensures Fits(items[k], disk) <==> PassesAll(target, entries[k], chunks, files, options, unreadable, disk)
    {
      assert entries[k] in entries && items[k] == ItemOf(entries[k], chunks);
      EntryFits(entries[k], target, chunks, allowFailures, entries[k].path !in unreadable, disk);
    }
    AllFit(target, entries, chunks, items, files, options, unreadable, disk);
    NoFiles(entries, chunks, items, files);
  }

  lemma AllFit(target: seq<Entry>, entries: seq<Entry>, chunks: seq<Bytes>, items: seq<Item>, files: seq<Entry>,
               options: Options, unreadable: set<Path>, disk: FileSystem)
    requires |items| == |entries| && forall f :: f in files ==> f in entries
    requires forall k :: 0 <= k < |entries| ==>
      (Fits(items[k], disk) <==> PassesAll(target, entries[k], chunks, files, options, unreadable, disk))
    ensures (forall i :: i in items ==> Fits(i, disk)) <==>
      AllPass(target, entries, |entries|, false, disk) && !AnyBlocks(files, chunks, options, unreadable, disk)
  {
    if forall i :: i in items ==> Fits(i, disk) {
      forall k | 0 <= k < |entries|
        ensures Fits(items[k], disk) && PassesAll(target, entries[k], chunks, files, options, unreadable, disk)
      {
        assert items[k] in items;
      }
      forall e | e in files
        ensures !Blocks(e, BytesOf(e, chunks), options, e.path !in unreadable, SeenAt(disk, e.path))
      {
        var k :| 0 <= k < |entries| && entries[k] == e;
      }
    }
    if AllPass(target, entries, |entries|, false, disk) && !AnyBlocks(files, chunks, options, unreadable, disk) {
      forall i | i in items ensures Fits(i, disk) {
        var k :| 0 <= k < |items| && items[k] == i;
        assert Passes(target, entries[k], false, disk);
      }
    }
  }

  lemma NoFiles(entries: seq<Entry>, chunks: seq<Bytes>, items: seq<Item>, files: seq<Entry>)
    requires Denoted(entries, chunks) == items
    requires forall e :: e in files <==> e in entries && e.IsFile()
    ensures files == [] <==> forall i :: i in items ==> !i.kind.File?
  {
    if files != [] {
      var e := files[0];
      assert e in files;
      var k :| 0 <= k < |entries| && entries[k] == e;
      assert items[k] == ItemOf(e, chunks) && items[k] in items;
    } else {
      forall i | i in items ensures !i.kind.File? {
        var k :| 0 <= k < |items| && items[k] == i;
        assert items[k] == ItemOf(entries[k], chunks) && entries[k] in entries;
      }
    }
  }

  /** With intact chunks and permission to overwrite, what is done is given back. */
  lemma DoneIsGivenBack(e: Entry, target: seq<Entry>, chunks: seq<Bytes>, allowFailures: bool, unreadable: set<Path>,
                        before: FileSystem, after: FileSystem)
    requires Sound(e, chunks) && (e.kind.Directory? <==> IsDirectory(e.path))
    requires EntryDone(e, target, chunks, WholeOptions(allowFailures), unreadable, before, after, 0, false, true)
    ensures GivenBack(ItemOf(e, chunks), before, after)
  {
    var options := WholeOptions(allowFailures);
    if e.IsFile() {
      var o :| SettledAt(o, e, chunks, options, unreadable, SeenAt(before, e.path), after) && !Fails(o) &&
        !Stopped(o, options);
    }
  }

  /** Whatever is not deleted afterwards is given back. */
  lemma AllGivenBack(target: seq<Entry>, entries: seq<Entry>, chunks: seq<Bytes>, items: seq<Item>, allowFailures: bool,
                     unreadable: set<Path>, before: FileSystem, after: FileSystem, gone: set<Path>)
    requires AllSound(entries, chunks) && Tidy(entries) && Denoted(entries, chunks) == items
    requires EntriesDone(target, entries, chunks, WholeOptions(allowFailures), unreadable, before, after, true, 0, gone)
    ensures forall i :: i in items && Spared(before, Name(i.path), gone) ==> GivenBack(i, before, after)
  {
    forall i | i in items && Spared(before, Name(i.path), gone) ensures GivenBack(i, before, after) {
      var k :| 0 <= k < |items| && items[k] == i;
      assert i == ItemOf(entries[k], chunks) && entries[k] in entries;
      DoneIsGivenBack(entries[k], target, chunks, allowFailures, unreadable, before, after);
    }
  }

  ghost function ItemPaths(items: seq<Item>): set<Path> { set i | i in items :: i.path }

  ghost function EntryPaths(entries: seq<Entry>): set<Path> { set e | e in entries :: e.path }

  lemma SamePathsOf(entries: seq<Entry>, chunks: seq<Bytes>, items: seq<Item>)
    requires Denoted(entries, chunks) == items
    ensures EntryPaths(entries) == ItemPaths(items)
  {
    forall e | e in entries ensures e.path in ItemPaths(items) {
      var k :| 0 <= k < |entries| && entries[k] == e;
      assert items[k] in items && items[k] == ItemOf(e, chunks);
    }
    forall i | i in items ensures i.path in EntryPaths(entries) {
      var k :| 0 <= k < |items| && items[k] == i;
      assert entries[k] in entries && items[k] == ItemOf(entries[k], chunks);
    }
  }

  lemma NamesOfPaths(entries: seq<Entry>, items: seq<Item>)
    requires EntryPaths(entries) == ItemPaths(items)
    ensures EntryNames(entries) == ItemNames(items)
  {
    forall e | e in entries ensures Name(e.path) in ItemNames(items) {
      assert e.path in ItemPaths(items);
      var i :| i in items && i.path == e.path;
    }
    forall i | i in items ensures Name(i.path) in EntryNames(entries) {
      assert i.path in EntryPaths(entries);
      var e :| e in entries && e.path == i.path;
    }
  }

  lemma ClashOfPaths(entries: seq<Entry>, items: seq<Item>, target: seq<Entry>)
    requires EntryPaths(entries) == ItemPaths(items)
    ensures NoClash(target, entries) <==> Compatible(target, items)
  {
    if NoClash(target, entries) {
      forall l, i | l in target && i in items && Name(l.path) == Name(i.path) ensures l.path == i.path {
        assert i.path in EntryPaths(entries);
        var e :| e in entries && e.path == i.path;
      }
    }
    if Compatible(target, items) {
      forall l, e | l in target && e in entries && Name(l.path) == Name(e.path) ensures l.path == e.path {
        assert e.path in ItemPaths(items);
        var i :| i in items && i.path == e.path;
      }
    }
  }

  lemma SameNames(entries: seq<Entry>, chunks: seq<Bytes>, items: seq<Item>, target: seq<Entry>)
    requires Denoted(entries, chunks) == items
    ensures EntryNames(entries) == ItemNames(items)
    ensures NoClash(target, entries) <==> Compatible(target, items)
    ensures Compatible(target, items) ==> EntryNames(entries) !! ExtraNames(target, entries)
  {
    SamePathsOf(entries, chunks, items);
    NamesOfPaths(entries, items);
    ClashOfPaths(entries, items, target);
    if Compatible(target, items) {
      forall l | l in target && Find(entries, l.path).None? ensures Name(l.path) !in EntryNames(entries) {}
    }
  }

  // ------------------------------------------------------------------ where the files lead

  ghost function PlainItems(items: seq<Item>): set<Path> { set i | i in items && !i.kind.Link? :: Name(i.path) }

  /** No file leads to a directory that is given back. */
  ghost predicate OffFolders(disk: FileSystem, items: seq<Item>) {
    forall i, d :: i in items && d in items && i.kind.File? && d.kind.Directory? ==>
      LeadsTo(disk, i.path) != LeadsTo(disk, Name(d.path))
  }

  /** Each file holds what it should, in the place it leads to, if that lasts. */
  ghost predicate ItemsShow(items: seq<Item>, disk: FileSystem, after: FileSystem, gone: set<Path>) {
    forall i :: i in items && i.kind.File? && Lasts(LeadsTo(disk, i.path), gone) ==>
      Shows(i.content, SeenIn(after, LeadsTo(disk, i.path)))
  }

  /** No two files with different contents lead to the same place, if that lasts. */
  ghost predicate ItemsAgree(items: seq<Item>, disk: FileSystem, gone: set<Path>) {
    forall i, j :: i in items && j in items && i.kind.File? && j.kind.File? && Lasts(LeadsTo(disk, i.path), gone) &&
                   LeadsTo(disk, i.path) == LeadsTo(disk, j.path) ==>
      i.content == j.content
  }

  /** What appears in the target under names of its own, when files are written through links that led nowhere. */
  ghost function StrayItems(disk: FileSystem, items: seq<Item>): set<Path> {
    set i | i in items && i.kind.File? && LeadsTo(disk, i.path).Own? && LeadsTo(disk, i.path).name !in disk.names ::
      LeadsTo(disk, i.path).name
  }

  /** What is deleted afterwards. */
  ghost function Deleted(target: seq<Entry>, items: seq<Item>, deleteMode: bool): set<Path> {
    if deleteMode then set l | l in target && l.path !in ItemPaths(items) :: Name(l.path) else {}
  }

  lemma DeletedIsGone(target: seq<Entry>, entries: seq<Entry>, chunks: seq<Bytes>, items: seq<Item>, deleteMode: bool)
    requires Denoted(entries, chunks) == items
    ensures Deleted(target, items, deleteMode) == Gone(target, entries, true, deleteMode)
  {
    SamePathsOf(entries, chunks, items);
    forall l | l in target ensures Find(entries, l.path).None? <==> l.path !in ItemPaths(items) {
      if l.path in EntryPaths(entries) { var e :| e in entries && e.path == l.path; }
      if Find(entries, l.path).Some? { assert l.path in EntryPaths(entries); }
    }
  }

  /** Each entry stands for one of the files, directories and links, and the other way around. */
  ghost predicate StandsFor(e: Entry, chunks: seq<Bytes>, i: Item) { i == ItemOf(e, chunks) }

  lemma EntryOf(entries: seq<Entry>, chunks: seq<Bytes>, items: seq<Item>, i: Item) returns (e: Entry)
    requires Denoted(entries, chunks) == items && i in items
    ensures e in entries && StandsFor(e, chunks, i)
  {
    var k :| 0 <= k < |items| && items[k] == i;
    e := entries[k];
  }

  lemma ItemFor(entries: seq<Entry>, chunks: seq<Bytes>, items: seq<Item>, e: Entry)
    requires Denoted(entries, chunks) == items && e in entries
    ensures ItemOf(e, chunks) in items
  {
    var k :| 0 <= k < |entries| && entries[k] == e;
    assert items[k] == ItemOf(e, chunks);
  }

  lemma SamePlain(entries: seq<Entry>, chunks: seq<Bytes>, items: seq<Item>, disk: FileSystem)
    requires Denoted(entries, chunks) == items
    ensures PlainNames(entries) == PlainItems(items)
    ensures OffDirectories(disk, entries) <==> OffFolders(disk, items)
  {
    forall e | e in entries ensures ItemOf(e, chunks) in items { ItemFor(entries, chunks, items, e); }
    forall i | i in items ensures exists e :: e in entries && StandsFor(e, chunks, i) {
      var e := EntryOf(entries, chunks, items, i);
    }
    PlainAgain(entries, chunks, items);
    if OffFolders(disk, items) {
      forall e, d | e in entries && d in entries && e.IsFile() && d.kind.Directory?
        ensures LeadsTo(disk, e.path) != LeadsTo(disk, Name(d.path))
      {
        assert ItemOf(e, chunks) in items && ItemOf(d, chunks) in items;
      }
    }
    if OffDirectories(disk, entries) {
      forall i, j | i in items && j in items && i.kind.File? && j.kind.Directory?
        ensures LeadsTo(disk, i.path) != LeadsTo(disk, Name(j.path))
      {
        var e := EntryOf(entries, chunks, items, i);
        var d := EntryOf(entries, chunks, items, j);
      }
    }
  }

  lemma PlainAgain(entries: seq<Entry>, chunks: seq<Bytes>, items: seq<Item>)
    requires Denoted(entries, chunks) == items
    ensures PlainNames(entries) == PlainItems(items)
  {
    forall p | p in PlainItems(items) ensures p in PlainNames(entries) {
      var i :| i in items && !i.kind.Link? && Name(i.path) == p;
      var e := EntryOf(entries, chunks, items, i);
    }
    forall p | p in PlainNames(entries) ensures p in PlainItems(items) {
      var e :| e in entries && !e.kind.Link? && Name(e.path) == p;
      ItemFor(entries, chunks, items, e);
    }
  }

  lemma SameStrays(entries: seq<Entry>, chunks: seq<Bytes>, items: seq<Item>, files: seq<Entry>, disk: FileSystem)
    requires Denoted(entries, chunks) == items && forall e :: e in files <==> e in entries && e.IsFile()
    ensures Strays(disk, files) == StrayItems(disk, items)
  {
    forall p | p in StrayItems(disk, items) ensures p in Strays(disk, files) {
      var i :| i in items && i.kind.File? && LeadsTo(disk, i.path) == Own(p) && p !in disk.names;
      var e := EntryOf(entries, chunks, items, i);
    }
    forall p | p in Strays(disk, files) ensures p in StrayItems(disk, items) {
      var e :| e in files && LeadsTo(disk, e.path) == Own(p) && p !in disk.names;
      ItemFor(entries, chunks, items, e);
    }
  }

  lemma SameShown(entries: seq<Entry>, chunks: seq<Bytes>, items: seq<Item>, files: seq<Entry>, disk: FileSystem,
                  after: FileSystem, gone: set<Path>)
    requires Denoted(entries, chunks) == items && forall e :: e in files <==> e in entries && e.IsFile()
    ensures AllShow(files, chunks, disk, after, gone) <==> ItemsShow(items, disk, after, gone)
  {
    if AllShow(files, chunks, disk, after, gone) {
      forall i | i in items && i.kind.File? && Lasts(LeadsTo(disk, i.path), gone)
        ensures Shows(i.content, SeenIn(after, LeadsTo(disk, i.path)))
      {
        var e := EntryOf(entries, chunks, items, i);
      }
    }
    if ItemsShow(items, disk, after, gone) {
      forall e | e in files && Lasts(LeadsTo(disk, e.path), gone)
        ensures Shows(BytesOf(e, chunks), SeenIn(after, LeadsTo(disk, e.path)))
      {
        ItemFor(entries, chunks, items, e);
      }
    }
  }

  lemma SameAgreed(entries: seq<Entry>, chunks: seq<Bytes>, items: seq<Item>, files: seq<Entry>, disk: FileSystem,
                   gone: set<Path>)
    requires Denoted(entries, chunks) == items && forall e :: e in files <==> e in entries && e.IsFile()
    ensures Agree(files, chunks, disk, gone) <==> ItemsAgree(items, disk, gone)
  {
    if Agree(files, chunks, disk, gone) {
      forall i, j | i in items && j in items && i.kind.File? && j.kind.File? && Lasts(LeadsTo(disk, i.path), gone) &&
                    LeadsTo(disk, i.path) == LeadsTo(disk, j.path)
        ensures i.content == j.content
      {
        var e := EntryOf(entries, chunks, items, i);
        var f := EntryOf(entries, chunks, items, j);
      }
    }
    if ItemsAgree(items, disk, gone) {
      forall e, f | e in files && f in files && Lasts(LeadsTo(disk, e.path), gone) &&
                    LeadsTo(disk, e.path) == LeadsTo(disk, f.path)
        ensures BytesOf(e, chunks) == BytesOf(f, chunks)
      {
        ItemFor(entries, chunks, items, e);
        ItemFor(entries, chunks, items, f);
      }
    }
  }

  // ------------------------------------------------------------------ the round trip

  /** Everything fits, and some file has contents, unless there is no file. */
  ghost predicate CanBeGivenBack(items: seq<Item>, disk: FileSystem) {
    (forall i :: i in items ==> Fits(i, disk)) &&
    ((exists i :: i in items && i.content != []) || forall i :: i in items ==> !i.kind.File?)
  }

  /** The target after the restore. */
  ghost predicate TargetHolds(items: seq<Item>, target: seq<Entry>, deleteMode: bool, before: FileSystem,
                              after: FileSystem)
  {
    var gone := Deleted(target, items, deleteMode);
    (ItemsShow(items, before, after, gone) <==> ItemsAgree(items, before, gone)) &&
    (Distinguishes(before, PlainItems(items)) ==>
      forall i :: i in items && Spared(before, Name(i.path), gone) ==> GivenBack(i, before, after)) &&
    (deleteMode && Mirrors(before, target) && Tidy(target) ==>
      (after.names.Keys == ItemNames(items) <==>
       Compatible(target, items) && StrayItems(before, items) <= ItemNames(items)))
  }

  /**
   Back up a disk, and restore the new snapshot over a target directory.  The backup stops if there is no file, and the
   restore if something in the target is in the way, or if there are files and all of them are empty.  Otherwise each
   file that lasts holds what was to be backed up, if and only if no two files with different contents lead to the same
   place; if all files and directories lead to places of their own, everything that lasts is given back; and with the
   delete option nothing else is left, if and only if the names in the target are of the same kinds and no file has
   been written elsewhere through a link.
   */
  method BackupAndRestore(local: seq<Entry>, remote: seq<Entry>, hashes: seq<ChunkHash>, lengths: seq<nat>, disk: Disk,
                          p: Params, maximumInMemoryEntries: int, target: seq<Entry>, files: FileSystem,
                          allowFailures: bool, deleteMode: bool, threads: nat, unreadable: set<Path>, sparse: bool,
                          ghost previous: seq<Bytes>)
    returns (ok: bool, failures: nat, after: FileSystem)
    requires Listed(local) && Tidy(local) && Closed(local) && ProperSnapshot(remote, hashes, lengths, previous)
    requires Sorted(target) && Rooted(files) && p.Valid() && p.hash.Valid()
    ensures OffFolders(files, Expected(local, remote, previous, disk)) ==>
      (ok <==> (exists e :: e in local && e.IsFile()) && CanBeGivenBack(Expected(local, remote, previous, disk), files))
    ensures ok ==> failures == 0
    ensures ok ==> TargetHolds(Expected(local, remote, previous, disk), target, deleteMode, files, after)
  {
    var stored, entries, newHashes, newLengths, chunks :=
      Backup(local, remote, hashes, lengths, disk, p, maximumInMemoryEntries, previous);
    if !stored {
      return false, 0, files;
    }
    SnapshotIsClosed(local, remote, previous, disk, entries, chunks);
    ok, failures, after := RestoreWhole(entries, newHashes, newLengths, target, files, allowFailures, deleteMode,
                                        threads, unreadable, sparse, chunks, Expected(local, remote, previous, disk));
  }

  /** Restore a snapshot that denotes these, overwriting what is there. */
  method RestoreWhole(entries: seq<Entry>, hashes: seq<ChunkHash>, lengths: seq<nat>, target: seq<Entry>,
                      files: FileSystem, allowFailures: bool, deleteMode: bool, threads: nat, unreadable: set<Path>,
                      sparse: bool, ghost chunks: seq<Bytes>, ghost items: seq<Item>)
    returns (ok: bool, failures: nat, after: FileSystem)
    requires ProperSnapshot(entries, hashes, lengths, chunks) && Tidy(entries) && Closed(entries)
    requires Denoted(entries, chunks) == items && (hashes != [] <==> exists i :: i in items && i.content != [])
    requires Sorted(target) && Rooted(files)
    ensures OffFolders(files, items) ==> (ok <==> CanBeGivenBack(items, files))
    ensures ok ==> failures == 0 && TargetHolds(items, target, deleteMode, files, after)
  {
    var options := WholeOptions(allowFailures);
    ok, failures, after := Restore(target, entries, hashes, lengths, files, options, deleteMode, threads, unreadable,
                                   sparse, chunks);
    FitsIsRestorable(target, entries, hashes, chunks, items, allowFailures, unreadable, files);
    SamePlain(entries, chunks, items, files);
    if ok { TargetIsGivenBack(entries, chunks, items, target, allowFailures, unreadable, deleteMode, files, after); }
  }

  lemma TargetIsGivenBack(entries: seq<Entry>, chunks: seq<Bytes>, items: seq<Item>, target: seq<Entry>,
                          allowFailures: bool, unreadable: set<Path>, deleteMode: bool, before: FileSystem,
                          after: FileSystem)
    requires Sorted(entries) && Tidy(entries) && AllSound(entries, chunks) && Denoted(entries, chunks) == items
    requires TargetAfter(target, entries, chunks, WholeOptions(allowFailures), unreadable, deleteMode, before, after,
                         true, 0)
    ensures TargetHolds(items, target, deleteMode, before, after)
  {
    var options := WholeOptions(allowFailures);
    var files, gone := Chosen(target, entries, options), Gone(target, entries, true, deleteMode);
    ChosenFiles(target, entries, options, files);
    DeletedIsGone(target, entries, chunks, items, deleteMode);
    SameShown(entries, chunks, items, files, before, after, gone);
    SameAgreed(entries, chunks, items, files, before, gone);
    SameStrays(entries, chunks, items, files, before);
    SameNames(entries, chunks, items, target);
    PlainAgain(entries, chunks, items);
    if Separate(before, entries) {
      AllGivenBack(target, entries, chunks, items, allowFailures, unreadable, before, after, gone);
    }
  }
}
