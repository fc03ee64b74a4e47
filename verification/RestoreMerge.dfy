/**
 The first part of a restore: the snapshot is compared with the local files, and its directories and links are
 made on the way.  Also the last part, the deletion of the extra files in reverse order.
 */
module RestoreMerge {
  import opened Common
  import opened Chunking
  import opened PathOrder
  import opened WalkOrder
  import opened EntryLists
  import opened BackupMerge
  import opened FileSystems

  /** The paths among the first `n` of the local listing that the snapshot does not have. */
  function Extra(local: seq<Entry>, n: nat, remote: seq<Entry>): seq<Path>
    requires n <= |local|
  {
    if n == 0 then []
    else Extra(local, n - 1, remote) + if Find(remote, local[n - 1].path).None? then [local[n - 1].path] else []
  }

  /** The local file looks like the one in the snapshot, and is therefore left alone in quick mode. */
  predicate LooksUnchanged(local: seq<Entry>, e: Entry, quickMode: bool) {
    var l := Find(local, e.path);
    quickMode && l.Some? && l.value.IsFile() && IsSameAs(l.value, e)
  }

  /** Those of one kind, among the first `m` entries of the snapshot, that are to be restored. */
  function Selected(local: seq<Entry>, remote: seq<Entry>, m: nat, quickMode: bool, kind: Kind): seq<Entry>
    requires m <= |remote|
  {
    if m == 0 then []
    else
      var e := remote[m - 1];
      Selected(local, remote, m - 1, quickMode, kind) +
      if e.kind == kind && !LooksUnchanged(local, e, quickMode) then [e] else []
  }

  lemma {:induction false} InSelected(local: seq<Entry>, remote: seq<Entry>, m: nat, quickMode: bool, kind: Kind,
                                      e: Entry)
    requires m <= |remote|
    ensures e in Selected(local, remote, m, quickMode, kind) <==>
      e in remote[..m] && e.kind == kind && !LooksUnchanged(local, e, quickMode)
  {
    if m > 0 {
      InSelected(local, remote, m - 1, quickMode, kind, e);
      assert remote[..m] == remote[..m - 1] + [remote[m - 1]];
    }
  }

  lemma {:induction false} InExtra(local: seq<Entry>, n: nat, remote: seq<Entry>, path: Path)
    requires n <= |local|
    ensures path in Extra(local, n, remote) <==>
      Find(remote, path).None? && exists k :: 0 <= k < n && local[k].path == path
  {
    if n > 0 { InExtra(local, n - 1, remote, path); }
  }

  /** The two listings have been joined up to `p` local and `m` remote entries. */
  ghost predicate Apart(local: seq<Entry>, p: int, remote: seq<Entry>, m: nat) {
    0 <= p <= |local| && m <= |remote| &&
    (p > 0 && m < |remote| ==> Compare(local[p - 1].path, remote[m].path) < 0) &&
    (m > 0 && p < |local| ==> Compare(remote[m - 1].path, local[p].path) < 0)
  }

  /** In a sorted listing a path between two neighbours is missing. */
  lemma FallsBetween(list: seq<Entry>, m: nat, path: Path)
    requires Sorted(list) && m <= |list| && Clean(path)
    requires m > 0 ==> Compare(list[m - 1].path, path) < 0
    requires m < |list| ==> Compare(path, list[m].path) < 0
    ensures Find(list, path).None?
  {
    var f := Find(list, path);
    if f.Some? {
      var i :| 0 <= i < |list| && list[i] == f.value;
      TotalOrder(path, path, path);
      if i < m {
        TotalOrder(list[i].path, list[m - 1].path, path);
      } else {
        TotalOrder(path, list[m].path, list[i].path);
      }
    }
  }

  /** A local entry before the next remote one has no counterpart. */
  lemma IsExtra(local: seq<Entry>, p: nat, remote: seq<Entry>, m: nat)
    requires Sorted(local) && Sorted(remote) && Apart(local, p, remote, m) && p < |local|
    requires m < |remote| ==> Compare(local[p].path, remote[m].path) < 0
    ensures Find(remote, local[p].path).None? && Apart(local, p + 1, remote, m)
    ensures Extra(local, p + 1, remote) == Extra(local, p, remote) + [local[p].path]
  {
    FallsBetween(remote, m, local[p].path);
    if m > 0 && p + 1 < |local| { TotalOrder(remote[m - 1].path, local[p].path, local[p + 1].path); }
  }

  /** The remote entry has been compared with what has been reached. */
  lemma RemotePassed(local: seq<Entry>, p: nat, remote: seq<Entry>, m: nat, found: bool)
    requires Sorted(local) && Sorted(remote) && m < |remote| && Apart(local, p, remote, m)
    requires if found then p < |local| && local[p].path == remote[m].path else Beyond(local, p, remote[m].path)
    ensures Apart(local, if found then p + 1 else p, remote, m + 1)
    ensures Find(local, remote[m].path) == if found then Some(local[p]) else None
    ensures found ==> Extra(local, p + 1, remote) == Extra(local, p, remote)
  {
    var path := remote[m].path;
    if found {
      assert local[p] in local && remote[m] in remote;
      FoundAt(local, p, path);
    } else {
      FallsBetween(local, p, path);
      if p > 0 && m + 1 < |remote| { TotalOrder(local[p - 1].path, path, remote[m + 1].path); }
    }
  }

  lemma FoundAt(local: seq<Entry>, p: nat, path: Path)
    requires Sorted(local) && p < |local| && local[p].path == path
    ensures Find(local, path) == Some(local[p])
  {
    assert local[p] in local;
    var f := Find(local, path).value;
    var k :| 0 <= k < |local| && local[k] == f;
    SamePath(local, k, p);
  }

  lemma SamePath(list: seq<Entry>, i: nat, j: nat)
    requires Sorted(list) && i < |list| && j < |list| && list[i].path == list[j].path
    ensures i == j
  {
    TotalOrder(list[i].path, list[j].path, list[i].path);
  }

  method CompareEntries(left: Entry, right: Entry) returns (r: int)
    requires Clean(left.path) && Clean(right.path)
    ensures r < 0 <==> Compare(left.path, right.path) < 0
    ensures r == 0 <==> left.path == right.path
    ensures r > 0 <==> Compare(right.path, left.path) < 0
  {
    r := ComparePaths(left.path, right.path);
    TotalOrder(left.path, right.path, left.path);
  }

  /** The local entries from the `p`-th on come after the path. */
  ghost predicate Beyond(local: seq<Entry>, p: int, path: Path)
    requires p >= 0
  {
    p < |local| ==> Compare(path, local[p].path) < 0
  }

  // ------------------------------------------------------------------ directories and links

  /** What is on the disk is in the way of a directory or link of the snapshot. */
  ghost predicate Stops(disk: FileSystem, path: Path, kind: Kind) {
    match kind
    case Directory => SeenAt(disk, Name(path)).Regular?
    case Link => !Removable(disk, Name(path)) && !disk.names[Name(path)].isLink
    case File => false
  }

  ghost predicate Passes(local: seq<Entry>, e: Entry, quickMode: bool, disk: FileSystem) {
    LooksUnchanged(local, e, quickMode) || !Stops(disk, e.path, e.kind)
  }

  /** The paths of directories, and only they, end with a slash, and no two paths have the same name. */
  ghost predicate Tidy(listing: seq<Entry>) {
    (forall i :: 0 <= i < |listing| ==> (listing[i].kind.Directory? <==> IsDirectory(listing[i].path))) &&
    (forall i, j :: 0 <= i < j < |listing| ==> Name(listing[i].path) != Name(listing[j].path))
  }

  /** Whatever a listing holds, it holds the directories above it. */
  ghost predicate Closed(listing: seq<Entry>) {
    forall e, d :: e in listing && IsDirectory(d) && Below(d, e.path) ==> Find(listing, d).Some?
  }

  /** What becomes of the place of a directory or link; files come later. */
  ghost predicate PlacedOne(e: Entry, disk: FileSystem, after: FileSystem) {
    var n := Name(e.path);
    match e.kind
    case Directory =>
      n in after.names && !SeenAt(after, n).Regular? &&
      if n in disk.names then after.names[n] == disk.names[n]
      else after.names[n] == Inode(false, Own(n)) && SeenAt(after, n).Folder?
    case Link => n in after.names && after.names[n].isLink
    case File => InodeAt(after, n) == InodeAt(disk, n)
  }

  ghost predicate PlacedAt(local: seq<Entry>, e: Entry, quickMode: bool, disk: FileSystem, after: FileSystem) {
    if LooksUnchanged(local, e, quickMode) then InodeAt(after, Name(e.path)) == InodeAt(disk, Name(e.path))
    else PlacedOne(e, disk, after)
  }

  /** Nothing has changed but that these directories exist. */
  ghost predicate FilesGrown(remote: seq<Entry>, n: nat, disk: FileSystem, after: FileSystem)
    requires n <= |remote|
  {
    (forall f :: f in disk.files ==> f in after.files && after.files[f] == disk.files[f]) &&
    (forall f :: f in after.files && f !in disk.files ==> after.files[f].Folder? && MadeFor(remote, n, disk, f))
  }

  ghost predicate MadeFor(remote: seq<Entry>, n: nat, disk: FileSystem, f: FileId)
    requires n <= |remote|
  {
    exists i :: 0 <= i < n && remote[i].kind.Directory? && f == Own(Name(remote[i].path)) && f.name !in disk.names
  }

  /** The directories and links among the first `n` entries have been made, and nothing else has changed. */
  ghost predicate Placed(local: seq<Entry>, remote: seq<Entry>, n: nat, quickMode: bool, disk: FileSystem,
                         after: FileSystem)
    requires n <= |remote|
  {
    Rooted(after) && FilesGrown(remote, n, disk, after) &&
    (forall i :: 0 <= i < n ==> PlacedAt(local, remote[i], quickMode, disk, after)) &&
    (forall p :: (forall i :: 0 <= i < n ==> Name(remote[i].path) != p) ==> InodeAt(after, p) == InodeAt(disk, p))
  }

  // ------------------------------------------------------------------ the join

  /** How far the join has come. */
  ghost predicate Joining(cursor: Cursor, remote: seq<Entry>, m: nat, extraFiles: seq<Path>)
    reads cursor
  {
    cursor.Valid() && Apart(cursor.listing, cursor.Passed(), remote, m) &&
    extraFiles == Extra(cursor.listing, cursor.Passed(), remote)
  }

  /** The local entry at hand has no counterpart. */
  method TakeExtra(cursor: Cursor, remote: seq<Entry>, m: nat, extraFiles: seq<Path>) returns (more: seq<Path>)
    requires Sorted(cursor.listing) && Sorted(remote) && Joining(cursor, remote, m, extraFiles) && cursor.entry.Some?
    requires m < |remote| ==> Compare(cursor.entry.value.path, remote[m].path) < 0
    modifies cursor`entry
    ensures Joining(cursor, remote, m, more) && cursor.entry.None?
  {
    IsExtra(cursor.listing, cursor.Passed(), remote, m);
    more := extraFiles + [cursor.entry.value.path];
    cursor.entry := None;
  }

  /** Receive a local entry, unless there is one at hand or they have come to an end. */
  method Look(cursor: Cursor)
    requires cursor.Valid()
    modifies cursor
    ensures cursor.Valid() && cursor.Passed() == old(cursor.Passed())
    ensures old(cursor.entry.Some?) ==> cursor.listingOK == old(cursor.listingOK)
    ensures if cursor.entry.None? then cursor.Passed() == |cursor.listing|
            else cursor.Passed() < |cursor.listing| && cursor.entry.value == cursor.listing[cursor.Passed()]
  {
    if cursor.entry.None? && cursor.listingOK {
      cursor.Receive();
    }
  }

  /** Consume the local entries before the remote one, and compare it with the one reached. */
  method NextRemote(cursor: Cursor, remote: seq<Entry>, m: nat, extraFiles: seq<Path>)
    returns (compareResult: int, more: seq<Path>)
    requires Sorted(cursor.listing) && Sorted(remote) && Joining(cursor, remote, m, extraFiles) && m < |remote|
    modifies cursor
    ensures Joining(cursor, remote, m, more) && compareResult >= 0
    ensures compareResult == 0 ==> cursor.entry.Some? && cursor.entry.value.path == remote[m].path
    ensures compareResult > 0 ==> Beyond(cursor.listing, cursor.Passed(), remote[m].path)
  {
    more := extraFiles;
    while true
      invariant Joining(cursor, remote, m, more)
      decreases |cursor.listing| - cursor.Passed()
    {
      Look(cursor);
      if cursor.entry.None? {
        return 1, more;
      }
      compareResult := CompareEntries(cursor.entry.value, remote[m]);
      if compareResult >= 0 {
        return;
      }
      more := TakeExtra(cursor, remote, m, more);
    }
  }

  /** The first `n` entries of the snapshot have been handled. */
  ghost predicate Handled(local: seq<Entry>, remote: seq<Entry>, n: nat, quickMode: bool, disk: FileSystem,
                          after: FileSystem, files: seq<Entry>, directories: seq<Entry>)
    requires n <= |remote|
  {
    Placed(local, remote, n, quickMode, disk, after) && AllPass(local, remote, n, quickMode, disk) &&
    files == Selected(local, remote, n, quickMode, File) &&
    directories == Selected(local, remote, n, quickMode, Directory)
  }

  /**
   Join a snapshot with the local listing, and make its directories and links.  The join stops at the first of
   them that is in the way of what is on the disk; `done` entries have been handled then.
   */
  method MergeListings(local: seq<Entry>, remote: seq<Entry>, quickMode: bool, disk: FileSystem)
    returns (ok: bool, done: nat, extraFiles: seq<Path>, files: seq<Entry>, directories: seq<Entry>, after: FileSystem)
    requires Sorted(local) && Sorted(remote) && Tidy(remote) && Closed(remote) && Rooted(disk)
    ensures done <= |remote| && Handled(local, remote, done, quickMode, disk, after, files, directories)
    ensures if ok then done == |remote| else done < |remote| && !Passes(local, remote[done], quickMode, disk)
    ensures ok ==> extraFiles == Extra(local, |local|, remote)
  {
    var cursor := new Cursor(local);
    extraFiles, files, directories, after, done := [], [], [], disk, 0;
    while done < |remote|
      invariant Joining(cursor, remote, done, extraFiles) && cursor.listing == local
      invariant Handled(local, remote, done, quickMode, disk, after, files, directories)
    {
      ok, extraFiles, after, files, directories :=
        MergeNext(cursor, remote, done, extraFiles, quickMode, disk, after, files, directories);
      if !ok {
        return;
      }
      done := done + 1;
    }
    extraFiles := RestIsExtra(cursor, remote, extraFiles);
    ok := true;
  }

  /** Find the counterpart of the next entry of the snapshot, and handle the entry. */
  method MergeNext(cursor: Cursor, remote: seq<Entry>, n: nat, extraFiles: seq<Path>, quickMode: bool,
                   ghost disk: FileSystem, before: FileSystem, files0: seq<Entry>, directories0: seq<Entry>)
    returns (ok: bool, more: seq<Path>, after: FileSystem, files: seq<Entry>, directories: seq<Entry>)
    requires n < |remote| && Sorted(cursor.listing) && Sorted(remote) && Tidy(remote) && Closed(remote) && Rooted(disk)
    requires Joining(cursor, remote, n, extraFiles)
    requires Handled(cursor.listing, remote, n, quickMode, disk, before, files0, directories0)
    modifies cursor
    ensures Joining(cursor, remote, n + 1, more)
    ensures ok <==> Passes(cursor.listing, remote[n], quickMode, disk)
    ensures Handled(cursor.listing, remote, if ok then n + 1 else n, quickMode, disk, after, files, directories)
  {
    var skipped;
    skipped, more := JoinRemote(cursor, remote, n, extraFiles, quickMode);
    ok, after, files, directories :=
      Handle(cursor.listing, remote, n, skipped, quickMode, disk, before, files0, directories0);
  }

  ghost predicate AllPass(local: seq<Entry>, remote: seq<Entry>, n: nat, quickMode: bool, disk: FileSystem)
    requires n <= |remote|
  {
    forall i :: 0 <= i < n ==> Passes(local, remote[i], quickMode, disk)
  }

  lemma PassesNext(local: seq<Entry>, remote: seq<Entry>, n: nat, quickMode: bool, disk: FileSystem)
    requires n < |remote| && AllPass(local, remote, n, quickMode, disk) && Passes(local, remote[n], quickMode, disk)
    ensures AllPass(local, remote, n + 1, quickMode, disk)
  {
  }

  /** One entry of the snapshot, compared with its counterpart: a directory or link is made now, a file comes later. */
  method Handle(ghost local: seq<Entry>, remote: seq<Entry>, n: nat, skipped: bool, ghost quickMode: bool,
                ghost disk: FileSystem, before: FileSystem, files0: seq<Entry>, directories0: seq<Entry>)
    returns (ok: bool, after: FileSystem, files: seq<Entry>, directories: seq<Entry>)
    requires n < |remote| && Sorted(remote) && Tidy(remote) && Closed(remote) && Rooted(disk)
    requires skipped == LooksUnchanged(local, remote[n], quickMode)
    requires Handled(local, remote, n, quickMode, disk, before, files0, directories0)
    ensures ok <==> Passes(local, remote[n], quickMode, disk)
    ensures Handled(local, remote, if ok then n + 1 else n, quickMode, disk, after, files, directories)
  {
    var e := remote[n];
    ok, after, files, directories := true, before, files0, directories0;
    SameStops(local, remote, n, quickMode, disk, before);
    if !skipped {
      ok, after := Place(e, before);
    }
    if ok {
      if !skipped {
        match e.kind
        case Link =>
        case Directory => directories := directories + [e];
        case File => files := files + [e];
      }
      HandledNext(local, remote, n, quickMode, disk, before, files0, directories0, after, files, directories);
    }
  }

  lemma HandledNext(local: seq<Entry>, remote: seq<Entry>, n: nat, quickMode: bool, disk: FileSystem,
                    before: FileSystem, files0: seq<Entry>, directories0: seq<Entry>, after: FileSystem,
                    files: seq<Entry>, directories: seq<Entry>)
    requires n < |remote| && Tidy(remote)
    requires Handled(local, remote, n, quickMode, disk, before, files0, directories0)
    requires InodeAt(before, Name(remote[n].path)) == InodeAt(disk, Name(remote[n].path))
    requires Passes(local, remote[n], quickMode, disk) && PlacedAt(local, remote[n], quickMode, before, after)
    requires Rooted(after) && FilesGrown([remote[n]], 1, before, after)
    requires forall p :: p != Name(remote[n].path) ==> InodeAt(after, p) == InodeAt(before, p)
    requires files == files0 +
      if remote[n].IsFile() && !LooksUnchanged(local, remote[n], quickMode) then [remote[n]] else []
    requires directories == directories0 +
      if remote[n].kind.Directory? && !LooksUnchanged(local, remote[n], quickMode) then [remote[n]] else []
    ensures Handled(local, remote, n + 1, quickMode, disk, after, files, directories)
  {
    PassesNext(local, remote, n, quickMode, disk);
    PlacedNext(local, remote, n, quickMode, disk, before, after);
  }

  /** Make the directory or link, unless there is something in its place that cannot give way. */
  method Place(e: Entry, disk: FileSystem) returns (ok: bool, after: FileSystem)
    requires Rooted(disk)
    ensures ok <==> !Stops(disk, e.path, e.kind)
    ensures Rooted(after) && if ok then PlacedOne(e, disk, after) else after == disk
    ensures forall p :: p != Name(e.path) ==> InodeAt(after, p) == InodeAt(disk, p)
    ensures FilesGrown([e], 1, disk, after)
  {
    ok, after := true, disk;
    var name := Name(e.path);
    match e.kind
    case File =>
    case Directory =>
      var stat := SeenAt(disk, name);
      if stat.Regular? {
        return false, disk;
      }
      if stat.Nothing? && name !in disk.names {
        var size: nat, time: int := *, *;
        after := Write(disk, name, Folder(size, time));
        WriteShows(disk, name, Folder(size, time));
        assert [e][0] == e;
      }
    case Link =>
      if name in disk.names && !disk.names[name].isLink && !Removable(disk, name) {
        return false, disk;
      }
      var file: FileId := *;
      after := disk.(names := disk.names[name := Inode(true, file)]);
  }

  /** What is seen at an entry not yet handled may only have become a directory where there was nothing. */
  lemma SameStops(local: seq<Entry>, remote: seq<Entry>, n: nat, quickMode: bool, disk: FileSystem, after: FileSystem)
    requires n < |remote| && Sorted(remote) && Tidy(remote) && Closed(remote) && Rooted(disk)
    requires Placed(local, remote, n, quickMode, disk, after)
    ensures InodeAt(after, Name(remote[n].path)) == InodeAt(disk, Name(remote[n].path))
    ensures Stops(after, remote[n].path, remote[n].kind) == Stops(disk, remote[n].path, remote[n].kind)
  {
    var e := remote[n];
    var name := Name(e.path);
    assert InodeAt(after, name) == InodeAt(disk, name);
    if e.kind.Link? {
      forall p | Below(e.path + [SLASH], p) ensures InodeAt(after, p) == InodeAt(disk, p) {
        forall i | 0 <= i < n ensures Name(remote[i].path) != p { NothingBelow(remote, n, i); }
      }
      assert forall p :: Below(e.path + [SLASH], p) ==> (p in after.names <==> p in disk.names);
      assert Holds(after, name) == Holds(disk, name);
      if name in disk.names && !disk.names[name].isLink { assert RootedAt(disk, name); }
    }
  }

  /** A snapshot has nothing below what is not a directory. */
  lemma NothingBelow(remote: seq<Entry>, n: nat, i: nat)
    requires n < |remote| && i < |remote| && Tidy(remote) && Closed(remote) && !remote[n].kind.Directory?
    ensures !Below(remote[n].path + [SLASH], Name(remote[i].path))
  {
    var d := remote[n].path + [SLASH];
    if Below(d, Name(remote[i].path)) {
      assert Below(d, remote[i].path);
      assert remote[i] in remote && IsDirectory(d);
      OneName(remote, Find(remote, d).value, remote[n]);
    }
  }

  lemma OneName(listing: seq<Entry>, e: Entry, f: Entry)
    requires Tidy(listing) && e in listing && f in listing
    ensures Name(e.path) == Name(f.path) ==> e == f
  {
  }

  lemma PlacedNext(local: seq<Entry>, remote: seq<Entry>, n: nat, quickMode: bool, disk: FileSystem, before: FileSystem,
                   after: FileSystem)
    requires n < |remote| && Tidy(remote) && Placed(local, remote, n, quickMode, disk, before)
    requires InodeAt(before, Name(remote[n].path)) == InodeAt(disk, Name(remote[n].path))
    requires Rooted(after) && PlacedAt(local, remote[n], quickMode, before, after)
    requires forall p :: p != Name(remote[n].path) ==> InodeAt(after, p) == InodeAt(before, p)
    requires FilesGrown([remote[n]], 1, before, after)
    ensures Placed(local, remote, n + 1, quickMode, disk, after)
  {
    forall i | 0 <= i < n ensures PlacedAt(local, remote[i], quickMode, disk, after) {
      StaysPlaced(local, remote, i, n, quickMode, disk, before, after);
    }
    forall f | f in after.files && f !in disk.files ensures after.files[f].Folder? && MadeFor(remote, n + 1, disk, f) {
      if f !in before.files {
        assert MadeFor([remote[n]], 1, before, f);
        assert f == Own(Name(remote[n].path)) && InodeAt(disk, f.name) == InodeAt(before, f.name);
      } else {
        var i :| 0 <= i < n && remote[i].kind.Directory? && f == Own(Name(remote[i].path)) && f.name !in disk.names;
      }
    }
  }

  /** What has been made stays. */
  lemma StaysPlaced(local: seq<Entry>, remote: seq<Entry>, i: nat, n: nat, quickMode: bool, disk: FileSystem,
                    before: FileSystem, after: FileSystem)
    requires i < n < |remote| && Tidy(remote) && PlacedAt(local, remote[i], quickMode, disk, before)
    requires forall p :: p != Name(remote[n].path) ==> InodeAt(after, p) == InodeAt(before, p)
    requires FilesGrown([remote[n]], 1, before, after)
    ensures PlacedAt(local, remote[i], quickMode, disk, after)
  {
    var p := Name(remote[i].path);
    assert InodeAt(after, p) == InodeAt(before, p);
    assert LeadsTo(after, p) == LeadsTo(before, p);
  }

  /** Find the counterpart of one entry of the snapshot; the entry is skipped if it looks unchanged. */
  method JoinRemote(cursor: Cursor, remote: seq<Entry>, m: nat, extraFiles: seq<Path>, quickMode: bool)
    returns (skipped: bool, more: seq<Path>)
    requires Sorted(cursor.listing) && Sorted(remote) && Joining(cursor, remote, m, extraFiles) && m < |remote|
    modifies cursor
    ensures Joining(cursor, remote, m + 1, more) && skipped == LooksUnchanged(cursor.listing, remote[m], quickMode)
  {
    var compareResult;
    compareResult, more := NextRemote(cursor, remote, m, extraFiles);
    if compareResult == 0 {
      skipped := TakeCounterpart(cursor, remote, m, more, quickMode);
    } else {
      RemotePassed(cursor.listing, cursor.Passed(), remote, m, false);
      skipped := false;
    }
  }

  method TakeCounterpart(cursor: Cursor, remote: seq<Entry>, m: nat, ghost extraFiles: seq<Path>, quickMode: bool)
    returns (skipped: bool)
    requires Sorted(cursor.listing) && Sorted(remote) && Joining(cursor, remote, m, extraFiles)
    requires m < |remote| && cursor.entry.Some? && cursor.entry.value.path == remote[m].path
    modifies cursor`entry
    ensures Joining(cursor, remote, m + 1, extraFiles)
    ensures skipped == LooksUnchanged(cursor.listing, remote[m], quickMode)
  {
    assert cursor.entry.value == cursor.listing[cursor.Passed()];
    RemotePassed(cursor.listing, cursor.Passed(), remote, m, true);
    skipped := quickMode && cursor.entry.value.IsFile() && IsSameAs(cursor.entry.value, remote[m]);
    cursor.entry := None;
  }

  /** Once the snapshot has been read to the end, the next local entry is extra. */
  method ReceiveExtra(cursor: Cursor, remote: seq<Entry>, extraFiles: seq<Path>) returns (more: seq<Path>)
    requires Sorted(cursor.listing) && Sorted(remote) && Joining(cursor, remote, |remote|, extraFiles)
    requires cursor.entry.None? && cursor.listingOK
    modifies cursor
    ensures Joining(cursor, remote, |remote|, more) && cursor.entry.None?
    ensures cursor.listingOK ==> cursor.next == old(cursor.next) + 1
    ensures !cursor.listingOK ==> cursor.Passed() == |cursor.listing|
  {
    more := extraFiles;
    cursor.Receive();
    if cursor.entry.Some? {
      more := TakeExtra(cursor, remote, |remote|, more);
    }
  }

  /** When the snapshot has been read to the end, all other local entries are extra. */
  method RestIsExtra(cursor: Cursor, remote: seq<Entry>, extraFiles: seq<Path>) returns (more: seq<Path>)
    requires Sorted(cursor.listing) && Sorted(remote) && Joining(cursor, remote, |remote|, extraFiles)
    modifies cursor
    ensures more == Extra(cursor.listing, |cursor.listing|, remote)
  {
    more := extraFiles;
    if cursor.entry.Some? {
      more := TakeExtra(cursor, remote, |remote|, more);
    }
    while cursor.listingOK
      invariant Joining(cursor, remote, |remote|, more) && cursor.entry.None?
      invariant !cursor.listingOK ==> cursor.Passed() == |cursor.listing|
      decreases |cursor.listing| - cursor.next, cursor.listingOK
    {
      more := ReceiveExtra(cursor, remote, more);
    }
  }

  // ------------------------------------------------------------------ deleting what is extra

  /** A directory comes before everything in it. */
  lemma DirectoryFirst(directory: Path, path: Path)
    requires Clean(directory) && Clean(path) && IsDirectory(directory) && Below(directory, path)
    ensures Compare(directory, path) < 0
  {
    var name, rest := directory[..|directory| - 1], path[|directory|..];
    assert directory == name + [SLASH] && path == name + ([SLASH] + rest);
    assert Clean(name) && Clean([SLASH] + rest);
    SamePrefix(name, [SLASH], [SLASH] + rest);
    KeyHead(rest);
    assert ([SLASH] + rest)[1..] == rest && rest != [];
  }

  ghost predicate AllClean(paths: seq<Path>) { forall i :: 0 <= i < |paths| ==> Clean(paths[i]) }

  ghost function NamesOf(paths: seq<Path>): set<Path> { NamesFrom(paths, 0) }

  ghost function NamesFrom(paths: seq<Path>, n: nat): set<Path>
    requires n <= |paths|
    decreases |paths| - n
  {
    if n == |paths| then {} else {Name(paths[n])} + NamesFrom(paths, n + 1)
  }

  lemma {:induction false} InNamesFrom(paths: seq<Path>, n: nat, name: Path)
    requires n <= |paths|
    ensures name in NamesFrom(paths, n) <==> exists k :: n <= k < |paths| && Name(paths[k]) == name
    decreases |paths| - n
  {
    if n < |paths| { InNamesFrom(paths, n + 1, name); }
  }

  ghost function EntryNames(listing: seq<Entry>): set<Path> { set e | e in listing :: Name(e.path) }

  /** What lies in an extra directory is extra. */
  ghost predicate ExtraInside(extraFiles: seq<Path>, disk: FileSystem) {
    forall d, p :: d in extraFiles && p in disk.names && !Removable(disk, Name(d)) && Below(Name(d) + [SLASH], p) ==>
      IsDirectory(d) && exists x :: x in extraFiles && Name(x) == p && Below(d, x)
  }

  /** Only these names may have gone, and with them the files that go by them. */
  ghost predicate Trimmed(disk: FileSystem, left: FileSystem, gone: set<Path>) {
    (forall p :: p in left.names ==> p in disk.names && left.names[p] == disk.names[p]) &&
    (forall p :: p in disk.names && p !in gone ==> p in left.names) &&
    (forall f :: f in left.files ==> f in disk.files && left.files[f] == disk.files[f]) &&
    (forall f :: f in disk.files && !(f.Own? && f.name in gone) ==> f in left.files) &&
    (forall n :: Own(n) in left.files ==> n in left.names)
  }

  /** What has gone was no directory with something left in it; what has not gone is a directory. */
  ghost predicate OnlyEmptied(disk: FileSystem, left: FileSystem, tried: set<Path>) {
    Rooted(left) &&
    (forall n :: n in disk.names && n !in left.names ==>
      disk.names[n].isLink || !SeenAt(disk, n).Folder? || forall p :: p in left.names ==> !(n + [SLASH] < p)) &&
    (forall n :: n in tried && n in left.names ==> !left.names[n].isLink && SeenAt(left, n).Folder?)
  }

  /**
   Delete the extra files, last to first. A directory is left alone if something is still in it. If all that lies in an
   extra directory is extra too, every directory is empty when its turn comes, and everything extra is gone in the end.
   */
  method DeleteExtra(extraFiles: seq<Path>, disk: FileSystem) returns (left: FileSystem)
    requires AllClean(extraFiles) && Increasing(extraFiles) && Rooted(disk)
    ensures Trimmed(disk, left, NamesOf(extraFiles)) && OnlyEmptied(disk, left, NamesOf(extraFiles))
    ensures ExtraInside(extraFiles, disk) ==> left.names == disk.names - NamesOf(extraFiles)
  {
    ghost var inside := ExtraInside(extraFiles, disk);
    var n: nat := |extraFiles|;
    left := disk;
    while n > 0
      invariant n <= |extraFiles| && Trimmed(disk, left, NamesFrom(extraFiles, n))
      invariant OnlyEmptied(disk, left, NamesFrom(extraFiles, n))
      invariant inside ==> left.names == disk.names - NamesFrom(extraFiles, n)
    {
      n := n - 1;
      if inside { EmptyByThen(extraFiles, disk, left, n); }
      RemovedNext(disk, left, NamesFrom(extraFiles, n + 1), Name(extraFiles[n]));
      EmptiedNext(disk, left, NamesFrom(extraFiles, n + 1), Name(extraFiles[n]));
      left := Remove(left, Name(extraFiles[n]));
    }
  }

  lemma RemovedNext(disk: FileSystem, left: FileSystem, gone: set<Path>, name: Path)
    requires Trimmed(disk, left, gone)
    ensures Trimmed(disk, Remove(left, name), {name} + gone)
    ensures left.names == disk.names - gone && Removable(left, name) ==>
      Remove(left, name).names == disk.names - ({name} + gone)
  {
    assert disk.names - gone - {name} == disk.names - ({name} + gone);
  }

  lemma EmptiedNext(disk: FileSystem, left: FileSystem, gone: set<Path>, name: Path)
    requires Rooted(disk) && Trimmed(disk, left, gone) && OnlyEmptied(disk, left, gone)
    ensures OnlyEmptied(disk, Remove(left, name), {name} + gone)
  {
    var after := Remove(left, name);
    forall n | n in after.names && !after.names[n].isLink ensures SeenAt(after, n) == SeenAt(left, n) {
      assert RootedAt(left, n);
    }
    forall n | n in left.names && !left.names[n].isLink ensures SeenAt(left, n) == SeenAt(disk, n) {
      assert RootedAt(left, n);
    }
    assert Rooted(after) by {
      forall n | n in after.names && !after.names[n].isLink ensures RootedAt(after, n) { assert RootedAt(left, n); }
    }
  }

  lemma ComesLater(extraFiles: seq<Path>, n: nat, x: Path)
    requires AllClean(extraFiles) && Increasing(extraFiles) && n < |extraFiles|
    requires x in extraFiles && IsDirectory(extraFiles[n]) && Below(extraFiles[n], x)
    ensures Name(x) in NamesFrom(extraFiles, n + 1)
  {
    var k :| 0 <= k < |extraFiles| && extraFiles[k] == x;
    DirectoryFirst(extraFiles[n], x);
    TotalOrder(extraFiles[n], x, extraFiles[n]);
    InNamesFrom(extraFiles, n + 1, Name(x));
  }

  lemma EmptyByThen(extraFiles: seq<Path>, disk: FileSystem, left: FileSystem, n: nat)
    requires AllClean(extraFiles) && Increasing(extraFiles) && ExtraInside(extraFiles, disk) && n < |extraFiles|
    requires left.names == disk.names - NamesFrom(extraFiles, n + 1)
    requires forall f :: f in left.files ==> f in disk.files && left.files[f] == disk.files[f]
    ensures Removable(left, Name(extraFiles[n]))
  {
    var d := extraFiles[n];
    if !Removable(disk, Name(d)) {
      forall p | p in disk.names && Below(Name(d) + [SLASH], p) ensures p in NamesFrom(extraFiles, n + 1) {
        var x :| x in extraFiles && Name(x) == p && Below(d, x);
        ComesLater(extraFiles, n, x);
      }
      assert !Holds(left, Name(d));
    } else if Holds(left, Name(d)) {
      assert Holds(disk, Name(d));
    }
  }

  lemma Snoc(paths: seq<Path>, path: Path)
    requires Increasing(paths) && forall p :: p in paths ==> Compare(p, path) < 0
    ensures Increasing(paths + [path])
  {
  }

  lemma {:induction false} ExtraIncreases(local: seq<Entry>, n: nat, remote: seq<Entry>)
    requires Sorted(local) && n <= |local|
    ensures AllClean(Extra(local, n, remote)) && Increasing(Extra(local, n, remote))
  {
    if n > 0 {
      ExtraIncreases(local, n - 1, remote);
      if Find(remote, local[n - 1].path).None? {
        var earlier, path := Extra(local, n - 1, remote), local[n - 1].path;
        forall p | p in earlier ensures Compare(p, path) < 0 { InExtra(local, n - 1, remote, p); }
        Snoc(earlier, path);
      }
    }
  }

  ghost function ExtraNames(local: seq<Entry>, remote: seq<Entry>): set<Path> {
    set l | l in local && Find(remote, l.path).None? :: Name(l.path)
  }

  /** The extra files are those of the local listing that the snapshot lacks. */
  lemma ExtraIsExtra(local: seq<Entry>, remote: seq<Entry>)
    ensures forall p :: p in Extra(local, |local|, remote) <==>
      Find(remote, p).None? && exists l :: l in local && l.path == p
    ensures NamesOf(Extra(local, |local|, remote)) == ExtraNames(local, remote)
  {
    var extra := Extra(local, |local|, remote);
    forall p ensures p in extra <==> Find(remote, p).None? && exists l :: l in local && l.path == p {
      InExtra(local, |local|, remote, p);
    }
    forall n ensures n in NamesOf(extra) <==> n in ExtraNames(local, remote) {
      InNamesFrom(extra, 0, n);
      if n in ExtraNames(local, remote) {
        var l :| l in local && Find(remote, l.path).None? && Name(l.path) == n;
        var k :| 0 <= k < |extra| && extra[k] == l.path;
      }
      if n in NamesOf(extra) {
        var k :| 0 <= k < |extra| && Name(extra[k]) == n;
        assert extra[k] in extra;
      }
    }
  }

  /** The listing shows what is on the disk. */
  ghost predicate Mirrors(disk: FileSystem, local: seq<Entry>) {
    disk.names.Keys == EntryNames(local) && forall l :: l in local ==> MirrorsOne(disk, Name(l.path), l.kind)
  }

  ghost predicate MirrorsOne(disk: FileSystem, n: Path, kind: Kind) {
    n in disk.names &&
    match kind
    case File => !disk.names[n].isLink && SeenAt(disk, n).Regular?
    case Directory => !disk.names[n].isLink && SeenAt(disk, n).Folder?
    case Link => disk.names[n].isLink
  }

  /** Nothing has the name, but not the path, of an entry of the snapshot. */
  ghost predicate NoClash(local: seq<Entry>, remote: seq<Entry>) {
    forall l, e :: l in local && e in remote && Name(l.path) == Name(e.path) ==> l.path == e.path
  }

  /** The disk between the downloads and the deletion; strays are files written through links that led nowhere. */
  ghost predicate Rebuilt(local: seq<Entry>, remote: seq<Entry>, disk: FileSystem, restored: FileSystem,
                          strays: set<Path>)
  {
    restored.names.Keys == EntryNames(local) + EntryNames(remote) + strays && strays !! EntryNames(local) &&
    (forall p :: p in disk.names ==> RebuiltAt(disk, restored, p))
  }

  /** Neither has a link become something else, nor a file a directory. */
  ghost predicate RebuiltAt(disk: FileSystem, restored: FileSystem, p: Path)
    requires p in disk.names
  {
    p in restored.names && (restored.names[p].isLink || restored.names[p] == disk.names[p]) &&
    (SeenAt(disk, p).Regular? ==> restored.names[p].isLink || !SeenAt(restored, p).Folder?)
  }

  /** Below an extra directory the snapshot has nothing, so what lies there is local, and extra. */
  lemma ExtraBelow(local: seq<Entry>, remote: seq<Entry>, d: Path, p: Path)
    requires Closed(remote) && IsDirectory(d) && Find(remote, d).None? && Below(d, p)
    requires p in EntryNames(local) + EntryNames(remote)
    ensures exists l :: l in local && Find(remote, l.path).None? && Name(l.path) == p && Below(d, l.path)
  {
    forall f | f in remote ensures !Below(d, f.path) && Name(f.path) != p {
      assert Below(d, f.path) ==> Find(remote, d).Some?;
    }
    var l :| l in local && Name(l.path) == p;
    assert Below(d, l.path);
  }

  lemma ExtraLiesInside(local: seq<Entry>, remote: seq<Entry>, disk: FileSystem, restored: FileSystem,
                        strays: set<Path>, d: Path, p: Path)
    requires Tidy(local) && Closed(remote) && Mirrors(disk, local)
    requires Rebuilt(local, remote, disk, restored, strays) && strays <= EntryNames(remote)
    requires d in Extra(local, |local|, remote) && p in restored.names && !Removable(restored, Name(d))
    requires Below(Name(d) + [SLASH], p)
    ensures IsDirectory(d) && exists x :: x in Extra(local, |local|, remote) && Name(x) == p && Below(d, x)
  {
    ExtraIsExtra(local, remote);
    var l :| l in local && l.path == d;
    ExtraFolder(local, remote, disk, restored, strays, l);
    NameAndSlash(d);
    ExtraBelow(local, remote, d, p);
    var x :| x in local && Find(remote, x.path).None? && Name(x.path) == p && Below(d, x.path);
    assert x.path in Extra(local, |local|, remote);
  }

  /** What cannot be removed is a directory of the local listing. */
  lemma ExtraFolder(local: seq<Entry>, remote: seq<Entry>, disk: FileSystem, restored: FileSystem, strays: set<Path>,
                    l: Entry)
    requires Tidy(local) && Mirrors(disk, local) && Rebuilt(local, remote, disk, restored, strays)
    requires l in local && !Removable(restored, Name(l.path))
    ensures IsDirectory(l.path)
  {
    assert MirrorsOne(disk, Name(l.path), l.kind) && RebuiltAt(disk, restored, Name(l.path));
    var k :| 0 <= k < |local| && local[k] == l;
  }

  /**
   After the deletion exactly the names of the snapshot are left, if and only if nothing clashes with it and nothing
   else has been written through a link.
   */
  lemma LeftAfterDeletion(local: seq<Entry>, remote: seq<Entry>, disk: FileSystem, restored: FileSystem,
                          strays: set<Path>, left: FileSystem)
    requires Tidy(local) && Tidy(remote) && Closed(remote) && Mirrors(disk, local)
    requires Rebuilt(local, remote, disk, restored, strays)
    requires Trimmed(restored, left, ExtraNames(local, remote))
    requires ExtraInside(Extra(local, |local|, remote), restored) ==>
      left.names == restored.names - ExtraNames(local, remote)
    ensures left.names.Keys == EntryNames(remote) <==> NoClash(local, remote) && strays <= EntryNames(remote)
  {
    ClashesGo(local, remote);
    if strays <= EntryNames(remote) {
      var extra := Extra(local, |local|, remote);
      forall d, p | d in extra && p in restored.names && !Removable(restored, Name(d)) && Below(Name(d) + [SLASH], p)
        ensures IsDirectory(d) && exists x :: x in extra && Name(x) == p && Below(d, x)
      {
        ExtraLiesInside(local, remote, disk, restored, strays, d, p);
      }
      NamesLeft(local, remote, restored, strays, left);
    } else {
      var b :| b in strays && b !in EntryNames(remote);
      assert b in restored.names && b !in ExtraNames(local, remote);
    }
  }

  lemma NamesLeft(local: seq<Entry>, remote: seq<Entry>, restored: FileSystem, strays: set<Path>, left: FileSystem)
    requires restored.names.Keys == EntryNames(local) + EntryNames(remote) + strays && strays <= EntryNames(remote)
    requires left.names == restored.names - ExtraNames(local, remote)
    ensures left.names.Keys == EntryNames(remote) - ExtraNames(local, remote)
  {
    forall l | l in local && Name(l.path) !in ExtraNames(local, remote) ensures Name(l.path) in EntryNames(remote) {
      assert Find(remote, l.path).value in remote;
    }
  }

  lemma ClashesGo(local: seq<Entry>, remote: seq<Entry>)
    requires Tidy(local) && Tidy(remote)
    ensures NoClash(local, remote) <==> EntryNames(remote) !! ExtraNames(local, remote)
    ensures NoClash(local, remote) <==> EntryNames(remote) == EntryNames(remote) - ExtraNames(local, remote)
  {
    if n :| n in EntryNames(remote) && n in ExtraNames(local, remote) {
      var l :| l in local && Find(remote, l.path).None? && Name(l.path) == n;
      var e :| e in remote && Name(e.path) == n;
      assert l.path != e.path;
    }
    forall l, e | l in local && e in remote && Name(l.path) == Name(e.path) && l.path != e.path
      ensures Name(e.path) in EntryNames(remote) && Name(e.path) in ExtraNames(local, remote)
    {
      forall f | f in remote ensures f.path != l.path { OneName(remote, e, f); }
    }
  }

  // ------------------------------------------------------------------ the times of the directories

  /** Only the times of directories have changed. */
  ghost predicate Retimed(disk: FileSystem, after: FileSystem) {
    after.names == disk.names && after.files.Keys == disk.files.Keys &&
    forall f :: f in disk.files ==> SameButTime(disk.files[f], after.files[f])
  }

  predicate SameButTime(a: Seen, b: Seen) { a == b || (a.Folder? && b.Folder? && a.size == b.size) }

  /** The two names lead to different places. */
  predicate Elsewhere(disk: FileSystem, d: Entry, e: Entry) {
    LeadsTo(disk, Name(d.path)) != LeadsTo(disk, Name(e.path))
  }

  /** The directory has the time of its entry, unless one of the next ones has taken its place. */
  ghost predicate TimeSet(directories: seq<Entry>, i: nat, n: nat, disk: FileSystem, after: FileSystem)
    requires i < |directories| && n <= |directories|
  {
    SeenAt(disk, Name(directories[i].path)).Folder? &&
    (forall k :: i < k < n ==> Elsewhere(disk, directories[i], directories[k])) ==>
      SeenAt(after, Name(directories[i].path)).Folder? &&
      SeenAt(after, Name(directories[i].path)).time == directories[i].time
  }

  /** Give the directories of the snapshot their times, as far as they are there. */
  method SetTimes(directories: seq<Entry>, disk: FileSystem) returns (after: FileSystem)
    ensures Retimed(disk, after)
    ensures forall i :: 0 <= i < |directories| ==> TimeSet(directories, i, |directories|, disk, after)
    ensures forall f :: (forall i :: 0 <= i < |directories| ==> LeadsTo(disk, Name(directories[i].path)) != f) ==>
      SeenIn(after, f) == SeenIn(disk, f)
  {
    after := disk;
    for n := 0 to |directories|
      invariant Retimed(disk, after)
      invariant forall i :: 0 <= i < n ==> TimeSet(directories, i, n, disk, after)
      invariant forall f :: (forall i :: 0 <= i < n ==> LeadsTo(disk, Name(directories[i].path)) != f) ==>
        SeenIn(after, f) == SeenIn(disk, f)
    {
      ghost var before := after;
      var name := Name(directories[n].path);
      var stat := SeenAt(after, name);
      if stat.Folder? {
        after := after.(files := after.files[LeadsTo(after, name) := Folder(stat.size, directories[n].time)]);
      }
      ghost var next := n + 1;
      forall i | 0 <= i < next ensures TimeSet(directories, i, next, disk, after) {
        if i < n {
          assert TimeSet(directories, i, n, disk, before);
          assert Elsewhere(disk, directories[i], directories[n]) ==>
            SeenAt(after, Name(directories[i].path)) == SeenAt(before, Name(directories[i].path));
        }
      }
    }
  }
}
