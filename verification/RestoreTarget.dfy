/**
 A whole restore in place: when it succeeds, and when it stops on the way, what has become of every file,
 directory and link of the snapshot, and what is left when extra files are deleted.
 */
module RestoreTargets {
  import opened Common
  import opened Buzhash
  import opened Chunking
  import opened ChunkMakers
  import opened ChunkLists
  import opened PathOrder
  import opened EntryLists
  import opened BackupMerge
  import opened SnapshotCodec
  import opened EndToEnd
  import opened ChunkDownloaders
  import opened RestoreFiles
  import opened FileSystems
  import opened RestoreMerge
  import opened Restores

  // ------------------------------------------------------------------ the restore

  /** No two files or directories of the snapshot lead to the same place. */
  ghost predicate Separate(disk: FileSystem, entries: seq<Entry>) { Distinguishes(disk, PlainNames(entries)) }

  ghost function PlainNames(entries: seq<Entry>): set<Path> { set e | e in entries && !e.kind.Link? :: Name(e.path) }

  /** No file of the snapshot leads to a directory of it. */
  ghost predicate OffDirectories(disk: FileSystem, entries: seq<Entry>) {
    forall e, d :: e in entries && d in entries && e.IsFile() && d.kind.Directory? ==>
      LeadsTo(disk, e.path) != LeadsTo(disk, Name(d.path))
  }

  /** Neither the name nor the file it leads to is among those that have gone. */
  ghost predicate Spared(disk: FileSystem, name: Path, gone: set<Path>) {
    name !in gone && Lasts(LeadsTo(disk, name), gone)
  }

  /** What has become of an entry of the snapshot. */
  ghost predicate EntryDone(e: Entry, local: seq<Entry>, chunks: seq<Bytes>, options: Options, unreadable: set<Path>,
                            before: FileSystem, after: FileSystem, failures: nat, mayStop: bool, timed: bool)
  {
    var n := Name(e.path);
    if LooksUnchanged(local, e, options.quickMode) then
      (n in before.names ==> InodeAt(after, n) == InodeAt(before, n)) &&
      (e.IsFile() ==> SeenAt(after, n) == SeenAt(before, n))
    else if e.IsFile() then FileDone(e, chunks, options, unreadable, before, after, failures > 0, mayStop)
    else
      PlacedOne(e, before, after) &&
      (timed && e.kind.Directory? && SeenAt(after, n).Folder? ==> SeenAt(after, n).time == e.time)
  }

  /** Every entry is done, or, if the restore stopped, untouched, unless it is gone. */
  ghost predicate EntriesDone(local: seq<Entry>, entries: seq<Entry>, chunks: seq<Bytes>, options: Options,
                              unreadable: set<Path>, before: FileSystem, after: FileSystem, ok: bool, failures: nat,
                              gone: set<Path>)
  {
    forall e :: e in entries && Spared(before, Name(e.path), gone) ==>
      EntryDone(e, local, chunks, options, unreadable, before, after, failures, !ok, ok) ||
      (!ok && Untouched(e, before, after))
  }

  /** An entry that the restore has not come to; what a link leads to may have been made, though. */
  ghost predicate Untouched(e: Entry, before: FileSystem, after: FileSystem) {
    InodeAt(after, Name(e.path)) == InodeAt(before, Name(e.path)) &&
    (!e.kind.Link? ==> Like(SeenAt(before, Name(e.path)), SeenAt(after, Name(e.path))))
  }

  /** What no file or directory of the snapshot leads to is the same, but for what is gone and for the links. */
  ghost predicate OthersSame(entries: seq<Entry>, before: FileSystem, after: FileSystem, gone: set<Path>) {
    forall p :: p !in EntryNames(entries) && Spared(before, p, gone) && !Meets(before, PlainNames(entries), p) ==>
      SameAt(before, after, p)
  }

  /** One of these names leads where the other one does. */
  ghost predicate Meets(disk: FileSystem, names: set<Path>, p: Path) {
    exists q :: q in names && LeadsTo(disk, q) == LeadsTo(disk, p)
  }

  /** A name that is there is there afterwards, and is not another one, unless the snapshot has a link of this name. */
  ghost predicate NamesStay(entries: seq<Entry>, before: FileSystem, after: FileSystem, gone: set<Path>) {
    forall p :: p in before.names && p !in gone && (forall e :: e in entries && e.kind.Link? ==> Name(e.path) != p) ==>
      InodeAt(after, p) == InodeAt(before, p)
  }

  /** The files of the snapshot that do not look unchanged. */
  function Chosen(local: seq<Entry>, entries: seq<Entry>, options: Options): seq<Entry> {
    Selected(local, entries, |entries|, options.quickMode, File)
  }

  /** What appears in the target when files are written, under a name of its own. */
  ghost function Strays(disk: FileSystem, files: seq<Entry>): set<Path> {
    set e | e in files && LeadsTo(disk, e.path).Own? && LeadsTo(disk, e.path).name !in disk.names ::
      LeadsTo(disk, e.path).name
  }

  /** What can be seen beforehand does not stop the restore. */
  ghost predicate Restorable(local: seq<Entry>, entries: seq<Entry>, hashes: seq<ChunkHash>, chunks: seq<Bytes>,
                             options: Options, unreadable: set<Path>, disk: FileSystem)
  {
    AllPass(local, entries, |entries|, options.quickMode, disk) &&
    (hashes != [] || Chosen(local, entries, options) == []) &&
    !AnyBlocks(Chosen(local, entries, options), chunks, options, unreadable, disk)
  }

  ghost function Gone(local: seq<Entry>, entries: seq<Entry>, ok: bool, deleteMode: bool): set<Path> {
    if ok && deleteMode then ExtraNames(local, entries) else {}
  }

  /** The names in the target after the restore. */
  ghost predicate NamesLeftAre(local: seq<Entry>, entries: seq<Entry>, options: Options, deleteMode: bool,
                               disk: FileSystem, after: FileSystem)
  {
    var strays := Strays(disk, Chosen(local, entries, options));
    if deleteMode then
      after.names.Keys == EntryNames(entries) <==> NoClash(local, entries) && strays <= EntryNames(entries)
    else after.names.Keys == EntryNames(local) + EntryNames(entries) + strays
  }

  // ------------------------------------------------------------------ after the merge

  /** The snapshot has no link of this name. */
  ghost predicate NoLink(entries: seq<Entry>, p: Path) {
    forall e :: e in entries && e.kind.Link? ==> Name(e.path) != p
  }

  /** A name leads where it did, unless the snapshot has a link of this name. */
  lemma PlacedLeads(local: seq<Entry>, entries: seq<Entry>, n: nat, quickMode: bool, disk: FileSystem,
                    placed: FileSystem, p: Path)
    requires n <= |entries| && Placed(local, entries, n, quickMode, disk, placed) && NoLink(entries, p)
    ensures LeadsTo(placed, p) == LeadsTo(disk, p)
    ensures p in disk.names ==> InodeAt(placed, p) == InodeAt(disk, p)
  {
    if i :| 0 <= i < n && Name(entries[i].path) == p {
      assert entries[i] in entries && PlacedAt(local, entries[i], quickMode, disk, placed);
    } else {
      assert InodeAt(placed, p) == InodeAt(disk, p);
    }
  }

  /** The name of a file or directory is not that of a link. */
  lemma PlainHasNoLink(entries: seq<Entry>, e: Entry)
    requires Tidy(entries) && e in entries && !e.kind.Link?
    ensures NoLink(entries, Name(e.path)) && Name(e.path) in PlainNames(entries)
  {
    forall f | f in entries && f.kind.Link? ensures Name(f.path) != Name(e.path) { OneName(entries, e, f); }
  }

  /** What is seen in a file is the same, but where a directory of the snapshot has been made. */
  lemma PlacedSees(local: seq<Entry>, entries: seq<Entry>, n: nat, quickMode: bool, disk: FileSystem,
                   placed: FileSystem, f: FileId)
    requires n <= |entries| && Placed(local, entries, n, quickMode, disk, placed)
    ensures SeenIn(placed, f) == SeenIn(disk, f) ||
      (SeenIn(disk, f).Nothing? && SeenIn(placed, f).Folder? &&
       exists d :: d in entries && d.kind.Directory? && LeadsTo(disk, Name(d.path)) == f)
  {
    if f in placed.files && f !in disk.files {
      assert MadeFor(entries, n, disk, f);
      var i :| 0 <= i < n && entries[i].kind.Directory? && f == Own(Name(entries[i].path)) && f.name !in disk.names;
      assert entries[i] in entries;
    }
  }

  /** A name that no file or directory of the snapshot meets, or one that meets no other, sees what it did. */
  lemma PlacedKeeps(local: seq<Entry>, entries: seq<Entry>, n: nat, quickMode: bool, disk: FileSystem,
                    placed: FileSystem, p: Path)
    requires n <= |entries| && Placed(local, entries, n, quickMode, disk, placed) && NoLink(entries, p)
    requires forall d :: d in entries && d.kind.Directory? ==> LeadsTo(disk, Name(d.path)) != LeadsTo(disk, p)
    ensures SeenAt(placed, p) == SeenAt(disk, p)
  {
    PlacedLeads(local, entries, n, quickMode, disk, placed, p);
    PlacedSees(local, entries, n, quickMode, disk, placed, LeadsTo(disk, p));
  }

  lemma SeparateFrom(disk: FileSystem, entries: seq<Entry>, e: Entry, d: Entry)
    requires Tidy(entries) && Separate(disk, entries) && e in entries && d in entries && e != d
    requires !e.kind.Link? && !d.kind.Link?
    ensures LeadsTo(disk, Name(e.path)) != LeadsTo(disk, Name(d.path))
  {
    PlainHasNoLink(entries, e);
    PlainHasNoLink(entries, d);
    OneName(entries, e, d);
  }

  lemma FileKeeps(local: seq<Entry>, entries: seq<Entry>, n: nat, quickMode: bool, disk: FileSystem,
                  placed: FileSystem, e: Entry)
    requires n <= |entries| && Placed(local, entries, n, quickMode, disk, placed)
    requires Tidy(entries) && Separate(disk, entries) && e in entries && e.IsFile()
    ensures SeenAt(placed, Name(e.path)) == SeenAt(disk, Name(e.path))
  {
    PlainHasNoLink(entries, e);
    forall d | d in entries && d.kind.Directory? ensures LeadsTo(disk, Name(d.path)) != LeadsTo(disk, Name(e.path)) {
      SeparateFrom(disk, entries, d, e);
    }
    PlacedKeeps(local, entries, n, quickMode, disk, placed, Name(e.path));
  }

  lemma OthersPlaced(local: seq<Entry>, entries: seq<Entry>, n: nat, quickMode: bool, disk: FileSystem,
                     placed: FileSystem, p: Path)
    requires n <= |entries| && Placed(local, entries, n, quickMode, disk, placed)
    requires p !in EntryNames(entries) && !Meets(disk, PlainNames(entries), p)
    ensures InodeAt(placed, p) == InodeAt(disk, p) && SeenAt(placed, p) == SeenAt(disk, p)
  {
    forall e | e in entries ensures Name(e.path) != p { assert Name(e.path) in EntryNames(entries); }
    forall i | 0 <= i < n ensures Name(entries[i].path) != p { assert entries[i] in entries; }
    forall d | d in entries && d.kind.Directory? ensures LeadsTo(disk, Name(d.path)) != LeadsTo(disk, p) {
      assert Name(d.path) in PlainNames(entries);
    }
    PlacedKeeps(local, entries, n, quickMode, disk, placed, p);
  }

  /** The merge has stopped at an entry; those before it are done. */
  lemma MergeStopped(local: seq<Entry>, entries: seq<Entry>, chunks: seq<Bytes>, options: Options,
                     unreadable: set<Path>, disk: FileSystem, after: FileSystem, done: nat)
    requires Tidy(entries) && done < |entries| && Placed(local, entries, done, options.quickMode, disk, after)
    ensures Separate(disk, entries) ==>
      EntriesDone(local, entries, chunks, options, unreadable, disk, after, false, 0, {})
    ensures OthersSame(entries, disk, after, {}) && NamesStay(entries, disk, after, {})
  {
    if Separate(disk, entries) {
      forall e | e in entries
        ensures EntryDone(e, local, chunks, options, unreadable, disk, after, 0, true, false) ||
          Untouched(e, disk, after)
      {
        StoppedAt(local, entries, chunks, options, unreadable, disk, after, done, e);
      }
    }
    forall p | p !in EntryNames(entries) && !Meets(disk, PlainNames(entries), p) ensures SameAt(disk, after, p) {
      OthersPlaced(local, entries, done, options.quickMode, disk, after, p);
    }
    forall p | p in disk.names && NoLink(entries, p) ensures InodeAt(after, p) == InodeAt(disk, p) {
      PlacedLeads(local, entries, done, options.quickMode, disk, after, p);
    }
  }

  lemma StoppedAt(local: seq<Entry>, entries: seq<Entry>, chunks: seq<Bytes>, options: Options,
                  unreadable: set<Path>, disk: FileSystem, after: FileSystem, done: nat, e: Entry)
    requires Tidy(entries) && done < |entries| && Placed(local, entries, done, options.quickMode, disk, after)
    requires Separate(disk, entries) && e in entries
    ensures EntryDone(e, local, chunks, options, unreadable, disk, after, 0, true, false) || Untouched(e, disk, after)
  {
    var k :| 0 <= k < |entries| && entries[k] == e;
    if e.IsFile() { FileKeeps(local, entries, done, options.quickMode, disk, after, e); }
    if k >= done {
      forall i | 0 <= i < done ensures Name(entries[i].path) != Name(e.path) {}
      if e.kind.Directory? { NotYetMade(local, entries, done, options.quickMode, disk, after, k); }
    } else {
      assert PlacedAt(local, entries[k], options.quickMode, disk, after);
    }
  }

  lemma NotYetMade(local: seq<Entry>, entries: seq<Entry>, done: nat, quickMode: bool, disk: FileSystem,
                   after: FileSystem, k: nat)
    requires Tidy(entries) && done <= k < |entries| && Placed(local, entries, done, quickMode, disk, after)
    requires Separate(disk, entries) && entries[k].kind.Directory?
    ensures SeenAt(after, Name(entries[k].path)) == SeenAt(disk, Name(entries[k].path))
  {
    var p := Name(entries[k].path);
    forall i | 0 <= i < done ensures Name(entries[i].path) != p {}
    var f := LeadsTo(disk, p);
    assert InodeAt(after, p) == InodeAt(disk, p);
    if f in after.files && f !in disk.files {
      assert MadeFor(entries, done, disk, f);
      var i :| 0 <= i < done && entries[i].kind.Directory? && f == Own(Name(entries[i].path)) && f.name !in disk.names;
      assert entries[i] in entries && entries[k] in entries;
      SeparateFrom(disk, entries, entries[i], entries[k]);
    }
  }

  // ------------------------------------------------------------------ after the downloads

  lemma ChosenFiles(local: seq<Entry>, entries: seq<Entry>, options: Options, files: seq<Entry>)
    requires Sorted(entries) && files == Chosen(local, entries, options)
    ensures DistinctPaths(files)
    ensures forall e :: e in files <==> e in entries && e.IsFile() && !LooksUnchanged(local, e, options.quickMode)
  {
    SelectedDistinct(local, entries, |entries|, options.quickMode, File);
    forall e ensures e in files <==> e in entries && e.IsFile() && !LooksUnchanged(local, e, options.quickMode) {
      InSelected(local, entries, |entries|, options.quickMode, File, e);
      assert entries[..|entries|] == entries;
    }
  }

  /** A file has the path of an entry, which is its name. */
  lemma FileNames(entries: seq<Entry>, files: seq<Entry>, p: Path)
    requires Tidy(entries) && (forall e :: e in files ==> e in entries && e.IsFile()) && p in PathsIn(files)
    ensures Name(p) == p && p in PlainNames(entries) && NoLink(entries, p)
  {
    var e :| e in files && e.path == p;
    var k :| 0 <= k < |entries| && entries[k] == e;
    PlainHasNoLink(entries, e);
  }

  /** What the merge has made is not in the way of the files, if none of them leads to a directory. */
  lemma FilesUntouched(local: seq<Entry>, entries: seq<Entry>, chunks: seq<Bytes>, options: Options,
                       unreadable: set<Path>, disk: FileSystem, placed: FileSystem, files: seq<Entry>)
    requires Tidy(entries) && Placed(local, entries, |entries|, options.quickMode, disk, placed)
    requires forall e :: e in files ==> e in entries && e.IsFile()
    ensures forall p :: p in PathsIn(files) ==> LeadsTo(placed, p) == LeadsTo(disk, p)
    ensures AllApart(placed, files) == AllApart(disk, files)
    ensures OffDirectories(disk, entries) ==>
      AnyBlocks(files, chunks, options, unreadable, placed) == AnyBlocks(files, chunks, options, unreadable, disk) &&
      AllRefused(files, chunks, options, unreadable, placed) == AllRefused(files, chunks, options, unreadable, disk)
  {
    forall p | p in PathsIn(files) ensures LeadsTo(placed, p) == LeadsTo(disk, p) {
      FileNames(entries, files, p);
      PlacedLeads(local, entries, |entries|, options.quickMode, disk, placed, p);
    }
    if OffDirectories(disk, entries) {
      forall e | e in files ensures SeenAt(placed, e.path) == SeenAt(disk, e.path) {
        assert e.path in PathsIn(files);
        FileNames(entries, files, e.path);
        PlacedKeeps(local, entries, |entries|, options.quickMode, disk, placed, e.path);
      }
    }
  }

  /** The disk between the downloads and the deletion. */
  ghost predicate Downloaded(local: seq<Entry>, entries: seq<Entry>, chunks: seq<Bytes>, options: Options,
                             unreadable: set<Path>, disk: FileSystem, restored: FileSystem, ok: bool, failures: nat)
  {
    Rooted(restored) &&
    (Separate(disk, entries) ==> forall e :: e in entries ==>
      EntryDone(e, local, chunks, options, unreadable, disk, restored, failures, !ok, false) ||
      (!ok && Untouched(e, disk, restored))) &&
    OthersSame(entries, disk, restored, {}) && NamesStay(entries, disk, restored, {}) &&
    (forall p :: NoLink(entries, p) ==> LeadsTo(restored, p) == LeadsTo(disk, p))
  }

  lemma AfterDownloads(local: seq<Entry>, entries: seq<Entry>, chunks: seq<Bytes>, options: Options,
                       unreadable: set<Path>, disk: FileSystem, placed: FileSystem, restored: FileSystem,
                       files: seq<Entry>, ok: bool, failures: nat)
    requires Tidy(entries) && Placed(local, entries, |entries|, options.quickMode, disk, placed)
    requires forall e :: e in files <==> e in entries && e.IsFile() && !LooksUnchanged(local, e, options.quickMode)
    requires FilesDone(files, chunks, options, unreadable, placed, restored, ok, failures)
    ensures Downloaded(local, entries, chunks, options, unreadable, disk, restored, ok, failures)
  {
    forall p | NoLink(entries, p) ensures LeadsTo(restored, p) == LeadsTo(disk, p) {
      PlacedLeads(local, entries, |entries|, options.quickMode, disk, placed, p);
    }
    if Separate(disk, entries) {
      forall e | e in entries
        ensures EntryDone(e, local, chunks, options, unreadable, disk, restored, failures, !ok, false) ||
          (!ok && Untouched(e, disk, restored))
      {
        EntryAfterDownloads(
          local, entries, chunks, options, unreadable, disk, placed, restored, files, ok, failures, e);
      }
    }
    forall p | p !in EntryNames(entries) && !Meets(disk, PlainNames(entries), p) ensures SameAt(disk, restored, p) {
      OthersPlaced(local, entries, |entries|, options.quickMode, disk, placed, p);
      forall q | q in PathsIn(files) ensures LeadsTo(disk, q) != LeadsTo(disk, p) { FileNames(entries, files, q); }
      NotLedTo(local, entries, options, disk, placed, files, p);
    }
    forall p | p in disk.names && NoLink(entries, p) ensures InodeAt(restored, p) == InodeAt(disk, p) {
      PlacedLeads(local, entries, |entries|, options.quickMode, disk, placed, p);
    }
  }

  /** The downloads do not touch what no file or directory of the snapshot meets. */
  lemma NotLedTo(local: seq<Entry>, entries: seq<Entry>, options: Options, disk: FileSystem, placed: FileSystem,
                 files: seq<Entry>, p: Path)
    requires Tidy(entries) && Placed(local, entries, |entries|, options.quickMode, disk, placed)
    requires forall e :: e in files ==> e in entries && e.IsFile()
    requires forall q :: q in PathsIn(files) ==> LeadsTo(disk, q) != LeadsTo(disk, p)
    ensures !LedTo(files, placed, LeadsTo(disk, p))
  {
    forall q | q in PathsIn(files) ensures LeadsTo(placed, q) == LeadsTo(disk, q) {
      FileNames(entries, files, q);
      PlacedLeads(local, entries, |entries|, options.quickMode, disk, placed, q);
    }
  }

  lemma EntryAfterDownloads(local: seq<Entry>, entries: seq<Entry>, chunks: seq<Bytes>, options: Options,
                            unreadable: set<Path>, disk: FileSystem, placed: FileSystem, restored: FileSystem,
                            files: seq<Entry>, ok: bool, failures: nat, e: Entry)
    requires Tidy(entries) && Placed(local, entries, |entries|, options.quickMode, disk, placed)
    requires forall f :: f in files <==> f in entries && f.IsFile() && !LooksUnchanged(local, f, options.quickMode)
    requires FilesDone(files, chunks, options, unreadable, placed, restored, ok, failures)
    requires Separate(disk, entries) && e in entries
    ensures EntryDone(e, local, chunks, options, unreadable, disk, restored, failures, !ok, false) ||
      (!ok && Untouched(e, disk, restored))
  {
    var k :| 0 <= k < |entries| && entries[k] == e;
    assert PlacedAt(local, entries[k], options.quickMode, disk, placed);
    var n := Name(e.path);
    if e.IsFile() { FileKeeps(local, entries, |entries|, options.quickMode, disk, placed, e); }
    if e in files {
      FilesApart(local, entries, options, disk, placed, files);
      assert n == e.path;
      if FileDone(e, chunks, options, unreadable, placed, restored, failures > 0, !ok) {
        SameStart(e, chunks, options, unreadable, disk, placed, restored, failures > 0, !ok);
      }
    } else if !e.kind.Link? {
      PlainHasNoLink(entries, e);
      PlacedLeads(local, entries, |entries|, options.quickMode, disk, placed, n);
      forall q | q in PathsIn(files) ensures LeadsTo(disk, q) != LeadsTo(disk, n) {
        var f :| f in files && f.path == q;
        FileNames(entries, files, q);
        SeparateFrom(disk, entries, f, e);
      }
      NotLedTo(local, entries, options, disk, placed, files, n);
    }
  }

  lemma FilesApart(local: seq<Entry>, entries: seq<Entry>, options: Options, disk: FileSystem, placed: FileSystem,
                   files: seq<Entry>)
    requires Tidy(entries) && Placed(local, entries, |entries|, options.quickMode, disk, placed)
    requires forall e :: e in files ==> e in entries && e.IsFile()
    requires Separate(disk, entries)
    ensures AllApart(placed, files)
  {
    forall p | p in PathsIn(files) ensures p in PlainNames(entries) && LeadsTo(placed, p) == LeadsTo(disk, p) {
      FileNames(entries, files, p);
      PlacedLeads(local, entries, |entries|, options.quickMode, disk, placed, p);
    }
  }

  lemma SameStart(e: Entry, chunks: seq<Bytes>, options: Options, unreadable: set<Path>, disk: FileSystem,
                  placed: FileSystem, after: FileSystem, mayFail: bool, mayStop: bool)
    requires FileDone(e, chunks, options, unreadable, placed, after, mayFail, mayStop)
    requires SeenAt(placed, e.path) == SeenAt(disk, e.path)
    ensures FileDone(e, chunks, options, unreadable, disk, after, mayFail, mayStop)
  {
    var o :| SettledAt(o, e, chunks, options, unreadable, SeenAt(placed, e.path), after) &&
      (Fails(o) ==> mayFail || mayStop) && (Stopped(o, options) ==> mayStop);
  }

  // ------------------------------------------------------------------ after the deletion

  /** A directory of the snapshot that is there leads where it did; one that is gone leads to nothing that lasts. */
  lemma DirectoryLeads(entries: seq<Entry>, disk: FileSystem, restored: FileSystem, left: FileSystem, gone: set<Path>,
                       p: Path)
    requires p in restored.names && Trimmed(restored, left, gone) && LeadsTo(restored, p) == LeadsTo(disk, p)
    ensures LeadsTo(left, p) == LeadsTo(disk, p) || !Lasts(LeadsTo(left, p), gone)
  {
  }

  /** The deletion, and then the times of the directories. */
  ghost predicate Ended(local: seq<Entry>, entries: seq<Entry>, options: Options, restored: FileSystem,
                            left: FileSystem, after: FileSystem, directories: seq<Entry>, gone: set<Path>)
  {
    Trimmed(restored, left, gone) && Retimed(left, after) && DistinctPaths(directories) &&
    (forall d :: d in directories <==>
      d in entries && d.kind.Directory? && !LooksUnchanged(local, d, options.quickMode)) &&
    (forall d :: d in directories ==> Name(d.path) in restored.names) &&
    (forall i :: 0 <= i < |directories| ==> TimeSet(directories, i, |directories|, left, after)) &&
    (forall f :: (forall i :: 0 <= i < |directories| ==> LeadsTo(left, Name(directories[i].path)) != f) ==>
      SeenIn(after, f) == SeenIn(left, f))
  }

  lemma AllInTheEnd(local: seq<Entry>, entries: seq<Entry>, chunks: seq<Bytes>, options: Options,
                    unreadable: set<Path>, disk: FileSystem, restored: FileSystem, left: FileSystem, after: FileSystem,
                    directories: seq<Entry>, failures: nat, gone: set<Path>)
    requires Tidy(entries)
    requires Downloaded(local, entries, chunks, options, unreadable, disk, restored, true, failures)
    requires Ended(local, entries, options, restored, left, after, directories, gone)
    ensures Separate(disk, entries) ==>
      EntriesDone(local, entries, chunks, options, unreadable, disk, after, true, failures, gone)
    ensures OthersSame(entries, disk, after, gone) && NamesStay(entries, disk, after, gone)
  {
    if Separate(disk, entries) {
      forall e | e in entries && Spared(disk, Name(e.path), gone)
        ensures EntryDone(e, local, chunks, options, unreadable, disk, after, failures, false, true)
      {
        EntryInTheEnd(local, entries, chunks, options, unreadable, disk, restored, left, after, directories, failures,
                      gone, e);
      }
    }
    forall p | p !in EntryNames(entries) && Spared(disk, p, gone) && !Meets(disk, PlainNames(entries), p)
      ensures SameAt(disk, after, p)
    {
      assert SameAt(disk, restored, p);
    }
  }

  lemma EntryInTheEnd(local: seq<Entry>, entries: seq<Entry>, chunks: seq<Bytes>, options: Options,
                      unreadable: set<Path>, disk: FileSystem, restored: FileSystem, left: FileSystem,
                      after: FileSystem, directories: seq<Entry>, failures: nat, gone: set<Path>, e: Entry)
    requires Tidy(entries) && Separate(disk, entries) && e in entries && Spared(disk, Name(e.path), gone)
    requires Downloaded(local, entries, chunks, options, unreadable, disk, restored, true, failures)
    requires Ended(local, entries, options, restored, left, after, directories, gone)
    ensures EntryDone(e, local, chunks, options, unreadable, disk, after, failures, false, true)
  {
    var n := Name(e.path);
    assert EntryDone(e, local, chunks, options, unreadable, disk, restored, failures, false, false);
    if !e.kind.Link? {
      PlainHasNoLink(entries, e);
      assert LeadsTo(after, n) == LeadsTo(disk, n) && SeenAt(left, n) == SeenAt(restored, n);
      forall i | 0 <= i < |directories| && directories[i] != e
        ensures LeadsTo(left, Name(directories[i].path)) != LeadsTo(disk, n)
      {
        var d := directories[i];
        assert d in directories;
        PlainHasNoLink(entries, d);
        SeparateFrom(disk, entries, d, e);
        DirectoryLeads(entries, disk, restored, left, gone, Name(d.path));
      }
      if e.IsFile() {
        FileInTheEnd(local, chunks, options, unreadable, disk, restored, after, failures, e);
      } else if e in directories {
        TimedInTheEnd(disk, left, after, directories, e);
      }
    }
  }

  lemma FileInTheEnd(local: seq<Entry>, chunks: seq<Bytes>, options: Options, unreadable: set<Path>, disk: FileSystem,
                     restored: FileSystem, after: FileSystem, failures: nat, e: Entry)
    requires e.IsFile() && Name(e.path) == e.path
    requires EntryDone(e, local, chunks, options, unreadable, disk, restored, failures, false, false)
    requires InodeAt(after, e.path) == InodeAt(restored, e.path) && SeenAt(after, e.path) == SeenAt(restored, e.path)
    ensures EntryDone(e, local, chunks, options, unreadable, disk, after, failures, false, true)
  {
    if !LooksUnchanged(local, e, options.quickMode) {
      var o :| SettledAt(o, e, chunks, options, unreadable, SeenAt(disk, e.path), restored) &&
        (Fails(o) ==> failures > 0) && !Stopped(o, options);
      assert SettledAt(o, e, chunks, options, unreadable, SeenAt(disk, e.path), after);
    }
  }

  lemma TimedInTheEnd(disk: FileSystem, left: FileSystem, after: FileSystem, directories: seq<Entry>, e: Entry)
    requires e in directories && Retimed(left, after)
    requires forall i :: 0 <= i < |directories| ==> TimeSet(directories, i, |directories|, left, after)
    requires DistinctPaths(directories)
    requires forall i :: 0 <= i < |directories| && directories[i] != e ==>
      LeadsTo(left, Name(directories[i].path)) != LeadsTo(left, Name(e.path))
    ensures SeenAt(after, Name(e.path)).Folder? ==> SeenAt(after, Name(e.path)).time == e.time
  {
    var i :| 0 <= i < |directories| && directories[i] == e;
    assert TimeSet(directories, i, |directories|, left, after);
  }

  /** The directories made are those of the snapshot that were not skipped, and they are there. */
  lemma DirectoriesPlaced(local: seq<Entry>, entries: seq<Entry>, options: Options, disk: FileSystem,
                          placed: FileSystem, restored: FileSystem, files: seq<Entry>, directories: seq<Entry>)
    requires Sorted(entries) && Placed(local, entries, |entries|, options.quickMode, disk, placed)
    requires OnlyFiles(files, placed, restored, true)
    requires directories == Selected(local, entries, |entries|, options.quickMode, Directory)
    ensures DistinctPaths(directories)
    ensures forall d :: d in directories <==>
      d in entries && d.kind.Directory? && !LooksUnchanged(local, d, options.quickMode)
    ensures forall d :: d in directories ==> Name(d.path) in restored.names
  {
    SelectedDistinct(local, entries, |entries|, options.quickMode, Directory);
    forall d ensures d in directories <==>
      d in entries && d.kind.Directory? && !LooksUnchanged(local, d, options.quickMode)
    {
      InSelected(local, entries, |entries|, options.quickMode, Directory, d);
      assert entries[..|entries|] == entries;
    }
    forall d | d in directories ensures Name(d.path) in restored.names {
      var i :| 0 <= i < |entries| && entries[i] == d;
      assert PlacedAt(local, entries[i], options.quickMode, disk, placed);
    }
  }

  /** What the files lead to shows the same, unless it has gone. */
  lemma ShownInTheEnd(local: seq<Entry>, entries: seq<Entry>, chunks: seq<Bytes>, options: Options,
                      unreadable: set<Path>, disk: FileSystem, placed: FileSystem, restored: FileSystem,
                      left: FileSystem, after: FileSystem, files: seq<Entry>, gone: set<Path>)
    requires Sorted(entries) && Tidy(entries) && Placed(local, entries, |entries|, options.quickMode, disk, placed)
    requires AllSound(entries, chunks) && files == Chosen(local, entries, options)
    requires FilesDone(files, chunks, options, unreadable, placed, restored, true, 0) && !options.quickMode
    requires Trimmed(restored, left, gone) && Retimed(left, after)
    ensures AllShow(files, chunks, disk, after, gone) <==> Agree(files, chunks, disk, gone)
  {
    ChosenFiles(local, entries, options, files);
    AllShownIfAgreed(files, chunks, options, unreadable, placed, restored, gone);
    ShownTheSame(local, entries, chunks, options, disk, placed, restored, left, after, files, gone);
  }

  lemma ShownTheSame(local: seq<Entry>, entries: seq<Entry>, chunks: seq<Bytes>, options: Options, disk: FileSystem,
                     placed: FileSystem, restored: FileSystem, left: FileSystem, after: FileSystem, files: seq<Entry>,
                     gone: set<Path>)
    requires Sorted(entries) && Tidy(entries) && Placed(local, entries, |entries|, options.quickMode, disk, placed)
    requires files == Chosen(local, entries, options)
    requires Trimmed(restored, left, gone) && Retimed(left, after)
    ensures Agree(files, chunks, placed, gone) <==> Agree(files, chunks, disk, gone)
    ensures AllShow(files, chunks, placed, restored, gone) <==> AllShow(files, chunks, disk, after, gone)
  {
    ChosenLead(local, entries, options, disk, placed, files);
    forall e | e in files ensures LeadsTo(placed, e.path) == LeadsTo(disk, e.path) { assert e.path in PathsIn(files); }
    SameAgreement(files, chunks, placed, disk, gone);
    ShowsStill(files, chunks, placed, disk, restored, left, after, gone);
  }

  lemma SameAgreement(files: seq<Entry>, chunks: seq<Bytes>, placed: FileSystem, disk: FileSystem, gone: set<Path>)
    requires forall e :: e in files ==> LeadsTo(placed, e.path) == LeadsTo(disk, e.path)
    ensures Agree(files, chunks, placed, gone) <==> Agree(files, chunks, disk, gone)
  {
  }

  lemma ShowsStill(files: seq<Entry>, chunks: seq<Bytes>, placed: FileSystem, disk: FileSystem, restored: FileSystem,
                   left: FileSystem, after: FileSystem, gone: set<Path>)
    requires forall e :: e in files ==> LeadsTo(placed, e.path) == LeadsTo(disk, e.path)
    requires Trimmed(restored, left, gone) && Retimed(left, after)
    ensures AllShow(files, chunks, placed, restored, gone) <==> AllShow(files, chunks, disk, after, gone)
  {
    forall e | e in files && Lasts(LeadsTo(disk, e.path), gone)
      ensures Shows(BytesOf(e, chunks), SeenIn(after, LeadsTo(disk, e.path))) <==>
              Shows(BytesOf(e, chunks), SeenIn(restored, LeadsTo(placed, e.path)))
    {
      LikeShows(BytesOf(e, chunks), SeenIn(restored, LeadsTo(disk, e.path)), SeenIn(after, LeadsTo(disk, e.path)));
    }
  }

  lemma LikeShows(bytes: Bytes, a: Seen, b: Seen)
    requires Like(a, b)
    ensures Shows(bytes, a) == Shows(bytes, b)
  {
  }

  /** What is there after the downloads: what was there, what the snapshot has, and what was written through links. */
  lemma NamesRebuilt(local: seq<Entry>, entries: seq<Entry>, options: Options, disk: FileSystem, placed: FileSystem,
                     restored: FileSystem, files: seq<Entry>)
    requires Sorted(entries) && Tidy(entries) && Placed(local, entries, |entries|, options.quickMode, disk, placed)
    requires files == Chosen(local, entries, options)
    requires OnlyFiles(files, placed, restored, true) && Mirrors(disk, local)
    ensures Rebuilt(local, entries, disk, restored, Strays(disk, files))
  {
    NamesAre(local, entries, options, disk, placed, restored, files);
    forall p | p in disk.names ensures RebuiltAt(disk, restored, p) {
      NameRebuilt(local, entries, options, disk, placed, restored, files, p);
    }
  }

  lemma NamesAre(local: seq<Entry>, entries: seq<Entry>, options: Options, disk: FileSystem, placed: FileSystem,
                 restored: FileSystem, files: seq<Entry>)
    requires Sorted(entries) && Tidy(entries) && Placed(local, entries, |entries|, options.quickMode, disk, placed)
    requires files == Chosen(local, entries, options)
    requires OnlyFiles(files, placed, restored, true) && Mirrors(disk, local)
    ensures restored.names.Keys == EntryNames(local) + EntryNames(entries) + Strays(disk, files)
  {
    var names := EntryNames(local) + EntryNames(entries) + Strays(disk, files);
    forall p | p in restored.names ensures p in names {
      NameExplained(local, entries, options, disk, placed, restored, files, p);
    }
    forall p | p in names ensures p in restored.names {
      NameIsThere(local, entries, options, disk, placed, restored, files, p);
    }
  }

  lemma NameExplained(local: seq<Entry>, entries: seq<Entry>, options: Options, disk: FileSystem, placed: FileSystem,
                      restored: FileSystem, files: seq<Entry>, p: Path)
    requires Sorted(entries) && Tidy(entries) && Placed(local, entries, |entries|, options.quickMode, disk, placed)
    requires files == Chosen(local, entries, options)
    requires OnlyFiles(files, placed, restored, true) && Mirrors(disk, local) && p in restored.names
    ensures p in EntryNames(local) + EntryNames(entries) + Strays(disk, files)
  {
    PlacedHas(local, entries, options, disk, placed, p);
    ChosenLead(local, entries, options, disk, placed, files);
    if p !in placed.names { StrayNames(disk, placed, files, p); }
  }

  lemma NameIsThere(local: seq<Entry>, entries: seq<Entry>, options: Options, disk: FileSystem, placed: FileSystem,
                    restored: FileSystem, files: seq<Entry>, p: Path)
    requires Sorted(entries) && Tidy(entries) && Placed(local, entries, |entries|, options.quickMode, disk, placed)
    requires files == Chosen(local, entries, options)
    requires OnlyFiles(files, placed, restored, true) && Mirrors(disk, local)
    requires p in EntryNames(local) + EntryNames(entries) + Strays(disk, files)
    ensures p in restored.names
  {
    ChosenFiles(local, entries, options, files);
    ChosenLead(local, entries, options, disk, placed, files);
    if p in EntryNames(local) {
      NameRebuilt(local, entries, options, disk, placed, restored, files, p);
    } else if p in EntryNames(entries) {
      var e :| e in entries && Name(e.path) == p;
      EntryIsThere(local, entries, options, disk, placed, restored, files, e);
    } else {
      var e :| e in files && LeadsTo(disk, e.path) == Own(p);
      assert e.path in PathsIn(files);
      assert LedTo(files, placed, Own(p));
    }
  }

  /** After the merge the files lead where they did. */
  lemma ChosenLead(local: seq<Entry>, entries: seq<Entry>, options: Options, disk: FileSystem, placed: FileSystem,
                   files: seq<Entry>)
    requires Sorted(entries) && Tidy(entries) && Placed(local, entries, |entries|, options.quickMode, disk, placed)
    requires files == Chosen(local, entries, options)
    ensures forall p :: p in PathsIn(files) ==> LeadsTo(placed, p) == LeadsTo(disk, p)
  {
    ChosenFiles(local, entries, options, files);
    forall p | p in PathsIn(files) ensures LeadsTo(placed, p) == LeadsTo(disk, p) {
      FileNames(entries, files, p);
      PlacedLeads(local, entries, |entries|, options.quickMode, disk, placed, p);
    }
  }

  lemma PlacedHas(local: seq<Entry>, entries: seq<Entry>, options: Options, disk: FileSystem, placed: FileSystem,
                  p: Path)
    requires Placed(local, entries, |entries|, options.quickMode, disk, placed)
    ensures p in disk.names ==> p in placed.names
    ensures p in placed.names ==> p in disk.names || p in EntryNames(entries)
  {
    if i :| 0 <= i < |entries| && Name(entries[i].path) == p {
      assert PlacedAt(local, entries[i], options.quickMode, disk, placed) && entries[i] in entries;
    } else {
      assert InodeAt(placed, p) == InodeAt(disk, p);
    }
  }

  lemma StrayNames(disk: FileSystem, placed: FileSystem, files: seq<Entry>, p: Path)
    requires LedTo(files, placed, Own(p)) && p !in disk.names
    requires forall q :: q in PathsIn(files) ==> LeadsTo(placed, q) == LeadsTo(disk, q)
    ensures p in Strays(disk, files)
  {
    var q :| q in PathsIn(files) && LeadsTo(placed, q) == Own(p);
    var e :| e in files && e.path == q;
  }

  lemma EntryIsThere(local: seq<Entry>, entries: seq<Entry>, options: Options, disk: FileSystem, placed: FileSystem,
                     restored: FileSystem, files: seq<Entry>, e: Entry)
    requires Tidy(entries) && Placed(local, entries, |entries|, options.quickMode, disk, placed)
    requires forall f :: f in files <==> f in entries && f.IsFile() && !LooksUnchanged(local, f, options.quickMode)
    requires OnlyFiles(files, placed, restored, true) && Mirrors(disk, local) && e in entries
    ensures Name(e.path) in restored.names
  {
    var i :| 0 <= i < |entries| && entries[i] == e;
    assert PlacedAt(local, entries[i], options.quickMode, disk, placed);
    if LooksUnchanged(local, e, options.quickMode) {
      var l := Find(local, e.path).value;
      assert l in local && MirrorsOne(disk, Name(l.path), l.kind);
    } else if e.IsFile() {
      assert e.path in PathsIn(files) && Name(e.path) == e.path;
      assert LedTo(files, placed, LeadsTo(placed, e.path));
    }
  }

  lemma NameRebuilt(local: seq<Entry>, entries: seq<Entry>, options: Options, disk: FileSystem, placed: FileSystem,
                    restored: FileSystem, files: seq<Entry>, p: Path)
    requires Tidy(entries) && Placed(local, entries, |entries|, options.quickMode, disk, placed)
    requires OnlyFiles(files, placed, restored, true) && p in disk.names
    ensures RebuiltAt(disk, restored, p)
  {
    if i :| 0 <= i < |entries| && Name(entries[i].path) == p {
      assert PlacedAt(local, entries[i], options.quickMode, disk, placed);
    } else {
      assert InodeAt(placed, p) == InodeAt(disk, p);
    }
  }

  /** What deleting the extra files and giving the directories their times have made of the disk. */
  ghost predicate Cleaned(local: seq<Entry>, entries: seq<Entry>, directories: seq<Entry>, deleteMode: bool,
                          restored: FileSystem, left: FileSystem, after: FileSystem)
  {
    Trimmed(restored, left, Gone(local, entries, true, deleteMode)) && Retimed(left, after) &&
    (if deleteMode then
       ExtraInside(Extra(local, |local|, entries), restored) ==>
         left.names == restored.names - ExtraNames(local, entries)
     else left == restored) &&
    (forall i :: 0 <= i < |directories| ==> TimeSet(directories, i, |directories|, left, after)) &&
    (forall f :: (forall i :: 0 <= i < |directories| ==> LeadsTo(left, Name(directories[i].path)) != f) ==>
      SeenIn(after, f) == SeenIn(left, f))
  }

  /** Delete the extra files, if so asked, and give the directories their times. */
  method Finish(ghost local: seq<Entry>, ghost entries: seq<Entry>, extraFiles: seq<Path>, directories: seq<Entry>,
                deleteMode: bool, restored: FileSystem)
    returns (after: FileSystem, ghost left: FileSystem)
    requires Sorted(local) && Rooted(restored) && extraFiles == Extra(local, |local|, entries)
    ensures Cleaned(local, entries, directories, deleteMode, restored, left, after)
  {
    after := restored;
    if deleteMode {
      ExtraIncreases(local, |local|, entries);
      ExtraIsExtra(local, entries);
      after := DeleteExtra(extraFiles, restored);
    }
    left := after;
    after := SetTimes(directories, after);
  }

  lemma EntriesInTheEnd(local: seq<Entry>, entries: seq<Entry>, chunks: seq<Bytes>, options: Options,
                        unreadable: set<Path>, disk: FileSystem, placed: FileSystem, restored: FileSystem,
                        left: FileSystem, after: FileSystem, files: seq<Entry>, directories: seq<Entry>,
                        deleteMode: bool, failures: nat)
    requires Sorted(entries) && Tidy(entries)
    requires Placed(local, entries, |entries|, options.quickMode, disk, placed)
    requires OnlyFiles(files, placed, restored, true)
    requires Downloaded(local, entries, chunks, options, unreadable, disk, restored, true, failures)
    requires directories == Selected(local, entries, |entries|, options.quickMode, Directory)
    requires Cleaned(local, entries, directories, deleteMode, restored, left, after)
    ensures Separate(disk, entries) ==>
      EntriesDone(local, entries, chunks, options, unreadable, disk, after, true, failures,
                  Gone(local, entries, true, deleteMode))
    ensures OthersSame(entries, disk, after, Gone(local, entries, true, deleteMode))
    ensures NamesStay(entries, disk, after, Gone(local, entries, true, deleteMode))
  {
    DirectoriesPlaced(local, entries, options, disk, placed, restored, files, directories);
    AllInTheEnd(local, entries, chunks, options, unreadable, disk, restored, left, after, directories, failures,
                Gone(local, entries, true, deleteMode));
  }

  lemma NamesInTheEnd(local: seq<Entry>, entries: seq<Entry>, options: Options, disk: FileSystem, placed: FileSystem,
                      restored: FileSystem, left: FileSystem, after: FileSystem, files: seq<Entry>,
                      directories: seq<Entry>, deleteMode: bool)
    requires Tidy(local) && Sorted(entries) && Tidy(entries) && Closed(entries) && Mirrors(disk, local)
    requires Placed(local, entries, |entries|, options.quickMode, disk, placed)
    requires OnlyFiles(files, placed, restored, true) && files == Chosen(local, entries, options)
    requires Cleaned(local, entries, directories, deleteMode, restored, left, after)
    ensures NamesLeftAre(local, entries, options, deleteMode, disk, after)
  {
    NamesRebuilt(local, entries, options, disk, placed, restored, files);
    if deleteMode { LeftAfterDeletion(local, entries, disk, restored, Strays(disk, files), left); }
  }

  /** The target after a restore, whether it has succeeded or stopped. */
  ghost predicate TargetAfter(local: seq<Entry>, entries: seq<Entry>, chunks: seq<Bytes>, options: Options,
                              unreadable: set<Path>, deleteMode: bool, disk: FileSystem, after: FileSystem, ok: bool,
                              failures: nat)
  {
    var gone, files := Gone(local, entries, ok, deleteMode), Chosen(local, entries, options);
    (Separate(disk, entries) ==>
      EntriesDone(local, entries, chunks, options, unreadable, disk, after, ok, failures, gone)) &&
    OthersSame(entries, disk, after, gone) && NamesStay(entries, disk, after, gone) &&
    (ok && failures == 0 && !options.quickMode ==>
      (AllShow(files, chunks, disk, after, gone) <==> Agree(files, chunks, disk, gone))) &&
    (ok && Mirrors(disk, local) && Tidy(local) ==> NamesLeftAre(local, entries, options, deleteMode, disk, after))
  }

  /** Download the files, delete the extra ones, and give the directories their times. */
  method RestoreMerged(ghost local: seq<Entry>, ghost entries: seq<Entry>, hashes: seq<ChunkHash>, lengths: seq<nat>,
                       ghost disk: FileSystem, placed: FileSystem, files: seq<Entry>, extraFiles: seq<Path>,
                       directories: seq<Entry>, options: Options, deleteMode: bool, threads: nat,
                       unreadable: set<Path>, sparse: bool, ghost chunks: seq<Bytes>)
    returns (ok: bool, failures: nat, after: FileSystem)
    requires ProperSnapshot(entries, hashes, lengths, chunks) && Tidy(entries) && Closed(entries) && Sorted(local)
    requires Placed(local, entries, |entries|, options.quickMode, disk, placed)
    requires files == Chosen(local, entries, options) && extraFiles == Extra(local, |local|, entries)
    requires directories == Selected(local, entries, |entries|, options.quickMode, Directory)
    ensures ok ==> hashes != [] || files == []
    ensures StopsForeseen(files, options, placed) ==>
      (ok ==> !AnyBlocks(files, chunks, options, unreadable, placed)) &&
      (options.reliable && !ok ==>
        (hashes == [] && files != []) || AnyBlocks(files, chunks, options, unreadable, placed))
    ensures options.reliable && ok && FailuresForeseen(files, options, placed) ==>
      failures == |AllRefused(files, chunks, options, unreadable, placed)|
    ensures options.overwrite && options.reliable && ok ==> failures == 0
    ensures TargetAfter(local, entries, chunks, options, unreadable, deleteMode, disk, after, ok, failures)
  {
    ChosenFiles(local, entries, options, files);
    RangesInSnapshot(entries, hashes, lengths, chunks, files);
    ok, failures, after := DownloadFiles(files, placed, options, threads, unreadable, sparse, hashes, lengths, chunks);
    AfterDownloads(local, entries, chunks, options, unreadable, disk, placed, after, files, ok, failures);
    if ok {
      ghost var restored, left := after, after;
      after, left := Finish(local, entries, extraFiles, directories, deleteMode, after);
      InTheEnd(local, entries, chunks, options, unreadable, disk, placed, restored, left, after, files, directories,
               deleteMode, failures);
    }
  }

  lemma InTheEnd(local: seq<Entry>, entries: seq<Entry>, chunks: seq<Bytes>, options: Options, unreadable: set<Path>,
                 disk: FileSystem, placed: FileSystem, restored: FileSystem, left: FileSystem, after: FileSystem,
                 files: seq<Entry>, directories: seq<Entry>, deleteMode: bool, failures: nat)
    requires Sorted(entries) && Tidy(entries) && Closed(entries) && AllSound(entries, chunks)
    requires Placed(local, entries, |entries|, options.quickMode, disk, placed)
    requires FilesDone(files, chunks, options, unreadable, placed, restored, true, failures)
    requires Downloaded(local, entries, chunks, options, unreadable, disk, restored, true, failures)
    requires files == Chosen(local, entries, options)
    requires directories == Selected(local, entries, |entries|, options.quickMode, Directory)
    requires Cleaned(local, entries, directories, deleteMode, restored, left, after)
    ensures TargetAfter(local, entries, chunks, options, unreadable, deleteMode, disk, after, true, failures)
  {
    EntriesInTheEnd(local, entries, chunks, options, unreadable, disk, placed, restored, left, after, files,
                    directories, deleteMode, failures);
    if failures == 0 && !options.quickMode {
      ShownInTheEnd(local, entries, chunks, options, unreadable, disk, placed, restored, left, after, files,
                    Gone(local, entries, true, deleteMode));
    }
    if Mirrors(disk, local) && Tidy(local) {
      NamesInTheEnd(local, entries, options, disk, placed, restored, left, after, files, directories, deleteMode);
    }
  }

  // ------------------------------------------------------------------ the files restored, by sizes and times

  /** What is seen has this size, and its time differs by at most a second. */
  predicate LooksLike(size: int, time: int, seen: Seen) {
    match seen
    case Nothing => false
    case Regular(content, t) => size == |content| && -1 <= time - t <= 1
    case Folder(s, t) => size == s && -1 <= time - t <= 1
  }

  /** The listing of the target has a file of this path and size, and its time differs by at most a second. */
  ghost predicate ListedAlike(local: seq<Entry>, e: Entry) {
    exists l :: l in local && l.path == e.path && l.kind == File && l.size == e.size && -1 <= l.time - e.time <= 1
  }

  /**
   A file that looks like the one in the snapshot is left alone in quick mode, and so is an empty one in any mode; every
   other one has the contents and the time of the snapshot.
   */
  ghost predicate FileRestored(e: Entry, local: seq<Entry>, chunks: seq<Bytes>, quickMode: bool, before: FileSystem,
                               after: FileSystem)
  {
    var was, now := SeenAt(before, e.path), SeenAt(after, e.path);
    if (quickMode && (ListedAlike(local, e) || LooksLike(e.size, e.time, was))) ||
       (e.size == 0 && LooksLike(0, e.time, was)) then now == was
    else if e.size == 0 then now == Regular([], e.time)
    else Within(chunks, e.range) && now == Regular(Slice(chunks, e.range), e.time)
  }

  /** So are all that last. */
  ghost predicate AllRestored(local: seq<Entry>, entries: seq<Entry>, chunks: seq<Bytes>, options: Options,
                              deleteMode: bool, before: FileSystem, after: FileSystem)
  {
    forall e :: e in entries && e.kind == File && Spared(before, e.path, Gone(local, entries, true, deleteMode)) ==>
      FileRestored(e, local, chunks, options.quickMode, before, after)
  }

  lemma AlikeMeans(local: seq<Entry>, e: Entry)
    requires Sorted(local)
    ensures LooksUnchanged(local, e, true) <==> ListedAlike(local, e)
  {
    if l :| l in local && l.path == e.path && l.kind == File && l.size == e.size && -1 <= l.time - e.time <= 1 {
      OnlyOne(local, l, Find(local, e.path).value);
    }
  }

  lemma DoneIsRestored(local: seq<Entry>, entries: seq<Entry>, chunks: seq<Bytes>, options: Options,
                       unreadable: set<Path>, deleteMode: bool, before: FileSystem, after: FileSystem)
    requires Sorted(local) && Tidy(entries) && AllSound(entries, chunks)
    requires EntriesDone(local, entries, chunks, options, unreadable, before, after, true, 0,
                         Gone(local, entries, true, deleteMode))
    ensures AllRestored(local, entries, chunks, options, deleteMode, before, after)
  {
    forall e | e in entries && e.kind == File && Spared(before, e.path, Gone(local, entries, true, deleteMode))
      ensures FileRestored(e, local, chunks, options.quickMode, before, after)
    {
      assert Name(e.path) == e.path && Sound(e, chunks);
      AlikeMeans(local, e);
      if !LooksUnchanged(local, e, options.quickMode) {
        var o :| SettledAt(o, e, chunks, options, unreadable, SeenAt(before, e.path), after) && !Fails(o) &&
          !Stopped(o, options);
      }
    }
  }

  /**
   Restore a snapshot.  With intact chunks it succeeds if and only if no directory or link finds something in its
   way, no file to be restored stops it, and the snapshot has chunks unless there is no file to be restored.  Without
   them, it can only stop more often.  If it stops, every entry is either done or untouched.  Files that lead to the
   same place are written one over the other; they hold what they should if and only if their contents agree.  Whether
   the restore succeeds can then be foreseen if files may be overwritten or failures are allowed.  If everything leads
   to a place of its own and nothing fails, every file is as in the snapshot, except those that quick mode leaves alone.
   */
  method Restore(local: seq<Entry>, entries: seq<Entry>, hashes: seq<ChunkHash>, lengths: seq<nat>, disk: FileSystem,
                 options: Options, deleteMode: bool, threads: nat, unreadable: set<Path>, sparse: bool,
                 ghost chunks: seq<Bytes>)
    returns (ok: bool, failures: nat, after: FileSystem)
    requires ProperSnapshot(entries, hashes, lengths, chunks) && Tidy(entries) && Closed(entries) && Sorted(local)
    requires Rooted(disk)
    ensures OffDirectories(disk, entries) && StopsForeseen(Chosen(local, entries, options), options, disk) ==>
      (ok ==> Restorable(local, entries, hashes, chunks, options, unreadable, disk)) &&
      (options.reliable && !ok ==> !Restorable(local, entries, hashes, chunks, options, unreadable, disk))
    ensures OffDirectories(disk, entries) && FailuresForeseen(Chosen(local, entries, options), options, disk) &&
            options.reliable && ok ==>
      failures == |AllRefused(Chosen(local, entries, options), chunks, options, unreadable, disk)|
    ensures options.overwrite && options.reliable && ok ==> failures == 0
    ensures TargetAfter(local, entries, chunks, options, unreadable, deleteMode, disk, after, ok, failures)
    ensures ok && failures == 0 && Separate(disk, entries) ==>
      AllRestored(local, entries, chunks, options, deleteMode, disk, after)
  {
    var extraFiles, files, directories, done;
    ok, done, extraFiles, files, directories, after := MergeListings(local, entries, options.quickMode, disk);
    failures := 0;
    if !ok {
      MergeStopped(local, entries, chunks, options, unreadable, disk, after, done);
      return;
    }
    var placed := after;
    ChosenFiles(local, entries, options, files);
    FilesUntouched(local, entries, chunks, options, unreadable, disk, placed, files);
    ok, failures, after := RestoreMerged(local, entries, hashes, lengths, disk, placed, files, extraFiles, directories,
                                         options, deleteMode, threads, unreadable, sparse, chunks);
    if ok && failures == 0 && Separate(disk, entries) {
      DoneIsRestored(local, entries, chunks, options, unreadable, deleteMode, disk, after);
    }
  }
}
