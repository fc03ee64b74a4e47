/**
 The file system that a restore works on: names, which may be links, and the files they lead to.  Several names may
 lead to one file, by links of either kind, and then see the same.
 */
module FileSystems {
  import opened Common
  import opened Chunking
  import opened PathOrder
  import opened WalkOrder

  predicate IsDirectory(path: Path) { path != [] && path[|path| - 1] == SLASH }

  /** The name under which a path is found: the slash at the end of a directory is dropped. */
  function Name(path: Path): Path { if IsDirectory(path) then path[..|path| - 1] else path }

  lemma NameAndSlash(d: Path)
    requires IsDirectory(d)
    ensures Name(d) + [SLASH] == d
  {
  }

  /** What is seen at a name, through a link if there is one: nothing if the link leads nowhere. */
  datatype Seen = Nothing | Regular(content: Bytes, time: int) | Folder(size: nat, time: int)

  /** The same, but for the times and sizes of directories, which change with what is in them. */
  predicate Like(a: Seen, b: Seen) { a == b || (a.Folder? && b.Folder?) }

  /** What a name leads to: a file that goes by a name of its own, whether it exists or not, or any other. */
  datatype FileId = Own(name: Path) | Other(number: nat)

  datatype Inode = Inode(isLink: bool, file: FileId)

  datatype FileSystem = FileSystem(names: map<Path, Inode>, files: map<FileId, Seen>)

  function InodeAt(disk: FileSystem, name: Path): Option<Inode> {
    if name in disk.names then Some(disk.names[name]) else None
  }

  function LeadsTo(disk: FileSystem, name: Path): FileId {
    if name in disk.names then disk.names[name].file else Own(name)
  }

  function SeenIn(disk: FileSystem, file: FileId): Seen { if file in disk.files then disk.files[file] else Nothing }

  function SeenAt(disk: FileSystem, name: Path): Seen { SeenIn(disk, LeadsTo(disk, name)) }

  /** A file that goes by a name of its own has it, and a name that is no link is the name of a file. */
  ghost predicate Rooted(disk: FileSystem) {
    (forall n :: Own(n) in disk.files ==> n in disk.names) &&
    (forall f :: f in disk.files ==> !disk.files[f].Nothing?) &&
    (forall n :: n in disk.names && !disk.names[n].isLink ==> RootedAt(disk, n))
  }

  ghost predicate RootedAt(disk: FileSystem, n: Path)
    requires n in disk.names
  {
    disk.names[n].file in disk.files && (disk.names[n].file.Own? ==> disk.names[n].file == Own(n))
  }

  /** The same name, with the same to be seen at it. */
  ghost predicate SameAt(before: FileSystem, after: FileSystem, name: Path) {
    InodeAt(after, name) == InodeAt(before, name) && Like(SeenAt(before, name), SeenAt(after, name))
  }

  // ------------------------------------------------------------------ changes

  /** Write what a name leads to; a file that does not exist yet appears under its own name. */
  function Write(disk: FileSystem, name: Path, seen: Seen): FileSystem {
    var f := LeadsTo(disk, name);
    FileSystem(if f.Own? && f.name !in disk.names then disk.names[f.name := Inode(false, f)] else disk.names,
               disk.files[f := seen])
  }

  /** All names lead where they did, and those that lead there see what has been written. */
  lemma WriteShows(disk: FileSystem, name: Path, seen: Seen)
    requires Rooted(disk) && !seen.Nothing?
    ensures var after := Write(disk, name, seen);
      Rooted(after) && (forall q :: LeadsTo(after, q) == LeadsTo(disk, q)) &&
      forall q :: SeenAt(after, q) == if LeadsTo(disk, q) == LeadsTo(disk, name) then seen else SeenAt(disk, q)
  {
    var after := Write(disk, name, seen);
    forall q ensures LeadsTo(after, q) == LeadsTo(disk, q) {}
  }

  /** Writing what is there changes nothing. */
  lemma WriteAgain(disk: FileSystem, name: Path)
    requires Rooted(disk) && !SeenAt(disk, name).Nothing?
    ensures Write(disk, name, SeenAt(disk, name)) == disk
  {
    var f := LeadsTo(disk, name);
    assert disk.files[f := disk.files[f]] == disk.files;
  }

  /** Something lies in the directory of this name. */
  predicate Holds(disk: FileSystem, name: Path) { exists p :: p in disk.names && Below(name + [SLASH], p) }

  /** A directory of its own, with something in it, cannot be removed. */
  predicate Removable(disk: FileSystem, name: Path) {
    name in disk.names ==> disk.names[name].isLink || !SeenAt(disk, name).Folder? || !Holds(disk, name)
  }

  /** Removing fails, without harm, at a directory with something in it; of a link only the name goes. */
  function Remove(disk: FileSystem, name: Path): FileSystem {
    if name in disk.names && Removable(disk, name) then FileSystem(disk.names - {name}, disk.files - {Own(name)})
    else disk
  }
}
