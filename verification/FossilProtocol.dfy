/**
 Two-step fossil collection: many hosts back up to one storage without locks while a
 single pruner deletes snapshots.  Unreferenced chunks are first renamed to fossils and
 recorded in a saved collection; a later run resurrects or deletes each fossil.

 The protocol is a state machine whose actions are the individual storage operations, so a
 run is any interleaving of backups with the pruner, and the pruner may stop at any point.
 */
module FossilProtocol {
  import opened Common

  type ChunkId = string
  type Host = string
  type Key = (string, nat)

  const SECONDS_IN_DAY := 86400
  const MAX_SNAPSHOT_RUNNING_DAYS := 7

  /** A snapshot file; `chunks` is every chunk it references, metadata chunks included. */
  datatype Snapshot = Snapshot(id: string, revision: nat, endTime: int, chunks: set<ChunkId>) {
    function Name(): Key { (id, revision) }
  }

  /** A saved fossil collection. */
  datatype Collection = Collection(
    endTime: int, lastRevisions: map<string, nat>, deleted: set<Key>, fossils: set<ChunkId>)
  {
    /** The latest revision known to the collection; a missing id reads as 0. */
    function Last(id: string): nat {
      if id in lastRevisions then lastRevisions[id] else 0
    }
  }

  /** A backup in progress.  `held` are the chunks it may reference without asking the storage again. */
  datatype Backup = Backup(
    id: string, base: nat, began: int, endTime: Option<int>, held: set<ChunkId>, uploading: set<ChunkId>)

  datatype Pruner =
    | Idle
    | Listed(listing: set<Snapshot>, inFlight: map<Host, int>)
    | Deleting(listing: set<Snapshot>, inFlight: map<Host, int>, number: nat,
               newChunks: set<ChunkId>, toProcess: set<ChunkId>)
    | Collecting(listing: set<Snapshot>, flagged: set<Snapshot>, targets: set<ChunkId>, collected: set<ChunkId>)
    | Removing(toRemove: set<Snapshot>)

  datatype State = State(
    now: int,
    chunks: set<ChunkId>,
    fossils: set<ChunkId>,
    snapshots: set<Snapshot>,
    running: map<Host, Backup>,
    collections: map<nat, Collection>,
    pruner: Pruner)
  {
    predicate Exists(c: ChunkId) { c in chunks || c in fossils }
  }

  /** The host part of an id such as 'repo@host'; an id without '@' is its own host. */
  function HostOf(id: string): Host {
    if '@' in id then AfterAt(id) else id
  }

  function AfterAt(id: string): string
    requires '@' in id
  {
    if id[0] == '@' then id[1..] else AfterAt(id[1..])
  }

  /** An id without '@' is its own host; otherwise the host is what follows the first '@'. */
  ghost predicate OnHost(id: string, h: Host) {
    (id == h && '@' !in id) || exists repo: string :: '@' !in repo && id == repo + "@" + h
  }

  lemma {:induction false} HostOfRepo(repo: string, h: Host)
    requires '@' !in repo
    ensures HostOf(repo + "@" + h) == h
    decreases |repo|
  {
    var id := repo + "@" + h;
    if repo == [] {
      assert id[1..] == h;
    } else {
      assert repo[0] in repo && id[0] == repo[0] && id[1..] == repo[1..] + "@" + h;
      HostOfRepo(repo[1..], h);
    }
  }

  lemma {:induction false} SplitAtHost(id: string) returns (repo: string)
    requires '@' in id
    ensures '@' !in repo && id == repo + "@" + AfterAt(id)
    decreases |id|
  {
    if id[0] == '@' {
      repo := "";
      assert id == "@" + id[1..];
    } else {
      repo := SplitAtHost(id[1..]);
      assert id == [id[0]] + id[1..];
      repo := [id[0]] + repo;
    }
  }

  /** Ids are on one host exactly if that is the same. */
  lemma HostOfMeans(id: string, h: Host)
    ensures OnHost(id, h) <==> HostOf(id) == h
  {
    if OnHost(id, h) && '@' in id {
      var repo: string :| '@' !in repo && id == repo + "@" + h;
      HostOfRepo(repo, h);
    }
    if HostOf(id) == h && '@' in id {
      var repo := SplitAtHost(id);
    }
    if exists repo: string :: '@' !in repo && id == repo + "@" + h {
      var repo: string :| '@' !in repo && id == repo + "@" + h;
      assert id[|repo|] == '@';
    }
  }

  // ------------------------------------------------------------------ deciding deletability

  function ExtraTime(strongConsistent: bool): nat {
    if strongConsistent then 0 else SECONDS_IN_DAY / 2
  }

  predicate IsNew(k: Collection, t: Snapshot) { t.revision > k.Last(t.id) }

  /** A new snapshot that finished after the collection did. */
  predicate Settles(k: Collection, extra: nat, t: Snapshot) {
    IsNew(k, t) && t.endTime > k.endTime + extra
  }

  /** The resurrection list: new snapshots, up to and including the first settling one of each id. */
  predicate Consulted(k: Collection, extra: nat, listing: set<Snapshot>, t: Snapshot) {
    t in listing && IsNew(k, t) &&
    forall f :: f in listing && f.id == t.id && f.revision < t.revision ==> !Settles(k, extra, f)
  }

  ghost predicate HostSettled(k: Collection, extra: nat, listing: set<Snapshot>, h: Host) {
    exists f :: f in listing && HostOf(f.id) == h && Settles(k, extra, f)
  }

  predicate IsLatest(listing: set<Snapshot>, t: Snapshot) {
    t in listing && forall f :: f in listing && f.id == t.id ==> f.revision <= t.revision
  }

  /** Every latest snapshot of the host ended more than seven days ago. */
  ghost predicate Dormant(listing: set<Snapshot>, h: Host, now: int) {
    (exists t :: IsLatest(listing, t) && HostOf(t.id) == h && t.endTime > 0) &&
    forall t :: IsLatest(listing, t) && HostOf(t.id) == h ==>
      t.endTime < now - MAX_SNAPSHOT_RUNNING_DAYS * SECONDS_IN_DAY
  }

  ghost predicate HasHost(listing: set<Snapshot>, h: Host) {
    exists t :: t in listing && HostOf(t.id) == h
  }

  ghost predicate Deletable(k: Collection, extra: nat, listing: set<Snapshot>, now: int) {
    forall h :: HasHost(listing, h) ==> HostSettled(k, extra, listing, h) || Dormant(listing, h, now)
  }

  predicate HasGhost(k: Collection, listing: set<Snapshot>) {
    exists t :: t in listing && t.Name() in k.deleted
  }

  ghost function Referenced(ts: set<Snapshot>): set<ChunkId> {
    set t, c | t in ts && c in t.chunks :: c
  }

  function NewChunks(k: Collection, extra: nat, listing: set<Snapshot>): set<ChunkId> {
    set t, c | t in listing && Consulted(k, extra, listing, t) && c in t.chunks :: c
  }

  // ------------------------------------------------------------------ chunk file operations

  datatype Files = Files(chunks: set<ChunkId>, fossils: set<ChunkId>)

  /** Rename to fossil; a chunk that is already only a fossil is left alone (and still collected). */
  function FossilizeFile(f: Files, c: ChunkId): Files {
    if c in f.chunks then Files(f.chunks - {c}, f.fossils + {c}) else f
  }

  /** Turn a fossil back into a chunk, or drop it when the chunk was uploaded again meanwhile. */
  function ResurrectFile(f: Files, c: ChunkId): Files {
    if c in f.chunks then Files(f.chunks, f.fossils - {c})
    else if c in f.fossils then Files(f.chunks + {c}, f.fossils - {c})
    else f
  }

  function DeleteFossilFile(f: Files, c: ChunkId): Files { Files(f.chunks, f.fossils - {c}) }

  // ------------------------------------------------------------------ actions

  datatype Action =
    | Tick(seconds: nat)
    | StartBackup(id: string, listChunks: bool)
    | CheckChunk(host: Host, chunk: ChunkId)
    | UploadChunk(host: Host, chunk: ChunkId)
    | EndFileChunks(host: Host)
    | WriteSnapshot(host: Host, refs: set<ChunkId>)
    | AbortBackup(host: Host)
    | ListSnapshots
    | DiscardCollection(number: nat)
    | BeginDelete(number: nat)
    | ProcessFossil(chunk: ChunkId)
    | FinishDelete
    | BeginCollect(flagged: set<Snapshot>)
    | Fossilize(chunk: ChunkId)
    | SaveCollection(number: nat)
    | RemoveSnapshot(snapshot: Snapshot)
    | StopPruner

  /** The latest revision of `id` in the storage, 0 if it has none. */
  ghost predicate LatestRevision(snapshots: set<Snapshot>, id: string, revision: nat) {
    (forall t :: t in snapshots && t.id == id ==> t.revision <= revision) &&
    (revision == 0 || exists t :: t in snapshots && t.id == id && t.revision == revision)
  }

  ghost function Latest(snapshots: set<Snapshot>, id: string): (t: Snapshot)
    requires exists t :: IsLatest(snapshots, t) && t.id == id
    ensures IsLatest(snapshots, t) && t.id == id
  {
    var t :| IsLatest(snapshots, t) && t.id == id; t
  }

  ghost predicate HasSnapshot(snapshots: set<Snapshot>, id: string) {
    exists t :: IsLatest(snapshots, t) && t.id == id
  }

  ghost predicate Enabled(s: State, a: Action, extra: nat) {
    match a
    case Tick(_) => true
    case StartBackup(id, _) => HostOf(id) !in s.running
    case CheckChunk(h, _) => h in s.running
    case UploadChunk(h, c) => h in s.running && c in s.running[h].uploading
    case EndFileChunks(h) => h in s.running && s.running[h].uploading == {}
    case WriteSnapshot(h, refs) =>
      h in s.running && s.running[h].uploading == {} && s.running[h].endTime.Some? && refs <= s.running[h].held
    case AbortBackup(h) => h in s.running
    case ListSnapshots => s.pruner.Idle?
    case DiscardCollection(n) =>
      s.pruner.Listed? && n in s.collections && HasGhost(s.collections[n], s.pruner.listing)
    case BeginDelete(n) =>
      s.pruner.Listed? && n in s.collections && !HasGhost(s.collections[n], s.pruner.listing) &&
      Deletable(s.collections[n], extra, s.pruner.listing, s.now)
    case ProcessFossil(c) => s.pruner.Deleting? && c in s.pruner.toProcess
    case FinishDelete => s.pruner.Deleting? && s.pruner.toProcess == {}
    case BeginCollect(flagged) =>
      s.pruner.Listed? && flagged <= s.pruner.listing && forall t :: IsLatest(s.pruner.listing, t) ==> t !in flagged
    case Fossilize(c) => s.pruner.Collecting? && c in s.pruner.targets && s.Exists(c)
    case SaveCollection(n) => s.pruner.Collecting? && s.pruner.targets == {} && n !in s.collections
    case RemoveSnapshot(t) => s.pruner.Removing? && t in s.pruner.toRemove
    case StopPruner => true
  }

  function Names(ts: set<Snapshot>): set<Key> { set t | t in ts :: t.Name() }

  /** The latest revision of every id when the collection is created. */
  ghost function LastRevisions(listing: set<Snapshot>): map<string, nat> {
    map id | id in (set t | t in listing && IsLatest(listing, t) :: t.id) :: Latest(listing, id).revision
  }

  ghost function Next(s: State, a: Action, extra: nat): State
    requires Enabled(s, a, extra)
  {
    match a
    case Tick(d) => s.(now := s.now + d)
    case StartBackup(id, listChunks) =>
      var based := HasSnapshot(s.snapshots, id);
      var base := if based then Latest(s.snapshots, id).revision else 0;
      var held := if based then Latest(s.snapshots, id).chunks else if listChunks then s.chunks else {};
      s.(running := s.running[HostOf(id) := Backup(id, base, s.now, None, held, {})])
    case CheckChunk(h, c) =>
      var b := s.running[h];
      s.(running := s.running[h := if c in s.chunks then b.(held := b.held + {c})
                                   else b.(uploading := b.uploading + {c})])
    case UploadChunk(h, c) =>
      var b := s.running[h];
      s.(chunks := s.chunks + {c},
         running := s.running[h := b.(held := b.held + {c}, uploading := b.uploading - {c})])
    case EndFileChunks(h) => s.(running := s.running[h := s.running[h].(endTime := Some(s.now))])
    case WriteSnapshot(h, refs) =>
      s.(snapshots := s.snapshots + {Written(s.running[h], refs)}, running := s.running - {h})
    case AbortBackup(h) => s.(running := s.running - {h})
    case ListSnapshots => s.(pruner := Listed(s.snapshots, map h | h in s.running :: s.running[h].began))
    case DiscardCollection(n) => s.(collections := s.collections - {n})
    case BeginDelete(n) =>
      var k := s.collections[n];
      s.(pruner := Deleting(s.pruner.listing, s.pruner.inFlight, n,
                            NewChunks(k, extra, s.pruner.listing), k.fossils))
    case ProcessFossil(c) =>
      var f := Files(s.chunks, s.fossils);
      var g := if c in s.pruner.newChunks then ResurrectFile(f, c) else DeleteFossilFile(f, c);
      s.(chunks := g.chunks, fossils := g.fossils, pruner := s.pruner.(toProcess := s.pruner.toProcess - {c}))
    case FinishDelete =>
      s.(collections := s.collections - {s.pruner.number}, pruner := Listed(s.pruner.listing, s.pruner.inFlight))
    case BeginCollect(flagged) =>
      s.(pruner := Collecting(s.pruner.listing, flagged,
                              Referenced(flagged) - Referenced(s.pruner.listing - flagged), {}))
    case Fossilize(c) =>
      var g := FossilizeFile(Files(s.chunks, s.fossils), c);
      s.(chunks := g.chunks, fossils := g.fossils,
         pruner := s.pruner.(targets := s.pruner.targets - {c}, collected := s.pruner.collected + {c}))
    case SaveCollection(n) =>
      var k := Collection(s.now, LastRevisions(s.pruner.listing), Names(s.pruner.flagged),
                          s.pruner.collected);
      s.(collections := if k.fossils == {} then s.collections else s.collections[n := k],
         pruner := Removing(s.pruner.flagged))
    case RemoveSnapshot(t) =>
      s.(snapshots := s.snapshots - {t}, pruner := Removing(s.pruner.toRemove - {t}))
    case StopPruner => s.(pruner := Idle)
  }

  /** The snapshot file a finished backup writes; its end time was taken before its metadata was uploaded. */
  function Written(b: Backup, refs: set<ChunkId>): Snapshot
    requires b.endTime.Some?
  {
    Snapshot(b.id, b.base + 1, b.endTime.value, refs)
  }

  // ------------------------------------------------------------------ assumptions on the environment

  /**
   No backup of a dormant host, or of a host without any snapshot, spans both the end of the
   collection step and the listing of the run that deletes its fossils.
   */
  ghost predicate NoSpanningBackup(s: State, a: Action) {
    a.BeginDelete? && s.pruner.Listed? && a.number in s.collections ==>
      forall h :: h in s.pruner.inFlight &&
                  (Dormant(s.pruner.listing, h, s.now) || !HasHost(s.pruner.listing, h)) ==>
        s.pruner.inFlight[h] > s.collections[a.number].endTime
  }

  /**
   Renaming `c` again does not matter to a saved collection: every backup begun since that holds `c` has it from the
   latest revision of its id, and no snapshot references `c` behind a settled one that does not.
   */
  ghost predicate HarmlessFor(s: State, k: Collection, c: ChunkId, extra: nat) {
    (forall h :: h in s.running && s.running[h].began > k.endTime && c in s.running[h].held ==>
      InLatest(s.snapshots, s.running[h].id, c)) &&
    (forall f, t :: f in s.snapshots && t in s.snapshots && f.id == t.id && f.revision < t.revision &&
                    Settles(k, extra, f) && c in t.chunks ==>
      c in f.chunks)
  }

  /** A file that is a chunk again is renamed only if that does not matter to any saved collection that records it. */
  ghost predicate Harmless(s: State, a: Action, extra: nat) {
    a.Fossilize? && a.chunk in s.chunks ==>
      forall n :: n in s.collections && a.chunk in s.collections[n].fossils ==>
        HarmlessFor(s, s.collections[n], a.chunk, extra)
  }

  /** What a pruner could check itself: the file is not renamed while a saved collection still records it. */
  ghost predicate NotRecorded(s: State, a: Action) {
    a.Fossilize? && a.chunk in s.chunks ==>
      forall n :: n in s.collections ==> a.chunk !in s.collections[n].fossils
  }

  /** A healthy storage with nothing running. */
  ghost predicate Init(s: State) {
    s.running == map[] && s.collections == map[] && s.pruner.Idle? && WellNamed(s) && Safe(s)
  }

  /** The guarantee: whatever a completed, undeleted snapshot references can be downloaded. */
  ghost predicate Safe(s: State) {
    forall t :: t in s.snapshots ==> t.chunks <= s.chunks + s.fossils
  }

  ghost predicate Legal(s: State, run: seq<Action>, extra: nat)
    decreases |run|
  {
    run == [] || (Enabled(s, run[0], extra) && NoSpanningBackup(s, run[0]) &&
                  Legal(Next(s, run[0], extra), run[1..], extra))
  }

  ghost predicate AlwaysHarmless(s: State, run: seq<Action>, extra: nat)
    requires Legal(s, run, extra)
    decreases |run|
  {
    run == [] || (Harmless(s, run[0], extra) && AlwaysHarmless(Next(s, run[0], extra), run[1..], extra))
  }

  ghost predicate NeverRecorded(s: State, run: seq<Action>, extra: nat)
    requires Legal(s, run, extra)
    decreases |run|
  {
    run == [] || (NotRecorded(s, run[0]) && NeverRecorded(Next(s, run[0], extra), run[1..], extra))
  }

  ghost function Exec(s: State, run: seq<Action>, extra: nat): State
    requires Legal(s, run, extra)
    decreases |run|
  {
    if run == [] then s else Exec(Next(s, run[0], extra), run[1..], extra)
  }

  // ------------------------------------------------------------------ the invariant

  ghost predicate WellNamed(s: State) {
    (forall t :: t in s.snapshots ==> t.revision > 0 && t.endTime <= s.now) &&
    (forall t, u :: t in s.snapshots && u in s.snapshots && t.id == u.id && t.revision == u.revision ==> t == u)
  }

  /** One backup per host; its base is still the latest revision of its id. */
  ghost predicate BackupOk(s: State, h: Host, b: Backup) {
    HostOf(b.id) == h && b.began <= s.now &&
    (b.endTime.Some? ==> b.began <= b.endTime.value <= s.now) &&
    (b.held <= s.chunks + s.fossils) &&
    LatestRevision(s.snapshots, b.id, b.base) &&
    forall t :: t in s.snapshots && HostOf(t.id) == h ==> t.endTime <= b.began
  }

  ghost predicate BackupsOk(s: State) {
    forall h :: h in s.running ==> BackupOk(s, h, s.running[h])
  }

  /** `c` is referenced by the latest revision of `id`. */
  ghost predicate InLatest(snapshots: set<Snapshot>, id: string, c: ChunkId) {
    exists t :: IsLatest(snapshots, t) && t.id == id && c in t.chunks
  }

  /** Snapshots known to the collection reference its fossils only if the collection deletes them. */
  ghost predicate OldOk(s: State, k: Collection) {
    forall t, c :: t in s.snapshots && !IsNew(k, t) && c in t.chunks && c in k.fossils ==> t.Name() in k.deleted
  }

  /** Ids known to the collection never fall back to an earlier revision. */
  ghost predicate ReachOk(s: State, k: Collection) {
    forall id :: k.Last(id) > 0 ==> exists t :: t in s.snapshots && t.id == id && t.revision >= k.Last(id)
  }

  /** A backup begun after the collection holds a fossil only as a re-uploaded chunk or through its cache. */
  ghost predicate LateOk(s: State, k: Collection) {
    forall h, c :: h in s.running && s.running[h].began > k.endTime && c in s.running[h].held && c in k.fossils ==>
      c in s.chunks || InLatest(s.snapshots, s.running[h].id, c)
  }

  /** Whatever follows a settling snapshot of its id references a fossil only if that snapshot does. */
  ghost predicate ChainOk(s: State, k: Collection, extra: nat) {
    forall f, t, c :: f in s.snapshots && t in s.snapshots && f.id == t.id && f.revision < t.revision &&
                      Settles(k, extra, f) && c in t.chunks && c in k.fossils ==>
      c in s.chunks || c in f.chunks
  }

  ghost predicate CollectionOk(s: State, k: Collection, extra: nat) {
    k.endTime <= s.now && OldOk(s, k) && ReachOk(s, k) && LateOk(s, k) && ChainOk(s, k, extra)
  }

  ghost predicate CollectionsOk(s: State, extra: nat) {
    forall n :: n in s.collections ==> CollectionOk(s, s.collections[n], extra)
  }

  /** Deleting the fossil of `c` harms nobody: whoever references `c` finds it as a chunk. */
  ghost predicate Unneeded(s: State, c: ChunkId) {
    c in s.chunks ||
    ((forall t :: t in s.snapshots ==> c !in t.chunks) && (forall h :: h in s.running ==> c !in s.running[h].held))
  }

  ghost predicate InFlightOk(k: Collection, extra: nat, listing: set<Snapshot>, inFlight: map<Host, int>) {
    forall h :: h in inFlight ==> HostSettled(k, extra, listing, h) || inFlight[h] > k.endTime
  }

  /** What the listing says about a collection stays true however long the pruner takes afterwards. */
  ghost predicate DecisionOk(s: State, k: Collection, extra: nat, listing: set<Snapshot>, inFlight: map<Host, int>) {
    !HasGhost(k, listing) && InFlightOk(k, extra, listing, inFlight) ==>
      forall c :: c in k.fossils && c !in NewChunks(k, extra, listing) ==> Unneeded(s, c)
  }

  ghost predicate DecisionsOk(s: State, extra: nat, listing: set<Snapshot>, inFlight: map<Host, int>) {
    forall n :: n in s.collections ==> DecisionOk(s, s.collections[n], extra, listing, inFlight)
  }

  /** Whatever was written after the listing has a higher revision. */
  ghost predicate ListingOk(s: State, listing: set<Snapshot>) {
    listing <= s.snapshots &&
    forall t, u :: t in s.snapshots && t !in listing && u in listing && u.id == t.id ==> u.revision < t.revision
  }

  ghost predicate Superseded(t: Snapshot, ts: set<Snapshot>) {
    exists u :: u in ts && u.id == t.id && t.revision < u.revision
  }

  ghost predicate PrunerOk(s: State, extra: nat) {
    match s.pruner
    case Idle => true
    case Listed(listing, inFlight) => ListingOk(s, listing) && DecisionsOk(s, extra, listing, inFlight)
    case Deleting(listing, inFlight, n, newChunks, toProcess) =>
      ListingOk(s, listing) && DecisionsOk(s, extra, listing, inFlight) &&
      forall c :: c in toProcess && c !in newChunks ==> Unneeded(s, c)
    case Collecting(listing, flagged, targets, collected) =>
      ListingOk(s, listing) && flagged <= listing &&
      (forall t :: t in flagged ==> Superseded(t, listing - flagged)) &&
      (forall t :: t in listing && t !in flagged ==> t.chunks !! targets + collected)
    case Removing(toRemove) =>
      forall t :: t in toRemove ==> Superseded(t, s.snapshots - toRemove)
  }

  ghost predicate Inv(s: State, extra: nat) {
    WellNamed(s) && Safe(s) && BackupsOk(s) && CollectionsOk(s, extra) && PrunerOk(s, extra)
  }
}
