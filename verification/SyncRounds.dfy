/**
 * What carrying out an action does to this computer, the server and the base,
 * in a pair of files in existing folders that nobody changes meanwhile.
 */
module SyncRounds {
  import opened Common
  import opened Paths
  import opened SyncTypes
  import opened Planner

  datatype World = World(local: map<Rel, LocalFile>, remote: map<Rel, Item>, base: map<Rel, BaseEntry>)

  /** What the disk and the server pick: a free name for a copy, a new id and revision, the stat of a written file. */
  datatype Choice = Choice(copy: Rel, id: string, rev: int, size: int, mtimeMs: int, ino: string)

  function Here(w: World, key: Rel): Option<LocalFile> {
    if key in w.local then Some(w.local[key]) else None
  }

  function There(w: World, key: Rel): Option<Item> {
    if key in w.remote then Some(w.remote[key]) else None
  }

  function Previous(w: World, key: Rel): Option<BaseEntry> {
    if key in w.base then Some(w.base[key]) else None
  }

  // ------------------------------------------------------------------------ the handlers

  /** `putBase`. */
  function Saved(rel: Rel, local: LocalFile, remote: Item, checksum: Option<string>): BaseEntry {
    BaseEntry(rel, remote.kind, remote.id, remote.rev, checksum, local.size, local.mtimeMs, local.ino)
  }

  /** `deleteBaseTree`. */
  function WithoutTree(base: map<Rel, BaseEntry>, rel: Rel): map<Rel, BaseEntry> {
    map key | key in base && !Inside(rel, key) :: base[key]
  }

  /** A handler that goes through; those for folders and moves change nothing here. */
  function Perform(w: World, a: Action, c: Choice): World {
    match a
    case Link(rel, local, remote) => w.(base := w.base[rel := Saved(rel, local, remote, remote.checksum)])
    case Forget(rel) => w.(base := w.base - {rel})
    case ConflictCopy(rel, local, _, _) => w.(local := (w.local - {rel})[c.copy := local.(rel := c.copy)])
    case Download(rel, remote, _) =>
      var written := LocalFile(rel, File, c.size, c.mtimeMs, c.ino, remote.checksum);
      w.(local := w.local[rel := written], base := w.base[rel := Saved(rel, written, remote, remote.checksum)])
    case Upload(rel, local, _) =>
      var item := Item(c.id, File, c.rev, local.checksum);
      w.(remote := w.remote[rel := item], base := w.base[rel := Saved(rel, local, item, local.checksum)])
    case TrashLocal(rel, _) => w.(local := w.local - {rel}, base := WithoutTree(w.base, rel))
    case TrashRemote(rel, _) => w.(remote := w.remote - {rel}, base := WithoutTree(w.base, rel))
    case _ => w
  }

  /** A path that is trashed is forgotten with all there was in it, and nothing else is. */
  lemma TrashForgetsTree(w: World, a: Action, c: Choice, key: Rel)
    requires a.TrashLocal? || a.TrashRemote?
    ensures Previous(Perform(w, a, c), key) ==
            if exists below :: key == a.rel + below then None else Previous(w, key)
  {
    if Inside(a.rel, key) { assert key == a.rel + key[|a.rel|..]; }
    if below :| key == a.rel + below { assert Inside(a.rel, key); }
  }

  /** The action is about what the two sides hold at its path. */
  predicate AboutNow(w: World, a: Action) {
    match a
    case Link(rel, local, remote) =>
      Here(w, rel) == Some(local) && There(w, rel) == Some(remote) && local.kind == remote.kind
    case Download(rel, remote, _) => There(w, rel) == Some(remote) && remote.kind == File
    case Upload(rel, local, _) => Here(w, rel) == Some(local) && local.kind == File
    case _ => false
  }

  /**
   * What a link, a download or an upload saves in the base leaves nothing to do
   * for the path, in any mode, for folders too, and whether or not the server
   * has a checksum.
   */
  lemma HandledSettles(v: View, dirty: Dirty, w: World, a: Action, c: Choice)
    requires AboutNow(w, a)
    ensures var u := Perform(w, a, c);
            Decide(v, Cell(a.rel, Here(u, a.rel), There(u, a.rel), Previous(u, a.rel)), dirty) == NOTHING
  {
    hide WithoutTree, PlanFolder, FileOnlyHere, FileOnlyThere;
    if a.Link? && a.local.kind == Folder { LinkedFolderSettles(v, dirty, w, a, c); }
  }

  lemma LinkedFolderSettles(v: View, dirty: Dirty, w: World, a: Action, c: Choice)
    requires AboutNow(w, a) && a.Link? && a.local.kind == Folder
    ensures var u := Perform(w, a, c);
            Decide(v, Cell(a.rel, Here(u, a.rel), There(u, a.rel), Previous(u, a.rel)), dirty) == NOTHING
  {
  }

  // -------------------------------------------------------------------------- the setting

  /** A folder both sides have and the base knows as such. */
  predicate FolderInSync(w: World, key: Rel) {
    && key in w.local && key in w.remote && key in w.base
    && w.local[key].kind == Folder && w.remote[key].kind == Folder && w.base[key].kind == Folder
    && w.base[key].remoteId == w.remote[key].id
    && !(w.base[key].ino == UNKNOWN_INO && w.local[key].ino != UNKNOWN_INO)
  }

  /** Wherever the path exists it is a file, with its checksum known. */
  predicate FileAt(w: World, key: Rel) {
    && (key in w.local ==> w.local[key].kind == File && w.local[key].checksum.Some?)
    && (key in w.remote ==> w.remote[key].kind == File && w.remote[key].checksum.Some?)
    && (key in w.base ==> w.base[key].kind == File)
  }

  predicate Known(w: World, key: Rel) {
    key in w.local || key in w.remote || key in w.base
  }

  predicate PathOk(w: World, key: Rel) {
    && (Known(w, key) ==> key != [] && (FolderInSync(w, key) || FileAt(w, key)))
    && (Known(w, key) && |key| > 1 ==> FolderInSync(w, Parent(key)))
    && (key in w.local ==> w.local[key].rel == key)
    && (key in w.base ==> w.base[key].rel == key)
    // Equal stat means equal contents.
    && (key in w.local && key in w.base && SameStat(w.local[key], w.base[key]) && w.local[key].kind == File ==>
          w.local[key].checksum == w.base[key].checksum)
  }

  /** Server ids stay with their paths. */
  predicate IdOk(w: World, p: Rel, q: Rel) {
    && (p in w.remote && q in w.remote && w.remote[p].id == w.remote[q].id ==> p == q)
    && (p in w.remote && q in w.base && w.remote[p].id == w.base[q].remoteId ==> p == q)
  }

  /** The server's new version of a path waits to be downloaded. */
  predicate Awaits(w: World, key: Rel) {
    key !in w.local && key in w.remote && key in w.base && !UnchangedThere(w.remote[key], Some(w.base[key]))
  }

  /**
   * Inodes are of one path here, and of no other path's base entry but for the
   * copy of a file that was set aside.
   */
  predicate InoOk(w: World, p: Rel, q: Rel) {
    p in w.local && p != q && w.local[p].ino != UNKNOWN_INO ==>
      && (q in w.local ==> w.local[p].ino != w.local[q].ino)
      && (q in w.base && w.local[p].ino == w.base[q].ino ==> Awaits(w, q) && !SameStat(w.local[p], w.base[q]))
  }

  ghost predicate Ok(w: World) {
    && (forall key :: PathOk(w, key))
    && (forall p, q :: IdOk(w, p, q))
    && (forall p, q :: InoOk(w, p, q))
  }

  /** The names and ids picked are free, and a written file has an inode of its own. */
  ghost predicate Fresh(w: World, rel: Rel, c: Choice) {
    && rel != [] && c.copy != [] && Parent(c.copy) == Parent(rel) && !Known(w, c.copy)
    && (forall p :: p in w.remote && p != rel ==> w.remote[p].id != c.id)
    && (forall p :: p in w.base && p != rel ==> w.base[p].remoteId != c.id)
    && (c.ino != UNKNOWN_INO ==>
          && (forall p :: p in w.local ==> w.local[p].ino != c.ino)
          && (forall p :: p in w.base ==> w.base[p].ino != c.ino))
  }

  // ---------------------------------------------------------------- the two-way rule

  /** What to do with a file, told from its three versions alone. */
  function Answer(w: World, key: Rel): Option<Action> {
    var previous := Previous(w, key);
    if key in w.local && key in w.remote then
      var here, there := w.local[key], w.remote[key];
      if here.kind == Folder then None
      else if here.checksum == there.checksum then
        if previous.Some? && previous.value.remoteId == there.id && previous.value.rev == there.rev
           && SameStat(here, previous.value)
        then None else Some(Link(key, here, there))
      else if ChangedHere(w, key) && ChangedThere(w, key) then Some(ConflictCopy(key, here, false, None))
      else if ChangedHere(w, key) then Some(Upload(key, here, Some(there)))
      else if ChangedThere(w, key) then Some(Download(key, there, Some(here)))
      else None
    else if key in w.local then
      Some(if UnchangedHere(w.local[key], previous) then TrashLocal(key, w.local[key])
           else Upload(key, w.local[key], None))
    else if key in w.remote then
      Some(if UnchangedThere(w.remote[key], previous) then TrashRemote(key, w.remote[key])
           else Download(key, w.remote[key], None))
    else if previous.Some? then Some(Forget(key)) else None
  }

  /** The local version differs from the base. */
  predicate ChangedHere(w: World, key: Rel) {
    key in w.local && (key in w.base ==> w.local[key].checksum != w.base[key].checksum)
  }

  /** The server's version differs from the base. */
  predicate ChangedThere(w: World, key: Rel) {
    key in w.remote && (key in w.base ==>
                          w.base[key].remoteId != w.remote[key].id || w.remote[key].checksum != w.base[key].checksum)
  }

  /** How many rounds a path still needs: none, one, or a second one after a copy is set aside. */
  function Rank(w: World, key: Rel): nat {
    match Answer(w, key)
    case None => 0
    case Some(a) => if a.ConflictCopy? then 2 else 1
  }

  predicate SameCell(w: World, u: World, key: Rel) {
    Here(w, key) == Here(u, key) && There(w, key) == There(u, key) && Previous(w, key) == Previous(u, key)
  }
}
