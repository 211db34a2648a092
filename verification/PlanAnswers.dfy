/**
 * When exactly a plan is held, and which action it holds for a path: told from
 * the lists the planner is given, action by action, in every mode.
 */
module PlanAnswers {
  import opened Common
  import opened Paths
  import opened SyncTypes
  import opened Planner
  import opened PlanSafety
  import opened PlanDiscipline
  import opened PlanMeaning

  // ------------------------------------------------------------------------------ holds

  function FilesIn(base: seq<BaseEntry>): set<nat> {
    set i | 0 <= i < |base| && base[i].kind == File
  }

  /** At least ten files have been synced. */
  predicate ManyFiles(base: seq<BaseEntry>) {
    |FilesIn(base)| >= 10
  }

  lemma {:induction false} CountsFiles(base: seq<BaseEntry>)
    ensures BaseFiles(base) == |FilesIn(base)|
  {
    if base != [] {
      var n := |base| - 1;
      CountsFiles(base[..n]);
      assert FilesIn(base) == FilesIn(base[..n]) + if base[n].kind == File then {n} else {};
    }
  }

  /** A side that has lost everything holds the plan back, and a plan held back does nothing. */
  lemma HoldsExactly(input: PlanInput)
    ensures var lost := !input.allowEmptied && ManyFiles(input.base);
            var here := lost && input.mode == TwoWay && input.local == [];
            && (PlanOf(input).hold == Some(Local) <==> here)
            && (PlanOf(input).hold == Some(Server) <==>
                  !here && lost && input.mode != UploadOnly && input.remote == [])
            && (PlanOf(input).hold.Some? ==> PlanOf(input).actions == [] && PlanOf(input).needsHash == [])
  {
    CountsFiles(input.base);
    hide ViewOf, MovesOf, DrawnUp, PassOf;
  }

  // ------------------------------------------------------------------- what is there to see

  /** The server has the item, at whatever path, or sync leaves it alone there. */
  ghost predicate OnServerStill(input: PlanInput, id: string) {
    || (exists x <- input.remote :: x.item.id == id)
    || (exists x <- input.skipped :: x.item.id == id)
    || (exists e <- input.excluded :: e.remoteId == Some(id))
  }

  /** Something new here has the inode, or something sync leaves alone. */
  ghost predicate HereStill(input: PlanInput, ino: string) {
    && ino != "0"
    && (|| (exists x <- input.local :: x.ino == ino && forall b <- input.base :: b.rel != x.rel)
        || (exists e <- input.excluded :: e.ino == Some(ino)))
  }

  predicate Untouched(here: LocalFile, known: BaseEntry) {
    here.size == known.size && here.mtimeMs == known.mtimeMs && here.ino == known.ino
  }

  predicate SameContents(there: Item, known: BaseEntry) {
    (there.checksum.Some? && there.checksum == known.checksum) || (there.checksum.None? && there.rev == known.rev)
  }

  /** Nothing inside the folder is new, changed or left alone. */
  ghost predicate NothingNewHere(input: PlanInput, v: View, top: Rel) {
    && (forall key <- v.local | StrictlyInside(top, key) ::
          && key in v.base && v.local[key].kind == v.base[key].kind
          && (v.local[key].kind == File ==> Untouched(v.local[key], v.base[key])))
    && (forall e <- input.excluded :: e.side == Local ==> !StrictlyInside(top, e.rel))
  }

  ghost predicate NothingNewThere(input: PlanInput, v: View, top: Rel) {
    && (forall key <- v.remote | StrictlyInside(top, key) ::
          && key in v.base && v.remote[key].item.id == v.base[key].remoteId
          && (v.remote[key].item.kind == File ==> SameContents(v.remote[key].item, v.base[key])))
    && (forall e <- input.excluded :: e.side == Server ==> !StrictlyInside(top, e.rel))
    && (forall x <- input.skipped :: !StrictlyInside(top, x.rel))
  }

  /** Whether what the base knows at a path is still about, and whether the folder is as it was. */
  datatype Facts = Facts(onServer: bool, here: bool, quietHere: bool, quietThere: bool)

  ghost function FactsAt(input: PlanInput, key: Rel): Facts {
    var v := ViewOf(input);
    Facts(key in v.base && OnServerStill(input, v.base[key].remoteId),
          key in v.base && HereStill(input, v.base[key].ino),
          NothingNewHere(input, v, key), NothingNewThere(input, v, key))
  }

  /** What the planner's own lookups say is the same. */
  ghost predicate Reads(v: View, dirty: Dirty, key: Rel, f: Facts) {
    && (key in v.base ==> (StillOnServer(v, v.base[key]) <==> f.onServer))
    && (key in v.base ==> (StillHere(v, v.base[key]) <==> f.here))
    && (key in dirty.local <==> !f.quietHere)
    && (key in dirty.server <==> !f.quietThere)
  }

  lemma {:induction false} IdsOf(xs: seq<Scoped>, id: string)
    ensures id in IdMap(xs) <==> exists x <- xs :: x.item.id == id
  {
    if xs != [] { IdsOf(xs[..|xs| - 1], id); }
  }

  lemma {:induction false} InosOf(xs: seq<LocalFile>, base: map<Rel, BaseEntry>, ino: string)
    ensures ino in InoMap(xs, base) <==> ino != "0" && exists x <- xs :: x.ino == ino && x.rel !in base
  {
    if xs != [] { InosOf(xs[..|xs| - 1], base, ino); }
  }

  lemma ExcludedAre(input: PlanInput)
    ensures forall e <- AllExcluded(input) ::
              e in input.excluded || exists x <- input.skipped :: e == Excluded(Server, x.rel, None, Some(x.item.id))
    ensures forall e <- input.excluded :: e in AllExcluded(input)
    ensures forall x <- input.skipped :: Excluded(Server, x.rel, None, Some(x.item.id)) in AllExcluded(input)
  {
    var n := |input.excluded|;
    forall x | x in input.skipped
      ensures Excluded(Server, x.rel, None, Some(x.item.id)) in AllExcluded(input)
    {
      var i :| 0 <= i < |input.skipped| && input.skipped[i] == x;
      assert AllExcluded(input)[n + i] == Excluded(Server, x.rel, None, Some(x.item.id));
    }
  }

  lemma StillMeans(input: PlanInput, key: Rel)
    requires key in ViewOf(input).base
    ensures var v := ViewOf(input);
            && (StillOnServer(v, v.base[key]) <==> OnServerStill(input, v.base[key].remoteId))
            && (StillHere(v, v.base[key]) <==> HereStill(input, v.base[key].ino))
  {
    var entry := ViewOf(input).base[key];
    IdsOf(input.remote, entry.remoteId);
    InosOf(input.local, BaseMap(input.base), entry.ino);
    BaseMapAt(input.base);
    ExcludedAre(input);
    hide AllExcluded, IdMap, InoMap, BaseMap, LocalMap, RemoteMap;
  }

  lemma DirtyMeans(input: PlanInput, key: Rel)
    requires key != []
    ensures var v := ViewOf(input);
            && (key in DirtySides(v).local <==> !NothingNewHere(input, v, key))
            && (key in DirtySides(v).server <==> !NothingNewThere(input, v, key))
  {
    DirtyHere(input, key);
    DirtyThere(input, key);
    hide ViewOf, DirtySides, NothingNewHere, NothingNewThere;
  }

  lemma DirtyHere(input: PlanInput, key: Rel)
    requires key != []
    ensures key in DirtySides(ViewOf(input)).local <==> !NothingNewHere(input, ViewOf(input), key)
  {
    var v, excluded := ViewOf(input), AllExcluded(input);
    HiddenUnder(input);
    ExcludedAre(input);
    AboveOne((set k | k in v.local && !CleanHere(v, k)), key);
    AboveOne(HiddenOn(excluded, Local), key);
    hide ViewOf, AllExcluded, StrictlyInside, ProperAncestors, CleanThere;
  }

  lemma DirtyThere(input: PlanInput, key: Rel)
    requires key != []
    ensures key in DirtySides(ViewOf(input)).server <==> !NothingNewThere(input, ViewOf(input), key)
  {
    var v, excluded := ViewOf(input), AllExcluded(input);
    HiddenUnder(input);
    ExcludedAre(input);
    AboveOne((set k | k in v.remote && !CleanThere(v, k)), key);
    AboveOne(HiddenOn(excluded, Server), key);
    hide ViewOf, AllExcluded, StrictlyInside, ProperAncestors, CleanHere;
  }

  lemma AboveOne(keys: set<Rel>, top: Rel)
    requires top != []
    ensures top in ProperAncestors(keys) <==> exists key <- keys :: StrictlyInside(top, key)
  {
    forall key | key in keys && StrictlyInside(top, key)
      ensures top in ProperAncestors(keys)
    {
      NotAbove(keys, top, key);
    }
    if top in ProperAncestors(keys) {
      var key, n :| key in keys && 0 < n < |key| && key[..n] == top;
      assert StrictlyInside(top, key);
    }
  }

  // ------------------------------------------------------------------------- the lookups

  // Of entries with one key, the last one counts.

  lemma {:induction false} LastLocal(xs: seq<LocalFile>, i: nat)
    requires i < |xs| && forall j | i < j < |xs| :: xs[j].rel != xs[i].rel
    ensures xs[i].rel in LocalMap(xs) && LocalMap(xs)[xs[i].rel] == xs[i]
    decreases |xs|
  {
    if i < |xs| - 1 { LastLocal(xs[..|xs| - 1], i); }
  }

  lemma {:induction false} LastRemote(xs: seq<Scoped>, i: nat)
    requires i < |xs| && forall j | i < j < |xs| :: xs[j].rel != xs[i].rel
    ensures xs[i].rel in RemoteMap(xs) && RemoteMap(xs)[xs[i].rel] == xs[i]
    decreases |xs|
  {
    if i < |xs| - 1 { LastRemote(xs[..|xs| - 1], i); }
  }

  lemma {:induction false} LastBase(xs: seq<BaseEntry>, i: nat)
    requires i < |xs| && forall j | i < j < |xs| :: xs[j].rel != xs[i].rel
    ensures xs[i].rel in BaseMap(xs) && BaseMap(xs)[xs[i].rel] == xs[i]
    decreases |xs|
  {
    if i < |xs| - 1 { LastBase(xs[..|xs| - 1], i); }
  }

  lemma {:induction false} LastId(xs: seq<Scoped>, i: nat)
    requires i < |xs| && forall j | i < j < |xs| :: xs[j].item.id != xs[i].item.id
    ensures xs[i].item.id in IdMap(xs) && IdMap(xs)[xs[i].item.id] == xs[i]
    decreases |xs|
  {
    if i < |xs| - 1 { LastId(xs[..|xs| - 1], i); }
  }

  lemma {:induction false} LastIno(xs: seq<LocalFile>, i: nat, base: map<Rel, BaseEntry>)
    requires i < |xs| && forall j | i < j < |xs| :: xs[j].rel in base || xs[j].ino != xs[i].ino
    requires xs[i].ino != "0" && xs[i].rel !in base
    ensures xs[i].ino in InoMap(xs, base) && InoMap(xs, base)[xs[i].ino] == xs[i]
    decreases |xs|
  {
    if i < |xs| - 1 { LastIno(xs[..|xs| - 1], i, base); }
  }

  /** The planner's lookups hold the last entry there is for a path, an id or a new inode. */
  lemma LookupsAreLast(input: PlanInput, i: nat)
    ensures var v, xs := ViewOf(input), input.local;
            i < |xs| && (forall j | i < j < |xs| :: xs[j].rel != xs[i].rel) ==>
              xs[i].rel in v.local && v.local[xs[i].rel] == xs[i]
    ensures var v, xs := ViewOf(input), input.local;
            i < |xs| && xs[i].ino != "0" && xs[i].rel !in v.base
            && (forall j | i < j < |xs| :: xs[j].rel in v.base || xs[j].ino != xs[i].ino) ==>
              xs[i].ino in v.localByIno && v.localByIno[xs[i].ino] == xs[i]
    ensures var v, xs := ViewOf(input), input.remote;
            i < |xs| && (forall j | i < j < |xs| :: xs[j].rel != xs[i].rel) ==>
              xs[i].rel in v.remote && v.remote[xs[i].rel] == xs[i]
    ensures var v, xs := ViewOf(input), input.remote;
            i < |xs| && (forall j | i < j < |xs| :: xs[j].item.id != xs[i].item.id) ==>
              xs[i].item.id in v.remoteById && v.remoteById[xs[i].item.id] == xs[i]
    ensures var v, xs := ViewOf(input), input.base;
            i < |xs| && (forall j | i < j < |xs| :: xs[j].rel != xs[i].rel) ==>
              xs[i].rel in v.base && v.base[xs[i].rel] == xs[i]
  {
    var l, r, b := input.local, input.remote, input.base;
    if i < |l| && forall j | i < j < |l| :: l[j].rel != l[i].rel { LastLocal(l, i); }
    if i < |l| && l[i].ino != "0" && l[i].rel !in BaseMap(b)
       && forall j | i < j < |l| :: l[j].rel in BaseMap(b) || l[j].ino != l[i].ino {
      LastIno(l, i, BaseMap(b));
    }
    if i < |r| && forall j | i < j < |r| :: r[j].rel != r[i].rel { LastRemote(r, i); }
    if i < |r| && forall j | i < j < |r| :: r[j].item.id != r[i].item.id { LastId(r, i); }
    if i < |b| && forall j | i < j < |b| :: b[j].rel != b[i].rel { LastBase(b, i); }
    hide LocalMap, RemoteMap, BaseMap, IdMap, InoMap, AllExcluded;
  }

  // --------------------------------------------------------------------- what each action is for

  predicate OnlyHere(v: View, key: Rel, kind: NodeType) {
    key in v.local && key !in v.remote && v.local[key].kind == kind
  }

  predicate OnlyThere(v: View, key: Rel, kind: NodeType) {
    key !in v.local && key in v.remote && v.remote[key].item.kind == kind
  }

  predicate BothAre(v: View, key: Rel, kind: NodeType) {
    key in v.local && key in v.remote && v.local[key].kind == v.remote[key].item.kind == kind
  }

  /** The base has no inode for the path, and now there is one. */
  predicate NewIno(v: View, key: Rel) {
    key in v.local && key in v.base && v.base[key].ino == "0" && v.local[key].ino != "0"
  }

  /** The local file is what both sides agreed on. */
  predicate KeptHere(v: View, key: Rel) {
    && key in v.local && key in v.base
    && (Untouched(v.local[key], v.base[key]) || (NewIno(v, key) && v.local[key].checksum == v.base[key].checksum))
  }

  predicate KeptThere(v: View, key: Rel) {
    && key in v.remote && key in v.base
    && v.base[key].remoteId == v.remote[key].item.id && SameContents(v.remote[key].item, v.base[key])
  }

  /** The decision has to wait for the file's checksum. */
  predicate Unread(v: View, key: Rel) {
    && key in v.local && v.local[key].kind == File && v.local[key].checksum.None?
    && (if key in v.remote
        then v.remote[key].item.kind == File && !(key in v.base && Untouched(v.local[key], v.base[key]))
        else NewIno(v, key))
  }

  /** Deleted on the server, and as it was here. */
  predicate GoneThere(v: View, key: Rel, f: Facts) {
    && key in v.base && !f.onServer && v.mode != UploadOnly
    && ((OnlyHere(v, key, Folder) && f.quietHere) || (OnlyHere(v, key, File) && KeptHere(v, key) && !Unread(v, key)))
  }

  /** Deleted here, and as it was on the server. */
  predicate GoneHere(v: View, key: Rel, f: Facts) {
    && key in v.base && !f.here && v.mode == TwoWay
    && ((OnlyThere(v, key, Folder) && f.quietThere) || (OnlyThere(v, key, File) && KeptThere(v, key)))
  }

  /** Known, and nothing to do for either side but to forget it. */
  predicate ToForget(v: View, key: Rel, f: Facts) {
    && key in v.base
    && (|| (key !in v.local && key !in v.remote)
        || (key !in v.local && key in v.remote && v.mode == UploadOnly)
        || (OnlyThere(v, key, File) && v.mode == TwoWay && KeptThere(v, key) && f.here)
        || (OnlyHere(v, key, Folder) && v.mode == DownloadOnly && !GoneThere(v, key, f))
        || (OnlyHere(v, key, File) && !Unread(v, key) &&
            (f.onServer || (v.mode == DownloadOnly && !KeptHere(v, key)))))
  }

  /** The checksum the local file is taken to have. */
  function Mine(v: View, key: Rel): Option<string>
    requires key in v.local
  {
    if key in v.base && Untouched(v.local[key], v.base[key]) then v.base[key].checksum else v.local[key].checksum
  }

  /** Both sides have the file, with contents known to differ. */
  predicate Differ(v: View, key: Rel) {
    BothAre(v, key, File) && !Unread(v, key) && Mine(v, key) != v.remote[key].item.checksum
  }

  predicate ChangedHere(v: View, key: Rel)
    requires key in v.local
  {
    key !in v.base || Mine(v, key) != v.base[key].checksum
  }

  /** The path needs nothing but its entry in the base. */
  predicate ToLink(v: View, key: Rel) {
    || (BothAre(v, key, Folder) && (key !in v.base || v.base[key].remoteId != v.remote[key].item.id || NewIno(v, key)))
    || (BothAre(v, key, File) && !Unread(v, key) && !Differ(v, key)
        && !(key in v.base && v.base[key].remoteId == v.remote[key].item.id && v.base[key].rev == v.remote[key].item.rev
             && Untouched(v.local[key], v.base[key])))
  }

  /** The local file is put aside, on this computer only or for the server too. */
  predicate ToCopy(v: View, key: Rel, localOnly: bool, unverified: Option<Unverified>) {
    || (key in v.local && key in v.remote && v.local[key].kind != v.remote[key].item.kind && v.mode != UploadOnly
        && localOnly == (v.mode == DownloadOnly) && unverified.None?)
    || (Differ(v, key) && ChangedHere(v, key) && !KeptThere(v, key) && v.mode != UploadOnly
        && localOnly == (v.mode == DownloadOnly)
        && unverified == if v.remote[key].item.checksum.None?
                         then Some(Unverified(v.remote[key].item, Mine(v, key))) else None)
    || (Differ(v, key) && ChangedHere(v, key) && KeptThere(v, key) && v.mode == DownloadOnly
        && localOnly && unverified.None?)
  }

  /** The one action that the path asks for. */
  predicate Asked(v: View, key: Rel, f: Facts, a: Action) {
    match a
    case TrashLocal(rel, local) => rel == key && GoneThere(v, key, f) && local == v.local[key]
    case TrashRemote(rel, remote) => rel == key && GoneHere(v, key, f) && remote == v.remote[key].item
    case Mkdir(rel, remote) =>
      && rel == key && OnlyThere(v, key, Folder) && v.mode != UploadOnly && !GoneHere(v, key, f)
      && remote == v.remote[key].item
    case CreateRemoteFolder(rel, local) =>
      && rel == key && OnlyHere(v, key, Folder) && v.mode != DownloadOnly && !GoneThere(v, key, f)
      && local == v.local[key]
    case Forget(rel) => rel == key && ToForget(v, key, f)
    case Download(rel, remote, None) =>
      && rel == key && OnlyThere(v, key, File) && remote == v.remote[key].item
      && (v.mode == DownloadOnly || (v.mode == TwoWay && !KeptThere(v, key)))
    case Download(rel, remote, Some(local)) =>
      && rel == key && Differ(v, key) && !ChangedHere(v, key) && !KeptThere(v, key) && v.mode != UploadOnly
      && remote == v.remote[key].item && local == v.local[key]
    case Upload(rel, local, None) =>
      && rel == key && OnlyHere(v, key, File) && !Unread(v, key) && !f.onServer && local == v.local[key]
      && (v.mode == UploadOnly || (v.mode == TwoWay && !KeptHere(v, key)))
    case Upload(rel, local, Some(remote)) =>
      && rel == key && Differ(v, key) && ChangedHere(v, key) && KeptThere(v, key) && v.mode != DownloadOnly
      && local == v.local[key] && remote == v.remote[key].item
    case KeepMine(rel, local, remote) =>
      && rel == key && Differ(v, key) && ChangedHere(v, key) && !KeptThere(v, key) && v.mode == UploadOnly
      && local == v.local[key] && remote == v.remote[key].item
    case ConflictCopy(rel, local, localOnly, unverified) =>
      rel == key && ToCopy(v, key, localOnly, unverified) && local == v.local[key]
    case Link(rel, local, remote) =>
      rel == key && ToLink(v, key) && local == v.local[key] && remote == v.remote[key].item
    case _ => false
  }

  lemma BothDecided(v: View, key: Rel, dirty: Dirty, f: Facts, a: Action)
    requires Reads(v, dirty, key, f) && key in v.local && key in v.remote
    ensures Decide(v, CellAt(v, key), dirty).action == Some(a) <==> Asked(v, key, f, a)
  {
    hide FileOnlyHere, FileOnlyThere, FolderOnlyHere, FolderOnlyThere, StillOnServer, StillHere, Reads;
  }

  lemma OneFolderDecided(v: View, key: Rel, dirty: Dirty, f: Facts, a: Action)
    requires Reads(v, dirty, key, f) && (!f.onServer || key in v.base)
    requires !(key in v.local && key in v.remote) && KindOf(CellAt(v, key)) == Folder
    ensures Decide(v, CellAt(v, key), dirty).action == Some(a) <==> Asked(v, key, f, a)
  {
    hide FileOnlyHere, FileOnlyThere, FileOnBothSides, StillOnServer, StillHere;
  }

  lemma OneFileDecided(v: View, key: Rel, dirty: Dirty, f: Facts, a: Action)
    requires Reads(v, dirty, key, f) && (!f.onServer || key in v.base)
    requires !(key in v.local && key in v.remote) && KindOf(CellAt(v, key)) != Folder
    ensures Decide(v, CellAt(v, key), dirty).action == Some(a) <==> Asked(v, key, f, a)
  {
    hide PlanFolder, FileOnBothSides, StillOnServer, StillHere;
  }

  lemma DecidesExactly(v: View, key: Rel, dirty: Dirty, f: Facts, a: Action)
    requires Reads(v, dirty, key, f) && (!f.onServer || key in v.base)
    ensures Decide(v, CellAt(v, key), dirty).action == Some(a) <==> Asked(v, key, f, a)
  {
    if key in v.local && key in v.remote {
      BothDecided(v, key, dirty, f, a);
    } else if KindOf(CellAt(v, key)) == Folder {
      OneFolderDecided(v, key, dirty, f, a);
    } else {
      OneFileDecided(v, key, dirty, f, a);
    }
    hide Decide, Asked;
  }

  lemma ReadsExactly(v: View, key: Rel, dirty: Dirty)
    ensures Decide(v, CellAt(v, key), dirty).hash == if Unread(v, key) then Some(v.local[key]) else None
  {
  }

  // ---------------------------------------------------------------------------- the whole plan

  /** Sync leaves the path alone, with a folder above it or by itself. */
  ghost predicate LeftAlone(input: PlanInput, key: Rel) {
    || (exists e <- input.excluded :: e.rel != [] && Inside(e.rel, key))
    || (exists x <- input.skipped :: x.rel != [] && Inside(x.rel, key))
  }

  /** A synced folder, or one above, has been renamed to a name that sync leaves alone. */
  ghost predicate LostFromSight(input: PlanInput, key: Rel) {
    exists top | top in ViewOf(input).base && top != [] && Inside(top, key) ::
      var known := ViewOf(input).base[top];
      && known.kind == Folder && !LeftAlone(input, top)
      && (|| (known.ino != "0" && exists e <- input.excluded :: e.ino == Some(known.ino))
          || (exists e <- input.excluded :: e.remoteId == Some(known.remoteId))
          || (exists x <- input.skipped :: x.item.id == known.remoteId))
  }

  lemma CoveredMeans(key: Rel, keys: set<Rel>)
    ensures Covered(key, keys) <==> exists top <- keys :: top != [] && Inside(top, key)
  {
    if top :| top in keys && top != [] && Inside(top, key) { assert key[..|top|] in keys; }
  }

  lemma HiddenMeans(input: PlanInput, key: Rel)
    ensures Covered(key, ViewOf(input).hidden) <==> LeftAlone(input, key)
  {
    CoveredMeans(key, ViewOf(input).hidden);
    ExcludedAre(input);
    assert ViewOf(input).hidden == set e | e in AllExcluded(input) :: e.rel;
    hide ViewOf, AllExcluded, Inside;
    forall e | e in AllExcluded(input) && e.rel != [] && Inside(e.rel, key)
      ensures LeftAlone(input, key)
    {
    }
    forall e | e in input.excluded ensures e.rel in ViewOf(input).hidden {}
    forall x | x in input.skipped
      ensures x.rel in ViewOf(input).hidden
    {
      assert Excluded(Server, x.rel, None, Some(x.item.id)).rel == x.rel;
    }
  }

  lemma VanishedMeans(input: PlanInput, key: Rel)
    ensures Covered(key, VanishedFolders(ViewOf(input))) <==> LostFromSight(input, key)
  {
    var v := ViewOf(input);
    CoveredMeans(key, VanishedFolders(v));
    ExcludedAre(input);
    assert v.hiddenInos == set e | e in AllExcluded(input) && e.ino.Some? :: e.ino.value;
    assert v.hiddenIds == set e | e in AllExcluded(input) && e.remoteId.Some? :: e.remoteId.value;
    forall top { HiddenMeans(input, top); }
    hide ViewOf, AllExcluded, Inside, Covered, LeftAlone;
  }

  /** The path is the planner's to decide: nothing is moved, and no folder above it is trashed. */
  ghost predicate InView(input: PlanInput, key: Rel) {
    && PlanOf(input).hold.None? && (forall b <- PlanOf(input).actions :: !IsMove(b))
    && !LeftAlone(input, key) && !Covered(key, PassOf(input).pending)
    && forall b <- PlanOf(input).actions :: TrashesFolder(b) ==> !StrictlyInside(At(b), key)
  }

  /** What is at or under a folder gone from both sides was trashed with it. */
  lemma {:induction false} GoneIsTrashed(p: Pass, keys: seq<Rel>)
    ensures forall top <- DrawnUp(p, keys).gone ::
              top in keys && exists b <- DrawnUp(p, keys).actions :: TrashesFolder(b) && At(b) == top
  {
    if keys != [] {
      var n := |keys| - 1;
      GoneIsTrashed(p, keys[..n]);
      GoneTrashes(p.v, keys[n], p.dirty);
      var before, drawn := DrawnUp(p, keys[..n]), DrawnUp(p, keys);
      hide Decide, Covered, TrashesFolder, DrawnUp;
      assert drawn == OnePath(p, before, keys[n]);
      assert forall b <- before.actions :: b in drawn.actions;
    }
  }

  lemma GoneTrashes(v: View, key: Rel, dirty: Dirty)
    ensures Decide(v, CellAt(v, key), dirty).gone ==>
              && Decide(v, CellAt(v, key), dirty).action.Some?
              && TrashesFolder(Decide(v, CellAt(v, key), dirty).action.value)
              && At(Decide(v, CellAt(v, key), dirty).action.value) == key
  {
  }

  lemma {:induction false} DrawnStays(p: Pass, keys: seq<Rel>, i: nat)
    requires i <= |keys|
    ensures forall a <- DrawnUp(p, keys[..i]).actions :: a in DrawnUp(p, keys).actions
    ensures forall h <- DrawnUp(p, keys[..i]).needsHash :: h in DrawnUp(p, keys).needsHash
    decreases |keys| - i
  {
    if i < |keys| {
      assert keys[..i + 1][..i] == keys[..i];
      hide Decide, Covered;
      DrawnStays(p, keys, i + 1);
    } else {
      assert keys[..i] == keys;
    }
  }

  /** No folder above the path had been trashed when its turn came. */
  lemma TurnComes(p: Pass, keys: seq<Rel>, i: nat)
    requires Distinct(keys) && i < |keys|
    requires forall b <- DrawnUp(p, keys).actions :: TrashesFolder(b) ==> !StrictlyInside(At(b), keys[i])
    ensures !Covered(keys[i], DrawnUp(p, keys[..i]).gone)
  {
    GoneIsTrashed(p, keys[..i]);
    DrawnStays(p, keys, i);
    CoveredMeans(keys[i], DrawnUp(p, keys[..i]).gone);
    hide DrawnUp, TrashesFolder, Covered;
    forall top | top in DrawnUp(p, keys[..i]).gone
      ensures !Inside(top, keys[i])
    {
      var j :| 0 <= j < i && keys[..i][j] == top;
      assert keys[j] != keys[i];
    }
  }

  ghost predicate Given(p: Pass, key: Rel, a: Action) {
    if Covered(key, p.vanished) then a == Forget(key) && key in p.v.base
    else Decide(p.v, CellAt(p.v, key), p.dirty).action == Some(a)
  }

  /** In view, a path gets its own answer and no other. */
  lemma DrawnAt(p: Pass, keys: seq<Rel>, i: nat, a: Action)
    requires Distinct(keys) && i < |keys| && !Covered(keys[i], p.pending) && !Covered(keys[i], p.v.hidden)
    requires forall b <- DrawnUp(p, keys).actions :: TrashesFolder(b) ==> !StrictlyInside(At(b), keys[i])
    ensures a in DrawnUp(p, keys).actions && At(a) == keys[i] <==> Given(p, keys[i], a)
  {
    if a in DrawnUp(p, keys).actions && At(a) == keys[i] { DrawnIsGiven(p, keys, i, a); }
    if Given(p, keys[i], a) { GivenIsDrawn(p, keys, i, a); }
    hide Given, DrawnUp, Covered, Distinct, TrashesFolder;
  }

  lemma DrawnIsGiven(p: Pass, keys: seq<Rel>, i: nat, a: Action)
    requires Distinct(keys) && i < |keys| && a in DrawnUp(p, keys).actions && At(a) == keys[i]
    ensures Given(p, keys[i], a)
  {
    var j := ActionsAnswer(p, keys, a);
    AnswerNames(p, keys, j, a);
    assert keys[j] == keys[i];
    assert i == j by { hide Answers; }
    hide Decide, Covered, DrawnUp, Distinct;
  }

  lemma AnswerNames(p: Pass, keys: seq<Rel>, j: nat, a: Action)
    requires j < |keys| && Answers(p, keys, j, a)
    ensures At(a) == keys[j]
  {
    DecisionNames(p.v, CellAt(p.v, keys[j]), p.dirty);
    hide Decide, Covered, DrawnUp;
  }

  lemma GivenIsDrawn(p: Pass, keys: seq<Rel>, i: nat, a: Action)
    requires Distinct(keys) && i < |keys| && !Covered(keys[i], p.pending) && !Covered(keys[i], p.v.hidden)
    requires forall b <- DrawnUp(p, keys).actions :: TrashesFolder(b) ==> !StrictlyInside(At(b), keys[i])
    requires Given(p, keys[i], a)
    ensures a in DrawnUp(p, keys).actions && At(a) == keys[i]
  {
    TurnComes(p, keys, i);
    CoveredParts(keys[i], p.pending, DrawnUp(p, keys[..i]).gone, p.v.hidden);
    assert keys[..i + 1][..i] == keys[..i];
    DecisionNames(p.v, CellAt(p.v, keys[i]), p.dirty);
    DrawnStays(p, keys, i + 1);
    hide Decide, Covered, Distinct, TrashesFolder;
  }

  lemma {:induction false} HashesFrom(p: Pass, keys: seq<Rel>, h: LocalFile) returns (i: nat)
    requires h in DrawnUp(p, keys).needsHash
    ensures i < |keys| && !Covered(keys[i], p.vanished)
            && Decide(p.v, CellAt(p.v, keys[i]), p.dirty).hash == Some(h)
    decreases keys
  {
    var n := |keys| - 1;
    hide Decide, Covered;
    if h in DrawnUp(p, keys[..n]).needsHash {
      i := HashesFrom(p, keys[..n], h);
    } else {
      i := n;
    }
  }

  lemma HashedAt(p: Pass, keys: seq<Rel>, i: nat, h: LocalFile)
    requires Distinct(keys) && i < |keys| && !Covered(keys[i], p.pending) && !Covered(keys[i], p.v.hidden)
    requires forall b <- DrawnUp(p, keys).actions :: TrashesFolder(b) ==> !StrictlyInside(At(b), keys[i])
    requires forall key <- p.v.local :: p.v.local[key].rel == key
    ensures h in DrawnUp(p, keys).needsHash && h.rel == keys[i] <==>
              !Covered(keys[i], p.vanished) && Unread(p.v, keys[i]) && h == p.v.local[keys[i]]
  {
    TurnComes(p, keys, i);
    CoveredParts(keys[i], p.pending, DrawnUp(p, keys[..i]).gone, p.v.hidden);
    ReadsExactly(p.v, keys[i], p.dirty);
    if h in DrawnUp(p, keys).needsHash && h.rel == keys[i] {
      var j := HashesFrom(p, keys, h);
      ReadsExactly(p.v, keys[j], p.dirty);
      hide Decide, Covered, DrawnUp;
      assert i == j;
    }
    if !Covered(keys[i], p.vanished) && Unread(p.v, keys[i]) && h == p.v.local[keys[i]] {
      assert keys[..i + 1][..i] == keys[..i];
      DrawnStays(p, keys, i + 1);
    }
    hide Decide, Covered;
  }

  /**
   * What a plan without moves does about a path in view, in every mode: the one
   * action the three lists ask for, and nothing else.  A path lost from sight is
   * forgotten if it was known.
   */
  lemma AnswersExactly(input: PlanInput, key: Rel, a: Action)
    requires key != [] && InView(input, key)
    ensures a in PlanOf(input).actions && At(a) == key <==>
              if LostFromSight(input, key) then a == Forget(key) && key in ViewOf(input).base
              else Asked(ViewOf(input), key, FactsAt(input, key), a)
  {
    var p, keys, f := PassOf(input), ByDepth(AllPaths(input)), FactsAt(input, key);
    MovesAreMoves(ViewOf(input), ShallowFirst(input.base));
    if key in p.v.base { StillMeans(input, key); }
    DirtyMeans(input, key);
    DecidesExactly(p.v, key, p.dirty, f, a);
    HiddenMeans(input, key);
    VanishedMeans(input, key);
    PlanIsDrawn(input);
    KeysAreOrderly(input);
    AskedAtPath(p.v, key, f, a);
    if key in keys {
      var i :| 0 <= i < |keys| && keys[i] == key;
      hide Asked, Decide, Covered, DrawnUp, ViewOf, PlanOf, LostFromSight, LeftAlone;
      DrawnAt(p, keys, i, a);
    } else {
      DrawnOnce(p, keys);
      if key in p.v.local || key in p.v.remote || key in p.v.base { KeyIsAPath(input, key); }
    }
    hide Asked, Decide, Covered, DrawnUp, ViewOf, PlanOf, LostFromSight, LeftAlone, FactsAt;
  }

  lemma AskedAtPath(v: View, key: Rel, f: Facts, a: Action)
    ensures Asked(v, key, f, a) ==> key in v.local || key in v.remote || key in v.base
  {
  }

  lemma SomeMove(moves: seq<Action>)
    requires forall a <- moves :: IsMove(a)
    ensures moves == [] || exists a <- moves :: IsMove(a)
  {
    if moves != [] { assert moves[0] in moves; }
  }

  lemma PlanIsDrawn(input: PlanInput)
    requires PlanOf(input).hold.None? && forall b <- PlanOf(input).actions :: !IsMove(b)
    ensures PlanOf(input).actions == DrawnUp(PassOf(input), ByDepth(AllPaths(input))).actions
    ensures PlanOf(input).needsHash == DrawnUp(PassOf(input), ByDepth(AllPaths(input))).needsHash
    ensures PassOf(input).v == ViewOf(input) && PassOf(input).dirty == DirtySides(ViewOf(input))
    ensures PassOf(input).vanished == VanishedFolders(ViewOf(input))
  {
    MovesAreMoves(ViewOf(input), ShallowFirst(input.base));
    var moves := MovesOf(ViewOf(input), ShallowFirst(input.base)).moves;
    SomeMove(moves);
    hide DrawnUp, ViewOf, MovesOf, DirtySides, VanishedFolders;
  }

  /** The files to be read first are just those that a decision waits for. */
  lemma HashesExactly(input: PlanInput, key: Rel, h: LocalFile)
    requires key != [] && InView(input, key)
    ensures h in PlanOf(input).needsHash && h.rel == key <==>
              !LostFromSight(input, key) && Unread(ViewOf(input), key) && h == ViewOf(input).local[key]
  {
    var p, keys := PassOf(input), ByDepth(AllPaths(input));
    HiddenMeans(input, key);
    VanishedMeans(input, key);
    PlanIsDrawn(input);
    KeysAreOrderly(input);
    LocalMapAt(input.local);
    assert p.v.local == LocalMap(input.local);
    if key in keys {
      var i :| 0 <= i < |keys| && keys[i] == key;
      hide Unread, Decide, Covered, DrawnUp, ViewOf, PlanOf, LostFromSight, LeftAlone;
      HashedAt(p, keys, i, h);
    } else {
      if h in DrawnUp(p, keys).needsHash {
        var j := HashesFrom(p, keys, h);
        ReadsExactly(p.v, keys[j], p.dirty);
      }
      if key in p.v.local { KeyIsAPath(input, key); }
    }
    hide Decide, Covered, DrawnUp, ViewOf, PlanOf, LostFromSight, LeftAlone;
  }
}
