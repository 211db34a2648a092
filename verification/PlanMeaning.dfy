/** What a move in a plan stands for, and what it means that a plan has nothing left to do. */
module PlanMeaning {
  import opened Common
  import opened Paths
  import opened SyncTypes
  import opened Planner
  import opened PlanSafety
  import opened PlanDiscipline

  // ----------------------------------------------------------------------------- moves

  /** The folder a path goes into is there. */
  predicate FolderReadyHere(v: View, target: Rel)
    requires target != []
  {
    |target| == 1 || (Parent(target) in v.local && v.local[Parent(target)].kind == Folder)
  }

  predicate FolderReadyThere(v: View, target: Rel)
    requires target != []
  {
    |target| == 1 || (Parent(target) in v.remote && v.remote[Parent(target)].item.kind == Folder)
  }

  /** The same entry, except that an inode the base does not know counts for the one found. */
  predicate Unmoved(here: LocalFile, entry: BaseEntry) {
    && here.kind == entry.kind
    && (here.kind == File ==>
          here.size == entry.size && here.mtimeMs == entry.mtimeMs &&
          (here.ino == entry.ino || entry.ino == UNKNOWN_INO))
  }

  /**
   * A move repeated here follows a server item that the base knows at the
   * source; the local entry there is untouched, and nothing is at the target.
   * One repeated on the server follows a local entry with the base's inode.
   */
  ghost predicate RealMove(v: View, known: seq<BaseEntry>, a: Action) {
    match a
    case MoveLocal(source, target, remote) =>
      && v.mode != UploadOnly && source in v.local && target !in v.local && target != []
      && (exists entry <- known ::
            entry.rel == source && entry.remoteId == remote.id && Unmoved(v.local[source], entry))
      && (exists id <- v.remoteById :: v.remoteById[id].item == remote && v.remoteById[id].rel == target)
      && FolderReadyHere(v, target)
    case MoveRemote(source, target, base, local) =>
      && v.mode != DownloadOnly && source !in v.local && target != []
      && base in known && base.rel == source && local.rel == target && base.ino == local.ino != UNKNOWN_INO
      && Unmoved(local, base) && base.remoteId in v.remoteById
      && (v.remoteById[base.remoteId].rel != target ==> target !in v.remote)
      && FolderReadyThere(v, target)
    case _ => false
  }

  predicate Indexed(v: View) {
    && (forall key <- v.local :: v.local[key].rel == key)
    && (forall ino <- v.localByIno :: v.localByIno[ino].ino == ino)
    && (forall id <- v.remoteById :: v.remoteById[id].item.id == id)
  }

  lemma MoveIsReal(v: View, known: seq<BaseEntry>, entry: BaseEntry)
    requires entry in known && Indexed(v) && MoveOf(v, entry).Some? && MoveOf(v, entry).value.action.Some?
    ensures RealMove(v, known, MoveOf(v, entry).value.action.value)
  {
    if ServerMove(v, entry).Some? {
      assert entry.remoteId in v.remoteById;
    }
  }

  lemma {:induction false} IdMapHas(xs: seq<Scoped>)
    ensures forall id <- IdMap(xs) :: IdMap(xs)[id].item.id == id
  {
    if xs != [] { IdMapHas(xs[..|xs| - 1]); }
  }

  lemma {:induction false} InosHas(xs: seq<LocalFile>, base: map<Rel, BaseEntry>)
    ensures forall ino <- InoMap(xs, base) :: InoMap(xs, base)[ino].ino == ino
  {
    if xs != [] { InosHas(xs[..|xs| - 1], base); }
  }

  lemma {:induction false} AllMovesReal(v: View, known: seq<BaseEntry>, sorted: seq<BaseEntry>)
    requires Indexed(v) && forall entry <- sorted :: entry in known
    ensures forall a <- MovesOf(v, sorted).moves :: RealMove(v, known, a)
  {
    if sorted != [] {
      var n := |sorted| - 1;
      AllMovesReal(v, known, sorted[..n]);
      var move := MoveOf(v, sorted[n]);
      if move.Some? && move.value.action.Some? { MoveIsReal(v, known, sorted[n]); }
      hide RealMove, MoveOf, Covered;
    }
  }

  /** Whatever a plan moves has really moved on the other side, and moving it overwrites nothing. */
  lemma PlannedMovesAreReal(input: PlanInput, a: Action)
    requires a in PlanOf(input).actions && IsMove(a)
    ensures RealMove(ViewOf(input), input.base, a)
  {
    var v, sorted := ViewOf(input), ShallowFirst(input.base);
    LocalMapAt(input.local);
    IdMapHas(input.remote);
    InosHas(input.local, BaseMap(input.base));
    forall entry | entry in sorted ensures entry in input.base { ShallowFirstKeeps(input.base, entry); }
    AllMovesReal(v, input.base, sorted);
    if MovesOf(v, sorted).moves == [] {
      KeysAreOrderly(input);
      DrawnOnce(PassOf(input), ByDepth(AllPaths(input)));
    }
  }

  // ----------------------------------------------------------------- nothing left to do

  /** The path is looked at: it is not left alone, mid-move, or lost from sight with its folder. */
  predicate LookedAt(p: Pass, key: Rel) {
    !Covered(key, p.pending) && !Covered(key, p.v.hidden) && !Covered(key, p.vanished)
  }

  /** Both have the file, and as far as either can tell with the same contents. */
  predicate Agree(here: LocalFile, there: Item, previous: Option<BaseEntry>) {
    var mine := ChecksumOf(here, previous);
    mine.Some? &&
    (mine.value == there.checksum ||
     (previous.Some? && mine.value == previous.value.checksum && previous.value.remoteId == there.id
      && SameOnServer(previous.value, there)))
  }

  /** The path is as this mode wants it. */
  predicate Settled(v: View, key: Rel) {
    var previous := if key in v.base then Some(v.base[key]) else None;
    match v.mode
    case TwoWay =>
      && (key in v.local <==> key in v.remote) && (key in v.base ==> key in v.local)
      && (key in v.local && key in v.remote ==>
            && v.local[key].kind == v.remote[key].item.kind
            && (v.local[key].kind == File ==> Agree(v.local[key], v.remote[key].item, previous)))
    case DownloadOnly =>
      && (key in v.remote ==> key in v.local && v.local[key].kind == v.remote[key].item.kind)
      && (key in v.remote && key in v.local && v.local[key].kind == File ==>
            Agree(v.local[key], v.remote[key].item, previous))
    case UploadOnly =>
      && (key in v.local ==> key in v.remote)
      && (key in v.local && key in v.remote && v.local[key].kind == v.remote[key].item.kind == File ==>
            || Agree(v.local[key], v.remote[key].item, previous)
            || (previous.Some? && ChecksumOf(v.local[key], previous) == Some(previous.value.checksum)))
  }

  lemma NothingMeansSettled(v: View, key: Rel, dirty: Dirty)
    requires key in v.local || key in v.remote || key in v.base
    requires Decide(v, CellAt(v, key), dirty).action.None? && Decide(v, CellAt(v, key), dirty).hash.None?
    ensures Settled(v, key)
  {
  }

  lemma {:induction false} DrawnNothing(p: Pass, keys: seq<Rel>, i: nat)
    requires i < |keys| && DrawnUp(p, keys).actions == [] && DrawnUp(p, keys).needsHash == []
    ensures DrawnUp(p, keys).gone == {}
    ensures LookedAt(p, keys[i]) ==>
              Decide(p.v, CellAt(p.v, keys[i]), p.dirty).action.None? &&
                Decide(p.v, CellAt(p.v, keys[i]), p.dirty).hash.None?
    decreases keys
  {
    var n := |keys| - 1;
    GoneHasAction(p.v, keys[n], p.dirty);
    if n > 0 { DrawnNothing(p, keys[..n], if i < n then i else 0); }
    CoveredParts(keys[n], p.pending, {}, p.v.hidden);
    hide Decide, Covered;
  }

  lemma GoneHasAction(v: View, key: Rel, dirty: Dirty)
    ensures Decide(v, CellAt(v, key), dirty).gone ==> Decide(v, CellAt(v, key), dirty).action.Some?
  {
  }

  /**
   * A plan with nothing to do, nothing held and nothing left to hash means that
   * every path it looks at is as the mode wants it: the same on both sides, or
   * everything of the server's here, or everything of this computer's there.
   */
  lemma EmptyPlanMeansSettled(input: PlanInput, key: Rel)
    requires PlanOf(input) == Plan([], None, []) && LookedAt(PassOf(input), key)
    requires key in ViewOf(input).local || key in ViewOf(input).remote || key in ViewOf(input).base
    ensures Settled(ViewOf(input), key)
  {
    var p, keys := PassOf(input), ByDepth(AllPaths(input));
    KeyIsAPath(input, key);
    var i :| 0 <= i < |keys| && keys[i] == key;
    DrawnNothing(p, keys, i);
    NothingMeansSettled(p.v, key, p.dirty);
    hide *;
  }

  lemma KeyIsAPath(input: PlanInput, key: Rel)
    requires key in ViewOf(input).local || key in ViewOf(input).remote || key in ViewOf(input).base
    ensures key in ByDepth(AllPaths(input))
  {
    InByDepth(AllPaths(input), key);
    MapKeys(input);
    BaseMapAt(input.base);
    if key in ViewOf(input).base {
      var i :| 0 <= i < |input.base| && input.base[i] == BaseMap(input.base)[key];
      assert BaseRels(input.base)[i] == key;
    }
    RelsKeep(LocalRels(input.local) + RemoteRels(input.remote) + BaseRels(input.base));
    hide ByDepth, Rels;
  }
}
