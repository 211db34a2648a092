/**
 * The three-way decision: what to do with every path, given this computer,
 * the server and the last state both agreed on.
 */
module Planner {
  import opened Common
  import opened Paths
  import opened SyncTypes

  const EMPTIED_HOLD_FILES := 10

  // -------------------------------------------------------------------------- the view

  /** Both sides and the base, indexed the ways the planner looks them up. */
  datatype View = View(
    mode: Mode,
    local: map<Rel, LocalFile>,
    remote: map<Rel, Scoped>,
    base: map<Rel, BaseEntry>,
    remoteById: map<string, Scoped>,
    localByIno: map<string, LocalFile>,
    hidden: set<Rel>,
    hiddenInos: set<string>,
    hiddenIds: set<string>,
    hiddenUnderLocal: set<Rel>,
    hiddenUnderServer: set<Rel>)

  function LocalMap(xs: seq<LocalFile>): map<Rel, LocalFile> {
    if xs == [] then map[] else LocalMap(xs[..|xs| - 1])[xs[|xs| - 1].rel := xs[|xs| - 1]]
  }

  function RemoteMap(xs: seq<Scoped>): map<Rel, Scoped> {
    if xs == [] then map[] else RemoteMap(xs[..|xs| - 1])[xs[|xs| - 1].rel := xs[|xs| - 1]]
  }

  function BaseMap(xs: seq<BaseEntry>): map<Rel, BaseEntry> {
    if xs == [] then map[] else BaseMap(xs[..|xs| - 1])[xs[|xs| - 1].rel := xs[|xs| - 1]]
  }

  function IdMap(xs: seq<Scoped>): map<string, Scoped> {
    if xs == [] then map[] else IdMap(xs[..|xs| - 1])[xs[|xs| - 1].item.id := xs[|xs| - 1]]
  }

  /** Local entries the base does not know, by inode. */
  function InoMap(xs: seq<LocalFile>, base: map<Rel, BaseEntry>): map<string, LocalFile> {
    if xs == [] then map[]
    else
      var x, rest := xs[|xs| - 1], InoMap(xs[..|xs| - 1], base);
      if x.ino != UNKNOWN_INO && x.rel !in base then rest[x.ino := x] else rest
  }

  /** The paths left alone: those given, and the server names this computer cannot hold. */
  function AllExcluded(input: PlanInput): seq<Excluded> {
    input.excluded + seq(|input.skipped|, i requires 0 <= i < |input.skipped| =>
      Excluded(Server, input.skipped[i].rel, None, Some(input.skipped[i].item.id)))
  }

  function HiddenOn(excluded: seq<Excluded>, side: Side): set<Rel> {
    set e | e in excluded && e.side == side :: e.rel
  }

  function ViewOf(input: PlanInput): View {
    var base, excluded := BaseMap(input.base), AllExcluded(input);
    View(input.mode, LocalMap(input.local), RemoteMap(input.remote), base, IdMap(input.remote),
         InoMap(input.local, base),
         set e | e in excluded :: e.rel,
         set e | e in excluded && e.ino.Some? :: e.ino.value,
         set e | e in excluded && e.remoteId.Some? :: e.remoteId.value,
         ProperAncestors(HiddenOn(excluded, Local)), ProperAncestors(HiddenOn(excluded, Server)))
  }

  // -------------------------------------------------------------------- hold and moves

  function BaseFiles(base: seq<BaseEntry>): nat {
    if base == [] then 0 else BaseFiles(base[..|base| - 1]) + if base[|base| - 1].kind == File then 1 else 0
  }

  function HoldFor(input: PlanInput): Option<Side> {
    if input.allowEmptied || BaseFiles(input.base) < EMPTIED_HOLD_FILES then None
    else if input.local == [] && input.mode == TwoWay then Some(Local)
    else if input.remote == [] && input.mode != UploadOnly then Some(Server)
    else None
  }

  predicate StillOnServer(v: View, previous: BaseEntry) {
    previous.remoteId in v.remoteById || previous.remoteId in v.hiddenIds
  }

  predicate StillHere(v: View, previous: BaseEntry) {
    previous.ino != UNKNOWN_INO && (previous.ino in v.localByIno || previous.ino in v.hiddenInos)
  }

  /** Where a move goes; no action yet while its folder is missing. */
  datatype Move = Move(target: Rel, action: Option<Action>)

  function ServerMove(v: View, entry: BaseEntry): Option<Move> {
    var key := entry.rel;
    if v.mode == UploadOnly || entry.remoteId !in v.remoteById || v.remoteById[entry.remoteId].rel == key then None
    else
      var onServer := v.remoteById[entry.remoteId];
      var target := onServer.rel;
      if key !in v.local || v.local[key].kind != entry.kind || target in v.local || target == [] then None
      else
        var here := v.local[key];
        var known := if entry.ino == UNKNOWN_INO then entry.(ino := here.ino) else entry;
        if entry.kind == File && !SameStat(here, known) then None
        else
          var ready := |target| == 1 || (Parent(target) in v.local && v.local[Parent(target)].kind == Folder);
          Some(Move(target, if ready then Some(MoveLocal(here.rel, target, onServer.item)) else None))
  }

  function BaseName(rel: Rel): string
    requires rel != []
  {
    rel[|rel| - 1]
  }

  /** A move and a rename are two server calls; a stop between them leaves one of these. */
  predicate Halfway(source: Rel, there: Rel, target: Rel)
    requires source != [] && there != [] && target != []
  {
    || (Parent(there) == Parent(target) && BaseName(there) == BaseName(source))
    || (Parent(there) == Parent(source) && BaseName(there) == BaseName(target))
  }

  function LocalMove(v: View, entry: BaseEntry): Option<Move> {
    var key := entry.rel;
    if v.mode == DownloadOnly || key in v.local || entry.ino == UNKNOWN_INO || entry.ino !in v.localByIno then None
    else
      var moved := v.localByIno[entry.ino];
      if entry.remoteId !in v.remoteById || moved.kind != entry.kind then None
      else if entry.kind == File && !SameStat(moved, entry) then None
      else
        var onServer := v.remoteById[entry.remoteId];
        var target, there := moved.rel, onServer.rel;
        if key == [] || there == [] || target == [] then None
        else if there != key && !Halfway(key, there, target) then None
        else if there != target && target in v.remote then None
        else
          var ready := |target| == 1 || (Parent(target) in v.remote && v.remote[Parent(target)].item.kind == Folder);
          Some(Move(target, if ready then Some(MoveRemote(entry.rel, target, entry, moved)) else None))
  }

  function MoveOf(v: View, entry: BaseEntry): Option<Move> {
    if ServerMove(v, entry).Some? then ServerMove(v, entry) else LocalMove(v, entry)
  }

  datatype Moving = Moving(moves: seq<Action>, pending: set<Rel>)

  predicate Blocked(v: View, pending: set<Rel>, key: Rel) {
    Covered(key, pending + v.hidden)
  }

  /** One base entry's turn in `planMoves`. */
  function OneMove(v: View, m: Moving, entry: BaseEntry): Moving {
    if Blocked(v, m.pending, entry.rel) then m
    else
      var move := MoveOf(v, entry);
      if move.None? || Blocked(v, m.pending, move.value.target) then m
      else
        Moving(if move.value.action.Some? then m.moves + [move.value.action.value] else m.moves,
               m.pending + {entry.rel, move.value.target})
  }

  function MovesOf(v: View, sorted: seq<BaseEntry>): Moving {
    if sorted == [] then Moving([], {}) else OneMove(v, MovesOf(v, sorted[..|sorted| - 1]), sorted[|sorted| - 1])
  }

  /** A stable sort of the base, shallowest first. */
  function ShallowFirst(base: seq<BaseEntry>): seq<BaseEntry> {
    if base == [] then [] else PlaceEntry(base[|base| - 1], ShallowFirst(base[..|base| - 1]))
  }

  function PlaceEntry(entry: BaseEntry, sorted: seq<BaseEntry>): seq<BaseEntry> {
    if sorted == [] || |sorted[|sorted| - 1].rel| <= |entry.rel| then sorted + [entry]
    else PlaceEntry(entry, sorted[..|sorted| - 1]) + [sorted[|sorted| - 1]]
  }

  // ------------------------------------------------------------------------ one path

  datatype Cell = Cell(key: Rel, here: Option<LocalFile>, there: Option<Item>, previous: Option<BaseEntry>)

  datatype Decision = Decision(action: Option<Action>, gone: bool, hash: Option<LocalFile>)

  datatype Dirty = Dirty(local: set<Rel>, server: set<Rel>)

  predicate CleanHere(v: View, key: Rel) {
    key in v.local && key in v.base && v.base[key].kind == v.local[key].kind
    && (v.local[key].kind == Folder || SameStat(v.local[key], v.base[key]))
  }

  predicate CleanThere(v: View, key: Rel) {
    key in v.remote && key in v.base && v.base[key].remoteId == v.remote[key].item.id
    && (v.remote[key].item.kind == Folder || SameOnServer(v.base[key], v.remote[key].item))
  }

  /** Folders whose contents changed on a side since the base, so they stay. */
  function DirtySides(v: View): Dirty {
    Dirty(v.hiddenUnderLocal + ProperAncestors(set key | key in v.local && !CleanHere(v, key)),
          v.hiddenUnderServer + ProperAncestors(set key | key in v.remote && !CleanThere(v, key)))
  }

  function Do(action: Action): Decision {
    Decision(Some(action), false, None)
  }

  const NOTHING := Decision(None, false, None)

  predicate IdToSave(previous: Option<BaseEntry>, here: LocalFile) {
    previous.Some? && previous.value.ino == UNKNOWN_INO && here.ino != UNKNOWN_INO
  }

  predicate SameItem(previous: Option<BaseEntry>, item: Item) {
    previous.Some? && previous.value.remoteId == item.id
  }

  function FolderOnBothSides(cell: Cell): Decision
    requires cell.here.Some? && cell.there.Some?
  {
    if !SameItem(cell.previous, cell.there.value) || IdToSave(cell.previous, cell.here.value)
    then Do(Link(cell.key, cell.here.value, cell.there.value)) else NOTHING
  }

  function ForgetIfKnown(cell: Cell): Decision {
    if cell.previous.Some? then Do(Forget(cell.key)) else NOTHING
  }

  /** A folder only the server has: new there, or deleted here. */
  function FolderOnlyThere(v: View, cell: Cell, dirty: set<Rel>): Decision
    requires cell.there.Some?
  {
    if cell.previous.Some? && v.mode == TwoWay && cell.key !in dirty && !StillHere(v, cell.previous.value)
    then Decision(Some(TrashRemote(cell.key, cell.there.value)), true, None)
    else if v.mode != UploadOnly then Do(Mkdir(cell.key, cell.there.value))
    else ForgetIfKnown(cell)
  }

  /** A folder only this computer has: new here, or deleted on the server. */
  function FolderOnlyHere(v: View, cell: Cell, dirty: set<Rel>): Decision
    requires cell.here.Some?
  {
    if cell.previous.Some? && v.mode != UploadOnly && cell.key !in dirty && !StillOnServer(v, cell.previous.value)
    then Decision(Some(TrashLocal(cell.key, cell.here.value)), true, None)
    else if v.mode != DownloadOnly then Do(CreateRemoteFolder(cell.key, cell.here.value))
    else ForgetIfKnown(cell)
  }

  function PlanFolder(v: View, cell: Cell, dirty: Dirty): Decision {
    if cell.here.Some? && cell.there.Some? then FolderOnBothSides(cell)
    else if cell.there.Some? then FolderOnlyThere(v, cell, dirty.server)
    else if cell.here.Some? then FolderOnlyHere(v, cell, dirty.local)
    else ForgetIfKnown(cell)
  }

  /** Both sides have the file; `mine` is the local checksum. */
  function FileOnBothSides(v: View, cell: Cell, mine: Option<string>): Decision
    requires cell.here.Some? && cell.there.Some?
  {
    var here, there, previous := cell.here.value, cell.there.value, cell.previous;
    var theirs := there.checksum;
    var sameItem := SameItem(previous, there);
    if mine == theirs then
      if !sameItem || previous.value.rev != there.rev || !SameStat(here, previous.value)
      then Do(Link(cell.key, here, there)) else NOTHING
    else
      var localChanged := previous.None? || mine != previous.value.checksum;
      var remoteChanged := !sameItem || !SameOnServer(previous.value, there);
      if !localChanged && !remoteChanged then NOTHING
      else if localChanged && remoteChanged then
        if v.mode == UploadOnly then Do(KeepMine(cell.key, here, there))
        else Do(ConflictCopy(cell.key, here, v.mode == DownloadOnly,
                             if theirs.None? then Some(Unverified(there, mine)) else None))
      else if localChanged then
        if v.mode == DownloadOnly then Do(ConflictCopy(cell.key, here, true, None))
        else Do(Upload(cell.key, here, Some(there)))
      else if v.mode == UploadOnly then NOTHING
      else Do(Download(cell.key, there, Some(here)))
  }

  predicate UnchangedHere(here: LocalFile, previous: Option<BaseEntry>) {
    previous.Some? && (SameStat(here, previous.value) ||
                       (IdToSave(previous, here) && here.checksum == previous.value.checksum))
  }

  /** Only this computer has the file: new here, or deleted on the server. */
  function FileOnlyHere(v: View, cell: Cell): Decision
    requires cell.here.Some?
  {
    var here, previous := cell.here.value, cell.previous;
    if previous.Some? && StillOnServer(v, previous.value) then Do(Forget(cell.key))
    else if v.mode == UploadOnly || (v.mode == TwoWay && !UnchangedHere(here, previous))
    then Do(Upload(cell.key, here, None))
    else if UnchangedHere(here, previous) then Do(TrashLocal(cell.key, here))
    else ForgetIfKnown(cell)
  }

  predicate UnchangedThere(there: Item, previous: Option<BaseEntry>) {
    SameItem(previous, there) && SameOnServer(previous.value, there)
  }

  /** Only the server has the file: new there, or deleted here. */
  function FileOnlyThere(v: View, cell: Cell): Decision
    requires cell.there.Some?
  {
    var there, previous := cell.there.value, cell.previous;
    if v.mode == DownloadOnly || (v.mode == TwoWay && !UnchangedThere(there, previous))
    then Do(Download(cell.key, there, None))
    else if previous.Some? && StillHere(v, previous.value) then Do(Forget(cell.key))
    else if UnchangedThere(there, previous) && v.mode == TwoWay then Do(TrashRemote(cell.key, there))
    else ForgetIfKnown(cell)
  }

  /** The local checksum when it is known without reading the file (which may be that there is none). */
  function ChecksumOf(here: LocalFile, previous: Option<BaseEntry>): Option<Option<string>> {
    if previous.Some? && SameStat(here, previous.value) then Some(previous.value.checksum)
    else if here.checksum.Some? then Some(here.checksum) else None
  }

  function KindOf(cell: Cell): NodeType {
    if cell.here.Some? then cell.here.value.kind
    else if cell.there.Some? then cell.there.value.kind
    else if cell.previous.Some? then cell.previous.value.kind else File
  }

  function Decide(v: View, cell: Cell, dirty: Dirty): Decision {
    var here, there, previous := cell.here, cell.there, cell.previous;
    if here.Some? && there.Some? && here.value.kind != there.value.kind then
      if v.mode == UploadOnly then NOTHING
      else Do(ConflictCopy(cell.key, here.value, v.mode == DownloadOnly, None))
    else if KindOf(cell) == Folder then PlanFolder(v, cell, dirty)
    else if here.Some? && there.Some? then
      var mine := ChecksumOf(here.value, previous);
      if mine.None? then Decision(None, false, here) else FileOnBothSides(v, cell, mine.value)
    else if here.Some? then
      if IdToSave(previous, here.value) && here.value.checksum.None? then Decision(None, false, here)
      else FileOnlyHere(v, cell)
    else if there.Some? then FileOnlyThere(v, cell)
    else ForgetIfKnown(cell)
  }

  // ----------------------------------------------------------------------- every path

  function CellAt(v: View, key: Rel): Cell {
    Cell(key,
         if key in v.local then Some(v.local[key]) else None,
         if key in v.remote then Some(v.remote[key].item) else None,
         if key in v.base then Some(v.base[key]) else None)
  }

  /** Synced folders renamed on either side to a name sync leaves alone. */
  predicate Vanished(v: View, key: Rel) {
    && key in v.base && v.base[key].kind == Folder && !Covered(key, v.hidden)
    && ((v.base[key].ino != UNKNOWN_INO && v.base[key].ino in v.hiddenInos) || v.base[key].remoteId in v.hiddenIds)
  }

  function VanishedFolders(v: View): set<Rel> {
    set key | key in v.base && Vanished(v, key)
  }

  /** The paths of both sides and the base, each once, in the order first met. */
  function AllPaths(input: PlanInput): seq<Rel> {
    Rels(LocalRels(input.local) + RemoteRels(input.remote) + BaseRels(input.base))
  }

  function Rels(keys: seq<Rel>): seq<Rel> {
    if keys == [] then []
    else
      var rest, last := Rels(keys[..|keys| - 1]), keys[|keys| - 1];
      if last in rest then rest else rest + [last]
  }

  /** A stable sort of the paths, shallowest first. */
  function ByDepth(keys: seq<Rel>): seq<Rel> {
    if keys == [] then [] else PlaceKey(keys[|keys| - 1], ByDepth(keys[..|keys| - 1]))
  }

  function PlaceKey(key: Rel, sorted: seq<Rel>): seq<Rel> {
    if sorted == [] || |sorted[|sorted| - 1]| <= |key| then sorted + [key]
    else PlaceKey(key, sorted[..|sorted| - 1]) + [sorted[|sorted| - 1]]
  }

  /** What never changes while the paths are gone through. */
  datatype Pass = Pass(v: View, dirty: Dirty, pending: set<Rel>, vanished: set<Rel>)

  datatype Drawn = Drawn(actions: seq<Action>, needsHash: seq<LocalFile>, gone: set<Rel>)

  /** One path's turn. */
  function OnePath(p: Pass, d: Drawn, key: Rel): Drawn {
    if Covered(key, p.pending + d.gone + p.v.hidden) then d
    else if Covered(key, p.vanished) then
      if key in p.v.base then d.(actions := d.actions + [Forget(key)]) else d
    else
      var decision := Decide(p.v, CellAt(p.v, key), p.dirty);
      Drawn(if decision.action.Some? then d.actions + [decision.action.value] else d.actions,
            if decision.hash.Some? then d.needsHash + [decision.hash.value] else d.needsHash,
            if decision.gone then d.gone + {key} else d.gone)
  }

  function DrawnUp(p: Pass, keys: seq<Rel>): Drawn {
    if keys == [] then Drawn([], [], {}) else OnePath(p, DrawnUp(p, keys[..|keys| - 1]), keys[|keys| - 1])
  }

  function PassOf(input: PlanInput): Pass {
    var v := ViewOf(input);
    Pass(v, DirtySides(v), MovesOf(v, ShallowFirst(input.base)).pending, VanishedFolders(v))
  }

  /** `plan`: a hold, or the moves alone, or every other path. */
  function PlanOf(input: PlanInput): Plan {
    if HoldFor(input).Some? then Plan([], HoldFor(input), [])
    else
      var moving := MovesOf(ViewOf(input), ShallowFirst(input.base));
      if moving.moves != [] then Plan(moving.moves, None, [])
      else
        var drawn := DrawnUp(PassOf(input), ByDepth(AllPaths(input)));
        Plan(drawn.actions, None, drawn.needsHash)
  }

  // ---------------------------------------------------------------------- as it is run

  method PlanMoves(v: View, base: seq<BaseEntry>) returns (moves: seq<Action>, pending: set<Rel>)
    ensures Moving(moves, pending) == MovesOf(v, ShallowFirst(base))
  {
    moves, pending := [], {};
    var sorted := ShallowFirst(base);
    var i := 0;
    while i < |sorted|
      invariant 0 <= i <= |sorted|
      invariant Moving(moves, pending) == MovesOf(v, sorted[..i])
    {
      assert sorted[..i + 1][..i] == sorted[..i];
      var entry := sorted[i];
      i := i + 1;
      var blocked := IsCovered(entry.rel, pending + v.hidden);
      if !blocked {
        var move := MoveOf(v, entry);
        if move.Some? {
          var targetBlocked := IsCovered(move.value.target, pending + v.hidden);
          if !targetBlocked {
            pending := pending + {entry.rel, move.value.target};
            if move.value.action.Some? { moves := moves + [move.value.action.value]; }
          }
        }
      }
    }
    assert sorted[..i] == sorted;
  }

  method FindDirtySides(v: View, localKeys: seq<Rel>, remoteKeys: seq<Rel>) returns (dirty: Dirty)
    requires (set key | key in localKeys) == v.local.Keys && (set key | key in remoteKeys) == v.remote.Keys
    ensures dirty == DirtySides(v)
  {
    var here := DirtyFolders(localKeys, key => CleanHere(v, key));
    var there := DirtyFolders(remoteKeys, key => CleanThere(v, key));
    assert (set key | key in localKeys && !CleanHere(v, key)) == set key | key in v.local && !CleanHere(v, key);
    assert (set key | key in remoteKeys && !CleanThere(v, key)) == set key | key in v.remote && !CleanThere(v, key);
    dirty := Dirty(v.hiddenUnderLocal + here, v.hiddenUnderServer + there);
  }

  function LocalRels(xs: seq<LocalFile>): seq<Rel> {
    seq(|xs|, i requires 0 <= i < |xs| => xs[i].rel)
  }

  function RemoteRels(xs: seq<Scoped>): seq<Rel> {
    seq(|xs|, i requires 0 <= i < |xs| => xs[i].rel)
  }

  function BaseRels(xs: seq<BaseEntry>): seq<Rel> {
    seq(|xs|, i requires 0 <= i < |xs| => xs[i].rel)
  }

  method MakePlan(input: PlanInput) returns (plan: Plan)
    ensures plan == PlanOf(input)
  {
    hide Decide, CellAt, DirtySides, Vanished, HoldFor, ByDepth, AllPaths, ShallowFirst, Covered;
    if HoldFor(input).Some? { return Plan([], HoldFor(input), []); }
    var v := ViewOf(input);
    var moves, pending := PlanMoves(v, input.base);
    if moves != [] { return Plan(moves, None, []); }
    MapKeys(input);
    var dirty := FindDirtySides(v, LocalRels(input.local), RemoteRels(input.remote));
    var p := Pass(v, dirty, pending, VanishedFolders(v));
    var keys := ByDepth(AllPaths(input));
    var actions, needsHash, gone: set<Rel> := [], [], {};
    var i := 0;
    while i < |keys|
      invariant 0 <= i <= |keys|
      invariant Drawn(actions, needsHash, gone) == DrawnUp(p, keys[..i])
    {
      assert keys[..i + 1][..i] == keys[..i];
      var key := keys[i];
      i := i + 1;
      var skip := IsCovered(key, pending + gone + v.hidden);
      var vanished := IsCovered(key, p.vanished);
      if !skip && vanished {
        // Renamed out of sight; the other side's copy syncs again as new.
        if key in v.base { actions := actions + [Forget(key)]; }
      } else if !skip {
        var decision := Decide(v, CellAt(v, key), dirty);
        if decision.action.Some? { actions := actions + [decision.action.value]; }
        if decision.hash.Some? { needsHash := needsHash + [decision.hash.value]; }
        if decision.gone { gone := gone + {key}; }
      }
    }
    assert keys[..i] == keys;
    plan := Plan(actions, None, needsHash);
  }

  // ------------------------------------------------------------------ the maps' contents

  lemma {:induction false} LocalMapAt(xs: seq<LocalFile>)
    ensures LocalMap(xs).Keys == set key | key in LocalRels(xs)
    ensures forall key <- LocalMap(xs) :: LocalMap(xs)[key].rel == key && LocalMap(xs)[key] in xs
  {
    if xs != [] {
      var n := |xs| - 1;
      LocalMapAt(xs[..n]);
      assert LocalRels(xs) == LocalRels(xs[..n]) + [xs[n].rel];
    } else {
      assert LocalRels(xs) == [];
    }
  }

  lemma {:induction false} RemoteMapAt(xs: seq<Scoped>)
    ensures RemoteMap(xs).Keys == set key | key in RemoteRels(xs)
    ensures forall key <- RemoteMap(xs) :: RemoteMap(xs)[key].rel == key && RemoteMap(xs)[key] in xs
  {
    if xs != [] {
      var n := |xs| - 1;
      RemoteMapAt(xs[..n]);
      assert RemoteRels(xs) == RemoteRels(xs[..n]) + [xs[n].rel];
    } else {
      assert RemoteRels(xs) == [];
    }
  }

  lemma {:induction false} BaseMapAt(xs: seq<BaseEntry>)
    ensures forall key <- BaseMap(xs) :: BaseMap(xs)[key].rel == key && BaseMap(xs)[key] in xs
    ensures forall x <- xs :: x.rel in BaseMap(xs)
  {
    if xs != [] { BaseMapAt(xs[..|xs| - 1]); }
  }

  lemma MapKeys(input: PlanInput)
    ensures ViewOf(input).local.Keys == set key | key in LocalRels(input.local)
    ensures ViewOf(input).remote.Keys == set key | key in RemoteRels(input.remote)
  {
    LocalMapAt(input.local);
    RemoteMapAt(input.remote);
  }
}
