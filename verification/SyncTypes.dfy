/** What the desktop planner reads and what it answers with. */
module SyncTypes {
  import opened Common
  import opened Paths

  /** A path below the pair's folder, by its names; the folder itself is the empty path. */
  type Rel = Path

  datatype Mode = TwoWay | DownloadOnly | UploadOnly

  const UNKNOWN_INO := "0"

  datatype LocalFile = LocalFile(rel: Rel, kind: NodeType, size: int, mtimeMs: int, ino: string,
    checksum: Option<string>)

  /** A server item; some files have no checksum. */
  datatype Item = Item(id: string, kind: NodeType, rev: int, checksum: Option<string>)

  datatype Scoped = Scoped(rel: Rel, item: Item)

  /** The last state both sides agreed on, for one path. */
  datatype BaseEntry = BaseEntry(
    rel: Rel, kind: NodeType, remoteId: string, rev: int, checksum: Option<string>,
    size: int, mtimeMs: int, ino: string)

  datatype Side = Local | Server

  /** A path sync leaves alone, with the inode or the server id behind it. */
  datatype Excluded = Excluded(side: Side, rel: Rel, ino: Option<string>, remoteId: Option<string>)

  datatype PlanInput = PlanInput(
    mode: Mode, local: seq<LocalFile>, remote: seq<Scoped>, skipped: seq<Scoped>, excluded: seq<Excluded>,
    base: seq<BaseEntry>, allowEmptied: bool)

  datatype Action =
    | MoveLocal(source: Rel, target: Rel, remote: Item)
    | MoveRemote(source: Rel, target: Rel, base: BaseEntry, local: LocalFile)
    | Mkdir(rel: Rel, remote: Item)
    | CreateRemoteFolder(rel: Rel, local: LocalFile)
    | Download(rel: Rel, remote: Item, replacing: Option<LocalFile>)
    | Upload(rel: Rel, local: LocalFile, replace: Option<Item>)
    | KeepMine(rel: Rel, local: LocalFile, remote: Item)
    | ConflictCopy(rel: Rel, local: LocalFile, localOnly: bool, unverified: Option<Unverified>)
    | TrashLocal(rel: Rel, local: LocalFile)
    | TrashRemote(rel: Rel, remote: Item)
    | Link(rel: Rel, local: LocalFile, remote: Item)
    | Forget(rel: Rel)

  datatype Unverified = Unverified(remote: Item, checksum: Option<string>)

  datatype Plan = Plan(actions: seq<Action>, hold: Option<Side>, needsHash: seq<LocalFile>)

  // ----------------------------------------------------------------------- comparisons

  predicate SameStat(a: LocalFile, b: BaseEntry) {
    a.size == b.size && a.mtimeMs == b.mtimeMs && a.ino == b.ino
  }

  /** Some server files have no checksum; only their revision can show a change. */
  predicate SameOnServer(previous: BaseEntry, item: Item) {
    if item.checksum.None? then previous.rev == item.rev else item.checksum == previous.checksum
  }

  // ----------------------------------------------------------------------------- paths

  /** Whether `key` or one of its folders is in the set. */
  predicate Covered(key: Rel, keys: set<Rel>) {
    exists n :: 0 < n <= |key| && key[..n] in keys
  }

  /** The folders on the way to any of the paths. */
  function ProperAncestors(keys: set<Rel>): set<Rel> {
    set key, n | key in keys && 0 < n < |key| :: key[..n]
  }

  /** `covered`, walking up from the path. */
  method IsCovered(key: Rel, keys: set<Rel>) returns (yes: bool)
    ensures yes <==> Covered(key, keys)
  {
    var each := key;
    while each != []
      invariant |each| <= |key| && each == key[..|each|]
      invariant forall n | |each| < n <= |key| :: key[..n] !in keys
    {
      if each in keys { return true; }
      each := Parent(each);
    }
    return false;
  }

  /** Every folder on the way to a path of the set is in the set. */
  predicate ClosedUp(dirty: set<Rel>) {
    forall key, n | key in dirty && 0 < n < |key| :: key[..n] in dirty
  }

  /** The unclean paths among the first `n`. */
  function Unclean(keys: seq<Rel>, isClean: Rel -> bool, n: nat): set<Rel>
    requires n <= |keys|
  {
    set j | 0 <= j < n && !isClean(keys[j]) :: keys[j]
  }

  /**
   * `dirtyFolders`: exactly the folders on the way to an unclean path, although
   * the walk up stops at the first one already found.
   */
  method DirtyFolders(keys: seq<Rel>, isClean: Rel -> bool) returns (dirty: set<Rel>)
    ensures dirty == ProperAncestors(set key | key in keys && !isClean(key))
  {
    AllUnclean(keys, isClean);
    NoneUnclean(keys, isClean);
    hide ProperAncestors, Unclean, ClosedUp;
    dirty := {};
    var i := 0;
    while i < |keys|
      invariant 0 <= i <= |keys|
      invariant dirty == ProperAncestors(Unclean(keys, isClean, i)) && ClosedUp(dirty)
    {
      var key := keys[i];
      NextUnclean(keys, isClean, i);
      if !isClean(key) && key != [] {
        ghost var before := dirty;
        var parent := Parent(key);
        while parent != [] && parent !in dirty
          invariant |parent| < |key| && parent == key[..|parent|]
          invariant forall p :: p in dirty <==> p in before || (|parent| < |p| < |key| && p == key[..|p|])
          decreases |parent|
        {
          dirty := dirty + {parent};
          parent := Parent(parent);
        }
        StoppedRight(before, key, parent, dirty);
      }
      i := i + 1;
    }
  }

  lemma NoneUnclean(keys: seq<Rel>, isClean: Rel -> bool)
    ensures ProperAncestors(Unclean(keys, isClean, 0)) == {} && ClosedUp({})
  {
  }

  lemma AllUnclean(keys: seq<Rel>, isClean: Rel -> bool)
    ensures Unclean(keys, isClean, |keys|) == set key | key in keys && !isClean(key)
  {
  }

  lemma NextUnclean(keys: seq<Rel>, isClean: Rel -> bool, i: nat)
    requires i < |keys|
    ensures ProperAncestors(Unclean(keys, isClean, i + 1)) ==
            ProperAncestors(Unclean(keys, isClean, i))
            + if isClean(keys[i]) || keys[i] == [] then {} else ProperAncestors({keys[i]})
  {
    var a, b := Unclean(keys, isClean, i + 1), Unclean(keys, isClean, i);
    assert a == b + if isClean(keys[i]) then {} else {keys[i]};
  }

  /** Stopping at a folder already found leaves nothing out: the folders above it were found with it. */
  lemma StoppedRight(before: set<Rel>, key: Rel, parent: Rel, dirty: set<Rel>)
    requires key != [] && |parent| < |key| && parent == key[..|parent|] && ClosedUp(before)
    requires parent == [] || parent in before
    requires forall p :: p in dirty <==> p in before || (|parent| < |p| < |key| && p == key[..|p|])
    ensures dirty == before + ProperAncestors({key}) && ClosedUp(dirty)
  {
    forall n | 0 < n < |key|
      ensures key[..n] in dirty
    {
      if n < |parent| { assert key[..n] == parent[..n]; }
    }
    forall p | p in ProperAncestors({key})
      ensures p in dirty
    {
      var n :| 0 < n < |key| && p == key[..n];
    }
    forall p | p in dirty && p !in before
      ensures p in ProperAncestors({key})
    {
    }
    forall p, n | p in dirty && 0 < n < |p|
      ensures p[..n] in dirty
    {
      if p !in before { assert p[..n] == key[..n]; }
    }
  }
}
