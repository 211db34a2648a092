/** What a forward step changes, path by path, and what it leaves alone. */
module Effects {
  import opened Common
  import opened Paths
  import opened Disk
  import opened Steps

  datatype Effect = Nothing | Moves(source: Path, target: Path) | Makes(target: Path)

  function EffectOf(d: Disk, step: Step): Effect {
    if step.action == Rename then
      if RenameIntent(step) && step.sourceKey.value in d
      then Moves(step.sourceKey.value, step.targetKey.value) else Nothing
    else if step.targetKey.Some? && step.targetKey.value !in d then Makes(step.targetKey.value)
    else Nothing
  }

  /** A folder on the way to `p`. */
  predicate Above(q: Path, p: Path) {
    q != [] && StrictlyInside(q, p)
  }

  function After(e: Effect, d: Disk, q: Path): Option<Node> {
    match e
    case Nothing => Lookup(d, q)
    case Moves(source, target) =>
      if Inside(target, q) then Lookup(d, source + q[|target|..])
      else if Inside(source, q) then None
      else if q !in d && Above(q, target) then Some(DirNode)
      else Lookup(d, q)
    case Makes(target) =>
      if q !in d && (q == target || Above(q, target)) then Some(DirNode) else Lookup(d, q)
  }

  ghost predicate Fitting(e: Effect, d: Disk) {
    match e
    case Nothing => true
    case Moves(source, target) =>
      && source != [] && target != [] && source in d && target !in d && Apart(source, target)
      && SafeAncestors(d, target)
    case Makes(target) => target != [] && target !in d && SafeAncestors(d, target)
  }

  lemma {:induction false} TreeUp(d: Disk, p: Path, q: Path)
    requires IsTree(d) && p in d && q != [] && Inside(q, p)
    ensures q in d && (q != p ==> d[q] == DirNode)
    decreases |p|
  {
    assert HasFolder(d, p);
    if q != p {
      assert Inside(q, Parent(p));
      TreeUp(d, Parent(p), q);
    }
  }

  lemma TreeIsSafe(d: Disk, p: Path)
    requires IsTree(d) && p in d
    ensures SafeAncestors(d, p)
  {
    forall i | 0 < i < |p| && p[..i] in d
      ensures d[p[..i]] == DirNode
    {
      TreeUp(d, p, p[..i]);
    }
  }

  lemma SafeAt(d: Disk, p: Path, q: Path)
    requires SafeAncestors(d, p) && Above(q, p) && q in d
    ensures d[q] == DirNode
  {
    assert q == p[..|q|];
  }

  lemma InsideThrough(a: Path, b: Path, c: Path)
    ensures Inside(a, b) && Inside(b, c) ==> Inside(a, c)
  {
    if Inside(a, b) && Inside(b, c) {
      assert c[..|a|] == b[..|a|];
    }
  }

  lemma RenamedMeans(d: Disk, s: Path, t: Path, q: Path)
    requires t != [] && !Inside(s, t) && t !in d && !Inside(t, s)
    ensures Lookup(Renamed(WithFolders(d, t, |t| - 1), s, t), q) == After(Moves(s, t), d, q)
  {
    var ready := WithFolders(d, t, |t| - 1);
    RenamedAt(ready, s, t, q);
    WithFoldersAt(d, t, |t| - 1, q);
    hide Renamed, WithFolders;
    if Inside(t, q) {
      var o := s + q[|t|..];
      WithFoldersAt(d, t, |t| - 1, o);
      assert o[..|s|] == s;
      InsideThrough(s, o, t);
    }
  }

  /** A rename that succeeds found its source there and its target free, or was done already. */
  lemma RenameDone(d: Disk, step: Step)
    requires IsTree(d) && step.action == Rename && ApplyRename(d, step).Done?
    ensures Fitting(EffectOf(d, step), d)
    ensures EffectOf(d, step).Moves? ==>
              ApplyRename(d, step).disk
              == Renamed(WithFolders(d, step.targetKey.value, |step.targetKey.value| - 1), step.sourceKey.value,
                step.targetKey.value)
    ensures EffectOf(d, step) == Nothing ==> ApplyRename(d, step).disk == d
  {
    var e := EffectOf(d, step);
    if e.Moves? && Inside(e.target, e.source) { TreeUp(d, e.source, e.target); }
    hide IsTree, Renamed, WithFolders, ValidNode;
  }

  /** A forward step that succeeds changes exactly this. */
  lemma DoneMeans(d: Disk, step: Step, owned: bool)
    requires IsTree(d) && !IsCleanup(step.action) && ApplyStep(d, step, owned).Done?
    ensures Fitting(EffectOf(d, step), d)
    ensures forall q :: Lookup(ApplyStep(d, step, owned).disk, q) == After(EffectOf(d, step), d, q)
  {
    var e := EffectOf(d, step);
    if step.action == Rename {
      RenameDone(d, step);
      hide ApplyRename, Renamed, WithFolders, EffectOf;
      if e.Moves? { forall q { RenamedMeans(d, e.source, e.target, q); } }
    } else if e.Makes? {
      forall q
        ensures Lookup(WithFolders(d, e.target, |e.target|), q) == After(e, d, q)
      {
        WithFoldersAt(d, e.target, |e.target|, q);
      }
    }
  }

  /** Forward steps keep the disk a tree. */
  lemma StaysTree(d: Disk, e: Effect, d': Disk)
    requires IsTree(d) && Fitting(e, d)
    requires forall q :: Lookup(d', q) == After(e, d, q)
    ensures IsTree(d')
  {
    assert Lookup(d', []) == After(e, d, []);
    assert [] !in d' by { if e.Moves? { assert !Inside(e.target, []); } }
    forall p | p in d'
      ensures HasFolder(d', p)
    {
      assert Lookup(d', p) == After(e, d, p);
      if |p| > 1 {
        assert Lookup(d', Parent(p)) == After(e, d, Parent(p));
        FolderStays(d, e, p);
      }
    }
  }

  lemma FolderStays(d: Disk, e: Effect, p: Path)
    requires IsTree(d) && Fitting(e, d) && |p| > 1 && After(e, d, p).Some?
    ensures After(e, d, Parent(p)) == Some(DirNode)
  {
    var up := Parent(p);
    match e
    case Nothing =>
      assert HasFolder(d, p);
    case Makes(t) =>
      if p in d { assert HasFolder(d, p); }
      else {
        assert Above(up, t);
        if up in d { SafeAt(d, t, up); }
      }
    case Moves(s, t) =>
      if p == t {
        assert Above(up, t);
        if up in d { SafeAt(d, t, up); }
        assert Inside(s, up) ==> Inside(s, t);
      } else if Inside(t, p) {
        var o := s + p[|t|..];
        assert HasFolder(d, o);
        assert Parent(o) == s + up[|t|..];
      } else {
        assert !Inside(t, up);
        if p in d {
          assert HasFolder(d, p);
          assert Inside(s, up) ==> Inside(s, p);
        } else {
          assert Above(up, t);
          if up in d { SafeAt(d, t, up); }
          assert Inside(s, up) ==> Inside(s, t);
        }
      }
  }
}
