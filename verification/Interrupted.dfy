/**
 * A step cut off anywhere between its filesystem calls, or finished but not
 * journalled, is carried out again.  The second attempt finds its way by what
 * exists and by the fingerprints alone.
 */
module Interrupted {
  import opened Common
  import opened Paths
  import opened Disk
  import opened Steps
  import opened Effects

  /** How far an attempt got before its process died. */
  datatype Cut =
    | Folders(made: nat)       // so many of the missing folders on the way to the target were made
    | HalfTree(left: Disk)     // a recursive delete got part of the way through its tree
    | Levels(up: nat)          // the node is gone, and so many empty artifact folders above it were looked at

  function KeyOf(step: Step): Option<Path> {
    if step.targetKey.Some? then step.targetKey else step.sourceKey
  }

  /** Part of the tree at `at` is gone; the folder itself and all else is there. */
  ghost predicate Torn(d: Disk, at: Path, left: Disk) {
    && IsTree(left) && at in left
    && (forall p <- left :: p in d && left[p] == d[p])
    && (forall p <- d :: !StrictlyInside(at, p) ==> p in left)
  }

  function PrunedSome(d: Disk, at: Path, levels: nat): Disk
    decreases levels
  {
    if levels == 0 || |at| < 3 then d
    else if at !in d then PrunedSome(d, Parent(at), levels - 1)
    else if !IsEmpty(d, at) then d
    else PrunedSome(Without(d, at), Parent(at), levels - 1)
  }

  function PrunedPartly(d: Disk, key: Path, levels: nat): Disk {
    if IsArtifact(key) then PrunedSome(d, Parent(key), levels) else d
  }

  /** The disk an attempt on `d` can leave when cut off. */
  ghost predicate Leaves(d: Disk, step: Step, owned: bool, cut: Cut, d': Disk) {
    && !ApplyStep(d, step, owned).Ambiguous?
    && match cut
       case Folders(made) =>
         && !IsCleanup(step.action) && step.targetKey.value !in d
         && made <= |step.targetKey.value| - (if step.action == Rename then 1 else 0)
         && d' == WithFolders(d, step.targetKey.value, made)
       case HalfTree(left) =>
         step.action == DeleteTree && KeyOf(step).value in d && Torn(d, KeyOf(step).value, left) && d' == left
       case Levels(up) =>
         IsCleanup(step.action) && d' == PrunedPartly(Without(d, KeyOf(step).value), KeyOf(step).value, up)
  }

  // ------------------------------------------------------------------ forward steps

  lemma FoldersTwice(d: Disk, t: Path, n: nat, m: nat)
    ensures WithFolders(WithFolders(d, t, n), t, m) == WithFolders(d, t, if n <= m then m else n)
  {
    var a, b := WithFolders(WithFolders(d, t, n), t, m), WithFolders(d, t, if n <= m then m else n);
    forall q
      ensures Lookup(a, q) == Lookup(b, q)
    {
      WithFoldersAt(d, t, n, q);
      WithFoldersAt(WithFolders(d, t, n), t, m, q);
      WithFoldersAt(d, t, if n <= m then m else n, q);
    }
    SameDisk(a, b);
  }

  /** New folders on the way to `t` stay out of a tree that `t` is not in. */
  lemma FoldersOutside(d: Disk, t: Path, n: nat, source: Path)
    requires !Inside(source, t)
    ensures Lookup(WithFolders(d, t, n), source) == Some(DirNode) ||
            Lookup(WithFolders(d, t, n), source) == Lookup(d, source)
    ensures Contents(WithFolders(d, t, n), source) == Contents(d, source)
  {
    var d' := WithFolders(d, t, n);
    WithFoldersAt(d, t, n, source);
    forall q
      ensures Lookup(Contents(d', source), q) == Lookup(Contents(d, source), q)
    {
      ContentsAt(d', source, q);
      ContentsAt(d, source, q);
      WithFoldersAt(d, t, n, source + q);
      InsideThrough(source, source + q, t);
      assert (source + q)[..|source|] == source;
    }
    SameDisk(Contents(d', source), Contents(d, source));
  }

  lemma FoldersAreSafe(d: Disk, t: Path, n: nat, p: Path)
    ensures SafeAncestors(WithFolders(d, t, n), p) <==> SafeAncestors(d, p)
  {
    forall i | 0 < i < |p|
      ensures Lookup(WithFolders(d, t, n), p[..i]) == Lookup(d, p[..i])
              || (p[..i] !in d && Lookup(WithFolders(d, t, n), p[..i]) == Some(DirNode))
    {
      WithFoldersAt(d, t, n, p[..i]);
    }
  }

  lemma ResumeRename(d: Disk, step: Step, n: nat)
    requires ApplyRename(d, step).Done? && step.targetKey.value !in d && n < |step.targetKey.value|
    ensures ApplyRename(WithFolders(d, step.targetKey.value, n), step) == ApplyRename(d, step)
  {
    hide WithFolders, SafeAncestors, ValidNode, Renamed;
    RenameSees(d, step.sourceKey.value, step.targetKey.value, n, step);
  }

  lemma RenameSees(d: Disk, s: Path, t: Path, n: nat, step: Step)
    requires n < |t| && s in d && t !in d && !Inside(s, t) && SafeAncestors(d, s) && SafeAncestors(d, t)
    ensures s in WithFolders(d, t, n) && t !in WithFolders(d, t, n)
    ensures WithFolders(WithFolders(d, t, n), t, |t| - 1) == WithFolders(d, t, |t| - 1)
    ensures SafeAncestors(WithFolders(d, t, n), s) && SafeAncestors(WithFolders(d, t, n), t)
    ensures ValidNode(WithFolders(d, t, n), s, step) <==> ValidNode(d, s, step)
  {
    hide *;
    FoldersTwice(d, t, n, |t| - 1);
    FoldersAreSafe(d, t, n, s);
    FoldersAreSafe(d, t, n, t);
    SourceSeen(d, t, n, s, step);
  }

  lemma SourceSeen(d: Disk, t: Path, n: nat, s: Path, step: Step)
    requires s in d && !Inside(s, t) && t !in d && n < |t|
    ensures s in WithFolders(d, t, n) && t !in WithFolders(d, t, n)
    ensures ValidNode(WithFolders(d, t, n), s, step) <==> ValidNode(d, s, step)
  {
    hide ValidNode;
    FoldersOutside(d, t, n, s);
    WithFoldersAt(d, t, n, s);
    WithFoldersAt(d, t, n, t);
    SameSource(d, WithFolders(d, t, n), s, step);
  }

  lemma SameSource(d: Disk, d': Disk, s: Path, step: Step)
    requires Lookup(d', s) == Lookup(d, s) && Contents(d', s) == Contents(d, s)
    ensures ValidNode(d', s, step) <==> ValidNode(d, s, step)
  {
  }

  lemma ResumeMkdir(d: Disk, step: Step, n: nat)
    requires ApplyMkdir(d, step).Done? && step.targetKey.value !in d && n < |step.targetKey.value|
    ensures ApplyMkdir(WithFolders(d, step.targetKey.value, n), step) == ApplyMkdir(d, step)
  {
    var t := step.targetKey.value;
    FoldersTwice(d, t, n, |t|);
    FoldersAreSafe(d, t, n, t);
    WithFoldersAt(d, t, n, t);
  }

  /** The moved node is found at the target, with the fingerprint of the source. */
  lemma ReplayRename(d: Disk, step: Step)
    requires IsTree(d) && step.action == Rename && ApplyRename(d, step).Done?
    ensures ApplyRename(ApplyRename(d, step).disk, step) == ApplyRename(d, step)
  {
    if EffectOf(d, step).Moves? {
      var s, t := step.sourceKey.value, step.targetKey.value;
      var d' := ApplyRename(d, step).disk;
      DoneMeans(d, step, false);
      StaysTree(d, EffectOf(d, step), d');
      MovedTree(d, EffectOf(d, step), d');
      TreeIsSafe(d', t);
      GoneIsSafe(d, EffectOf(d, step), d');
    }
  }

  lemma MovedTree(d: Disk, e: Effect, d': Disk)
    requires IsTree(d) && Fitting(e, d) && e.Moves?
    requires forall q :: Lookup(d', q) == After(e, d, q)
    ensures Lookup(d', e.target) == Lookup(d, e.source) && e.source !in d'
    ensures Contents(d', e.target) == Contents(d, e.source)
  {
    assert Lookup(d', e.target) == After(e, d, e.target);
    assert e.target[|e.target|..] == [] && e.source + [] == e.source;
    assert Lookup(d', e.source) == After(e, d, e.source);
    forall q
      ensures Lookup(Contents(d', e.target), q) == Lookup(Contents(d, e.source), q)
    {
      ContentsAt(d', e.target, q);
      ContentsAt(d, e.source, q);
      assert Lookup(d', e.target + q) == After(e, d, e.target + q);
      assert (e.target + q)[|e.target|..] == q;
    }
    SameDisk(Contents(d', e.target), Contents(d, e.source));
  }

  lemma GoneIsSafe(d: Disk, e: Effect, d': Disk)
    requires IsTree(d) && Fitting(e, d) && e.Moves?
    requires forall q :: Lookup(d', q) == After(e, d, q)
    ensures SafeAncestors(d', e.source)
  {
    forall i | 0 < i < |e.source| && e.source[..i] in d'
      ensures d'[e.source[..i]] == DirNode
    {
      var q := e.source[..i];
      TreeUp(d, e.source, q);
      assert Lookup(d', q) == After(e, d, q);
      InsideThrough(e.target, q, e.source);
    }
  }

  /** A folder made by `mkdir` is recognised exactly when its digest is that of an empty folder. */
  lemma ReplayMkdir(d: Disk, step: Step)
    requires IsTree(d) && ApplyMkdir(d, step).Done?
    ensures ApplyMkdir(ApplyMkdir(d, step).disk, step) == ApplyMkdir(d, step)
            <==> step.targetKey.value in d || step.treeManifestDigest == Some(map[])
  {
    var t := step.targetKey.value;
    if t !in d {
      var d' := WithFolders(d, t, |t|);
      WithFoldersAt(d, t, |t|, t);
      FoldersAreSafe(d, t, |t|, t);
      forall q
        ensures Lookup(Contents(d', t), q) == None
      {
        ContentsAt(d', t, q);
        WithFoldersAt(d, t, |t|, t + q);
        if t + q in d { TreeUp(d, t + q, t); }
      }
      SameDisk(Contents(d', t), map[]);
    }
  }

  /** With another digest it is not: done and not journalled, the step stops for an operator. */
  lemma MkdirNotRecognised()
    ensures var step := Step(Mkdir, None, Some(["a"]), Some(Folder), None, None, Some(map[["f"] := DirNode]), false);
            && ApplyMkdir(map[], step).Done?
            && ApplyMkdir(ApplyMkdir(map[], step).disk, step).Ambiguous?
  {
    var step := Step(Mkdir, None, Some(["a"]), Some(Folder), None, None, Some(map[["f"] := DirNode]), false);
    var d := WithFolders(map[], ["a"], 1);
    WithFoldersAt(map[], ["a"], 1, ["a"]);
    WithFoldersAt(map[], ["a"], 1, ["a", "f"]);
    ContentsAt(d, ["a"], ["f"]);
    assert ["a"] + ["f"] == ["a", "f"] && ["f"] !in Contents(d, ["a"]);
  }

  // ------------------------------------------------------------------------ deletes

  lemma {:induction false} PrunedTwice(d: Disk, at: Path, n: nat, m: nat)
    ensures PrunedSome(PrunedSome(d, at, n), at, m) == PrunedSome(d, at, if n <= m then m else n)
    decreases n
  {
    if n == 0 || m == 0 || |at| < 3 {
    } else if at !in d {
      PrunedShrinks(d, Parent(at), n - 1);
      PrunedTwice(d, Parent(at), n - 1, m - 1);
    } else if IsEmpty(d, at) {
      PrunedShrinks(Without(d, at), Parent(at), n - 1);
      PrunedTwice(Without(d, at), Parent(at), n - 1, m - 1);
    }
  }

  lemma {:induction false} PrunedShrinks(d: Disk, at: Path, n: nat)
    ensures forall p <- PrunedSome(d, at, n) :: p in d && PrunedSome(d, at, n)[p] == d[p]
    decreases n
  {
    if n != 0 && |at| >= 3 {
      if at !in d { PrunedShrinks(d, Parent(at), n - 1); }
      else if IsEmpty(d, at) { PrunedShrinks(Without(d, at), Parent(at), n - 1); }
    }
  }

  lemma {:induction false} PrunedWhole(d: Disk, at: Path, n: nat)
    requires |at| <= n
    ensures PrunedSome(d, at, n) == PrunedUp(d, at)
    decreases n
  {
    if |at| >= 3 {
      if at !in d { PrunedWhole(d, Parent(at), n - 1); }
      else if IsEmpty(d, at) { PrunedWhole(Without(d, at), Parent(at), n - 1); }
    }
  }

  lemma PartlyTwice(d: Disk, key: Path, n: nat, m: nat)
    requires key != []
    ensures PrunedPartly(PrunedPartly(d, key, n), key, m) == PrunedPartly(d, key, if n <= m then m else n)
    ensures |key| <= n ==> PrunedPartly(d, key, n) == Pruned(d, key)
    ensures forall p <- PrunedPartly(d, key, n) :: p in d && PrunedPartly(d, key, n)[p] == d[p]
  {
    PrunedTwice(d, Parent(key), n, m);
    PrunedShrinks(d, Parent(key), n);
    if |key| <= n { PrunedWhole(d, Parent(key), n); }
  }

  lemma SubdiskIsSafe(d: Disk, left: Disk, p: Path)
    requires SafeAncestors(d, p) && forall q <- left :: q in d && left[q] == d[q]
    ensures SafeAncestors(left, p)
  {
  }

  lemma NothingWithin(d: Disk, at: Path)
    requires at !in d && at != [] && IsTree(d)
    ensures Without(d, at) == d
  {
    forall p | p in d
      ensures !Inside(at, p)
    {
      if Inside(at, p) { TreeUp(d, p, at); }
    }
  }

  /** A delete that succeeds, whatever was left to delete. */
  lemma DeleteMeans(d: Disk, step: Step, owned: bool)
    requires IsTree(d) && IsCleanup(step.action) && ApplyStep(d, step, owned).Done?
    ensures KeyOf(step).Some? && KeyOf(step).value != [] && SafeAncestors(d, KeyOf(step).value)
    ensures ApplyStep(d, step, owned).disk == Pruned(Without(d, KeyOf(step).value), KeyOf(step).value)
  {
    if KeyOf(step).value !in d { NothingWithin(d, KeyOf(step).value); }
  }

  // ---------------------------------------------------------------- a second attempt

  /** Where an attempt on `d` may have left the disk: not begun, cut off, or finished. */
  ghost predicate Partway(d: Disk, step: Step, owned: bool, d': Disk) {
    || d' == d
    || ApplyStep(d, step, owned) == Done(d')
    || exists cut :: Leaves(d, step, owned, cut, d')
  }

  /** A tree that is half deleted, and not the mutation's own quarantine. */
  predicate StuckHalfTree(d: Disk, step: Step, owned: bool) {
    && step.action == DeleteTree && !owned && KeyOf(step).Some? && KeyOf(step).value in d
    && step.treeManifestDigest.Some? && Contents(d, KeyOf(step).value) != step.treeManifestDigest.value
  }

  predicate MakesEmpty(step: Step) {
    step.action == Mkdir ==> step.treeManifestDigest == Some(map[])
  }

  /** A forward step carried out again ends as if it had been carried out once. */
  lemma ResumeForward(d: Disk, step: Step, owned: bool, d': Disk)
    requires IsTree(d) && !IsCleanup(step.action) && ApplyStep(d, step, owned).Done? && MakesEmpty(step)
    requires Partway(d, step, owned, d')
    ensures ApplyStep(d', step, owned) == ApplyStep(d, step, owned)
  {
    if ApplyStep(d, step, owned) == Done(d') {
      if step.action == Rename { ReplayRename(d, step); } else { ReplayMkdir(d, step); }
    } else if d' != d {
      var cut :| Leaves(d, step, owned, cut, d');
      ResumeCut(d, step, owned, cut, d');
    }
    hide ApplyRename, ApplyMkdir, ApplyDelete, Leaves;
  }

  lemma ResumeCut(d: Disk, step: Step, owned: bool, cut: Cut, d': Disk)
    requires IsTree(d) && !IsCleanup(step.action) && ApplyStep(d, step, owned).Done? && MakesEmpty(step)
    requires Leaves(d, step, owned, cut, d')
    ensures ApplyStep(d', step, owned) == ApplyStep(d, step, owned)
  {
    HasTarget(d, step);
    ForwardCut(d, step, owned, cut, d');
    if step.action == Rename { ResumeRename(d, step, cut.made); } else { ResumeMkdirs(d, step, cut.made); }
    hide *;
  }

  lemma ResumeMkdirs(d: Disk, step: Step, made: nat)
    requires IsTree(d) && step.action == Mkdir && ApplyMkdir(d, step).Done? && MakesEmpty(step)
    requires step.targetKey.value !in d && made <= |step.targetKey.value|
    ensures ApplyMkdir(WithFolders(d, step.targetKey.value, made), step) == ApplyMkdir(d, step)
  {
    if made < |step.targetKey.value| { ResumeMkdir(d, step, made); } else { FullyMade(d, step); }
    hide *;
  }

  lemma FullyMade(d: Disk, step: Step)
    requires IsTree(d) && step.action == Mkdir && ApplyMkdir(d, step).Done? && MakesEmpty(step)
    requires step.targetKey.value !in d
    ensures ApplyMkdir(WithFolders(d, step.targetKey.value, |step.targetKey.value|), step) == ApplyMkdir(d, step)
  {
    ReplayMkdir(d, step);
    hide WithFolders, TreeMatches;
  }

  lemma ForwardCut(d: Disk, step: Step, owned: bool, cut: Cut, d': Disk)
    requires !IsCleanup(step.action) && step.targetKey.Some? && Leaves(d, step, owned, cut, d')
    ensures cut.Folders? && step.targetKey.value !in d && d' == WithFolders(d, step.targetKey.value, cut.made)
    ensures cut.made <= |step.targetKey.value| - if step.action == Rename then 1 else 0
  {
    hide ApplyStep, WithFolders;
  }

  lemma HasTarget(d: Disk, step: Step)
    requires !IsCleanup(step.action) && ApplyStep(d, step, false).Done?
    ensures step.targetKey.Some? && step.targetKey.value != []
  {
  }

  /** A delete carried out again ends the same too, or finds a half-deleted tree and stops. */
  lemma ResumeDelete(d: Disk, step: Step, owned: bool, d': Disk)
    requires IsTree(d) && IsCleanup(step.action) && ApplyStep(d, step, owned).Done?
    requires Partway(d, step, owned, d')
    ensures StuckHalfTree(d', step, owned) || ApplyStep(d', step, owned) == ApplyStep(d, step, owned)
    ensures StuckHalfTree(d', step, owned) ==> ApplyStep(d', step, owned).Ambiguous?
  {
    var at := KeyOf(step).value;
    DeleteMeans(d, step, owned);
    if d' != d {
      DeleteCuts(d, step, owned, d');
      if Torn(d, at, d') {
        SubdiskIsSafe(d, d', at);
        TornWithout(d, at, d');
      } else {
        var up: nat :| d' == PrunedPartly(Without(d, at), at, up);
        PartlyTwice(Without(d, at), at, up, |at|);
        PartlyTwice(Without(d, at), at, if up <= |at| then |at| else up, 0);
        PartlyTwice(d', at, |at|, 0);
        SubdiskIsSafe(d, d', at);
      }
    }
  }

  lemma TornWithout(d: Disk, at: Path, left: Disk)
    requires Torn(d, at, left)
    ensures Without(left, at) == Without(d, at)
  {
  }

  /** A cut-off or finished delete left a torn tree, or has removed its node. */
  lemma DeleteCuts(d: Disk, step: Step, owned: bool, d': Disk)
    requires IsTree(d) && IsCleanup(step.action) && ApplyStep(d, step, owned).Done?
    requires Partway(d, step, owned, d') && d' != d
    ensures KeyOf(step).Some? && KeyOf(step).value != []
    ensures var at := KeyOf(step).value;
            || (step.action == DeleteTree && at in d && d[at] == DirNode && Torn(d, at, d'))
            || exists up: nat :: d' == PrunedPartly(Without(d, at), at, up)
  {
    var at := KeyOf(step).value;
    DeleteMeans(d, step, owned);
    if ApplyStep(d, step, owned) == Done(d') {
      PartlyTwice(Without(d, at), at, |at|, 0);
      assert d' == PrunedPartly(Without(d, at), at, |at|);
    } else {
      var cut :| Leaves(d, step, owned, cut, d');
      if cut.Levels? { assert d' == PrunedPartly(Without(d, at), at, cut.up); }
    }
  }

  /** Cutting off a second attempt leaves what cutting off the first could have left. */
  lemma PartwayAgain(d: Disk, step: Step, owned: bool, d': Disk, cut: Cut, d'': Disk)
    requires IsTree(d) && ApplyStep(d, step, owned).Done?
    requires Partway(d, step, owned, d') && Leaves(d', step, owned, cut, d'')
    ensures Partway(d, step, owned, d'')
  {
    if d' == d {
      assert Leaves(d, step, owned, cut, d'');
    } else if IsCleanup(step.action) {
      DeleteAgain(d, step, owned, d', cut, d'');
    } else {
      ForwardAgain(d, step, owned, d', cut, d'');
    }
  }

  lemma TargetIsThere(d: Disk, step: Step, owned: bool)
    requires IsTree(d) && !IsCleanup(step.action) && ApplyStep(d, step, owned).Done?
    ensures step.targetKey.Some? && step.targetKey.value in ApplyStep(d, step, owned).disk
  {
    var t := step.targetKey.value;
    DoneMeans(d, step, owned);
    assert Lookup(ApplyStep(d, step, owned).disk, t) == After(EffectOf(d, step), d, t);
    assert step.action == Rename ==> step.sourceKey.value + t[|t|..] == step.sourceKey.value;
  }

  lemma ForwardAgain(d: Disk, step: Step, owned: bool, d': Disk, cut: Cut, d'': Disk)
    requires IsTree(d) && !IsCleanup(step.action) && ApplyStep(d, step, owned).Done? && d' != d
    requires Partway(d, step, owned, d') && Leaves(d', step, owned, cut, d'')
    ensures Partway(d, step, owned, d'')
  {
    var t := step.targetKey.value;
    if ApplyStep(d, step, owned) == Done(d') {
      TargetIsThere(d, step, owned);
    } else {
      var first :| Leaves(d, step, owned, first, d');
      FoldersTwice(d, t, first.made, cut.made);
      assert Leaves(d, step, owned, Folders(if first.made <= cut.made then cut.made else first.made), d'');
    }
  }

  lemma DeleteAgain(d: Disk, step: Step, owned: bool, d': Disk, cut: Cut, d'': Disk)
    requires IsTree(d) && IsCleanup(step.action) && ApplyStep(d, step, owned).Done? && d' != d
    requires Partway(d, step, owned, d') && Leaves(d', step, owned, cut, d'')
    ensures Partway(d, step, owned, d'')
  {
    var at := KeyOf(step).value;
    DeleteMeans(d, step, owned);
    DeleteCuts(d, step, owned, d');
    if Torn(d, at, d') {
      TornWithout(d, at, d');
      assert cut.HalfTree? ==> Leaves(d, step, owned, HalfTree(d''), d'');
      assert cut.Levels? ==> Leaves(d, step, owned, cut, d'');
    } else {
      var up: nat :| d' == PrunedPartly(Without(d, at), at, up);
      PartlyTwice(Without(d, at), at, up, if cut.Levels? then cut.up else 0);
      assert at !in d';
      assert Without(d', at) == d';
      assert cut.Levels? ==> Leaves(d, step, owned, Levels(if up <= cut.up then cut.up else up), d'');
    }
  }
}
