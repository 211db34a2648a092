/**
 * Undoing the marked forward steps, newest first.  Folders made on the way to
 * a target are never undone; they are also the one thing that can stand in
 * the way of an earlier step's undo.
 */
module Rollback {
  import opened Common
  import opened Paths
  import opened Disk
  import opened Steps
  import opened Effects
  import opened Interrupted
  import opened Recovery
  import opened Conservation

  predicate ToUndo(step: Step) {
    step.applied && !IsCleanup(step.action)
  }

  function PathsOf(step: Step): set<Path> {
    (if step.action == Rename && step.sourceKey.Some? then {step.sourceKey.value} else {}) +
    (if step.targetKey.Some? then {step.targetKey.value} else {})
  }

  /** The disk after the marked forward steps among the first `n`. */
  function Ran(start: Disk, steps: seq<Step>, n: nat): Disk
    requires n <= |steps|
    decreases n
  {
    if n == 0 then start
    else
      var d := Ran(start, steps, n - 1);
      if ToUndo(steps[n - 1]) then ApplyStep(d, steps[n - 1], false).disk else d
  }

  /** Every step marked as applied was carried out, and changed the disk. */
  ghost predicate AllChanged(start: Disk, steps: seq<Step>) {
    forall k | 0 <= k < |steps| && ToUndo(steps[k]) :: Changes(Ran(start, steps, k), steps[k])
  }

  predicate Changes(d: Disk, step: Step) {
    ApplyStep(d, step, false).Done? && EffectOf(d, step) != Nothing
  }

  /** The folders a step makes on the way to its target. */
  ghost function Made(d: Disk, step: Step): iset<Path> {
    iset q | step.targetKey.Some? && Above(q, step.targetKey.value) && q !in d
  }

  /**
   * Those made by the marked forward steps from `n` on, and `left`: what a step
   * that was refused or cut off, and so is not marked, has made.
   */
  ghost function MadeFrom(start: Disk, steps: seq<Step>, n: nat, left: iset<Path>): iset<Path>
    requires n <= |steps|
    decreases |steps| - n
  {
    if n == |steps| then left
    else
      (if ToUndo(steps[n]) then Made(Ran(start, steps, n), steps[n]) else iset{}) + MadeFrom(start, steps, n + 1, left)
  }

  ghost predicate ClearOf(step: Step, made: iset<Path>) {
    forall p, q | p in PathsOf(step) && q in made :: !Inside(p, q)
  }

  /** No later step made a folder at or inside a path of an earlier one. */
  ghost predicate NothingInTheWay(start: Disk, steps: seq<Step>, n: nat, left: iset<Path>)
    requires n <= |steps|
  {
    forall k | 0 <= k < n && ToUndo(steps[k]) :: ClearOf(steps[k], MadeFrom(start, steps, k + 1, left))
  }

  /** `u` is `d` with folders at the paths of `extra`, none of which `d` has. */
  ghost predicate Plus(d: Disk, extra: iset<Path>, u: Disk) {
    forall q :: PlusAt(d, extra, u, q)
  }

  ghost predicate PlusAt(d: Disk, extra: iset<Path>, u: Disk, q: Path) {
    if q in extra then q !in d && Lookup(u, q) == Some(DirNode) else Lookup(u, q) == Lookup(d, q)
  }

  // ------------------------------------------------------------------- one step undone

  /** An undo rename goes ahead when no left-over folder is in its way. */
  lemma UndoMoveGoes(d: Disk, step: Step, d': Disk, extra: iset<Path>, u: Disk)
    requires IsTree(d) && step.action == Rename && step.applied && Changes(d, step)
    requires d' == ApplyStep(d, step, false).disk && IsTree(u) && Plus(d', extra, u)
    requires ClearOf(step, extra)
    ensures UndoStep(u, step).Done?
    ensures EffectOf(u, Swapped(step)) == Moves(step.targetKey.value, step.sourceKey.value)
  {
    var s, t := step.sourceKey.value, step.targetKey.value;
    var e := EffectOf(d, step);
    DoneMeans(d, step, false);
    MovedTree(d, e, d');
    GoneIsSafe(d, e, d');
    assert t in d' && PlusAt(d', extra, u, t) && PlusAt(d', extra, u, s);
    assert t in PathsOf(step) && s in PathsOf(step);
    assert s !in extra && t !in extra;
    TreeIsSafe(u, t);
    PlusIsSafe(d', extra, u, s);
    PlusContents(d', extra, u, t);
    MovedIsValid(d, u, s, t, step);
    hide Contents, Plus, SafeAncestors, ValidNode, Leaves, IsTree, Renamed, WithFolders, ClearOf;
  }

  lemma MovedIsValid(d: Disk, u: Disk, s: Path, t: Path, step: Step)
    requires ValidNode(d, s, step) && Lookup(u, t) == Lookup(d, s) && Contents(u, t) == Contents(d, s)
    ensures ValidNode(u, t, Swapped(step))
  {
  }

  lemma PlusIsSafe(d: Disk, extra: iset<Path>, u: Disk, p: Path)
    requires SafeAncestors(d, p) && Plus(d, extra, u)
    ensures SafeAncestors(u, p)
  {
    forall i | 0 < i < |p| && p[..i] in u
      ensures u[p[..i]] == DirNode
    {
      assert PlusAt(d, extra, u, p[..i]);
    }
  }

  lemma PlusContents(d: Disk, extra: iset<Path>, u: Disk, t: Path)
    requires Plus(d, extra, u)
    requires forall q <- extra :: !Inside(t, q)
    ensures Contents(u, t) == Contents(d, t)
  {
    forall q
      ensures Lookup(Contents(u, t), q) == Lookup(Contents(d, t), q)
    {
      ContentsAt(u, t, q);
      ContentsAt(d, t, q);
      assert Inside(t, t + q) && PlusAt(d, extra, u, t + q);
    }
    SameDisk(Contents(u, t), Contents(d, t));
  }

  /** The move is put back; only the folders it made on its way stay. */
  lemma UndoMoveBack(d: Disk, step: Step, d': Disk, extra: iset<Path>, u: Disk, q: Path)
    requires IsTree(d) && step.action == Rename && Changes(d, step)
    requires EffectOf(d, step).Moves? && Fitting(EffectOf(d, step), d)
    requires forall p :: Lookup(d', p) == After(EffectOf(d, step), d, p)
    requires Plus(d', extra, u) && ClearOf(step, extra)
    requires forall i | 0 < i < |step.sourceKey.value| :: step.sourceKey.value[..i] in u
    ensures var s, t := step.sourceKey.value, step.targetKey.value;
            var back := After(Moves(t, s), u, q);
            if q in Made(d, step) + extra then q !in d && back == Some(DirNode) else back == Lookup(d, q)
  {
    var s, t := step.sourceKey.value, step.targetKey.value;
    assert s in PathsOf(step) && t in PathsOf(step);
    assert Lookup(d', q) == After(EffectOf(d, step), d, q);
    assert PlusAt(d', extra, u, q);
    if Inside(s, q) {
      var o := t + q[|s|..];
      assert Inside(t, o) && o[|t|..] == q[|s|..] && s + q[|s|..] == q;
      assert PlusAt(d', extra, u, o);
      assert Lookup(d', o) == After(EffectOf(d, step), d, o);
      InsideThrough(s, q, t);
    } else if Inside(t, q) {
      if q in d { TreeUp(d, q, t); }
    } else if Above(q, s) {
      assert q == s[..|q|];
    }
  }

  lemma WayBackExists(d: Disk, e: Effect, d': Disk, extra: iset<Path>, u: Disk)
    requires IsTree(d) && e.Moves? && Fitting(e, d)
    requires forall p :: Lookup(d', p) == After(e, d, p)
    requires Plus(d', extra, u)
    ensures forall i | 0 < i < |e.source| :: e.source[..i] in u
  {
    forall i | 0 < i < |e.source|
      ensures e.source[..i] in u
    {
      var q := e.source[..i];
      TreeUp(d, e.source, q);
      assert Lookup(d', q) == After(e, d, q);
      InsideThrough(e.target, q, e.source);
      assert PlusAt(d', extra, u, q);
    }
  }

  lemma UndoMove(d: Disk, step: Step, d': Disk, extra: iset<Path>, u: Disk)
    requires IsTree(d) && step.action == Rename && step.applied && Changes(d, step)
    requires d' == ApplyStep(d, step, false).disk && IsTree(u) && Plus(d', extra, u)
    requires ClearOf(step, extra)
    ensures UndoStep(u, step).Done? && Plus(d, Made(d, step) + extra, UndoStep(u, step).disk)
  {
    var s, t := step.sourceKey.value, step.targetKey.value;
    var back := Moves(t, s);
    DoneMeans(d, step, false);
    UndoMoveGoes(d, step, d', extra, u);
    DoneMeans(u, Swapped(step), false);
    var r := UndoStep(u, step).disk;
    hide ApplyStep, ApplyRename, Contents, IsTree;
    WayBackExists(d, EffectOf(d, step), d', extra, u);
    forall q
      ensures PlusAt(d, Made(d, step) + extra, r, q)
    {
      assert Lookup(r, q) == After(back, u, q);
      UndoMoveBack(d, step, d', extra, u, q);
    }
  }

  lemma UndoMake(d: Disk, step: Step, d': Disk, extra: iset<Path>, u: Disk)
    requires IsTree(d) && step.action == Mkdir && step.applied && Changes(d, step)
    requires d' == ApplyStep(d, step, false).disk && IsTree(u) && Plus(d', extra, u)
    requires ClearOf(step, extra)
    ensures UndoStep(u, step).Done? && Plus(d, Made(d, step) + extra, UndoStep(u, step).disk)
  {
    var t := step.targetKey.value;
    assert t in PathsOf(step);
    DoneMeans(d, step, false);
    assert Lookup(d', t) == After(Makes(t), d, t);
    assert PlusAt(d', extra, u, t);
    TreeIsSafe(u, t);
    forall q | q in u && StrictlyInside(t, q)
      ensures false
    {
      assert PlusAt(d', extra, u, q) && Lookup(d', q) == After(Makes(t), d, q);
      if q in d { TreeUp(d, q, t); }
    }
    var r := Without(u, t);
    forall q
      ensures PlusAt(d, Made(d, step) + extra, r, q)
    {
      assert PlusAt(d', extra, u, q) && Lookup(d', q) == After(Makes(t), d, q);
      if q in d && Inside(t, q) { TreeUp(d, q, t); }
    }
  }

  /** A folder left at or inside a path of the step stops its undo. */
  lemma UndoStopped(d: Disk, step: Step, d': Disk, extra: iset<Path>, u: Disk)
    requires IsTree(d) && ToUndo(step) && Changes(d, step)
    requires d' == ApplyStep(d, step, false).disk && IsTree(u) && Plus(d', extra, u)
    requires !ClearOf(step, extra)
    ensures UndoStep(u, step).Ambiguous?
  {
    var p, q :| p in PathsOf(step) && q in extra && Inside(p, q);
    DoneMeans(d, step, false);
    var t := step.targetKey.value;
    assert PlusAt(d', extra, u, q) && PlusAt(d', extra, u, t);
    assert Lookup(d', t) == After(EffectOf(d, step), d, t);
    assert step.action == Rename ==> step.sourceKey.value + t[|t|..] == step.sourceKey.value;
    assert p != [];
    TreeUp(u, q, p);
    if p == t {
      assert q != t;
      if step.action == Rename {
        var e := EffectOf(d, step);
        MovedTree(d, e, d');
        ContentsAt(u, t, q[|t|..]);
        ContentsAt(d', t, q[|t|..]);
        assert t + q[|t|..] == q;
        assert Contents(u, t) != Contents(d', t);
        assert !ValidNode(u, t, Swapped(step));
      } else {
        assert StrictlyInside(t, q) && !IsEmpty(u, t);
      }
    }
  }

  // ------------------------------------------------------------------ the whole rollback

  lemma {:induction false} RanIsTree(start: Disk, steps: seq<Step>, n: nat)
    requires IsTree(start) && n <= |steps|
    ensures IsTree(Ran(start, steps, n))
    decreases n
  {
    if n != 0 {
      RanIsTree(start, steps, n - 1);
      if ToUndo(steps[n - 1]) { ForwardStaysTree(Ran(start, steps, n - 1), steps[n - 1], false); }
    }
  }

  lemma UndoOne(start: Disk, steps: seq<Step>, n: nat, left: iset<Path>, u: Disk)
    requires IsTree(start) && AllChanged(start, steps) && n < |steps| && ToUndo(steps[n])
    requires IsTree(u) && Plus(Ran(start, steps, n + 1), MadeFrom(start, steps, n + 1, left), u)
    ensures UndoStep(u, steps[n]).Done? <==> ClearOf(steps[n], MadeFrom(start, steps, n + 1, left))
    ensures UndoStep(u, steps[n]).Done? ==>
              Plus(Ran(start, steps, n), MadeFrom(start, steps, n, left), UndoStep(u, steps[n]).disk)
    ensures !UndoStep(u, steps[n]).Done? ==> UndoStep(u, steps[n]).Ambiguous?
    ensures IsTree(UndoStep(u, steps[n]).disk)
  {
    var d, d', extra := Ran(start, steps, n), Ran(start, steps, n + 1), MadeFrom(start, steps, n + 1, left);
    RanIsTree(start, steps, n);
    UndoStaysTree(u, steps[n]);
    if !ClearOf(steps[n], extra) { UndoStopped(d, steps[n], d', extra, u); }
    else if steps[n].action == Rename { UndoMove(d, steps[n], d', extra, u); }
    else { UndoMake(d, steps[n], d', extra, u); }
    hide UndoStep, ClearOf, Plus, IsTree, Changes;
  }

  lemma {:induction false} RollbackFrom(start: Disk, steps: seq<Step>, n: nat, left: iset<Path>, u: Disk)
    requires IsTree(start) && AllChanged(start, steps) && n <= |steps|
    requires IsTree(u) && Plus(Ran(start, steps, n), MadeFrom(start, steps, n, left), u)
    ensures Undone(u, steps, n).Done? <==> NothingInTheWay(start, steps, n, left)
    ensures !Undone(u, steps, n).Done? ==> Undone(u, steps, n).Ambiguous?
    ensures Undone(u, steps, n).Done? ==> Plus(start, MadeFrom(start, steps, 0, left), Undone(u, steps, n).disk)
    decreases n
  {
    if n != 0 {
      var r := UndoStep(u, steps[n - 1]);
      if ToUndo(steps[n - 1]) { UndoOne(start, steps, n - 1, left, u); } else { SkipOne(start, steps, n - 1, left, u); }
      OneMoreClear(start, steps, n, left);
      hide UndoStep, ClearOf, Plus, IsTree, MadeFrom, Ran, AllChanged, NothingInTheWay;
      if r.Done? { RollbackFrom(start, steps, n - 1, left, r.disk); }
    }
  }

  lemma SkipOne(start: Disk, steps: seq<Step>, n: nat, left: iset<Path>, u: Disk)
    requires n < |steps| && !ToUndo(steps[n])
    requires Plus(Ran(start, steps, n + 1), MadeFrom(start, steps, n + 1, left), u)
    ensures UndoStep(u, steps[n]) == Done(u) && Plus(Ran(start, steps, n), MadeFrom(start, steps, n, left), u)
  {
    assert MadeFrom(start, steps, n, left) == MadeFrom(start, steps, n + 1, left);
  }

  lemma OneMoreClear(start: Disk, steps: seq<Step>, n: nat, left: iset<Path>)
    requires 0 < n <= |steps|
    ensures NothingInTheWay(start, steps, n, left) <==>
            NothingInTheWay(start, steps, n - 1, left) &&
            (ToUndo(steps[n - 1]) ==> ClearOf(steps[n - 1], MadeFrom(start, steps, n, left)))
  {
    hide ClearOf, MadeFrom;
  }

  /**
   * When every step that changed the disk is marked, undo finishes exactly if
   * no folder is in the way -- made by a later step, or left by an attempt at a
   * step that is not marked -- and then every file is back at its path with its
   * contents.  Otherwise it stops for an operator.
   */
  lemma RollbackRestores(start: Disk, steps: seq<Step>, left: iset<Path>, d: Disk)
    requires IsTree(start) && AllChanged(start, steps)
    requires IsTree(d) && Plus(Ran(start, steps, |steps|), left, d)
    ensures var r := Undone(d, steps, |steps|);
            && (r.Done? <==> NothingInTheWay(start, steps, |steps|, left))
            && (r.Done? ==> Files(r.disk) == Files(start))
            && (!r.Done? ==> r.Ambiguous?)
  {
    RollbackFrom(start, steps, |steps|, left, d);
    var r := Undone(d, steps, |steps|);
    if r.Done? { PlusKeepsFiles(start, MadeFrom(start, steps, 0, left), r.disk); }
    hide *;
  }

  lemma PlusKeepsFiles(d: Disk, extra: iset<Path>, u: Disk)
    requires Plus(d, extra, u)
    ensures Files(u) == Files(d)
  {
    forall q
      ensures Lookup(u, q) == Lookup(d, q) || (Lookup(d, q).None? && Lookup(u, q) == Some(DirNode))
    {
      assert PlusAt(d, extra, u, q);
    }
    OnlyFolders(d, u);
  }

  /** The folders missing among the first `n` on the way to a path. */
  ghost function Missing(d: Disk, t: Path, n: nat): iset<Path> {
    iset q | q != [] && |q| <= n && Inside(q, t) && q !in d
  }

  lemma FoldersAreExtra(d: Disk, t: Path, n: nat)
    ensures Plus(d, Missing(d, t, n), WithFolders(d, t, n))
  {
    forall q
      ensures PlusAt(d, Missing(d, t, n), WithFolders(d, t, n), q)
    {
      WithFoldersAt(d, t, n, q);
    }
  }

  /** The disk after a step that is not marked: refused by the operating system, or cut off. */
  ghost predicate Failed(d: Disk, step: Step, made: nat, d': Disk) {
    && !IsCleanup(step.action) && step.targetKey.Some?
    && ((ApplyStep(d, step, false) == Refused(d') && made == |step.targetKey.value| - 1) ||
        Leaves(d, step, false, Folders(made), d'))
  }

  /** The state in which an abort is decided: a step has failed after all before it went through. */
  lemma RollbackAfterFailure(start: Disk, steps: seq<Step>, step: Step, made: nat, d: Disk)
    requires IsTree(start) && AllChanged(start, steps) && Failed(Ran(start, steps, |steps|), step, made, d)
    ensures var left := Missing(Ran(start, steps, |steps|), step.targetKey.value, made);
            var r := Undone(d, steps, |steps|);
            && (r.Done? <==> NothingInTheWay(start, steps, |steps|, left))
            && (r.Done? ==> Files(r.disk) == Files(start))
  {
    var before, t := Ran(start, steps, |steps|), step.targetKey.value;
    RanIsTree(start, steps, |steps|);
    FailedLeaves(before, step, made, d);
    FoldersAreExtra(before, t, made);
    hide *;
    RollbackRestores(start, steps, Missing(before, t, made), d);
  }

  lemma FailedLeaves(d: Disk, step: Step, made: nat, d': Disk)
    requires IsTree(d) && Failed(d, step, made, d')
    ensures d' == WithFolders(d, step.targetKey.value, made) && IsTree(d')
  {
    if ApplyStep(d, step, false) == Refused(d') {
      ForwardStaysTree(d, step, false);
    } else {
      CutStaysTree(d, step, false, Folders(made), d');
    }
  }

  /** The paths of any two undoable steps are apart: neither inside nor above one another. */
  predicate PathsApart(steps: seq<Step>) {
    forall i, j | 0 <= i < |steps| && 0 <= j < |steps| && i != j && ToUndo(steps[i]) && ToUndo(steps[j]) ::
      PairApart(steps[i], steps[j])
  }

  predicate PairApart(a: Step, b: Step) {
    forall x <- PathsOf(a), y <- PathsOf(b) :: Apart(x, y)
  }

  lemma {:induction false} MadeAbove(start: Disk, steps: seq<Step>, n: nat, left: iset<Path>, q: Path)
    requires n <= |steps| && q in MadeFrom(start, steps, n, left) && q !in left
    ensures exists j ::
              n <= j < |steps| && ToUndo(steps[j]) && steps[j].targetKey.Some? && Above(q, steps[j].targetKey.value)
    decreases |steps| - n
  {
    if !(ToUndo(steps[n]) && q in Made(Ran(start, steps, n), steps[n])) {
      MadeAbove(start, steps, n + 1, left, q);
    }
  }

  /** Steps with apart paths never stand in each other's way. */
  lemma ApartIsClear(start: Disk, steps: seq<Step>, left: iset<Path>)
    requires PathsApart(steps) && forall k | 0 <= k < |steps| && ToUndo(steps[k]) :: ClearOf(steps[k], left)
    ensures NothingInTheWay(start, steps, |steps|, left)
  {
    forall k, p, q | 0 <= k < |steps| && ToUndo(steps[k]) && p in PathsOf(steps[k]) &&
        q in MadeFrom(start, steps, k + 1, left)
      ensures !Inside(p, q)
    {
      if q !in left {
        MadeAbove(start, steps, k + 1, left, q);
        var j :| k + 1 <= j < |steps| && ToUndo(steps[j]) && steps[j].targetKey.Some? &&
            Above(q, steps[j].targetKey.value);
        assert PairApart(steps[k], steps[j]);
        assert steps[j].targetKey.value in PathsOf(steps[j]);
        assert Apart(p, steps[j].targetKey.value);
        InsideThrough(p, q, steps[j].targetKey.value);
      }
    }
  }

  // ---------------------------------------------------------- where the conditions are needed

  function MoveOf(source: Path, target: Path, file: Option<Bytes>, tree: Option<Disk>): Step {
    Step(Rename, Some(source), Some(target), Some(if file.Some? then File else Folder), None, file, tree, true)
  }

  lemma MoveWorks(d: Disk, step: Step)
    requires IsTree(d) && step.action == Rename && RenameIntent(step)
    requires step.sourceKey.value in d && step.targetKey.value !in d && SafeAncestors(d, step.targetKey.value)
    requires ValidNode(d, step.sourceKey.value, step) && Apart(step.sourceKey.value, step.targetKey.value)
    ensures ApplyRename(d, step).Done? && IsTree(ApplyRename(d, step).disk)
    ensures forall q ::
              Lookup(ApplyRename(d, step).disk, q) == After(Moves(step.sourceKey.value, step.targetKey.value), d, q)
  {
    TreeIsSafe(d, step.sourceKey.value);
    DoneMeans(d, step, false);
    ForwardStaysTree(d, step, false);
  }

  const A: Path := ["a"]
  const B: Path := ["b"]
  const X: Path := ["x"]
  const AF: Path := ["a", "f"]

  /** A file is moved off `a`, then another to `a/f`, which makes a folder `a`. */
  const OFF := MoveOf(A, B, Some([1]), None)
  const UNDER := MoveOf(X, AF, Some([2]), None)

  lemma TwoMoves(start: Disk)
    requires start == map[A := FileNode([1]), X := FileNode([2])]
    ensures IsTree(start) && Changes(start, OFF) && Changes(ApplyStep(start, OFF, false).disk, UNDER)
    ensures A !in ApplyStep(start, OFF, false).disk
  {
    assert A[0] != B[0] && A[0] != X[0] && B[0] != X[0] && AF[0] == A[0] && AF[..1] == A;
    MoveWorks(start, OFF);
    var d := ApplyStep(start, OFF, false).disk;
    assert Lookup(d, X) == After(Moves(A, B), start, X) && Lookup(d, A) == After(Moves(A, B), start, A);
    assert Lookup(d, AF) == After(Moves(A, B), start, AF);
    SecondMove(d);
  }

  lemma SecondMove(d: Disk)
    requires IsTree(d) && Lookup(d, X) == Some(FileNode([2])) && Lookup(d, A) == None && Lookup(d, AF) == None
    ensures Changes(d, UNDER)
  {
    assert A[0] != X[0] && AF[0] == A[0] && AF[..1] == A;
    MoveWorks(d, UNDER);
  }

  /** Both steps are marked and both changed the disk, yet undo stops. */
  lemma FolderInTheWay()
    ensures var steps, start := [OFF, UNDER], map[A := FileNode([1]), X := FileNode([2])];
            IsTree(start) && AllChanged(start, steps) && Undone(Ran(start, steps, 2), steps, 2).Ambiguous?
  {
    var steps, start := [OFF, UNDER], map[A := FileNode([1]), X := FileNode([2])];
    TwoMoves(start);
    var d := ApplyStep(start, OFF, false).disk;
    hide ApplyStep, Undone, IsTree;
    assert Ran(start, steps, 0) == start && Ran(start, steps, 1) == d;
    assert AF[..1] == A && A in Made(d, UNDER) && A in MadeFrom(start, steps, 1, iset{});
    assert A in PathsOf(OFF) && Inside(A, A);
    assert !ClearOf(OFF, MadeFrom(start, steps, 1, iset{}));
    RanIsTree(start, steps, 2);
    RollbackRestores(start, steps, iset{}, Ran(start, steps, 2));
  }
}
