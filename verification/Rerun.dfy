/**
 * Undo cut off after any of the steps, and run again from the newest step:
 * the marks are never cleared, so the steps undone already come up once more.
 */
module Rerun {
  import opened Common
  import opened Paths
  import opened Disk
  import opened Steps
  import opened Effects
  import opened Interrupted
  import opened Recovery
  import opened Serialisability
  import opened Rollback

  /** Undo of the steps from the last down to `m`, then cut off. */
  function UndoneDownTo(d: Disk, steps: seq<Step>, n: nat, m: nat): Result
    requires m <= n <= |steps|
    decreases n
  {
    if n == m then Done(d)
    else
      var r := UndoStep(d, steps[n - 1]);
      if r.Done? then UndoneDownTo(r.disk, steps, n - 1, m) else r
  }

  /** The step is undone: undoing it once more finds nothing to do. */
  predicate IsUndone(d: Disk, step: Step) {
    && UndoStep(d, step) == Done(d)
    && (ToUndo(step) && step.targetKey.Some? ==> step.targetKey.value !in d)
  }

  lemma UndoneOnce(d: Disk, step: Step)
    requires IsTree(d) && ToUndo(step) && UndoStep(d, step).Done?
    ensures IsUndone(UndoStep(d, step).disk, step)
  {
    if step.action == Rename {
      ReplayRename(d, Swapped(step));
      var e := EffectOf(d, Swapped(step));
      DoneMeans(d, Swapped(step), false);
      if e.Moves? { MovedTree(d, e, UndoStep(d, step).disk); }
    } else if step.targetKey.Some? && step.targetKey.value in d {
      SubdiskIsSafe(d, Without(d, step.targetKey.value), step.targetKey.value);
    }
  }

  lemma UndoLeavesApart(d: Disk, other: Step, p: Path)
    requires IsTree(d) && UndoStep(d, other).Done?
    requires ToUndo(other) ==> forall k <- PathsOf(other) :: Apart(k, p)
    ensures SameAt(d, UndoStep(d, other).disk, p)
  {
    if ToUndo(other) {
      if other.action == Rename {
        assert KeysOf(Swapped(other)) == PathsOf(other);
        Untouched(d, Swapped(other), p);
      } else if other.targetKey.Some? && other.targetKey.value in d {
        RemovedApart(d, other.targetKey.value, p);
      }
    }
  }

  lemma RemovedApart(d: Disk, at: Path, p: Path)
    requires Apart(at, p)
    ensures SameAt(d, Without(d, at), p)
  {
    var d' := Without(d, at);
    forall q | Inside(p, q)
      ensures Lookup(d', q) == Lookup(d, q)
    {
      NotWithin(at, p, q);
    }
    ContentsApart(d, d', p);
    forall i | 0 < i < |p|
      ensures Lookup(d', p[..i]) == Lookup(d, p[..i])
    {
      InsideThrough(at, p[..i], p);
    }
  }

  lemma StaysUndone(d: Disk, step: Step, other: Step)
    requires IsTree(d) && IsUndone(d, step) && UndoStep(d, other).Done?
    requires ToUndo(step) && ToUndo(other) ==> PairApart(other, step)
    ensures IsUndone(UndoStep(d, other).disk, step)
  {
    if ToUndo(step) {
      forall p | p in PathsOf(step)
        ensures SameAt(d, UndoStep(d, other).disk, p)
      {
        UndoLeavesApart(d, other, p);
      }
      SameUndone(d, UndoStep(d, other).disk, step);
    }
  }

  lemma SameUndone(d: Disk, d': Disk, step: Step)
    requires ToUndo(step) && IsUndone(d, step) && forall p <- PathsOf(step) :: SameAt(d, d', p)
    ensures IsUndone(d', step)
  {
    if step.targetKey.Some? { assert step.targetKey.value in PathsOf(step); }
    if step.action == Rename && RenameIntent(Swapped(step)) {
      var s := step.sourceKey.value;
      assert s in PathsOf(step);
      assert SameAt(d, d', s);
      assert ValidNode(d', s, Swapped(step)) <==> ValidNode(d, s, Swapped(step));
    }
  }

  lemma {:induction false} CutIsUndone(d: Disk, steps: seq<Step>, n: nat, m: nat, top: nat)
    requires IsTree(d) && m <= n <= top <= |steps| && PathsApart(steps) && UndoneDownTo(d, steps, n, m).Done?
    requires forall k :: n <= k < top ==> IsUndone(d, steps[k])
    ensures forall k :: m <= k < top ==> IsUndone(UndoneDownTo(d, steps, n, m).disk, steps[k])
    decreases n
  {
    if n != m {
      var r := UndoStep(d, steps[n - 1]);
      UndoStaysTree(d, steps[n - 1]);
      if ToUndo(steps[n - 1]) { UndoneOnce(d, steps[n - 1]); }
      forall k | n <= k < top
        ensures IsUndone(r.disk, steps[k])
      {
        StaysUndone(d, steps[k], steps[n - 1]);
      }
      hide UndoStep, IsUndone, IsTree, PathsApart;
      CutIsUndone(r.disk, steps, n - 1, m, top);
    }
  }

  lemma {:induction false} SkipsUndone(d: Disk, steps: seq<Step>, n: nat, m: nat)
    requires m <= n <= |steps| && forall k :: m <= k < n ==> IsUndone(d, steps[k])
    ensures Undone(d, steps, n) == Undone(d, steps, m)
    decreases n
  {
    if n != m { SkipsUndone(d, steps, n - 1, m); }
  }

  lemma {:induction false} UndoContinues(d: Disk, steps: seq<Step>, n: nat, m: nat)
    requires m <= n <= |steps| && UndoneDownTo(d, steps, n, m).Done?
    ensures Undone(d, steps, n) == Undone(UndoneDownTo(d, steps, n, m).disk, steps, m)
    decreases n
  {
    if n != m { UndoContinues(UndoStep(d, steps[n - 1]).disk, steps, n - 1, m); }
  }

  /** Undo never clears a mark, yet cut off anywhere and run again it ends the same. */
  lemma RerunEndsTheSame(d: Disk, steps: seq<Step>, m: nat)
    requires IsTree(d) && m <= |steps| && PathsApart(steps) && UndoneDownTo(d, steps, |steps|, m).Done?
    ensures Undone(UndoneDownTo(d, steps, |steps|, m).disk, steps, |steps|) == Undone(d, steps, |steps|)
  {
    var cut := UndoneDownTo(d, steps, |steps|, m).disk;
    CutIsUndone(d, steps, |steps|, m, |steps|);
    SkipsUndone(cut, steps, |steps|, m);
    UndoContinues(d, steps, |steps|, m);
  }

  // ------------------------------------------------------------- exactly when it matters

  /**
   * Undoing `earlier` puts a node at or above the path that `later`'s undo
   * leaves free, or takes away, fills or empties the node that it put back.
   */
  predicate Disturbs(earlier: Step, later: Step) {
    || (earlier.action == Rename && earlier.sourceKey.Some? && later.targetKey.Some? &&
        Inside(earlier.sourceKey.value, later.targetKey.value))
    || (later.action == Rename && later.sourceKey.Some? && earlier.targetKey.Some? &&
        (!Apart(earlier.targetKey.value, later.sourceKey.value) ||
         (earlier.action == Rename && earlier.sourceKey.Some? &&
          StrictlyInside(later.sourceKey.value, earlier.sourceKey.value))))
  }

  /** `later` takes something from where `earlier` put it back to where `earlier` took it from. */
  predicate ComesBack(earlier: Step, later: Step) {
    && earlier.action == Rename && later.action == Rename
    && earlier.sourceKey.Some? && earlier.targetKey.Some? && later.sourceKey.Some? && later.targetKey.Some?
    && Inside(earlier.targetKey.value, later.sourceKey.value)
    && Inside(earlier.sourceKey.value, later.targetKey.value)
  }

  predicate NothingDisturbs(steps: seq<Step>, m: nat) {
    forall e, l | m <= e < l < |steps| && ToUndo(steps[e]) && ToUndo(steps[l]) :: !Disturbs(steps[e], steps[l])
  }

  predicate NothingComesBack(steps: seq<Step>) {
    forall e, l | 0 <= e < l < |steps| && ToUndo(steps[e]) && ToUndo(steps[l]) :: !ComesBack(steps[e], steps[l])
  }

  /** No later step takes anything back from where this one put it to where it came from. */
  predicate StaysAway(steps: seq<Step>, e: nat)
    requires e < |steps|
  {
    forall k | e < k < |steps| && ToUndo(steps[k]) :: !ComesBack(steps[e], steps[k])
  }

  /** The newest step that disturbs a later one, if there is one, stays away. */
  predicate NewestStaysAway(steps: seq<Step>) {
    forall e | 0 <= e < |steps| && ToUndo(steps[e]) && NothingDisturbs(steps, e + 1) && !NothingDisturbs(steps, e) ::
      StaysAway(steps, e)
  }

  // ------------------------------------------------------------- one undo, as a value

  /** The subtree at `t` is back at `s`; nothing else differs. */
  ghost predicate PutBack(u: Disk, s: Path, t: Path, r: Disk) {
    && s != [] && t != [] && t in u && s !in u && Apart(s, t)
    && forall q :: Lookup(r, q) ==
         if Inside(s, q) then Lookup(u, t + q[|s|..]) else if Inside(t, q) then None else Lookup(u, q)
  }

  /** The empty folder at `t` is gone; nothing else differs. */
  ghost predicate TakenAway(u: Disk, t: Path, r: Disk) {
    t != [] && Lookup(u, t) == Some(DirNode) && IsEmpty(u, t) && r == Without(u, t)
  }

  /** What an undo step does, and that its fingerprint fitted. */
  ghost predicate Undoes(u: Disk, step: Step, r: Disk) {
    && UndoStep(u, step) == Done(r) && IsTree(u) && IsTree(r) && step.targetKey.Some?
    && (if step.action == Rename then
          && step.sourceKey.Some? && RenameIntent(step) && PutBack(u, step.sourceKey.value, step.targetKey.value, r)
          && ValidNode(u, step.targetKey.value, Swapped(step))
        else TakenAway(u, step.targetKey.value, r))
  }

  /** A rename that is undone has its node back at the source, and nothing at the target. */
  lemma UndoneMove(d: Disk, step: Step)
    requires step.action == Rename && ToUndo(step) && IsUndone(d, step)
    ensures step.sourceKey.Some? && step.targetKey.Some? && RenameIntent(step)
    ensures step.sourceKey.value in d && step.targetKey.value !in d && ValidNode(d, step.sourceKey.value, Swapped(step))
    ensures SafeAncestors(d, step.targetKey.value)
  {
  }

  lemma MoveIsUndone(d: Disk, step: Step)
    requires step.action == Rename && ToUndo(step) && RenameIntent(step)
    requires step.sourceKey.value in d && step.targetKey.value !in d &&
             ValidNode(d, step.sourceKey.value, Swapped(step))
    requires SafeAncestors(d, step.targetKey.value) && SafeAncestors(d, step.sourceKey.value)
    ensures IsUndone(d, step)
  {
  }

  // ------------------------------------------------------------------- undisturbed steps

  /** What lies apart from both ends of a move stays. */
  lemma PutBackApart(u: Disk, s: Path, t: Path, r: Disk, p: Path)
    requires PutBack(u, s, t, r) && Apart(s, p) && Apart(t, p)
    ensures Lookup(r, p) == Lookup(u, p) && Contents(r, p) == Contents(u, p)
  {
    forall q | Inside(p, q)
      ensures Lookup(r, q) == Lookup(u, q)
    {
      NotWithin(s, p, q);
      NotWithin(t, p, q);
    }
    assert Inside(p, p);
    ContentsApart(u, r, p);
  }

  /** The way to a path stays safe when nothing is put on it. */
  lemma PutBackSafe(u: Disk, s: Path, t: Path, r: Disk, p: Path)
    requires PutBack(u, s, t, r) && !Inside(s, p) && SafeAncestors(u, p)
    ensures SafeAncestors(r, p)
  {
    forall i | 0 < i < |p| && p[..i] in r
      ensures r[p[..i]] == DirNode
    {
      InsideThrough(s, p[..i], p);
      assert Lookup(r, p[..i]) == Lookup(u, p[..i]);
    }
  }

  lemma UndisturbedByMove(u: Disk, e: Step, r: Disk, l: Step)
    requires e.action == Rename && Undoes(u, e, r) && ToUndo(l) && IsUndone(u, l) && !Disturbs(e, l)
    ensures IsUndone(r, l)
  {
    var s, t := e.sourceKey.value, e.targetKey.value;
    if l.action == Rename {
      UndoneMove(u, l);
      var sl, tl := l.sourceKey.value, l.targetKey.value;
      assert sl != [];
      if Inside(s, sl) { TreeUp(u, sl, s); }
      assert !Inside(sl, s) by { assert s !in u; }
      PutBackApart(u, s, t, r, sl);
      PutBackSafe(u, s, t, r, tl);
      TreeIsSafe(r, sl);
      assert Lookup(r, tl) == None;
      assert ValidNode(r, sl, Swapped(l));
      MoveIsUndone(r, l);
    } else if l.targetKey.Some? {
      var tl := l.targetKey.value;
      PutBackSafe(u, s, t, r, tl);
      assert Lookup(r, tl) == None;
    }
  }

  lemma UndisturbedByRemoval(u: Disk, e: Step, r: Disk, l: Step)
    requires e.action == Mkdir && Undoes(u, e, r) && ToUndo(l) && IsUndone(u, l) && !Disturbs(e, l)
    ensures IsUndone(r, l)
  {
    var t := e.targetKey.value;
    if l.action == Rename {
      UndoneMove(u, l);
      var sl, tl := l.sourceKey.value, l.targetKey.value;
      RemovedApart(u, t, sl);
      TreeIsSafe(r, sl);
      SubdiskIsSafe(u, r, tl);
      assert ValidNode(r, sl, Swapped(l));
      MoveIsUndone(r, l);
    } else if l.targetKey.Some? {
      SubdiskIsSafe(u, r, l.targetKey.value);
    }
  }

  // --------------------------------------------------------------------- disturbed steps

  /** A folder's node no longer fits once something in it has come or gone. */
  lemma FilledOrEmptied(u: Disk, r: Disk, l: Step, q: Path)
    requires l.action == Rename && ToUndo(l) && l.sourceKey.Some? && StrictlyInside(l.sourceKey.value, q)
    requires RenameIntent(l) && IsTree(u) && IsTree(r)
    requires (q in u) != (q in r)
    ensures !(l.sourceKey.value in u && l.sourceKey.value in r
              && ValidNode(u, l.sourceKey.value, Swapped(l)) && ValidNode(r, l.sourceKey.value, Swapped(l)))
  {
    var sl := l.sourceKey.value;
    assert sl != [];
    if q in u { TreeUp(u, q, sl); } else { TreeUp(r, q, sl); }
    var rest := q[|sl|..];
    assert sl + rest == q && rest != [];
    ContentsAt(u, sl, rest);
    ContentsAt(r, sl, rest);
  }

  /** Taking from, or bringing into, what a later step put back is always felt. */
  lemma DisturbedSource(u: Disk, e: Step, r: Disk, l: Step)
    requires Undoes(u, e, r) && !IsCleanup(e.action) && ToUndo(l) && l.action == Rename && IsUndone(u, l)
    requires l.sourceKey.Some?
    requires !Apart(e.targetKey.value, l.sourceKey.value) ||
             (e.action == Rename && StrictlyInside(l.sourceKey.value, e.sourceKey.value))
    ensures !IsUndone(r, l)
  {
    UndoneMove(u, l);
    var sl, t := l.sourceKey.value, e.targetKey.value;
    assert t in u;
    assert t !in r by {
      if e.action == Rename { assert Lookup(r, t) == None; }
    }
    if IsUndone(r, l) {
      UndoneMove(r, l);
      if Inside(t, sl) {
        TreeUp(r, sl, t);
      } else if Inside(sl, t) {
        FilledOrEmptied(u, r, l, t);
      } else {
        var s := e.sourceKey.value;
        assert t + s[|s|..] == t && Lookup(r, s) == Lookup(u, t);
        FilledOrEmptied(u, r, l, s);
      }
    }
  }

  /** So is a node put exactly at the path a later step left free. */
  lemma DisturbedTarget(u: Disk, e: Step, r: Disk, l: Step)
    requires Undoes(u, e, r) && e.action == Rename && ToUndo(l) && l.targetKey == e.sourceKey
    ensures !IsUndone(r, l)
  {
    var s, t := e.sourceKey.value, e.targetKey.value;
    assert t + s[|s|..] == t && Lookup(r, s) == Lookup(u, t);
  }

  // ------------------------------------------------------------------- the levels of undo

  ghost predicate Setting(start: Disk, steps: seq<Step>, left: iset<Path>) {
    IsTree(start) && AllChanged(start, steps) && NothingInTheWay(start, steps, |steps|, left)
  }

  /** The disk once the steps from `n` on are undone. */
  ghost predicate Level(start: Disk, steps: seq<Step>, left: iset<Path>, n: nat, u: Disk)
    requires n <= |steps|
  {
    IsTree(u) && Plus(Ran(start, steps, n), MadeFrom(start, steps, n, left), u)
  }

  lemma AtLast(start: Disk, steps: seq<Step>, left: iset<Path>, d: Disk)
    requires IsTree(d) && Plus(Ran(start, steps, |steps|), left, d)
    ensures Level(start, steps, left, |steps|, d)
  {
    hide IsTree, Plus, Ran;
  }

  lemma LevelDown(start: Disk, steps: seq<Step>, left: iset<Path>, n: nat, u: Disk)
    requires Setting(start, steps, left) && n < |steps| && Level(start, steps, left, n + 1, u)
    ensures UndoStep(u, steps[n]).Done? && Level(start, steps, left, n, UndoStep(u, steps[n]).disk)
  {
    if ToUndo(steps[n]) {
      UndoOne(start, steps, n, left, u);
      assert ClearOf(steps[n], MadeFrom(start, steps, n + 1, left));
    } else {
      SkipOne(start, steps, n, left, u);
    }
    hide UndoStep, ClearOf, Plus, IsTree, MadeFrom, Ran, AllChanged;
  }

  lemma LevelUndoes(start: Disk, steps: seq<Step>, left: iset<Path>, n: nat, u: Disk)
    requires Setting(start, steps, left) && n < |steps| && Level(start, steps, left, n + 1, u) && ToUndo(steps[n])
    ensures Undoes(u, steps[n], UndoStep(u, steps[n]).disk)
  {
    LevelDown(start, steps, left, n, u);
    RanIsTree(start, steps, n);
    assert ClearOf(steps[n], MadeFrom(start, steps, n + 1, left));
    assert Changes(Ran(start, steps, n), steps[n]);
    hide MadeFrom, NothingInTheWay, AllChanged;
    if steps[n].action == Rename {
      MoveUndoes(Ran(start, steps, n), steps[n], Ran(start, steps, n + 1), MadeFrom(start, steps, n + 1, left), u);
    } else {
      RemovalUndoes(Ran(start, steps, n), steps[n], Ran(start, steps, n + 1), MadeFrom(start, steps, n + 1, left), u);
    }
  }

  lemma MoveUndoes(d: Disk, step: Step, d': Disk, extra: iset<Path>, u: Disk)
    requires IsTree(d) && step.action == Rename && step.applied && Changes(d, step)
    requires d' == ApplyStep(d, step, false).disk && IsTree(u) && Plus(d', extra, u) && ClearOf(step, extra)
    requires UndoStep(u, step).Done?
    ensures Undoes(u, step, UndoStep(u, step).disk)
  {
    var s, t := step.sourceKey.value, step.targetKey.value;
    DoneMeans(d, step, false);
    UndoMoveGoes(d, step, d', extra, u);
    DoneMeans(u, Swapped(step), false);
    UndoStaysTree(u, step);
    WayBackExists(d, EffectOf(d, step), d', extra, u);
    MoveWasValid(u, step);
    var r := UndoStep(u, step).disk;
    hide ApplyStep, ApplyRename, IsTree, Plus, ValidNode;
    forall q
      ensures Lookup(r, q) ==
              if Inside(s, q) then Lookup(u, t + q[|s|..]) else if Inside(t, q) then None else Lookup(u, q)
    {
      assert Lookup(r, q) == After(Moves(t, s), u, q);
      if Above(q, s) { assert q == s[..|q|]; }
    }
  }

  lemma MoveWasValid(u: Disk, step: Step)
    requires step.action == Rename && step.applied && UndoStep(u, step).Done?
    requires EffectOf(u, Swapped(step)).Moves?
    ensures RenameIntent(step) && ValidNode(u, step.targetKey.value, Swapped(step))
  {
  }

  lemma RemovalUndoes(d: Disk, step: Step, d': Disk, extra: iset<Path>, u: Disk)
    requires IsTree(d) && step.action == Mkdir && step.applied && Changes(d, step)
    requires d' == ApplyStep(d, step, false).disk && IsTree(u) && Plus(d', extra, u)
    requires UndoStep(u, step).Done?
    ensures Undoes(u, step, UndoStep(u, step).disk)
  {
    var t := step.targetKey.value;
    TargetIsThere(d, step, false);
    assert PlusAt(d', extra, u, t);
    UndoStaysTree(u, step);
  }

  lemma {:induction false} MadeLater(start: Disk, steps: seq<Step>, left: iset<Path>, n: nat, k: nat, q: Path)
    requires n <= k < |steps| && ToUndo(steps[k]) && q in Made(Ran(start, steps, k), steps[k])
    ensures q in MadeFrom(start, steps, n, left)
    decreases k - n
  {
    if n < k { MadeLater(start, steps, left, n + 1, k, q); }
  }

  /** A path that a step brings into being is at or below its target, or a folder on the way to it. */
  lemma BroughtByStep(d: Disk, step: Step, d': Disk, p: Path)
    requires IsTree(d) && ToUndo(step) && Changes(d, step) && d' == ApplyStep(d, step, false).disk
    requires p !in d && p in d'
    ensures step.targetKey.Some? && (Inside(step.targetKey.value, p) || p in Made(d, step))
  {
    DoneMeans(d, step, false);
    assert Lookup(d', p) == After(EffectOf(d, step), d, p);
    hide ApplyStep, IsTree, Fitting;
  }

  lemma NotMadeLater(start: Disk, steps: seq<Step>, left: iset<Path>, e: nat, k: nat, p: Path)
    requires NothingInTheWay(start, steps, |steps|, left) && e < k < |steps| && ToUndo(steps[e]) && ToUndo(steps[k])
    requires p in PathsOf(steps[e])
    ensures p !in Made(Ran(start, steps, k), steps[k])
  {
    assert ClearOf(steps[e], MadeFrom(start, steps, e + 1, left));
    assert Inside(p, p);
    hide MadeFrom, Made, Ran, NothingInTheWay, PathsOf;
    if p in Made(Ran(start, steps, k), steps[k]) { MadeLater(start, steps, left, e + 1, k, p); }
  }

  /** A path of a step that a later one brings into being is at or below that one's target. */
  lemma ComesWithTarget(start: Disk, steps: seq<Step>, left: iset<Path>, e: nat, k: nat, p: Path)
    requires Setting(start, steps, left) && e < k < |steps| && ToUndo(steps[e]) && p in PathsOf(steps[e])
    requires p !in Ran(start, steps, k) && p in Ran(start, steps, k + 1)
    ensures ToUndo(steps[k]) && steps[k].targetKey.Some? && Inside(steps[k].targetKey.value, p)
  {
    var d := Ran(start, steps, k);
    assert ToUndo(steps[k]) && Ran(start, steps, k + 1) == ApplyStep(d, steps[k], false).disk;
    assert Changes(d, steps[k]);
    RanIsTree(start, steps, k);
    NotMadeLater(start, steps, left, e, k, p);
    hide *;
    BroughtByStep(d, steps[k], Ran(start, steps, k + 1), p);
  }

  /** Somewhere on the way the path came into being. */
  lemma {:induction false} CameToBe(start: Disk, steps: seq<Step>, n: nat, m: nat, p: Path) returns (k: nat)
    requires n <= m <= |steps| && p !in Ran(start, steps, n) && p in Ran(start, steps, m)
    ensures n <= k < m && p !in Ran(start, steps, k) && p in Ran(start, steps, k + 1)
    decreases m - n
  {
    if p in Ran(start, steps, n + 1) { k := n; } else { k := CameToBe(start, steps, n + 1, m, p); }
  }

  /** Where a step's target is, everything above it is too. */
  lemma {:induction false} ThereWithTarget(start: Disk, steps: seq<Step>, l: nat, s: Path)
    requires IsTree(start) && AllChanged(start, steps) && l < |steps| && ToUndo(steps[l]) && s != []
    requires steps[l].targetKey.Some? && Inside(s, steps[l].targetKey.value)
    ensures s in Ran(start, steps, l + 1)
  {
    RanIsTree(start, steps, l);
    RanIsTree(start, steps, l + 1);
    assert Changes(Ran(start, steps, l), steps[l]);
    TargetIsThere(Ran(start, steps, l), steps[l], false);
    TreeUp(Ran(start, steps, l + 1), steps[l].targetKey.value, s);
  }

  /** A later step's target below a place that was moved away: in between, a step put something there again. */
  lemma PutThereAgain(start: Disk, steps: seq<Step>, left: iset<Path>, e: nat, l: nat) returns (k: nat)
    requires Setting(start, steps, left) && e < l < |steps| && ToUndo(steps[e]) && ToUndo(steps[l])
    requires steps[e].action == Rename && steps[e].sourceKey.Some? && steps[l].targetKey.Some?
    requires StrictlyInside(steps[e].sourceKey.value, steps[l].targetKey.value)
    ensures e < k < l && ToUndo(steps[k]) && steps[k].targetKey.Some?
    ensures Inside(steps[k].targetKey.value, steps[e].sourceKey.value)
  {
    var s := steps[e].sourceKey.value;
    assert s in PathsOf(steps[e]);
    RanIsTree(start, steps, e);
    assert Changes(Ran(start, steps, e), steps[e]);
    SourceIsGone(Ran(start, steps, e), steps[e]);
    assert s !in Ran(start, steps, e + 1);
    ThereWithTarget(start, steps, l, s);
    hide Ran, AllChanged, NothingInTheWay, IsTree, Changes;
    if s !in Ran(start, steps, l) { ComesWithTarget(start, steps, left, e, l, s); }
    k := CameToBe(start, steps, e + 1, l, s);
    ComesWithTarget(start, steps, left, e, k, s);
  }

  lemma SourceIsGone(d: Disk, step: Step)
    requires IsTree(d) && step.action == Rename && Changes(d, step)
    ensures step.sourceKey.Some? && step.sourceKey.value != [] &&
            step.sourceKey.value !in ApplyStep(d, step, false).disk
  {
    DoneMeans(d, step, false);
    MovedTree(d, EffectOf(d, step), ApplyStep(d, step, false).disk);
  }

  ghost predicate AllUndone(d: Disk, steps: seq<Step>, m: nat) {
    forall k | m <= k < |steps| :: IsUndone(d, steps[k])
  }

  /** A step that is disturbed leaves some later step no longer undone. */
  lemma DisturbedIsFelt(start: Disk, steps: seq<Step>, left: iset<Path>, e: nat, l: nat, u: Disk)
    requires Setting(start, steps, left) && e < l < |steps| && ToUndo(steps[e]) && ToUndo(steps[l])
    requires Level(start, steps, left, e + 1, u) && AllUndone(u, steps, e + 1) && Disturbs(steps[e], steps[l])
    ensures !AllUndone(UndoStep(u, steps[e]).disk, steps, e + 1)
  {
    var r := UndoStep(u, steps[e]).disk;
    LevelUndoes(start, steps, left, e, u);
    assert IsUndone(u, steps[l]);
    if steps[e].action == Rename && steps[l].targetKey.Some? &&
      Inside(steps[e].sourceKey.value, steps[l].targetKey.value) {
      var s := steps[e].sourceKey.value;
      if steps[l].targetKey.value == s {
        DisturbedTarget(u, steps[e], r, steps[l]);
      } else {
        var k := PutThereAgain(start, steps, left, e, l);
        assert IsUndone(u, steps[k]);
        assert steps[k].targetKey.value !in u;
        WayUpExists(u, steps[e], r, steps[k].targetKey.value);
        DisturbedTarget(u, steps[e], r, steps[k]);
        assert !IsUndone(r, steps[k]);
      }
    } else {
      DisturbedSource(u, steps[e], r, steps[l]);
    }
  }

  /** The folders above a place that something is put back to are there before. */
  lemma WayUpExists(u: Disk, e: Step, r: Disk, q: Path)
    requires Undoes(u, e, r) && e.action == Rename && q != [] && Inside(q, e.sourceKey.value) && q !in u
    ensures q == e.sourceKey.value
  {
    var s, t := e.sourceKey.value, e.targetKey.value;
    assert t + s[|s|..] == t && Lookup(r, s) == Lookup(u, t);
    TreeUp(r, s, q);
    assert Inside(s, q) || Lookup(r, q) == None || Lookup(r, q) == Lookup(u, q);
  }

  // ---------------------------------------------------------------- one level at a time

  lemma {:induction false} OneDeeper(d: Disk, steps: seq<Step>, n: nat, m: nat)
    requires m < n <= |steps|
    ensures UndoneDownTo(d, steps, n, m + 1).Done? ==>
              UndoneDownTo(d, steps, n, m) == UndoStep(UndoneDownTo(d, steps, n, m + 1).disk, steps[m])
    ensures !UndoneDownTo(d, steps, n, m + 1).Done? ==> !UndoneDownTo(d, steps, n, m).Done?
    decreases n
  {
    var r := UndoStep(d, steps[n - 1]);
    hide UndoStep;
    if n == m + 1 {
      assert r.Done? ==> UndoneDownTo(r.disk, steps, m, m) == r;
    } else if r.Done? {
      OneDeeper(r.disk, steps, n - 1, m);
    }
  }

  /** Undo that finishes has gone through every level. */
  lemma {:induction false} StoppedAbove(d: Disk, steps: seq<Step>, n: nat, m: nat)
    requires m <= n <= |steps| && !UndoneDownTo(d, steps, n, m).Done?
    ensures !Undone(d, steps, n).Done?
    decreases n
  {
    var r := UndoStep(d, steps[n - 1]);
    if r.Done? { StoppedAbove(r.disk, steps, n - 1, m); }
  }

  lemma {:induction false} Levels(start: Disk, steps: seq<Step>, left: iset<Path>, d: Disk, m: nat)
    requires Setting(start, steps, left) && Level(start, steps, left, |steps|, d) && m <= |steps|
    ensures UndoneDownTo(d, steps, |steps|, m).Done?
    ensures Level(start, steps, left, m, UndoneDownTo(d, steps, |steps|, m).disk)
    decreases |steps| - m
  {
    if m < |steps| {
      Levels(start, steps, left, d, m + 1);
      OneDeeper(d, steps, |steps|, m);
      LevelDown(start, steps, left, m, UndoneDownTo(d, steps, |steps|, m + 1).disk);
      hide *;
    }
  }

  /** While nothing is disturbed, everything undone stays undone. */
  lemma {:induction false} UndisturbedDown(start: Disk, steps: seq<Step>, left: iset<Path>, d: Disk, m: nat)
    requires Setting(start, steps, left) && Level(start, steps, left, |steps|, d) && m <= |steps|
    requires NothingDisturbs(steps, m)
    ensures UndoneDownTo(d, steps, |steps|, m).Done?
    ensures AllUndone(UndoneDownTo(d, steps, |steps|, m).disk, steps, m)
    decreases |steps| - m
  {
    hide Setting, Level, NothingDisturbs, UndoneDownTo;
    Levels(start, steps, left, d, m);
    if m < |steps| {
      hide *;
      Levels(start, steps, left, d, m + 1);
      FewerDisturb(steps, m);
      UndisturbedDown(start, steps, left, d, m + 1);
      OneDeeper(d, steps, |steps|, m);
      AllStayUndone(start, steps, left, m, UndoneDownTo(d, steps, |steps|, m + 1).disk);
    }
  }

  lemma FewerDisturb(steps: seq<Step>, m: nat)
    requires NothingDisturbs(steps, m)
    ensures NothingDisturbs(steps, m + 1)
  {
  }

  lemma AllStayUndone(start: Disk, steps: seq<Step>, left: iset<Path>, m: nat, u: Disk)
    requires Setting(start, steps, left) && m < |steps| && Level(start, steps, left, m + 1, u)
    requires NothingDisturbs(steps, m) && AllUndone(u, steps, m + 1)
    ensures AllUndone(UndoStep(u, steps[m]).disk, steps, m)
  {
    var e, r := steps[m], UndoStep(u, steps[m]).disk;
    assert IsTree(u);
    if ToUndo(e) {
      LevelUndoes(start, steps, left, m, u);
      UndoneOnce(u, e);
    }
    hide Setting, Level, UndoStep, IsTree, Undoes, Disturbs;
    forall k | m <= k < |steps|
      ensures IsUndone(r, steps[k])
    {
      if k > m {
        assert IsUndone(u, steps[k]);
        OneStaysUndone(u, e, r, steps[k]);
      } else {
        NotMarked(r, e);
      }
    }
  }

  lemma NotMarked(d: Disk, step: Step)
    ensures !ToUndo(step) ==> UndoStep(d, step) == Done(d) && IsUndone(d, step)
  {
  }

  lemma OneStaysUndone(u: Disk, e: Step, r: Disk, l: Step)
    requires r == UndoStep(u, e).disk && (ToUndo(e) ==> Undoes(u, e, r))
    requires IsUndone(u, l) && (ToUndo(e) && ToUndo(l) ==> !Disturbs(e, l))
    ensures IsUndone(r, l)
  {
    NotMarked(u, e);
    NotMarked(r, l);
    hide IsUndone, UndoStep, Undoes, Disturbs;
    if ToUndo(e) && ToUndo(l) {
      if e.action == Rename { UndisturbedByMove(u, e, r, l); } else { UndisturbedByRemoval(u, e, r, l); }
    }
  }

  // ---------------------------------------------------------------- what a rerun does to it

  /** `w` is `r`, but for some of what `e`'s undo has put back. */
  ghost predicate Eroded(e: Step, r: Disk, w: Disk) {
    && IsTree(w)
    && (forall q <- w :: Lookup(w, q) == Lookup(r, q))
    && forall q | q in r && q !in w :: e.action == Rename && e.sourceKey.Some? && Inside(e.sourceKey.value, q)
  }

  /** Redoing the undo of a step whose target is free finds nothing to do, or stops. */
  lemma NothingToRedo(w: Disk, l: Step)
    requires ToUndo(l) && (l.targetKey.Some? ==> l.targetKey.value !in w) && UndoStep(w, l).Done?
    ensures UndoStep(w, l) == Done(w) && IsUndone(w, l)
  {
  }

  /** Only what the step put back can be at a target that was free before it. */
  lemma OnlyPutBack(u: Disk, e: Step, r: Disk, q: Path)
    requires Undoes(u, e, r) && !IsCleanup(e.action) && q !in u && q in r
    ensures e.action == Rename && Inside(e.sourceKey.value, q)
  {
    if e.action == Rename { assert Lookup(r, q) != None; }
  }

  /** What was there before the step and is not after it has been taken from its target. */
  lemma TakenFrom(u: Disk, e: Step, r: Disk, w: Disk, q: Path)
    requires Undoes(u, e, r) && e.action == Rename && Eroded(e, r, w) && q in u && q !in w
    ensures Inside(e.targetKey.value, q)
  {
    var s := e.sourceKey.value;
    if Inside(s, q) { TreeUp(u, q, s); }
    assert Lookup(r, q) == if Inside(e.targetKey.value, q) then None else Lookup(u, q);
  }

  lemma RedoErodes(u: Disk, e: Step, r: Disk, w: Disk, l: Step)
    requires Undoes(u, e, r) && !IsCleanup(e.action) && Eroded(e, r, w) && IsUndone(u, l) && UndoStep(w, l).Done?
    requires ToUndo(l) ==> !ComesBack(e, l)
    ensures Eroded(e, r, UndoStep(w, l).disk)
    ensures UndoStep(w, l).disk == r ==> w == r && IsUndone(r, l)
  {
    if !ToUndo(l) {
      NotMarked(w, l);
    } else if l.targetKey.None? || l.targetKey.value !in w {
      NothingToRedo(w, l);
    } else {
      var t := l.targetKey.value;
      OnlyPutBack(u, e, r, t);
      if l.action == Rename { RedoMoves(u, e, r, w, l); }
      assert UndoStep(w, l) == Done(Without(w, t));
      RemovedStaysTree(w, t);
      ErodedFurther(e, r, w, t);
    }
  }

  lemma ErodedFurther(e: Step, r: Disk, w: Disk, t: Path)
    requires Eroded(e, r, w) && t in w && IsTree(Without(w, t))
    requires e.action == Rename && e.sourceKey.Some? && Inside(e.sourceKey.value, t)
    ensures Eroded(e, r, Without(w, t)) && Without(w, t) != r
  {
    assert t !in Without(w, t);
    assert Lookup(w, t) == Lookup(r, t);
    forall q | q in r && q !in Without(w, t)
      ensures Inside(e.sourceKey.value, q)
    {
      if q in w { InsideThrough(e.sourceKey.value, t, q); }
    }
  }

  /** No rename goes ahead a second time: its source would have to be what `e` has taken. */
  lemma RedoMoves(u: Disk, e: Step, r: Disk, w: Disk, l: Step)
    requires Undoes(u, e, r) && e.action == Rename && Eroded(e, r, w) && IsUndone(u, l)
    requires ToUndo(l) && l.action == Rename && l.targetKey.Some? && l.targetKey.value in w
    requires Inside(e.sourceKey.value, l.targetKey.value) && !ComesBack(e, l)
    ensures !UndoStep(w, l).Done?
  {
    UndoneMove(u, l);
    if l.sourceKey.value !in w { TakenFrom(u, e, r, w, l.sourceKey.value); }
  }

  lemma OneLess(w: Disk, steps: seq<Step>, n: nat, m: nat)
    requires m < n <= |steps| && UndoneDownTo(w, steps, n, m).Done?
    ensures UndoStep(w, steps[n - 1]).Done?
    ensures UndoneDownTo(w, steps, n, m) == UndoneDownTo(UndoStep(w, steps[n - 1]).disk, steps, n - 1, m)
  {
    hide UndoStep;
  }

  lemma NothingLess(w: Disk, steps: seq<Step>, m: nat)
    requires m <= |steps|
    ensures UndoneDownTo(w, steps, m, m) == Done(w)
  {
  }

  lemma RedoOne(u: Disk, e: Step, r: Disk, w: Disk, steps: seq<Step>, n: nat, m: nat)
    requires Undoes(u, e, r) && !IsCleanup(e.action) && Eroded(e, r, w)
    requires m < n <= |steps| && AllUndone(u, steps, m) && UndoneDownTo(w, steps, n, m).Done?
    requires forall k | m <= k < |steps| && ToUndo(steps[k]) :: !ComesBack(e, steps[k])
    ensures var next := UndoStep(w, steps[n - 1]);
            && next.Done? && UndoneDownTo(w, steps, n, m) == UndoneDownTo(next.disk, steps, n - 1, m)
            && Eroded(e, r, next.disk) && (next.disk == r ==> w == r && IsUndone(r, steps[n - 1]))
  {
    var l := steps[n - 1];
    assert IsUndone(u, l) && (ToUndo(l) ==> !ComesBack(e, l));
    hide *;
    OneLess(w, steps, n, m);
    RedoErodes(u, e, r, w, l);
  }

  lemma {:induction false} RedoneDown(u: Disk, e: Step, r: Disk, w: Disk, steps: seq<Step>, n: nat, m: nat)
    requires Undoes(u, e, r) && !IsCleanup(e.action) && Eroded(e, r, w)
    requires m <= n <= |steps| && AllUndone(u, steps, m) && UndoneDownTo(w, steps, n, m).Done?
    requires forall k | m <= k < |steps| && ToUndo(steps[k]) :: !ComesBack(e, steps[k])
    ensures Eroded(e, r, UndoneDownTo(w, steps, n, m).disk)
    ensures UndoneDownTo(w, steps, n, m).disk == r ==> w == r && forall k | m <= k < n :: IsUndone(r, steps[k])
    decreases n
  {
    hide *;
    if n == m {
      NothingLess(w, steps, m);
    } else {
      RedoOne(u, e, r, w, steps, n, m);
      RedoneDown(u, e, r, UndoStep(w, steps[n - 1]).disk, steps, n - 1, m);
    }
  }

  /** With a part of what it put back gone, the step itself stops the second time. */
  lemma ErodedStops(u: Disk, e: Step, r: Disk, w: Disk)
    requires Undoes(u, e, r) && ToUndo(e) && Eroded(e, r, w) && w != r
    ensures !UndoStep(w, e).Done?
  {
    var q := MissingOne(e, r, w);
    var s, t := e.sourceKey.value, e.targetKey.value;
    assert Lookup(r, t) == None;
    assert t !in w;
    if s in w {
      assert s + q[|s|..] == q && t + s[|s|..] == t;
      assert Lookup(r, s) == Lookup(u, t) && Lookup(w, s) == Lookup(r, s);
      TreeUp(r, q, s);
      ContentsAt(w, s, q[|s|..]);
      ContentsAt(u, t, q[|s|..]);
      assert Lookup(r, q) == Lookup(u, t + q[|s|..]);
      assert !ValidNode(w, s, Swapped(e));
    }
  }

  lemma MissingOne(e: Step, r: Disk, w: Disk) returns (q: Path)
    requires Eroded(e, r, w) && w != r
    ensures q in r && q !in w && e.action == Rename && e.sourceKey.Some? && Inside(e.sourceKey.value, q)
  {
    if forall q <- r :: q in w {
      forall p
        ensures Lookup(w, p) == Lookup(r, p)
      {
        if p in w { assert Lookup(w, p) == Lookup(r, p); }
      }
      SameDisk(w, r);
    }
    q :| q in r && q !in w;
  }

  /** Once a later step is no longer undone, the second undo does not get past the step that disturbed it. */
  lemma RerunStops(u: Disk, steps: seq<Step>, e: nat)
    requires e < |steps| && ToUndo(steps[e]) && Undoes(u, steps[e], UndoStep(u, steps[e]).disk)
    requires AllUndone(u, steps, e + 1) && !AllUndone(UndoStep(u, steps[e]).disk, steps, e + 1)
    requires StaysAway(steps, e)
    ensures !UndoneDownTo(UndoStep(u, steps[e]).disk, steps, |steps|, e).Done?
  {
    var r := UndoStep(u, steps[e]).disk;
    assert Eroded(steps[e], r, r);
    OneDeeper(r, steps, |steps|, e);
    hide UndoStep, Undoes, IsUndone, ComesBack, Eroded;
    if UndoneDownTo(r, steps, |steps|, e + 1).Done? {
      RedoneDown(u, steps[e], r, r, steps, |steps|, e + 1);
      ErodedStops(u, steps[e], r, UndoneDownTo(r, steps, |steps|, e + 1).disk);
    }
  }

  // ------------------------------------------------------------------- exactly when a rerun is safe

  /** The newest step that disturbs a later one. */
  lemma {:induction false} NewestDisturbing(steps: seq<Step>, m: nat) returns (e: nat, l: nat)
    requires m <= |steps| && !NothingDisturbs(steps, m)
    ensures m <= e < l < |steps| && ToUndo(steps[e]) && ToUndo(steps[l]) && Disturbs(steps[e], steps[l])
    ensures NothingDisturbs(steps, e + 1)
    decreases |steps| - m
  {
    if NothingDisturbs(steps, m + 1) {
      hide Disturbs;
      var a, b :| m <= a < b < |steps| && ToUndo(steps[a]) && ToUndo(steps[b]) && Disturbs(steps[a], steps[b]);
      e, l := a, b;
    } else {
      e, l := NewestDisturbing(steps, m + 1);
    }
  }

  /** The same disk, however far a first undo got before it was run again. */
  predicate RerunsTheSame(d: Disk, steps: seq<Step>) {
    forall m | 0 <= m <= |steps| && UndoneDownTo(d, steps, |steps|, m).Done? ::
      Undone(UndoneDownTo(d, steps, |steps|, m).disk, steps, |steps|) == Undone(d, steps, |steps|)
  }

  /** A step that disturbs a later one, cut off just after it: the undo that was finishing now stops. */
  lemma DisturbedStops(start: Disk, steps: seq<Step>, left: iset<Path>, d: Disk)
    requires Setting(start, steps, left) && Level(start, steps, left, |steps|, d)
    requires NewestStaysAway(steps) && !NothingDisturbs(steps, 0)
    ensures exists m :: 0 <= m <= |steps| && UndoneDownTo(d, steps, |steps|, m).Done? &&
              !Undone(UndoneDownTo(d, steps, |steps|, m).disk, steps, |steps|).Done?
  {
    var e, l := NewestDisturbing(steps, 0);
    Levels(start, steps, left, d, e);
    Levels(start, steps, left, d, e + 1);
    OneDeeper(d, steps, |steps|, e);
    assert !NothingDisturbs(steps, e) && StaysAway(steps, e);
    hide *;
    StopsAtCut(start, steps, left, d, e, l);
    StoppedAbove(UndoneDownTo(d, steps, |steps|, e).disk, steps, |steps|, e);
  }

  lemma StopsAtCut(start: Disk, steps: seq<Step>, left: iset<Path>, d: Disk, e: nat, l: nat)
    requires Setting(start, steps, left) && Level(start, steps, left, |steps|, d)
    requires e < l < |steps| && StaysAway(steps, e) && ToUndo(steps[e]) && ToUndo(steps[l]) &&
             Disturbs(steps[e], steps[l])
    requires NothingDisturbs(steps, e + 1) && UndoneDownTo(d, steps, |steps|, e + 1).Done?
    requires UndoneDownTo(d, steps, |steps|, e).Done?
    ensures !UndoneDownTo(UndoneDownTo(d, steps, |steps|, e).disk, steps, |steps|, e).Done?
  {
    hide *;
    Levels(start, steps, left, d, e + 1);
    UndisturbedDown(start, steps, left, d, e + 1);
    OneDeeper(d, steps, |steps|, e);
    var u := UndoneDownTo(d, steps, |steps|, e + 1).disk;
    DisturbedIsFelt(start, steps, left, e, l, u);
    LevelUndoes(start, steps, left, e, u);
    RerunStops(u, steps, e);
  }

  /**
   * Undo of any marked steps that changed the disk, cut off after any of them
   * and run again from the newest, ends as it would have in one go -- exactly
   * if no step disturbs a later one.  That the condition is needed is shown
   * unless the newest step that fails it has something taken back.
   */
  lemma RerunsExactly(start: Disk, steps: seq<Step>, left: iset<Path>, d: Disk)
    requires Setting(start, steps, left) && IsTree(d) && Plus(Ran(start, steps, |steps|), left, d)
    ensures NothingDisturbs(steps, 0) ==> RerunsTheSame(d, steps)
    ensures NewestStaysAway(steps) ==> (RerunsTheSame(d, steps) <==> NothingDisturbs(steps, 0))
  {
    RollbackRestores(start, steps, left, d);
    if NothingDisturbs(steps, 0) {
      forall m | 0 <= m <= |steps| && UndoneDownTo(d, steps, |steps|, m).Done?
        ensures Undone(UndoneDownTo(d, steps, |steps|, m).disk, steps, |steps|) == Undone(d, steps, |steps|)
      {
        UndisturbedFrom(steps, m);
        UndisturbedDown(start, steps, left, d, m);
        SkipsUndone(UndoneDownTo(d, steps, |steps|, m).disk, steps, |steps|, m);
        UndoContinues(d, steps, |steps|, m);
      }
    } else if NewestStaysAway(steps) {
      DisturbedStops(start, steps, left, d);
    }
    hide Undone, UndoneDownTo, IsUndone, AllChanged, Plus, NothingDisturbs, NewestStaysAway;
  }

  lemma AllStayAway(steps: seq<Step>)
    requires NothingComesBack(steps)
    ensures NewestStaysAway(steps)
  {
    hide NothingDisturbs, ComesBack;
  }

  lemma UndisturbedFrom(steps: seq<Step>, m: nat)
    requires NothingDisturbs(steps, 0)
    ensures NothingDisturbs(steps, m)
  {
  }

  /** However often it is cut off: a second cut leaves the lower of the two levels. */
  lemma CutTwice(start: Disk, steps: seq<Step>, left: iset<Path>, d: Disk, m: nat, k: nat)
    requires Setting(start, steps, left) && Level(start, steps, left, |steps|, d) && NothingDisturbs(steps, 0)
    requires m <= |steps| && k <= |steps|
    ensures UndoneDownTo(d, steps, |steps|, m).Done?
    ensures UndoneDownTo(UndoneDownTo(d, steps, |steps|, m).disk, steps, |steps|, k)
            == UndoneDownTo(d, steps, |steps|, if m <= k then m else k)
  {
    UndisturbedFrom(steps, m);
    UndisturbedDown(start, steps, left, d, m);
    var u := UndoneDownTo(d, steps, |steps|, m).disk;
    SkipsDownTo(u, steps, |steps|, if m <= k then k else m, k);
    if k < m { DownContinues(d, steps, |steps|, m, k); }
    hide *;
  }

  lemma {:induction false} SkipsDownTo(d: Disk, steps: seq<Step>, n: nat, m: nat, k: nat)
    requires k <= m <= n <= |steps| && forall i :: m <= i < n ==> IsUndone(d, steps[i])
    ensures UndoneDownTo(d, steps, n, k) == UndoneDownTo(d, steps, m, k)
    decreases n
  {
    if n != m { SkipsDownTo(d, steps, n - 1, m, k); }
  }

  lemma {:induction false} DownContinues(d: Disk, steps: seq<Step>, n: nat, m: nat, k: nat)
    requires k <= m <= n <= |steps| && UndoneDownTo(d, steps, n, m).Done?
    ensures UndoneDownTo(d, steps, n, k) == UndoneDownTo(UndoneDownTo(d, steps, n, m).disk, steps, m, k)
    decreases n
  {
    if n != m { DownContinues(UndoStep(d, steps[n - 1]).disk, steps, n - 1, m, k); }
  }
}
