/**
 * An abort that dies before it is recorded: the marks are still there, so the
 * next attempt takes every marked step for done, also those undone already,
 * carries out the steps that are left and commits.
 */
module AbortRetry {
  import opened Common
  import opened Paths
  import opened Disk
  import opened Steps
  import opened Effects
  import opened Serialisability
  import opened Recovery
  import opened Rollback
  import opened Rerun

  // ------------------------------------------------------------------------- the events

  /** The undo of the steps from the `n`-th down to `m`. */
  function UndoDown(n: nat, m: nat): seq<Event>
    requires m <= n
    decreases n
  {
    if n == m then [] else [Undo(n - 1)] + UndoDown(n - 1, m)
  }

  predicate Through(steps: seq<Step>) {
    forall i :: 0 <= i < |steps| ==> IsCleanup(steps[i].action) || steps[i].applied
  }

  predicate ToDo(step: Step) {
    !step.applied && !IsCleanup(step.action)
  }

  /** An attempt at the forward steps from `i` on that are not marked. */
  function Redo(steps: seq<Step>, i: nat): seq<Event>
    requires i <= |steps|
    decreases |steps| - i
  {
    if i == |steps| then [] else (if ToDo(steps[i]) then [Work, Mark] else []) + Redo(steps, i + 1)
  }

  /** The whole story: undo down to `m`, the worker dies, the next one carries on and commits. */
  function CutAndRetried(steps: seq<Step>, m: nat): seq<Event>
    requires m <= |steps|
  {
    UndoDown(|steps|, m) + ([Crash] + (Redo(steps, 0) + [Commit]))
  }

  /** A mutation between two events of its forward phase. */
  function Waiting(d: Disk, steps: seq<Step>): Run {
    Run(d, steps, false, Running, false)
  }

  lemma {:induction false} RunsOn(r: Run, a: seq<Event>, b: seq<Event>)
    ensures RunOf(r, a + b) == RunOf(RunOf(r, a), b)
    decreases a
  {
    if a == [] {
      assert a + b == b;
    } else {
      assert (a + b)[1..] == a[1..] + b;
      RunsOn(Moved(r, a[0]), a[1..], b);
    }
  }

  lemma {:induction false} UndoRuns(d: Disk, steps: seq<Step>, n: nat, m: nat)
    requires m <= n <= |steps| && UndoneDownTo(d, steps, n, m).Done?
    ensures RunOf(Waiting(d, steps), UndoDown(n, m)) == Waiting(UndoneDownTo(d, steps, n, m).disk, steps)
    decreases n
  {
    if n != m {
      var r := UndoStep(d, steps[n - 1]);
      hide UndoStep;
      assert Moved(Waiting(d, steps), Undo(n - 1)) == Waiting(r.disk, steps);
      UndoRuns(r.disk, steps, n - 1, m);
    }
  }

  lemma {:induction false} SameRedo(steps: seq<Step>, other: seq<Step>, i: nat)
    requires i <= |steps| == |other| && forall k :: i <= k < |steps| ==> other[k] == steps[k]
    ensures Redo(other, i) == Redo(steps, i)
    decreases |steps| - i
  {
    if i < |steps| { SameRedo(steps, other, i + 1); }
  }

  /** The attempt leaves the disk and the marks of one pass. */
  lemma {:induction false} PassRuns(d: Disk, steps: seq<Step>, i: nat)
    requires i <= |steps| && PhaseFrom(d, steps, Forward, i).result.Done?
    requires forall k :: 0 <= k < i ==> !ToDo(steps[k])
    ensures var pass := PhaseFrom(d, steps, Forward, i);
            RunOf(Waiting(d, steps), Redo(steps, i)) == Waiting(pass.result.disk, pass.steps) && Through(pass.steps)
    decreases |steps| - i
  {
    if i == |steps| {
    } else if !ToDo(steps[i]) {
      PassRuns(d, steps, i + 1);
      assert Redo(steps, i) == Redo(steps, i + 1);
    } else {
      var r := ApplyStep(d, steps[i], OwnedQuarantine(steps, steps[i]));
      var marked := steps[i := steps[i].(applied := true)];
      WorkAndMark(d, steps, i);
      hide ApplyStep, OwnedQuarantine;
      PassRuns(r.disk, marked, i + 1);
      SameRedo(steps, marked, i + 1);
      RunsOn(Waiting(d, steps), [Work, Mark], Redo(steps, i + 1));
    }
  }

  lemma WorkAndMark(d: Disk, steps: seq<Step>, i: nat)
    requires i < |steps| && ToDo(steps[i]) && forall k :: 0 <= k < i ==> !ToDo(steps[k])
    requires ApplyStep(d, steps[i], OwnedQuarantine(steps, steps[i])).Done?
    ensures RunOf(Waiting(d, steps), [Work, Mark]) ==
            Waiting(ApplyStep(d, steps[i], OwnedQuarantine(steps, steps[i])).disk,
              steps[i := steps[i].(applied := true)])
  {
    var r := ApplyStep(d, steps[i], OwnedQuarantine(steps, steps[i]));
    hide ApplyStep, OwnedQuarantine;
    assert NextFrom(steps, Forward, 0) == i;
    var worked := Moved(Waiting(d, steps), Work);
    assert worked == Waiting(r.disk, steps).(did := true);
    assert [Work, Mark][1..] == [Mark] && [Mark][1..] == [];
    assert RunOf(Waiting(d, steps), [Work, Mark]) == RunOf(worked, [Mark]) == RunOf(Moved(worked, Mark), []);
  }

  lemma {:induction false} NothingNext(steps: seq<Step>, i: nat)
    requires Through(steps) && i <= |steps|
    ensures NextFrom(steps, Forward, i) == |steps|
    decreases |steps| - i
  {
    if i < |steps| { NothingNext(steps, i + 1); }
  }

  /** Where the steps that are left go through on the disk as the undo has left it, the retry commits. */
  lemma RetryCommits(d: Disk, steps: seq<Step>, m: nat)
    requires m <= |steps| && UndoneDownTo(d, steps, |steps|, m).Done?
    requires PhaseFrom(UndoneDownTo(d, steps, |steps|, m).disk, steps, Forward, 0).result.Done?
    ensures var pass := PhaseFrom(UndoneDownTo(d, steps, |steps|, m).disk, steps, Forward, 0);
            RunOf(Waiting(d, steps), CutAndRetried(steps, m))
            == Waiting(pass.result.disk, pass.steps).(committed := true)
  {
    var cut := UndoneDownTo(d, steps, |steps|, m).disk;
    var pass := PhaseFrom(cut, steps, Forward, 0);
    var rest := Redo(steps, 0) + [Commit];
    UndoRuns(d, steps, |steps|, m);
    PassRuns(cut, steps, 0);
    RunsOn(Waiting(d, steps), UndoDown(|steps|, m), [Crash] + rest);
    hide UndoneDownTo, UndoDown, PhaseFrom;
    assert ([Crash] + rest)[1..] == rest;
    assert RunOf(Waiting(cut, steps), [Crash] + rest) == RunOf(Moved(Waiting(cut, steps), Crash), rest);
    assert Moved(Waiting(cut, steps), Crash) == Waiting(cut, steps);
    RunsOn(Waiting(cut, steps), Redo(steps, 0), [Commit]);
    CommitGoes(pass.result.disk, pass.steps);
  }

  lemma CommitGoes(d: Disk, steps: seq<Step>)
    requires Through(steps)
    ensures RunOf(Waiting(d, steps), [Commit]) == Waiting(d, steps).(committed := true)
  {
    NothingNext(steps, 0);
    assert [Commit][1..] == [];
    assert Moved(Waiting(d, steps), Commit) == Waiting(d, steps).(committed := true);
    assert RunOf(Waiting(d, steps).(committed := true), []) == Waiting(d, steps).(committed := true);
  }

  // ----------------------------------------------------------------- which steps move files

  /** A move of a file, or of a folder that has a file in it. */
  predicate MovesFile(step: Step) {
    && step.action == Rename
    && (step.expectedNodeType == Some(File) ||
        (step.treeManifestDigest.Some? &&
         exists q <- step.treeManifestDigest.value :: step.treeManifestDigest.value[q].FileNode?))
  }

  predicate NoneMovesFile(steps: seq<Step>, m: nat) {
    forall k :: m <= k < |steps| && ToUndo(steps[k]) ==> !MovesFile(steps[k])
  }

  predicate IsFile(d: Disk, q: Path) {
    q in d && d[q].FileNode?
  }

  lemma SameFiles(d: Disk, u: Disk)
    requires forall q :: (IsFile(d, q) || IsFile(u, q)) ==> Lookup(d, q) == Lookup(u, q)
    ensures Files(d) == Files(u)
  {
    forall q ensures q in Files(d) <==> q in Files(u) { assert IsFile(d, q) <==> q in Files(d); }
    forall q | q in Files(d) ensures Files(d)[q] == Files(u)[q] { assert IsFile(d, q); }
  }

  lemma NothingMoved(d: Disk, step: Step)
    requires IsTree(d) && ToUndo(step) && Changes(d, step) && !MovesFile(step)
    ensures Files(ApplyStep(d, step, false).disk) == Files(d)
  {
    var d' := ApplyStep(d, step, false).disk;
    DoneMeans(d, step, false);
    if step.action == Rename { NoFileBelow(d, step); }
    hide ApplyStep, MovesFile, IsTree;
    forall q | IsFile(d, q) || IsFile(d', q)
      ensures Lookup(d', q) == Lookup(d, q)
    {
      assert Lookup(d', q) == After(EffectOf(d, step), d, q);
      if EffectOf(d, step).Moves? { NotMovedAt(d, step.sourceKey.value, step.targetKey.value, q); }
    }
    SameFiles(d', d);
  }

  lemma NotMovedAt(d: Disk, s: Path, t: Path, q: Path)
    requires IsTree(d) && t != [] && t !in d && forall p :: Inside(s, p) ==> !IsFile(d, p)
    ensures IsFile(d, q) ==> !Inside(s, q) && !Inside(t, q)
    ensures Inside(t, q) ==> !IsFile(d, s + q[|t|..])
  {
    if IsFile(d, q) && Inside(t, q) { TreeUp(d, q, t); }
    assert Inside(t, q) ==> Inside(s, s + q[|t|..]);
  }

  lemma NoFileBelow(d: Disk, step: Step)
    requires IsTree(d) && step.action == Rename && Changes(d, step) && !MovesFile(step)
    ensures forall p :: Inside(step.sourceKey.value, p) ==> !IsFile(d, p)
  {
    var s := step.sourceKey.value;
    var digest := step.treeManifestDigest.value;
    assert ValidNode(d, s, step) && Contents(d, s) == digest && d[s] == DirNode;
    forall p | Inside(s, p)
      ensures !IsFile(d, p)
    {
      ContentsAt(d, s, p[|s|..]);
      assert p == s + p[|s|..];
      assert p[|s|..] in digest ==> !digest[p[|s|..]].FileNode?;
    }
  }

  /** A step that moves a file leaves one at or below its target. */
  lemma FileArrives(d: Disk, step: Step) returns (q: Path)
    requires IsTree(d) && ToUndo(step) && Changes(d, step) && MovesFile(step)
    ensures step.targetKey.Some? && Inside(step.targetKey.value, q) && IsFile(ApplyStep(d, step, false).disk, q)
  {
    var s, t := step.sourceKey.value, step.targetKey.value;
    DoneMeans(d, step, false);
    assert ValidNode(d, s, step);
    if step.expectedNodeType == Some(File) {
      q := t;
      assert s + q[|t|..] == s;
    } else {
      var digest := step.treeManifestDigest.value;
      var p :| p in digest && digest[p].FileNode?;
      q := t + p;
      ContentsAt(d, s, p);
      assert q[|t|..] == p;
    }
    assert Lookup(ApplyStep(d, step, false).disk, q) == After(Moves(s, t), d, q);
  }

  lemma {:induction false} FilesStay(start: Disk, steps: seq<Step>, m: nat, n: nat)
    requires IsTree(start) && AllChanged(start, steps) && m <= n <= |steps|
    requires forall k :: m <= k < n && ToUndo(steps[k]) ==> !MovesFile(steps[k])
    ensures Files(Ran(start, steps, n)) == Files(Ran(start, steps, m))
    decreases n
  {
    if m < n {
      FilesStay(start, steps, m, n - 1);
      RanIsTree(start, steps, n - 1);
      assert ToUndo(steps[n - 1]) ==> Changes(Ran(start, steps, n - 1), steps[n - 1]);
      hide Changes, IsTree, MovesFile, ApplyStep;
      if ToUndo(steps[n - 1]) { NothingMoved(Ran(start, steps, n - 1), steps[n - 1]); }
    }
  }

  lemma {:induction false} NewestMover(steps: seq<Step>, m: nat) returns (k: nat)
    requires m <= |steps| && !NoneMovesFile(steps, m)
    ensures m <= k < |steps| && ToUndo(steps[k]) && MovesFile(steps[k]) && NoneMovesFile(steps, k + 1)
    decreases |steps| - m
  {
    hide MovesFile;
    if NoneMovesFile(steps, m + 1) { k := m; } else { k := NewestMover(steps, m + 1); }
  }

  /** Where a step that moves a file is undone for good, the disk has a file that the undone one has not. */
  lemma FileUndone(start: Disk, steps: seq<Step>, left: iset<Path>, d: Disk, m: nat) returns (k: nat, q: Path)
    requires Setting(start, steps, left) && IsTree(d) && Plus(Ran(start, steps, |steps|), left, d)
    requires m <= |steps| && NothingDisturbs(steps, m) && !NoneMovesFile(steps, m)
    requires UndoneDownTo(d, steps, |steps|, m).Done?
    ensures m <= k < |steps| && ToUndo(steps[k]) && steps[k].targetKey.Some? && Inside(steps[k].targetKey.value, q)
    ensures IsFile(d, q) && q !in UndoneDownTo(d, steps, |steps|, m).disk
  {
    k := NewestMover(steps, m);
    q := MoverLeaves(start, steps, left, k);
    AtLast(start, steps, left, d);
    hide Setting, Plus, MovesFile, NothingDisturbs, Ran, UndoneDownTo;
    Levels(start, steps, left, d, m);
    UndisturbedDown(start, steps, left, d, m);
    PlusKeepsFiles(Ran(start, steps, |steps|), left, d);
    NotBelowUndone(UndoneDownTo(d, steps, |steps|, m).disk, steps[k], q);
    assert q in Files(d);
  }

  lemma MoverLeaves(start: Disk, steps: seq<Step>, left: iset<Path>, k: nat) returns (q: Path)
    requires Setting(start, steps, left) && k < |steps| && ToUndo(steps[k]) && MovesFile(steps[k])
    requires NoneMovesFile(steps, k + 1)
    ensures steps[k].action == Rename && steps[k].targetKey.Some? && Inside(steps[k].targetKey.value, q)
    ensures q in Files(Ran(start, steps, |steps|))
  {
    RanIsTree(start, steps, k);
    assert Changes(Ran(start, steps, k), steps[k]);
    hide Changes, NothingInTheWay;
    q := FileArrives(Ran(start, steps, k), steps[k]);
    FilesStay(start, steps, k + 1, |steps|);
    assert q in Files(Ran(start, steps, k + 1));
  }

  lemma NotBelowUndone(u: Disk, step: Step, q: Path)
    requires IsTree(u) && ToUndo(step) && step.action == Rename && IsUndone(u, step)
    requires step.targetKey.Some? && Inside(step.targetKey.value, q)
    ensures q !in u
  {
    UndoneMove(u, step);
    if q in u { TreeUp(u, q, step.targetKey.value); }
  }

  // -------------------------------------------------- two disks that agree around some paths

  /** The same tree at `p`, and files in the same places on the way to it. */
  ghost predicate Agree(d: Disk, u: Disk, p: Path) {
    && (forall q :: Inside(p, q) ==> Lookup(d, q) == Lookup(u, q))
    && (forall q :: Above(q, p) ==> (IsFile(d, q) <==> IsFile(u, q)))
  }

  lemma AgreeIsSame(d: Disk, u: Disk, p: Path)
    requires Agree(d, u, p)
    ensures SameAt(d, u, p)
  {
    assert Inside(p, p);
    ContentsApart(d, u, p);
    forall i | 0 < i < |p|
      ensures (p[..i] in d ==> d[p[..i]] == DirNode) <==> (p[..i] in u ==> u[p[..i]] == DirNode)
    {
      assert Above(p[..i], p);
      assert IsFile(d, p[..i]) <==> IsFile(u, p[..i]);
    }
  }

  lemma UndoAgrees(d: Disk, step: Step, p: Path)
    requires IsTree(d) && UndoStep(d, step).Done?
    requires ToUndo(step) ==> forall k <- PathsOf(step) :: Apart(k, p)
    ensures Agree(d, UndoStep(d, step).disk, p)
  {
    if ToUndo(step) {
      if step.action == Rename {
        DoneMeans(d, Swapped(step), false);
        assert KeysOf(Swapped(step)) == PathsOf(step);
        hide UndoStep, ApplyRename;
        EffectAgrees(d, EffectOf(d, Swapped(step)), ApplyRename(d, Swapped(step)).disk, p);
        assert UndoStep(d, step) == ApplyRename(d, Swapped(step)) by { UndoIsMove(d, step); }
      } else if step.targetKey.Some? && step.targetKey.value in d {
        RemovalAgrees(d, step.targetKey.value, p);
      }
    }
  }

  lemma UndoIsMove(d: Disk, step: Step)
    requires ToUndo(step) && step.action == Rename
    ensures UndoStep(d, step) == ApplyRename(d, Swapped(step))
  {
    hide ApplyRename;
  }

  lemma EffectAgrees(d: Disk, e: Effect, d': Disk, p: Path)
    requires forall q :: Lookup(d', q) == After(e, d, q)
    requires forall k <- EffectKeys(e) :: Apart(k, p)
    ensures Agree(d, d', p)
  {
    InsideApart(d, e, d', p);
    forall q | Above(q, p)
      ensures IsFile(d, q) <==> IsFile(d', q)
    {
      assert Lookup(d', q) == After(e, d, q);
      if e != Nothing { assert e.target in EffectKeys(e); InsideThrough(e.target, q, p); }
      if e.Moves? { assert e.source in EffectKeys(e); InsideThrough(e.source, q, p); }
    }
  }

  lemma RemovalAgrees(d: Disk, at: Path, p: Path)
    requires Apart(at, p)
    ensures Agree(d, Without(d, at), p)
  {
    forall q | Inside(p, q) ensures Lookup(d, q) == Lookup(Without(d, at), q) { NotWithin(at, p, q); }
    forall q | Above(q, p) ensures IsFile(d, q) <==> IsFile(Without(d, at), q) { InsideThrough(at, q, p); }
  }

  /** The undone steps are apart from the paths. */
  ghost predicate ApartFrom(steps: seq<Step>, m: nat, paths: iset<Path>) {
    forall k, x, p | m <= k < |steps| && ToUndo(steps[k]) && x in PathsOf(steps[k]) && p in paths :: Apart(x, p)
  }

  lemma {:induction false} UndoneAgrees(d: Disk, steps: seq<Step>, n: nat, m: nat, paths: iset<Path>)
    requires IsTree(d) && m <= n <= |steps| && UndoneDownTo(d, steps, n, m).Done? && ApartFrom(steps, m, paths)
    ensures IsTree(UndoneDownTo(d, steps, n, m).disk)
    ensures forall p <- paths :: Agree(d, UndoneDownTo(d, steps, n, m).disk, p)
    decreases n
  {
    if n != m {
      var r := UndoStep(d, steps[n - 1]);
      UndoStaysTree(d, steps[n - 1]);
      forall p | p in paths ensures Agree(d, r.disk, p) { UndoAgrees(d, steps[n - 1], p); }
      hide UndoStep, IsTree, ApartFrom, PathsOf;
      UndoneAgrees(r.disk, steps, n - 1, m, paths);
    }
  }

  /** A step with its paths among these does the same on both, and they go on agreeing. */
  lemma StepAgrees(d: Disk, u: Disk, step: Step, paths: iset<Path>)
    requires IsTree(d) && IsTree(u) && !IsCleanup(step.action)
    requires (forall p <- paths :: Agree(d, u, p)) && forall k <- KeysOf(step) :: k in paths
    ensures var a, b := ApplyStep(d, step, false), ApplyStep(u, step, false);
            && (a.Done? <==> b.Done?)
            && (a.Done? ==> IsTree(a.disk) && IsTree(b.disk) && forall p <- paths :: Agree(a.disk, b.disk, p))
            && (a.Done? && Files(d) == Files(u) ==> Files(a.disk) == Files(b.disk))
  {
    forall k | k in KeysOf(step) ensures SameAt(d, u, k) { AgreeIsSame(d, u, k); }
    VerdictFromKeys(d, u, step);
    var a, b := ApplyStep(d, step, false), ApplyStep(u, step, false);
    if a.Done? {
      DoneMeans(d, step, false);
      DoneMeans(u, step, false);
      var e := EffectOf(d, step);
      EffectKeysOwn(d, step);
      StaysTree(d, e, a.disk);
      StaysTree(u, e, b.disk);
      hide ApplyStep, EffectOf, SameAt, Agree, IsTree;
      forall p | p in paths
        ensures Agree(a.disk, b.disk, p)
      {
        BothAgree(d, u, e, a.disk, b.disk, p);
      }
      if Files(d) == Files(u) { BothFiles(d, u, e, a.disk, b.disk); }
    }
  }

  lemma EffectKeysOwn(d: Disk, step: Step)
    ensures EffectKeys(EffectOf(d, step)) <= KeysOf(step)
  {
  }

  lemma BothAgree(d: Disk, u: Disk, e: Effect, d': Disk, u': Disk, p: Path)
    requires Agree(d, u, p) && (forall k <- EffectKeys(e) :: Agree(d, u, k)) && Fitting(e, d) && Fitting(e, u)
    requires forall q :: Lookup(d', q) == After(e, d, q)
    requires forall q :: Lookup(u', q) == After(e, u, q)
    ensures Agree(d', u', p)
  {
    forall q
      ensures Inside(p, q) ==> Lookup(d', q) == Lookup(u', q)
      ensures Above(q, p) ==> (IsFile(d', q) <==> IsFile(u', q))
    {
      assert Lookup(d', q) == After(e, d, q) && Lookup(u', q) == After(e, u, q);
      if e.Moves? && Inside(e.target, q) {
        assert e.source in EffectKeys(e) && Inside(e.source, e.source + q[|e.target|..]);
      }
      if e != Nothing && Above(q, e.target) {
        if q in d { SafeAt(d, e.target, q); }
        if q in u { SafeAt(u, e.target, q); }
      }
    }
  }

  lemma BothFiles(d: Disk, u: Disk, e: Effect, d': Disk, u': Disk)
    requires Files(d) == Files(u)
    requires forall q :: Lookup(d', q) == After(e, d, q)
    requires forall q :: Lookup(u', q) == After(e, u, q)
    ensures Files(d') == Files(u')
  {
    forall q
      ensures IsFile(d, q) || IsFile(u, q) ==> Lookup(d, q) == Lookup(u, q)
    {
      assert IsFile(d, q) <==> q in Files(d);
      assert IsFile(u, q) <==> q in Files(u);
    }
    forall q | IsFile(d', q) || IsFile(u', q)
      ensures Lookup(d', q) == Lookup(u', q)
    {
      assert Lookup(d', q) == After(e, d, q) && Lookup(u', q) == After(e, u, q);
    }
    SameFiles(d', u');
  }

  // ------------------------------------------------------------------ the steps that are left

  /** The paths of the forward steps that are not marked. */
  ghost function PathsToDo(steps: seq<Step>): iset<Path> {
    iset i, p | 0 <= i < |steps| && ToDo(steps[i]) && p in KeysOf(steps[i]) :: p
  }

  /** A pass takes up the step; the mark is all that changes in the plan. */
  lemma PassGoesOn(d: Disk, steps: seq<Step>, i: nat)
    requires i < |steps| && ToDo(steps[i])
    ensures var r := ApplyStep(d, steps[i], false);
            PhaseFrom(d, steps, Forward, i) ==
            if r.Done? then PhaseFrom(r.disk, steps[i := steps[i].(applied := true)], Forward, i + 1)
            else PhaseEnd(r, steps)
  {
    OwnedNoMatter(d, steps[i]);
    hide ApplyStep, OwnedQuarantine;
  }

  lemma {:induction false} PassAgrees(d: Disk, u: Disk, steps: seq<Step>, i: nat, paths: iset<Path>)
    requires IsTree(d) && IsTree(u) && i <= |steps| && forall p <- paths :: Agree(d, u, p)
    requires forall k, p | i <= k < |steps| && ToDo(steps[k]) && p in KeysOf(steps[k]) :: p in paths
    ensures var a, b := PhaseFrom(d, steps, Forward, i).result, PhaseFrom(u, steps, Forward, i).result;
            && (a.Done? <==> b.Done?)
            && (a.Done? && Files(d) == Files(u) ==> Files(a.disk) == Files(b.disk))
    decreases |steps| - i
  {
    hide *;
    if i == |steps| {
      PassEnds(d, steps);
      PassEnds(u, steps);
    } else if !ToDo(steps[i]) {
      PassSkips(d, steps, i);
      PassSkips(u, steps, i);
      PassAgrees(d, u, steps, i + 1, paths);
    } else {
      var a, b := ApplyStep(d, steps[i], false), ApplyStep(u, steps[i], false);
      IsForward(steps[i]);
      StepAgrees(d, u, steps[i], paths);
      PassGoesOn(d, steps, i);
      PassGoesOn(u, steps, i);
      if a.Done? { PassAgrees(a.disk, b.disk, steps[i := steps[i].(applied := true)], i + 1, paths); }
    }
  }

  lemma IsForward(step: Step)
    ensures ToDo(step) ==> !IsCleanup(step.action)
  {
  }

  lemma PassEnds(d: Disk, steps: seq<Step>)
    ensures PhaseFrom(d, steps, Forward, |steps|) == PhaseEnd(Done(d), steps)
  {
  }

  lemma PassSkips(d: Disk, steps: seq<Step>, i: nat)
    requires i < |steps| && !ToDo(steps[i])
    ensures PhaseFrom(d, steps, Forward, i) == PhaseFrom(d, steps, Forward, i + 1)
  {
    hide ApplyStep, OwnedQuarantine;
  }

  /** Who owns a quarantine matters to deletes only. */
  lemma OwnedNoMatter(d: Disk, step: Step)
    requires !IsCleanup(step.action)
    ensures ApplyStep(d, step, true) == ApplyStep(d, step, false)
  {
  }

  /** The steps that are left change nothing inside a path apart from theirs. */
  lemma {:induction false} PassLeaves(d: Disk, steps: seq<Step>, i: nat, t: Path, q: Path)
    requires IsTree(d) && i <= |steps| && Inside(t, q) && PhaseFrom(d, steps, Forward, i).result.Done?
    requires forall k, p | i <= k < |steps| && ToDo(steps[k]) && p in KeysOf(steps[k]) :: Apart(p, t)
    ensures Lookup(PhaseFrom(d, steps, Forward, i).result.disk, q) == Lookup(d, q)
    decreases |steps| - i
  {
    if i == |steps| {
    } else if !ToDo(steps[i]) {
      PassLeaves(d, steps, i + 1, t, q);
    } else {
      PassGoesOn(d, steps, i);
      OutcomeStaysTree(d, steps[i]);
      OutcomeMeans(d, steps[i]);
      OutcomeWithin(d, steps[i], t);
      var r := ApplyStep(d, steps[i], false).disk;
      hide ApplyStep, OutcomeOf, IsTree, OwnedQuarantine, PhaseFrom, KeysOf;
      InsideApart(d, OutcomeOf(d, steps[i]), r, t);
      PassLeaves(r, steps[i := steps[i].(applied := true)], i + 1, t, q);
    }
  }

  // ------------------------------------------------------------------------ what is committed

  /**
   * The metadata stands over the files as the steps that are left make them from
   * the disk that the undo has left: where none is left, over the files as they
   * were after the first `m` steps.
   */
  lemma CommitsOverUndone(start: Disk, steps: seq<Step>, left: iset<Path>, d: Disk, m: nat)
    requires Setting(start, steps, left) && IsTree(d) && Plus(Ran(start, steps, |steps|), left, d)
    requires m <= |steps| && UndoneDownTo(d, steps, |steps|, m).Done?
    requires PhaseFrom(UndoneDownTo(d, steps, |steps|, m).disk, steps, Forward, 0).result.Done?
    ensures var end := RunOf(Waiting(d, steps), CutAndRetried(steps, m));
            && end.committed && end.status == Running
            && end.disk == PhaseFrom(UndoneDownTo(d, steps, |steps|, m).disk, steps, Forward, 0).result.disk
            && (Through(steps) ==> Files(end.disk) == Files(Ran(start, steps, m)))
  {
    AtLast(start, steps, left, d);
    hide Setting, Plus, Ran, UndoneDownTo;
    Levels(start, steps, left, d, m);
    RetryCommits(d, steps, m);
    var u := UndoneDownTo(d, steps, |steps|, m).disk;
    PlusKeepsFiles(Ran(start, steps, m), MadeFrom(start, steps, m, left), u);
    if Through(steps) { NothingToDo(u, steps, 0); }
    hide *;
  }

  lemma {:induction false} NothingToDo(d: Disk, steps: seq<Step>, i: nat)
    requires Through(steps) && i <= |steps|
    ensures PhaseFrom(d, steps, Forward, i) == PhaseEnd(Done(d), steps)
    decreases |steps| - i
  {
    if i < |steps| { NothingToDo(d, steps, i + 1); }
  }

  /**
   * Where the steps undone disturb none of each other and are apart from those
   * that are left, the retry goes through whenever the attempt would have
   * without the undo -- and it leaves the files that attempt would have left,
   * exactly if none of the steps undone moves a file.
   */
  lemma RetryIsRightExactly(start: Disk, steps: seq<Step>, left: iset<Path>, d: Disk, m: nat)
    requires Setting(start, steps, left) && IsTree(d) && Plus(Ran(start, steps, |steps|), left, d)
    requires m <= |steps| && NothingDisturbs(steps, m) && ApartFrom(steps, m, PathsToDo(steps))
    requires PhaseFrom(d, steps, Forward, 0).result.Done?
    ensures var end := RunOf(Waiting(d, steps), CutAndRetried(steps, m));
            && end.committed && end.status == Running
            && (Files(end.disk) == Files(PhaseFrom(d, steps, Forward, 0).result.disk) <==> NoneMovesFile(steps, m))
  {
    AtLast(start, steps, left, d);
    hide Setting, Plus, Ran, UndoneDownTo, NothingDisturbs, ApartFrom, MovesFile, PhaseFrom, PathsToDo, IsTree;
    Levels(start, steps, left, d, m);
    var u := UndoneDownTo(d, steps, |steps|, m).disk;
    UndoneAgrees(d, steps, |steps|, m, PathsToDo(steps));
    ToDoPaths(steps);
    PassAgrees(d, u, steps, 0, PathsToDo(steps));
    CommitsOverUndone(start, steps, left, d, m);
    if NoneMovesFile(steps, m) {
      FilesUndone(start, steps, left, d, m, u);
    } else {
      var k, q := FileUndone(start, steps, left, d, m);
      FilePasses(d, u, steps, m, k, q);
    }
  }

  lemma ToDoPaths(steps: seq<Step>)
    ensures forall k, p | 0 <= k < |steps| && ToDo(steps[k]) && p in KeysOf(steps[k]) :: p in PathsToDo(steps)
  {
  }

  lemma FilesUndone(start: Disk, steps: seq<Step>, left: iset<Path>, d: Disk, m: nat, u: Disk)
    requires Setting(start, steps, left) && IsTree(d) && Plus(Ran(start, steps, |steps|), left, d)
    requires m <= |steps| && Level(start, steps, left, m, u) && NoneMovesFile(steps, m)
    ensures Files(u) == Files(d)
  {
    hide MovesFile, Plus, IsTree, AllChanged, NothingInTheWay;
    FilesStay(start, steps, m, |steps|);
    PlusKeepsFiles(Ran(start, steps, |steps|), left, d);
    PlusKeepsFiles(Ran(start, steps, m), MadeFrom(start, steps, m, left), u);
  }

  /** A file below an undone step's target is there after the one pass and not after the other. */
  lemma FilePasses(d: Disk, u: Disk, steps: seq<Step>, m: nat, k: nat, q: Path)
    requires IsTree(d) && IsTree(u) && ApartFrom(steps, m, PathsToDo(steps)) && m <= k < |steps| && ToUndo(steps[k])
    requires steps[k].targetKey.Some? && Inside(steps[k].targetKey.value, q) && IsFile(d, q) && q !in u
    requires PhaseFrom(d, steps, Forward, 0).result.Done? && PhaseFrom(u, steps, Forward, 0).result.Done?
    ensures Files(PhaseFrom(d, steps, Forward, 0).result.disk) != Files(PhaseFrom(u, steps, Forward, 0).result.disk)
  {
    var t := steps[k].targetKey.value;
    assert t in PathsOf(steps[k]);
    forall i, p | 0 <= i < |steps| && ToDo(steps[i]) && p in KeysOf(steps[i])
      ensures Apart(p, t)
    {
      assert p in PathsToDo(steps);
      assert Apart(t, p);
    }
    hide PhaseFrom, IsTree, ApartFrom, PathsToDo;
    PassLeaves(d, steps, 0, t, q);
    PassLeaves(u, steps, 0, t, q);
    var a := PhaseFrom(d, steps, Forward, 0).result.disk;
    var b := PhaseFrom(u, steps, Forward, 0).result.disk;
    assert q in Files(a) && q !in Files(b);
  }
}
