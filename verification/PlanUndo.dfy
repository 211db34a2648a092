/**
 * Which of the application's plans have an undo that can be cut off and run
 * again: those that only fill free places can, those that put something where
 * an earlier step made room cannot.
 */
module PlanUndo {
  import opened Common
  import opened Paths
  import opened Disk
  import opened Steps
  import opened Effects
  import opened Recovery
  import opened Rollback
  import opened Rerun
  import opened AbortRetry
  import opened ArtifactPublish
  import opened CrashRecovery

  // ------------------------------------------------------------------ filling free places

  /** Everything moved comes from apart from all the plan's targets, and no move starts inside another's source. */
  predicate FillsOnly(steps: seq<Step>) {
    forall e, l | 0 <= e < l < |steps| && ToUndo(steps[e]) && ToUndo(steps[l]) :: FromElsewhere(steps[e], steps[l])
  }

  predicate FromElsewhere(e: Step, l: Step) {
    && (e.action == Rename && e.sourceKey.Some? && l.targetKey.Some? ==> Apart(e.sourceKey.value, l.targetKey.value))
    && (l.action == Rename && l.sourceKey.Some? && e.targetKey.Some? ==> Apart(e.targetKey.value, l.sourceKey.value))
    && (e.action == Rename && l.action == Rename && e.sourceKey.Some? && l.sourceKey.Some? ==>
          Apart(e.sourceKey.value, l.sourceKey.value))
  }

  /**
   * Restoring a folder makes its folders, one in another, and moves files into
   * them: targets may nest, and undo may be run again wherever it was cut off.
   */
  lemma FillingMayRerun(start: Disk, steps: seq<Step>, left: iset<Path>, d: Disk)
    requires Setting(start, steps, left) && IsTree(d) && Plus(Ran(start, steps, |steps|), left, d)
    requires FillsOnly(steps)
    ensures RerunsTheSame(d, steps) && Files(Undone(d, steps, |steps|).disk) == Files(start)
  {
    forall e, l | 0 <= e < l < |steps| && ToUndo(steps[e]) && ToUndo(steps[l])
      ensures !Disturbs(steps[e], steps[l])
    {
      assert FromElsewhere(steps[e], steps[l]);
    }
    hide Setting, FillsOnly, Plus, IsTree, Disturbs, Undone, Files;
    RerunsExactly(start, steps, left, d);
    UndoFinishes(start, steps, left, d);
  }

  lemma UndoFinishes(start: Disk, steps: seq<Step>, left: iset<Path>, d: Disk)
    requires Setting(start, steps, left) && IsTree(d) && Plus(Ran(start, steps, |steps|), left, d)
    ensures Undone(d, steps, |steps|).Done? && Files(Undone(d, steps, |steps|).disk) == Files(start)
  {
    RollbackRestores(start, steps, left, d);
  }

  const RESTORE := [Step(Mkdir, None, Some(A), Some(Folder), None, None, Some(map[]), true), UNDER]

  /** The smallest such plan: a folder is made and a file moved into it. */
  lemma FillingMayNest()
    ensures FillsOnly(RESTORE) && !PathsApart(RESTORE)
  {
    assert A[0] != X[0] && AF[..1] == A && AF[0] != X[0];
    assert ToUndo(RESTORE[0]) && ToUndo(RESTORE[1]);
    assert A in PathsOf(RESTORE[0]) && AF in PathsOf(RESTORE[1]);
    assert !PairApart(RESTORE[0], RESTORE[1]);
  }

  // ------------------------------------------------------------------------ taking over

  /** A later step puts something where an earlier one took something away. */
  predicate TakesOver(steps: seq<Step>, e: nat, l: nat) {
    && e < l < |steps| && ToUndo(steps[e]) && ToUndo(steps[l])
    && steps[e].action == Rename && steps[e].sourceKey.Some? && steps[l].targetKey == steps[e].sourceKey
  }

  /** Undo of such a plan restores every file in one go, but there is a place where it must not be cut off. */
  lemma TakingOverCannotRerun(start: Disk, steps: seq<Step>, left: iset<Path>, d: Disk, e: nat, l: nat)
    requires Setting(start, steps, left) && IsTree(d) && Plus(Ran(start, steps, |steps|), left, d)
    requires TakesOver(steps, e, l) && NothingComesBack(steps)
    ensures Undone(d, steps, |steps|).Done? && Files(Undone(d, steps, |steps|).disk) == Files(start)
    ensures !RerunsTheSame(d, steps)
  {
    assert Disturbs(steps[e], steps[l]);
    assert !NothingDisturbs(steps, 0);
    AllStayAway(steps);
    hide Setting, Plus, IsTree, Disturbs, Undone, Files;
    RerunsExactly(start, steps, left, d);
    UndoFinishes(start, steps, left, d);
  }

  /** No step's path is above a later step's target, so no folder on the way is at or inside it. */
  predicate NoneAboveLater(steps: seq<Step>) {
    forall k, j, p | 0 <= k < j < |steps| && ToUndo(steps[k]) && ToUndo(steps[j]) && steps[j].targetKey.Some? &&
      p in PathsOf(steps[k]) :: !StrictlyInside(p, steps[j].targetKey.value)
  }

  lemma NoneAboveIsClear(start: Disk, steps: seq<Step>)
    requires NoneAboveLater(steps)
    ensures NothingInTheWay(start, steps, |steps|, iset{})
  {
    forall k, p, q | 0 <= k < |steps| && ToUndo(steps[k]) && p in PathsOf(steps[k]) &&
      q in MadeFrom(start, steps, k + 1, iset{})
      ensures !Inside(p, q)
    {
      MadeAbove(start, steps, k + 1, iset{}, q);
      var j :| k + 1 <= j < |steps| && ToUndo(steps[j]) && steps[j].targetKey.Some? &&
          Above(q, steps[j].targetKey.value);
      InsideThrough(p, q, steps[j].targetKey.value);
    }
  }

  // ------------------------------------------------------------- replacing a file's contents

  function Marked(step: Step): Step {
    step.(applied := true)
  }

  /** The replacing plan once its forward steps are through: the removal of the backup is still to come. */
  function ReplaceDone(mutationId: string, tmpKey: Path, storageKey: Path, bytes: Bytes,
    previous: Bytes): (steps: seq<Step>)
    requires storageKey != []
    ensures |steps| == 4
  {
    var plan := PublishSteps(mutationId, tmpKey, storageKey, bytes, Some(previous));
    [Marked(plan[0]), Marked(plan[1]), Marked(plan[2]), plan[3]]
  }

  /** Marks do not matter to what a step does. */
  lemma MarkedTheSame(d: Disk, step: Step)
    requires step.action == Rename
    ensures ApplyStep(d, Marked(step), false) == ApplyStep(d, step, false) &&
            EffectOf(d, Marked(step)) == EffectOf(d, step)
  {
    var m := Marked(step);
    assert RenameIntent(m) <==> RenameIntent(step);
    assert step.sourceKey.Some? ==>
        (ValidNode(d, step.sourceKey.value, m) <==> ValidNode(d, step.sourceKey.value, step));
    assert step.targetKey.Some? ==>
        (ValidNode(d, step.targetKey.value, m) <==> ValidNode(d, step.targetKey.value, step));
    hide ValidNode, SafeAncestors, Renamed, WithFolders;
  }

  lemma FileChanges(d: Disk, step: Step, d': Disk)
    requires step.action == Rename && step.expectedNodeType == Some(File) && step.expectedChecksum.Some?
    requires step.sourceKey.Some? && step.targetKey.Some? && step.sourceKey.value != [] && step.targetKey.value != []
    requires ApplyStep(d, step, false) == Done(d') && step.sourceKey.value in d
    ensures Changes(d, Marked(step)) && ApplyStep(d, Marked(step), false) == Done(d')
  {
    MarkedTheSame(d, step);
    hide ApplyStep;
  }

  lemma ReplaceSetting(start: Disk, mutationId: string, tmpKey: Path, storageKey: Path, bytes: Bytes, previous: Bytes)
    returns (d1: Disk, d3: Disk)
    requires Ready(start, mutationId, tmpKey, storageKey, bytes, Some(previous))
    ensures var steps := ReplaceDone(mutationId, tmpKey, storageKey, bytes, previous);
            && Setting(start, steps, iset{}) && NothingComesBack(steps)
            && Ran(start, steps, 1) == d1 && Ran(start, steps, 4) == d3
            && storageKey in d1 && Incoming(mutationId, storageKey) in d1
            && PhaseFrom(start, PublishSteps(mutationId, tmpKey, storageKey, bytes, Some(previous)), Forward, 0)
               == PhaseEnd(Done(d3), steps)
  {
    var plan := PublishSteps(mutationId, tmpKey, storageKey, bytes, Some(previous));
    var steps := ReplaceDone(mutationId, tmpKey, storageKey, bytes, previous);
    var d2;
    d1, d2, d3 := ReplaceMoves(start, mutationId, tmpKey, storageKey, bytes, previous);
    ReplaceMarks(mutationId, tmpKey, storageKey, bytes, previous);
    ReplacePaths(tmpKey, Incoming(mutationId, storageKey), Backup(mutationId, storageKey), storageKey, steps);
    NoneAboveIsClear(start, steps);
    hide *;
    FileChanges(start, plan[0], d1);
    FileChanges(d1, plan[1], d2);
    FileChanges(d2, plan[2], d3);
    PublishRunsForward(start, plan, d1, d2, d3);
    SetUp(start, plan, steps, d1, d2, d3);
  }

  lemma SetUp(start: Disk, plan: seq<Step>, steps: seq<Step>, d1: Disk, d2: Disk, d3: Disk)
    requires |plan| == |steps| == 4 && IsTree(start) && steps[3] == plan[3] && IsCleanup(plan[3].action)
    requires forall i | 0 <= i < 3 :: steps[i] == Marked(plan[i]) && !IsCleanup(plan[i].action)
    requires ApplyStep(start, steps[0], false) == Done(d1) && ApplyStep(d1, steps[1], false) == Done(d2)
    requires ApplyStep(d2, steps[2], false) == Done(d3)
    requires Changes(start, steps[0]) && Changes(d1, steps[1]) && Changes(d2, steps[2])
    requires NothingInTheWay(start, steps, |steps|, iset{})
    requires var end := PhaseFrom(start, plan, Forward, 0);
             && end.result == Done(d3) && |end.steps| == 4 && end.steps[3] == plan[3]
             && forall i | 0 <= i < 3 :: end.steps[i] == plan[i].(applied := true)
    ensures Setting(start, steps, iset{}) && Ran(start, steps, 1) == d1 && Ran(start, steps, 4) == d3
    ensures PhaseFrom(start, plan, Forward, 0) == PhaseEnd(Done(d3), steps)
  {
    assert forall i | 0 <= i < 3 :: steps[i].applied && steps[i].action == plan[i].action;
    hide ApplyStep, PhaseFrom, Changes, NothingInTheWay, IsTree;
    ThreeRan(start, steps, d1, d2, d3);
    assert PhaseFrom(start, plan, Forward, 0).steps == steps;
  }

  /** What the plan and its marked form look like. */
  lemma ReplaceMarks(mutationId: string, tmpKey: Path, storageKey: Path, bytes: Bytes, previous: Bytes)
    requires storageKey != []
    ensures var plan := PublishSteps(mutationId, tmpKey, storageKey, bytes, Some(previous));
            var steps := ReplaceDone(mutationId, tmpKey, storageKey, bytes, previous);
            && |plan| == |steps| == 4 && Fresh(plan) && steps[3] == plan[3] && IsCleanup(plan[3].action)
            && (forall i | 0 <= i < 3 ::
                  && steps[i] == Marked(plan[i]) && plan[i].action == Rename && !IsCleanup(plan[i].action)
                  && plan[i].expectedNodeType == Some(File) && plan[i].expectedChecksum.Some?
                  && plan[i].sourceKey.Some? && plan[i].targetKey.Some?)
            && plan[0].sourceKey.value == tmpKey && plan[1].sourceKey.value == storageKey
            && plan[2].sourceKey.value == plan[0].targetKey.value == Incoming(mutationId, storageKey) != []
            && plan[2].targetKey.value == storageKey && plan[1].targetKey.value != []
            && ReplacesBy(steps, tmpKey, Incoming(mutationId, storageKey), Backup(mutationId, storageKey), storageKey)
  {
  }

  lemma ReplaceMoves(start: Disk, mutationId: string, tmpKey: Path, storageKey: Path, bytes: Bytes, previous: Bytes)
    returns (d1: Disk, d2: Disk, d3: Disk)
    requires Ready(start, mutationId, tmpKey, storageKey, bytes, Some(previous))
    ensures IsTree(start) && tmpKey in start && storageKey in d1 && Incoming(mutationId, storageKey) in d1
    ensures tmpKey != [] && storageKey != []
    ensures Incoming(mutationId, storageKey) in d2
    ensures var plan := PublishSteps(mutationId, tmpKey, storageKey, bytes, Some(previous));
            && ApplyStep(start, plan[0], false) == Done(d1) && ApplyStep(d1, plan[1], false) == Done(d2)
            && ApplyStep(d2, plan[2], false) == Done(d3)
    ensures var incoming, backup := Incoming(mutationId, storageKey), Backup(mutationId, storageKey);
            && Apart(tmpKey, storageKey) && Apart(incoming, tmpKey) && Apart(incoming, storageKey)
            && Apart(backup, tmpKey) && Apart(backup, storageKey) && Apart(incoming, backup)
  {
    var incoming, backup := Incoming(mutationId, storageKey), Backup(mutationId, storageKey);
    Stages(start, mutationId, tmpKey, storageKey, bytes, previous);
    d1 := ApplyStep(start, MoveFile(tmpKey, incoming, Some(|bytes|), bytes), false).disk;
    hide ApplyStep, SafeAncestors, Files;
    BacksUp(d1, incoming, backup, storageKey, bytes, previous);
    d2 := ApplyStep(d1, MoveFile(storageKey, backup, None, previous), false).disk;
    PutsInPlace(d2, incoming, backup, storageKey, bytes, previous);
    d3 := ApplyStep(d2, MoveFile(incoming, storageKey, Some(|bytes|), bytes), false).disk;
  }

  lemma ThreeRan(start: Disk, steps: seq<Step>, d1: Disk, d2: Disk, d3: Disk)
    requires |steps| == 4 && ToUndo(steps[0]) && ToUndo(steps[1]) && ToUndo(steps[2]) && !ToUndo(steps[3])
    requires ApplyStep(start, steps[0], false) == Done(d1) && ApplyStep(d1, steps[1], false) == Done(d2)
    requires ApplyStep(d2, steps[2], false) == Done(d3)
    requires Changes(start, steps[0]) && Changes(d1, steps[1]) && Changes(d2, steps[2])
    ensures Ran(start, steps, 1) == d1 && Ran(start, steps, 4) == d3 && AllChanged(start, steps)
  {
    hide ApplyStep, Changes;
    assert Ran(start, steps, 0) == start && Ran(start, steps, 1) == d1 && Ran(start, steps, 2) == d2;
    assert Ran(start, steps, 3) == d3 && Ran(start, steps, 4) == d3;
  }

  predicate ReplacesBy(steps: seq<Step>, tmpKey: Path, incoming: Path, backup: Path, storageKey: Path) {
    && |steps| == 4 && ToUndo(steps[0]) && ToUndo(steps[1]) && ToUndo(steps[2]) && !ToUndo(steps[3])
    && steps[0].action == steps[1].action == steps[2].action == Rename
    && steps[0].sourceKey == Some(tmpKey) && steps[0].targetKey == Some(incoming)
    && steps[1].sourceKey == Some(storageKey) && steps[1].targetKey == Some(backup)
    && steps[2].sourceKey == Some(incoming) && steps[2].targetKey == Some(storageKey)
  }

  lemma ReplacePaths(tmpKey: Path, incoming: Path, backup: Path, storageKey: Path, steps: seq<Step>)
    requires ReplacesBy(steps, tmpKey, incoming, backup, storageKey)
    requires Apart(tmpKey, storageKey) && Apart(incoming, tmpKey) && Apart(incoming, storageKey)
    requires Apart(backup, tmpKey) && Apart(backup, storageKey) && Apart(incoming, backup)
    ensures NoneAboveLater(steps) && NothingComesBack(steps) && TakesOver(steps, 1, 2)
  {
    forall e, l | 0 <= e < l < |steps| && ToUndo(steps[e]) && ToUndo(steps[l])
      ensures !ComesBack(steps[e], steps[l])
    {
      assert e == 0 ==> l == 1 || l == 2;
      assert e == 1 ==> l == 2;
    }
  }

  /**
   * Replacing a file: undone in one go every file is back; cut off after the
   * old contents are back, the second undo finds both the old and the new
   * contents, and stops for an operator.
   */
  lemma ReplaceCannotRerun(start: Disk, mutationId: string, tmpKey: Path, storageKey: Path, bytes: Bytes,
    previous: Bytes)
    requires Ready(start, mutationId, tmpKey, storageKey, bytes, Some(previous))
    ensures var plan := PublishSteps(mutationId, tmpKey, storageKey, bytes, Some(previous));
            var end := PhaseFrom(start, plan, Forward, 0);
            && end.result.Done? && |end.steps| == 4
            && var whole := Undone(end.result.disk, end.steps, 4);
               var cut := UndoneDownTo(end.result.disk, end.steps, 4, 1);
               && whole.Done? && Files(whole.disk) == Files(start)
               && cut.Done? && Undone(cut.disk, end.steps, 4).Ambiguous?
  {
    var steps := ReplaceDone(mutationId, tmpKey, storageKey, bytes, previous);
    var d1, d3 := ReplaceSetting(start, mutationId, tmpKey, storageKey, bytes, previous);
    RanIsTree(start, steps, 4);
    PlusNothing(d3);
    hide PhaseFrom, Setting, Ready, IsTree, Plus, Ran;
    UndoFinishes(start, steps, iset{}, d3);
    AtLast(start, steps, iset{}, d3);
    Levels(start, steps, iset{}, d3, 1);
    var u := UndoneDownTo(d3, steps, 4, 1).disk;
    LevelHas(start, steps, iset{}, 1, u, storageKey);
    LevelHas(start, steps, iset{}, 1, u, Incoming(mutationId, storageKey));
    BothThere(u, steps, Incoming(mutationId, storageKey), storageKey);
    hide *;
  }

  lemma PlusNothing(d: Disk)
    ensures Plus(d, iset{}, d)
  {
    forall q ensures PlusAt(d, iset{}, d, q) {}
  }

  lemma LevelHas(start: Disk, steps: seq<Step>, left: iset<Path>, n: nat, u: Disk, p: Path)
    requires n <= |steps| && Level(start, steps, left, n, u) && p in Ran(start, steps, n)
    ensures p in u
  {
    assert PlusAt(Ran(start, steps, n), MadeFrom(start, steps, n, left), u, p);
  }

  lemma BothThere(u: Disk, steps: seq<Step>, incoming: Path, storageKey: Path)
    requires |steps| == 4 && !ToUndo(steps[3]) && ToUndo(steps[2]) && steps[2].action == Rename
    requires steps[2].sourceKey == Some(incoming) && steps[2].targetKey == Some(storageKey)
    requires incoming in u && storageKey in u
    ensures Undone(u, steps, 4).Ambiguous?
  {
    assert UndoStep(u, steps[2]).Ambiguous?;
    hide UndoStep;
    NotMarked(u, steps[3]);
    assert Undone(u, steps, 4) == Undone(u, steps, 3);
  }

  /**
   * Cut off there, with the worker dying before the abort is recorded, the next
   * attempt finds every step marked and commits: the metadata names the new
   * contents, the file holds the old ones.
   */
  lemma ReplaceCommitsOld(start: Disk, mutationId: string, tmpKey: Path, storageKey: Path, bytes: Bytes,
    previous: Bytes)
    requires Ready(start, mutationId, tmpKey, storageKey, bytes, Some(previous))
    ensures var plan := PublishSteps(mutationId, tmpKey, storageKey, bytes, Some(previous));
            var pass := PhaseFrom(start, plan, Forward, 0);
            && pass.result.Done? && |pass.steps| == 4
            && var end := RunOf(Waiting(pass.result.disk, pass.steps), CutAndRetried(pass.steps, 1));
               && end.committed && end.status == Running
               && storageKey in Files(end.disk) && Files(end.disk)[storageKey] == previous
  {
    var steps := ReplaceDone(mutationId, tmpKey, storageKey, bytes, previous);
    var d1, d3 := ReplaceSetting(start, mutationId, tmpKey, storageKey, bytes, previous);
    OldInPlace(start, mutationId, tmpKey, storageKey, bytes, previous);
    RanIsTree(start, steps, 4);
    PlusNothing(d3);
    ReplaceIsThrough(mutationId, tmpKey, storageKey, bytes, previous);
    hide PhaseFrom, Setting, Ready, IsTree, Plus, Ran, ApplyStep, Files;
    AtLast(start, steps, iset{}, d3);
    Levels(start, steps, iset{}, d3, 1);
    NothingToDo(UndoneDownTo(d3, steps, 4, 1).disk, steps, 0);
    CommitsOverUndone(start, steps, iset{}, d3, 1);
  }

  lemma ReplaceIsThrough(mutationId: string, tmpKey: Path, storageKey: Path, bytes: Bytes, previous: Bytes)
    requires storageKey != []
    ensures Through(ReplaceDone(mutationId, tmpKey, storageKey, bytes, previous))
  {
  }

  /** After the first step the old contents are still in place. */
  lemma OldInPlace(start: Disk, mutationId: string, tmpKey: Path, storageKey: Path, bytes: Bytes, previous: Bytes)
    requires Ready(start, mutationId, tmpKey, storageKey, bytes, Some(previous))
    ensures var steps := ReplaceDone(mutationId, tmpKey, storageKey, bytes, previous);
            storageKey in Files(Ran(start, steps, 1)) && Files(Ran(start, steps, 1))[storageKey] == previous
  {
    var steps := ReplaceDone(mutationId, tmpKey, storageKey, bytes, previous);
    var stage := MoveFile(tmpKey, Incoming(mutationId, storageKey), Some(|bytes|), bytes);
    Stages(start, mutationId, tmpKey, storageKey, bytes, previous);
    MarkedTheSame(start, stage);
    assert steps[0] == Marked(stage) && ToUndo(steps[0]);
    hide ApplyStep, IsTree, SafeAncestors, Ran, Marked, ToUndo;
    OneRan(start, steps);
  }

  lemma OneRan(start: Disk, steps: seq<Step>)
    requires steps != [] && ToUndo(steps[0])
    ensures Ran(start, steps, 1) == ApplyStep(start, steps[0], false).disk
  {
    hide ApplyStep;
    assert Ran(start, steps, 0) == start;
  }

  // ------------------------------------------------------------- keeping one of two versions

  /** The old version goes to the trash and the copy takes its place. */
  function KeepSteps(original: Path, trash: Path, copy: Path, theirs: Bytes, mine: Bytes): seq<Step> {
    [Marked(MoveFile(original, trash, Some(|theirs|), theirs)), Marked(MoveFile(copy, original, Some(|mine|), mine))]
  }

  lemma KeepingCannotRerun(start: Disk, original: Path, trash: Path, copy: Path, theirs: Bytes, mine: Bytes)
    requires IsTree(start)
    requires Lookup(start, original) == Some(FileNode(theirs)) && Lookup(start, copy) == Some(FileNode(mine))
    requires trash !in start && SafeAncestors(start, trash)
    requires Apart(original, trash) && Apart(original, copy) && Apart(trash, copy)
    ensures var steps := KeepSteps(original, trash, copy, theirs, mine);
            var d := Ran(start, steps, 2);
            && Undone(d, steps, 2).Done? && Files(Undone(d, steps, 2).disk) == Files(start)
            && !RerunsTheSame(d, steps)
            && var cut := UndoneDownTo(d, steps, 2, 0);
               cut.Done? && Undone(cut.disk, steps, 2).Ambiguous?
  {
    var steps := KeepSteps(original, trash, copy, theirs, mine);
    var away, into := MoveFile(original, trash, Some(|theirs|), theirs), MoveFile(copy, original, Some(|mine|), mine);
    var d1, d2 := KeepMoves(start, original, trash, copy, theirs, mine);
    assert original != [] && trash != [] && copy != [];
    FileChanges(start, away, d1);
    FileChanges(d1, into, d2);
    KeepPaths(original, trash, copy, steps);
    NoneAboveIsClear(start, steps);
    assert steps[0] == Marked(away) && steps[1] == Marked(into) && ToUndo(steps[0]) && ToUndo(steps[1]);
    assert original in start && copy in start && steps[1].action == Rename;
    hide *;
    KeepSetting(start, steps, d1, d2);
    TakingOverCannotRerun(start, steps, iset{}, d2, 0, 1);
    KeepingStops(start, original, copy, steps, d2);
  }

  /** Both versions are back where they were: the second undo finds both ends of the newer move taken. */
  lemma KeepingStops(start: Disk, original: Path, copy: Path, steps: seq<Step>, d: Disk)
    requires |steps| == 2 && ToUndo(steps[1]) && steps[1].action == Rename
    requires steps[1].sourceKey == Some(copy) && steps[1].targetKey == Some(original)
    requires Setting(start, steps, iset{}) && IsTree(d) && Plus(Ran(start, steps, |steps|), iset{}, d)
    requires original in start && copy in start
    ensures var cut := UndoneDownTo(d, steps, 2, 0); cut.Done? && Undone(cut.disk, steps, 2).Ambiguous?
  {
    assert Ran(start, steps, 0) == start;
    hide Setting, IsTree, Plus, Ran, UndoneDownTo;
    AtLast(start, steps, iset{}, d);
    Levels(start, steps, iset{}, d, 0);
    var u := UndoneDownTo(d, steps, 2, 0).disk;
    LevelHas(start, steps, iset{}, 0, u, original);
    LevelHas(start, steps, iset{}, 0, u, copy);
    hide Level;
    assert UndoStep(u, steps[1]).Ambiguous?;
  }

  lemma KeepPaths(original: Path, trash: Path, copy: Path, steps: seq<Step>)
    requires |steps| == 2 && ToUndo(steps[0]) && ToUndo(steps[1]) && steps[0].action == steps[1].action == Rename
    requires steps[0].sourceKey == Some(original) == steps[1].targetKey
    requires steps[0].targetKey == Some(trash) && steps[1].sourceKey == Some(copy)
    requires Apart(original, trash) && Apart(original, copy) && Apart(trash, copy)
    ensures NoneAboveLater(steps) && NothingComesBack(steps) && TakesOver(steps, 0, 1)
  {
  }

  lemma KeepSetting(start: Disk, steps: seq<Step>, d1: Disk, d2: Disk)
    requires |steps| == 2 && ToUndo(steps[0]) && ToUndo(steps[1]) && IsTree(start) && IsTree(d2)
    requires ApplyStep(start, steps[0], false) == Done(d1) && ApplyStep(d1, steps[1], false) == Done(d2)
    requires Changes(start, steps[0]) && Changes(d1, steps[1]) && NothingInTheWay(start, steps, |steps|, iset{})
    ensures Setting(start, steps, iset{}) && Ran(start, steps, 2) == d2 && Plus(Ran(start, steps, |steps|), iset{}, d2)
  {
    hide ApplyStep, Changes, NothingInTheWay, IsTree, Plus;
    assert Ran(start, steps, 0) == start && Ran(start, steps, 1) == d1 && Ran(start, steps, 2) == d2;
    PlusNothing(d2);
  }

  lemma KeepMoves(start: Disk, original: Path, trash: Path, copy: Path, theirs: Bytes, mine: Bytes)
    returns (d1: Disk, d2: Disk)
    requires IsTree(start)
    requires Lookup(start, original) == Some(FileNode(theirs)) && Lookup(start, copy) == Some(FileNode(mine))
    requires trash !in start && SafeAncestors(start, trash)
    requires Apart(original, trash) && Apart(original, copy) && Apart(trash, copy)
    ensures ApplyStep(start, MoveFile(original, trash, Some(|theirs|), theirs), false) == Done(d1)
    ensures ApplyStep(d1, MoveFile(copy, original, Some(|mine|), mine), false) == Done(d2)
    ensures copy in d1 && IsTree(d2)
  {
    var away, into := MoveFile(original, trash, Some(|theirs|), theirs), MoveFile(copy, original, Some(|mine|), mine);
    FileMoves(start, away, theirs);
    TreeIsSafe(start, original);
    MovesPast(start, away, theirs, original);
    MovesPast(start, away, theirs, copy);
    d1 := ApplyStep(start, away, false).disk;
    hide ApplyStep, SafeAncestors, Files, IsTree;
    FileMoves(d1, into, mine);
    d2 := ApplyStep(d1, into, false).disk;
  }
}
