/**
 * One mutation through any sequence of attempts: filesystem calls, journal
 * marks, crashes, retries, undo and the metadata commit, in whatever order the
 * code allows them.
 */
module Recovery {
  import opened Common
  import opened Paths
  import opened Disk
  import opened Steps
  import opened Effects
  import opened Conservation
  import opened Interrupted

  datatype Status = Running | Finalizing | Succeeded | Recovering | Aborted

  /** `did`: the worker has carried out the next step and not yet journalled it. */
  datatype Run = Run(disk: Disk, steps: seq<Step>, committed: bool, status: Status, did: bool)

  datatype Event =
    | Work                             // the next step's filesystem calls
    | CutOff(cut: Cut, left: Disk)     // the process dies between them
    | Mark                             // the step is journalled as applied
    | Crash                            // the process dies, or loses its lease to another
    | Commit | Finalize | Complete
    | Undo(index: nat) | CutUndo(index: nat, made: nat) | Abort

  function Begin(start: Disk, plan: seq<Step>): Run {
    Run(start, plan, false, Running, false)
  }

  predicate Working(r: Run) {
    (r.status == Running && !r.committed) || r.status == Finalizing
  }

  function PhaseOf(r: Run): Phase {
    if r.status == Finalizing then Cleanup else Forward
  }

  /** The first step from `i` on that an attempt at this phase would apply. */
  function NextFrom(steps: seq<Step>, phase: Phase, i: nat): (n: nat)
    requires i <= |steps|
    ensures i <= n <= |steps|
    ensures n < |steps| ==> !steps[n].applied && InPhase(steps[n], phase)
    ensures forall j :: i <= j < n ==> steps[j].applied || !InPhase(steps[j], phase)
    decreases |steps| - i
  {
    if i == |steps| || (!steps[i].applied && InPhase(steps[i], phase)) then i else NextFrom(steps, phase, i + 1)
  }

  function Next(r: Run): nat {
    NextFrom(r.steps, PhaseOf(r), 0)
  }

  /** What an event does; one that is not possible changes nothing. */
  ghost function Moved(r: Run, e: Event): Run {
    match e
    case Work =>
      if !Working(r) || r.did || Next(r) == |r.steps| then r
      else
        var step := r.steps[Next(r)];
        var out := ApplyStep(r.disk, step, OwnedQuarantine(r.steps, step));
        (match out
         case Done(d) => r.(disk := d, did := true)
         case Refused(d) => r.(disk := d)
         case Ambiguous(d) => r.(status := Recovering))
    case CutOff(cut, left) =>
      if !Working(r) || r.did || Next(r) == |r.steps| then r
      else if Leaves(r.disk, r.steps[Next(r)], OwnedQuarantine(r.steps, r.steps[Next(r)]), cut, left)
      then r.(disk := left) else r
    case Mark =>
      if !Working(r) || !r.did || Next(r) == |r.steps| then r
      else r.(steps := r.steps[Next(r) := r.steps[Next(r)].(applied := true)], did := false)
    case Crash => r.(did := false)
    case Commit =>
      if r.status == Running && !r.committed && !r.did && Next(r) == |r.steps| then r.(committed := true) else r
    case Finalize => if r.status == Running && r.committed then r.(status := Finalizing) else r
    case Complete =>
      if r.status == Finalizing && !r.did && Next(r) == |r.steps| then r.(status := Succeeded) else r
    case Undo(index) =>
      if r.status != Running || r.committed || index >= |r.steps| then r
      else
        var out := UndoStep(r.disk, r.steps[index]);
        r.(disk := out.disk, status := if out.Ambiguous? then Recovering else Running, did := false)
    case CutUndo(index, made) =>
      if r.status != Running || r.committed || index >= |r.steps| then r
      else if UndoLeaves(r.disk, r.steps[index], made)
      then r.(disk := WithFolders(r.disk, r.steps[index].sourceKey.value, made), did := false) else r
    case Abort => if r.status == Running && !r.committed then r.(status := Aborted, did := false) else r
  }

  /** An undo rename that stopped after making `made` of the folders it needs. */
  predicate UndoLeaves(d: Disk, step: Step, made: nat) {
    && step.applied && step.action == Rename && !ApplyRename(d, Swapped(step)).Ambiguous?
    && step.sourceKey.value !in d && made < |step.sourceKey.value|
  }

  ghost function RunOf(r: Run, events: seq<Event>): Run
    decreases events
  {
    if events == [] then r else RunOf(Moved(r, events[0]), events[1..])
  }

  /** What a dead worker had done and not marked is never marked unless it is done again. */
  lemma {:induction false} MarksFollowWork(r: Run, events: seq<Event>)
    requires forall e <- events :: !e.Work?
    requires !r.did
    ensures RunOf(r, events).steps == r.steps && !RunOf(r, events).did
    decreases events
  {
    if events != [] {
      assert Moved(r, events[0]).steps == r.steps && !Moved(r, events[0]).did by { hide ApplyStep, UndoStep, Leaves; }
      MarksFollowWork(Moved(r, events[0]), events[1..]);
    }
  }

  lemma CrashForgetsWork(r: Run, events: seq<Event>)
    requires forall e <- events :: !e.Work?
    ensures RunOf(Moved(r, Crash), events).steps == r.steps
  {
    MarksFollowWork(Moved(r, Crash), events);
  }

  // ------------------------------------------------------- no bytes lost before commit

  lemma FoldersStayTree(d: Disk, t: Path, n: nat)
    requires IsTree(d) && SafeAncestors(d, t) && n <= |t| && (n == |t| ==> t !in d)
    ensures IsTree(WithFolders(d, t, n))
  {
    var d' := WithFolders(d, t, n);
    WithFoldersAt(d, t, n, []);
    forall p | p in d'
      ensures HasFolder(d', p)
    {
      WithFoldersAt(d, t, n, p);
      if |p| > 1 {
        WithFoldersAt(d, t, n, Parent(p));
        if p in d { assert HasFolder(d, p); }
        else if Parent(p) in d { SafeAt(d, t, Parent(p)); }
      }
    }
  }

  /** However a forward step ends, the disk is a tree. */
  lemma ForwardStaysTree(d: Disk, step: Step, owned: bool)
    requires IsTree(d) && !IsCleanup(step.action)
    ensures IsTree(ApplyStep(d, step, owned).disk)
  {
    hide IsTree, WithFolders, Renamed;
    var r := ApplyStep(d, step, owned);
    if r.Done? {
      DoneMeans(d, step, owned);
      StaysTree(d, EffectOf(d, step), r.disk);
    } else if r.Refused? {
      FoldersStayTree(d, step.targetKey.value, |step.targetKey.value| - 1);
    }
  }

  lemma CutStaysTree(d: Disk, step: Step, owned: bool, cut: Cut, d': Disk)
    requires IsTree(d) && !IsCleanup(step.action) && Leaves(d, step, owned, cut, d')
    ensures IsTree(d') && Files(d') == Files(d)
  {
    FoldersStayTree(d, step.targetKey.value, cut.made);
    FoldersKeepFiles(d, step.targetKey.value, cut.made);
  }

  lemma UndoStaysTree(d: Disk, step: Step)
    requires IsTree(d)
    ensures IsTree(UndoStep(d, step).disk)
  {
    if step.applied && step.action == Rename {
      ForwardStaysTree(d, Swapped(step), false);
    } else if step.applied && step.action == Mkdir && UndoStep(d, step).disk != d {
      RemovedStaysTree(d, step.targetKey.value);
    }
  }

  lemma RemovedStaysTree(d: Disk, at: Path)
    requires IsTree(d) && at != []
    ensures IsTree(Without(d, at))
  {
    forall p | p in Without(d, at)
      ensures HasFolder(Without(d, at), p)
    {
      assert HasFolder(d, p);
      if |p| > 1 { InsideThrough(at, Parent(p), p); }
    }
  }

  ghost predicate Whole(start: Disk, r: Run) {
    && IsTree(r.disk)
    && (r.status == Running || !r.committed ==> Bag(Files(r.disk)) == Bag(Files(start)))
    && (r.status == Finalizing || r.status == Succeeded ==> r.committed)
    && (r.status == Aborted ==> !r.committed)
  }

  lemma {:induction false} PrunedStaysTree(d: Disk, at: Path, n: nat)
    requires IsTree(d)
    ensures IsTree(PrunedSome(d, at, n))
    decreases n
  {
    if n != 0 && |at| >= 3 {
      if at !in d { PrunedStaysTree(d, Parent(at), n - 1); }
      else if IsEmpty(d, at) { RemovedStaysTree(d, at); PrunedStaysTree(Without(d, at), Parent(at), n - 1); }
    }
  }

  lemma DeleteStaysTree(d: Disk, step: Step, owned: bool)
    requires IsTree(d) && IsCleanup(step.action)
    ensures IsTree(ApplyStep(d, step, owned).disk)
  {
    if ApplyStep(d, step, owned).Done? {
      DeleteMeans(d, step, owned);
      var at := KeyOf(step).value;
      RemovedStaysTree(d, at);
      PrunedWhole(Without(d, at), Parent(at), |at|);
      PrunedStaysTree(Without(d, at), Parent(at), |at|);
    }
  }

  lemma DeleteCutStaysTree(d: Disk, step: Step, owned: bool, cut: Cut, d': Disk)
    requires IsTree(d) && IsCleanup(step.action) && Leaves(d, step, owned, cut, d')
    ensures IsTree(d')
  {
    if cut.Levels? {
      var at := KeyOf(step).value;
      RemovedStaysTree(d, at);
      PrunedStaysTree(Without(d, at), Parent(at), cut.up);
    }
  }

  lemma WorkKeepsWhole(start: Disk, r: Run)
    requires Whole(start, r)
    ensures Whole(start, Moved(r, Work))
  {
    if Working(r) && !r.did && Next(r) != |r.steps| {
      var step := r.steps[Next(r)];
      var owned := OwnedQuarantine(r.steps, step);
      if r.status == Finalizing { DeleteStaysTree(r.disk, step, owned); } else {
        ForwardStaysTree(r.disk, step, owned);
        ForwardKeepsBytes(r.disk, step, owned);
      }
      hide ApplyStep, IsTree, Bag;
    }
  }

  lemma CutKeepsWhole(start: Disk, r: Run, cut: Cut, left: Disk)
    requires Whole(start, r)
    ensures Whole(start, Moved(r, CutOff(cut, left)))
  {
    if Moved(r, CutOff(cut, left)) != r {
      var step := r.steps[Next(r)];
      var owned := OwnedQuarantine(r.steps, step);
      if r.status == Finalizing { DeleteCutStaysTree(r.disk, step, owned, cut, left); } else {
        CutStaysTree(r.disk, step, owned, cut, left);
      }
    }
  }

  lemma UndoKeepsWhole(start: Disk, r: Run, index: nat)
    requires Whole(start, r)
    ensures Whole(start, Moved(r, Undo(index)))
  {
    if index < |r.steps| {
      UndoStaysTree(r.disk, r.steps[index]);
      UndoKeepsBytes(r.disk, r.steps[index]);
    }
  }

  lemma CutUndoKeepsWhole(start: Disk, r: Run, index: nat, made: nat)
    requires Whole(start, r)
    ensures Whole(start, Moved(r, CutUndo(index, made)))
  {
    if Moved(r, CutUndo(index, made)) != r {
      var t := r.steps[index].sourceKey.value;
      FoldersStayTree(r.disk, t, made);
      FoldersKeepFiles(r.disk, t, made);
    }
  }

  lemma KeepsWhole(start: Disk, r: Run, e: Event)
    requires Whole(start, r)
    ensures Whole(start, Moved(r, e))
  {
    match e
    case Work => WorkKeepsWhole(start, r);
    case CutOff(cut, left) => CutKeepsWhole(start, r, cut, left);
    case Undo(index) => UndoKeepsWhole(start, r, index);
    case CutUndo(index, made) => CutUndoKeepsWhole(start, r, index, made);
    case _ =>
  }

  lemma {:induction false} RunsKeepWhole(start: Disk, r: Run, events: seq<Event>)
    requires Whole(start, r)
    ensures Whole(start, RunOf(r, events))
    decreases events
  {
    if events != [] {
      KeepsWhole(start, r, events[0]);
      RunsKeepWhole(start, Moved(r, events[0]), events[1..]);
    }
  }

  /**
   * Over any run at all -- crashes, retries, cut-off calls, undo, whatever the
   * plan says -- every file's contents stay on the disk until finalization has
   * begun, and that is only after the metadata has committed.
   */
  lemma NothingLostBeforeCommit(start: Disk, plan: seq<Step>, events: seq<Event>)
    requires IsTree(start)
    ensures var r := RunOf(Begin(start, plan), events);
            && (r.status == Running || !r.committed ==> Bag(Files(r.disk)) == Bag(Files(start)))
            && (r.status == Finalizing || r.status == Succeeded ==> r.committed)
            && (r.status == Aborted ==> !r.committed)
  {
    RunsKeepWhole(start, Begin(start, plan), events);
  }

  // ----------------------------------------------------------------- one attempt is one pass

  /** What one call of the executor for the next step does to the run. */
  lemma WorkDoes(r: Run)
    requires Working(r) && !r.did && Next(r) < |r.steps|
    ensures var out := ApplyStep(r.disk, r.steps[Next(r)], OwnedQuarantine(r.steps, r.steps[Next(r)]));
            Moved(r, Work) == r.(disk := out.disk, did := out.Done?,
                                 status := if out.Ambiguous? then Recovering else r.status)
  {
    hide IsTree, NextFrom;
    OnlyDoneMoves(r.disk, r.steps[Next(r)], OwnedQuarantine(r.steps, r.steps[Next(r)]));
    hide ApplyStep;
  }

  /** A step that stops for an operator has not touched the disk. */
  lemma OnlyDoneMoves(d: Disk, step: Step, owned: bool)
    ensures ApplyStep(d, step, owned).Ambiguous? ==> ApplyStep(d, step, owned) == Ambiguous(d)
  {
    hide ValidNode, WithFolders, Renamed, SafeAncestors, Pruned, Without;
  }

  /** These events end as the loop over the steps from `i` on does. */
  ghost predicate EndsAsPass(r: Run, i: nat, events: seq<Event>)
    requires i <= |r.steps|
  {
    var e, end := PhaseFrom(r.disk, r.steps, PhaseOf(r), i), RunOf(r, events);
    && end.disk == e.result.disk && end.steps == e.steps && !end.did && end.committed == r.committed
    && end.status == (if e.result.Ambiguous? then Recovering else r.status)
    && (e.result.Done? ==> Next(end) == |end.steps|)
  }

  ghost predicate UpTo(r: Run, i: nat)
    requires i <= |r.steps|
  {
    Working(r) && !r.did && forall j | 0 <= j < i :: r.steps[j].applied || !InPhase(r.steps[j], PhaseOf(r))
  }

  /**
   * An attempt that nothing disturbs is the executor's loop: the same disk and
   * marks as one pass over the phase, stopped where and as that one stops.
   */
  lemma {:induction false} AttemptIsPass(r: Run, i: nat) returns (events: seq<Event>)
    requires i <= |r.steps| && UpTo(r, i)
    ensures EndsAsPass(r, i, events)
    decreases |r.steps| - i
  {
    if i == |r.steps| {
      events := [];
      NextSkips(r.steps, PhaseOf(r), 0, i);
    } else if r.steps[i].applied || !InPhase(r.steps[i], PhaseOf(r)) {
      events := AttemptIsPass(r, i + 1);
    } else {
      var worked := StepWorks(r, i);
      if worked.did {
        var rest := AttemptIsPass(Moved(worked, Mark), i + 1);
        events := [Work, Mark] + rest;
        StepThenRest(r, i, rest);
      } else {
        events := [Work];
        StepStops(r, i);
      }
      hide EndsAsPass, UpTo, Moved;
    }
  }

  /** The next step is carried out, and if that goes well marked. */
  lemma StepWorks(r: Run, i: nat) returns (worked: Run)
    requires i < |r.steps| && UpTo(r, i) && !r.steps[i].applied && InPhase(r.steps[i], PhaseOf(r))
    ensures Next(r) == i && worked == Moved(r, Work)
    ensures worked.did ==>
              var marked := Moved(worked, Mark);
              && marked == worked.(steps := r.steps[i := r.steps[i].(applied := true)], did := false)
              && worked.status == r.status && worked.committed == r.committed && UpTo(marked, i + 1)
  {
    NextSkips(r.steps, PhaseOf(r), 0, i);
    WorkDoes(r);
    worked := Moved(r, Work);
    if worked.did { MarkDoes(worked, i); }
    hide ApplyStep, OwnedQuarantine, NextFrom;
  }

  lemma StepThenRest(r: Run, i: nat, rest: seq<Event>)
    requires i < |r.steps| && UpTo(r, i) && !r.steps[i].applied && InPhase(r.steps[i], PhaseOf(r))
    requires Moved(r, Work).did
    requires |Moved(Moved(r, Work), Mark).steps| == |r.steps| && EndsAsPass(Moved(Moved(r, Work), Mark), i + 1, rest)
    ensures EndsAsPass(r, i, [Work, Mark] + rest)
  {
    var worked := StepWorks(r, i);
    WorkDoes(r);
    PassGoesOn(r, i);
    TwoThenRest(r, Work, Mark, rest);
    hide ApplyStep, OwnedQuarantine, NextFrom, Moved, RunOf, PhaseFrom, InPhase, UpTo;
  }

  lemma StepStops(r: Run, i: nat)
    requires i < |r.steps| && UpTo(r, i) && !r.steps[i].applied && InPhase(r.steps[i], PhaseOf(r))
    requires !Moved(r, Work).did
    ensures EndsAsPass(r, i, [Work])
  {
    var worked := StepWorks(r, i);
    WorkDoes(r);
    PassGoesOn(r, i);
    TwoThenRest(r, Work, Crash, []);
    hide ApplyStep, OwnedQuarantine, NextFrom, Moved, RunOf, PhaseFrom, InPhase, UpTo;
  }

  lemma PassGoesOn(r: Run, i: nat)
    requires i < |r.steps| && !r.steps[i].applied && InPhase(r.steps[i], PhaseOf(r))
    ensures var out := ApplyStep(r.disk, r.steps[i], OwnedQuarantine(r.steps, r.steps[i]));
            PhaseFrom(r.disk, r.steps, PhaseOf(r), i) ==
            if out.Done? then PhaseFrom(out.disk, r.steps[i := r.steps[i].(applied := true)], PhaseOf(r), i + 1)
            else PhaseEnd(out, r.steps)
  {
    hide ApplyStep, OwnedQuarantine;
  }

  lemma MarkDoes(r: Run, i: nat)
    requires Working(r) && r.did && i < |r.steps| && Next(r) == i
    ensures Moved(r, Mark) == r.(steps := r.steps[i := r.steps[i].(applied := true)], did := false)
  {
  }

  lemma TwoThenRest(r: Run, a: Event, b: Event, rest: seq<Event>)
    ensures RunOf(r, [a, b] + rest) == RunOf(Moved(Moved(r, a), b), rest)
    ensures RunOf(r, [a]) == Moved(r, a)
  {
    assert ([a, b] + rest)[1..] == [b] + rest && ([b] + rest)[1..] == rest;
    assert [a][1..] == [];
    hide Moved;
  }

  lemma {:induction false} NextSkips(steps: seq<Step>, phase: Phase, from: nat, i: nat)
    requires from <= i <= |steps|
    requires forall j | from <= j < i :: steps[j].applied || !InPhase(steps[j], phase)
    ensures NextFrom(steps, phase, from) == NextFrom(steps, phase, i)
    decreases i - from
  {
    if from < i { NextSkips(steps, phase, from + 1, i); }
  }

  /** Once a step or an undo has stopped for an operator, the run stays as it is. */
  lemma StopsForGood(r: Run, index: nat, events: seq<Event>)
    requires r.status == Running && !r.committed && index < |r.steps|
    requires UndoStep(r.disk, r.steps[index]).Ambiguous?
    ensures var end := RunOf(Moved(r, Undo(index)), events);
            end.status == Recovering && end.disk == UndoStep(r.disk, r.steps[index]).disk && end.steps == r.steps
  {
    hide UndoStep;
    RecoveringStays(Moved(r, Undo(index)), events);
  }

  lemma {:induction false} RecoveringStays(r: Run, events: seq<Event>)
    requires r.status == Recovering
    ensures RunOf(r, events).(did := false) == r.(did := false)
    decreases events
  {
    if events != [] {
      assert Moved(r, events[0]).(did := false) == r.(did := false) by { hide ApplyStep, UndoStep, Leaves, NextFrom; }
      RecoveringStays(Moved(r, events[0]), events[1..]);
    }
  }
}
