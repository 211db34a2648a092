/**
 * A mutation whose clean run succeeds ends, over any crashes and retries, as
 * that clean run ends -- or stops for an operator at a half-deleted tree that
 * is not its own quarantine.
 */
module CrashRecovery {
  import opened Common
  import opened Paths
  import opened Disk
  import opened Steps
  import opened Interrupted
  import opened Recovery

  predicate Fresh(plan: seq<Step>) {
    forall i :: 0 <= i < |plan| ==> !plan[i].applied
  }

  /** The journal once the steps of `phase` before `i` are marked (and, in cleanup, every forward step). */
  function Marks(plan: seq<Step>, phase: Phase, i: nat): (steps: seq<Step>) {
    seq(|plan|, j requires 0 <= j < |plan| =>
      if IsMarked(plan[j], phase, j < i) then plan[j].(applied := true) else plan[j])
  }

  predicate IsMarked(step: Step, phase: Phase, before: bool) {
    if InPhase(step, phase) then before else phase == Cleanup
  }

  function Owned(plan: seq<Step>, phase: Phase, i: nat): bool
    requires i < |plan|
  {
    OwnedQuarantine(Marks(plan, phase, i), plan[i])
  }

  /** The disk after the steps of `phase` before `i`, each applied once (cleanup follows the whole forward phase). */
  function CleanDisk(start: Disk, plan: seq<Step>, phase: Phase, i: nat): Disk
    requires i <= |plan|
    decreases phase.Cleanup?, i
  {
    if i == 0 then (if phase == Forward then start else CleanDisk(start, plan, Forward, |plan|))
    else
      var d := CleanDisk(start, plan, phase, i - 1);
      if InPhase(plan[i - 1], phase) then ApplyStep(d, plan[i - 1], Owned(plan, phase, i - 1)).disk else d
  }

  /** One uninterrupted forward pass, then one uninterrupted cleanup pass. */
  function CleanPass(start: Disk, plan: seq<Step>): PhaseEnd {
    var forward := PhaseFrom(start, plan, Forward, 0);
    if forward.result.Done? then PhaseFrom(forward.result.disk, forward.steps, Cleanup, 0) else forward
  }

  /** What the executor's loop returns from here is what it returns from step `i`. */
  lemma {:induction false} PassReaches(start: Disk, plan: seq<Step>, phase: Phase, i: nat)
    requires Fresh(plan) && i <= |plan|
    requires PhaseFrom(CleanDisk(start, plan, phase, 0), Marks(plan, phase, 0), phase, 0).result.Done?
    ensures PhaseFrom(CleanDisk(start, plan, phase, i), Marks(plan, phase, i), phase, i)
            == PhaseFrom(CleanDisk(start, plan, phase, 0), Marks(plan, phase, 0), phase, 0)
    decreases i
  {
    if i != 0 {
      PassReaches(start, plan, phase, i - 1);
      MarkOne(plan, phase, i - 1);
    }
  }

  lemma MarkOne(plan: seq<Step>, phase: Phase, i: nat)
    requires Fresh(plan) && i < |plan|
    ensures Marks(plan, phase, i)[i] == if InPhase(plan[i], phase) then plan[i]
                                        else plan[i].(applied := phase == Cleanup)
    ensures Marks(plan, phase, i + 1) ==
            if InPhase(plan[i], phase) then Marks(plan, phase, i)[i := plan[i].(applied := true)]
            else Marks(plan, phase, i)
  {
    var a, b := Marks(plan, phase, i + 1), Marks(plan, phase, i);
    forall j | 0 <= j < |plan| && j != i
      ensures a[j] == b[j]
    {
    }
  }

  lemma MarksMeet(plan: seq<Step>)
    requires Fresh(plan)
    ensures Marks(plan, Forward, 0) == plan
    ensures Marks(plan, Cleanup, 0) == Marks(plan, Forward, |plan|)
  {
  }

  /** A clean pass that succeeds goes through `CleanDisk`, and each step of it succeeds. */
  lemma PassIsClean(start: Disk, plan: seq<Step>)
    requires Fresh(plan) && CleanPass(start, plan).result.Done?
    ensures CleanPass(start, plan).result == Done(CleanDisk(start, plan, Cleanup, |plan|))
    ensures CleanPass(start, plan).steps == Marks(plan, Cleanup, |plan|)
    ensures forall phase, i | 0 <= i < |plan| && InPhase(plan[i], phase) ::
              ApplyStep(CleanDisk(start, plan, phase, i), plan[i], Owned(plan, phase, i)).Done?
  {
    MarksMeet(plan);
    PassReaches(start, plan, Forward, |plan|);
    PassReaches(start, plan, Cleanup, |plan|);
    forall phase, i | 0 <= i < |plan| && InPhase(plan[i], phase)
      ensures ApplyStep(CleanDisk(start, plan, phase, i), plan[i], Owned(plan, phase, i)).Done?
    {
      PassReaches(start, plan, phase, i);
      MarkOne(plan, phase, i);
    }
  }

  lemma {:induction false} CleanIsTree(start: Disk, plan: seq<Step>, phase: Phase, i: nat)
    requires IsTree(start) && i <= |plan|
    ensures IsTree(CleanDisk(start, plan, phase, i))
    decreases phase.Cleanup?, i
  {
    if i == 0 {
      if phase == Cleanup { CleanIsTree(start, plan, Forward, |plan|); }
    } else {
      CleanIsTree(start, plan, phase, i - 1);
      var d, owned := CleanDisk(start, plan, phase, i - 1), Owned(plan, phase, i - 1);
      if IsCleanup(plan[i - 1].action) { DeleteStaysTree(d, plan[i - 1], owned); }
      else { ForwardStaysTree(d, plan[i - 1], owned); }
    }
  }

  /** The step an attempt takes up is the next of its phase; those it passes by change nothing. */
  lemma {:induction false} NextOfMarks(start: Disk, plan: seq<Step>, phase: Phase, i: nat, n: nat)
    requires Fresh(plan) && i <= n <= |plan|
    requires forall j :: i <= j < n ==> !InPhase(plan[j], phase)
    ensures Marks(plan, phase, n) == Marks(plan, phase, i)
    ensures CleanDisk(start, plan, phase, n) == CleanDisk(start, plan, phase, i)
    decreases n
  {
    if i < n {
      NextOfMarks(start, plan, phase, i, n - 1);
      MarkOne(plan, phase, n - 1);
    }
  }

  lemma FirstUnmarked(plan: seq<Step>, phase: Phase, i: nat)
    requires Fresh(plan) && i <= |plan|
    ensures var n := NextFrom(Marks(plan, phase, i), phase, 0);
            && i <= n && (forall j :: i <= j < n ==> !InPhase(plan[j], phase))
            && (n < |plan| ==> InPhase(plan[n], phase) && Marks(plan, phase, i)[n] == plan[n])
  {
    var steps := Marks(plan, phase, i);
    assert forall j :: 0 <= j < |plan| ==> InPhase(steps[j], phase) == InPhase(plan[j], phase);
    assert forall j :: 0 <= j < i ==> steps[j].applied || !InPhase(steps[j], phase);
  }

  // ------------------------------------------------------------------------ the runs

  /** The clean run this mutation stands for, and what the plan must promise. */
  ghost predicate Clean(start: Disk, plan: seq<Step>) {
    && IsTree(start) && Fresh(plan) && CleanPass(start, plan).result.Done?
    && forall i :: 0 <= i < |plan| ==> MakesEmpty(plan[i])
  }

  function Side(r: Run): Phase {
    if r.committed then Cleanup else Forward
  }

  /**
   * The first `n` steps of the phase are journalled, and the disk is the clean
   * disk after them, or after the next one too, or part of the way between.
   */
  ghost predicate At(start: Disk, plan: seq<Step>, r: Run, n: nat) {
    && n <= |plan| && r.steps == Marks(plan, Side(r), n)
    && (n < |plan| ==> InPhase(plan[n], Side(r)))
    && (var d := CleanDisk(start, plan, Side(r), n);
        if n == |plan| then r.disk == d && !r.did
        else
          && Partway(d, plan[n], Owned(plan, Side(r), n), r.disk)
          && (r.did ==> ApplyStep(d, plan[n], Owned(plan, Side(r), n)) == Done(r.disk)))
  }

  ghost predicate Fits(plan: seq<Step>, r: Run, n: nat) {
    match r.status
    case Running => r.committed ==> !r.did
    case Finalizing => r.committed
    case Succeeded => r.committed && n == |plan|
    case Recovering => r.committed && n < |plan| && StuckHalfTree(r.disk, plan[n], Owned(plan, Cleanup, n))
    case Aborted => false
  }

  ghost predicate OnCourse(start: Disk, plan: seq<Step>, r: Run) {
    exists n :: At(start, plan, r, n) && Fits(plan, r, n)
  }

  predicate Attempts(e: Event) {
    !e.Undo? && !e.CutUndo? && !e.Abort?
  }

  /** An attempt takes up exactly the step the journal stands at. */
  lemma NextIsHere(start: Disk, plan: seq<Step>, r: Run, n: nat)
    requires Fresh(plan) && At(start, plan, r, n) && PhaseOf(r) == Side(r)
    ensures Next(r) == n && (n < |plan| ==> r.steps[n] == plan[n])
  {
    FirstUnmarked(plan, Side(r), n);
  }

  lemma WorkOnCourse(start: Disk, plan: seq<Step>, r: Run, n: nat)
    requires Clean(start, plan) && At(start, plan, r, n) && Fits(plan, r, n)
    ensures At(start, plan, Moved(r, Work), n) && Fits(plan, Moved(r, Work), n)
  {
    if Working(r) && !r.did {
      NextIsHere(start, plan, r, n);
      if n < |plan| {
        var d, owned := CleanDisk(start, plan, Side(r), n), Owned(plan, Side(r), n);
        PassIsClean(start, plan);
        CleanIsTree(start, plan, Side(r), n);
        if r.status == Finalizing { ResumeDelete(d, plan[n], owned, r.disk); }
        else { ResumeForward(d, plan[n], owned, r.disk); }
        hide ApplyStep, StuckHalfTree, CleanDisk, Marks, Leaves;
      }
    }
  }

  lemma CutOnCourse(start: Disk, plan: seq<Step>, r: Run, n: nat, cut: Cut, left: Disk)
    requires Clean(start, plan) && At(start, plan, r, n) && Fits(plan, r, n)
    ensures At(start, plan, Moved(r, CutOff(cut, left)), n) && Fits(plan, Moved(r, CutOff(cut, left)), n)
  {
    if Moved(r, CutOff(cut, left)) != r {
      NextIsHere(start, plan, r, n);
      var d, owned := CleanDisk(start, plan, Side(r), n), Owned(plan, Side(r), n);
      PassIsClean(start, plan);
      CleanIsTree(start, plan, Side(r), n);
      PartwayAgain(d, plan[n], owned, r.disk, cut, left);
    }
  }

  lemma MarkOnCourse(start: Disk, plan: seq<Step>, r: Run, n: nat)
    requires Clean(start, plan) && At(start, plan, r, n) && Fits(plan, r, n)
    ensures OnCourse(start, plan, Moved(r, Mark))
  {
    var r' := Moved(r, Mark);
    if r' == r {
      assert At(start, plan, r', n) && Fits(plan, r', n);
    } else {
      NextIsHere(start, plan, r, n);
      MarkOne(plan, Side(r), n);
      FirstUnmarked(plan, Side(r), n + 1);
      var m := NextFrom(Marks(plan, Side(r), n + 1), Side(r), 0);
      NextOfMarks(start, plan, Side(r), n + 1, m);
      assert At(start, plan, r', m) && Fits(plan, r', m);
    }
  }

  lemma CommitOnCourse(start: Disk, plan: seq<Step>, r: Run, n: nat)
    requires Clean(start, plan) && At(start, plan, r, n) && Fits(plan, r, n)
    ensures OnCourse(start, plan, Moved(r, Commit))
  {
    var r' := Moved(r, Commit);
    if r' == r {
      assert At(start, plan, r', n) && Fits(plan, r', n);
    } else {
      NextIsHere(start, plan, r, n);
      MarksMeet(plan);
      FirstUnmarked(plan, Cleanup, 0);
      var m := NextFrom(Marks(plan, Cleanup, 0), Cleanup, 0);
      NextOfMarks(start, plan, Cleanup, 0, m);
      assert At(start, plan, r', m) && Fits(plan, r', m);
    }
  }

  lemma StaysOnCourse(start: Disk, plan: seq<Step>, r: Run, e: Event)
    requires Clean(start, plan) && OnCourse(start, plan, r) && Attempts(e)
    ensures OnCourse(start, plan, Moved(r, e))
  {
    var n :| At(start, plan, r, n) && Fits(plan, r, n);
    match e
    case Work => WorkOnCourse(start, plan, r, n);
    case CutOff(cut, left) => CutOnCourse(start, plan, r, n, cut, left);
    case Mark => MarkOnCourse(start, plan, r, n);
    case Commit => CommitOnCourse(start, plan, r, n);
    case Crash => assert At(start, plan, Moved(r, e), n) && Fits(plan, Moved(r, e), n);
    case Finalize => assert At(start, plan, Moved(r, e), n) && Fits(plan, Moved(r, e), n);
    case Complete =>
      if r.status == Finalizing { NextIsHere(start, plan, r, n); }
      assert At(start, plan, Moved(r, e), n) && Fits(plan, Moved(r, e), n);
    case _ =>
  }

  /**
   * Over any sequence of work, cut-off calls, marks, crashes and re-claims with
   * no attempt to abort, the run stays on the course of the clean one.
   */
  lemma {:induction false} CrashesChangeNothing(start: Disk, plan: seq<Step>, r: Run, events: seq<Event>)
    requires Clean(start, plan) && OnCourse(start, plan, r)
    requires forall i :: 0 <= i < |events| ==> Attempts(events[i])
    ensures OnCourse(start, plan, RunOf(r, events))
    decreases events
  {
    if events != [] {
      StaysOnCourse(start, plan, r, events[0]);
      CrashesChangeNothing(start, plan, Moved(r, events[0]), events[1..]);
    }
  }

  lemma BeginsOnCourse(start: Disk, plan: seq<Step>)
    requires Clean(start, plan)
    ensures OnCourse(start, plan, Begin(start, plan))
  {
    MarksMeet(plan);
    FirstUnmarked(plan, Forward, 0);
    var n := NextFrom(plan, Forward, 0);
    NextOfMarks(start, plan, Forward, 0, n);
    assert At(start, plan, Begin(start, plan), n) && Fits(plan, Begin(start, plan), n);
  }

  /** Whatever happened on the way, a mutation that completes has done exactly what the clean run does. */
  lemma CompletionIsClean(start: Disk, plan: seq<Step>, events: seq<Event>)
    requires Clean(start, plan) && forall i :: 0 <= i < |events| ==> Attempts(events[i])
    ensures var r := RunOf(Begin(start, plan), events);
            && (r.status == Succeeded ==> PhaseEnd(Done(r.disk), r.steps) == CleanPass(start, plan))
            && (r.status == Recovering ==>
                  exists n | 0 <= n < |plan| :: StuckHalfTree(r.disk, plan[n], Owned(plan, Cleanup, n)))
            && r.status != Aborted
  {
    BeginsOnCourse(start, plan);
    CrashesChangeNothing(start, plan, Begin(start, plan), events);
    PassIsClean(start, plan);
  }

  /** In cleanup an attempt stops for an operator exactly at a half-deleted tree it does not own. */
  lemma StopsAtHalfTree(start: Disk, plan: seq<Step>, r: Run, n: nat)
    requires Clean(start, plan) && At(start, plan, r, n) && Fits(plan, r, n)
    requires r.status == Finalizing && !r.did
    ensures Moved(r, Work).status == Recovering <==>
            n < |plan| && StuckHalfTree(r.disk, plan[n], Owned(plan, Cleanup, n))
  {
    NextIsHere(start, plan, r, n);
    if n < |plan| {
      PassIsClean(start, plan);
      CleanIsTree(start, plan, Cleanup, n);
      ResumeDelete(CleanDisk(start, plan, Cleanup, n), plan[n], Owned(plan, Cleanup, n), r.disk);
    }
  }
}
