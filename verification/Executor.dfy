/** The executor's loops, on a disk and a list of steps they change in place. */
module Executor {
  import opened Common
  import opened Paths
  import opened Disk
  import opened Steps

  class Executor {
    var disk: Disk
    var steps: seq<Step>

    constructor (disk: Disk, steps: seq<Step>)
      ensures this.disk == disk && this.steps == steps
    {
      this.disk, this.steps := disk, steps;
    }

    method ApplySteps(phase: Phase) returns (r: Result)
      modifies this
      ensures PhaseEnd(r, steps) == PhaseFrom(old(disk), old(steps), phase, 0)
      ensures disk == r.disk
    {
      var i := 0;
      while i < |steps|
        invariant 0 <= i <= |steps| && |steps| == |old(steps)|
        invariant PhaseFrom(disk, steps, phase, i) == PhaseFrom(old(disk), old(steps), phase, 0)
        decreases |old(steps)| - i
      {
        if !steps[i].applied && InPhase(steps[i], phase) {
          r := ApplyStep(disk, steps[i], OwnedQuarantine(steps, steps[i]));
          disk := r.disk;
          if !r.Done? { return; }
          steps := steps[i := steps[i].(applied := true)];
        }
        i := i + 1;
      }
      r := Done(disk);
    }

    /** Never touches a mark: a later attempt still sees the undone steps as applied. */
    method UndoForwardSteps() returns (r: Result)
      modifies this`disk
      ensures r == Undone(old(disk), steps, |steps|) && disk == r.disk
    {
      var n := |steps|;
      while n > 0
        invariant 0 <= n <= |steps|
        invariant Undone(disk, steps, n) == Undone(old(disk), steps, |steps|)
      {
        n := n - 1;
        r := UndoStep(disk, steps[n]);
        disk := r.disk;
        if !r.Done? { return; }
      }
      r := Done(disk);
    }
  }
}
