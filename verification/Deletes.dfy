/**
 * What the executor's cleanup removes: a file only with the contents that were
 * captured for it, a tree only with the contents that were captured or from the
 * mutation's own quarantine, and of the folders above only those left with
 * nothing in them.
 */
module Deletes {
  import opened Common
  import opened Paths
  import opened Disk
  import opened Steps
  import opened Effects
  import opened Interrupted
  import opened Recovery

  /** A delete works on its target, or on its source if it has no target. */
  predicate DeletesAt(step: Step, at: Path) {
    IsCleanup(step.action) && (step.targetKey == Some(at) || (step.targetKey.None? && step.sourceKey == Some(at)))
  }

  /** The folder holds just the captured tree. */
  ghost predicate Holds(d: Disk, at: Path, digest: Disk) {
    forall q :: Lookup(digest, q) == if q == [] then None else Lookup(d, at + q)
  }

  /** What is at `at` is what the step was planned for. */
  ghost predicate Captured(d: Disk, step: Step, at: Path, owned: bool)
    requires at in d
  {
    match step.action
    case DeleteFile =>
      && step.expectedChecksum.Some? && d[at] == FileNode(step.expectedChecksum.value)
      && (step.expectedNodeType.None? || step.expectedNodeType == Some(File))
      && (step.expectedSizeBytes.None? || step.expectedSizeBytes == Some(|step.expectedChecksum.value|))
      && step.treeManifestDigest.None?
    case DeleteTree =>
      && d[at] == DirNode && step.treeManifestDigest.Some?
      && (owned || Holds(d, at, step.treeManifestDigest.value))
    case _ => d[at] == DirNode && forall p <- d :: Inside(at, p) ==> p == at
  }

  /** A folder of the mutation's own artifacts, on the way to `at`, with nothing else in it. */
  ghost predicate LeftEmpty(d: Disk, at: Path, q: Path) {
    && |at| >= 4 && at[0] == "tmp" && (at[1] == "backup" || at[1] == "incoming" || at[1] == "quarantine")
    && 3 <= |q| < |at| && Inside(q, at)
    && forall p <- d :: Inside(q, p) ==> Inside(p, at) || Inside(at, p)
  }

  lemma {:induction false} PrunedUpAt(d: Disk, at: Path, q: Path)
    ensures Lookup(PrunedUp(d, at), q) ==
            if 3 <= |q| && Inside(q, at) && (forall p <- d :: Inside(q, p) ==> Inside(p, at))
            then None else Lookup(d, q)
    decreases |at|
  {
    if |at| >= 3 {
      if at !in d {
        PrunedUpAt(d, Parent(at), q);
        assert at[..|at|] == at;
        forall p <- d ensures Inside(p, at) <==> Inside(p, Parent(at)) {}
      } else if IsEmpty(d, at) {
        PrunedUpAt(Without(d, at), Parent(at), q);
        assert forall p <- d :: p in Without(d, at) <==> p != at;
        forall p <- d | p != at ensures Inside(p, at) <==> Inside(p, Parent(at)) {}
      } else {
        var p :| p in d && StrictlyInside(at, p);
        InsideThrough(q, at, p);
      }
    }
  }

  /** Every node after a delete: what lay at the key is gone, and the artifact folders it leaves empty. */
  lemma DeletedAt(d: Disk, at: Path, q: Path)
    requires at != []
    ensures Lookup(Pruned(Without(d, at), at), q) ==
            if Inside(at, q) || LeftEmpty(d, at, q) then None else Lookup(d, q)
  {
    PrunedUpAt(Without(d, at), Parent(at), q);
    if IsArtifact(at) && 3 <= |q| < |at| && Inside(q, at) {
      forall p <- d
        ensures Inside(p, Parent(at)) ==> Inside(p, at)
        ensures !Inside(at, p) && Inside(p, at) ==> Inside(p, Parent(at))
      {
      }
    }
  }

  lemma DigestSays(d: Disk, at: Path, digest: Disk)
    ensures Contents(d, at) == digest <==> Holds(d, at, digest)
  {
    forall q { ContentsAt(d, at, q); }
    if Holds(d, at, digest) { SameDisk(Contents(d, at), digest); }
  }

  /** A delete is carried out exactly when what is there was captured, and what then goes is this, path by path. */
  lemma DeletesExactly(d: Disk, step: Step, owned: bool, at: Path)
    requires DeletesAt(step, at) && at != [] && SafeAncestors(d, at)
    ensures var r := ApplyStep(d, step, owned);
            && (at in d && !Captured(d, step, at, owned) ==> r == Ambiguous(d))
            && (at in d && Captured(d, step, at, owned) ==>
                  r.Done? && forall q :: Lookup(r.disk, q) ==
                                         if Inside(at, q) || LeftEmpty(d, at, q) then None else Lookup(d, q))
  {
    if at in d {
      if step.treeManifestDigest.Some? { DigestSays(d, at, step.treeManifestDigest.value); }
      assert DeleteAllowed(d, step, at, owned) <==> Captured(d, step, at, owned);
      forall q { DeletedAt(d, at, q); }
    }
  }

  /** With nothing there the delete is over; with no key, or a file on the way to it, it stops. */
  lemma NothingToDelete(d: Disk, step: Step, owned: bool)
    requires IsTree(d) && IsCleanup(step.action)
    ensures forall at | DeletesAt(step, at) && at != [] && SafeAncestors(d, at) && at !in d ::
              var r := ApplyStep(d, step, owned);
              r.Done? && forall q :: Lookup(r.disk, q) == if LeftEmpty(d, at, q) then None else Lookup(d, q)
    ensures (forall at :: DeletesAt(step, at) ==> at == [] || !SafeAncestors(d, at)) ==>
              ApplyStep(d, step, owned) == Ambiguous(d)
  {
    forall at | DeletesAt(step, at) && at != [] && SafeAncestors(d, at) && at !in d
      ensures var r := ApplyStep(d, step, owned);
              r.Done? && forall q :: Lookup(r.disk, q) == if LeftEmpty(d, at, q) then None else Lookup(d, q)
    {
      NothingWithin(d, at);
      forall q { DeletedAt(d, at, q); }
    }
    if forall at :: DeletesAt(step, at) ==> at == [] || !SafeAncestors(d, at) {
      var key := if step.targetKey.Some? then step.targetKey else step.sourceKey;
      if key.Some? { assert DeletesAt(step, key.value); }
    }
  }

  // ------------------------------------------------------------------- a whole cleanup pass

  /** A folder the same mutation has moved to its quarantine. */
  ghost predicate QuarantinedBy(steps: seq<Step>, at: Path) {
    && |at| >= 3 && at[0] == "tmp" && at[1] == "quarantine"
    && exists j | 0 <= j < |steps| ::
         steps[j].action == Rename && steps[j].targetKey == Some(at) && steps[j].applied
  }

  /** The step was planned for the file at `p` with these contents, or for a folder it lay in. */
  ghost predicate TakenBy(steps: seq<Step>, i: nat, p: Path, bytes: Bytes)
    requires i < |steps|
  {
    !steps[i].applied && exists at :: DeletesAt(steps[i], at) && TakenAt(steps, i, at, p, bytes)
  }

  ghost predicate TakenAt(steps: seq<Step>, i: nat, at: Path, p: Path, bytes: Bytes)
    requires i < |steps|
  {
    var step := steps[i];
    || (step.action == DeleteFile && p == at && step.expectedChecksum == Some(bytes))
    || (step.action == DeleteTree && StrictlyInside(at, p) && step.treeManifestDigest.Some?
        && (Lookup(step.treeManifestDigest.value, p[|at|..]) == Some(FileNode(bytes)) ||
            (step.targetKey == Some(at) && QuarantinedBy(steps, at))))
  }

  /** The folder may be half-deleted exactly if this mutation put it in quarantine. */
  lemma OwnedExactly(steps: seq<Step>, step: Step)
    ensures OwnedQuarantine(steps, step) <==>
              step.action == DeleteTree && exists at :: step.targetKey == Some(at) && QuarantinedBy(steps, at)
  {
    if step.targetKey.Some? && exists at :: step.targetKey == Some(at) && QuarantinedBy(steps, at) {
      var at :| step.targetKey == Some(at) && QuarantinedBy(steps, at);
      var j :| 0 <= j < |steps| && steps[j].action == Rename && steps[j].targetKey == Some(at) && steps[j].applied;
    }
  }

  /** One step of the pass: nothing is added or changed, and a file that goes was captured. */
  lemma OneStepTakes(d: Disk, steps: seq<Step>, i: nat)
    requires IsTree(d) && i < |steps| && !steps[i].applied && IsCleanup(steps[i].action)
    ensures var r := ApplyStep(d, steps[i], OwnedQuarantine(steps, steps[i]));
            && IsTree(r.disk)
            && (forall p <- r.disk :: p in d && r.disk[p] == d[p])
            && (forall p <- d :: d[p].FileNode? && p !in r.disk ==> TakenBy(steps, i, p, d[p].bytes))
            && (r.Done? ==> forall at, p | DeletesAt(steps[i], at) && p in r.disk :: !Inside(at, p))
            && (!r.Done? ==> r == Ambiguous(d))
  {
    var step := steps[i];
    var owned := OwnedQuarantine(steps, step);
    var r := ApplyStep(d, step, owned);
    DeleteStaysTree(d, step, owned);
    NothingToDelete(d, step, owned);
    if r.Done? {
      var at := KeyOf(step).value;
      OwnedExactly(steps, step);
      DeletesExactly(d, step, owned, at);
      forall p
        ensures p in r.disk ==> p in d && r.disk[p] == d[p] && !Inside(at, p)
        ensures p in d && d[p].FileNode? && p !in r.disk ==> TakenBy(steps, i, p, d[p].bytes)
      {
        if at !in d { NothingWithin(d, at); }
        assert Lookup(r.disk, p) == if Inside(at, p) || LeftEmpty(d, at, p) then None else Lookup(d, p);
        if p in d && d[p].FileNode? && p !in r.disk { FileWasTaken(d, steps, i, at, p); }
      }
    }
  }

  lemma FileWasTaken(d: Disk, steps: seq<Step>, i: nat, at: Path, p: Path)
    requires IsTree(d) && i < |steps| && !steps[i].applied && DeletesAt(steps[i], at)
    requires at != [] && SafeAncestors(d, at) && p in d && d[p].FileNode?
    requires Inside(at, p) || LeftEmpty(d, at, p)
    requires Inside(at, p) ==> at in d && Captured(d, steps[i], at, OwnedQuarantine(steps, steps[i]))
    ensures TakenBy(steps, i, p, d[p].bytes)
  {
    if !Inside(at, p) {
      SafeAt(d, at, p);
      assert false;
    } else {
      OwnedExactly(steps, steps[i]);
      TreeUp(d, p, at);
      assert at + p[|at|..] == p;
      assert TakenAt(steps, i, at, p, d[p].bytes);
    }
  }

  /** The steps with every cleanup step from `i` on marked. */
  predicate CleanupMarked(steps: seq<Step>, i: nat, marked: seq<Step>) {
    && |marked| == |steps|
    && forall j | 0 <= j < |steps| ::
         marked[j] == steps[j].(applied := steps[j].applied || (i <= j && IsCleanup(steps[j].action)))
  }

  lemma MarkingTakesNoMore(steps: seq<Step>, i: nat, j: nat, p: Path, bytes: Bytes)
    requires i < |steps| && j < |steps| && IsCleanup(steps[i].action)
    requires TakenBy(steps[i := steps[i].(applied := true)], j, p, bytes)
    ensures TakenBy(steps, j, p, bytes)
  {
    var marked := steps[i := steps[i].(applied := true)];
    var at :| DeletesAt(marked[j], at) && TakenAt(marked, j, at, p, bytes);
    assert QuarantinedBy(marked, at) ==> QuarantinedBy(steps, at);
    assert TakenAt(steps, j, at, p, bytes);
  }

  /**
   * A cleanup pass adds and changes nothing; every file it takes away has the
   * contents captured for it or lay in the mutation's own quarantine; and once
   * it is through, nothing is left at the key of any delete.
   */
  lemma {:induction false} CleanupTakesOnlyCaptured(d: Disk, steps: seq<Step>, i: nat)
    requires IsTree(d) && i <= |steps|
    ensures var e := PhaseFrom(d, steps, Cleanup, i);
            && (forall p <- e.result.disk :: p in d && e.result.disk[p] == d[p])
            && (forall p <- d :: d[p].FileNode? && p !in e.result.disk ==>
                  exists j :: i <= j < |steps| && TakenBy(steps, j, p, d[p].bytes))
            && (e.result.Done? ==>
                  && CleanupMarked(steps, i, e.steps)
                  && forall j, at, p | i <= j < |steps| && !steps[j].applied && DeletesAt(steps[j], at)
                                       && p in e.result.disk :: !Inside(at, p))
    decreases |steps| - i
  {
    var e := PhaseFrom(d, steps, Cleanup, i);
    hide ApplyStep, OwnedQuarantine, TakenBy, DeletesAt;
    if i == |steps| {
    } else if steps[i].applied || !IsCleanup(steps[i].action) {
      CleanupTakesOnlyCaptured(d, steps, i + 1);
    } else {
      OneStepTakes(d, steps, i);
      var r := ApplyStep(d, steps[i], OwnedQuarantine(steps, steps[i]));
      if r.Done? {
        var marked := steps[i := steps[i].(applied := true)];
        CleanupTakesOnlyCaptured(r.disk, marked, i + 1);
        LaterTakes(d, r.disk, e.result.disk, steps, i);
      }
    }
  }

  lemma LaterTakes(d: Disk, between: Disk, left: Disk, steps: seq<Step>, i: nat)
    requires i < |steps| && IsCleanup(steps[i].action)
    requires forall p <- between :: p in d && between[p] == d[p]
    requires forall p <- d :: d[p].FileNode? && p !in between ==> TakenBy(steps, i, p, d[p].bytes)
    requires var marked := steps[i := steps[i].(applied := true)];
             forall p <- between :: between[p].FileNode? && p !in left ==>
               exists j :: i + 1 <= j < |steps| && TakenBy(marked, j, p, between[p].bytes)
    ensures forall p <- d :: d[p].FileNode? && p !in left ==>
              exists j :: i <= j < |steps| && TakenBy(steps, j, p, d[p].bytes)
  {
    hide TakenBy;
    var marked := steps[i := steps[i].(applied := true)];
    forall p | p in d && d[p].FileNode? && p !in left
      ensures exists j :: i <= j < |steps| && TakenBy(steps, j, p, d[p].bytes)
    {
      if p in between {
        var j :| i + 1 <= j < |steps| && TakenBy(marked, j, p, between[p].bytes);
        MarkingTakesNoMore(steps, i, j, p, d[p].bytes);
      }
    }
  }

  // ------------------------------------------------------------------- any number of attempts

  /** A cut-off delete has taken no more than a finished one. */
  lemma CutTakesNoMore(d: Disk, step: Step, owned: bool, cut: Cut, left: Disk)
    requires IsTree(d) && IsCleanup(step.action) && Leaves(d, step, owned, cut, left)
    ensures ApplyStep(d, step, owned).Done? && forall p <- ApplyStep(d, step, owned).disk :: p in left
    ensures IsTree(left) && forall p <- left :: p in d && left[p] == d[p]
  {
    DeleteCutStaysTree(d, step, owned, cut, left);
    assert ApplyStep(d, step, owned).Done?;
    var at := KeyOf(step).value;
    DeleteMeans(d, step, owned);
    forall p { DeletedAt(d, at, p); }
    match cut
    case Levels(up) => PartlyTwice(Without(d, at), at, up, if up <= |at| then |at| else up);
                       PartlyTwice(left, at, if up <= |at| then |at| else up, 0);
                       PartlyTwice(Without(d, at), at, if up <= |at| then |at| else up, 0);
    case HalfTree(_) => PartlyTwice(Without(d, at), at, |at|, 0);
    case _ =>
  }

  /** `left` is what is left of `d`, and what is gone was taken by steps that were not marked. */
  ghost predicate OnlyTaken(d: Disk, steps: seq<Step>, left: Disk) {
    && (forall p <- left :: p in d && left[p] == d[p])
    && (forall p <- d :: d[p].FileNode? && p !in left ==>
      exists j | 0 <= j < |steps| :: TakenBy(steps, j, p, d[p].bytes))
  }

  predicate Ending(r: Run) {
    r.committed && r.status in {Finalizing, Succeeded, Recovering}
  }

  lemma OneEventTakes(r: Run, e: Event)
    requires IsTree(r.disk) && Ending(r)
    ensures var r' := Moved(r, e);
            && IsTree(r'.disk) && Ending(r') && OnlyTaken(r.disk, r.steps, r'.disk)
            && (r'.steps == r.steps || exists i | 0 <= i < |r.steps| ::
                  IsCleanup(r.steps[i].action) && r'.steps == r.steps[i := r.steps[i].(applied := true)])
  {
    var n := Next(r);
    if Working(r) && n < |r.steps| {
      var step := r.steps[n];
      var owned := OwnedQuarantine(r.steps, step);
      OneStepTakes(r.disk, r.steps, n);
      if e.CutOff? && Leaves(r.disk, step, owned, e.cut, e.left) {
        CutTakesNoMore(r.disk, step, owned, e.cut, e.left);
      }
    }
    hide ApplyStep, OwnedQuarantine, TakenBy, Leaves, IsTree, UndoStep;
  }

  /**
   * From finalization on, through any crashes, cut-off calls and retries: a file
   * that goes has the contents captured for it or lay in the mutation's own quarantine.
   */
  lemma {:induction false} FinalizingTakesOnlyCaptured(r: Run, events: seq<Event>)
    requires IsTree(r.disk) && Ending(r)
    ensures OnlyTaken(r.disk, r.steps, RunOf(r, events).disk)
    decreases events
  {
    if events != [] {
      OneEventTakes(r, events[0]);
      var r' := Moved(r, events[0]);
      FinalizingTakesOnlyCaptured(r', events[1..]);
      var left := RunOf(r, events).disk;
      hide TakenBy, Moved;
      forall p | p in r.disk && r.disk[p].FileNode? && p !in left
        ensures exists j | 0 <= j < |r.steps| :: TakenBy(r.steps, j, p, r.disk[p].bytes)
      {
        if p in r'.disk {
          var j :| 0 <= j < |r'.steps| && TakenBy(r'.steps, j, p, r.disk[p].bytes);
          if r'.steps != r.steps {
            var i :| 0 <= i < |r.steps| && IsCleanup(r.steps[i].action)
                     && r'.steps == r.steps[i := r.steps[i].(applied := true)];
            MarkingTakesNoMore(r.steps, i, j, p, r.disk[p].bytes);
          }
        }
      }
    }
  }
}
