/**
 * The journalled filesystem steps of a storage mutation, and what applying or
 * undoing one does.  Every check of the executor is here, in its order; a
 * failed check that stops the mutation for an operator is `Ambiguous`, a
 * refusal by the operating system is `Refused`.
 */
module Steps {
  import opened Common
  import opened Paths
  import opened Disk

  datatype Action = Rename | Mkdir | DeleteFile | DeleteTree | RemoveEmptyDirectory

  datatype Step = Step(
    action: Action,
    sourceKey: Option<Path>,
    targetKey: Option<Path>,
    expectedNodeType: Option<NodeType>,
    expectedSizeBytes: Option<nat>,
    expectedChecksum: Option<Bytes>,
    /** A tree digest stands for the tree it was taken of. */
    treeManifestDigest: Option<Disk>,
    applied: bool)

  datatype Result = Done(disk: Disk) | Ambiguous(disk: Disk) | Refused(disk: Disk)

  predicate IsCleanup(a: Action) {
    a == DeleteFile || a == DeleteTree || a == RemoveEmptyDirectory
  }

  // ------------------------------------------------------------------ fingerprints

  function TypeOf(n: Node): NodeType {
    if n.FileNode? then File else Folder
  }

  function SizeOf(n: Node): nat {
    if n.FileNode? then |n.bytes| else 0
  }

  predicate TreeMatches(d: Disk, p: Path, digest: Disk) {
    Lookup(d, p) == Some(DirNode) && Contents(d, p) == digest
  }

  /** `validateExpectedNode`. */
  predicate ValidNode(d: Disk, p: Path, step: Step) {
    && p in d
    && (step.expectedNodeType.Some? ==> TypeOf(d[p]) == step.expectedNodeType.value)
    && (step.expectedSizeBytes.Some? ==> SizeOf(d[p]) == step.expectedSizeBytes.value)
    && (step.expectedChecksum.Some? ==> d[p] == FileNode(step.expectedChecksum.value))
    && (step.treeManifestDigest.Some? ==> TreeMatches(d, p, step.treeManifestDigest.value))
  }

  // ------------------------------------------------------------------------ rename

  predicate RenameIntent(step: Step) {
    && step.sourceKey.Some? && step.targetKey.Some?
    && step.sourceKey.value != [] && step.targetKey.value != []
    && ((step.expectedNodeType == Some(File) && step.expectedChecksum.Some?) ||
        (step.expectedNodeType == Some(Folder) && step.treeManifestDigest.Some?))
  }

  function ApplyRename(d: Disk, step: Step): Result {
    if !RenameIntent(step) then Ambiguous(d)
    else
      var source, target := step.sourceKey.value, step.targetKey.value;
      if !SafeAncestors(d, source) || !SafeAncestors(d, target) then Ambiguous(d)
      else if source in d <==> target in d then Ambiguous(d)
      else if source !in d then (if ValidNode(d, target, step) then Done(d) else Ambiguous(d))
      else if !ValidNode(d, source, step) then Ambiguous(d)
      else
        var ready := WithFolders(d, target, |target| - 1);
        if Inside(source, target) then Refused(ready) else Done(Renamed(ready, source, target))
  }

  // ------------------------------------------------------------------------- mkdir

  function ApplyMkdir(d: Disk, step: Step): Result {
    if step.targetKey.None? || step.targetKey.value == [] || step.treeManifestDigest.None? then Ambiguous(d)
    else
      var target := step.targetKey.value;
      if !SafeAncestors(d, target) then Ambiguous(d)
      else if target !in d then Done(WithFolders(d, target, |target|))
      else if TreeMatches(d, target, step.treeManifestDigest.value) then Done(d)
      else Ambiguous(d)
  }

  // ----------------------------------------------------------------------- deletes

  predicate IsArtifact(key: Path) {
    |key| >= 4 && key[0] == "tmp" && key[1] in {"backup", "incoming", "quarantine"}
  }

  /** `removeEmptyArtifactAncestors`: empty folders go, from `at` up to the mutation's own folder. */
  function PrunedUp(d: Disk, at: Path): Disk
    decreases |at|
  {
    if |at| < 3 then d
    else if at !in d then PrunedUp(d, Parent(at))
    else if !IsEmpty(d, at) then d
    else PrunedUp(Without(d, at), Parent(at))
  }

  function Pruned(d: Disk, key: Path): Disk {
    if IsArtifact(key) then PrunedUp(d, Parent(key)) else d
  }

  function ApplyDelete(d: Disk, step: Step, owned: bool): Result {
    var key := if step.targetKey.Some? then step.targetKey else step.sourceKey;
    if key.None? || key.value == [] then Ambiguous(d)
    else
      var at := key.value;
      if !SafeAncestors(d, at) then Ambiguous(d)
      else if at !in d then Done(Pruned(d, at))
      else if DeleteAllowed(d, step, at, owned) then Done(Pruned(Without(d, at), at))
      else Ambiguous(d)
  }

  predicate DeleteAllowed(d: Disk, step: Step, at: Path, owned: bool)
    requires at in d
  {
    match step.action
    case DeleteFile => step.expectedChecksum.Some? && ValidNode(d, at, step)
    case DeleteTree =>
      d[at] == DirNode && step.treeManifestDigest.Some? &&
      (Contents(d, at) == step.treeManifestDigest.value || owned)
    case _ => d[at] == DirNode && IsEmpty(d, at)
  }

  predicate InQuarantine(at: Path) {
    |at| >= 3 && at[0] == "tmp" && at[1] == "quarantine"
  }

  /** A tree the same mutation moved to its own quarantine may be deleted half-deleted. */
  predicate OwnedQuarantine(steps: seq<Step>, step: Step) {
    && step.action == DeleteTree && step.targetKey.Some? && InQuarantine(step.targetKey.value)
    && exists i :: 0 <= i < |steps| && steps[i].action == Rename
                   && steps[i].targetKey == step.targetKey && steps[i].applied
  }

  function ApplyStep(d: Disk, step: Step, owned: bool): Result {
    match step.action
    case Rename => ApplyRename(d, step)
    case Mkdir => ApplyMkdir(d, step)
    case _ => ApplyDelete(d, step, owned)
  }

  // -------------------------------------------------------------------------- undo

  function Swapped(step: Step): Step {
    step.(sourceKey := step.targetKey, targetKey := step.sourceKey)
  }

  /** `removeUndoneDirectory`. */
  function UndoMkdir(d: Disk, step: Step): Result {
    if step.targetKey.None? then Done(d)
    else if step.targetKey.value == [] then Ambiguous(d)
    else
      var at := step.targetKey.value;
      if !SafeAncestors(d, at) then Ambiguous(d)
      else if at !in d then Done(d)
      else if d[at] != DirNode then Refused(d)
      else if !IsEmpty(d, at) then Ambiguous(d)
      else Done(Without(d, at))
  }

  function UndoStep(d: Disk, step: Step): Result {
    if !step.applied || IsCleanup(step.action) then Done(d)
    else if step.action == Rename then ApplyRename(d, Swapped(step))
    else UndoMkdir(d, step)
  }

  /** `undoForwardSteps` over the first `n` steps, the newest first. */
  function Undone(d: Disk, steps: seq<Step>, n: nat): Result
    requires n <= |steps|
    decreases n
  {
    if n == 0 then Done(d)
    else
      var r := UndoStep(d, steps[n - 1]);
      if r.Done? then Undone(r.disk, steps, n - 1) else r
  }

  // -------------------------------------------------------------------- one phase

  datatype Phase = Forward | Cleanup

  predicate InPhase(step: Step, phase: Phase) {
    IsCleanup(step.action) <==> phase == Cleanup
  }

  datatype PhaseEnd = PhaseEnd(result: Result, steps: seq<Step>)

  /** `applyStorageMutationSteps` from step `i` on, uninterrupted. */
  function PhaseFrom(d: Disk, steps: seq<Step>, phase: Phase, i: nat): PhaseEnd
    requires i <= |steps|
    decreases |steps| - i
  {
    if i == |steps| then PhaseEnd(Done(d), steps)
    else if steps[i].applied || !InPhase(steps[i], phase) then PhaseFrom(d, steps, phase, i + 1)
    else
      var r := ApplyStep(d, steps[i], OwnedQuarantine(steps, steps[i]));
      if r.Done? then PhaseFrom(r.disk, steps[i := steps[i].(applied := true)], phase, i + 1)
      else PhaseEnd(r, steps)
  }
}
