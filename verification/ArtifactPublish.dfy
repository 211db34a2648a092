/**
 * Publishing a generated file over an old one: stage the new file, back the
 * old one up, put the new one in place, and after the commit delete the backup.
 */
module ArtifactPublish {
  import opened Common
  import opened Paths
  import opened Disk
  import opened Steps
  import opened Effects
  import opened Interrupted
  import opened Recovery
  import opened CrashRecovery

  function MoveFile(source: Path, target: Path, size: Option<nat>, checksum: Bytes): Step {
    Step(Rename, Some(source), Some(target), Some(File), size, Some(checksum), None, false)
  }

  function Incoming(mutationId: string, storageKey: Path): Path
    requires storageKey != []
  {
    ["tmp", "incoming", mutationId, storageKey[|storageKey| - 1]]
  }

  function Backup(mutationId: string, storageKey: Path): Path
    requires storageKey != []
  {
    ["tmp", "backup", mutationId, storageKey[|storageKey| - 1]]
  }

  /** `buildArtifactPublishSteps`. */
  function PublishSteps(mutationId: string, tmpKey: Path, storageKey: Path, bytes: Bytes,
    previous: Option<Bytes>): seq<Step>
    requires storageKey != []
  {
    if previous.None? then [MoveFile(tmpKey, storageKey, Some(|bytes|), bytes)]
    else
      var incoming, backup := Incoming(mutationId, storageKey), Backup(mutationId, storageKey);
      [MoveFile(tmpKey, incoming, Some(|bytes|), bytes),
       MoveFile(storageKey, backup, None, previous.value),
       MoveFile(incoming, storageKey, Some(|bytes|), bytes),
       Removal(backup, previous.value)]
  }

  /** What moving one file to a free path does. */
  lemma FileMoves(d: Disk, step: Step, bytes: Bytes)
    requires IsTree(d) && step.action == Rename && step.expectedNodeType == Some(File) && step.sourceKey.Some?
    requires step.targetKey.Some? && step.expectedChecksum == Some(bytes) && step.treeManifestDigest == None
    requires step.expectedSizeBytes.Some? ==> step.expectedSizeBytes.value == |bytes|
    requires Lookup(d, step.sourceKey.value) == Some(FileNode(bytes)) && step.targetKey.value !in d
    requires SafeAncestors(d, step.targetKey.value) && Apart(step.sourceKey.value, step.targetKey.value)
    ensures ApplyStep(d, step, false).Done? && IsTree(ApplyStep(d, step, false).disk)
    ensures Files(ApplyStep(d, step, false).disk)
            == (Files(d) - {step.sourceKey.value})[step.targetKey.value := bytes]
    ensures step.sourceKey.value !in ApplyStep(d, step, false).disk
    ensures Lookup(ApplyStep(d, step, false).disk, step.targetKey.value) == Some(FileNode(bytes))
  {
    var s, t := step.sourceKey.value, step.targetKey.value;
    TreeIsSafe(d, s);
    DoneMeans(d, step, false);
    var d' := ApplyStep(d, step, false).disk;
    var e := Moves(s, t);
    StaysTree(d, e, d');
    assert Lookup(d', s) == After(e, d, s);
    assert Lookup(d', t) == After(e, d, t) && s + t[|t|..] == s;
    hide ApplyStep;
    FilesMoved(d, e, d', bytes);
  }

  /** A path apart from the target of a file's move keeps what it has, and its way. */
  lemma MovesPast(d: Disk, step: Step, bytes: Bytes, p: Path)
    requires IsTree(d) && step.action == Rename && step.sourceKey.Some? && step.targetKey.Some?
    requires ApplyStep(d, step, false).Done? && step.targetKey.value !in d
    requires Lookup(d, step.sourceKey.value) == Some(FileNode(bytes))
    requires Apart(p, step.targetKey.value)
    ensures p != step.sourceKey.value ==> Lookup(ApplyStep(d, step, false).disk, p) == Lookup(d, p)
    ensures SafeAncestors(d, p) ==> SafeAncestors(ApplyStep(d, step, false).disk, p)
  {
    var s, t := step.sourceKey.value, step.targetKey.value;
    DoneMeans(d, step, false);
    var d' := ApplyStep(d, step, false).disk;
    assert Lookup(d', p) == After(Moves(s, t), d, p);
    if Inside(s, p) && p in d { TreeUp(d, p, s); }
    if SafeAncestors(d, p) { StaysSafe(d, Moves(s, t), d', p); }
  }

  lemma StaysSafe(d: Disk, e: Effect, d': Disk, p: Path)
    requires IsTree(d) && e.Moves? && Fitting(e, d) && Apart(p, e.target) && SafeAncestors(d, p)
    requires forall q :: Lookup(d', q) == After(e, d, q)
    ensures SafeAncestors(d', p)
  {
    forall i | 0 < i < |p| && p[..i] in d'
      ensures d'[p[..i]] == DirNode
    {
      assert Lookup(d', p[..i]) == After(e, d, p[..i]);
      InsideThrough(e.target, p[..i], p);
    }
  }

  lemma FilesMoved(d: Disk, e: Effect, d': Disk, bytes: Bytes)
    requires IsTree(d) && e.Moves? && Fitting(e, d) && Lookup(d, e.source) == Some(FileNode(bytes))
    requires forall q :: Lookup(d', q) == After(e, d, q)
    ensures Files(d') == (Files(d) - {e.source})[e.target := bytes]
  {
    var moved := (Files(d) - {e.source})[e.target := bytes];
    forall q
      ensures q in Files(d') <==> q in moved
      ensures q in moved ==> q in Files(d') && Files(d')[q] == moved[q]
    {
      assert Lookup(d', q) == After(e, d, q);
      if Inside(e.target, q) {
        var o := e.source + q[|e.target|..];
        assert Inside(e.source, o);
        assert q != e.target ==> q == e.target + q[|e.target|..] && o != e.source;
        if o in d { TreeUp(d, o, e.source); }
        assert q == e.target ==> o == e.source;
        if q in d { TreeUp(d, q, e.target); }
      } else if Inside(e.source, q) && q in d {
        TreeUp(d, q, e.source);
      }
    }
  }

  /** Pruning takes folders only. */
  lemma {:induction false} PruningKeepsFiles(d: Disk, at: Path)
    requires SafeAncestors(d, at) && (at in d ==> d[at] == DirNode)
    ensures Files(PrunedUp(d, at)) == Files(d)
    decreases |at|
  {
    if |at| >= 3 {
      var up := Parent(at);
      assert forall i | 0 < i < |up| :: up[..i] == at[..i];
      assert up == at[..|at| - 1];
      if at !in d {
        PruningKeepsFiles(d, up);
      } else if IsEmpty(d, at) {
        var d' := Without(d, at);
        assert forall q <- d :: Inside(at, q) ==> q == at;
        assert Files(d') == Files(d);
        PruningKeepsFiles(d', up);
      }
    }
  }

  lemma FileDeletes(d: Disk, step: Step, bytes: Bytes)
    requires IsTree(d) && step.action == DeleteFile && step.expectedNodeType == Some(File) && step.targetKey.Some?
    requires step.expectedChecksum == Some(bytes) && step.treeManifestDigest == None && step.expectedSizeBytes == None
    requires Lookup(d, step.targetKey.value) == Some(FileNode(bytes)) && step.targetKey.value != []
    ensures ApplyStep(d, step, false).Done?
    ensures Files(ApplyStep(d, step, false).disk) == Files(d) - {step.targetKey.value}
  {
    var at := step.targetKey.value;
    TreeIsSafe(d, at);
    DeleteMeans(d, step, false);
    var d' := Without(d, at);
    forall q | q in d && Inside(at, q)
      ensures q == at
    {
      TreeUp(d, q, at);
    }
    assert Files(d') == Files(d) - {at};
    var up := Parent(at);
    assert forall i | 0 < i < |up| :: up[..i] == at[..i];
    assert up != [] ==> up == at[..|at| - 1];
    assert SafeAncestors(d', up);
    if up != [] { PruningKeepsFiles(d', up); }
  }

  // --------------------------------------------------------------------- the whole plan

  /** What must hold when the plan is made: the files are where they are said to be, the way is free. */
  ghost predicate Ready(start: Disk, mutationId: string, tmpKey: Path, storageKey: Path, bytes: Bytes,
    previous: Option<Bytes>) {
    && IsTree(start) && storageKey != [] && Apart(tmpKey, storageKey)
    && Lookup(start, tmpKey) == Some(FileNode(bytes))
    && (previous.None? ==> storageKey !in start && SafeAncestors(start, storageKey))
    && (previous.Some? ==>
          && Lookup(start, storageKey) == Some(FileNode(previous.value))
          && FreeWay(start, Incoming(mutationId, storageKey), tmpKey, storageKey)
          && FreeWay(start, Backup(mutationId, storageKey), tmpKey, storageKey))
  }

  predicate FreeWay(start: Disk, p: Path, tmpKey: Path, storageKey: Path) {
    p !in start && SafeAncestors(start, p) && Apart(p, tmpKey) && Apart(p, storageKey)
  }

  function Published(files: map<Path, Bytes>, tmpKey: Path, storageKey: Path, bytes: Bytes): map<Path, Bytes> {
    (files - {tmpKey})[storageKey := bytes]
  }

  /** The new file is staged; the old one is in place and the way to its backup free. */
  ghost predicate Staged(d: Disk, incoming: Path, backup: Path, storageKey: Path, bytes: Bytes, previous: Bytes) {
    && IsTree(d) && Lookup(d, incoming) == Some(FileNode(bytes)) && Lookup(d, storageKey) == Some(FileNode(previous))
    && backup !in d && SafeAncestors(d, backup) && Apart(incoming, backup)
    && Apart(storageKey, incoming) && Apart(storageKey, backup)
  }

  lemma Stages(start: Disk, mutationId: string, tmpKey: Path, storageKey: Path, bytes: Bytes, previous: Bytes)
    requires Ready(start, mutationId, tmpKey, storageKey, bytes, Some(previous))
    ensures var incoming, backup := Incoming(mutationId, storageKey), Backup(mutationId, storageKey);
            var r := ApplyStep(start, MoveFile(tmpKey, incoming, Some(|bytes|), bytes), false);
            && r.Done? && Staged(r.disk, incoming, backup, storageKey, bytes, previous)
            && Files(r.disk) == (Files(start) - {tmpKey})[incoming := bytes]
  {
    var incoming, backup := Incoming(mutationId, storageKey), Backup(mutationId, storageKey);
    assert incoming[1] != backup[1] && Apart(incoming, backup);
    var step := MoveFile(tmpKey, incoming, Some(|bytes|), bytes);
    FileMoves(start, step, bytes);
    MovesPast(start, step, bytes, storageKey);
    MovesPast(start, step, bytes, backup);
  }

  lemma BacksUp(d: Disk, incoming: Path, backup: Path, storageKey: Path, bytes: Bytes, previous: Bytes)
    requires Staged(d, incoming, backup, storageKey, bytes, previous)
    ensures var r := ApplyStep(d, MoveFile(storageKey, backup, None, previous), false);
            && r.Done? && IsTree(r.disk) && Lookup(r.disk, incoming) == Some(FileNode(bytes))
            && Lookup(r.disk, backup) == Some(FileNode(previous))
            && storageKey !in r.disk && SafeAncestors(r.disk, storageKey)
            && Files(r.disk) == (Files(d) - {storageKey})[backup := previous]
  {
    var step := MoveFile(storageKey, backup, None, previous);
    FileMoves(d, step, previous);
    TreeIsSafe(d, storageKey);
    MovesPast(d, step, previous, incoming);
    MovesPast(d, step, previous, storageKey);
  }

  lemma PutsInPlace(d: Disk, incoming: Path, backup: Path, storageKey: Path, bytes: Bytes, previous: Bytes)
    requires IsTree(d) && Lookup(d, incoming) == Some(FileNode(bytes)) && Lookup(d, backup) == Some(FileNode(previous))
    requires storageKey !in d && SafeAncestors(d, storageKey)
    requires Apart(storageKey, incoming) && Apart(storageKey, backup) && incoming != backup && backup != []
    ensures var r := ApplyStep(d, MoveFile(incoming, storageKey, Some(|bytes|), bytes), false);
            && r.Done? && IsTree(r.disk) && Lookup(r.disk, backup) == Some(FileNode(previous))
            && Files(r.disk) == (Files(d) - {incoming})[storageKey := bytes]
  {
    var step := MoveFile(incoming, storageKey, Some(|bytes|), bytes);
    FileMoves(d, step, bytes);
    MovesPast(d, step, bytes, backup);
  }

  function Removal(backup: Path, previous: Bytes): Step {
    Step(DeleteFile, None, Some(backup), Some(File), None, Some(previous), None, false)
  }

  /** Each step of a replacing plan, run cleanly. */
  lemma ReplaceRuns(start: Disk, mutationId: string, tmpKey: Path, storageKey: Path, bytes: Bytes, previous: Bytes)
    returns (d1: Disk, d2: Disk, d3: Disk, d4: Disk)
    requires Ready(start, mutationId, tmpKey, storageKey, bytes, Some(previous))
    ensures var steps := PublishSteps(mutationId, tmpKey, storageKey, bytes, Some(previous));
            && ApplyStep(start, steps[0], false) == Done(d1) && ApplyStep(d1, steps[1], false) == Done(d2)
            && ApplyStep(d2, steps[2], false) == Done(d3) && ApplyStep(d3, steps[3], false) == Done(d4)
    ensures Files(d4) == Published(Files(start), tmpKey, storageKey, bytes)
  {
    var incoming, backup := Incoming(mutationId, storageKey), Backup(mutationId, storageKey);
    Stages(start, mutationId, tmpKey, storageKey, bytes, previous);
    d1 := ApplyStep(start, MoveFile(tmpKey, incoming, Some(|bytes|), bytes), false).disk;
    assert incoming !in start && backup !in start;
    hide ApplyStep, IsTree, SafeAncestors, Files, Inside, Ready, FreeWay;
    d2, d3, d4 := StagedRuns(d1, incoming, backup, storageKey, bytes, previous);
    PlacesMeet(Files(start), tmpKey, incoming, backup, storageKey, bytes, previous, start);
  }

  /** The steps after staging. */
  lemma StagedRuns(d1: Disk, incoming: Path, backup: Path, storageKey: Path, bytes: Bytes, previous: Bytes)
    returns (d2: Disk, d3: Disk, d4: Disk)
    requires Staged(d1, incoming, backup, storageKey, bytes, previous) && incoming != backup && backup != []
    ensures Apart(incoming, backup) && Apart(storageKey, incoming) && Apart(storageKey, backup)
    ensures ApplyStep(d1, MoveFile(storageKey, backup, None, previous), false) == Done(d2)
    ensures ApplyStep(d2, MoveFile(incoming, storageKey, Some(|bytes|), bytes), false) == Done(d3)
    ensures ApplyStep(d3, Removal(backup, previous), false) == Done(d4)
    ensures Files(d4) == (((Files(d1) - {storageKey})[backup := previous] - {incoming})[storageKey := bytes]) - {backup}
  {
    hide ApplyStep, IsTree, SafeAncestors, Files, Inside;
    BacksUp(d1, incoming, backup, storageKey, bytes, previous);
    d2 := ApplyStep(d1, MoveFile(storageKey, backup, None, previous), false).disk;
    PutsInPlace(d2, incoming, backup, storageKey, bytes, previous);
    d3 := ApplyStep(d2, MoveFile(incoming, storageKey, Some(|bytes|), bytes), false).disk;
    FileDeletes(d3, Removal(backup, previous), previous);
    d4 := ApplyStep(d3, Removal(backup, previous), false).disk;
  }

  lemma PlacesMeet(files: map<Path, Bytes>, tmpKey: Path, incoming: Path, backup: Path, storageKey: Path,
    bytes: Bytes, previous: Bytes, start: Disk)
    requires files == Files(start) && incoming !in start && backup !in start
    requires Apart(incoming, backup) && Apart(storageKey, incoming) && Apart(storageKey, backup)
    ensures var f1 := (files - {tmpKey})[incoming := bytes];
            var f2 := (f1 - {storageKey})[backup := previous];
            var f3 := (f2 - {incoming})[storageKey := bytes];
            f3 - {backup} == Published(files, tmpKey, storageKey, bytes)
  {
  }

  lemma PublishRunsForward(start: Disk, steps: seq<Step>, d1: Disk, d2: Disk, d3: Disk)
    requires |steps| == 4 && Fresh(steps) && IsCleanup(steps[3].action)
    requires steps[0].action == steps[1].action == steps[2].action == Rename
    requires ApplyStep(start, steps[0], false) == Done(d1) && ApplyStep(d1, steps[1], false) == Done(d2)
    requires ApplyStep(d2, steps[2], false) == Done(d3)
    ensures var end := PhaseFrom(start, steps, Forward, 0);
            && end.result == Done(d3) && |end.steps| == 4 && end.steps[3] == steps[3]
            && forall i | 0 <= i < 3 :: end.steps[i] == steps[i].(applied := true)
  {
    hide ApplyStep;
    var s1 := steps[0 := steps[0].(applied := true)];
    var s2 := s1[1 := s1[1].(applied := true)];
    var s3 := s2[2 := s2[2].(applied := true)];
    assert PhaseFrom(start, steps, Forward, 0) == PhaseFrom(d1, s1, Forward, 1);
    assert PhaseFrom(d1, s1, Forward, 1) == PhaseFrom(d2, s2, Forward, 2);
    assert PhaseFrom(d2, s2, Forward, 2) == PhaseFrom(d3, s3, Forward, 3) == PhaseFrom(d3, s3, Forward, 4);
  }

  lemma PublishRunsCleanup(d3: Disk, steps: seq<Step>, d4: Disk)
    requires |steps| == 4 && steps[0].applied && steps[1].applied && steps[2].applied && !steps[3].applied
    requires steps[3].action == DeleteFile && ApplyStep(d3, steps[3], false) == Done(d4)
    ensures PhaseFrom(d3, steps, Cleanup, 0).result == Done(d4)
  {
    hide ApplyStep;
    assert PhaseFrom(d3, steps, Cleanup, 0) == PhaseFrom(d3, steps, Cleanup, 1);
    assert PhaseFrom(d3, steps, Cleanup, 1) == PhaseFrom(d3, steps, Cleanup, 2) == PhaseFrom(d3, steps, Cleanup, 3);
    var s4 := steps[3 := steps[3].(applied := true)];
    assert PhaseFrom(d3, steps, Cleanup, 3) == PhaseFrom(d4, s4, Cleanup, 4);
  }

  /** The plan, run cleanly, changes two paths: the staged file is gone, the published one is new. */
  lemma PublishIsClean(start: Disk, mutationId: string, tmpKey: Path, storageKey: Path, bytes: Bytes,
    previous: Option<Bytes>)
    requires Ready(start, mutationId, tmpKey, storageKey, bytes, previous)
    ensures var steps := PublishSteps(mutationId, tmpKey, storageKey, bytes, previous);
            && Clean(start, steps)
            && Files(CleanPass(start, steps).result.disk) == Published(Files(start), tmpKey, storageKey, bytes)
  {
    if previous.None? {
      PlainIsClean(start, mutationId, tmpKey, storageKey, bytes);
    } else {
      ReplaceIsClean(start, mutationId, tmpKey, storageKey, bytes, previous.value);
    }
  }

  lemma PlainIsClean(start: Disk, mutationId: string, tmpKey: Path, storageKey: Path, bytes: Bytes)
    requires Ready(start, mutationId, tmpKey, storageKey, bytes, None)
    ensures var steps := PublishSteps(mutationId, tmpKey, storageKey, bytes, None);
            && Clean(start, steps)
            && Files(CleanPass(start, steps).result.disk) == Published(Files(start), tmpKey, storageKey, bytes)
  {
    var steps := PublishSteps(mutationId, tmpKey, storageKey, bytes, None);
    FileMoves(start, steps[0], bytes);
    var d1 := ApplyStep(start, steps[0], false).disk;
    hide ApplyStep, Files;
    var s1 := steps[0 := steps[0].(applied := true)];
    assert PhaseFrom(start, steps, Forward, 0) == PhaseFrom(d1, s1, Forward, 1);
    assert PhaseFrom(d1, s1, Cleanup, 0) == PhaseFrom(d1, s1, Cleanup, 1);
  }

  lemma ReplaceIsClean(start: Disk, mutationId: string, tmpKey: Path, storageKey: Path, bytes: Bytes, previous: Bytes)
    requires Ready(start, mutationId, tmpKey, storageKey, bytes, Some(previous))
    ensures var steps := PublishSteps(mutationId, tmpKey, storageKey, bytes, Some(previous));
            && Clean(start, steps)
            && Files(CleanPass(start, steps).result.disk) == Published(Files(start), tmpKey, storageKey, bytes)
  {
    var steps := PublishSteps(mutationId, tmpKey, storageKey, bytes, Some(previous));
    assert IsTree(start);
    PublishShape(mutationId, tmpKey, storageKey, bytes, previous);
    hide *;
    var d1, d2, d3, d4 := ReplaceRuns(start, mutationId, tmpKey, storageKey, bytes, previous);
    FourStepsClean(start, steps, d1, d2, d3, d4);
  }

  lemma PublishShape(mutationId: string, tmpKey: Path, storageKey: Path, bytes: Bytes, previous: Bytes)
    requires storageKey != []
    ensures IsPublish(PublishSteps(mutationId, tmpKey, storageKey, bytes, Some(previous)))
  {
  }

  predicate IsPublish(steps: seq<Step>) {
    && |steps| == 4 && Fresh(steps)
    && steps[0].action == steps[1].action == steps[2].action == Rename && steps[3].action == DeleteFile
  }

  lemma FourStepsClean(start: Disk, steps: seq<Step>, d1: Disk, d2: Disk, d3: Disk, d4: Disk)
    requires IsPublish(steps) && IsTree(start)
    requires ApplyStep(start, steps[0], false) == Done(d1) && ApplyStep(d1, steps[1], false) == Done(d2)
    requires ApplyStep(d2, steps[2], false) == Done(d3) && ApplyStep(d3, steps[3], false) == Done(d4)
    ensures Clean(start, steps) && CleanPass(start, steps).result == Done(d4)
  {
    hide ApplyStep, PhaseFrom, IsTree;
    PublishRunsForward(start, steps, d1, d2, d3);
    PublishRunsCleanup(d3, PhaseFrom(start, steps, Forward, 0).steps, d4);
  }

  /**
   * Whatever crashes and retries the mutation goes through, it never gets stuck,
   * and once it completes the new file is in place and the old one is gone.
   */
  lemma PublishSurvivesCrashes(start: Disk, mutationId: string, tmpKey: Path, storageKey: Path, bytes: Bytes,
    previous: Option<Bytes>, events: seq<Event>)
    requires Ready(start, mutationId, tmpKey, storageKey, bytes, previous)
    requires forall i :: 0 <= i < |events| ==> Attempts(events[i])
    ensures var r := RunOf(Begin(start, PublishSteps(mutationId, tmpKey, storageKey, bytes, previous)), events);
            && (r.status == Succeeded ==> Files(r.disk) == Published(Files(start), tmpKey, storageKey, bytes))
            && r.status != Recovering && r.status != Aborted
  {
    PublishIsClean(start, mutationId, tmpKey, storageKey, bytes, previous);
    NoTrees(mutationId, tmpKey, storageKey, bytes, previous);
    hide *;
    NeverStuck(start, PublishSteps(mutationId, tmpKey, storageKey, bytes, previous), events);
  }

  predicate DeletesNoTree(steps: seq<Step>) {
    forall i :: 0 <= i < |steps| ==> steps[i].action != DeleteTree
  }

  lemma NoTrees(mutationId: string, tmpKey: Path, storageKey: Path, bytes: Bytes, previous: Option<Bytes>)
    requires storageKey != []
    ensures DeletesNoTree(PublishSteps(mutationId, tmpKey, storageKey, bytes, previous))
  {
  }

  /** A plan that deletes no tree never needs an operator. */
  lemma NeverStuck(start: Disk, steps: seq<Step>, events: seq<Event>)
    requires Clean(start, steps) && DeletesNoTree(steps) && forall i :: 0 <= i < |events| ==> Attempts(events[i])
    ensures var r := RunOf(Begin(start, steps), events);
            && (r.status == Succeeded ==> r.disk == CleanPass(start, steps).result.disk)
            && r.status != Recovering && r.status != Aborted
  {
    CompletionIsClean(start, steps, events);
    hide Clean, RunOf, CleanPass, Owned, Begin;
  }
}
