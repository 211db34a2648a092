/**
 * When exactly a forward step is carried out, stopped or refused, and when
 * undoing one is, told from the disk and what the step was planned for.
 */
module Forwards {
  import opened Common
  import opened Paths
  import opened Disk
  import opened Steps
  import opened Effects
  import opened Deletes

  /** A rename is planned between two places, for a file or for a tree, with its fingerprint. */
  predicate Planned(step: Step) {
    && step.sourceKey.Some? && step.sourceKey.value != [] && step.targetKey.Some? && step.targetKey.value != []
    && (match step.expectedNodeType
        case Some(File) => step.expectedChecksum.Some?
        case Some(Folder) => step.treeManifestDigest.Some?
        case None => false)
  }

  /** What is at `at` is the file or the tree the rename was planned for. */
  ghost predicate IsTheOne(d: Disk, at: Path, step: Step)
    requires at in d
  {
    match d[at]
    case FileNode(bytes) =>
      && step.expectedNodeType == Some(File) && step.expectedChecksum == Some(bytes)
      && (step.expectedSizeBytes.None? || step.expectedSizeBytes == Some(|bytes|)) && step.treeManifestDigest.None?
    case DirNode =>
      && step.expectedNodeType == Some(Folder) && step.treeManifestDigest.Some?
      && Holds(d, at, step.treeManifestDigest.value)
      && (step.expectedSizeBytes.None? || step.expectedSizeBytes == Some(0)) && step.expectedChecksum.None?
  }

  lemma ValidIsTheOne(d: Disk, at: Path, step: Step)
    requires at in d && Planned(step)
    ensures ValidNode(d, at, step) <==> IsTheOne(d, at, step)
  {
    if step.treeManifestDigest.Some? { DigestSays(d, at, step.treeManifestDigest.value); }
    hide Contents, Holds;
  }

  /** No file stands on the way to either end. */
  predicate WaysAreFolders(d: Disk, source: Path, target: Path) {
    forall p <- d :: Above(p, source) || Above(p, target) ==> d[p] == DirNode
  }

  lemma WayIsFolders(d: Disk, source: Path, target: Path)
    ensures WaysAreFolders(d, source, target) <==> SafeAncestors(d, source) && SafeAncestors(d, target)
  {
    if SafeAncestors(d, source) && SafeAncestors(d, target) {
      forall p | p in d && (Above(p, source) || Above(p, target))
        ensures d[p] == DirNode
      {
        if Above(p, source) { SafeAt(d, source, p); } else { SafeAt(d, target, p); }
      }
    }
    if WaysAreFolders(d, source, target) {
      forall i | 0 < i < |source| && source[..i] in d ensures d[source[..i]] == DirNode {
        assert Above(source[..i], source);
      }
      forall i | 0 < i < |target| && target[..i] in d ensures d[target[..i]] == DirNode {
        assert Above(target[..i], target);
      }
    }
  }

  /** What is at `q` once the first `n` folders of `p` are there. */
  function Made(d: Disk, p: Path, n: nat, q: Path): Option<Node> {
    if q in d then Some(d[q]) else if q != [] && |q| <= n && Inside(q, p) then Some(DirNode) else None
  }

  lemma RenameVerdict(d: Disk, step: Step)
    requires Planned(step)
    ensures var source, target, r := step.sourceKey.value, step.targetKey.value, ApplyRename(d, step);
            var ready := WithFolders(d, target, |target| - 1);
            if !WaysAreFolders(d, source, target) || (source in d <==> target in d) then r == Ambiguous(d)
            else if target in d then r == if IsTheOne(d, target, step) then Done(d) else Ambiguous(d)
            else if !IsTheOne(d, source, step) then r == Ambiguous(d)
            else r == if Inside(source, target) then Refused(ready) else Done(Renamed(ready, source, target))
  {
    var source, target := step.sourceKey.value, step.targetKey.value;
    WayIsFolders(d, source, target);
    if source in d { ValidIsTheOne(d, source, step); }
    if target in d { ValidIsTheOne(d, target, step); }
    hide ValidNode, IsTheOne, WithFolders, Renamed, WaysAreFolders, SafeAncestors, Inside;
  }

  lemma RenameMoves(d: Disk, source: Path, target: Path)
    requires IsTree(d) && source in d && target !in d && source != [] && target != []
    ensures var ready := WithFolders(d, target, |target| - 1);
            && (forall q :: Lookup(ready, q) == Made(d, target, |target| - 1, q))
            && (!Inside(source, target) ==>
                  forall q :: Lookup(Renamed(ready, source, target), q) == After(Moves(source, target), d, q))
  {
    if Inside(target, source) { TreeUp(d, source, target); }
    forall q { WithFoldersAt(d, target, |target| - 1, q); }
    if !Inside(source, target) && !Inside(target, source) {
      forall q { RenamedMeans(d, source, target, q); }
    }
    hide WithFolders, Renamed, IsTree, After;
  }

  /** Exactly these renames are carried out, or found to be done; the others leave the disk to an operator. */
  lemma RenamesExactly(d: Disk, step: Step, owned: bool)
    requires IsTree(d) && step.action == Rename
    ensures var r := ApplyStep(d, step, owned);
            if !Planned(step) then r == Ambiguous(d)
            else
              var source, target := step.sourceKey.value, step.targetKey.value;
              if !WaysAreFolders(d, source, target) || (source in d <==> target in d) then r == Ambiguous(d)
              else if target in d then r == if IsTheOne(d, target, step) then Done(d) else Ambiguous(d)
              else if !IsTheOne(d, source, step) then r == Ambiguous(d)
              else if Inside(source, target) then
                r.Refused? && forall q :: Lookup(r.disk, q) == Made(d, target, |target| - 1, q)
              else r.Done? && forall q :: Lookup(r.disk, q) == After(Moves(source, target), d, q)
  {
    if Planned(step) {
      var source, target := step.sourceKey.value, step.targetKey.value;
      RenameVerdict(d, step);
      if source in d && target !in d { RenameMoves(d, source, target); }
      hide *;
      assert ApplyStep(d, step, owned) == ApplyRename(d, step) by { OfRename(d, step, owned); }
    }
  }

  lemma OfRename(d: Disk, step: Step, owned: bool)
    requires step.action == Rename
    ensures ApplyStep(d, step, owned) == ApplyRename(d, step)
  {
  }

  /** A folder is made where nothing is, and recognised by its digest where it is. */
  lemma MakesExactly(d: Disk, step: Step, owned: bool)
    requires step.action == Mkdir
    ensures var r := ApplyStep(d, step, owned);
            if step.targetKey.None? || step.targetKey.value == [] || step.treeManifestDigest.None?
            then r == Ambiguous(d)
            else
              var target := step.targetKey.value;
              if !WaysAreFolders(d, target, target) then r == Ambiguous(d)
              else if target !in d then
                r.Done? && forall q :: Lookup(r.disk, q) == Made(d, target, |target|, q)
              else if d[target] == DirNode && Holds(d, target, step.treeManifestDigest.value) then r == Done(d)
              else r == Ambiguous(d)
  {
    if step.targetKey.Some? && step.treeManifestDigest.Some? {
      var target := step.targetKey.value;
      WayIsFolders(d, target, target);
      DigestSays(d, target, step.treeManifestDigest.value);
      forall q { WithFoldersAt(d, target, |target|, q); }
      hide Holds, Contents, WithFolders, WaysAreFolders, SafeAncestors;
    }
  }

  /** Undoing touches only marked forward steps: a rename goes the other way, a made folder goes if it is empty. */
  lemma UndoesExactly(d: Disk, step: Step)
    ensures var r := UndoStep(d, step);
            if !step.applied || IsCleanup(step.action) then r == Done(d)
            else if step.action == Rename then
              r == ApplyStep(d, step.(sourceKey := step.targetKey, targetKey := step.sourceKey), false)
            else if step.targetKey.None? then r == Done(d)
            else
              var at := step.targetKey.value;
              if at == [] || !WaysAreFolders(d, at, at) then r == Ambiguous(d)
              else if at !in d then r == Done(d)
              else if d[at].FileNode? then r == Refused(d)
              else if exists p <- d :: p != at && Inside(at, p) then r == Ambiguous(d)
              else r.Done? && forall q :: Lookup(r.disk, q) == if q == at then None else Lookup(d, q)
  {
    if step.targetKey.Some? && step.action == Mkdir { WayIsFolders(d, step.targetKey.value, step.targetKey.value); }
    hide WaysAreFolders, SafeAncestors, ApplyRename;
  }
}
