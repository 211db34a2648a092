/** No forward or undo step loses, copies or changes the contents of any file. */
module Conservation {
  import opened Common
  import opened Paths
  import opened Disk
  import opened Steps
  import opened Effects

  /** The contents of the files at these paths, counted. */
  ghost function BagOf(at: set<Path>, files: map<Path, Bytes>): multiset<Bytes>
    requires at <= files.Keys
  {
    if at == {} then multiset{}
    else
      var p :| p in at;
      multiset{files[p]} + BagOf(at - {p}, files)
  }

  /** All file contents, counted. */
  ghost function Bag(files: map<Path, Bytes>): multiset<Bytes> {
    BagOf(files.Keys, files)
  }

  lemma {:induction false} BagPick(at: set<Path>, files: map<Path, Bytes>, k: Path)
    requires at <= files.Keys && k in at
    ensures BagOf(at, files) == multiset{files[k]} + BagOf(at - {k}, files)
  {
    var p :| p in at && BagOf(at, files) == multiset{files[p]} + BagOf(at - {p}, files);
    if p != k {
      BagPick(at - {p}, files, k);
      BagPick(at - {k}, files, p);
      assert at - {p} - {k} == at - {k} - {p};
    }
  }

  /** `to` takes the files at `at`, one to one, to the moved files at `onto`. */
  ghost predicate Carries(at: set<Path>, files: map<Path, Bytes>, onto: set<Path>, moved: map<Path, Bytes>,
    to: map<Path, Path>)
  {
    && at <= files.Keys && onto <= moved.Keys && at <= to.Keys
    && (forall p <- at :: to[p] in onto && moved[to[p]] == files[p])
    && (forall p <- at, q <- at :: to[p] == to[q] ==> p == q)
    && (forall q <- onto :: exists p :: p in at && to[p] == q)
  }

  /** A one-to-one renaming of the paths keeps the contents. */
  lemma {:induction false} BagMoved(at: set<Path>, files: map<Path, Bytes>, onto: set<Path>,
    moved: map<Path, Bytes>, to: map<Path, Path>)
    requires Carries(at, files, onto, moved, to)
    ensures BagOf(onto, moved) == BagOf(at, files)
    decreases at
  {
    if at == {} {
      assert onto == {};
    } else {
      var p :| p in at;
      BagPick(at, files, p);
      BagPick(onto, moved, to[p]);
      assert Carries(at - {p}, files, onto - {to[p]}, moved, to);
      BagMoved(at - {p}, files, onto - {to[p]}, moved, to);
    }
  }

  lemma FilesAt(d: Disk, p: Path)
    ensures p in Files(d) <==> Lookup(d, p).Some? && Lookup(d, p).value.FileNode?
    ensures p in Files(d) ==> FileNode(Files(d)[p]) == Lookup(d, p).value
  {
  }

  lemma OnlyFolders(d: Disk, d': Disk)
    requires forall q :: Lookup(d', q) == Lookup(d, q) || (Lookup(d, q).None? && Lookup(d', q) == Some(DirNode))
                         || (Lookup(d', q).None? && Lookup(d, q) == Some(DirNode))
    ensures Files(d') == Files(d)
  {
    forall q
      ensures q in Files(d) <==> q in Files(d')
      ensures q in Files(d) ==> Files(d)[q] == Files(d')[q]
    {
      FilesAt(d, q);
      FilesAt(d', q);
      assert Lookup(d', q) == Lookup(d, q) || Lookup(d', q).None? || Lookup(d, q).None?;
    }
  }

  function Target(source: Path, target: Path, p: Path): Path {
    if Inside(source, p) then target + p[|source|..] else p
  }

  lemma MoveKeepsBytes(d: Disk, e: Effect, d': Disk)
    requires IsTree(d) && Fitting(e, d) && e.Moves?
    requires forall q :: Lookup(d', q) == After(e, d, q)
    ensures Bag(Files(d')) == Bag(Files(d))
  {
    var s, t := e.source, e.target;
    var to := map p | p in Files(d) :: Target(s, t, p);
    forall p | p in Files(d)
      ensures to[p] in Files(d') && Files(d')[to[p]] == Files(d)[p]
    {
      TargetAt(d, e, p);
      assert Lookup(d', to[p]) == After(e, d, to[p]);
    }
    forall p, q | p in Files(d) && q in Files(d) && to[p] == to[q]
      ensures p == q
    {
      TargetOnce(d, e, p, q);
    }
    forall q | q in Files(d')
      ensures exists p :: p in Files(d) && to[p] == q
    {
      assert Lookup(d', q) == After(e, d, q);
      var o := if Inside(t, q) then s + q[|t|..] else q;
      if Inside(t, q) { assert o[..|s|] == s && t + o[|s|..] == q; }
      assert o in Files(d) && to[o] == q;
    }
    BagMoved(Files(d).Keys, Files(d), Files(d').Keys, Files(d'), to);
  }

  lemma TargetAt(d: Disk, e: Effect, p: Path)
    requires IsTree(d) && Fitting(e, d) && e.Moves? && p in d
    ensures After(e, d, Target(e.source, e.target, p)) == Some(d[p])
  {
    var s, t := e.source, e.target;
    if Inside(s, p) {
      var q := t + p[|s|..];
      assert q[..|t|] == t && q[|t|..] == p[|s|..] && s + p[|s|..] == p;
    } else if Inside(t, p) {
      TreeUp(d, p, t);
    }
  }

  lemma TargetOnce(d: Disk, e: Effect, p: Path, q: Path)
    requires IsTree(d) && Fitting(e, d) && e.Moves? && p in d && q in d
    requires Target(e.source, e.target, p) == Target(e.source, e.target, q)
    ensures p == q
  {
    var s, t := e.source, e.target;
    if Inside(t, p) { TreeUp(d, p, t); }
    if Inside(t, q) { TreeUp(d, q, t); }
    assert (t + p[if |s| <= |p| then |s| else 0..])[..|t|] == t;
    assert (t + q[if |s| <= |q| then |s| else 0..])[..|t|] == t;
    if Inside(s, p) && Inside(s, q) {
      assert p == s + p[|s|..] && q == s + q[|s|..];
      assert (t + p[|s|..])[|t|..] == p[|s|..] && (t + q[|s|..])[|t|..] == q[|s|..];
    }
  }

  lemma EffectKeepsBytes(d: Disk, e: Effect, d': Disk)
    requires IsTree(d) && Fitting(e, d)
    requires forall q :: Lookup(d', q) == After(e, d, q)
    ensures Bag(Files(d')) == Bag(Files(d))
  {
    if e.Moves? {
      MoveKeepsBytes(d, e, d');
    } else {
      forall q
        ensures Lookup(d', q) == Lookup(d, q) || (Lookup(d, q).None? && Lookup(d', q) == Some(DirNode))
      {
        assert Lookup(d', q) == After(e, d, q);
      }
      OnlyFolders(d, d');
    }
  }

  /** However a forward step ends, the disk holds the same contents. */
  lemma ForwardKeepsBytes(d: Disk, step: Step, owned: bool)
    requires IsTree(d) && !IsCleanup(step.action)
    ensures Bag(Files(ApplyStep(d, step, owned).disk)) == Bag(Files(d))
  {
    hide Bag, Files, IsTree;
    var r := ApplyStep(d, step, owned);
    if r.Done? {
      DoneMeans(d, step, owned);
      EffectKeepsBytes(d, EffectOf(d, step), r.disk);
    } else if r.Refused? {
      FoldersKeepFiles(d, step.targetKey.value, |step.targetKey.value| - 1);
    }
  }

  lemma FoldersKeepFiles(d: Disk, p: Path, upTo: nat)
    ensures Files(WithFolders(d, p, upTo)) == Files(d)
  {
    forall q { WithFoldersAt(d, p, upTo, q); }
    OnlyFolders(d, WithFolders(d, p, upTo));
  }

  /** Undoing a step never removes a file or a folder with something in it. */
  lemma UndoKeepsBytes(d: Disk, step: Step)
    requires IsTree(d)
    ensures Bag(Files(UndoStep(d, step).disk)) == Bag(Files(d))
    ensures forall p <- d :: !IsEmpty(d, p) && !(step.action == Rename && step.applied) ==>
              p in UndoStep(d, step).disk
  {
    if step.applied && step.action == Rename {
      ForwardKeepsBytes(d, Swapped(step), false);
    } else if step.applied && step.action == Mkdir && UndoStep(d, step).disk != d {
      var at := step.targetKey.value;
      var d' := Without(d, at);
      forall q
        ensures Lookup(d', q) == Lookup(d, q) || (Lookup(d', q).None? && Lookup(d, q) == Some(DirNode))
      {
      }
      OnlyFolders(d, d');
    }
  }
}
