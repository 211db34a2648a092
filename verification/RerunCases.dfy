/**
 * Undo run again in single cases: moves there and back, a return in pieces,
 * and nested paths.
 */
module RerunCases {
  import opened Common
  import opened Paths
  import opened Disk
  import opened Steps
  import opened Effects
  import opened Interrupted
  import opened Recovery
  import opened Rollback
  import opened Rerun

  // ---------------------------------------------------------------------------- there and back

  /** One move and its reverse, in turn, any number of times. */
  predicate Swaps(steps: seq<Step>) {
    && (forall i :: 0 <= i < |steps| ==> steps[i].action == Rename && steps[i].applied)
    && (forall i :: 0 <= i < |steps| - 1 ==> steps[i + 1] == Swapped(steps[i]))
  }

  lemma ThereAndBack(d: Disk, away: Step, u: Disk, r: Disk)
    requires away.action == Rename && Undoes(d, Swapped(away), u) && Undoes(u, away, r)
    ensures r == d
  {
    var s, t := away.sourceKey.value, away.targetKey.value;
    forall q
      ensures Lookup(r, q) == Lookup(d, q)
    {
      if Inside(s, q) {
        var o := t + q[|s|..];
        assert Inside(t, o) && s + o[|t|..] == q;
        assert Lookup(r, q) == Lookup(u, o) == Lookup(d, q);
      } else if Inside(t, q) && q in d {
        TreeUp(d, q, t);
      }
    }
    SameDisk(r, d);
  }

  /** Each level is one of the first two, by turns. */
  lemma {:induction false} LevelsSwap(start: Disk, steps: seq<Step>, left: iset<Path>, d: Disk, m: nat)
    requires Swaps(steps) && m < |steps| && Setting(start, steps, left) && Level(start, steps, left, |steps|, d)
    ensures UndoneDownTo(d, steps, |steps|, m).Done?
    ensures var u := UndoStep(d, steps[|steps| - 1]).disk;
            UndoneDownTo(d, steps, |steps|, m).disk == if (|steps| - m) % 2 == 0 then d else u
    decreases |steps| - m
  {
    var n := |steps|;
    hide Setting, Level, UndoStep;
    OneDeeper(d, steps, n, m);
    Rerun.Levels(start, steps, left, d, m);
    if m + 1 < n {
      LevelsSwap(start, steps, left, d, m + 1);
      if m + 2 < n { LevelsSwap(start, steps, left, d, m + 2); }
      TwoLevels(start, steps, left, d, m);
    } else {
      assert UndoneDownTo(d, steps, n, n) == Done(d);
    }
  }

  lemma TwoLevels(start: Disk, steps: seq<Step>, left: iset<Path>, d: Disk, m: nat)
    requires Swaps(steps) && m + 1 < |steps| && Setting(start, steps, left) && Level(start, steps, left, |steps|, d)
    requires UndoneDownTo(d, steps, |steps|, m).Done? && UndoneDownTo(d, steps, |steps|, m + 2).Done?
    ensures UndoneDownTo(d, steps, |steps|, m).disk == UndoneDownTo(d, steps, |steps|, m + 2).disk
  {
    assert steps[m + 1] == Swapped(steps[m]) && ToUndo(steps[m]) && ToUndo(steps[m + 1]) && steps[m].action == Rename;
    hide *;
    OneLevelUndoes(start, steps, left, d, m);
    OneLevelUndoes(start, steps, left, d, m + 1);
    var u := UndoneDownTo(d, steps, |steps|, m + 1).disk;
    ThereAndBack(UndoneDownTo(d, steps, |steps|, m + 2).disk, steps[m], u, UndoneDownTo(d, steps, |steps|, m).disk);
  }

  lemma OneLevelUndoes(start: Disk, steps: seq<Step>, left: iset<Path>, d: Disk, k: nat)
    requires Setting(start, steps, left) && Level(start, steps, left, |steps|, d) && k < |steps| && ToUndo(steps[k])
    ensures UndoneDownTo(d, steps, |steps|, k).Done? && UndoneDownTo(d, steps, |steps|, k + 1).Done?
    ensures Undoes(UndoneDownTo(d, steps, |steps|, k + 1).disk, steps[k], UndoneDownTo(d, steps, |steps|, k).disk)
  {
    hide *;
    Rerun.Levels(start, steps, left, d, k);
    Rerun.Levels(start, steps, left, d, k + 1);
    OneDeeper(d, steps, |steps|, k);
    LevelUndoes(start, steps, left, k, UndoneDownTo(d, steps, |steps|, k + 1).disk);
  }

  /** However often something goes there and back, the undo may be cut off and run again anywhere. */
  lemma SwapsRerun(start: Disk, steps: seq<Step>, left: iset<Path>, d: Disk)
    requires Swaps(steps) && Setting(start, steps, left) && IsTree(d) && Plus(Ran(start, steps, |steps|), left, d)
    ensures RerunsTheSame(d, steps)
  {
    var n := |steps|;
    AtLast(start, steps, left, d);
    forall m | 0 <= m <= n && UndoneDownTo(d, steps, n, m).Done?
      ensures Undone(UndoneDownTo(d, steps, n, m).disk, steps, n) == Undone(d, steps, n)
    {
      if m < n {
        LevelsSwap(start, steps, left, d, m);
        LevelDown(start, steps, left, n - 1, d);
        UndoneOnce(d, steps[n - 1]);
      }
    }
    hide Setting, Level, UndoStep, IsTree, Plus, Ran, IsUndone;
  }

  /** A move and the move back disturb each other, and yet their undo may be run again. */
  lemma RoundTripReruns(start: Disk, away: Step, left: iset<Path>, d: Disk)
    requires away.action == Rename && away.applied
    requires Setting(start, [away, Swapped(away)], left) && IsTree(d) &&
             Plus(Ran(start, [away, Swapped(away)], 2), left, d)
    ensures var steps := [away, Swapped(away)]; !NothingDisturbs(steps, 0) && RerunsTheSame(d, steps)
  {
    RoundTripSwaps(away);
    hide *;
    RoundTripOf(start, [away, Swapped(away)], left, d);
  }

  lemma RoundTripSwaps(away: Step)
    requires away.action == Rename && away.applied
    ensures Swaps([away, Swapped(away)])
  {
  }

  lemma RoundTripOf(start: Disk, steps: seq<Step>, left: iset<Path>, d: Disk)
    requires |steps| == 2 && Swaps(steps)
    requires Setting(start, steps, left) && IsTree(d) && Plus(Ran(start, steps, |steps|), left, d)
    ensures !NothingDisturbs(steps, 0) && RerunsTheSame(d, steps)
  {
    assert ToUndo(steps[0]) && ToUndo(steps[1]);
    hide *;
    FirstChanges(start, steps, left);
    RoundTripDisturbs(start, steps);
    SwapsRerun(start, steps, left, d);
  }

  lemma FirstChanges(start: Disk, steps: seq<Step>, left: iset<Path>)
    requires Setting(start, steps, left) && steps != [] && ToUndo(steps[0])
    ensures Changes(start, steps[0])
  {
    assert Ran(start, steps, 0) == start;
    hide Changes, NothingInTheWay, IsTree;
  }

  lemma RoundTripDisturbs(d: Disk, steps: seq<Step>)
    requires |steps| == 2 && Swaps(steps) && ToUndo(steps[0]) && ToUndo(steps[1]) && Changes(d, steps[0])
    ensures !NothingDisturbs(steps, 0)
  {
    assert steps[0].sourceKey.Some? && steps[1] == Swapped(steps[0]);
    assert Disturbs(steps[0], steps[1]);
  }

  // ---------------------------------------------------------------------------- in pieces

  /** A disk of folders only. */
  function Folders(paths: set<Path>): Disk {
    map p | p in paths :: DirNode
  }

  const BF: Path := ["b", "f"]

  /** A folder is moved, what is in it is moved to its place, and a folder is made there as it was at first. */
  const WHOLE := MoveOf(A, B, None, Some(Folders({["f"]})))
  const PIECE := MoveOf(BF, A, None, Some(map[]))
  const AGAIN := Step(Mkdir, None, Some(AF), Some(Folder), None, None, Some(map[]), true)
  const PIECES := [WHOLE, PIECE, AGAIN]

  /** A folder's move between disks of folders; `rel` is what is in it. */
  lemma FoldersMove(ps: set<Path>, step: Step, rel: set<Path>, qs: set<Path>)
    requires step.action == Rename && RenameIntent(step) && step.expectedNodeType == Some(Folder)
    requires step.expectedSizeBytes == None && step.expectedChecksum == None
    requires var s, t := step.sourceKey.value, step.targetKey.value;
             && IsTree(Folders(ps)) && s in ps && t !in ps && Apart(s, t)
             && step.treeManifestDigest == Some(Folders(rel)) && (forall q :: q in rel <==> q != [] && s + q in ps)
             && forall q :: q in qs <==> MovedTo(ps, s, t, q)
    ensures ApplyRename(Folders(ps), step) == Done(Folders(qs))
  {
    var d, e := Folders(ps), Moves(step.sourceKey.value, step.targetKey.value);
    forall q
      ensures Lookup(Contents(d, e.source), q) == Lookup(Folders(rel), q)
    {
      ContentsAt(d, e.source, q);
    }
    SameDisk(Contents(d, e.source), Folders(rel));
    MoveWorks(d, step);
    forall q
      ensures Lookup(ApplyRename(d, step).disk, q) == Lookup(Folders(qs), q)
    {
      assert Lookup(ApplyRename(d, step).disk, q) == After(e, d, q);
    }
    SameDisk(ApplyRename(d, step).disk, Folders(qs));
  }

  predicate MovedTo(ps: set<Path>, s: Path, t: Path, q: Path) {
    if Inside(t, q) then s + q[|t|..] in ps else !Inside(s, q) && (q in ps || Above(q, t))
  }

  /** The four places, told apart. */
  lemma Places()
    ensures A[0] != B[0] && AF == A + ["f"] && BF == B + ["f"] && AF[..1] == A && BF[..1] == B
    ensures |A| == |B| == 1 && |AF| == |BF| == 2 && AF[0] == A[0] && BF[0] == B[0]
  {
  }

  lemma TreeOf(ps: set<Path>)
    requires ps in {{A, AF}, {B, BF}, {A, B}, {A, AF, B}, {A}}
    ensures IsTree(Folders(ps))
  {
    Places();
  }

  lemma Below(top: Path, q: Path)
    ensures top + q == top <==> q == []
    ensures top + q == top + ["f"] <==> q == ["f"]
    ensures q != [] && top != [] ==> (top + q)[0] == top[0]
    ensures Inside(top, top + q) && (top + q)[|top|..] == q
  {
    assert (top + q)[|top|..] == q && (top + ["f"])[|top|..] == ["f"];
  }

  lemma BelowBack(top: Path, q: Path)
    requires Inside(top, q)
    ensures q == top + q[|top|..]
  {
  }

  lemma WholeGoes()
    ensures ApplyRename(Folders({A, AF}), WHOLE) == Done(Folders({B, BF}))
  {
    Places();
    TreeOf({A, AF});
    forall q ensures q in {["f"]} <==> q != [] && A + q in {A, AF} { Below(A, q); }
    forall q ensures q in {B, BF} <==> MovedTo({A, AF}, A, B, q) {
      if Inside(B, q) { BelowBack(B, q); Below(A, q[1..]); Below(B, q[1..]); }
    }
    hide ApplyRename, Folders, MovedTo;
    FoldersMove({A, AF}, WHOLE, {["f"]}, {B, BF});
  }

  lemma WholeReturns()
    ensures ApplyRename(Folders({B, BF}), Swapped(WHOLE)) == Done(Folders({A, AF}))
  {
    Places();
    TreeOf({B, BF});
    forall q ensures q in {["f"]} <==> q != [] && B + q in {B, BF} { Below(B, q); }
    forall q ensures q in {A, AF} <==> MovedTo({B, BF}, B, A, q) {
      if Inside(A, q) { BelowBack(A, q); Below(B, q[1..]); Below(A, q[1..]); }
    }
    hide ApplyRename, Folders, MovedTo;
    FoldersMove({B, BF}, Swapped(WHOLE), {["f"]}, {A, AF});
  }

  lemma PieceGoes()
    ensures ApplyRename(Folders({B, BF}), PIECE) == Done(Folders({A, B}))
  {
    Places();
    TreeOf({B, BF});
    assert Folders({}) == map[];
    forall q ensures q !in {} && !(q != [] && BF + q in {B, BF}) { Below(BF, q); }
    forall q ensures q in {A, B} <==> MovedTo({B, BF}, BF, A, q) {
      if Inside(A, q) { BelowBack(A, q); Below(BF, q[1..]); Below(A, q[1..]); }
    }
    hide ApplyRename, Folders, MovedTo;
    FoldersMove({B, BF}, PIECE, {}, {A, B});
  }

  /** The piece goes back whether or not the folder it was taken from is still there. */
  lemma PieceReturns(ps: set<Path>)
    requires ps == {A, B} || ps == {A}
    ensures ApplyRename(Folders(ps), Swapped(PIECE)) == Done(Folders({B, BF}))
  {
    Places();
    TreeOf(ps);
    assert Folders({}) == map[];
    forall q ensures q !in {} && !(q != [] && A + q in ps) { Below(A, q); }
    forall q ensures q in {B, BF} <==> MovedTo(ps, A, BF, q) {
      if Inside(BF, q) { BelowBack(BF, q); Below(A, q[2..]); Below(BF, q[2..]); }
      if Above(q, BF) { assert q == BF[..|q|]; }
    }
    hide ApplyRename, Folders, MovedTo;
    FoldersMove(ps, Swapped(PIECE), {}, {B, BF});
  }

  lemma PieceIsBack()
    ensures ApplyRename(Folders({B, BF}), Swapped(PIECE)) == Done(Folders({B, BF}))
  {
    Places();
    TreeOf({A, B});
    PieceReturns({A, B});
    hide ApplyRename, Folders;
    ReplayRename(Folders({A, B}), Swapped(PIECE));
  }

  lemma AgainMakes()
    ensures ApplyMkdir(Folders({A, B}), AGAIN) == Done(Folders({A, AF, B}))
  {
    Places();
    forall q
      ensures Lookup(WithFolders(Folders({A, B}), AF, 2), q) == Lookup(Folders({A, AF, B}), q)
    {
      WithFoldersAt(Folders({A, B}), AF, 2, q);
      OnTheWay(q);
    }
    SameDisk(WithFolders(Folders({A, B}), AF, 2), Folders({A, AF, B}));
  }

  lemma OnTheWay(q: Path)
    ensures q != [] && |q| <= 2 && Inside(q, AF) <==> q == A || q == AF
  {
    Places();
    if q != [] && Inside(q, AF) && |q| <= 2 { assert q == AF[..|q|]; }
  }

  lemma AgainUnmakes()
    ensures UndoMkdir(Folders({A, AF, B}), AGAIN) == Done(Folders({A, B}))
    ensures UndoMkdir(Folders({A, AF}), AGAIN) == Done(Folders({A}))
  {
    Places();
    assert forall q :: Inside(AF, q) && |q| <= 2 ==> q == AF;
    assert Without(Folders({A, AF, B}), AF) == Folders({A, B});
    assert Without(Folders({A, AF}), AF) == Folders({A});
  }

  lemma NothingToUnmake()
    ensures UndoMkdir(Folders({A, B}), AGAIN) == Done(Folders({A, B}))
    ensures UndoMkdir(Folders({B, BF}), AGAIN) == Done(Folders({B, BF}))
  {
    Places();
  }

  lemma PiecesSetting()
    ensures var start := Folders({A, AF});
            && Setting(start, PIECES, iset{}) && Ran(start, PIECES, 3) == Folders({A, AF, B})
  {
    TreeOf({A, AF});
    WholeGoes();
    PieceGoes();
    AgainMakes();
    PiecesChange();
    hide ApplyRename, ApplyMkdir, EffectOf, IsTree, Folders;
    var steps := PIECES;
    assert |steps| == 3 && steps[0] == WHOLE && steps[1] == PIECE && steps[2] == AGAIN;
    assert ToUndo(steps[0]) && ToUndo(steps[1]) && ToUndo(steps[2]);
    PiecesRan(steps, Folders({A, AF}), Folders({B, BF}), Folders({A, B}), Folders({A, AF, B}));
    PiecesClear(Folders({A, AF}), Folders({B, BF}), Folders({A, B}));
    hide ApplyStep, NothingInTheWay, Ran, Changes;
  }

  lemma PiecesRan(steps: seq<Step>, start: Disk, w1: Disk, w2: Disk, w3: Disk)
    requires |steps| == 3 && ToUndo(steps[0]) && ToUndo(steps[1]) && ToUndo(steps[2])
    requires ApplyStep(start, steps[0], false) == Done(w1) && ApplyStep(w1, steps[1], false) == Done(w2)
    requires ApplyStep(w2, steps[2], false) == Done(w3)
    requires EffectOf(start, steps[0]) != Nothing && EffectOf(w1, steps[1]) != Nothing &&
             EffectOf(w2, steps[2]) != Nothing
    ensures Ran(start, steps, 0) == start && Ran(start, steps, 1) == w1 && Ran(start, steps, 2) == w2
    ensures Ran(start, steps, 3) == w3 && AllChanged(start, steps)
  {
    hide ApplyStep, EffectOf;
    assert Ran(start, steps, 0) == start && Ran(start, steps, 1) == w1;
    assert Ran(start, steps, 2) == w2 && Ran(start, steps, 3) == w3;
  }

  lemma PiecesChange()
    ensures EffectOf(Folders({A, AF}), WHOLE) != Nothing && EffectOf(Folders({B, BF}), PIECE) != Nothing
    ensures EffectOf(Folders({A, B}), AGAIN) != Nothing
  {
    Places();
  }

  lemma PiecesClear(start: Disk, w1: Disk, w2: Disk)
    requires Ran(start, PIECES, 0) == start && Ran(start, PIECES, 1) == w1 && Ran(start, PIECES, 2) == w2
    requires w2 == Folders({A, B})
    ensures NothingInTheWay(start, PIECES, 3, iset{})
  {
    Places();
    assert MadeFrom(start, PIECES, 3, iset{}) == iset{};
    forall q ensures q !in Made(w2, AGAIN) { if Above(q, AF) { assert q == AF[..|q|]; } }
    forall q ensures q !in Made(w1, PIECE) { }
    assert MadeFrom(start, PIECES, 2, iset{}) == iset{};
    assert MadeFrom(start, PIECES, 1, iset{}) == iset{};
  }

  /** Nothing is moved just back to where it came from, and yet the undo may be run again anywhere. */
  lemma PiecesRerun()
    ensures var start, d := Folders({A, AF}), Folders({A, AF, B});
            && Setting(start, PIECES, iset{}) && d == Ran(start, PIECES, 3)
            && !NothingDisturbs(PIECES, 0) && (forall e, l | 0 <= e < l < 3 :: PIECES[l] != Swapped(PIECES[e]))
            && RerunsTheSame(d, PIECES)
  {
    PiecesSetting();
    WholeReturns();
    PieceReturns({A, B});
    PieceReturns({A});
    PieceIsBack();
    AgainUnmakes();
    NothingToUnmake();
    PiecesDisturb();
    hide ApplyRename, UndoMkdir, Setting, Ran, Folders, NothingDisturbs;
    PiecesCuts(Folders({A, AF}), Folders({B, BF}), Folders({A, B}), Folders({A, AF, B}), Folders({A}));
  }

  lemma PiecesDisturb()
    ensures !NothingDisturbs(PIECES, 0) && forall e, l | 0 <= e < l < 3 :: PIECES[l] != Swapped(PIECES[e])
  {
    Places();
    assert Disturbs(PIECES[0], PIECES[1]);
  }

  lemma PiecesCuts(w0: Disk, w1: Disk, w2: Disk, w3: Disk, w4: Disk)
    requires ApplyRename(w1, Swapped(WHOLE)) == Done(w0) && ApplyRename(w2, Swapped(PIECE)) == Done(w1)
    requires ApplyRename(w4, Swapped(PIECE)) == Done(w1) && ApplyRename(w1, Swapped(PIECE)) == Done(w1)
    requires UndoMkdir(w3, AGAIN) == Done(w2) && UndoMkdir(w0, AGAIN) == Done(w4)
    requires UndoMkdir(w2, AGAIN) == Done(w2) && UndoMkdir(w1, AGAIN) == Done(w1)
    ensures RerunsTheSame(w3, PIECES)
  {
    hide ApplyRename, UndoMkdir;
    assert UndoStep(w3, PIECES[2]) == Done(w2) && UndoStep(w2, PIECES[1]) == Done(w1) &&
        UndoStep(w1, PIECES[0]) == Done(w0);
    assert UndoStep(w0, PIECES[2]) == Done(w4) && UndoStep(w4, PIECES[1]) == Done(w1);
    assert UndoStep(w1, PIECES[2]) == Done(w1) && UndoStep(w1, PIECES[1]) == Done(w1) &&
        UndoStep(w2, PIECES[2]) == Done(w2);
    hide UndoStep;
    forall m | 0 <= m <= 3 && UndoneDownTo(w3, PIECES, 3, m).Done?
      ensures Undone(UndoneDownTo(w3, PIECES, 3, m).disk, PIECES, 3) == Undone(w3, PIECES, 3)
    {
      var rest := Undone(w1, PIECES, 1);
      assert Undone(w3, PIECES, 3) == Undone(w2, PIECES, 2) == rest;
      assert Undone(w2, PIECES, 3) == Undone(w2, PIECES, 2);
      assert Undone(w1, PIECES, 3) == Undone(w1, PIECES, 2) == rest;
      assert Undone(w0, PIECES, 3) == Undone(w4, PIECES, 2) == rest;
      assert UndoneDownTo(w3, PIECES, 3, 3) == Done(w3);
      assert UndoneDownTo(w3, PIECES, 3, 2) == UndoneDownTo(w2, PIECES, 2, 2) == Done(w2);
      assert UndoneDownTo(w3, PIECES, 3, 1) == UndoneDownTo(w2, PIECES, 2, 1) == UndoneDownTo(w1, PIECES, 1, 1) ==
          Done(w1);
      assert UndoneDownTo(w3, PIECES, 3, 0) == UndoneDownTo(w2, PIECES, 2, 0) == UndoneDownTo(w1, PIECES, 1, 0)
             == UndoneDownTo(w0, PIECES, 0, 0) == Done(w0);
    }
  }

  // ------------------------------------------------------------ the paths alone do not decide

  const AG: Path := ["a", "g"]
  const BG: Path := ["b", "g"]

  /** The same moves, of a folder that has one thing more in it. */
  const FULLER := MoveOf(A, B, None, Some(Folders({["f"], ["g"]})))
  const FULLER_PIECES := [FULLER, PIECE, AGAIN]

  lemma MorePlaces()
    ensures AG == A + ["g"] && BG == B + ["g"] && AG[..1] == A && BG[..1] == B && |AG| == |BG| == 2
    ensures AG[0] == A[0] && BG[0] == B[0] && AG != AF && BG != BF && "f"[0] != "g"[0]
  {
    assert AG[1][0] != AF[1][0] && BG[1][0] != BF[1][0];
  }

  lemma FullerTreeOf(ps: set<Path>)
    requires ps in {{A, AF, AG}, {B, BF, BG}, {A, B, BG}, {A, AF, B, BG}, {A, AG}}
    ensures IsTree(Folders(ps))
  {
    Places();
    MorePlaces();
  }

  lemma BelowMore(top: Path, q: Path)
    ensures top + q == top + ["g"] <==> q == ["g"]
  {
    assert (top + q)[|top|..] == q && (top + ["g"])[|top|..] == ["g"];
  }

  lemma FullerGoes()
    ensures ApplyRename(Folders({A, AF, AG}), FULLER) == Done(Folders({B, BF, BG}))
  {
    Places();
    MorePlaces();
    FullerTreeOf({A, AF, AG});
    forall q ensures q in {["f"], ["g"]} <==> q != [] && A + q in {A, AF, AG} { Below(A, q); BelowMore(A, q); }
    forall q ensures q in {B, BF, BG} <==> MovedTo({A, AF, AG}, A, B, q) {
      if Inside(B, q) {
        BelowBack(B, q);
        Below(A, q[1..]);
        Below(B, q[1..]);
        BelowMore(A, q[1..]);
        BelowMore(B, q[1..]);
      }
    }
    hide ApplyRename, Folders, MovedTo;
    FoldersMove({A, AF, AG}, FULLER, {["f"], ["g"]}, {B, BF, BG});
  }

  lemma FullerPieceGoes()
    ensures ApplyRename(Folders({B, BF, BG}), PIECE) == Done(Folders({A, B, BG}))
  {
    Places();
    MorePlaces();
    FullerTreeOf({B, BF, BG});
    assert Folders({}) == map[];
    forall q ensures q !in {} && !(q != [] && BF + q in {B, BF, BG}) {
      Below(BF, q);
      assert q != [] ==> |BF + q| > 2;
    }
    forall q ensures q in {A, B, BG} <==> MovedTo({B, BF, BG}, BF, A, q) {
      if Inside(A, q) {
        BelowBack(A, q);
        Below(BF, q[1..]);
        assert q != A ==> |BF + q[1..]| > 2;
      }
    }
    hide ApplyRename, Folders, MovedTo;
    FoldersMove({B, BF, BG}, PIECE, {}, {A, B, BG});
  }

  lemma FullerAgainMakes()
    ensures ApplyMkdir(Folders({A, B, BG}), AGAIN) == Done(Folders({A, AF, B, BG}))
  {
    Places();
    MorePlaces();
    forall q
      ensures Lookup(WithFolders(Folders({A, B, BG}), AF, 2), q) == Lookup(Folders({A, AF, B, BG}), q)
    {
      WithFoldersAt(Folders({A, B, BG}), AF, 2, q);
      OnTheWay(q);
    }
    SameDisk(WithFolders(Folders({A, B, BG}), AF, 2), Folders({A, AF, B, BG}));
  }

  lemma FullerSetting()
    ensures var start := Folders({A, AF, AG});
            && Setting(start, FULLER_PIECES, iset{}) && Ran(start, FULLER_PIECES, 3) == Folders({A, AF, B, BG})
  {
    FullerTreeOf({A, AF, AG});
    FullerGoes();
    FullerPieceGoes();
    FullerAgainMakes();
    FullerChange();
    hide ApplyRename, ApplyMkdir, EffectOf, IsTree, Folders;
    var steps := FULLER_PIECES;
    assert |steps| == 3 && steps[0] == FULLER && steps[1] == PIECE && steps[2] == AGAIN;
    assert ToUndo(steps[0]) && ToUndo(steps[1]) && ToUndo(steps[2]);
    PiecesRan(steps, Folders({A, AF, AG}), Folders({B, BF, BG}), Folders({A, B, BG}), Folders({A, AF, B, BG}));
    FullerClear(Folders({A, AF, AG}), Folders({B, BF, BG}), Folders({A, B, BG}));
    hide ApplyStep, NothingInTheWay, Ran, Changes;
  }

  lemma FullerChange()
    ensures EffectOf(Folders({A, AF, AG}), FULLER) != Nothing && EffectOf(Folders({B, BF, BG}), PIECE) != Nothing
    ensures EffectOf(Folders({A, B, BG}), AGAIN) != Nothing
  {
    Places();
    MorePlaces();
  }

  lemma FullerClear(start: Disk, w1: Disk, w2: Disk)
    requires Ran(start, FULLER_PIECES, 0) == start && Ran(start, FULLER_PIECES, 1) == w1
    requires Ran(start, FULLER_PIECES, 2) == w2 && w2 == Folders({A, B, BG})
    ensures NothingInTheWay(start, FULLER_PIECES, 3, iset{}) && MadeFrom(start, FULLER_PIECES, 1, iset{}) == iset{}
  {
    Places();
    assert MadeFrom(start, FULLER_PIECES, 3, iset{}) == iset{};
    forall q ensures q !in Made(w2, AGAIN) { if Above(q, AF) { assert q == AF[..|q|]; } }
    forall q ensures q !in Made(w1, PIECE) { }
    assert MadeFrom(start, FULLER_PIECES, 2, iset{}) == iset{};
    assert MadeFrom(start, FULLER_PIECES, 1, iset{}) == iset{};
  }

  /** Undone whole, what is in the folder is back in it, and the second undo takes the one and finds the other. */
  lemma FullerStops()
    ensures var r := Folders({A, AF, AG}); Undone(r, FULLER_PIECES, 3).Ambiguous?
  {
    var r, w := Folders({A, AF, AG}), Folders({A, AG});
    FullerUnmakes();
    PieceDoesNotFit();
    hide UndoMkdir, ApplyRename, Folders;
    assert UndoStep(r, FULLER_PIECES[2]) == Done(w) && UndoStep(w, FULLER_PIECES[1]).Ambiguous?;
    hide UndoStep;
    assert Undone(r, FULLER_PIECES, 3) == Undone(w, FULLER_PIECES, 2);
  }

  lemma FullerUnmakes()
    ensures UndoMkdir(Folders({A, AF, AG}), AGAIN) == Done(Folders({A, AG}))
  {
    Places();
    MorePlaces();
    assert forall q :: Inside(AF, q) && |q| <= 2 ==> q == AF;
    assert Without(Folders({A, AF, AG}), AF) == Folders({A, AG});
  }

  lemma PieceDoesNotFit()
    ensures ApplyRename(Folders({A, AG}), Swapped(PIECE)).Ambiguous?
  {
    Places();
    MorePlaces();
    ContentsAt(Folders({A, AG}), A, ["g"]);
    assert ["g"] in Contents(Folders({A, AG}), A);
  }

  /**
   * The two plans have the same actions with the same paths; the undo of the one
   * may be cut off and run again anywhere, that of the other not even once it is
   * through.  So no condition on the paths alone is exact for all plans.
   */
  lemma PathsDoNotDecide()
    ensures forall i | 0 <= i < 3 ::
              && FULLER_PIECES[i].action == PIECES[i].action
              && FULLER_PIECES[i].sourceKey == PIECES[i].sourceKey && FULLER_PIECES[i].targetKey == PIECES[i].targetKey
    ensures var start, d := Folders({A, AF}), Folders({A, AF, B});
            Setting(start, PIECES, iset{}) && d == Ran(start, PIECES, 3) && RerunsTheSame(d, PIECES)
    ensures var start, d := Folders({A, AF, AG}), Folders({A, AF, B, BG});
            && Setting(start, FULLER_PIECES, iset{}) && d == Ran(start, FULLER_PIECES, 3)
            && !RerunsTheSame(d, FULLER_PIECES)
  {
    PiecesRerun();
    FullerSetting();
    FullerStops();
    SamePaths();
    var start, d := Folders({A, AF, AG}), Folders({A, AF, B, BG});
    FullerMakesNone(start);
    hide *;
    WholeUndone(start, FULLER_PIECES, d);
    NotTheSame(start, d, FULLER_PIECES);
  }

  lemma FullerMakesNone(start: Disk)
    requires start == Folders({A, AF, AG}) && Setting(start, FULLER_PIECES, iset{})
    ensures MadeFrom(start, FULLER_PIECES, 0, iset{}) == iset{}
  {
    FullerGoes();
    FullerPieceGoes();
    var steps := FULLER_PIECES;
    assert |steps| == 3 && steps[0] == FULLER && steps[1] == PIECE && steps[2] == AGAIN;
    assert ToUndo(steps[0]) && ToUndo(steps[1]) && ToUndo(steps[2]);
    hide ApplyRename, Setting, Folders;
    assert Ran(start, steps, 0) == start && Ran(start, steps, 1) == Folders({B, BF, BG});
    assert Ran(start, steps, 2) == Folders({A, B, BG});
    FullerClear(start, Folders({B, BF, BG}), Folders({A, B, BG}));
    forall q ensures q !in Made(start, FULLER) { }
  }

  /** Where no folder was made on the way, undo in one go gives the very disk it began with. */
  lemma WholeUndone(start: Disk, steps: seq<Step>, d: Disk)
    requires Setting(start, steps, iset{}) && d == Ran(start, steps, |steps|)
    requires MadeFrom(start, steps, 0, iset{}) == iset{}
    ensures UndoneDownTo(d, steps, |steps|, 0) == Done(start) && Undone(d, steps, |steps|).Done?
  {
    RanIsTree(start, steps, |steps|);
    assert Plus(d, iset{}, d) by { forall q ensures PlusAt(d, iset{}, d, q) { } }
    AtLast(start, steps, iset{}, d);
    Rerun.Levels(start, steps, iset{}, d, 0);
    RollbackRestores(start, steps, iset{}, d);
    var u := UndoneDownTo(d, steps, |steps|, 0).disk;
    assert Plus(start, iset{}, u) by { assert Ran(start, steps, 0) == start; }
    hide UndoneDownTo, Undone, Ran, IsTree, AllChanged, NothingInTheWay;
    forall q ensures Lookup(u, q) == Lookup(start, q) { assert PlusAt(start, iset{}, u, q); }
    SameDisk(u, start);
  }

  lemma NotTheSame(start: Disk, d: Disk, steps: seq<Step>)
    requires UndoneDownTo(d, steps, |steps|, 0) == Done(start)
    requires Undone(d, steps, |steps|).Done? && Undone(start, steps, |steps|).Ambiguous?
    ensures !RerunsTheSame(d, steps)
  {
    hide Undone;
  }

  lemma SamePaths()
    ensures forall i | 0 <= i < 3 ::
              && FULLER_PIECES[i].action == PIECES[i].action
              && FULLER_PIECES[i].sourceKey == PIECES[i].sourceKey && FULLER_PIECES[i].targetKey == PIECES[i].targetKey
  {
  }

  // ---------------------------------------------------------------------------- nested paths

  /** A file is moved out of a folder, then the folder is moved. */
  const OUT := MoveOf(AF, X, Some([1]), None)
  const AWAY := MoveOf(A, B, None, Some(map[]))

  lemma FolderBack(d: Disk)
    requires d == map[X := FileNode([1]), B := DirNode]
    ensures IsTree(d) && UndoStep(d, AWAY).Done?
    ensures var d1 := UndoStep(d, AWAY).disk;
            && IsTree(d1) && Lookup(d1, X) == Some(FileNode([1])) && Lookup(d1, A) == Some(DirNode)
            && Lookup(d1, B) == None && Lookup(d1, AF) == None
  {
    CanGoBack(d);
    MoveWorks(d, Swapped(AWAY));
    MovedFolder(d, UndoStep(d, AWAY).disk);
    hide *;
  }

  lemma CanGoBack(d: Disk)
    requires d == map[X := FileNode([1]), B := DirNode]
    ensures IsTree(d) && SafeAncestors(d, A) && ValidNode(d, B, Swapped(AWAY)) && A !in d && Apart(B, A)
  {
    assert forall q <- Contents(d, B) :: false;
    assert A[0] != B[0] && A[0] != X[0] && B[0] != X[0];
  }

  lemma MovedFolder(d: Disk, d1: Disk)
    requires d == map[X := FileNode([1]), B := DirNode]
    requires forall q :: Lookup(d1, q) == After(Moves(B, A), d, q)
    ensures Lookup(d1, X) == Some(FileNode([1])) && Lookup(d1, A) == Some(DirNode)
    ensures Lookup(d1, B) == None && Lookup(d1, AF) == None
  {
    assert A[0] != B[0] && A[0] != X[0] && B[0] != X[0] && AF[0] == A[0];
    assert Lookup(d1, X) == After(Moves(B, A), d, X) && Lookup(d1, AF) == After(Moves(B, A), d, AF);
    assert B + A[1..] == B && Lookup(d1, A) == After(Moves(B, A), d, A);
    assert Lookup(d1, B) == After(Moves(B, A), d, B);
    assert B + AF[1..] == ["b", "f"] && ["b", "f"] !in d;
  }

  lemma FileBack(d: Disk)
    requires IsTree(d) && Lookup(d, X) == Some(FileNode([1])) && Lookup(d, A) == Some(DirNode)
    requires Lookup(d, B) == None && Lookup(d, AF) == None
    ensures UndoStep(d, OUT).Done?
    ensures var d1 := UndoStep(d, OUT).disk; Lookup(d1, B) == None && Lookup(d1, AF) == Some(FileNode([1]))
  {
    assert A[0] != B[0] && A[0] != X[0] && B[0] != X[0] && AF[0] == A[0] && AF[..1] == A;
    MoveWorks(d, Swapped(OUT));
    var d1 := UndoStep(d, OUT).disk;
    assert X + AF[2..] == X && Lookup(d1, AF) == After(Moves(X, AF), d, AF);
    assert Lookup(d1, B) == After(Moves(X, AF), d, B);
  }

  lemma FolderIsFuller(d: Disk)
    requires Lookup(d, B) == None && Lookup(d, AF) == Some(FileNode([1]))
    ensures UndoStep(d, AWAY).Ambiguous?
  {
    ContentsAt(d, A, ["f"]);
    assert A + ["f"] == AF;
  }

  /**
   * Paths that are merely different are not enough for a rerun: undone and run
   * again, the undo of the folder finds the file back in it and stops.
   */
  lemma DistinctIsNotEnough()
    ensures var steps, d := [OUT, AWAY], map[X := FileNode([1]), B := DirNode];
            && IsTree(d) && PathsOf(OUT) !! PathsOf(AWAY)
            && Undone(d, steps, 2).Done? && Undone(Undone(d, steps, 2).disk, steps, 2).Ambiguous?
  {
    var d := map[X := FileNode([1]), B := DirNode];
    FolderBack(d);
    var d1 := UndoStep(d, AWAY).disk;
    FileBack(d1);
    var d0 := UndoStep(d1, OUT).disk;
    FolderIsFuller(d0);
    DifferentPaths();
    hide *;
    UndoneTwice([OUT, AWAY], d, d1, d0);
  }

  lemma DifferentPaths()
    ensures PathsOf(OUT) !! PathsOf(AWAY)
  {
    assert A[0] != B[0] && A[0] != X[0] && B[0] != X[0] && |AF| == 2;
  }

  lemma UndoneTwice(steps: seq<Step>, d: Disk, d1: Disk, d0: Disk)
    requires |steps| == 2 && UndoStep(d, steps[1]) == Done(d1) && UndoStep(d1, steps[0]) == Done(d0)
    requires UndoStep(d0, steps[1]).Ambiguous?
    ensures Undone(d, steps, 2) == Done(d0) && Undone(d0, steps, 2).Ambiguous?
  {
    hide UndoStep;
    assert Undone(d, steps, 2) == Undone(d1, steps, 1) == Undone(d0, steps, 0) == Done(d0);
  }
}
