/**
 * Two mutations whose paths do not overlap may interleave their forward steps
 * in any order: each step meets the same verdict, and the disk ends as if one
 * mutation had run wholly before the other -- also when one of them stops at a
 * step that fails while the other goes on.
 */
module Serialisability {
  import opened Common
  import opened Paths
  import opened Disk
  import opened Steps
  import opened Effects

  function KeysOf(step: Step): set<Path> {
    (if step.sourceKey.Some? then {step.sourceKey.value} else {}) +
    (if step.targetKey.Some? then {step.targetKey.value} else {})
  }

  predicate StepsApart(a: Step, b: Step) {
    forall x <- KeysOf(a), y <- KeysOf(b) :: Apart(x, y)
  }

  /** What a forward step changes, however it ends: a refused one has made the folders on the way. */
  function OutcomeOf(d: Disk, step: Step): Effect {
    var r := ApplyStep(d, step, false);
    if r.Done? then EffectOf(d, step)
    else if r.Refused? && step.targetKey.Some? && step.targetKey.value != [] && Parent(step.targetKey.value) !in d
    then Makes(Parent(step.targetKey.value)) else Nothing
  }

  /** Only a move into itself is refused, and what is made then is inside the folder that was to move. */
  lemma RefusedInside(d: Disk, step: Step)
    requires IsTree(d) && !IsCleanup(step.action) && ApplyStep(d, step, false).Refused?
    ensures step.sourceKey.Some? && step.targetKey.Some? && step.targetKey.value != []
    ensures var s, t := step.sourceKey.value, step.targetKey.value;
            && s in d && StrictlyInside(s, t) && SafeAncestors(d, t) && Inside(s, Parent(t)) && Parent(t) != []
            && ApplyStep(d, step, false).disk == WithFolders(d, t, |t| - 1)
  {
    var s, t := step.sourceKey.value, step.targetKey.value;
    assert s in d && t !in d && s != t;
    assert t[..|t|] == t && |s| < |t|;
    assert t[..|s|] == Parent(t)[..|s|];
    hide WithFolders, ValidNode;
  }

  lemma OutcomeMeans(d: Disk, step: Step)
    requires IsTree(d) && !IsCleanup(step.action)
    ensures Fitting(OutcomeOf(d, step), d)
    ensures forall q :: Lookup(ApplyStep(d, step, false).disk, q) == After(OutcomeOf(d, step), d, q)
  {
    var r := ApplyStep(d, step, false);
    if r.Done? {
      DoneMeans(d, step, false);
    } else if r.Refused? {
      RefusedInside(d, step);
      RefusedMeans(d, step.targetKey.value);
    }
    hide ApplyStep, WithFolders, EffectOf, IsTree, SafeAncestors;
  }

  lemma RefusedMeans(d: Disk, t: Path)
    requires IsTree(d) && t != [] && Parent(t) != [] && SafeAncestors(d, t)
    ensures var e := if Parent(t) !in d then Makes(Parent(t)) else Nothing;
            Fitting(e, d) && forall q :: Lookup(WithFolders(d, t, |t| - 1), q) == After(e, d, q)
  {
    var up := Parent(t);
    var e := if up !in d then Makes(up) else Nothing;
    assert forall i | 0 < i < |up| :: up[..i] == t[..i];
    forall q
      ensures Lookup(WithFolders(d, t, |t| - 1), q) == After(e, d, q)
    {
      WithFoldersAt(d, t, |t| - 1, q);
      if q != [] && |q| <= |t| - 1 && Inside(q, t) {
        assert up[..|q|] == t[..|q|] == q;
        if up in d { TreeUp(d, up, q); }
      }
      InsideThrough(q, up, t);
    }
  }

  /** What a step changes is inside paths of its own. */
  lemma OutcomeWithin(d: Disk, step: Step, p: Path)
    requires IsTree(d) && !IsCleanup(step.action) && forall k <- KeysOf(step) :: Apart(k, p)
    ensures forall k <- EffectKeys(OutcomeOf(d, step)) :: Apart(k, p)
  {
    if ApplyStep(d, step, false).Refused? {
      RefusedInside(d, step);
      assert step.sourceKey.value in KeysOf(step);
      NotWithin(p, step.sourceKey.value, Parent(step.targetKey.value));
    }
    hide ApplyStep;
  }

  /** A step leaves every path apart from its own as it was: the node, the tree in it, the way to it. */
  lemma Untouched(d: Disk, b: Step, p: Path)
    requires IsTree(d) && !IsCleanup(b.action) && forall k <- KeysOf(b) :: Apart(k, p)
    ensures SameAt(d, ApplyStep(d, b, false).disk, p)
  {
    OutcomeMeans(d, b);
    OutcomeWithin(d, b, p);
    var e := OutcomeOf(d, b);
    hide ApplyStep, OutcomeOf;
    var d' := ApplyStep(d, b, false).disk;
    InsideApart(d, e, d', p);
    ContentsApart(d, d', p);
    AboveApart(d, e, d', p);
  }

  ghost predicate SameAt(d: Disk, d': Disk, p: Path) {
    && Lookup(d', p) == Lookup(d, p)
    && Contents(d', p) == Contents(d, p)
    && (SafeAncestors(d', p) <==> SafeAncestors(d, p))
  }

  function EffectKeys(e: Effect): set<Path> {
    match e
    case Nothing => {}
    case Moves(s, t) => {s, t}
    case Makes(t) => {t}
  }

  lemma InsideApart(d: Disk, e: Effect, d': Disk, p: Path)
    requires forall q :: Lookup(d', q) == After(e, d, q)
    requires forall k <- EffectKeys(e) :: Apart(k, p)
    ensures forall q | Inside(p, q) :: Lookup(d', q) == Lookup(d, q)
  {
    forall q | Inside(p, q)
      ensures Lookup(d', q) == Lookup(d, q)
    {
      assert Lookup(d', q) == After(e, d, q);
      if e != Nothing { NotWithin(e.target, p, q); }
      if e.Moves? { NotWithin(e.source, p, q); }
    }
  }

  lemma ContentsApart(d: Disk, d': Disk, p: Path)
    requires forall q | Inside(p, q) :: Lookup(d', q) == Lookup(d, q)
    ensures Contents(d', p) == Contents(d, p)
  {
    forall q
      ensures Lookup(Contents(d', p), q) == Lookup(Contents(d, p), q)
    {
      ContentsAt(d', p, q);
      ContentsAt(d, p, q);
      assert (p + q)[..|p|] == p;
    }
    SameDisk(Contents(d', p), Contents(d, p));
  }

  lemma AboveApart(d: Disk, e: Effect, d': Disk, p: Path)
    requires forall q :: Lookup(d', q) == After(e, d, q)
    requires forall k <- EffectKeys(e) :: Apart(k, p)
    ensures SafeAncestors(d', p) <==> SafeAncestors(d, p)
  {
    forall i | 0 < i < |p|
      ensures Lookup(d', p[..i]) == Lookup(d, p[..i]) || (p[..i] !in d && Lookup(d', p[..i]) == Some(DirNode))
    {
      var q := p[..i];
      assert Inside(q, p);
      assert Lookup(d', q) == After(e, d, q);
      if e != Nothing { assert e.target in EffectKeys(e); InsideThrough(e.target, q, p); }
      if e.Moves? { assert e.source in EffectKeys(e); InsideThrough(e.source, q, p); }
    }
  }

  /** Paths inside `p` are neither inside nor above a path apart from `p`. */
  lemma NotWithin(k: Path, p: Path, q: Path)
    requires Apart(k, p) && Inside(p, q)
    ensures !Inside(k, q) && !Inside(q, k)
  {
    InsideThrough(p, q, k);
    SamePlace(k, p, q);
  }

  lemma SamePlace(a: Path, b: Path, q: Path)
    ensures Inside(a, q) && Inside(b, q) ==> Inside(a, b) || Inside(b, a)
  {
    if Inside(a, q) && Inside(b, q) {
      if |a| <= |b| { assert b[..|a|] == q[..|a|]; } else { assert a[..|b|] == q[..|b|]; }
    }
  }

  /** Another mutation's step changes neither a step's verdict nor its effect. */
  lemma SameVerdict(d: Disk, a: Step, b: Step)
    requires IsTree(d) && !IsCleanup(a.action) && !IsCleanup(b.action) && StepsApart(a, b)
    ensures var d' := ApplyStep(d, b, false).disk;
            && (ApplyStep(d', a, false).Done? <==> ApplyStep(d, a, false).Done?)
            && (ApplyStep(d', a, false).Ambiguous? <==> ApplyStep(d, a, false).Ambiguous?)
            && EffectOf(d', a) == EffectOf(d, a) && OutcomeOf(d', a) == OutcomeOf(d, a)
  {
    var d' := ApplyStep(d, b, false).disk;
    KeysUntouched(d, a, b);
    OutcomeStaysTree(d, b);
    VerdictFromKeys(d, d', a);
    hide ApplyStep, SameAt, StepsApart, IsTree;
    SameOutcome(d, d', a);
  }

  lemma OutcomeStaysTree(d: Disk, step: Step)
    requires IsTree(d) && !IsCleanup(step.action)
    ensures IsTree(ApplyStep(d, step, false).disk)
  {
    OutcomeMeans(d, step);
    StaysTree(d, OutcomeOf(d, step), ApplyStep(d, step, false).disk);
    hide *;
  }

  lemma SameOutcome(d: Disk, d': Disk, a: Step)
    requires IsTree(d) && IsTree(d') && !IsCleanup(a.action) && forall k <- KeysOf(a) :: SameAt(d, d', k)
    requires ApplyStep(d', a, false).Done? <==> ApplyStep(d, a, false).Done?
    requires ApplyStep(d', a, false).Ambiguous? <==> ApplyStep(d, a, false).Ambiguous?
    requires EffectOf(d', a) == EffectOf(d, a)
    ensures OutcomeOf(d', a) == OutcomeOf(d, a)
  {
    if ApplyStep(d, a, false).Refused? {
      RefusedInside(d, a);
      var s, up := a.sourceKey.value, Parent(a.targetKey.value);
      assert s in KeysOf(a);
      hide ApplyStep, KeysOf;
      assert s + up[|s|..] == up;
      ContentsAt(d, s, up[|s|..]);
      ContentsAt(d', s, up[|s|..]);
    }
  }

  lemma KeysUntouched(d: Disk, a: Step, b: Step)
    requires IsTree(d) && !IsCleanup(b.action) && StepsApart(a, b)
    ensures forall k <- KeysOf(a) :: SameAt(d, ApplyStep(d, b, false).disk, k)
  {
    hide ApplyStep, SameAt, IsTree;
    forall p | p in KeysOf(a)
      ensures SameAt(d, ApplyStep(d, b, false).disk, p)
    {
      forall k | k in KeysOf(b) ensures Apart(k, p) { assert Apart(p, k); }
      Untouched(d, b, p);
    }
  }

  /** A forward step's verdict and effect come from its own paths alone. */
  lemma VerdictFromKeys(d: Disk, d': Disk, a: Step)
    requires !IsCleanup(a.action) && forall k <- KeysOf(a) :: SameAt(d, d', k)
    ensures ApplyStep(d', a, false).Done? <==> ApplyStep(d, a, false).Done?
    ensures ApplyStep(d', a, false).Ambiguous? <==> ApplyStep(d, a, false).Ambiguous?
    ensures EffectOf(d', a) == EffectOf(d, a)
  {
    if a.action == Rename {
      if RenameIntent(a) { SameRename(d, d', a); }
    } else if a.targetKey.Some? {
      SameMkdir(d, d', a);
    }
    hide ApplyRename, ApplyMkdir, SameAt;
  }

  lemma SameRename(d: Disk, d': Disk, a: Step)
    requires a.action == Rename && RenameIntent(a) && forall k <- KeysOf(a) :: SameAt(d, d', k)
    ensures ApplyRename(d', a).Done? <==> ApplyRename(d, a).Done?
    ensures ApplyRename(d', a).Ambiguous? <==> ApplyRename(d, a).Ambiguous?
    ensures a.sourceKey.value in d' <==> a.sourceKey.value in d
  {
    var s, t := a.sourceKey.value, a.targetKey.value;
    assert s in KeysOf(a) && t in KeysOf(a);
    SameNode(d, d', s, a);
    SameNode(d, d', t, a);
    hide ValidNode, SafeAncestors, Renamed, WithFolders, SameAt;
  }

  lemma SameNode(d: Disk, d': Disk, p: Path, a: Step)
    requires SameAt(d, d', p)
    ensures (p in d' <==> p in d) && (SafeAncestors(d', p) <==> SafeAncestors(d, p))
    ensures ValidNode(d', p, a) <==> ValidNode(d, p, a)
  {
    hide SafeAncestors, Contents;
  }

  lemma SameMkdir(d: Disk, d': Disk, a: Step)
    requires a.action == Mkdir && a.targetKey.Some? && forall k <- KeysOf(a) :: SameAt(d, d', k)
    ensures ApplyMkdir(d', a).Done? <==> ApplyMkdir(d, a).Done?
    ensures ApplyMkdir(d', a).Ambiguous? <==> ApplyMkdir(d, a).Ambiguous?
    ensures a.targetKey.value in d' <==> a.targetKey.value in d
  {
    assert a.targetKey.value in KeysOf(a);
    assert SameAt(d, d', a.targetKey.value);
    hide SafeAncestors, Contents, WithFolders;
  }

  lemma CommuteAt(d: Disk, e: Effect, f: Effect, de: Disk, df: Disk, q: Path)
    requires Fitting(e, d) && Fitting(f, d)
    requires forall x <- EffectKeys(e), y <- EffectKeys(f) :: Apart(x, y)
    requires forall p :: Lookup(de, p) == After(e, d, p)
    requires forall p :: Lookup(df, p) == After(f, d, p)
    ensures After(f, de, q) == After(e, df, q)
  {
    assert Lookup(de, q) == After(e, d, q) && Lookup(df, q) == After(f, d, q);
    if f.Moves? && Inside(f.target, q) {
      CommuteMoved(d, e, f, de, df, q);
    } else if e.Moves? && Inside(e.target, q) {
      CommuteMoved(d, f, e, df, de, q);
    } else {
      if e.Moves? && f != Nothing {
        assert Apart(e.source, f.target);
        InsideThrough(e.source, q, f.target);
      }
      if f.Moves? && e != Nothing {
        assert Apart(e.target, f.source);
        InsideThrough(f.source, q, e.target);
      }
      if e != Nothing && f != Nothing { assert Apart(e.target, f.target); }
    }
  }

  /** At a path inside the target of the move `f`, the other effect changes nothing. */
  lemma CommuteMoved(d: Disk, e: Effect, f: Effect, de: Disk, df: Disk, q: Path)
    requires Fitting(e, d) && Fitting(f, d) && f.Moves? && Inside(f.target, q)
    requires forall x <- EffectKeys(e), y <- EffectKeys(f) :: Apart(x, y)
    requires forall p :: Lookup(de, p) == After(e, d, p)
    requires forall p :: Lookup(df, p) == After(f, d, p)
    ensures After(f, de, q) == After(e, df, q)
  {
    var o := f.source + q[|f.target|..];
    assert Inside(f.source, o);
    assert Lookup(df, q) == Lookup(d, o);
    assert Lookup(de, o) == After(e, d, o);
    if e != Nothing {
      assert Apart(e.target, f.target) && Apart(e.target, f.source);
      NotWithin(e.target, f.target, q);
      NotWithin(e.target, f.source, o);
    }
    if e.Moves? {
      assert Apart(e.source, f.target) && Apart(e.source, f.source);
      NotWithin(e.source, f.target, q);
      NotWithin(e.source, f.source, o);
    }
  }

  lemma OutcomesApart(d: Disk, a: Step, b: Step)
    requires IsTree(d) && !IsCleanup(a.action) && !IsCleanup(b.action) && StepsApart(a, b)
    ensures forall x <- EffectKeys(OutcomeOf(d, a)), y <- EffectKeys(OutcomeOf(d, b)) :: Apart(x, y)
  {
    hide OutcomeOf, IsTree;
    forall x, y | x in EffectKeys(OutcomeOf(d, a)) && y in EffectKeys(OutcomeOf(d, b))
      ensures Apart(x, y)
    {
      forall k | k in KeysOf(b)
        ensures Apart(k, x)
      {
        OutcomeWithin(d, a, k);
      }
      OutcomeWithin(d, b, x);
    }
  }

  /** Steps of two mutations commute, whole subtrees included, however each of them ends. */
  lemma Commute(d: Disk, a: Step, b: Step)
    requires IsTree(d) && !IsCleanup(a.action) && !IsCleanup(b.action) && StepsApart(a, b)
    ensures var da, db := ApplyStep(d, a, false).disk, ApplyStep(d, b, false).disk;
            ApplyStep(da, b, false).disk == ApplyStep(db, a, false).disk
  {
    var da, db := ApplyStep(d, a, false).disk, ApplyStep(d, b, false).disk;
    StepsApartSym(a, b);
    SameVerdict(d, a, b);
    SameVerdict(d, b, a);
    OutcomesApart(d, a, b);
    OutcomeStaysTree(d, a);
    OutcomeStaysTree(d, b);
    OutcomeMeans(d, a);
    OutcomeMeans(d, b);
    OutcomeMeans(da, b);
    OutcomeMeans(db, a);
    var e, f := OutcomeOf(d, a), OutcomeOf(d, b);
    var dab, dba := ApplyStep(da, b, false).disk, ApplyStep(db, a, false).disk;
    hide ApplyStep, OutcomeOf, IsTree, EffectOf, StepsApart;
    forall q
      ensures Lookup(dab, q) == Lookup(dba, q)
    {
      CommuteAt(d, e, f, da, db, q);
    }
    SameDisk(dab, dba);
  }

  lemma StepsApartSym(a: Step, b: Step)
    requires StepsApart(a, b)
    ensures StepsApart(b, a)
  {
    forall x <- KeysOf(b), y <- KeysOf(a) ensures Apart(x, y) { assert Apart(y, x); }
  }

  // ------------------------------------------------------------------ interleavings

  predicate AllForward(steps: seq<Step>) {
    forall i :: 0 <= i < |steps| ==> !IsCleanup(steps[i].action)
  }

  predicate AllApart(a: seq<Step>, b: seq<Step>) {
    forall i, j :: 0 <= i < |a| && 0 <= j < |b| ==> StepsApart(a[i], b[j])
  }

  /** The disk once a mutation's steps are through or it has stopped at one that fails, and which of the two. */
  datatype End = End(disk: Disk, through: bool)

  function Alone(d: Disk, steps: seq<Step>): End
    decreases steps
  {
    if steps == [] then End(d, true)
    else
      var r := ApplyStep(d, steps[0], false);
      if r.Done? then Alone(r.disk, steps[1..]) else End(r.disk, false)
  }

  datatype Ends = Ends(disk: Disk, first: bool, second: bool)

  /**
   * Two mutations side by side: `true` is a turn of the first. One that has stopped
   * or is through lets its turns pass.
   */
  function Together(d: Disk, a: seq<Step>, b: seq<Step>, turns: seq<bool>): Ends
    decreases turns
  {
    if turns == [] then Ends(d, true, true)
    else if turns[0] then
      if a == [] then Together(d, a, b, turns[1..])
      else
        var r := ApplyStep(d, a[0], false);
        if r.Done? then Together(r.disk, a[1..], b, turns[1..])
        else Together(r.disk, [], b, turns[1..]).(first := false)
    else
      if b == [] then Together(d, a, b, turns[1..])
      else
        var r := ApplyStep(d, b[0], false);
        if r.Done? then Together(r.disk, a, b[1..], turns[1..])
        else Together(r.disk, a, [], turns[1..]).(second := false)
  }

  function Turns(turns: seq<bool>, first: bool): nat {
    if turns == [] then 0 else (if turns[0] == first then 1 else 0) + Turns(turns[1..], first)
  }

  /** Both get as many turns as they have steps. */
  predicate Enough(a: seq<Step>, b: seq<Step>, turns: seq<bool>) {
    |a| <= Turns(turns, true) && |b| <= Turns(turns, false)
  }

  /** A step of another mutation, done before all these or after: the same verdicts and the same disk. */
  lemma {:induction false} DoneLast(d: Disk, a: seq<Step>, step: Step)
    requires IsTree(d) && AllForward(a) && !IsCleanup(step.action) && AllApart(a, [step])
    ensures var early, late := ApplyStep(d, step, false), ApplyStep(Alone(d, a).disk, step, false);
            && (early.Done? <==> late.Done?)
            && Alone(early.disk, a) == End(late.disk, Alone(d, a).through)
    decreases a
  {
    if a != [] {
      var x := a[0];
      assert StepsApart(x, [step][0]);
      StepsApartSym(x, step);
      var dx, ds := ApplyStep(d, x, false).disk, ApplyStep(d, step, false).disk;
      OutcomeStaysTree(d, x);
      SameVerdict(d, step, x);
      SameVerdict(d, x, step);
      Commute(d, x, step);
      hide ApplyStep, IsTree, StepsApart, EffectOf, OutcomeOf;
      DoneLast(dx, a[1..], step);
    }
  }

  lemma OneApart(a: seq<Step>, b: seq<Step>)
    requires a != [] && AllApart(a, b)
    ensures AllApart(b, [a[0]])
  {
    forall j | 0 <= j < |b| ensures StepsApart(b[j], a[0]) { StepsApartSym(a[0], b[j]); }
  }

  /** The disk is that of the first mutation and then the second; each has stopped or not as it would alone. */
  predicate OneThenOther(d: Disk, a: seq<Step>, b: seq<Step>, end: Ends) {
    end == Ends(Alone(Alone(d, a).disk, b).disk, Alone(d, a).through, Alone(d, b).through)
  }

  /**
   * However two mutations with apart paths take turns, and whichever of them
   * stop: each stops exactly where it would have stopped alone, and the disk is
   * that of one wholly before the other.
   */
  lemma {:induction false} Serial(d: Disk, a: seq<Step>, b: seq<Step>, turns: seq<bool>)
    requires IsTree(d) && AllForward(a) && AllForward(b) && AllApart(a, b) && Enough(a, b, turns)
    ensures OneThenOther(d, a, b, Together(d, a, b, turns))
    decreases turns, 1
  {
    if turns == [] {
    } else if turns[0] {
      FirstTurn(d, a, b, turns);
    } else {
      SecondTurn(d, a, b, turns);
    }
  }

  lemma {:induction false} FirstTurn(d: Disk, a: seq<Step>, b: seq<Step>, turns: seq<bool>)
    requires IsTree(d) && AllForward(a) && AllForward(b) && AllApart(a, b) && Enough(a, b, turns)
    requires turns != [] && turns[0]
    ensures OneThenOther(d, a, b, Together(d, a, b, turns))
    decreases turns, 0
  {
    if a == [] {
      Serial(d, a, b, turns[1..]);
    } else {
      var r := ApplyStep(d, a[0], false);
      OutcomeStaysTree(d, a[0]);
      OneApart(a, b);
      DoneLast(d, b, a[0]);
      hide ApplyStep, IsTree, StepsApart;
      Serial(r.disk, if r.Done? then a[1..] else [], b, turns[1..]);
    }
  }

  lemma {:induction false} SecondTurn(d: Disk, a: seq<Step>, b: seq<Step>, turns: seq<bool>)
    requires IsTree(d) && AllForward(a) && AllForward(b) && AllApart(a, b) && Enough(a, b, turns)
    requires turns != [] && !turns[0]
    ensures OneThenOther(d, a, b, Together(d, a, b, turns))
    decreases turns, 0
  {
    if b == [] {
      Serial(d, a, b, turns[1..]);
    } else {
      var r := ApplyStep(d, b[0], false);
      OutcomeStaysTree(d, b[0]);
      DoneLast(d, a, b[0]);
      hide ApplyStep, IsTree, StepsApart;
      Serial(r.disk, a, if r.Done? then b[1..] else [], turns[1..]);
    }
  }
}
