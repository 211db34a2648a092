/** What holds of a plan as a whole: one action a path, none where none may be, and each mode's bounds. */
module PlanDiscipline {
  import opened Common
  import opened Paths
  import opened SyncTypes
  import opened Planner
  import opened PlanSafety

  predicate WritesServer(a: Action) {
    a.MoveRemote? || a.CreateRemoteFolder? || a.Upload? || a.KeepMine? || a.TrashRemote?
  }

  predicate WritesHere(a: Action) {
    a.MoveLocal? || a.Mkdir? || a.Download? || a.ConflictCopy? || a.TrashLocal?
  }

  /** Download folders never write to the server; upload folders never write here, nor trash there. */
  predicate KeepsMode(mode: Mode, a: Action) {
    && (mode == DownloadOnly ==> !WritesServer(a))
    && (mode == UploadOnly ==> !WritesHere(a) && !a.TrashRemote?)
  }

  lemma DecisionKeepsMode(v: View, cell: Cell, dirty: Dirty)
    ensures Decide(v, cell, dirty).action.Some? ==> KeepsMode(v.mode, Decide(v, cell, dirty).action.value)
  {
  }

  lemma {:induction false} MovesKeepMode(v: View, sorted: seq<BaseEntry>)
    ensures forall a <- MovesOf(v, sorted).moves :: KeepsMode(v.mode, a)
  {
    if sorted != [] { MovesKeepMode(v, sorted[..|sorted| - 1]); }
  }

  lemma ModeIsKept(input: PlanInput, a: Action)
    requires a in PlanOf(input).actions
    ensures KeepsMode(input.mode, a)
  {
    var v, sorted := ViewOf(input), ShallowFirst(input.base);
    MovesKeepMode(v, sorted);
    if MovesOf(v, sorted).moves == [] {
      var p, keys := PassOf(input), ByDepth(AllPaths(input));
      var i := ActionsAnswer(p, keys, a);
      hide DrawnUp, DirtySides, MovesOf, Answers;
      AnswerKeepsMode(p, keys, i, a);
    }
  }

  lemma AnswerKeepsMode(p: Pass, keys: seq<Rel>, i: nat, a: Action)
    requires i < |keys| && Answers(p, keys, i, a)
    ensures KeepsMode(p.v.mode, a)
  {
    DecisionKeepsMode(p.v, CellAt(p.v, keys[i]), p.dirty);
    hide Decide;
  }

  // ------------------------------------------------------------------- one action a path

  predicate Distinct(keys: seq<Rel>) {
    forall i, j :: 0 <= i < j < |keys| ==> keys[i] != keys[j]
  }

  predicate Shallower(keys: seq<Rel>) {
    forall i, j :: 0 <= i < j < |keys| ==> |keys[i]| <= |keys[j]|
  }

  lemma {:induction false} PlaceSorts(key: Rel, sorted: seq<Rel>)
    requires Shallower(sorted)
    ensures Shallower(PlaceKey(key, sorted))
    ensures forall k <- PlaceKey(key, sorted) :: k == key || k in sorted
  {
    var n := |sorted| - 1;
    if sorted != [] && |sorted[n]| > |key| {
      PlaceSorts(key, sorted[..n]);
      var r := PlaceKey(key, sorted[..n]);
      forall i | 0 <= i < |r|
        ensures |r[i]| <= |sorted[n]|
      {
        assert r[i] == key || r[i] in sorted[..n];
      }
    }
  }

  lemma {:induction false} ByDepthSorts(keys: seq<Rel>)
    ensures Shallower(ByDepth(keys))
  {
    if keys != [] {
      ByDepthSorts(keys[..|keys| - 1]);
      PlaceSorts(keys[|keys| - 1], ByDepth(keys[..|keys| - 1]));
    }
  }

  lemma SameElementsDistinct(a: seq<Rel>, b: seq<Rel>)
    requires multiset(a) == multiset(b) && Distinct(a)
    ensures Distinct(b)
  {
    forall i, j | 0 <= i < j < |b|
      ensures b[i] != b[j]
    {
      OnlyOnce(a, b[i]);
      if b[i] == b[j] { Twice(b, i, j); }
    }
  }

  lemma Twice<T>(b: seq<T>, i: nat, j: nat)
    requires i < j < |b| && b[i] == b[j]
    ensures multiset(b)[b[i]] >= 2
  {
    assert b == b[..j] + [b[j]] + b[j + 1..];
    assert b[i] in b[..j];
    assert multiset(b) == multiset(b[..j]) + multiset{b[j]} + multiset(b[j + 1..]);
  }

  lemma {:induction false} OnlyOnce(a: seq<Rel>, key: Rel)
    requires Distinct(a)
    ensures multiset(a)[key] <= 1
  {
    if a != [] {
      OnlyOnce(a[1..], key);
      assert a == [a[0]] + a[1..];
      assert a[0] !in a[1..];
      assert key == a[0] ==> key !in multiset(a[1..]);
    }
  }

  lemma KeysAreOrderly(input: PlanInput)
    ensures Distinct(ByDepth(AllPaths(input))) && Shallower(ByDepth(AllPaths(input)))
  {
    RelsKeep(LocalRels(input.local) + RemoteRels(input.remote) + BaseRels(input.base));
    ByDepthKeeps(AllPaths(input));
    SameElementsDistinct(AllPaths(input), ByDepth(AllPaths(input)));
    ByDepthSorts(AllPaths(input));
  }

  lemma {:induction false} DrawnOnce(p: Pass, keys: seq<Rel>)
    requires Distinct(keys)
    ensures var actions := DrawnUp(p, keys).actions;
            && (forall a <- actions :: !IsMove(a) && At(a) in keys)
            && (forall i, j | 0 <= i < j < |actions| :: At(actions[i]) != At(actions[j]))
  {
    if keys != [] {
      var n := |keys| - 1;
      DrawnOnce(p, keys[..n]);
      DecisionNames(p.v, CellAt(p.v, keys[n]), p.dirty);
      hide Decide, Covered;
      forall a | a in DrawnUp(p, keys[..n]).actions
        ensures At(a) != keys[n] && At(a) in keys
      {
        var i :| 0 <= i < n && keys[..n][i] == At(a);
        assert keys[i] != keys[n];
      }
    }
  }

  /** Each path gets at most one action. */
  lemma OneActionAPath(input: PlanInput, i: nat, j: nat)
    requires i < j < |PlanOf(input).actions|
    requires !IsMove(PlanOf(input).actions[i]) || !IsMove(PlanOf(input).actions[j])
    ensures !IsMove(PlanOf(input).actions[i]) && !IsMove(PlanOf(input).actions[j])
    ensures At(PlanOf(input).actions[i]) != At(PlanOf(input).actions[j])
  {
    var v, sorted := ViewOf(input), ShallowFirst(input.base);
    MovesAreMoves(v, sorted);
    KeysAreOrderly(input);
    DrawnOnce(PassOf(input), ByDepth(AllPaths(input)));
  }

  // --------------------------------------------------------------------- where none may be

  predicate TrashesFolder(a: Action) {
    (a.TrashLocal? && a.local.kind == Folder) || (a.TrashRemote? && a.remote.kind == Folder)
  }

  lemma DecisionGone(v: View, key: Rel, dirty: Dirty)
    ensures var d := Decide(v, CellAt(v, key), dirty);
            d.action.Some? && TrashesFolder(d.action.value) ==> d.gone
  {
  }

  lemma {:induction false} GoneStays(p: Pass, keys: seq<Rel>, i: nat)
    requires i <= |keys|
    ensures DrawnUp(p, keys[..i]).gone <= DrawnUp(p, keys).gone
    decreases |keys| - i
  {
    if i < |keys| {
      assert keys[..i + 1][..i] == keys[..i];
      hide Decide;
      GoneStays(p, keys, i + 1);
    } else {
      assert keys[..i] == keys;
    }
  }

  /** No action names a path at or under an excluded or a mid-move path, or under a folder the plan trashes. */
  lemma NothingInForbiddenPlaces(input: PlanInput, a: Action)
    requires ProperInput(input) && a in PlanOf(input).actions && !IsMove(a)
    ensures !Covered(At(a), ViewOf(input).hidden)
    ensures !Covered(At(a), MovesOf(ViewOf(input), ShallowFirst(input.base)).pending)
    ensures forall b <- PlanOf(input).actions :: TrashesFolder(b) ==> !StrictlyInside(At(b), At(a))
  {
    var p, keys := PassOf(input), ByDepth(AllPaths(input));
    var i := PlannedAt(input, a);
    CoveredParts(keys[i], p.pending, DrawnUp(p, keys[..i]).gone, p.v.hidden);
    PassSees(input);
    KeysAreOrderly(input);
    hide *;
    forall b | b in PlanOf(input).actions && TrashesFolder(b)
      ensures !StrictlyInside(At(b), At(a))
    {
      TrashIsNoMove(b);
      var j := PlannedAt(input, b);
      TrashedBefore(p, keys, i, j, b);
    }
  }

  lemma TrashIsNoMove(b: Action)
    ensures TrashesFolder(b) ==> !IsMove(b)
  {
  }

  lemma PassSees(input: PlanInput)
    ensures PassOf(input).v == ViewOf(input)
    ensures PassOf(input).pending == MovesOf(ViewOf(input), ShallowFirst(input.base)).pending
  {
    hide ViewOf, MovesOf, ShallowFirst;
  }

  /** An action other than a move answers the path it is for. */
  lemma PlannedAt(input: PlanInput, a: Action) returns (i: nat)
    requires ProperInput(input) && a in PlanOf(input).actions && !IsMove(a)
    ensures var p, keys := PassOf(input), ByDepth(AllPaths(input));
            && i < |keys| && At(a) == keys[i] != [] && Answers(p, keys, i, a)
            && !Covered(keys[i], p.pending + DrawnUp(p, keys[..i]).gone + p.v.hidden)
  {
    MovesAreMoves(ViewOf(input), ShallowFirst(input.base));
    var p, keys := PassOf(input), ByDepth(AllPaths(input));
    i := ActionsAnswer(p, keys, a);
    PathsAreProper(input, keys[i]);
    DecisionNames(p.v, CellAt(p.v, keys[i]), p.dirty);
    hide Decide, DirtySides, ViewOf, PassOf, Covered, DrawnUp;
  }

  lemma CoveredParts(key: Rel, a: set<Rel>, b: set<Rel>, c: set<Rel>)
    ensures Covered(key, a + b + c) <==> Covered(key, a) || Covered(key, b) || Covered(key, c)
  {
  }

  lemma TrashedIsGone(p: Pass, keys: seq<Rel>, i: nat, j: nat, b: Action)
    requires j < i <= |keys| && Answers(p, keys, j, b) && TrashesFolder(b)
    ensures keys[j] in DrawnUp(p, keys[..i]).gone
  {
    DecisionGone(p.v, keys[j], p.dirty);
    assert keys[..j + 1][..j] == keys[..j];
    assert keys[..i][..j + 1] == keys[..j + 1];
    CoveredParts(keys[j], p.pending, DrawnUp(p, keys[..j]).gone, p.v.hidden);
    hide Decide;
    GoneStays(p, keys[..i], j + 1);
  }

  lemma TrashedBefore(p: Pass, keys: seq<Rel>, i: nat, j: nat, b: Action)
    requires Shallower(keys) && i < |keys| && j < |keys| && keys[j] != []
    requires Answers(p, keys, j, b) && TrashesFolder(b)
    requires !Covered(keys[i], DrawnUp(p, keys[..i]).gone)
    ensures !StrictlyInside(keys[j], keys[i])
  {
    if StrictlyInside(keys[j], keys[i]) {
      LongerInside(keys[j], keys[i]);
      TrashedIsGone(p, keys, i, j, b);
    }
  }

  lemma LongerInside(top: Rel, key: Rel)
    requires StrictlyInside(top, key)
    ensures |top| < |key|
  {
    assert key[..|key|] == key;
  }

  // ----------------------------------------------------------------------------- moves

  /** Two moves share no end, and the later one does not start or end inside an end of the earlier. */
  predicate MovesApart(a: Action, b: Action)
    requires IsMove(a) && IsMove(b)
  {
    && !Inside(a.source, b.source) && !Inside(a.source, b.target)
    && !Inside(a.target, b.source) && !Inside(a.target, b.target)
  }

  lemma {:induction false} InoMapAt(xs: seq<LocalFile>, base: map<Rel, BaseEntry>)
    ensures forall ino <- InoMap(xs, base) :: InoMap(xs, base)[ino].rel !in base && InoMap(xs, base)[ino] in xs
  {
    if xs != [] { InoMapAt(xs[..|xs| - 1], base); }
  }

  lemma {:induction false} ShallowFirstKeeps(base: seq<BaseEntry>, entry: BaseEntry)
    requires entry in ShallowFirst(base)
    ensures entry in base
  {
    var n := |base| - 1;
    PlaceEntryKeeps(base[n], ShallowFirst(base[..n]), entry);
    if entry in ShallowFirst(base[..n]) { ShallowFirstKeeps(base[..n], entry); }
  }

  lemma {:induction false} PlaceEntryKeeps(entry: BaseEntry, sorted: seq<BaseEntry>, other: BaseEntry)
    requires other in PlaceEntry(entry, sorted)
    ensures other == entry || other in sorted
  {
    var n := |sorted| - 1;
    if sorted != [] && |sorted[n].rel| > |entry.rel| && other in PlaceEntry(entry, sorted[..n]) {
      PlaceEntryKeeps(entry, sorted[..n], other);
    }
  }

  /** A planned move has two different ends, both named. */
  lemma MoveHasTwoEnds(input: PlanInput, entry: BaseEntry)
    requires ProperInput(input) && entry in input.base && MoveOf(ViewOf(input), entry).Some?
    ensures var move := MoveOf(ViewOf(input), entry).value;
            && move.target != entry.rel && move.target != []
            && (move.action.Some? ==> IsMove(move.action.value) && move.action.value.source == entry.rel
                                      && move.action.value.target == move.target)
  {
    InoMapAt(input.local, BaseMap(input.base));
    BaseMapAt(input.base);
    LocalMapAt(input.local);
  }

  ghost predicate MovesOrderly(v: View, m: Moving) {
    && (forall a <- m.moves :: IsMove(a) && a.source in m.pending && a.target in m.pending && a.source != a.target
                               && !Covered(a.source, v.hidden) && !Covered(a.target, v.hidden))
    && (forall i, j | 0 <= i < j < |m.moves| ::
          IsMove(m.moves[i]) && IsMove(m.moves[j]) && MovesApart(m.moves[i], m.moves[j]))
    && [] !in m.pending
  }

  lemma OneMoveOrderly(input: PlanInput, m: Moving, entry: BaseEntry)
    requires ProperInput(input) && entry in input.base && MovesOrderly(ViewOf(input), m)
    ensures MovesOrderly(ViewOf(input), OneMove(ViewOf(input), m, entry))
  {
    var v := ViewOf(input);
    var m' := OneMove(v, m, entry);
    if m' != m {
      var move := MoveOf(v, entry).value;
      MoveHasTwoEnds(input, entry);
      hide MoveOf, ViewOf;
      CoveredParts(entry.rel, m.pending, v.hidden, {});
      CoveredParts(move.target, m.pending, v.hidden, {});
      assert m.pending + v.hidden + {} == m.pending + v.hidden;
      forall p | p in m.pending
        ensures !Inside(p, entry.rel) && !Inside(p, move.target)
      {
        InsideIsCovered(p, entry.rel, m.pending);
        InsideIsCovered(p, move.target, m.pending);
      }
    }
  }

  lemma InsideIsCovered(p: Rel, key: Rel, keys: set<Rel>)
    requires p in keys && p != []
    ensures Inside(p, key) ==> Covered(key, keys)
  {
    if Inside(p, key) { assert key[..|p|] in keys; }
  }

  lemma {:induction false} AllMovesOrderly(input: PlanInput, sorted: seq<BaseEntry>)
    requires ProperInput(input) && forall entry <- sorted :: entry in input.base
    ensures MovesOrderly(ViewOf(input), MovesOf(ViewOf(input), sorted))
  {
    if sorted != [] {
      AllMovesOrderly(input, sorted[..|sorted| - 1]);
      OneMoveOrderly(input, MovesOf(ViewOf(input), sorted[..|sorted| - 1]), sorted[|sorted| - 1]);
    }
  }

  /** Every move of a plan goes from one place to another, and neither is at or under a path left alone by sync. */
  lemma EveryMoveIsProper(input: PlanInput, a: Action)
    requires ProperInput(input) && a in PlanOf(input).actions && IsMove(a)
    ensures a.source != a.target
    ensures !Covered(a.source, ViewOf(input).hidden) && !Covered(a.target, ViewOf(input).hidden)
  {
    var v, sorted := ViewOf(input), ShallowFirst(input.base);
    forall entry | entry in sorted ensures entry in input.base { ShallowFirstKeeps(input.base, entry); }
    AllMovesOrderly(input, sorted);
    if MovesOf(v, sorted).moves == [] {
      var p, keys := PassOf(input), ByDepth(AllPaths(input));
      var i := ActionsAnswer(p, keys, a);
      DecisionNames(v, CellAt(v, keys[i]), p.dirty);
    }
    hide Decide, DirtySides, ViewOf, MoveOf;
  }

  /**
   * Moves of one plan have pairwise different ends, and a later one never starts or
   * ends inside an end of an earlier.
   */
  lemma MovesNeverMeet(input: PlanInput, i: nat, j: nat)
    requires ProperInput(input) && i < j < |PlanOf(input).actions| && IsMove(PlanOf(input).actions[i])
    ensures IsMove(PlanOf(input).actions[j]) && MovesApart(PlanOf(input).actions[i], PlanOf(input).actions[j])
    ensures PlanOf(input).actions[i].source != PlanOf(input).actions[i].target
    ensures !Covered(PlanOf(input).actions[i].source, ViewOf(input).hidden)
    ensures !Covered(PlanOf(input).actions[i].target, ViewOf(input).hidden)
  {
    var v, sorted := ViewOf(input), ShallowFirst(input.base);
    forall entry | entry in sorted ensures entry in input.base { ShallowFirstKeeps(input.base, entry); }
    AllMovesOrderly(input, sorted);
    var a := PlanOf(input).actions[i];
    if MovesOf(v, sorted).moves == [] {
      KeysAreOrderly(input);
      DrawnOnce(PassOf(input), ByDepth(AllPaths(input)));
    }
  }
}
