/** Nothing a plan deletes or replaces holds a change that the base does not know. */
module PlanSafety {
  import opened Common
  import opened Paths
  import opened SyncTypes
  import opened Planner

  predicate ProperInput(input: PlanInput) {
    && (forall x <- input.local :: x.rel != [])
    && (forall x <- input.remote :: x.rel != [])
    && (forall x <- input.base :: x.rel != [])
  }

  // -------------------------------------------------------------- where actions come from

  predicate IsMove(a: Action) {
    a.MoveLocal? || a.MoveRemote?
  }

  lemma {:induction false} MovesAreMoves(v: View, sorted: seq<BaseEntry>)
    ensures forall a <- MovesOf(v, sorted).moves :: IsMove(a)
  {
    if sorted != [] { MovesAreMoves(v, sorted[..|sorted| - 1]); }
  }

  /** The action is the answer to the path at `i`, given what was decided before it. */
  ghost predicate Answers(p: Pass, keys: seq<Rel>, i: nat, a: Action)
    requires i < |keys|
  {
    var key := keys[i];
    && !Covered(key, p.pending + DrawnUp(p, keys[..i]).gone + p.v.hidden)
    && if Covered(key, p.vanished) then a == Forget(key) && key in p.v.base
       else Decide(p.v, CellAt(p.v, key), p.dirty).action == Some(a)
  }

  lemma {:induction false} ActionsAnswer(p: Pass, keys: seq<Rel>, a: Action) returns (i: nat)
    requires a in DrawnUp(p, keys).actions
    ensures i < |keys| && Answers(p, keys, i, a)
    decreases keys
  {
    var n := |keys| - 1;
    if a in DrawnUp(p, keys[..n]).actions {
      i := ActionsAnswer(p, keys[..n], a);
      assert keys[..n][..i] == keys[..i];
    } else {
      i := n;
    }
  }

  /** The path an action is for; a move is known by where it starts. */
  function At(a: Action): Rel {
    if IsMove(a) then a.source else a.rel
  }

  predicate Names(a: Action, key: Rel) {
    !IsMove(a) && At(a) == key
  }

  lemma DecisionNames(v: View, cell: Cell, dirty: Dirty)
    ensures Decide(v, cell, dirty).action.Some? ==> Names(Decide(v, cell, dirty).action.value, cell.key)
  {
  }

  // ------------------------------------------------------------------------- what is safe

  /** The local file is what the base says it was, by stat or by checksum. */
  predicate MatchesHere(v: View, key: Rel) {
    && key in v.local && key in v.base
    && (SameStat(v.local[key], v.base[key]) ||
        (v.local[key].checksum.Some? && v.local[key].checksum == v.base[key].checksum))
  }

  predicate MatchesThere(v: View, key: Rel) {
    key in v.remote && UnchangedThere(v.remote[key].item, if key in v.base then Some(v.base[key]) else None)
  }

  /** Nothing inside the folder has changed here, and nothing in it is left alone by sync. */
  ghost predicate QuietHere(input: PlanInput, v: View, top: Rel) {
    && (forall key <- v.local :: StrictlyInside(top, key) ==> CleanHere(v, key))
    && (forall e <- AllExcluded(input) :: e.side == Local ==> !StrictlyInside(top, e.rel))
  }

  ghost predicate QuietThere(input: PlanInput, v: View, top: Rel) {
    && (forall key <- v.remote :: StrictlyInside(top, key) ==> CleanThere(v, key))
    && (forall e <- AllExcluded(input) :: e.side == Server ==> !StrictlyInside(top, e.rel))
  }

  ghost predicate Safe(input: PlanInput, v: View, a: Action) {
    match a
    case TrashLocal(rel, local) =>
      && v.mode != UploadOnly && rel in v.local && v.local[rel] == local && rel !in v.remote
      && (if local.kind == File then MatchesHere(v, rel) else rel in v.base && QuietHere(input, v, rel))
    case TrashRemote(rel, remote) =>
      && v.mode == TwoWay && rel in v.remote && v.remote[rel].item == remote && rel !in v.local
      && (if remote.kind == File then MatchesThere(v, rel) else rel in v.base && QuietThere(input, v, rel))
    case Download(rel, remote, replacing) =>
      && v.mode != UploadOnly && rel in v.remote && v.remote[rel].item == remote
      && (if replacing.Some? then MatchesHere(v, rel) && replacing.value == v.local[rel] else rel !in v.local)
    case Upload(rel, local, replace) =>
      && v.mode != DownloadOnly && rel in v.local && v.local[rel] == local
      && (if replace.Some? then MatchesThere(v, rel) || v.mode == UploadOnly else rel !in v.remote)
    case KeepMine(rel, local, remote) => v.mode == UploadOnly
    case _ => true
  }

  lemma NotAbove(keys: set<Rel>, top: Rel, key: Rel)
    requires top != [] && key in keys && StrictlyInside(top, key)
    ensures top in ProperAncestors(keys)
  {
    assert key[..|key|] == key;
    assert key[..|top|] == top;
  }

  /** A folder that is not dirty is quiet: this is what `dirtyFolders` is for. */
  lemma CleanMeansQuiet(input: PlanInput, top: Rel)
    requires top != []
    ensures top !in DirtySides(ViewOf(input)).local ==> QuietHere(input, ViewOf(input), top)
    ensures top !in DirtySides(ViewOf(input)).server ==> QuietThere(input, ViewOf(input), top)
  {
    var v := ViewOf(input);
    var excluded := AllExcluded(input);
    hide ViewOf, AllExcluded, CleanHere, CleanThere, StrictlyInside, ProperAncestors;
    HiddenUnder(input);
    if top !in DirtySides(v).local {
      forall key | key in v.local && StrictlyInside(top, key)
        ensures CleanHere(v, key)
      {
        if !CleanHere(v, key) { NotAbove((set k | k in v.local && !CleanHere(v, k)), top, key); }
      }
      forall e | e in excluded && e.side == Local
        ensures !StrictlyInside(top, e.rel)
      {
        if StrictlyInside(top, e.rel) { NotAbove(HiddenOn(excluded, Local), top, e.rel); }
      }
    }
    if top !in DirtySides(v).server {
      forall key | key in v.remote && StrictlyInside(top, key)
        ensures CleanThere(v, key)
      {
        if !CleanThere(v, key) { NotAbove((set k | k in v.remote && !CleanThere(v, k)), top, key); }
      }
      forall e | e in excluded && e.side == Server
        ensures !StrictlyInside(top, e.rel)
      {
        if StrictlyInside(top, e.rel) { NotAbove(HiddenOn(excluded, Server), top, e.rel); }
      }
    }
  }

  lemma HiddenUnder(input: PlanInput)
    ensures ViewOf(input).hiddenUnderLocal == ProperAncestors(HiddenOn(AllExcluded(input), Local))
    ensures ViewOf(input).hiddenUnderServer == ProperAncestors(HiddenOn(AllExcluded(input), Server))
  {
  }

  lemma FolderDecisionSafe(input: PlanInput, v: View, key: Rel)
    requires v == ViewOf(input) && key != [] && KindOf(CellAt(v, key)) == Folder
    requires key in v.local && key in v.remote ==> v.local[key].kind == v.remote[key].item.kind
    ensures var d := PlanFolder(v, CellAt(v, key), DirtySides(v));
            d.action.Some? ==> Safe(input, v, d.action.value)
  {
    CleanMeansQuiet(input, key);
    hide ViewOf, DirtySides, QuietHere, QuietThere, StillHere, StillOnServer;
  }

  lemma DecisionSafe(input: PlanInput, key: Rel)
    requires key != []
    ensures var v := ViewOf(input);
            var d := Decide(v, CellAt(v, key), DirtySides(v));
            d.action.Some? ==> Safe(input, v, d.action.value)
  {
    var v := ViewOf(input);
    var cell := CellAt(v, key);
    if KindOf(cell) == Folder && !(key in v.local && key in v.remote && v.local[key].kind != v.remote[key].item.kind) {
      FolderDecisionSafe(input, v, key);
    }
    hide ViewOf, DirtySides, QuietHere, QuietThere, PlanFolder;
  }

  lemma {:induction false} ByDepthKeeps(keys: seq<Rel>)
    ensures multiset(ByDepth(keys)) == multiset(keys)
  {
    if keys != [] {
      var n := |keys| - 1;
      ByDepthKeeps(keys[..n]);
      PlaceKeeps(keys[n], ByDepth(keys[..n]));
      assert keys == keys[..n] + [keys[n]];
    }
  }

  lemma {:induction false} PlaceKeeps(key: Rel, sorted: seq<Rel>)
    ensures multiset(PlaceKey(key, sorted)) == multiset(sorted) + multiset{key}
  {
    var n := |sorted| - 1;
    if sorted != [] && |sorted[n]| > |key| {
      PlaceKeeps(key, sorted[..n]);
      assert sorted == sorted[..n] + [sorted[n]];
    }
  }

  lemma {:induction false} RelsKeep(keys: seq<Rel>)
    ensures forall key :: key in Rels(keys) <==> key in keys
    ensures forall i, j :: 0 <= i < j < |Rels(keys)| ==> Rels(keys)[i] != Rels(keys)[j]
  {
    if keys != [] {
      var n := |keys| - 1;
      RelsKeep(keys[..n]);
      assert keys == keys[..n] + [keys[n]];
    }
  }

  lemma PathsAreProper(input: PlanInput, key: Rel)
    requires ProperInput(input) && key in ByDepth(AllPaths(input))
    ensures key != []
  {
    InByDepth(AllPaths(input), key);
    RelsKeep(LocalRels(input.local) + RemoteRels(input.remote) + BaseRels(input.base));
    hide Rels, ByDepth;
  }

  lemma InByDepth(keys: seq<Rel>, key: Rel)
    ensures key in ByDepth(keys) <==> key in keys
  {
    ByDepthKeeps(keys);
    assert key in ByDepth(keys) <==> key in multiset(ByDepth(keys));
  }

  /** In every mode, whatever a plan trashes or overwrites is exactly what the base says both sides had. */
  lemma DeletionsAreSafe(input: PlanInput, a: Action)
    requires ProperInput(input) && a in PlanOf(input).actions
    ensures Safe(input, ViewOf(input), a)
  {
    var v := ViewOf(input);
    var sorted := ShallowFirst(input.base);
    MovesAreMoves(v, sorted);
    if MovesOf(v, sorted).moves == [] {
      var p, keys := PassOf(input), ByDepth(AllPaths(input));
      var i := ActionsAnswer(p, keys, a);
      PathsAreProper(input, keys[i]);
      hide Decide, ViewOf, DirtySides, DrawnUp;
      DecisionSafe(input, keys[i]);
    }
  }

  // ------------------------------------------------------------ exclusions of the other side

  /** Each side lists every folder on the way to a path it leaves alone, or leaves that folder alone too. */
  ghost predicate ConsistentScans(input: PlanInput) {
    forall e <- AllExcluded(input), n | 0 < n < |e.rel| ::
      Covered(e.rel[..n], ViewOf(input).hidden) ||
      (if e.side == Local then e.rel[..n] in ViewOf(input).local else e.rel[..n] in ViewOf(input).remote)
  }

  /** A folder that a plan trashes holds nothing left alone by sync, on either side. */
  lemma NothingHiddenGoes(input: PlanInput, a: Action, e: Excluded)
    requires ProperInput(input) && ConsistentScans(input) && a in PlanOf(input).actions
    requires (a.TrashLocal? && a.local.kind == Folder) || (a.TrashRemote? && a.remote.kind == Folder)
    requires e in AllExcluded(input)
    ensures !StrictlyInside(a.rel, e.rel)
  {
    var v := ViewOf(input);
    DeletionsAreSafe(input, a);
    NotCoveredByHidden(input, a);
    FolderIsListed(input, e, a.rel);
    hide PlanOf, ViewOf, AllExcluded, Covered;
  }

  lemma FolderIsListed(input: PlanInput, e: Excluded, top: Rel)
    requires ConsistentScans(input) && e in AllExcluded(input) && top != []
    ensures StrictlyInside(top, e.rel) ==>
              Covered(top, ViewOf(input).hidden) ||
              (if e.side == Local then top in ViewOf(input).local else top in ViewOf(input).remote)
  {
    if StrictlyInside(top, e.rel) { assert e.rel[..|top|] == top; }
    hide ViewOf, AllExcluded, Covered;
  }

  lemma NotCoveredByHidden(input: PlanInput, a: Action)
    requires ProperInput(input) && a in PlanOf(input).actions && !IsMove(a)
    ensures a.rel != [] && !Covered(a.rel, ViewOf(input).hidden)
  {
    var v := ViewOf(input);
    MovesAreMoves(v, ShallowFirst(input.base));
    if MovesOf(v, ShallowFirst(input.base)).moves == [] {
      var p, keys := PassOf(input), ByDepth(AllPaths(input));
      var i := ActionsAnswer(p, keys, a);
      PathsAreProper(input, keys[i]);
      DecisionNames(p.v, CellAt(p.v, keys[i]), p.dirty);
      hide Decide, ViewOf, DirtySides, DrawnUp;
      CoveredByMore(keys[i], v.hidden, p.pending + DrawnUp(p, keys[..i]).gone + p.v.hidden);
    }
  }

  lemma CoveredByMore(key: Rel, less: set<Rel>, more: set<Rel>)
    requires less <= more
    ensures Covered(key, less) ==> Covered(key, more)
  {
  }
}
