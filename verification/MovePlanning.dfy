/**
 * Which moves the planner plans: exactly those of entries that one side has
 * moved and the other has left alone, as far as their ends are apart.
 */
module MovePlanning {
  import opened Common
  import opened Paths
  import opened SyncTypes
  import opened Planner
  import opened PlanSafety
  import opened PlanDiscipline
  import opened PlanMeaning
  import opened PlanAnswers

  /** The server has the item somewhere else, and here the entry is untouched in its old place. */
  predicate MovedThere(v: View, entry: BaseEntry, target: Rel, item: Item) {
    && v.mode != UploadOnly && entry.remoteId in v.remoteById && v.remoteById[entry.remoteId] == Scoped(target, item)
    && target != entry.rel && target != [] && target !in v.local
    && entry.rel in v.local && Unmoved(v.local[entry.rel], entry)
  }

  /** The item has its old place on the server, or the one a stop between the two calls of a move leaves it in. */
  predicate Awaits(source: Rel, there: Rel, target: Rel)
    requires source != [] && target != []
  {
    || there == source
    || there == Parent(target) + [BaseName(source)]
    || there == Parent(source) + [BaseName(target)]
  }

  /** Here the entry is found somewhere else by its inode, and the server's item still awaits the move. */
  predicate MovedHere(v: View, entry: BaseEntry, target: Rel, local: LocalFile) {
    && v.mode != DownloadOnly && entry.rel !in v.local && entry.rel != []
    && entry.ino != "0" && entry.ino in v.localByIno && v.localByIno[entry.ino] == local
    && local.rel == target != [] && Unmoved(local, entry)
    && entry.remoteId in v.remoteById && v.remoteById[entry.remoteId].rel != []
    && Awaits(entry.rel, v.remoteById[entry.remoteId].rel, target)
    && (v.remoteById[entry.remoteId].rel == target || target !in v.remote)
  }

  /** The entry is to be moved to `target`; the action waits until the folder it goes into is there. */
  ghost predicate ToMove(v: View, entry: BaseEntry, target: Rel, action: Option<Action>) {
    || (exists item :: MovedThere(v, entry, target, item)
          && action == if FolderReadyHere(v, target) then Some(MoveLocal(entry.rel, target, item)) else None)
    || (exists local :: MovedHere(v, entry, target, local)
          && action == if FolderReadyThere(v, target) then Some(MoveRemote(entry.rel, target, entry, local)) else None)
  }

  lemma AwaitsIsHalfway(source: Rel, there: Rel, target: Rel)
    requires source != [] && target != [] && there != []
    ensures Awaits(source, there, target) <==> there == source || Halfway(source, there, target)
  {
    assert there == Parent(there) + [BaseName(there)];
  }

  lemma ServerMoveExactly(v: View, entry: BaseEntry, target: Rel, action: Option<Action>)
    requires Indexed(v)
    ensures ServerMove(v, entry) == Some(Move(target, action)) <==>
              exists item :: MovedThere(v, entry, target, item)
                && action == if FolderReadyHere(v, target) then Some(MoveLocal(entry.rel, target, item)) else None
  {
    if ServerMove(v, entry).Some? {
      var onServer := v.remoteById[entry.remoteId];
      assert MovedThere(v, entry, onServer.rel, onServer.item);
    }
  }

  lemma LocalMoveExactly(v: View, entry: BaseEntry, target: Rel, action: Option<Action>)
    requires Indexed(v)
    ensures LocalMove(v, entry) == Some(Move(target, action)) <==>
              exists local :: MovedHere(v, entry, target, local)
                && action == if FolderReadyThere(v, target) then Some(MoveRemote(entry.rel, target, entry, local))
                  else None
  {
    if entry.ino in v.localByIno && entry.remoteId in v.remoteById {
      var local, there := v.localByIno[entry.ino], v.remoteById[entry.remoteId].rel;
      if entry.rel != [] && there != [] && local.rel != [] { AwaitsIsHalfway(entry.rel, there, local.rel); }
      hide Halfway, Awaits;
      assert LocalMove(v, entry).Some? ==> MovedHere(v, entry, local.rel, local);
    }
  }

  lemma MoveExactly(v: View, entry: BaseEntry, target: Rel, action: Option<Action>)
    requires Indexed(v)
    ensures MoveOf(v, entry) == Some(Move(target, action)) <==> ToMove(v, entry, target, action)
  {
    ServerMoveExactly(v, entry, target, action);
    LocalMoveExactly(v, entry, target, action);
    if ServerMove(v, entry).Some? && LocalMove(v, entry).Some? {
      NotBoth(v, entry);
      assert false;
    }
    hide ServerMove, LocalMove, MovedThere, MovedHere;
  }

  lemma NotBoth(v: View, entry: BaseEntry)
    ensures ServerMove(v, entry).None? || LocalMove(v, entry).None?
  {
  }

  // ------------------------------------------------------------------------- the whole plan

  predicate EndOf(other: BaseEntry, target: Rel, p: Rel) {
    p == other.rel || p == target
  }

  lemma {:induction false} PendingAreEnds(v: View, sorted: seq<BaseEntry>, p: Rel)
    returns (other: BaseEntry, target: Rel, action: Option<Action>)
    requires Indexed(v) && p in MovesOf(v, sorted).pending
    ensures other in sorted && ToMove(v, other, target, action) && EndOf(other, target, p)
    decreases sorted
  {
    var n := |sorted| - 1;
    if p in MovesOf(v, sorted[..n]).pending {
      other, target, action := PendingAreEnds(v, sorted[..n], p);
    } else {
      other := sorted[n];
      target, action := MoveOf(v, other).value.target, MoveOf(v, other).value.action;
      MoveExactly(v, other, target, action);
    }
    hide ToMove, MoveOf, Covered;
  }

  /** No other move of the list starts or ends at or above the path. */
  ghost predicate Clear(v: View, known: seq<BaseEntry>, entry: BaseEntry, path: Rel) {
    forall other, target, action, p | other in known && other != entry && ToMove(v, other, target, action)
                                      && EndOf(other, target, p) :: !(p != [] && Inside(p, path))
  }

  lemma {:induction false} MovePlaced(v: View, known: seq<BaseEntry>, sorted: seq<BaseEntry>, entry: BaseEntry,
    target: Rel, action: Option<Action>)
    requires Indexed(v) && entry in sorted && (forall each <- sorted :: each in known)
    requires ToMove(v, entry, target, action) && !Covered(entry.rel, v.hidden) && !Covered(target, v.hidden)
    requires Clear(v, known, entry, entry.rel) && Clear(v, known, entry, target)
    ensures entry.rel in MovesOf(v, sorted).pending && target in MovesOf(v, sorted).pending
    ensures action.Some? ==> action.value in MovesOf(v, sorted).moves
    decreases sorted
  {
    var n := |sorted| - 1;
    var m := MovesOf(v, sorted[..n]);
    if entry in sorted[..n] {
      MovePlaced(v, known, sorted[..n], entry, target, action);
    } else {
      MoveExactly(v, entry, target, action);
      forall p | p in m.pending && p != []
        ensures !Inside(p, entry.rel) && !Inside(p, target)
      {
        var other, t, x := PendingAreEnds(v, sorted[..n], p);
      }
      CoveredMeans(entry.rel, m.pending + v.hidden);
      CoveredMeans(target, m.pending + v.hidden);
      CoveredMeans(entry.rel, v.hidden);
      CoveredMeans(target, v.hidden);
    }
    hide ToMove, MoveOf, Covered, Clear;
  }

  lemma {:induction false} ShallowFirstHas(base: seq<BaseEntry>, entry: BaseEntry)
    requires entry in base
    ensures entry in ShallowFirst(base)
  {
    var n := |base| - 1;
    if entry in base[..n] { ShallowFirstHas(base[..n], entry); }
    PlaceEntryHas(base[n], ShallowFirst(base[..n]), entry);
  }

  lemma {:induction false} PlaceEntryHas(entry: BaseEntry, sorted: seq<BaseEntry>, other: BaseEntry)
    requires other == entry || other in sorted
    ensures other in PlaceEntry(entry, sorted)
  {
    var n := |sorted| - 1;
    if sorted != [] && |sorted[n].rel| > |entry.rel| && other != sorted[n] {
      PlaceEntryHas(entry, sorted[..n], other);
    }
  }

  lemma ViewIsIndexed(input: PlanInput)
    ensures Indexed(ViewOf(input))
  {
    LocalMapAt(input.local);
    IdMapHas(input.remote);
    InosHas(input.local, BaseMap(input.base));
  }

  /**
   * Whatever one side has moved is moved on the other too -- now, or as soon as
   * the folder it goes into is there -- unless sync leaves one of its ends alone
   * or another move starts or ends at or above them.
   */
  lemma RealMovesArePlanned(input: PlanInput, entry: BaseEntry, target: Rel, action: Option<Action>)
    requires PlanOf(input).hold.None? && entry in input.base && ToMove(ViewOf(input), entry, target, action)
    requires !LeftAlone(input, entry.rel) && !LeftAlone(input, target)
    requires Clear(ViewOf(input), input.base, entry, entry.rel) && Clear(ViewOf(input), input.base, entry, target)
    ensures action.Some? ==> action.value in PlanOf(input).actions
    ensures entry.rel in PassOf(input).pending && target in PassOf(input).pending
  {
    var v, sorted := ViewOf(input), ShallowFirst(input.base);
    forall each | each in sorted ensures each in input.base { ShallowFirstKeeps(input.base, each); }
    ShallowFirstHas(input.base, entry);
    ViewIsIndexed(input);
    HiddenMeans(input, entry.rel);
    HiddenMeans(input, target);
    MovePlaced(v, input.base, sorted, entry, target, action);
    PassSees(input);
    hide ViewOf, PassOf, ToMove, Clear, LeftAlone, DrawnUp;
  }

  /** A path that waits for a move is an end of one. */
  lemma WaitsForMove(input: PlanInput, p: Rel) returns (entry: BaseEntry, target: Rel, action: Option<Action>)
    requires p in PassOf(input).pending
    ensures entry in input.base && ToMove(ViewOf(input), entry, target, action) && EndOf(entry, target, p)
  {
    ViewIsIndexed(input);
    PassSees(input);
    entry, target, action := PendingAreEnds(ViewOf(input), ShallowFirst(input.base), p);
    ShallowFirstKeeps(input.base, entry);
  }

  predicate ShallowOrder(entries: seq<BaseEntry>) {
    forall i, j | 0 <= i < j < |entries| :: |entries[i].rel| <= |entries[j].rel|
  }

  lemma {:induction false} PlaceEntrySorts(entry: BaseEntry, sorted: seq<BaseEntry>)
    requires ShallowOrder(sorted)
    ensures ShallowOrder(PlaceEntry(entry, sorted))
  {
    var n := |sorted| - 1;
    if sorted != [] && |sorted[n].rel| > |entry.rel| {
      PlaceEntrySorts(entry, sorted[..n]);
      var r := PlaceEntry(entry, sorted[..n]);
      forall i | 0 <= i < |r|
        ensures |r[i].rel| <= |sorted[n].rel|
      {
        PlaceEntryKeeps(entry, sorted[..n], r[i]);
      }
    }
  }

  lemma {:induction false} ShallowFirstSorts(base: seq<BaseEntry>)
    ensures ShallowOrder(ShallowFirst(base))
  {
    if base != [] {
      ShallowFirstSorts(base[..|base| - 1]);
      PlaceEntrySorts(base[|base| - 1], ShallowFirst(base[..|base| - 1]));
    }
  }

  lemma {:induction false} MovesFollow(v: View, sorted: seq<BaseEntry>)
    requires Indexed(v) && ShallowOrder(sorted)
    ensures var moves := MovesOf(v, sorted).moves;
            && (forall a <- moves :: IsMove(a) && exists entry <- sorted :: entry.rel == a.source)
            && (forall i, j | 0 <= i < j < |moves| ::
                  IsMove(moves[i]) && IsMove(moves[j]) && |moves[i].source| <= |moves[j].source|)
  {
    if sorted != [] {
      var n := |sorted| - 1;
      MovesFollow(v, sorted[..n]);
      NextMove(v, MovesOf(v, sorted[..n]), sorted[n]);
      var before, moves := MovesOf(v, sorted[..n]).moves, MovesOf(v, sorted).moves;
      hide MovesOf, OneMove, Indexed;
      forall a | a in before
        ensures exists entry <- sorted :: entry.rel == a.source
        ensures |a.source| <= |sorted[n].rel|
      {
        var entry :| entry in sorted[..n] && entry.rel == a.source;
        var i :| 0 <= i < n && sorted[i] == entry;
      }
    }
  }

  /** One entry's turn adds at most its own move. */
  lemma NextMove(v: View, m: Moving, entry: BaseEntry)
    requires Indexed(v)
    ensures || OneMove(v, m, entry).moves == m.moves
            || exists a | IsMove(a) && a.source == entry.rel :: OneMove(v, m, entry).moves == m.moves + [a]
  {
    var move := MoveOf(v, entry);
    if move.Some? { MoveExactly(v, entry, move.value.target, move.value.action); }
    hide MoveOf, Covered, MovedThere, MovedHere;
  }

  /** A folder is moved before what is in it. */
  lemma ShallowMovesFirst(input: PlanInput, i: nat, j: nat)
    requires i < j < |PlanOf(input).actions| && IsMove(PlanOf(input).actions[i])
    ensures IsMove(PlanOf(input).actions[j])
    ensures |PlanOf(input).actions[i].source| <= |PlanOf(input).actions[j].source|
  {
    var v, sorted := ViewOf(input), ShallowFirst(input.base);
    ViewIsIndexed(input);
    ShallowFirstSorts(input.base);
    MovesFollow(v, sorted);
    var a := PlanOf(input).actions[i];
    if MovesOf(v, sorted).moves == [] {
      KeysAreOrderly(input);
      DrawnOnce(PassOf(input), ByDepth(AllPaths(input)));
    }
  }
}
