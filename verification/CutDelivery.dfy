/**
 * A page's rows are stored at once, the folders they bring into view are
 * fetched after that, one by one, and the cursor is saved last.  When a fetch
 * fails, or the client is stopped, the rows come again -- and bring nothing
 * into view any more.
 */
module CutDelivery {
  import opened Common
  import opened RemoteItems
  import opened ChangeFeed
  import opened MirrorRows
  import opened FetchedFolders
  import opened Mirror

  /** What the client has stored when only `k` of the folders were fetched. */
  ghost function Cut(w: World, c: Items, changes: seq<Change>, answers: seq<seq<RemoteItem>>, k: nat): Items
    requires k <= |answers|
  {
    Answered(AppliedAll(c, w.roots, changes).0, answers[..k])
  }

  // ------------------------------------------------------------------ what it shows then

  /**
   * Shown items that the rows did not bring, or whose names they could not tell, are
   * below a folder fetched in time.
   */
  ghost predicate ReachedBy(w: World, changes: seq<Change>, fetches: seq<Id>) {
    forall x | Seen(w.after, w.roots, x) && (!HeldAt(w, changes, |changes|, x) || RenamedInsideMovedFolder(w, x)) ::
      exists q <- fetches :: LiveUnder(w.after, q, x)
  }

  lemma CutMirrorsExactly(w: World, c: Items, changes: seq<Change>, answers: seq<seq<RemoteItem>>, k: nat)
    requires Delivery(w, c, changes, answers) && k <= |answers|
    ensures Mirrors(Cut(w, c, changes, answers, k), w.after, w.roots) <==>
            ReachedBy(w, changes, AppliedAll(c, w.roots, changes).1[..k])
  {
    var (next, fetches) := AppliedAll(c, w.roots, changes);
    FetchesExactly(w, c, changes);
    CutIsUpToDate(w, c, changes, answers, k);
    hide *;
    if ReachedBy(w, changes, fetches[..k]) {
      AllShown(w, changes, next, fetches[..k], Cut(w, c, changes, answers, k));
    } else {
      var x := OneMissed(w, changes, fetches[..k]);
      NotReached(w, c, changes, answers, k, x);
    }
  }

  lemma OneMissed(w: World, changes: seq<Change>, fetches: seq<Id>) returns (x: Id)
    requires !ReachedBy(w, changes, fetches)
    ensures Seen(w.after, w.roots, x) && (!HeldAt(w, changes, |changes|, x) || RenamedInsideMovedFolder(w, x))
    ensures !exists q <- fetches :: LiveUnder(w.after, q, x)
  {
    hide HeldAt, Seen, RenamedInsideMovedFolder, LiveUnder;
    x :| Seen(w.after, w.roots, x) && (!HeldAt(w, changes, |changes|, x) || RenamedInsideMovedFolder(w, x))
         && !exists q <- fetches :: LiveUnder(w.after, q, x);
  }

  /** What the first answers add, and what they leave. */
  lemma CutIsUpToDate(w: World, c: Items, changes: seq<Change>, answers: seq<seq<RemoteItem>>, k: nat)
    requires Delivery(w, c, changes, answers) && k <= |answers|
    ensures var (next, fetches) := AppliedAll(c, w.roots, changes);
            var cut := Cut(w, c, changes, answers, k);
            && k <= |fetches| && UpToDate(w, next) && UpToDate(w, cut) && next.Keys <= cut.Keys
            && (forall x <- next :: cut[x] == next[x] || Same(cut[x], w.after[x]))
            && (forall q <- fetches[..k], x | LiveUnder(w.after, q, x) :: x in cut && Same(cut[x], w.after[x]))
  {
    hide RowsOf;
    var (next, fetches) := AppliedAll(c, w.roots, changes);
    Delivered(w, c, changes, answers);
    hide Transition, Lists, AppliedAll, Answered, LiveUnder, Seen, Mirrors, UpToDate;
    assert AllAnswered(w, fetches[..k], answers[..k]);
    AddAll(w, next, fetches[..k], answers[..k]);
  }

  lemma AllShown(w: World, changes: seq<Change>, next: Items, fetches: seq<Id>, cut: Items)
    requires ReachedBy(w, changes, fetches) && forall x :: x in next <==> HeldAt(w, changes, |changes|, x)
    requires UpToDate(w, next) && UpToDate(w, cut) && next.Keys <= cut.Keys
    requires forall x <- next :: cut[x] == next[x] || Same(cut[x], w.after[x])
    requires forall q <- fetches, x | LiveUnder(w.after, q, x) :: x in cut && Same(cut[x], w.after[x])
    ensures Mirrors(cut, w.after, w.roots)
  {
    forall x | Seen(w.after, w.roots, x)
      ensures x in cut && Same(cut[x], w.after[x])
    {
      hide HeldAt, Seen, RenamedInsideMovedFolder, LiveUnder, AsServer, ReachedBy, Same;
      ShownOne(w, changes, next, fetches, cut, x);
    }
    hide HeldAt, Seen, RenamedInsideMovedFolder, LiveUnder, AsServer, ReachedBy;
    MirrorsOf(w, cut);
  }

  lemma MirrorsOf(w: World, cut: Items)
    requires UpToDate(w, cut) && forall x | Seen(w.after, w.roots, x) :: x in cut && Same(cut[x], w.after[x])
    ensures Mirrors(cut, w.after, w.roots)
  {
    hide Seen, AsServer, Same;
  }

  lemma ShownOne(w: World, changes: seq<Change>, next: Items, fetches: seq<Id>, cut: Items, x: Id)
    requires ReachedBy(w, changes, fetches) && (x in next <==> HeldAt(w, changes, |changes|, x))
    requires Seen(w.after, w.roots, x) && x in w.after && (x in next ==> AsServer(w, next[x], x))
    requires x in next ==> x in cut && (cut[x] == next[x] || Same(cut[x], w.after[x]))
    requires forall q <- fetches | LiveUnder(w.after, q, x) :: x in cut && Same(cut[x], w.after[x])
    ensures x in cut && Same(cut[x], w.after[x])
  {
    hide HeldAt, RenamedInsideMovedFolder, LiveUnder, AsServer, Seen, Same;
    if x in next && !RenamedInsideMovedFolder(w, x) {
      hide *;
      ServerUnlessRenamed(w, next[x], x);
    } else {
      var q :| q in fetches && LiveUnder(w.after, q, x);
    }
  }

  lemma ServerUnlessRenamed(w: World, item: RemoteItem, x: Id)
    requires x in w.after && AsServer(w, item, x) && !RenamedInsideMovedFolder(w, x)
    ensures Same(item, w.after[x])
  {
  }

  lemma NotReached(w: World, c: Items, changes: seq<Change>, answers: seq<seq<RemoteItem>>, k: nat, x: Id)
    requires Delivery(w, c, changes, answers) && k <= |answers| && Seen(w.after, w.roots, x)
    requires x !in AppliedAll(c, w.roots, changes).0 || RenamedInsideMovedFolder(w, x)
    requires !exists q <- AppliedAll(c, w.roots, changes).1[..k] :: LiveUnder(w.after, q, x)
    ensures !Mirrors(Cut(w, c, changes, answers, k), w.after, w.roots)
  {
    var (next, fetches) := AppliedAll(c, w.roots, changes);
    var cut := Cut(w, c, changes, answers, k);
    if x in cut {
      forall m, i | 0 <= m < |answers[..k]| && 0 <= i < |answers[..k][m]|
        ensures answers[..k][m][i].id != x
      {
        assert IsSnapshot(w.after, fetches[m], answers[m]);
        assert fetches[..k][m] in fetches[..k];
      }
      NoAnswerNoChange(next, answers[..k], x);
      assert x !in RowsOf(w);
      NoRowNoChange(c, w.roots, changes, x);
      assert w.before[x].name != w.after[x].name;
    }
  }

  // -------------------------------------------------------- the rows once more, by what is held

  /** An item without a row that is held after more rows was held after fewer. */
  lemma {:induction false} HeldBefore(w: World, changes: seq<Change>, i: nat, k: nat, x: Id)
    requires i <= k && RowAt(changes, x) >= k && HeldAt(w, changes, k, x)
    ensures HeldAt(w, changes, i, x)
    decreases if x in w.before then |w.before[x].path| else 0
  {
    HeldMeans(w, changes, k, x);
    HeldMeans(w, changes, i, x);
    var p := w.before[x].parentId.value;
    var j := RowAt(changes, p);
    if p !in w.roots && j >= i { HeldBefore(w, changes, i, if j < k then j else k, p); }
  }

  /** The folder of a live item, if it is held at all, is held by the time of the item's row. */
  lemma FolderInTime(w: World, changes: seq<Change>, i: nat, p: Id)
    requires Transition(w) && Lists(RowsOf(w), changes) && i < |changes|
    requires var q := changes[i].itemId;
             q in w.after && w.after[q].Live() && w.after[q].parentId == Some(p) && p in w.after && w.after[p].Live()
    requires HeldAt(w, changes, |changes|, p)
    ensures HeldAt(w, changes, i, p)
  {
    var q, j := changes[i].itemId, RowAt(changes, p);
    if j < |changes| {
      RowMeans(w, q);
      RowMeans(w, p);
      assert Fits(w.after, w.filesRoot, q);
      assert |changes[j].path| < |changes[i].path|;
      assert j < i;
    } else {
      HeldBefore(w, changes, i, |changes|, p);
    }
  }

  /** What is in the cut was brought by the rows or is in a folder that was fetched. */
  lemma InCut(w: World, c: Items, changes: seq<Change>, answers: seq<seq<RemoteItem>>, k: nat, x: Id)
    requires Delivery(w, c, changes, answers) && k <= |answers| && x in Cut(w, c, changes, answers, k)
    ensures x in AppliedAll(c, w.roots, changes).0 ||
            exists q <- AppliedAll(c, w.roots, changes).1[..k] :: LiveUnder(w.after, q, x)
  {
    var (next, fetches) := AppliedAll(c, w.roots, changes);
    if forall m, i | 0 <= m < |answers[..k]| && 0 <= i < |answers[..k][m]| :: answers[..k][m][i].id != x {
      NoAnswerNoChange(next, answers[..k], x);
    } else {
      var m, i :| 0 <= m < |answers[..k]| && 0 <= i < |answers[..k][m]| && answers[..k][m][i].id == x;
      assert IsSnapshot(w.after, fetches[m], answers[m]);
      assert fetches[..k][m] in fetches[..k];
    }
  }

  /** An item with a row that is not there has no folder there, whatever has been fetched. */
  lemma NoFolderNoRow(w: World, c: Items, changes: seq<Change>, answers: seq<seq<RemoteItem>>, k: nat, i: nat)
    requires Delivery(w, c, changes, answers) && k <= |answers| && i < |changes|
    requires var q := changes[i].itemId;
             && q !in Cut(w, c, changes, answers, k) && q !in w.roots
             && q in w.after && w.after[q].Live() && w.after[q].parentId.Some?
    ensures w.after[changes[i].itemId].parentId.value !in w.roots
    ensures w.after[changes[i].itemId].parentId.value !in Cut(w, c, changes, answers, k)
  {
    hide RowsOf;
    var (next, fetches) := AppliedAll(c, w.roots, changes);
    var q := changes[i].itemId;
    var p := w.after[q].parentId.value;
    FetchesExactly(w, c, changes);
    CutIsUpToDate(w, c, changes, answers, k);
    RowIsAt(changes, i);
    assert Fits(w.after, w.filesRoot, q);
    hide UpToDate, HeldAt, Answered, AppliedAll, Cut;
    assert q !in next;
    assert !StoredAt(w, changes, i, q) by { StoredIsHeld(w, changes, i, q); }
    if p in Cut(w, c, changes, answers, k) {
      InCut(w, c, changes, answers, k, p);
      if p in next {
        SeenIsLive(w, next, p);
        FolderInTime(w, changes, i, p);
      } else {
        var f :| f in fetches[..k] && LiveUnder(w.after, f, p);
        assert LiveUnder(w.after, f, q);
      }
    }
  }

  lemma StoredIsHeld(w: World, changes: seq<Change>, i: nat, q: Id)
    requires RowAt(changes, q) == i < |changes|
    ensures StoredAt(w, changes, i, q) <==> HeldAt(w, changes, |changes|, q)
  {
  }

  lemma SeenIsLive(w: World, c: Items, x: Id)
    requires UpToDate(w, c) && x in c
    ensures x in w.after && w.after[x].Live() && x !in w.roots
  {
    assert Seen(w.after, w.roots, x);
  }

  // ----------------------------------------------------------------- exact, and closed upwards

  /** Everything with a row is stored just as the row says. */
  ghost predicate Exact(w: World, c: Items, done: set<Id>) {
    forall x <- c | x in done :: x in w.after && c[x] == FromState(w.after[x])
  }

  lemma ExactNext(w: World, changes: seq<Change>, k: nat, c: Items, fetch: set<Id>)
    requires k < |changes| && Course(w, changes, k, c, fetch) && Exact(w, c, Ids(changes[..k]))
    ensures Exact(w, Applied(c, w.roots, changes[k]).0, Ids(changes[..k + 1]))
  {
    var q, done := changes[k].itemId, Ids(changes[..k]);
    var next := Applied(c, w.roots, changes[k]).0;
    OwnRow(w, changes, k, c, fetch);
    OneMoreDone(changes, k);
    StoredExactly(w, changes, k, c, fetch);
    hide Course, RowsOf, Applied, Under, Ids, Seen, Stores, StoredAt;
    assert forall x <- next ::
        (x in w.after && next[x] == FromState(w.after[x])) || (x != q && x in c && next[x] == c[x]);
  }

  lemma StoredExactly(w: World, changes: seq<Change>, k: nat, c: Items, fetch: set<Id>)
    requires k < |changes| && Course(w, changes, k, c, fetch)
    ensures var q, next := changes[k].itemId, Applied(c, w.roots, changes[k]).0;
            forall x <- next ::
              if x == q then q in w.after && next[q] == FromState(w.after[q]) else x in c && next[x] == c[x]
  {
    var q := changes[k].itemId;
    OwnRow(w, changes, k, c, fetch);
    Outcome(w, c, Ids(changes[..k]), fetch, q);
    RowMeans(w, q);
    if q in w.after { assert Fits(w.after, w.filesRoot, q); }
    UnderSelf(c, q);
    hide Course, RowsOf, Applied, Under, Ids, Seen, InScope;
  }

  lemma {:induction false} CourseEnds(w: World, changes: seq<Change>, k: nat, c: Items, fetch: set<Id>)
    returns (last: set<Id>)
    requires Course(w, changes, k, c, fetch) && Exact(w, c, Ids(changes[..k]))
    ensures var next := AppliedAll(c, w.roots, changes[k..]).0;
            Course(w, changes, |changes|, next, last) && Exact(w, next, Ids(changes))
    decreases |changes| - k
  {
    if k == |changes| {
      last := fetch;
      assert changes[..k] == changes && changes[k..] == [];
    } else {
      var (next, shown) := Applied(c, w.roots, changes[k]);
      assert changes[k..][0] == changes[k] && changes[k..][1..] == changes[k + 1..];
      CourseGoesOn(w, changes, k, c, fetch);
      ExactNext(w, changes, k, c, fetch);
      hide Course, Exact, Applied, Ids;
      last := CourseEnds(w, changes, k + 1, next, fetch + (if shown.Some? then {shown.value} else {}));
    }
  }

  /** Where an item is, its folder is too, nearer the top. */
  ghost predicate Closed(w: World, c: Items) {
    forall x <- c :: ClosedAt(w, c, x)
  }

  ghost predicate ClosedAt(w: World, c: Items, x: Id)
    requires x in c
  {
    && x in w.after && c[x].parentId == w.after[x].parentId && c[x].parentId.Some? && |w.after[x].path| <= 1000
    && (c[x].parentId.value in w.roots ||
        (c[x].parentId.value in c && c[x].parentId.value in w.after &&
         |w.after[c[x].parentId.value].path| < |w.after[x].path|))
  }

  lemma {:induction false} ClosedInScope(w: World, c: Items, p: Id, steps: nat)
    requires Closed(w, c) && p in c && |w.after[p].path| + 1 < steps
    ensures InScope(c, w.roots, Some(p), steps)
    decreases steps
  {
    assert ClosedAt(w, c, p);
    var g := c[p].parentId.value;
    if p !in w.roots {
      if g in w.roots { assert InScope(c, w.roots, Some(g), steps - 1); } else { ClosedInScope(w, c, g, steps - 1); }
    }
  }

  lemma RowsAreClosed(w: World, changes: seq<Change>, c: Items, last: set<Id>)
    requires Course(w, changes, |changes|, c, last) && UpToDate(w, c)
    ensures Closed(w, c)
  {
    forall x | x in c
      ensures ClosedAt(w, c, x)
    {
      assert Holds(w, c, Ids(changes[..|changes|]), last, x) && Seen(w.after, w.roots, x);
      assert Fits(w.after, w.filesRoot, x) && AsServer(w, c[x], x);
    }
  }

  lemma FetchedIsClosed(w: World, cut: Items, f: Id, x: Id)
    requires Transition(w) && UpToDate(w, cut) && x in cut && f in cut && LiveUnder(w.after, f, x)
    requires forall y | LiveUnder(w.after, f, y) :: y in cut
    ensures ClosedAt(w, cut, x)
  {
    assert Seen(w.after, w.roots, x) && AsServer(w, cut[x], x) && Fits(w.after, w.filesRoot, x);
    var p := w.after[x].parentId.value;
    assert p != f ==> LiveUnder(w.after, f, p);
  }

  lemma CutIsClosed(w: World, c: Items, changes: seq<Change>, answers: seq<seq<RemoteItem>>, k: nat)
    requires Delivery(w, c, changes, answers) && k <= |answers| && Closed(w, AppliedAll(c, w.roots, changes).0)
    ensures Closed(w, Cut(w, c, changes, answers, k))
  {
    var (next, fetches) := AppliedAll(c, w.roots, changes);
    var cut := Cut(w, c, changes, answers, k);
    CutIsUpToDate(w, c, changes, answers, k);
    FetchesExactly(w, c, changes);
    hide RowsOf, AppliedAll, Answered, Cut, LiveUnder, Fetched, HeldAt, Seen;
    forall x | x in cut
      ensures ClosedAt(w, cut, x)
    {
      InCut(w, c, changes, answers, k, x);
      if x in next {
        assert ClosedAt(w, next, x);
        SameFolder(w, next, cut, x);
      } else {
        var f :| f in fetches[..k] && LiveUnder(w.after, f, x);
        assert f in fetches && Fetched(w, changes, f);
        FetchedIsHeld(w, changes, f);
        FetchedIsClosed(w, cut, f, x);
      }
    }
    assert Closed(w, cut) by { hide UpToDate, Delivery; }
  }

  lemma FetchedIsHeld(w: World, changes: seq<Change>, f: Id)
    requires Fetched(w, changes, f)
    ensures HeldAt(w, changes, |changes|, f)
  {
    StoredIsHeld(w, changes, RowAt(changes, f), f);
  }

  lemma SameFolder(w: World, next: Items, cut: Items, x: Id)
    requires x in next && next.Keys <= cut.Keys && ClosedAt(w, next, x) && UpToDate(w, cut)
    ensures ClosedAt(w, cut, x)
  {
    assert AsServer(w, cut[x], x);
  }

  lemma {:induction false} AnswersExact(w: World, c: Items, done: set<Id>, fetches: seq<Id>,
    answers: seq<seq<RemoteItem>>)
    requires Exact(w, c, done) && AllAnswered(w, fetches, answers) && Transition(w)
    ensures Exact(w, Answered(c, answers), done)
    decreases answers
  {
    if answers != [] {
      assert IsSnapshot(w.after, fetches[0], answers[0]);
      forall i | 0 <= i < |answers[0]|
        ensures answers[0][i].id in w.after && answers[0][i] == FromState(w.after[answers[0][i].id])
      {
      }
      AnswerExact(w, c, done, answers[0]);
      AnswersExact(w, AddedUnder(c, answers[0]), done, fetches[1..], answers[1..]);
    }
  }

  lemma {:induction false} AnswerExact(w: World, c: Items, done: set<Id>, answer: seq<RemoteItem>)
    requires Exact(w, c, done)
    requires forall i | 0 <= i < |answer| :: answer[i].id in w.after && answer[i] == FromState(w.after[answer[i].id])
    ensures Exact(w, AddedUnder(c, answer), done)
    decreases answer
  {
    if answer != [] {
      var item := answer[0];
      AnswerExact(w, if item.id !in c || c[item.id].rev <= item.rev then c[item.id := item] else c, done, answer[1..]);
    }
  }

  // --------------------------------------------------------------------------- the replay

  /** One row over a tree that has it already. */
  lemma RowAgain(w: World, cut: Items, q: Id)
    requires Transition(w) && UpToDate(w, cut) && Closed(w, cut) && Exact(w, cut, {q}) && q in RowsOf(w)
    requires q !in cut && q !in w.roots && q in w.after && w.after[q].Live() && w.after[q].parentId.Some? ==>
               w.after[q].parentId.value !in w.roots && w.after[q].parentId.value !in cut
    ensures Applied(cut, w.roots, RowsOf(w)[q]) == (cut, None)
  {
    hide RowsOf;
    RowMeans(w, q);
    var row := RowsOf(w)[q];
    if q in w.after { assert Fits(w.after, w.filesRoot, q); }
    if q in cut {
      SeenIsLive(w, cut, q);
      assert ClosedAt(w, cut, q);
      var p := cut[q].parentId.value;
      if p in w.roots {
        assert InScope(cut, w.roots, Some(p), SCOPE_LIMIT);
      } else {
        ClosedInScope(w, cut, p, SCOPE_LIMIT);
      }
      assert FromChange(row) == cut[q];
      assert cut[q := FromChange(row)] == cut;
    } else if q in w.after && w.after[q].Live() && q !in w.roots {
      assert !InScope(cut, w.roots, w.after[q].parentId, SCOPE_LIMIT);
    }
    hide UpToDate, Closed, Exact, InScope, Transition;
  }

  lemma {:induction false} RowsAgain(w: World, cut: Items, rest: seq<Change>)
    requires forall d <- rest :: Applied(cut, w.roots, d) == (cut, None)
    ensures AppliedAll(cut, w.roots, rest) == (cut, [])
    decreases rest
  {
    if rest != [] {
      assert rest[0] in rest;
      RowsAgain(w, cut, rest[1..]);
      var none: seq<Id> := [];
      assert none + none == none;
    }
  }

  /** The rows come again because the cursor was not saved: nothing changes, and nothing is fetched. */
  lemma ReplayFetchesNothing(w: World, c: Items, changes: seq<Change>, answers: seq<seq<RemoteItem>>, k: nat)
    requires Delivery(w, c, changes, answers) && k <= |answers|
    ensures var cut := Cut(w, c, changes, answers, k); AppliedAll(cut, w.roots, changes) == (cut, [])
  {
    hide RowsOf;
    var (next, fetches) := AppliedAll(c, w.roots, changes);
    var cut := Cut(w, c, changes, answers, k);
    CourseStarts(w, c, changes);
    assert changes[0..] == changes && Ids(changes[..0]) == {};
    var last := CourseEnds(w, changes, 0, c, {});
    CutIsUpToDate(w, c, changes, answers, k);
    RowsAreClosed(w, changes, next, last);
    CutIsClosed(w, c, changes, answers, k);
    assert AllAnswered(w, fetches[..k], answers[..k]);
    AnswersExact(w, next, Ids(changes), fetches[..k], answers[..k]);
    hide UpToDate, Course, Answered, AppliedAll, Applied;
    forall i | 0 <= i < |changes|
      ensures Applied(cut, w.roots, changes[i]) == (cut, None)
    {
      var q := changes[i].itemId;
      assert changes[i] in changes;
      if q !in cut && q !in w.roots && q in w.after && w.after[q].Live() && w.after[q].parentId.Some? {
        NoFolderNoRow(w, c, changes, answers, k, i);
      }
      RowAgain(w, cut, q);
    }
    RowsAgain(w, cut, changes);
  }

  /**
   * So a delivery cut off after `k` of its folders ends, once the rows have come
   * again, with the live tree exactly if those folders already held all that the
   * rows do not bring; the contents of the others never come.
   */
  lemma ReplayAfterCut(w: World, c: Items, changes: seq<Change>, answers: seq<seq<RemoteItem>>, k: nat)
    requires Delivery(w, c, changes, answers) && k <= |answers|
    ensures var (again, fetches) := AppliedAll(Cut(w, c, changes, answers, k), w.roots, changes);
            && fetches == []
            && (Mirrors(again, w.after, w.roots) <==> ReachedBy(w, changes, AppliedAll(c, w.roots, changes).1[..k]))
  {
    ReplayFetchesNothing(w, c, changes, answers, k);
    CutMirrorsExactly(w, c, changes, answers, k);
    hide *;
  }

  // ----------------------------------------------------------------- contents that never come

  /** Folder `a` and the file in it come back from the trash together. */
  function RestoredTogether(): World {
    var a, x := Entry(Folder, "a", "root", "A", ["A"], 2), Entry(File, "x", "a", "X", ["A", "X"], 1);
    World(map["a" := a.(deletedAt := Some(0), storageRevision := 1), "x" := x.(deletedAt := Some(0))],
          map["a" := a, "x" := x], {"a", "x"}, {"root"}, "root")
  }

  lemma RestoredTogetherKinds()
    ensures var w := RestoredTogether();
            && Only(w.before, w.touched) == w.before && Only(w.after, w.touched) == w.after
            && KindsOf(w) == map["a" := Restored, "x" := Restored]
  {
    var w := RestoredTogether();
    assert Only(w.before, w.touched) == w.before && Only(w.after, w.touched) == w.after;
  }

  lemma RestoredTogetherRows()
    ensures RowsOf(RestoredTogether()) == map["a" := RowOf(Restored, RestoredTogether().after["a"])]
  {
    var w := RestoredTogether();
    RestoredTogetherKinds();
    hide KindOf, Kinds, Only;
    assert KindsOf(w) == Kinds(w.before, w.after);
    assert CoveredByParent(KindsOf(w), w.before, w.after, "x");
    assert !CoveredByParent(KindsOf(w), w.before, w.after, "a");
  }

  lemma RestoredTogetherValid()
    ensures var w := RestoredTogether();
            && Transition(w) && RootsApart(w.after, w.roots)
            && (forall x :: !Seen(w.before, w.roots, x))
            && (forall x :: Seen(w.after, w.roots, x) <==> x in {"a", "x"})
            && (forall x :: LiveUnder(w.after, "a", x) <==> x == "x")
  {
    var w := RestoredTogether();
    assert Fits(w.before, "root", "a") && Fits(w.before, "root", "x");
    assert Fits(w.after, "root", "a") && Fits(w.after, "root", "x");
    assert Seen(w.after, w.roots, "a") && LiveUnder(w.after, "a", "x");
    assert !LiveUnder(w.after, "a", "a");
  }

  lemma RestoredTogetherApplied(row: Change)
    requires row == RowOf(Restored, RestoredTogether().after["a"])
    ensures AppliedAll(map[], {"root"}, [row]) == (map["a" := FromChange(row)], ["a"])
  {
    var none: Items := map[];
    assert InScope(none, {"root"}, Some("root"), SCOPE_LIMIT);
    assert none["a" := FromChange(row)] == map["a" := FromChange(row)];
    assert Applied(none, {"root"}, row) == (map["a" := FromChange(row)], Some("a"));
    assert [row][0] == row && [row][1..] == [];
    var no: seq<Id> := [];
    assert AppliedAll(map["a" := FromChange(row)], {"root"}, []) == (map["a" := FromChange(row)], no);
    assert ["a"] + no == ["a"];
  }

  /** The folder is shown; its contents were not fetched, and the page that comes again does not ask for them. */
  lemma ContentsNeverCome(row: Change)
    requires row == RowOf(Restored, RestoredTogether().after["a"])
    ensures var w := RestoredTogether();
            var answers := [[FromState(w.after["x"])]];
            && Delivery(w, map[], [row], answers)
            && !Mirrors(AppliedAll(Cut(w, map[], [row], answers, 0), w.roots, [row]).0, w.after, w.roots)
            && AppliedAll(Cut(w, map[], [row], answers, 0), w.roots, [row]).1 == []
  {
    hide RowsOf;
    var w := RestoredTogether();
    var answers := [[FromState(w.after["x"])]];
    RestoredTogetherRows();
    RestoredTogetherValid();
    RestoredTogetherApplied(row);
    assert [row][0].itemId == "a" && [row][0] == row;
    assert Lists(RowsOf(w), [row]);
    var answer: seq<RemoteItem> := answers[0];
    assert answer[0].id == "x";
    assert IsSnapshot(w.after, "a", answers[0]);
    assert answers[..0] == [];
    var cut := Cut(w, map[], [row], answers, 0);
    assert cut == map["a" := FromChange(row)];
    assert Delivery(w, map[], [row], answers);
    ReplayFetchesNothing(w, map[], [row], answers, 0);
    hide *;
    assert "x" !in cut;
    StillMissing(w, cut, "x");
  }

  lemma StillMissing(w: World, c: Items, x: Id)
    requires Seen(w.after, w.roots, x) && x !in c
    ensures !Mirrors(c, w.after, w.roots)
  {
  }
}
