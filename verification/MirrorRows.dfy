/**
 * The client's tree on the way through a mutation's feed rows.  At each point
 * an item is either "fresh" (it and everything above it is as the server has it
 * after the mutation) or still exactly as it was before and not yet due; one
 * row keeps this so.
 */
module MirrorRows {
  import opened Common
  import opened RemoteItems
  import opened ChangeFeed

  /** One committed mutation, seen from a client with these pair folders. */
  datatype World = World(before: Snapshot, after: Snapshot, touched: set<Id>, roots: set<Id>, filesRoot: Id)

  function Only(t: Snapshot, ids: set<Id>): Snapshot {
    map x | x in t && x in ids :: t[x]
  }

  function KindsOf(w: World): map<Id, ChangeKind> {
    Kinds(Only(w.before, w.touched), Only(w.after, w.touched))
  }

  function RowsOf(w: World): map<Id, Change> {
    Rows(Only(w.before, w.touched), Only(w.after, w.touched))
  }

  /** The folder of a live item is live, and paths spell out the folders above. */
  ghost predicate WellFormed(t: Snapshot, filesRoot: Id) {
    filesRoot !in t && forall x {:trigger Fits(t, filesRoot, x)} | x in t :: Fits(t, filesRoot, x)
  }

  predicate Fits(t: Snapshot, filesRoot: Id, x: Id)
    requires x in t
  {
    var above := if t[x].parentId.Some? && t[x].parentId.value in t then t[t[x].parentId.value].path else [];
    && t[x].id == x
    && t[x].path == above + [t[x].name] && |t[x].path| <= 1000
    && (t[x].Live() ==>
          || t[x].parentId.None? || t[x].parentId.value == filesRoot
          || (t[x].parentId.value in t && t[t[x].parentId.value].Live() && t[t[x].parentId.value].kind == Folder))
  }

  /** Equal in everything a client keeps, except the revision. */
  predicate SameItem(a: ItemState, b: ItemState) {
    && a.id == b.id && a.kind == b.kind && a.parentId == b.parentId && a.name == b.name
    && a.deletedAt.Some? == b.deletedAt.Some?
    && a.sizeBytes == b.sizeBytes && a.contentChecksum == b.contentChecksum
    && a.clientModifiedAt == b.clientModifiedAt
  }

  predicate Same(item: RemoteItem, s: ItemState) {
    && item.id == s.id && item.kind == s.kind && item.parentId == s.parentId && item.name == s.name
    && item.size == s.sizeBytes && item.checksum == s.contentChecksum && item.modifiedAt == s.clientModifiedAt
  }

  /** What the server promises about one mutation. */
  ghost predicate Transition(w: World) {
    && WellFormed(w.before, w.filesRoot) && WellFormed(w.after, w.filesRoot)
    && (forall x <- w.before :: x in w.after ==>
          w.before[x].kind == w.after[x].kind && w.before[x].storageRevision <= w.after[x].storageRevision)
    && (forall x | x !in w.touched && (x in w.before || x in w.after) ::
          x in w.before && x in w.after && SameItem(w.before[x], w.after[x]))
    && (forall r <- w.roots :: (r in w.before <==> r in w.after) && (r in w.before ==>
          w.before[r].Live() && w.after[r].Live()))
  }

  /** Items a client with these pair folders shows: live, and below a pair folder. */
  ghost predicate Seen(t: Snapshot, roots: set<Id>, x: Id)
    decreases if x in t then |t[x].path| else 0
  {
    && x in t && t[x].Live() && x !in roots && t[x].parentId.Some?
    && var p := t[x].parentId.value;
       p in roots || (p in t && |t[p].path| < |t[x].path| && Seen(t, roots, p))
  }

  /** The client holds exactly the items it should show, at most behind on revisions. */
  ghost predicate Mirrors(c: Items, t: Snapshot, roots: set<Id>) {
    && (forall x :: x in c <==> Seen(t, roots, x))
    && (forall x <- c :: Same(c[x], t[x]) && c[x].rev <= t[x].storageRevision)
  }

  /** No pair folder lies inside another's folder. */
  ghost predicate RootsApart(t: Snapshot, roots: set<Id>) {
    forall r <- roots :: r in t && t[r].parentId.Some? ==>
      t[r].parentId.value !in roots && !Seen(t, roots, t[r].parentId.value)
  }

  /** The case the feed cannot express: a child renamed in place while its folder moves. */
  ghost predicate RenamedInsideMovedFolder(w: World, x: Id) {
    var kinds := KindsOf(w);
    && x in kinds && kinds[x] == Moved && x in w.before && x in w.after
    && w.before[x].parentId == w.after[x].parentId && w.after[x].parentId.Some?
    && w.after[x].parentId.value in kinds && kinds[w.after[x].parentId.value] == Moved
  }

  // -------------------------------------------------------------- the rows

  /** An item without a row is unchanged, or came back from trash with its folder. */
  lemma NoRow(w: World, x: Id)
    requires Transition(w)
    requires x in w.after && w.after[x].Live() && x !in RowsOf(w)
    ensures x in w.before && w.before[x].parentId == w.after[x].parentId
    ensures w.before[x].Live() ==> SameItem(w.before[x], w.after[x]) || RenamedInsideMovedFolder(w, x)
    ensures !w.before[x].Live() ==>
              w.after[x].parentId.Some? && w.after[x].parentId.value in w.before
              && !w.before[w.after[x].parentId.value].Live()
  {
    assert Fits(w.after, w.filesRoot, x);
    if x in w.before { assert Fits(w.before, w.filesRoot, x); }
    if x in KindsOf(w) {
      var p := w.after[x].parentId;
      assert CoveredByParent(KindsOf(w), Only(w.before, w.touched), Only(w.after, w.touched), x);
    } else if x in w.touched {
      assert KindOf(Find(Only(w.before, w.touched), x), Find(Only(w.after, w.touched), x)).None?;
    }
  }

  /** An item that is gone and has no row went with its folder, in the same way. */
  lemma GoneWithoutRow(w: World, x: Id)
    requires Transition(w) && x in w.before && w.before[x].Live()
    requires !(x in w.after && w.after[x].Live()) && x !in RowsOf(w)
    ensures w.before[x].parentId.Some?
    ensures var p := w.before[x].parentId.value;
            p in w.before && w.before[p].Live() && !(p in w.after && w.after[p].Live())
  {
    var kinds := KindsOf(w);
    assert Fits(w.before, w.filesRoot, x);
    assert x in w.touched;
    assert kinds[x] == (if x in w.after then Trashed else Deleted);
    assert CoveredByParent(kinds, Only(w.before, w.touched), Only(w.after, w.touched), x);
    var p := w.before[x].parentId.value;
    assert kinds[p] == kinds[x];
  }

  /** What a row says about the tree after the mutation. */
  lemma RowMeans(w: World, x: Id)
    requires Transition(w) && x in RowsOf(w)
    ensures RowsOf(w)[x].itemId == x && x in KindsOf(w)
    ensures Removes(RowsOf(w)[x]) <==> !(x in w.after && w.after[x].Live())
    ensures x in w.after ==> RowsOf(w)[x] == RowOf(KindsOf(w)[x], w.after[x])
    ensures x !in w.after ==> x in w.before && RowsOf(w)[x] == RowOf(KindsOf(w)[x], w.before[x])
    ensures RowsOf(w)[x].kind == Created <==> x !in w.before
  {
    if x in w.before { assert Fits(w.before, w.filesRoot, x); }
    if x in w.after { assert Fits(w.after, w.filesRoot, x); }
  }

  // ------------------------------------------------- the client's tree on the way

  /** The item is as the server has it after the mutation, up to a name the feed cannot tell. */
  ghost predicate AsServer(w: World, item: RemoteItem, x: Id)
    requires x in w.after
  {
    Same(item, w.after[x]) ||
    (RenamedInsideMovedFolder(w, x) && item.id == x && item.parentId == w.after[x].parentId)
  }

  /** `x` and everything above it, up to a pair folder, is as the server has it after the mutation. */
  ghost predicate Fresh(w: World, c: Items, x: Id)
    decreases if x in w.after then |w.after[x].path| else 0
  {
    && x in c && x in w.after && w.after[x].Live() && x !in w.roots && AsServer(w, c[x], x)
    && w.after[x].parentId.Some?
    && var p := w.after[x].parentId.value;
       p in w.roots || (p in w.after && |w.after[p].path| < |w.after[x].path| && Fresh(w, c, p))
  }

  /** A folder above `x` waits to be fetched. */
  ghost predicate Shadowed(w: World, fetch: set<Id>, x: Id)
    decreases if x in w.after then |w.after[x].path| else 0
  {
    && x in w.after && w.after[x].parentId.Some?
    && var p := w.after[x].parentId.value;
       p in fetch || (p !in w.roots && p in w.after && |w.after[p].path| < |w.after[x].path| && Shadowed(w, fetch, p))
  }

  ghost predicate Stale(w: World, c: Items, done: set<Id>, x: Id)
    requires x in c
  {
    x !in done && Seen(w.before, w.roots, x) && Same(c[x], w.before[x])
  }

  /** The newest revision the server knows for `x`. */
  function NewestRev(w: World, x: Id): int
    requires x in w.before || x in w.after
  {
    if x in w.after then w.after[x].storageRevision else w.before[x].storageRevision
  }

  /** What holds of one id once the rows of `done` are applied and the folders of `fetch` wait. */
  ghost predicate Holds(w: World, c: Items, done: set<Id>, fetch: set<Id>, x: Id) {
    && (x in c ==>
          && c[x].id == x && x !in w.roots
          && c[x].parentId.Some? && (c[x].parentId.value in w.roots || c[x].parentId.value in c)
          && (x in w.before || x in w.after) && c[x].rev <= NewestRev(w, x)
          && (Fresh(w, c, x) || Stale(w, c, done, x)))
    && (x in done && x in RowsOf(w) && Seen(w.after, w.roots, x) ==> Fresh(w, c, x) || Shadowed(w, fetch, x))
    && (Seen(w.after, w.roots, x) && x !in RowsOf(w) && FreshAbove(w, c, x) ==>
          Fresh(w, c, x) || Shadowed(w, fetch, x))
    && (Seen(w.before, w.roots, x) && x !in RowsOf(w) && StaleAbove(w, c, x) ==> x in c)
    && (x in fetch ==> Fresh(w, c, x))
  }

  ghost predicate FreshAbove(w: World, c: Items, x: Id) {
    && x in w.after && w.after[x].parentId.Some?
    && (w.after[x].parentId.value in w.roots || Fresh(w, c, w.after[x].parentId.value))
  }

  ghost predicate StaleAbove(w: World, c: Items, x: Id) {
    && x in w.before && w.before[x].parentId.Some?
    && w.before[x].parentId.value in c && !Fresh(w, c, w.before[x].parentId.value)
  }

  ghost predicate Stage(w: World, c: Items, done: set<Id>, fetch: set<Id>) {
    forall x {:trigger Holds(w, c, done, fetch, x)} :: Holds(w, c, done, fetch, x)
  }

  /** Every row for a live item nearer the top than `q` has been applied. */
  ghost predicate Due(w: World, done: set<Id>, q: Id) {
    q in w.after && w.after[q].Live() ==>
      forall z | z in RowsOf(w) && z in w.after && w.after[z].Live() && |w.after[z].path| < |w.after[q].path| ::
        z in done
  }

  lemma Start(w: World, c: Items)
    requires Transition(w) && Mirrors(c, w.before, w.roots)
    ensures Stage(w, c, {}, {})
  {
    hide RowsOf;
    forall x
      ensures Holds(w, c, {}, {}, x)
    {
      if x in c {
        assert Seen(w.before, w.roots, x);
        var p := w.before[x].parentId.value;
        assert p in w.roots || p in c;
        assert Stale(w, c, {}, x);
        assert Fits(w.before, w.filesRoot, x);
      }
      if Seen(w.after, w.roots, x) && x !in RowsOf(w) && FreshAbove(w, c, x) {
        NoRow(w, x);
        assert Fits(w.before, w.filesRoot, x);
        var p := w.after[x].parentId.value;
        assert p in w.roots || p in c;
        assert Seen(w.before, w.roots, x);
        assert x in c;
      }
    }
  }

  // ------------------------------------------------------------- one row applied

  /** A row that finds nothing to do. */
  lemma Stays(w: World, c: Items, done: set<Id>, fetch: set<Id>, q: Id)
    requires Stage(w, c, done, fetch) && q !in c
    requires Seen(w.after, w.roots, q) ==> Shadowed(w, fetch, q)
    ensures Stage(w, c, done + {q}, fetch)
  {
    hide RowsOf;
    forall x
      ensures Holds(w, c, done + {q}, fetch, x)
    {
      assert Holds(w, c, done, fetch, x);
      if x in c && Stale(w, c, done, x) {
        assert Stale(w, c, done + {q}, x);
      }
    }
  }

  lemma {:induction false} FreshBelow(w: World, c: Items, x: Id, q: Id, n: nat)
    requires Fresh(w, c, x) && Reaches(c, x, q, n) && q !in w.roots
    requires forall r <- w.roots :: r !in c
    ensures Fresh(w, c, q)
    decreases n
  {
    if x != q {
      FreshBelow(w, c, c[x].parentId.value, q, n - 1);
    }
  }

  lemma {:induction false} FreshKept(w: World, c: Items, less: Items, x: Id)
    requires forall y | Fresh(w, c, y) :: y in less && less[y] == c[y]
    requires Fresh(w, c, x)
    ensures Fresh(w, less, x)
    decreases |w.after[x].path|
  {
    if w.after[x].parentId.value !in w.roots {
      FreshKept(w, c, less, w.after[x].parentId.value);
    }
  }

  lemma {:induction false} FreshInMore(w: World, less: Items, c: Items, x: Id)
    requires forall y <- less :: y in c && less[y] == c[y]
    requires Fresh(w, less, x)
    ensures Fresh(w, c, x)
    decreases |w.after[x].path|
  {
    if w.after[x].parentId.value !in w.roots {
      FreshInMore(w, less, c, w.after[x].parentId.value);
    }
  }

  /** A subtree that is not fresh leaves, and takes no fresh item with it. */
  lemma Removed(w: World, c: Items, done: set<Id>, fetch: set<Id>, q: Id)
    requires Transition(w) && Stage(w, c, done, fetch)
    requires q in c && q in RowsOf(w) && !Fresh(w, c, q)
    requires Seen(w.after, w.roots, q) ==> Shadowed(w, fetch, q)
    ensures Stage(w, WithoutSubtree(c, q), done + {q}, fetch)
    ensures forall x :: Fresh(w, c, x) <==> Fresh(w, WithoutSubtree(c, q), x)
  {
    hide RowsOf;
    var less := WithoutSubtree(c, q);
    assert forall r <- w.roots :: r !in c by {
      forall r | r in w.roots ensures r !in c { assert Holds(w, c, done, fetch, r); }
    }
    assert q !in w.roots && q !in less by { UnderSelf(c, q); }
    forall y | Fresh(w, c, y)
      ensures y in less && less[y] == c[y]
    {
      if Under(c, y, q) {
        var n: nat :| Reaches(c, y, q, n);
        FreshBelow(w, c, y, q, n);
      }
    }
    forall x
      ensures Fresh(w, c, x) <==> Fresh(w, less, x)
    {
      if Fresh(w, c, x) { FreshKept(w, c, less, x); }
      if Fresh(w, less, x) { FreshInMore(w, less, c, x); }
    }
    forall x
      ensures Holds(w, less, done + {q}, fetch, x)
    {
      RemovedHolds(w, c, done, fetch, q, x);
    }
  }

  lemma RemovedHolds(w: World, c: Items, done: set<Id>, fetch: set<Id>, q: Id, x: Id)
    requires Transition(w) && Stage(w, c, done, fetch)
    requires q in c && q in RowsOf(w) && !Fresh(w, c, q) && q !in w.roots
    requires Seen(w.after, w.roots, q) ==> Shadowed(w, fetch, q)
    requires forall x :: Fresh(w, c, x) <==> Fresh(w, WithoutSubtree(c, q), x)
    requires q !in WithoutSubtree(c, q)
    ensures Holds(w, WithoutSubtree(c, q), done + {q}, fetch, x)
  {
    hide RowsOf;
    var less := WithoutSubtree(c, q);
    assert Holds(w, c, done, fetch, x);
    if x in less {
      var p := c[x].parentId.value;
      if p !in w.roots && p !in less {
        UnderParent(c, x, q);
      }
      if Stale(w, c, done, x) { assert Stale(w, less, done + {q}, x); }
    }
    if Seen(w.before, w.roots, x) && x !in RowsOf(w) && StaleAbove(w, less, x) {
      var p := w.before[x].parentId.value;
      assert x in c;
      if x !in less {
        // The item hangs where it hung before, so its folder would have gone too.
        UnderUp(c, x, q);
        if Fresh(w, c, x) {
          NoRow(w, x);
        }
      }
    }
  }

  /** A live item the client holds, with nothing due at its depth or above, is fresh. */
  lemma {:induction false} Settled(w: World, c: Items, done: set<Id>, fetch: set<Id>, x: Id)
    requires Transition(w) && Stage(w, c, done, fetch)
    requires x in c && x in w.after && w.after[x].Live()
    requires forall z | z in RowsOf(w) && z in w.after && w.after[z].Live() && |w.after[z].path| <= |w.after[x].path| ::
               z in done
    ensures Fresh(w, c, x)
    decreases |w.after[x].path|
  {
    hide RowsOf;
    assert Holds(w, c, done, fetch, x);
    if !Fresh(w, c, x) {
      NoRow(w, x);
      assert Fits(w.after, w.filesRoot, x);
      assert Fits(w.before, w.filesRoot, x);
      var g := c[x].parentId.value;
      if g !in w.roots {
        assert Holds(w, c, done, fetch, g);
        Settled(w, c, done, fetch, g);
      }
    }
  }

  /** A live item to be shown, with nothing due at its depth or above, is fresh or will be fetched. */
  lemma {:induction false} Arrived(w: World, c: Items, done: set<Id>, fetch: set<Id>, x: Id)
    requires Transition(w) && Stage(w, c, done, fetch)
    requires Seen(w.after, w.roots, x)
    requires forall z | z in RowsOf(w) && z in w.after && w.after[z].Live() && |w.after[z].path| <= |w.after[x].path| ::
               z in done
    ensures Fresh(w, c, x) || Shadowed(w, fetch, x)
    decreases |w.after[x].path|
  {
    hide RowsOf;
    assert Holds(w, c, done, fetch, x);
    if x !in RowsOf(w) {
      var p := w.after[x].parentId.value;
      if p !in w.roots {
        Arrived(w, c, done, fetch, p);
      }
    }
  }

  /** A fresh item reaches a pair folder within the client's limit. */
  lemma {:induction false} FreshInScope(w: World, c: Items, p: Id, steps: nat)
    requires Fresh(w, c, p) && |w.after[p].path| + 1 < steps
    ensures InScope(c, w.roots, Some(p), steps)
    decreases |w.after[p].path|
  {
    var g := w.after[p].parentId.value;
    if g !in w.roots {
      FreshInScope(w, c, g, steps - 1);
    } else {
      assert InScope(c, w.roots, Some(g), steps - 1);
    }
  }

  lemma {:induction false} FreshWithItem(w: World, c: Items, q: Id, x: Id)
    requires Fresh(w, c, x) && q in w.after
    ensures Fresh(w, c[q := FromState(w.after[q])], x)
    decreases |w.after[x].path|
  {
    if w.after[x].parentId.value !in w.roots {
      FreshWithItem(w, c, q, w.after[x].parentId.value);
    }
  }

  function FromState(s: ItemState): RemoteItem {
    RemoteItem(s.id, s.kind, s.parentId, s.name, s.sizeBytes, s.contentChecksum, s.storageRevision, s.clientModifiedAt)
  }

  lemma {:induction false} ShadowedByMore(w: World, fetch: set<Id>, more: set<Id>, x: Id)
    requires fetch <= more && Shadowed(w, fetch, x)
    ensures Shadowed(w, more, x)
    decreases |w.after[x].path|
  {
    var p := w.after[x].parentId.value;
    if p !in fetch { ShadowedByMore(w, fetch, more, p); }
  }

  /** The folders to fetch once the row of `q` is stored. */
  ghost function Fetching(w: World, c: Items, fetch: set<Id>, q: Id): set<Id>
    requires q in RowsOf(w)
  {
    var row := RowsOf(w)[q];
    if row.itemType == Folder && q !in c && row.kind != Created then fetch + {q} else fetch
  }

  /** An item below a pair folder or a fresh one is stored as its row says. */
  lemma Stored(w: World, c: Items, done: set<Id>, fetch: set<Id>, q: Id)
    requires Transition(w) && Stage(w, c, done, fetch)
    requires q in RowsOf(w) && q !in w.roots && q in w.after && w.after[q].Live() && FreshAbove(w, c, q)
    ensures Stage(w, c[q := FromState(w.after[q])], done + {q}, Fetching(w, c, fetch, q))
  {
    hide RowsOf;
    var more := c[q := FromState(w.after[q])];
    var fetching := Fetching(w, c, fetch, q);
    assert Fits(w.after, w.filesRoot, q);
    forall x | Fresh(w, c, x)
      ensures Fresh(w, more, x)
    {
      FreshWithItem(w, c, q, x);
    }
    assert Fresh(w, more, q);
    forall x | Shadowed(w, fetch, x)
      ensures Shadowed(w, fetching, x)
    {
      ShadowedByMore(w, fetch, fetching, x);
    }
    forall x
      ensures Holds(w, more, done + {q}, fetching, x)
    {
      assert Holds(w, c, done, fetch, x);
      if x in c && x != q && Stale(w, c, done, x) { assert Stale(w, more, done + {q}, x); }
      if Seen(w.after, w.roots, x) && x !in RowsOf(w) && FreshAbove(w, more, x) && !FreshAbove(w, c, x) {
        StoredChild(w, c, done, fetch, q, x);
      }
    }
  }

  /** A child without a row becomes fresh with its folder, or waits for the folder to be fetched. */
  lemma StoredChild(w: World, c: Items, done: set<Id>, fetch: set<Id>, q: Id, x: Id)
    requires Transition(w) && Stage(w, c, done, fetch)
    requires q in RowsOf(w) && q !in w.roots && q in w.after && w.after[q].Live() && FreshAbove(w, c, q)
    requires Fresh(w, c[q := FromState(w.after[q])], q)
    requires Seen(w.after, w.roots, x) && x !in RowsOf(w)
    requires FreshAbove(w, c[q := FromState(w.after[q])], x) && !FreshAbove(w, c, x)
    ensures Fresh(w, c[q := FromState(w.after[q])], x) || Shadowed(w, Fetching(w, c, fetch, q), x)
  {
    hide RowsOf;
    var more := c[q := FromState(w.after[q])];
    var z := w.after[x].parentId.value;
    assert z in more && !Fresh(w, c, z);
    NoRow(w, x);
    RowMeans(w, q);
    assert Fits(w.after, w.filesRoot, x) && Fits(w.before, w.filesRoot, x);
    if z in c {
      assert Holds(w, c, done, fetch, z);
      assert Stale(w, c, done, z);
      assert Fits(w.before, w.filesRoot, z);
      assert Seen(w.before, w.roots, x);
      assert Holds(w, c, done, fetch, x);
      assert x in c;
      assert !Fresh(w, c, x);
    } else {
      assert z == q;
      assert q in w.before;
      assert w.after[q].kind == Folder;
    }
  }

  /** One row, whatever it is. */
  lemma OneRow(w: World, c: Items, done: set<Id>, fetch: set<Id>, q: Id)
    requires Transition(w) && Stage(w, c, done, fetch)
    requires q in RowsOf(w) && q !in done && Due(w, done, q)
    ensures var (next, shown) := Applied(c, w.roots, RowsOf(w)[q]);
            Stage(w, next, done + {q}, fetch + (if shown.Some? then {shown.value} else {}))
  {
    hide RowsOf;
    RowMeans(w, q);
    assert Holds(w, c, done, fetch, q);
    var row := RowsOf(w)[q];
    assert fetch + {} == fetch;
    if q in w.after { assert Fits(w.after, w.filesRoot, q); }
    if q in w.before { assert Fits(w.before, w.filesRoot, q); }
    if q in w.roots {
      Stays(w, c, done, fetch, q);
    } else if Removes(row) {
      if q in c { Removed(w, c, done, fetch, q); } else { Stays(w, c, done, fetch, q); }
    } else {
      RowForLive(w, c, done, fetch, q);
      if FreshAbove(w, c, q) {
        Stored(w, c, done, fetch, q);
        assert FromChange(row) == FromState(w.after[q]);
      } else if q in c {
        Removed(w, c, done, fetch, q);
      } else {
        Stays(w, c, done, fetch, q);
      }
    }
  }

  /** The client's own scope check agrees with where the server shows the item. */
  lemma RowForLive(w: World, c: Items, done: set<Id>, fetch: set<Id>, q: Id)
    requires Transition(w) && Stage(w, c, done, fetch)
    requires q in RowsOf(w) && q !in w.roots && Due(w, done, q) && q in w.after && w.after[q].Live()
    ensures InScope(c, w.roots, w.after[q].parentId, SCOPE_LIMIT) <==> FreshAbove(w, c, q)
    ensures !FreshAbove(w, c, q) ==> !Fresh(w, c, q) && (Seen(w.after, w.roots, q) ==> Shadowed(w, fetch, q))
  {
    hide RowsOf;
    assert Fits(w.after, w.filesRoot, q);
    if w.after[q].parentId.Some? && w.after[q].parentId.value !in w.roots {
      var p := w.after[q].parentId.value;
      if p in w.after {
        assert Fits(w.after, w.filesRoot, p);
      }
      if p in c {
        assert Holds(w, c, done, fetch, p);
        FilesRootUnseen(w, c, done, fetch);
        Settled(w, c, done, fetch, p);
        FreshInScope(w, c, p, SCOPE_LIMIT);
      } else if Seen(w.after, w.roots, q) {
        Arrived(w, c, done, fetch, p);
      }
    }
  }

  lemma FilesRootUnseen(w: World, c: Items, done: set<Id>, fetch: set<Id>)
    requires Transition(w) && Stage(w, c, done, fetch)
    ensures w.filesRoot !in c
  {
    assert Holds(w, c, done, fetch, w.filesRoot);
  }
}
