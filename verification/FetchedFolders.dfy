/**
 * Which items the client holds after so many rows of a mutation's feed, and
 * which folders it is told to fetch, worked out from the two trees, the pair
 * folders and the order of the rows alone.
 */
module FetchedFolders {
  import opened Common
  import opened RemoteItems
  import opened ChangeFeed
  import opened MirrorRows

  // --------------------------------------------------------------- all the rows

  function Ids(changes: seq<Change>): set<Id> {
    set c | c in changes :: c.itemId
  }

  function Members(ids: seq<Id>): set<Id> {
    set x | x in ids
  }

  /** A part of the feed that is still to come, in order. */
  ghost predicate Pending(w: World, done: set<Id>, changes: seq<Change>) {
    && (forall i :: 0 <= i < |changes| ==>
          changes[i].itemId in RowsOf(w) && changes[i] == RowsOf(w)[changes[i].itemId] && changes[i].itemId !in done)
    && (forall i, j :: 0 <= i < j < |changes| ==> changes[i].itemId != changes[j].itemId)
    && (forall x | x in RowsOf(w) && x !in done :: exists i :: 0 <= i < |changes| && changes[i].itemId == x)
    && ByDepth(changes)
  }

  lemma HeadDue(w: World, done: set<Id>, changes: seq<Change>)
    requires Transition(w) && Pending(w, done, changes) && changes != []
    ensures Due(w, done, changes[0].itemId)
    ensures Pending(w, done + {changes[0].itemId}, changes[1..])
  {
    HeadIsDue(w, done, changes);
    TailPends(w, done, changes);
    hide *;
  }

  /** Rows come by depth, so nothing nearer the top is still to come. */
  lemma HeadIsDue(w: World, done: set<Id>, changes: seq<Change>)
    requires Transition(w) && Pending(w, done, changes) && changes != []
    ensures Due(w, done, changes[0].itemId)
  {
    var q := changes[0].itemId;
    hide RowsOf, WellFormed, Transition, SameItem;
    RowMeans(w, q);
    forall z | z in RowsOf(w) && z in w.after && w.after[z].Live() && z !in done
      ensures q in w.after ==> |w.after[q].path| <= |w.after[z].path|
    {
      RowMeans(w, z);
      var i :| 0 <= i < |changes| && changes[i].itemId == z;
    }
  }

  lemma TailPends(w: World, done: set<Id>, changes: seq<Change>)
    requires Pending(w, done, changes) && changes != []
    ensures Pending(w, done + {changes[0].itemId}, changes[1..])
  {
    hide RowsOf;
    forall x | x in RowsOf(w) && x !in done + {changes[0].itemId}
      ensures exists i :: 0 <= i < |changes[1..]| && changes[1..][i].itemId == x
    {
      var i :| 0 <= i < |changes| && changes[i].itemId == x;
      assert changes[1..][i - 1].itemId == x;
    }
  }

  lemma {:induction false} AllRows(w: World, c: Items, done: set<Id>, fetch: set<Id>, changes: seq<Change>)
    requires Transition(w) && Stage(w, c, done, fetch) && Pending(w, done, changes)
    ensures var (last, fetches) := AppliedAll(c, w.roots, changes);
            Stage(w, last, done + Ids(changes), fetch + Members(fetches))
    decreases changes
  {
    hide RowsOf, Stage, Pending, Transition, Applied;
    if changes == [] {
      assert done + Ids(changes) == done && fetch + Members([]) == fetch;
    } else {
      var q := changes[0].itemId;
      var (next, shown) := Applied(c, w.roots, changes[0]);
      var more := fetch + (if shown.Some? then {shown.value} else {});
      NextRow(w, c, done, fetch, changes);
      AllRows(w, next, done + {q}, more, changes[1..]);
      var (last, fetches) := AppliedAll(next, w.roots, changes[1..]);
      assert done + {q} + Ids(changes[1..]) == done + Ids(changes);
      assert more + Members(fetches) == fetch + Members((if shown.Some? then [shown.value] else []) + fetches);
    }
  }

  lemma NextRow(w: World, c: Items, done: set<Id>, fetch: set<Id>, changes: seq<Change>)
    requires Transition(w) && Stage(w, c, done, fetch) && Pending(w, done, changes) && changes != []
    ensures var q := changes[0].itemId;
            var (next, shown) := Applied(c, w.roots, changes[0]);
            Stage(w, next, done + {q}, fetch + (if shown.Some? then {shown.value} else {}))
            && Pending(w, done + {q}, changes[1..])
  {
    hide RowsOf;
    HeadDue(w, done, changes);
    OneRow(w, c, done, fetch, changes[0].itemId);
    hide Stage, Transition, Applied;
  }

  // ------------------------------------------------------------- what is held when

  /** The place of an item's row, or the number of rows. */
  function RowAt(changes: seq<Change>, x: Id): (i: nat)
    ensures i <= |changes| && (i < |changes| ==> changes[i].itemId == x)
    ensures forall j :: 0 <= j < i ==> changes[j].itemId != x
  {
    if changes == [] then 0 else if changes[0].itemId == x then 0 else 1 + RowAt(changes[1..], x)
  }

  /** The row finds the item's folder held, or is below a pair folder: the item is stored. */
  ghost predicate StoredAt(w: World, changes: seq<Change>, i: nat, x: Id)
    decreases 2 * i + 1, 0
  {
    && x !in w.roots && x in w.after && w.after[x].Live() && w.after[x].parentId.Some?
    && (w.after[x].parentId.value in w.roots || HeldAt(w, changes, i, w.after[x].parentId.value))
  }

  /**
   * The client holds the item after the first `k` rows: its own row, if it is
   * among them, stored it; if not, it was shown before, and none of the folders
   * above it has been taken away with all that was in it.
   */
  ghost predicate HeldAt(w: World, changes: seq<Change>, k: nat, x: Id)
    decreases 2 * k, if x in w.before then |w.before[x].path| else 0
  {
    var i := RowAt(changes, x);
    if i < k then StoredAt(w, changes, i, x)
    else
      && Seen(w.before, w.roots, x)
      && var p := w.before[x].parentId.value;
         p in w.roots || StillAbove(w, changes, k, p, x)
  }

  /** The folder `p` of `x` has stayed: with its row, if that is among the first `k`, or so far without. */
  ghost predicate StillAbove(w: World, changes: seq<Change>, k: nat, p: Id, x: Id)
    requires Seen(w.before, w.roots, x) && w.before[x].parentId == Some(p) && p !in w.roots
    decreases 2 * k, |w.before[x].path|, 0
  {
    var j := RowAt(changes, p);
    if j < k then HeldAt(w, changes, j, p) && StoredAt(w, changes, j, p) else HeldAt(w, changes, k, p)
  }

  /** A folder that is new to the client, though not to the server. */
  ghost predicate Fetched(w: World, changes: seq<Change>, q: Id) {
    var i := RowAt(changes, q);
    && i < |changes| && changes[i].itemType == Folder && changes[i].kind != Created
    && StoredAt(w, changes, i, q) && !HeldAt(w, changes, i, q)
  }

  // ------------------------------------------------------------------ one row's outcome

  ghost predicate Stores(w: World, c: Items, q: Id) {
    && q !in w.roots && q in w.after && w.after[q].Live() && w.after[q].parentId.Some?
    && (w.after[q].parentId.value in w.roots || w.after[q].parentId.value in c)
  }

  /** A live item's folder, where it is held when the row is due, is as the server has it. */
  lemma StoresFresh(w: World, c: Items, done: set<Id>, fetch: set<Id>, q: Id)
    requires Transition(w) && Stage(w, c, done, fetch)
    requires q in RowsOf(w) && q !in w.roots && Due(w, done, q) && q in w.after && w.after[q].Live()
    ensures FreshAbove(w, c, q) <==> Stores(w, c, q)
  {
    hide RowsOf;
    assert Fits(w.after, w.filesRoot, q);
    if w.after[q].parentId.Some? && w.after[q].parentId.value !in w.roots && w.after[q].parentId.value in c {
      var p := w.after[q].parentId.value;
      if p in w.after { assert Fits(w.after, w.filesRoot, p); }
      assert Holds(w, c, done, fetch, p);
      FilesRootUnseen(w, c, done, fetch);
      Settled(w, c, done, fetch, p);
    }
  }

  lemma Outcome(w: World, c: Items, done: set<Id>, fetch: set<Id>, q: Id)
    requires Transition(w) && Stage(w, c, done, fetch)
    requires q in RowsOf(w) && q !in done && Due(w, done, q)
    ensures var row := RowsOf(w)[q];
            var (next, shown) := Applied(c, w.roots, row);
            if Stores(w, c, q)
            then next == c[q := FromChange(row)] &&
                 shown == if row.itemType == Folder && q !in c && row.kind != Created then Some(q) else None
            else shown == None && (q in c ==> !Fresh(w, c, q)) && next == if q in c then WithoutSubtree(c, q) else c
  {
    hide RowsOf;
    RowMeans(w, q);
    assert Holds(w, c, done, fetch, q);
    if q in w.after { assert Fits(w.after, w.filesRoot, q); }
    if q in w.before { assert Fits(w.before, w.filesRoot, q); }
    if q !in w.roots && !Removes(RowsOf(w)[q]) {
      StoresFresh(w, c, done, fetch, q);
      RowForLive(w, c, done, fetch, q);
    }
    hide Holds, Stage;
  }

  // ---------------------------------------------------------------- what is held, by induction

  /** Items whose row is still to come are where they were. */
  ghost predicate Unmoved(w: World, c: Items, done: set<Id>) {
    forall x <- c | x !in done :: Seen(w.before, w.roots, x) && c[x].parentId == w.before[x].parentId
  }

  ghost predicate Course(w: World, changes: seq<Change>, k: nat, c: Items, fetch: set<Id>) {
    && k <= |changes| && Transition(w) && Lists(RowsOf(w), changes)
    && Stage(w, c, Ids(changes[..k]), fetch) && Pending(w, Ids(changes[..k]), changes[k..])
    && Unmoved(w, c, Ids(changes[..k]))
    && forall x {:trigger HeldAt(w, changes, k, x)} :: x in c <==> HeldAt(w, changes, k, x)
  }

  lemma DoneByRow(changes: seq<Change>, k: nat, x: Id)
    requires k <= |changes|
    ensures x in Ids(changes[..k]) <==> RowAt(changes, x) < k
  {
    var i := RowAt(changes, x);
    if i < k { assert changes[..k][i] in changes[..k]; }
  }

  lemma RowIsAt(changes: seq<Change>, k: nat)
    requires k < |changes| && forall i, j :: 0 <= i < j < |changes| ==> changes[i].itemId != changes[j].itemId
    ensures RowAt(changes, changes[k].itemId) == k
  {
  }

  /** The item of the row itself. */
  lemma OwnRow(w: World, changes: seq<Change>, k: nat, c: Items, fetch: set<Id>)
    requires k < |changes| && Course(w, changes, k, c, fetch)
    ensures var q := changes[k].itemId;
            RowAt(changes, q) == k && (Stores(w, c, q) <==> StoredAt(w, changes, k, q))
            && (q in Applied(c, w.roots, changes[k]).0 <==> Stores(w, c, q))
            && q in RowsOf(w) && changes[k] == RowsOf(w)[q] && q !in Ids(changes[..k]) && Due(w, Ids(changes[..k]), q)
  {
    var q := changes[k].itemId;
    RowIsAt(changes, k);
    assert changes[k..][0] == changes[k];
    HeadDue(w, Ids(changes[..k]), changes[k..]);
    DoneByRow(changes, k, q);
    hide RowsOf;
    Outcome(w, c, Ids(changes[..k]), fetch, q);
    UnderSelf(c, q);
  }

  /** An item that is done and held is fresh, and no row takes it away. */
  lemma DoneStays(w: World, changes: seq<Change>, k: nat, c: Items, fetch: set<Id>, x: Id)
    requires k < |changes| && Course(w, changes, k, c, fetch) && x in c && RowAt(changes, x) < k
    ensures !Stores(w, c, changes[k].itemId) && changes[k].itemId in c ==> !Under(c, x, changes[k].itemId)
  {
    var q, done := changes[k].itemId, Ids(changes[..k]);
    OwnRow(w, changes, k, c, fetch);
    DoneByRow(changes, k, x);
    Outcome(w, c, done, fetch, q);
    assert Holds(w, c, done, fetch, x) && Fresh(w, c, x);
    if q in c && Under(c, x, q) {
      assert forall r <- w.roots :: r !in c by {
        forall r | r in w.roots ensures r !in c { assert Holds(w, c, done, fetch, r); }
      }
      var n: nat :| Reaches(c, x, q, n);
      FreshBelow(w, c, x, q, n);
    }
  }

  /** The other items: who goes is below a folder that goes. */
  lemma {:induction false} OtherRow(w: World, changes: seq<Change>, k: nat, c: Items, fetch: set<Id>, x: Id)
    requires k < |changes| && Course(w, changes, k, c, fetch) && x != changes[k].itemId
    ensures x in Applied(c, w.roots, changes[k]).0 <==> HeldAt(w, changes, k + 1, x)
    decreases if x in w.before then |w.before[x].path| else 0
  {
    var q, done := changes[k].itemId, Ids(changes[..k]);
    OwnRow(w, changes, k, c, fetch);
    Outcome(w, c, done, fetch, q);
    var next := Applied(c, w.roots, changes[k]).0;
    assert x in c <==> HeldAt(w, changes, k, x);
    assert next.Keys <= c.Keys + {q};
    if RowAt(changes, x) < k {
      if x in c { DoneStays(w, changes, k, c, fetch, x); }
    } else if Seen(w.before, w.roots, x) {
      NotYetRow(w, changes, k, c, fetch, x);
    } else {
      assert x !in c by { DoneByRow(changes, k, x); }
    }
  }

  /** The row takes nothing away, or the item is not below the one it takes away. */
  ghost predicate Spared(w: World, c: Items, q: Id, x: Id) {
    Stores(w, c, q) || q !in c || !Under(c, x, q)
  }

  lemma WhoStays(w: World, changes: seq<Change>, k: nat, c: Items, fetch: set<Id>, x: Id)
    requires k < |changes| && Course(w, changes, k, c, fetch) && x != changes[k].itemId
    ensures x in Applied(c, w.roots, changes[k]).0 <==> x in c && Spared(w, c, changes[k].itemId, x)
  {
    var q := changes[k].itemId;
    OwnRow(w, changes, k, c, fetch);
    Outcome(w, c, Ids(changes[..k]), fetch, q);
  }

  /** What a place without a row so far says about its folder. */
  lemma FolderAbove(w: World, changes: seq<Change>, k: nat, c: Items, fetch: set<Id>, x: Id)
    requires k < |changes| && Course(w, changes, k, c, fetch) && RowAt(changes, x) > k
    requires Seen(w.before, w.roots, x)
    ensures var p, q := w.before[x].parentId.value, changes[k].itemId;
            && (x in c && p !in w.roots ==> p in c)
            && (x in c ==> (Under(c, x, q) <==> Under(c, p, q)))
            && (p in w.roots && q in c ==> !Under(c, p, q))
  {
    var p, q := w.before[x].parentId.value, changes[k].itemId;
    OwnRow(w, changes, k, c, fetch);
    DoneByRow(changes, k, x);
    assert Holds(w, c, Ids(changes[..k]), fetch, x) && Holds(w, c, Ids(changes[..k]), fetch, p);
    assert p in w.roots ==> p !in c;
    hide Course, Stage, Holds, RowsOf, Seen, Stores, StoredAt, HeldAt, Applied;
    assert x != q;
    if x in c {
      if Under(c, x, q) { UnderUp(c, x, q); }
      if Under(c, p, q) { UnderParent(c, x, q); }
    }
    if p !in c && q in c && Under(c, p, q) { UnderUp(c, p, q); }
  }

  lemma {:induction false} NotYetRow(w: World, changes: seq<Change>, k: nat, c: Items, fetch: set<Id>, x: Id)
    requires k < |changes| && Course(w, changes, k, c, fetch) && x != changes[k].itemId
    requires RowAt(changes, x) >= k && Seen(w.before, w.roots, x)
    ensures x in Applied(c, w.roots, changes[k]).0 <==> HeldAt(w, changes, k + 1, x)
    decreases |w.before[x].path|
  {
    var q := changes[k].itemId;
    var p := w.before[x].parentId.value;
    OwnRow(w, changes, k, c, fetch);
    WhoStays(w, changes, k, c, fetch, x);
    FolderAbove(w, changes, k, c, fetch, x);
    assert x in c <==> HeldAt(w, changes, k, x);
    assert p in c <==> HeldAt(w, changes, k, p);
    UnderSelf(c, q);
    var j := RowAt(changes, p);
    if p !in w.roots && j < k && p in c { DoneStays(w, changes, k, c, fetch, p); }
    if p !in w.roots && j > k {
      WhoStays(w, changes, k, c, fetch, p);
      NotYetRow(w, changes, k, c, fetch, p);
    }
    HeldMeans(w, changes, k, x);
    HeldMeans(w, changes, k + 1, x);
    hide *;
  }

  lemma HeldMeans(w: World, changes: seq<Change>, k: nat, x: Id)
    requires RowAt(changes, x) >= k && Seen(w.before, w.roots, x)
    ensures var p := w.before[x].parentId.value;
            var j := RowAt(changes, p);
            HeldAt(w, changes, k, x) <==>
              p in w.roots ||
              if j < k then HeldAt(w, changes, j, p) && StoredAt(w, changes, j, p) else HeldAt(w, changes, k, p)
  {
  }

  lemma {:induction false} HeldAtFirst(w: World, changes: seq<Change>, x: Id)
    requires Seen(w.before, w.roots, x)
    ensures HeldAt(w, changes, 0, x)
    decreases |w.before[x].path|
  {
    if w.before[x].parentId.value !in w.roots { HeldAtFirst(w, changes, w.before[x].parentId.value); }
  }

  lemma CourseOf(w: World, changes: seq<Change>, k: nat, c: Items, fetch: set<Id>, done: set<Id>, rest: seq<Change>)
    requires k <= |changes| && Transition(w) && Lists(RowsOf(w), changes)
    requires done == Ids(changes[..k]) && rest == changes[k..]
    requires Stage(w, c, done, fetch) && Pending(w, done, rest) && Unmoved(w, c, done)
    requires forall x :: x in c <==> HeldAt(w, changes, k, x)
    ensures Course(w, changes, k, c, fetch)
  {
    hide RowsOf, Stage, HeldAt, Transition, Pending, Unmoved, Lists, Ids;
  }

  lemma CourseStarts(w: World, c: Items, changes: seq<Change>)
    requires Transition(w) && Mirrors(c, w.before, w.roots) && Lists(RowsOf(w), changes)
    ensures Course(w, changes, 0, c, {})
  {
    Start(w, c);
    assert changes[0..] == changes && Ids(changes[..0]) == {};
    assert Pending(w, {}, changes) by { hide RowsOf; }
    assert Unmoved(w, c, {}) by { hide RowsOf; }
    hide RowsOf, Stage, Pending, Unmoved, Lists;
    forall x
      ensures x in c <==> HeldAt(w, changes, 0, x)
    {
      if Seen(w.before, w.roots, x) { HeldAtFirst(w, changes, x); }
    }
    hide *;
    CourseOf(w, changes, 0, c, {}, {}, changes);
  }

  lemma HeldNext(w: World, changes: seq<Change>, k: nat, c: Items, fetch: set<Id>, x: Id)
    requires k < |changes| && Course(w, changes, k, c, fetch)
    ensures x in Applied(c, w.roots, changes[k]).0 <==> HeldAt(w, changes, k + 1, x)
  {
    OwnRow(w, changes, k, c, fetch);
    if x != changes[k].itemId { OtherRow(w, changes, k, c, fetch, x); }
    hide Course, StoredAt, Stores, Applied, RowsOf;
  }

  lemma UnmovedNext(w: World, changes: seq<Change>, k: nat, c: Items, fetch: set<Id>)
    requires k < |changes| && Course(w, changes, k, c, fetch)
    ensures Unmoved(w, Applied(c, w.roots, changes[k]).0, Ids(changes[..k]) + {changes[k].itemId})
  {
    assert Unmoved(w, c, Ids(changes[..k]));
    hide *;
    UnmovedKept(w, c, Ids(changes[..k]), changes[k]);
  }

  lemma UnmovedKept(w: World, c: Items, done: set<Id>, row: Change)
    requires Unmoved(w, c, done)
    ensures Unmoved(w, Applied(c, w.roots, row).0, done + {row.itemId})
  {
    hide Seen, InScope, Under;
    assert forall x <- Applied(c, w.roots, row).0 | x != row.itemId :: x in c && Applied(c, w.roots, row).0[x] == c[x];
  }

  lemma FetchedHere(w: World, changes: seq<Change>, k: nat, c: Items, fetch: set<Id>)
    requires k < |changes| && Course(w, changes, k, c, fetch)
    ensures Applied(c, w.roots, changes[k]).1
            == if Fetched(w, changes, changes[k].itemId) then Some(changes[k].itemId) else None
  {
    OwnRow(w, changes, k, c, fetch);
    Outcome(w, c, Ids(changes[..k]), fetch, changes[k].itemId);
    assert changes[k].itemId in c <==> HeldAt(w, changes, k, changes[k].itemId);
    hide Course, StoredAt, HeldAt, Stores, Applied, RowsOf;
  }

  lemma CourseGoesOn(w: World, changes: seq<Change>, k: nat, c: Items, fetch: set<Id>)
    requires k < |changes| && Course(w, changes, k, c, fetch)
    ensures var (next, shown) := Applied(c, w.roots, changes[k]);
            Course(w, changes, k + 1, next, fetch + (if shown.Some? then {shown.value} else {}))
  {
    var q, done := changes[k].itemId, Ids(changes[..k]);
    var (next, shown) := Applied(c, w.roots, changes[k]);
    assert changes[k..][0] == changes[k] && changes[k..][1..] == changes[k + 1..];
    NextRow(w, c, done, fetch, changes[k..]);
    OneMoreDone(changes, k);
    UnmovedNext(w, changes, k, c, fetch);
    assert Transition(w) && Lists(RowsOf(w), changes);
    hide *;
    forall x ensures x in next <==> HeldAt(w, changes, k + 1, x) { HeldNext(w, changes, k, c, fetch, x); }
    var more := fetch + (if shown.Some? then {shown.value} else {});
    CourseOf(w, changes, k + 1, next, more, done + {q}, changes[k + 1..]);
  }

  lemma OneMoreDone(changes: seq<Change>, k: nat)
    requires k < |changes|
    ensures Ids(changes[..k + 1]) == Ids(changes[..k]) + {changes[k].itemId}
  {
    assert changes[..k + 1] == changes[..k] + [changes[k]];
  }

  lemma AppliedFirst(c: Items, roots: set<Id>, changes: seq<Change>, k: nat)
    requires k < |changes|
    ensures var (next, shown) := Applied(c, roots, changes[k]);
            AppliedAll(c, roots, changes[k..])
            == (AppliedAll(next, roots, changes[k + 1..]).0,
                (if shown.Some? then [shown.value] else []) + AppliedAll(next, roots, changes[k + 1..]).1)
  {
    assert changes[k..][0] == changes[k] && changes[k..][1..] == changes[k + 1..];
    hide Applied;
  }

  lemma OneMoreFetched(w: World, changes: seq<Change>, k: nat, shown: Option<Id>, rest: seq<Id>)
    requires k < |changes| && RowAt(changes, changes[k].itemId) == k
    requires shown == if Fetched(w, changes, changes[k].itemId) then Some(changes[k].itemId) else None
    requires forall q :: q in rest <==> RowAt(changes, q) >= k + 1 && Fetched(w, changes, q)
    ensures forall q ::
              q in (if shown.Some? then [shown.value] else []) + rest <==>
                RowAt(changes, q) >= k && Fetched(w, changes, q)
  {
    hide Fetched;
    forall q
      ensures q in (if shown.Some? then [shown.value] else []) + rest <==>
              RowAt(changes, q) >= k && Fetched(w, changes, q)
    {
      assert RowAt(changes, q) == k ==> changes[k].itemId == q;
    }
  }

  lemma {:induction false} FetchesFrom(w: World, changes: seq<Change>, k: nat, c: Items, fetch: set<Id>)
    requires Course(w, changes, k, c, fetch)
    ensures forall q :: q in AppliedAll(c, w.roots, changes[k..]).1 <==>
            RowAt(changes, q) >= k && Fetched(w, changes, q)
    ensures forall x :: x in AppliedAll(c, w.roots, changes[k..]).0 <==> HeldAt(w, changes, |changes|, x)
    decreases |changes| - k
  {
    if k < |changes| {
      var (next, shown) := Applied(c, w.roots, changes[k]);
      var more := fetch + (if shown.Some? then {shown.value} else {});
      CourseGoesOn(w, changes, k, c, fetch);
      FetchesFrom(w, changes, k + 1, next, more);
      FetchedHere(w, changes, k, c, fetch);
      OwnRow(w, changes, k, c, fetch);
      AppliedFirst(c, w.roots, changes, k);
      var rest := AppliedAll(next, w.roots, changes[k + 1..]).1;
      hide *;
      OneMoreFetched(w, changes, k, shown, rest);
    } else {
      forall q ensures RowAt(changes, q) >= k ==> !Fetched(w, changes, q) {}
    }
  }

  /**
   * The folders a client is told to fetch, and the items it holds, after a
   * mutation's rows: exactly those worked out from the trees and the row order.
   */
  lemma FetchesExactly(w: World, c: Items, changes: seq<Change>)
    requires Transition(w) && Mirrors(c, w.before, w.roots) && Lists(RowsOf(w), changes)
    ensures forall q :: q in AppliedAll(c, w.roots, changes).1 <==> Fetched(w, changes, q)
    ensures forall x :: x in AppliedAll(c, w.roots, changes).0 <==> HeldAt(w, changes, |changes|, x)
  {
    CourseStarts(w, c, changes);
    FetchesFrom(w, changes, 0, c, {});
    assert changes[0..] == changes;
  }
}
