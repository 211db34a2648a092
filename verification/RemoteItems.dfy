/**
 * The values behind the desktop client's copy of the server tree: what one
 * item looks like, and what each change to the copy does, as functions on the
 * `items` map.  Class RemoteTree carries these changes out in place.
 */
module RemoteItems {
  import opened Common

  type Id = string

  datatype RemoteItem = RemoteItem(
    id: Id,
    kind: NodeType,
    parentId: Option<Id>,
    name: string,
    size: Option<int>,
    checksum: Option<string>,
    rev: int,
    modifiedAt: Option<int>)

  type Items = map<Id, RemoteItem>

  datatype ChangeKind = Created | Updated | Moved | Trashed | Restored | Deleted

  /** One row of the change feed. */
  datatype Change = Change(
    kind: ChangeKind,
    itemType: NodeType,
    itemId: Id,
    parentId: Option<Id>,
    path: seq<string>,
    name: string,
    sizeBytes: Option<int>,
    contentChecksum: Option<string>,
    storageRevision: int,
    clientModifiedAt: Option<int>)

  /** How far up `inScope` looks before it gives up. */
  const SCOPE_LIMIT: nat := 4096

  function FromChange(c: Change): RemoteItem {
    RemoteItem(c.itemId, c.itemType, c.parentId, c.name, c.sizeBytes, c.contentChecksum,
               c.storageRevision, c.clientModifiedAt)
  }

  predicate Removes(c: Change) {
    c.kind == Trashed || c.kind == Deleted
  }

  // ---------------------------------------------------------------- ancestry

  /** `a` is `x` or is met on the way up from `x` in at most `n` steps. */
  predicate Reaches(items: Items, x: Id, a: Id, n: nat)
    decreases n
  {
    x == a ||
    (n > 0 && x in items && items[x].parentId.Some? && Reaches(items, items[x].parentId.value, a, n - 1))
  }

  /** `x` is `a` or lies somewhere below it. */
  ghost predicate Under(items: Items, x: Id, a: Id) {
    exists n: nat :: Reaches(items, x, a, n)
  }

  ghost function Descendants(items: Items, a: Id): set<Id> {
    set x | x in items && Under(items, x, a)
  }

  ghost function WithoutSubtree(items: Items, a: Id): Items {
    items - Descendants(items, a)
  }

  /** Every item is stored under its own id. */
  predicate Keyed(items: Items) {
    forall x <- items :: items[x].id == x
  }

  /** `rank` falls strictly on the way up, so no chain of parents comes back to itself. */
  ghost predicate RankedBy(items: Items, rank: map<Id, nat>) {
    forall x <- items ::
      x in rank &&
      (items[x].parentId.Some? && items[x].parentId.value in items ==>
         items[x].parentId.value in rank && rank[items[x].parentId.value] < rank[x])
  }

  ghost predicate Acyclic(items: Items) {
    exists rank: map<Id, nat> :: RankedBy(items, rank)
  }

  lemma UnderParent(items: Items, x: Id, a: Id)
    requires x in items && items[x].parentId.Some?
    requires Under(items, items[x].parentId.value, a)
    ensures Under(items, x, a)
  {
    var n: nat :| Reaches(items, items[x].parentId.value, a, n);
    assert Reaches(items, x, a, n + 1);
  }

  lemma UnderUp(items: Items, x: Id, a: Id)
    requires Under(items, x, a) && x != a
    ensures x in items && items[x].parentId.Some? && Under(items, items[x].parentId.value, a)
  {
    var n: nat :| Reaches(items, x, a, n);
    assert Reaches(items, items[x].parentId.value, a, n - 1);
  }

  lemma UnderSelf(items: Items, x: Id)
    ensures Under(items, x, x)
  {
    assert Reaches(items, x, x, 0);
  }

  // ----------------------------------------------------- walking the subtree

  /** An item below `id` whose folder is among those gone through. */
  ghost predicate ListedAt(items: Items, x: Id, above: seq<Id>, id: Id) {
    x in items && items[x].parentId.Some? && items[x].parentId.value in above && Under(items, x, id)
  }

  /** The ids found below the first `done` ids of the list, and the start. */
  ghost predicate Listed(items: Items, ids: seq<Id>, id: Id, done: nat)
  {
    && done <= |ids| && 0 < |ids| && ids[0] == id
    && (forall i, j :: 0 <= i < j < |ids| ==> ids[i] != ids[j])
    && (forall i :: 0 < i < |ids| ==> ListedAt(items, ids[i], ids[..done], id))
    && (forall x <- items :: items[x].parentId.Some? && items[x].parentId.value in ids[..done] ==> x in ids)
  }

  /** An id under a listed id is never the start again, because no chain of parents returns. */
  lemma NotTheStart(items: Items, x: Id, id: Id)
    requires Acyclic(items) && x in items && items[x].parentId.Some?
    requires Under(items, items[x].parentId.value, id)
    ensures x != id
  {
    var rank: map<Id, nat> :| RankedBy(items, rank);
    var n: nat :| Reaches(items, items[x].parentId.value, id, n);
    if x == id && id in items {
      RankFalls(items, rank, items[x].parentId.value, id, n);
    }
  }

  lemma {:induction false} RankFalls(items: Items, rank: map<Id, nat>, x: Id, a: Id, n: nat)
    requires RankedBy(items, rank) && Reaches(items, x, a, n) && a in items
    ensures x in items && x in rank && a in rank && rank[a] <= rank[x]
    decreases n
  {
    if x != a {
      RankFalls(items, rank, items[x].parentId.value, a, n - 1);
    }
  }

  lemma BoundedList(items: Items, ids: seq<Id>, id: Id, done: nat)
    requires Listed(items, ids, id, done)
    ensures |ids| <= |items| + 1
  {
    var tail := Elements(ids[1..]);
    assert tail <= items.Keys;
    Distinct(ids[1..]);
    SubsetSize(tail, items.Keys);
    assert |items.Keys| == |items|;
  }

  lemma ListIsSubtree(items: Items, ids: seq<Id>, id: Id)
    requires Listed(items, ids, id, |ids|)
    ensures forall x :: x in ids <==> x == id || x in Descendants(items, id)
  {
    assert ids[..|ids|] == ids;
    forall x | x in ids
      ensures x == id || x in Descendants(items, id)
    {
      var i :| 0 <= i < |ids| && ids[i] == x;
    }
    forall x | x in Descendants(items, id)
      ensures x in ids
    {
      var n: nat :| Reaches(items, x, id, n);
      ReachedIsListed(items, ids, id, x, n);
    }
  }

  lemma {:induction false} ReachedIsListed(items: Items, ids: seq<Id>, id: Id, x: Id, n: nat)
    requires Listed(items, ids, id, |ids|) && Reaches(items, x, id, n)
    ensures x in ids
    decreases n
  {
    assert ids[..|ids|] == ids;
    if x == id {
      assert ids[0] == x;
    } else {
      ReachedIsListed(items, ids, id, items[x].parentId.value, n - 1);
    }
  }

  /** One turn of the walk: the children of the id at `index` have joined the list. */
  lemma ListGrows(items: Items, ids: seq<Id>, grown: seq<Id>, kids: set<Id>, id: Id, index: nat)
    requires index < |ids| && Listed(items, ids, id, index)
    requires kids == set x | x in items && items[x].parentId == Some(ids[index])
    requires ids <= grown
    requires forall i :: |ids| <= i < |grown| ==> grown[i] in kids
    requires forall x <- kids :: x in grown
    requires forall i, j :: 0 <= i < j < |grown| ==> grown[i] != grown[j]
    ensures Listed(items, grown, id, index + 1)
  {
    UnderSelf(items, id);
    assert Under(items, ids[index], id);
    assert grown[..index + 1] == ids[..index] + [ids[index]];
    AllKidsListed(items, ids, grown, kids, id, index);
    hide Under, ListedAt;
    forall i | 0 < i < |grown|
      ensures ListedAt(items, grown[i], grown[..index + 1], id)
    {
      if i < |ids| {
        assert grown[i] == ids[i];
        StillListed(items, ids[i], ids[..index], ids[index], id);
      } else {
        KidListed(items, ids, grown[i], id, index);
      }
    }
  }

  lemma StillListed(items: Items, x: Id, above: seq<Id>, more: Id, id: Id)
    requires ListedAt(items, x, above, id)
    ensures ListedAt(items, x, above + [more], id)
  {
    hide Under;
  }

  lemma KidListed(items: Items, ids: seq<Id>, kid: Id, id: Id, index: nat)
    requires index < |ids| && Under(items, ids[index], id) && kid in items && items[kid].parentId == Some(ids[index])
    ensures ListedAt(items, kid, ids[..index] + [ids[index]], id)
  {
    UnderParent(items, kid, id);
  }

  lemma AllKidsListed(items: Items, ids: seq<Id>, grown: seq<Id>, kids: set<Id>, id: Id, index: nat)
    requires index < |ids| && Listed(items, ids, id, index) && ids <= grown
    requires kids == set x | x in items && items[x].parentId == Some(ids[index])
    requires forall x <- kids :: x in grown
    ensures forall x <- items :: items[x].parentId.Some? && items[x].parentId.value in ids[..index] + [ids[index]] ==>
            x in grown
  {
    forall x | x in items && items[x].parentId.Some? && items[x].parentId.value in ids[..index] + [ids[index]]
      ensures x in grown
    {
      if items[x].parentId.value == ids[index] { assert x in kids; } else { assert x in ids; }
    }
  }

  /** A child of a listed id is not in the list yet. */
  lemma ChildIsNew(items: Items, ids: seq<Id>, child: Id, id: Id, index: nat)
    requires Acyclic(items) && index < |ids| && Listed(items, ids, id, index)
    requires child in items && items[child].parentId == Some(ids[index])
    ensures child !in ids
  {
    UnderSelf(items, id);
    NotTheStart(items, child, id);
  }

  // ------------------------------------------------------------ what is seen

  /** The loop of `inScope`: whether a pair folder is met within `steps` steps up. */
  predicate InScope(items: Items, roots: set<Id>, from: Option<Id>, steps: nat)
    decreases steps
  {
    from.Some? && steps > 0 &&
    (from.value in roots ||
     (from.value in items && InScope(items, roots, items[from.value].parentId, steps - 1)))
  }

  /** In scope means a pair folder at most 4095 steps above the parent. */
  lemma {:induction false} InScopeMeans(items: Items, roots: set<Id>, from: Option<Id>, steps: nat)
    ensures InScope(items, roots, from, steps) <==>
            from.Some? && steps > 0 && exists r <- roots :: Reaches(items, from.value, r, steps - 1)
    decreases steps
  {
    if from.Some? && steps > 0 {
      var x := from.value;
      if x in items && x !in roots {
        InScopeMeans(items, roots, items[x].parentId, steps - 1);
        if r :| r in roots && Reaches(items, x, r, steps - 1) {
          assert steps > 1 && Reaches(items, items[x].parentId.value, r, steps - 2);
        }
        if steps > 1 && items[x].parentId.Some? {
          if r :| r in roots && Reaches(items, items[x].parentId.value, r, steps - 2) {
            assert Reaches(items, x, r, steps - 1);
          }
        }
      } else if x in roots {
        assert Reaches(items, x, x, steps - 1);
      }
    }
  }

  // ----------------------------------------------------------------- changes

  /** What applying one change leaves, and the folder whose contents have to be fetched. */
  ghost function Applied(items: Items, roots: set<Id>, c: Change): (Items, Option<Id>) {
    if c.itemId in roots then (items, None)
    else if c.itemId in items && c.storageRevision < items[c.itemId].rev then (items, None)
    else if Removes(c) || !InScope(items, roots, c.parentId, SCOPE_LIMIT) then
      (if c.itemId in items then WithoutSubtree(items, c.itemId) else items, None)
    else
      (items[c.itemId := FromChange(c)],
       if c.itemType == Folder && c.itemId !in items && c.kind != Created then Some(c.itemId) else None)
  }

  /** A page of changes in order, with the folders to fetch afterwards. */
  ghost function AppliedAll(items: Items, roots: set<Id>, changes: seq<Change>): (Items, seq<Id>)
    decreases changes
  {
    if changes == [] then (items, [])
    else
      var (next, shown) := Applied(items, roots, changes[0]);
      var (last, fetches) := AppliedAll(next, roots, changes[1..]);
      (last, (if shown.Some? then [shown.value] else []) + fetches)
  }

  /** A fetched folder's contents, item by item; an older answer never replaces a newer item. */
  function AddedUnder(items: Items, news: seq<RemoteItem>): Items
    decreases news
  {
    if news == [] then items
    else
      var item := news[0];
      var next := if item.id !in items || items[item.id].rev <= item.rev then items[item.id := item] else items;
      AddedUnder(next, news[1..])
  }

  /** Each item stored whatever was there before. */
  function PutAll(items: Items, news: seq<RemoteItem>): Items
    decreases news
  {
    if news == [] then items else PutAll(items[news[0].id := news[0]], news[1..])
  }

  /** Everything strictly below `a` gone. */
  ghost function Emptied(items: Items, a: Id): Items {
    items - (Descendants(items, a) - {a})
  }

  /** The last of the items with this id. */
  ghost predicate IsLast(news: seq<RemoteItem>, i: int) {
    0 <= i < |news| && forall j | i < j < |news| :: news[j].id != news[i].id
  }

  lemma {:induction false} PutAllAt(items: Items, news: seq<RemoteItem>, x: Id)
    ensures forall i | IsLast(news, i) && news[i].id == x ::
              x in PutAll(items, news) && PutAll(items, news)[x] == news[i]
    ensures !Named(news, x) ==>
              (x in PutAll(items, news) <==> x in items) && (x in items ==> PutAll(items, news)[x] == items[x])
    decreases news
  {
    if news != [] {
      var next, rest := items[news[0].id := news[0]], news[1..];
      PutAllAt(next, rest, x);
      forall i | IsLast(news, i) && news[i].id == x
        ensures x in PutAll(items, news) && PutAll(items, news)[x] == news[i]
      {
        if i > 0 {
          LastOfRest(news, i);
        } else {
          assert !Named(rest, x);
        }
      }
      assert Named(rest, x) ==> Named(news, x);
    }
  }

  predicate Named(news: seq<RemoteItem>, x: Id) {
    exists i | 0 <= i < |news| :: news[i].id == x
  }

  lemma LastOfRest(news: seq<RemoteItem>, i: nat)
    requires IsLast(news, i) && i > 0
    ensures IsLast(news[1..], i - 1) && news[1..][i - 1] == news[i]
  {
    forall j | i - 1 < j < |news[1..]| ensures news[1..][j].id != news[i].id { assert news[1..][j] == news[j + 1]; }
  }

  /**
   * What a folder holds after its contents were replaced: each new item as it
   * came, and of the old ones just those that were not below the folder, as they were.
   */
  lemma ReplacedMeans(items: Items, rootId: Id, news: seq<RemoteItem>)
    ensures var r := PutAll(Emptied(items, rootId), news);
            && (forall i | IsLast(news, i) :: news[i].id in r && r[news[i].id] == news[i])
            && (forall x | !Named(news, x) ::
                  (x in r <==> x in items && (x == rootId || !Under(items, x, rootId)))
                  && (x in r ==> r[x] == items[x]))
  {
    var r := PutAll(Emptied(items, rootId), news);
    forall x { PutAllAt(Emptied(items, rootId), news, x); }
    forall i | IsLast(news, i)
      ensures news[i].id in r && r[news[i].id] == news[i]
    {
      PutAllAt(Emptied(items, rootId), news, news[i].id);
    }
    hide PutAll, Under;
  }

  /** A server answer recorded before the feed repeats it. */
  ghost function Recorded(items: Items, roots: set<Id>, item: RemoteItem): Items {
    if InScope(items, roots, item.parentId, SCOPE_LIMIT) then items[item.id := item]
    else if item.id in items then WithoutSubtree(items, item.id)
    else items
  }

  // ------------------------------------------------- emptying a folder by child

  /** Taking one child's subtree away first changes nothing about what emptying the folder leaves. */
  lemma EmptyOneChild(items: Items, rootId: Id, child: Id)
    requires Acyclic(items) && child in items && items[child].parentId == Some(rootId)
    ensures Emptied(WithoutSubtree(items, child), rootId) == Emptied(items, rootId)
  {
    var rest := WithoutSubtree(items, child);
    UnderSelf(items, rootId);
    NotTheStart(items, child, rootId);
    forall x | x in items && Under(items, x, child)
      ensures Under(items, x, rootId) && x != rootId
    {
      var n: nat :| Reaches(items, x, child, n);
      BelowChild(items, rootId, child, x, n);
    }
    forall x | x in rest && Under(rest, x, rootId)
      ensures Under(items, x, rootId)
    {
      var n: nat :| Reaches(rest, x, rootId, n);
      ReachesInMore(rest, items, x, rootId, n);
    }
    forall x | x in rest && Under(items, x, rootId)
      ensures Under(rest, x, rootId)
    {
      var n: nat :| Reaches(items, x, rootId, n);
      ReachesOutside(items, child, x, rootId, n);
    }
  }

  lemma {:induction false} BelowChild(items: Items, rootId: Id, child: Id, x: Id, n: nat)
    requires Acyclic(items) && child in items && items[child].parentId == Some(rootId)
    requires x in items && Reaches(items, x, child, n)
    ensures Under(items, x, rootId) && x != rootId
    decreases n
  {
    UnderSelf(items, rootId);
    if x == child {
      UnderParent(items, child, rootId);
      NotTheStart(items, child, rootId);
    } else {
      var up := items[x].parentId.value;
      if up in items {
        BelowChild(items, rootId, child, up, n - 1);
        UnderParent(items, x, rootId);
        NotTheStart(items, x, rootId);
      }
    }
  }

  lemma {:induction false} ReachesOutside(items: Items, child: Id, x: Id, a: Id, n: nat)
    requires x in items && !Under(items, x, child) && Reaches(items, x, a, n)
    ensures Under(WithoutSubtree(items, child), x, a)
    decreases n
  {
    var rest := WithoutSubtree(items, child);
    if x == a {
      UnderSelf(rest, x);
    } else {
      var up := items[x].parentId.value;
      if up in items {
        if Under(items, up, child) { UnderParent(items, x, child); }
        ReachesOutside(items, child, up, a, n - 1);
      } else {
        UnderSelf(rest, up);
      }
      UnderParent(rest, x, a);
    }
  }

  lemma NothingBelow(items: Items, rootId: Id)
    requires forall x <- items :: items[x].parentId != Some(rootId)
    ensures Emptied(items, rootId) == items
  {
    forall x | x in items && x != rootId
      ensures !Under(items, x, rootId)
    {
      if Under(items, x, rootId) {
        var n: nat :| Reaches(items, x, rootId, n);
        SomeChild(items, rootId, x, n);
      }
    }
  }

  lemma {:induction false} SomeChild(items: Items, rootId: Id, x: Id, n: nat)
    requires x != rootId && Reaches(items, x, rootId, n)
    ensures exists c <- items :: items[c].parentId == Some(rootId)
    decreases n
  {
    if items[x].parentId.value == rootId {
      assert items[x].parentId == Some(rootId);
    } else {
      SomeChild(items, rootId, items[x].parentId.value, n - 1);
    }
  }

  // ------------------------------------------------------------------ helpers

  lemma {:induction false} ReachesInMore(less: Items, more: Items, x: Id, a: Id, n: nat)
    requires forall y <- less :: y in more && more[y] == less[y]
    requires Reaches(less, x, a, n)
    ensures Reaches(more, x, a, n)
    decreases n
  {
    if x != a { ReachesInMore(less, more, less[x].parentId.value, a, n - 1); }
  }

  lemma SubmapAcyclic(more: Items, less: Items)
    requires Acyclic(more) && forall y <- less :: y in more && more[y] == less[y]
    ensures Acyclic(less)
  {
    var rank: map<Id, nat> :| RankedBy(more, rank);
    assert RankedBy(less, rank);
  }

  lemma StrictSubmap(more: Items, less: Items, x: Id)
    requires less.Keys <= more.Keys && x in more && x !in less
    ensures |less| < |more|
  {
    SubsetSize(less.Keys, more.Keys - {x});
    assert |less.Keys| == |less| && |more.Keys| == |more|;
  }

  lemma {:induction false} SubsetSize<T>(a: set<T>, b: set<T>)
    requires a <= b
    ensures |a| <= |b|
    decreases a
  {
    if a != {} {
      var x :| x in a;
      SubsetSize(a - {x}, b - {x});
    }
  }

  function Elements<T>(s: seq<T>): set<T> {
    set x | x in s
  }

  lemma {:induction false} Distinct<T>(s: seq<T>)
    requires forall i, j :: 0 <= i < j < |s| ==> s[i] != s[j]
    ensures |Elements(s)| == |s|
  {
    if s != [] {
      Distinct(s[..|s| - 1]);
      assert Elements(s) == Elements(s[..|s| - 1]) + {s[|s| - 1]};
    }
  }
}
