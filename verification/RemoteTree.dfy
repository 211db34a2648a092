/**
 * The desktop client's copy of the server folders, kept current in place.
 * Every method is proved against the functions of RemoteItems, and keeps the
 * `children` index the exact inverse of the items' `parentId`.
 */
module RemoteTree {
  import opened Common
  import opened RemoteItems

  class RemoteTree {
    var items: Items
    var children: map<Option<Id>, set<Id>>
    /** The `remote` table of the client's database. */
    var rows: Items
    var roots: set<Id>

    ghost predicate Indexed()
      reads this
    {
      && Keyed(items)
      && (forall id <- items :: items[id].parentId in children && id in children[items[id].parentId])
      && (forall p <- children, id <- children[p] :: id in items && items[id].parentId == p)
    }

    ghost predicate Valid()
      reads this
    {
      Indexed() && rows == items
    }

    constructor (saved: Items, roots: set<Id>)
      requires Keyed(saved)
      ensures Valid() && items == saved && this.roots == roots
    {
      this.items, this.children, this.rows, this.roots := map[], map[], saved, roots;
      new;
      var todo := saved.Keys;
      while todo != {}
        invariant todo <= saved.Keys
        invariant Indexed() && rows == saved && this.roots == roots
        invariant items.Keys == saved.Keys - todo
        invariant forall id <- items :: items[id] == saved[id]
        decreases |todo|
      {
        var id :| id in todo;
        Index(saved[id]);
        todo := todo - {id};
      }
    }

    method Clear()
      modifies this
      ensures Valid() && items == map[] && roots == old(roots)
    {
      items, children, rows := map[], map[], map[];
    }

    method SetRoots(newRoots: set<Id>)
      modifies this`roots
      ensures roots == newRoots
    {
      roots := newRoots;
    }

    method Index(item: RemoteItem)
      requires Indexed()
      modifies this`items, this`children
      ensures Indexed() && items == old(items)[item.id := item]
    {
      if item.id in items {
        var was := items[item.id].parentId;
        if was in children {
          children := children[was := children[was] - {item.id}];
        }
      }
      items := items[item.id := item];
      var siblings := if item.parentId in children then children[item.parentId] else {};
      children := children[item.parentId := siblings + {item.id}];
    }

    method Put(item: RemoteItem)
      requires Valid()
      modifies this`items, this`children, this`rows
      ensures Valid() && items == old(items)[item.id := item]
    {
      Index(item);
      rows := rows[item.id := item];
    }

    /** Every id in a subtree, the folder itself first. */
    method Subtree(id: Id) returns (ids: seq<Id>)
      requires Indexed() && Acyclic(items)
      ensures forall x :: x in ids <==> x == id || x in Descendants(items, id)
      ensures forall i, j :: 0 <= i < j < |ids| ==> ids[i] != ids[j]
      ensures ids != [] && ids[0] == id
    {
      ids := [id];
      var index := 0;
      while index < |ids|
        invariant Listed(items, ids, id, index)
        decreases |items| + 1 - index
      {
        BoundedList(items, ids, id, index);
        var kids := if Some(ids[index]) in children then children[Some(ids[index])] else {};
        assert kids == set x | x in items && items[x].parentId == Some(ids[index]);
        var grown := Followed(ids, kids, id, index);
        ListGrows(items, ids, grown, kids, id, index);
        ids := grown;
        index := index + 1;
      }
      ListIsSubtree(items, ids, id);
    }

    method Followed(ids: seq<Id>, kids: set<Id>, ghost id: Id, ghost index: nat) returns (grown: seq<Id>)
      requires Acyclic(items) && index < |ids| && Listed(items, ids, id, index)
      requires forall x <- kids :: x in items && items[x].parentId == Some(ids[index])
      ensures ids <= grown
      ensures forall i :: |ids| <= i < |grown| ==> grown[i] in kids
      ensures forall x <- kids :: x in grown
      ensures forall i, j :: 0 <= i < j < |grown| ==> grown[i] != grown[j]
    {
      var todo := kids;
      grown := ids;
      while todo != {}
        invariant todo <= kids
        invariant ids <= grown
        invariant forall i :: |ids| <= i < |grown| ==> grown[i] in kids - todo
        invariant forall x <- kids - todo :: x in grown
        invariant forall i, j :: 0 <= i < j < |grown| ==> grown[i] != grown[j]
        decreases |todo|
      {
        var child :| child in todo;
        ChildIsNew(items, ids, child, id, index);
        grown := grown + [child];
        todo := todo - {child};
      }
    }

    /** The index while the ids in `gone` are being dropped, and with them their own child sets. */
    ghost predicate PartlyIndexed(gone: set<Id>)
      reads this
    {
      && Keyed(items)
      && (forall id <- items ::
            if items[id].parentId in children then id in children[items[id].parentId]
            else items[id].parentId.Some? && items[id].parentId.value in gone)
      && (forall p <- children, id <- children[p] :: id in items && items[id].parentId == p)
    }

    /** One item of a subtree leaves. */
    method Drop(each: Id, ghost gone: set<Id>)
      requires PartlyIndexed(gone) && each in items && each in gone
      modifies this`items, this`children
      ensures PartlyIndexed(gone) && items == old(items) - {each}
    {
      var parent := items[each].parentId;
      if parent in children {
        children := children[parent := children[parent] - {each}];
      }
      items := items - {each};
      children := children - {Some(each)};
    }

    lemma StartDropping(gone: set<Id>)
      requires Indexed()
      ensures PartlyIndexed(gone)
    {
    }

    method DropAll(gone: set<Id>)
      requires Indexed() && gone <= items.Keys
      modifies this`items, this`children
      ensures PartlyIndexed(gone) && items == old(items) - gone
    {
      var todo := gone;
      hide PartlyIndexed;
      StartDropping(gone);
      while todo != {}
        invariant todo <= gone && todo <= items.Keys
        invariant items - todo == old(items) - gone
        invariant PartlyIndexed(gone)
        decreases |todo|
      {
        var each :| each in todo;
        Drop(each, gone);
        todo := todo - {each};
      }
    }

    method RemoveSubtree(id: Id)
      requires Valid() && Acyclic(items)
      modifies this`items, this`children, this`rows
      ensures Valid() && items == WithoutSubtree(old(items), id)
    {
      var found := Subtree(id);
      var gone := set x | x in found && x in items;
      assert gone == Descendants(items, id) by { UnderSelf(items, id); }
      DropAll(gone);
      rows := rows - gone;
      forall x | x in items
        ensures items[x].parentId.Some? ==> items[x].parentId.value !in gone
      {
        if items[x].parentId.Some? && items[x].parentId.value in gone {
          UnderParent(old(items), x, id);
        }
      }
    }

    /** Whether an item with this parent sits under one of the pair folders. */
    method IsInScope(parentId: Option<Id>) returns (seen: bool)
      ensures seen == InScope(items, roots, parentId, SCOPE_LIMIT)
      ensures seen <==> parentId.Some? && exists r <- roots :: Reaches(items, parentId.value, r, 4095)
    {
      InScopeMeans(items, roots, parentId, SCOPE_LIMIT);
      var current := parentId;
      var depth := 0;
      while current.Some? && depth < SCOPE_LIMIT
        invariant depth <= SCOPE_LIMIT
        invariant InScope(items, roots, parentId, SCOPE_LIMIT) == InScope(items, roots, current, SCOPE_LIMIT - depth)
        decreases SCOPE_LIMIT - depth
      {
        if current.value in roots { return true; }
        current := if current.value in items then items[current.value].parentId else None;
        depth := depth + 1;
      }
      return false;
    }

    /** Replaces what is known under a pair folder with a fresh snapshot. */
    method ReplaceUnder(rootId: Id, news: seq<RemoteItem>)
      requires Valid() && Acyclic(items)
      modifies this`items, this`children, this`rows
      ensures Valid() && items == PutAll(Emptied(old(items), rootId), news)
      ensures forall i | IsLast(news, i) :: news[i].id in items && items[news[i].id] == news[i]
      ensures forall x | !Named(news, x) ::
                (x in items <==> x in old(items) && (x == rootId || !Under(old(items), x, rootId)))
                && (x in items ==> items[x] == old(items)[x])
    {
      ReplacedMeans(items, rootId, news);
      EmptyFolder(rootId);
      var i := 0;
      ghost var cleared := items;
      while i < |news|
        invariant 0 <= i <= |news| && Valid()
        invariant PutAll(items, news[i..]) == PutAll(cleared, news)
      {
        Put(news[i]);
        assert news[i..][1..] == news[i + 1..];
        i := i + 1;
      }
    }

    /** The loop of `replaceUnder` over the folder's children, which shrink as it goes. */
    method EmptyFolder(rootId: Id)
      requires Valid() && Acyclic(items)
      modifies this`items, this`children, this`rows
      ensures Valid() && items == Emptied(old(items), rootId)
    {
      hide Acyclic, Emptied, Descendants;
      while Some(rootId) in children && children[Some(rootId)] != {}
        invariant Valid() && Acyclic(items)
        invariant Emptied(items, rootId) == Emptied(old(items), rootId)
        decreases |items|
      {
        var child :| child in children[Some(rootId)];
        RemoveChild(rootId, child);
      }
      NothingBelow(items, rootId);
    }

    method RemoveChild(rootId: Id, child: Id)
      requires Valid() && Acyclic(items) && child in items && items[child].parentId == Some(rootId)
      modifies this`items, this`children, this`rows
      ensures Valid() && Acyclic(items) && |items| < |old(items)|
      ensures Emptied(items, rootId) == Emptied(old(items), rootId)
    {
      EmptyOneChild(items, rootId, child);
      UnderSelf(items, child);
      RemoveSubtree(child);
      StrictSubmap(old(items), items, child);
      SubmapAcyclic(old(items), items);
    }

    /** Adds a folder's contents that came into view with it. */
    method AddUnder(news: seq<RemoteItem>)
      requires Valid()
      modifies this`items, this`children, this`rows
      ensures Valid() && items == AddedUnder(old(items), news)
    {
      var i := 0;
      while i < |news|
        invariant 0 <= i <= |news| && Valid()
        invariant AddedUnder(items, news[i..]) == AddedUnder(old(items), news)
      {
        var item := news[i];
        assert news[i..][1..] == news[i + 1..];
        if item.id !in items || items[item.id].rev <= item.rev {
          Put(item);
        }
        i := i + 1;
      }
    }

    /** Applies one change; the result is a folder whose contents the client has not seen. */
    method Apply(change: Change) returns (fetch: Option<Id>)
      requires Valid() && Acyclic(items)
      modifies this`items, this`children, this`rows
      ensures Valid() && (items, fetch) == Applied(old(items), roots, change)
    {
      if change.itemId in roots { return None; }
      var known := change.itemId in items;
      if known && change.storageRevision < items[change.itemId].rev { return None; }
      if change.kind == Trashed || change.kind == Deleted {
        if known { RemoveSubtree(change.itemId); }
        return None;
      }
      var seen := IsInScope(change.parentId);
      if !seen {
        if known { RemoveSubtree(change.itemId); }
        return None;
      }
      Put(FromChange(change));
      return if change.itemType == Folder && !known && change.kind != Created then Some(change.itemId) else None;
    }

    /** Records a server answer the engine got directly. */
    method Set(item: RemoteItem)
      requires Valid() && Acyclic(items)
      modifies this`items, this`children, this`rows
      ensures Valid() && items == Recorded(old(items), roots, item)
      ensures InScope(old(items), roots, item.parentId, SCOPE_LIMIT) ==> items == old(items)[item.id := item]
      ensures !InScope(old(items), roots, item.parentId, SCOPE_LIMIT) ==>
                && (forall x <- items :: x in old(items) && items[x] == old(items)[x])
                && (forall x <- old(items) ::
                      x in items <==> !(item.id in old(items) && Under(old(items), x, item.id)))
    {
      var seen := IsInScope(item.parentId);
      if !seen {
        if item.id in items { RemoveSubtree(item.id); }
        return;
      }
      Put(item);
    }
  }
}
