/**
 * What the server writes to the change feed when a mutation commits: one row
 * for each touched item that a client could not work out from its folder's row,
 * parents before children.
 */
module ChangeFeed {
  import opened Common
  import opened RemoteItems

  datatype ItemState = ItemState(
    kind: NodeType,
    id: Id,
    parentId: Option<Id>,
    name: string,
    /** The names from the files root down, the item's own name last. */
    path: seq<string>,
    deletedAt: Option<int>,
    sizeBytes: Option<int>,
    contentChecksum: Option<string>,
    storageRevision: int,
    clientModifiedAt: Option<int>)
  {
    predicate Live() { deletedAt.None? }
  }

  type Snapshot = map<Id, ItemState>

  function Find(s: Snapshot, id: Id): Option<ItemState> {
    if id in s then Some(s[id]) else None
  }

  function KindOf(before: Option<ItemState>, after: Option<ItemState>): Option<ChangeKind> {
    if before.None? then
      if after.Some? && after.value.Live() then Some(Created) else None
    else if after.None? then Some(Deleted)
    else
      var b, a := before.value, after.value;
      if b.Live() && !a.Live() then Some(Trashed)
      else if !b.Live() && a.Live() then Some(Restored)
      else if !a.Live() then None
      else if b.parentId != a.parentId || b.name != a.name then Some(Moved)
      else if
        || b.contentChecksum != a.contentChecksum
        || b.sizeBytes != a.sizeBytes
        || b.clientModifiedAt != a.clientModifiedAt
        || (a.kind == File && b.storageRevision != a.storageRevision && b.path == a.path)
      then Some(Updated)
      else None
  }

  function Kinds(before: Snapshot, after: Snapshot): map<Id, ChangeKind> {
    map x | x in before.Keys + after.Keys && KindOf(Find(before, x), Find(after, x)).Some?
      :: KindOf(Find(before, x), Find(after, x)).value
  }

  /** The state a row describes: the one after the mutation, or the last one there was. */
  function Current(before: Snapshot, after: Snapshot, x: Id): ItemState
    requires x in before || x in after
  {
    if x in after then after[x] else before[x]
  }

  /** A child that moved, went to trash, came back or vanished with its folder needs no row of its own. */
  predicate CoveredByParent(kinds: map<Id, ChangeKind>, before: Snapshot, after: Snapshot, x: Id)
    requires x in kinds && (x in before || x in after)
  {
    var current := Current(before, after, x);
    && kinds[x] != Created
    && kinds[x] != Updated
    && x in before && before[x].parentId == current.parentId
    && current.parentId.Some?
    && current.parentId.value in kinds
    && kinds[current.parentId.value] == kinds[x]
  }

  function RowOf(kind: ChangeKind, s: ItemState): Change {
    Change(kind, s.kind, s.id, s.parentId, s.path, s.name, s.sizeBytes, s.contentChecksum, s.storageRevision,
           s.clientModifiedAt)
  }

  /** The items that get a row, each with its row. */
  function Rows(before: Snapshot, after: Snapshot): map<Id, Change> {
    var kinds := Kinds(before, after);
    map x | x in kinds && !CoveredByParent(kinds, before, after, x) :: RowOf(kinds[x], Current(before, after, x))
  }

  /** The item is there and not in the trash. */
  predicate IsLive(s: Option<ItemState>) {
    s.Some? && s.value.Live()
  }

  /** Which kind of change each item has seen, if any. */
  lemma KindExactly(before: Option<ItemState>, after: Option<ItemState>)
    ensures var kind, both := KindOf(before, after), IsLive(before) && IsLive(after);
            var b, a := before, after;
            && (kind == Some(Created) <==> b.None? && IsLive(a))
            && (kind == Some(Deleted) <==> b.Some? && a.None?)
            && (kind == Some(Trashed) <==> IsLive(b) && a.Some? && !IsLive(a))
            && (kind == Some(Restored) <==> b.Some? && !IsLive(b) && IsLive(a))
            && (kind == Some(Moved) <==>
                  both && (b.value.parentId != a.value.parentId || b.value.name != a.value.name))
            && (kind == Some(Updated) <==>
                  && both && b.value.parentId == a.value.parentId && b.value.name == a.value.name
                  && (|| b.value.contentChecksum != a.value.contentChecksum || b.value.sizeBytes != a.value.sizeBytes
                      || b.value.clientModifiedAt != a.value.clientModifiedAt
                      || (a.value.kind == File && b.value.storageRevision != a.value.storageRevision
                          && b.value.path == a.value.path)))
  {
  }

  /** The item has changed as its folder has, and is where it was in it. */
  ghost predicate WentAlong(before: Snapshot, after: Snapshot, x: Id) {
    exists p ::
      && x in before && before[x].parentId == Some(p) && (x in after ==> after[x].parentId == Some(p))
      && KindOf(Find(before, p), Find(after, p)) == KindOf(Find(before, x), Find(after, x))
  }

  /** An item has a row exactly if it has changed, and not just along with its folder. */
  lemma RowsExactly(before: Snapshot, after: Snapshot, x: Id)
    ensures var kind := KindOf(Find(before, x), Find(after, x));
            && (x in Rows(before, after) <==> kind.Some? && (kind == Some(Updated) || !WentAlong(before, after, x)))
            && (x in Rows(before, after) ==>
                  var s := if x in after then after[x] else before[x];
                  Rows(before, after)[x] == Change(kind.value, s.kind, s.id, s.parentId, s.path, s.name, s.sizeBytes,
                                                   s.contentChecksum, s.storageRevision, s.clientModifiedAt))
  {
    if x in before || x in after {
      KindsAt(before, after, x);
      var parent := Current(before, after, x).parentId;
      if parent.Some? && (parent.value in before || parent.value in after) {
        KindsAt(before, after, parent.value);
      }
      KindExactly(Find(before, x), Find(after, x));
    }
    hide KindOf;
  }

  predicate ByDepth(changes: seq<Change>) {
    forall i, j :: 0 <= i < j < |changes| ==> |changes[i].path| <= |changes[j].path|
  }

  /** Exactly these rows, each once, parents before children. */
  ghost predicate Lists(rows: map<Id, Change>, changes: seq<Change>) {
    && (forall i :: 0 <= i < |changes| ==> changes[i].itemId in rows && changes[i] == rows[changes[i].itemId])
    && (forall i, j :: 0 <= i < j < |changes| ==> changes[i].itemId != changes[j].itemId)
    && (forall x <- rows :: exists i :: 0 <= i < |changes| && changes[i].itemId == x)
    && ByDepth(changes)
  }

  /** `changes` with one more row, at the end of its depth. */
  function Inserted(changes: seq<Change>, row: Change): seq<Change>
    decreases changes
  {
    if changes == [] || |changes[|changes| - 1].path| <= |row.path| then changes + [row]
    else Inserted(changes[..|changes| - 1], row) + [changes[|changes| - 1]]
  }

  /** `appendStorageChanges`, without the lock and the insert themselves. */
  method AppendStorageChanges(before: Snapshot, after: Snapshot) returns (changes: seq<Change>)
    requires forall x <- before :: before[x].id == x
    requires forall x <- after :: after[x].id == x
    ensures Lists(Rows(before, after), changes)
  {
    hide *;
    var kinds := CollectKinds(before, after);
    changes := [];
    ghost var all := Rows(before, after);
    var todo := kinds.Keys;
    AllToDo(before, after);
    while todo != {}
      invariant todo <= kinds.Keys
      invariant Lists(RowsBut(all, todo), changes)
      decreases |todo|
    {
      var x :| x in todo;
      RowsAt(before, after, x);
      RowsButNext(all, todo, x);
      if !CoveredByParent(kinds, before, after, x) {
        var row := RowOf(kinds[x], Current(before, after, x));
        InsertLists(RowsBut(all, todo), changes, row);
        changes := Inserted(changes, row);
      }
      todo := todo - {x};
    }
    RowsButNone(all);
  }

  /** The rows of the items gone through. */
  ghost function RowsBut(all: map<Id, Change>, todo: set<Id>): map<Id, Change> {
    all - todo
  }

  lemma AllToDo(before: Snapshot, after: Snapshot)
    ensures Lists(RowsBut(Rows(before, after), Kinds(before, after).Keys), [])
  {
    RowsKeys(before, after);
    hide Rows, Kinds;
    assert RowsBut(Rows(before, after), Kinds(before, after).Keys) == map[];
  }

  lemma RowsButNext(all: map<Id, Change>, todo: set<Id>, x: Id)
    requires x in todo
    ensures x !in RowsBut(all, todo)
    ensures RowsBut(all, todo - {x}) == if x in all then RowsBut(all, todo)[x := all[x]] else RowsBut(all, todo)
  {
  }

  lemma RowsButNone(all: map<Id, Change>)
    ensures RowsBut(all, {}) == all
  {
  }

  lemma KindsKeys(before: Snapshot, after: Snapshot)
    ensures Kinds(before, after).Keys <= before.Keys + after.Keys
  {
    hide KindOf;
  }

  lemma KindsAt(before: Snapshot, after: Snapshot, x: Id)
    requires x in before || x in after
    ensures var kind := KindOf(Find(before, x), Find(after, x));
            && (x in Kinds(before, after) <==> kind.Some?)
            && (kind.Some? ==> Kinds(before, after)[x] == kind.value)
  {
    hide KindOf;
  }

  lemma RowsKeys(before: Snapshot, after: Snapshot)
    ensures Rows(before, after).Keys <= Kinds(before, after).Keys
  {
  }

  lemma RowsAt(before: Snapshot, after: Snapshot, x: Id)
    requires forall y <- before :: before[y].id == y
    requires forall y <- after :: after[y].id == y
    requires x in Kinds(before, after)
    ensures x in before || x in after
    ensures x in Rows(before, after) <==> !CoveredByParent(Kinds(before, after), before, after, x)
    ensures x in Rows(before, after) ==>
              Rows(before, after)[x] == RowOf(Kinds(before, after)[x], Current(before, after, x))
    ensures RowOf(Kinds(before, after)[x], Current(before, after, x)).itemId == x
  {
    hide KindOf, CoveredByParent;
  }

  method CollectKinds(before: Snapshot, after: Snapshot) returns (kinds: map<Id, ChangeKind>)
    ensures kinds == Kinds(before, after)
  {
    hide KindOf, Kinds, Find;
    ghost var all := Kinds(before, after);
    KindsKeys(before, after);
    kinds := map[];
    var todo := before.Keys + after.Keys;
    while todo != {}
      invariant todo <= before.Keys + after.Keys
      invariant kinds.Keys == all.Keys - todo && forall x <- kinds :: kinds[x] == all[x]
      decreases |todo|
    {
      var x :| x in todo;
      var kind := KindOf(Find(before, x), Find(after, x));
      KindsAt(before, after, x);
      if kind.Some? {
        kinds := kinds[x := kind.value];
      }
      todo := todo - {x};
    }
  }

  /** `r` is `changes` with `row` at position `k`, after the rows as shallow as it and before the deeper ones. */
  predicate Spliced(changes: seq<Change>, row: Change, r: seq<Change>, k: nat) {
    && k <= |changes| && |r| == |changes| + 1 && r[k] == row
    && (forall i :: 0 <= i < k ==> r[i] == changes[i])
    && (forall i :: k < i <= |changes| ==> r[i] == changes[i - 1])
    && (k > 0 ==> |changes[k - 1].path| <= |row.path|)
    && (k < |changes| ==> |row.path| < |changes[k].path|)
  }

  lemma {:induction false} InsertedAt(changes: seq<Change>, row: Change) returns (k: nat)
    requires ByDepth(changes)
    ensures Spliced(changes, row, Inserted(changes, row), k)
    decreases changes
  {
    if changes == [] || |changes[|changes| - 1].path| <= |row.path| {
      k := |changes|;
    } else {
      k := InsertedAt(changes[..|changes| - 1], row);
    }
  }

  lemma InsertLists(rows: map<Id, Change>, changes: seq<Change>, row: Change)
    requires Lists(rows, changes) && row.itemId !in rows
    ensures Lists(rows[row.itemId := row], Inserted(changes, row))
  {
    var r := Inserted(changes, row);
    var k := InsertedAt(changes, row);
    SplicedLists(rows, changes, row, r, k);
    hide *;
  }

  lemma SplicedLists(rows: map<Id, Change>, changes: seq<Change>, row: Change, r: seq<Change>, k: nat)
    requires Lists(rows, changes) && row.itemId !in rows && Spliced(changes, row, r, k)
    ensures Lists(rows[row.itemId := row], r)
  {
    hide ByDepth, Spliced;
    var more := rows[row.itemId := row];
    SplicedRows(rows, changes, row, r, k, more);
    SplicedOnce(rows, changes, row, r, k);
    SplicedAll(rows, changes, row, r, k, more);
    SplicedByDepth(changes, row, r, k);
  }

  lemma SplicedRows(rows: map<Id, Change>, changes: seq<Change>, row: Change, r: seq<Change>, k: nat,
    more: map<Id, Change>)
    requires Spliced(changes, row, r, k) && row.itemId !in rows && more == rows[row.itemId := row]
    requires forall i :: 0 <= i < |changes| ==> changes[i].itemId in rows && changes[i] == rows[changes[i].itemId]
    ensures forall i :: 0 <= i < |r| ==> r[i].itemId in more && r[i] == more[r[i].itemId]
  {
    forall i | 0 <= i < |r|
      ensures r[i] == row || (r[i].itemId in rows && r[i] == rows[r[i].itemId])
    {
      assert i == k || r[i] == changes[if i < k then i else i - 1];
    }
  }

  lemma SplicedOnce(rows: map<Id, Change>, changes: seq<Change>, row: Change, r: seq<Change>, k: nat)
    requires Spliced(changes, row, r, k) && row.itemId !in rows
    requires forall i :: 0 <= i < |changes| ==> changes[i].itemId in rows
    requires forall i, j :: 0 <= i < j < |changes| ==> changes[i].itemId != changes[j].itemId
    ensures forall i, j :: 0 <= i < j < |r| ==> r[i].itemId != r[j].itemId
  {
    forall i, j | 0 <= i < j < |r|
      ensures r[i].itemId != r[j].itemId
    {
      assert i == k || r[i] == changes[if i < k then i else i - 1];
      assert j == k || r[j] == changes[if j < k then j else j - 1];
    }
  }

  lemma SplicedAll(rows: map<Id, Change>, changes: seq<Change>, row: Change, r: seq<Change>, k: nat,
    more: map<Id, Change>)
    requires Spliced(changes, row, r, k) && more == rows[row.itemId := row]
    requires forall x <- rows :: exists i :: 0 <= i < |changes| && changes[i].itemId == x
    ensures forall x <- more :: exists i :: 0 <= i < |r| && r[i].itemId == x
  {
    forall x | x in more
      ensures exists i :: 0 <= i < |r| && r[i].itemId == x
    {
      if x == row.itemId {
        assert r[k].itemId == x;
      } else {
        var i :| 0 <= i < |changes| && changes[i].itemId == x;
        assert r[if i < k then i else i + 1].itemId == x;
      }
    }
  }

  lemma SplicedByDepth(changes: seq<Change>, row: Change, r: seq<Change>, k: nat)
    requires Spliced(changes, row, r, k) && ByDepth(changes)
    ensures ByDepth(r)
  {
    forall i, j | 0 <= i < j < |r|
      ensures |r[i].path| <= |r[j].path|
    {
      assert i == k || r[i] == changes[if i < k then i else i - 1];
      assert j == k || r[j] == changes[if j < k then j else j - 1];
      assert i < k - 1 ==> |changes[i].path| <= |changes[k - 1].path|;
      assert k < j - 1 ==> |changes[k].path| <= |changes[j - 1].path|;
    }
  }
}
