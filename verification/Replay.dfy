/**
 * Changes applied once more over the tree they already led to.  Harmless
 * exactly when no item that is missing from the tree was last put into one of
 * its folders -- as it is while a shown folder's contents are still to be fetched.
 */
module Replay {
  import opened Common
  import opened RemoteItems

  /** Every item hangs, through items of the tree, off a pair folder, and no deeper than `inScope` looks. */
  ghost predicate RootedBy(t: Items, roots: set<Id>, depth: map<Id, nat>) {
    forall x <- t :: HangsOff(t, roots, depth, x)
  }

  predicate HangsOff(t: Items, roots: set<Id>, depth: map<Id, nat>, x: Id)
    requires x in t
  {
    && x !in roots && t[x].id == x && t[x].parentId.Some? && x in depth && depth[x] < SCOPE_LIMIT - 1
    && (t[x].parentId.value in roots ||
        (t[x].parentId.value in t && t[x].parentId.value in depth && depth[t[x].parentId.value] < depth[x]))
  }

  ghost predicate Rooted(t: Items, roots: set<Id>) {
    exists depth: map<Id, nat> :: RootedBy(t, roots, depth)
  }

  /** The row is older than what is stored for its item, or describes exactly that. */
  predicate NotNewer(t: Items, c: Change) {
    c.itemId in t ==>
      || c.storageRevision < t[c.itemId].rev
      || (c.storageRevision == t[c.itemId].rev && FromChange(c) == t[c.itemId] && !Removes(c))
  }

  predicate AllSeen(t: Items, rows: seq<Change>) {
    forall i :: 0 <= i < |rows| ==> NotNewer(t, rows[i])
  }

  /** An item's revision never decreases along the feed. */
  predicate Ascends(rows: seq<Change>) {
    forall i, j :: 0 <= i < j < |rows| && rows[i].itemId == rows[j].itemId ==>
      rows[i].storageRevision <= rows[j].storageRevision
  }

  predicate IsLast(rows: seq<Change>, i: nat)
    requires i < |rows|
  {
    forall j :: i < j < |rows| ==> rows[j].itemId != rows[i].itemId
  }

  /** The row's item is not in the tree, and the row puts it into a folder that is. */
  predicate Reenters(t: Items, roots: set<Id>, c: Change) {
    && c.itemId !in t && c.itemId !in roots && !Removes(c)
    && c.parentId.Some? && (c.parentId.value in t || c.parentId.value in roots)
  }

  predicate NothingReenters(t: Items, roots: set<Id>, rows: seq<Change>) {
    forall i :: 0 <= i < |rows| && IsLast(rows, i) ==> !Reenters(t, roots, rows[i])
  }

  /** Where the rows leave the items, nothing lies inside itself. */
  ghost predicate PlacesRankedBy(rows: seq<Change>, rank: map<Id, nat>) {
    forall i :: 0 <= i < |rows| && IsLast(rows, i) && !Removes(rows[i]) && rows[i].parentId.Some? ==>
        RowRanked(rows[i], rank)
  }

  predicate RowRanked(c: Change, rank: map<Id, nat>) {
    && c.itemId in rank
    && (c.parentId.Some? ==> c.parentId.value in rank && rank[c.parentId.value] < rank[c.itemId])
  }

  ghost predicate PlacesAcyclic(rows: seq<Change>) {
    exists rank: map<Id, nat> :: PlacesRankedBy(rows, rank)
  }

  // ------------------------------------------------------------------------ the tree stays

  ghost predicate Holds(t: Items, c: Items) {
    forall x <- t :: x in c && c[x] == t[x]
  }

  lemma {:induction false} StaysInScope(t: Items, roots: set<Id>, depth: map<Id, nat>, c: Items, x: Id, steps: nat)
    requires RootedBy(t, roots, depth) && Holds(t, c) && x in t && depth[x] + 2 <= steps
    ensures InScope(c, roots, Some(x), steps)
    decreases depth[x]
  {
    assert HangsOff(t, roots, depth, x);
    var up := t[x].parentId.value;
    if up in roots {
      assert InScope(c, roots, Some(up), steps - 1);
    } else {
      StaysInScope(t, roots, depth, c, up, steps - 1);
    }
  }

  lemma PlaceInScope(t: Items, roots: set<Id>, c: Items, up: Id)
    requires Rooted(t, roots) && Holds(t, c) && (up in t || up in roots)
    ensures InScope(c, roots, Some(up), SCOPE_LIMIT)
  {
    var depth: map<Id, nat> :| RootedBy(t, roots, depth);
    if up !in roots {
      assert HangsOff(t, roots, depth, up);
      StaysInScope(t, roots, depth, c, up, SCOPE_LIMIT);
    }
  }

  /** Nothing in the tree, or put directly into it, lies below an item that is not. */
  lemma {:induction false} NotUnderStranger(t: Items, roots: set<Id>, c: Items, x: Id, stranger: Id, n: nat)
    requires Rooted(t, roots) && Holds(t, c) && x in t && stranger !in t && stranger !in roots
    requires forall r <- roots :: r !in c
    ensures !Reaches(c, x, stranger, n)
    decreases n
  {
    var depth: map<Id, nat> :| RootedBy(t, roots, depth);
    assert HangsOff(t, roots, depth, x);
    if n > 0 && t[x].parentId.value in t {
      NotUnderStranger(t, roots, c, t[x].parentId.value, stranger, n - 1);
    }
  }

  // ----------------------------------------------------------------------------- one row

  /** An item that the replay has added: as its last row so far has it, and in a folder that is there. */
  ghost predicate Added(roots: set<Id>, c: Items, rows: seq<Change>, k: nat, x: Id)
    requires k <= |rows| && x in c
  {
    && x !in roots && c[x].parentId.Some? && (c[x].parentId.value in c || c[x].parentId.value in roots)
    && exists i :: 0 <= i < k && rows[i].itemId == x && FromChange(rows[i]) == c[x] && !Removes(rows[i])
                   && forall j :: i < j < k ==> rows[j].itemId != x
  }

  ghost predicate Midway(t: Items, roots: set<Id>, c: Items, rows: seq<Change>, k: nat)
    requires k <= |rows|
  {
    && Holds(t, c) && (forall r <- roots :: r !in c)
    && forall x <- c :: x !in t ==> Added(roots, c, rows, k, x)
  }

  lemma StrangerGoes(t: Items, roots: set<Id>, c: Items, rows: seq<Change>, k: nat, x: Id)
    requires Rooted(t, roots) && k < |rows| && Midway(t, roots, c, rows, k) && x !in t && x !in roots
    requires rows[k].itemId == x
    ensures Midway(t, roots, WithoutSubtree(c, x), rows, k + 1)
  {
    var less := WithoutSubtree(c, x);
    UnderSelf(c, x);
    forall y | y in t
      ensures y in less && less[y] == t[y]
    {
      if Under(c, y, x) {
        var n: nat :| Reaches(c, y, x, n);
        NotUnderStranger(t, roots, c, y, x, n);
      }
    }
    forall y | y in less && y !in t
      ensures Added(roots, less, rows, k + 1, y)
    {
      AddedStays(roots, c, rows, k, x, y);
    }
  }

  lemma AddedStays(roots: set<Id>, c: Items, rows: seq<Change>, k: nat, x: Id, y: Id)
    requires k < |rows| && y in c && !Under(c, y, x) && Added(roots, c, rows, k, y) && rows[k].itemId == x &&
             x !in roots
    ensures Added(roots, WithoutSubtree(c, x), rows, k + 1, y)
  {
    UnderSelf(c, x);
    var i :| 0 <= i < k && rows[i].itemId == y && FromChange(rows[i]) == c[y] && !Removes(rows[i])
             && forall j :: i < j < k ==> rows[j].itemId != y;
    var up := c[y].parentId.value;
    if up in c && Under(c, up, x) { UnderParent(c, y, x); }
    assert forall j :: i < j < k + 1 ==> rows[j].itemId != y;
  }

  lemma StrangerComes(t: Items, roots: set<Id>, c: Items, rows: seq<Change>, k: nat)
    requires Rooted(t, roots) && k < |rows| && Midway(t, roots, c, rows, k)
    requires rows[k].itemId !in t && rows[k].itemId !in roots && !Removes(rows[k])
    requires InScope(c, roots, rows[k].parentId, SCOPE_LIMIT)
    ensures Midway(t, roots, c[rows[k].itemId := FromChange(rows[k])], rows, k + 1)
  {
    var x, more := rows[k].itemId, c[rows[k].itemId := FromChange(rows[k])];
    forall y | y in more && y !in t
      ensures Added(roots, more, rows, k + 1, y)
    {
      if y != x {
        assert Added(roots, c, rows, k, y);
        var i :| 0 <= i < k && rows[i].itemId == y && FromChange(rows[i]) == c[y] && !Removes(rows[i])
                 && forall j :: i < j < k ==> rows[j].itemId != y;
        assert forall j :: i < j < k + 1 ==> rows[j].itemId != y;
      }
    }
  }

  lemma NothingNew(t: Items, roots: set<Id>, c: Items, rows: seq<Change>, k: nat)
    requires k < |rows| && Midway(t, roots, c, rows, k) && (rows[k].itemId in t || rows[k].itemId !in c)
    ensures Midway(t, roots, c, rows, k + 1)
  {
    forall y | y in c && y !in t
      ensures Added(roots, c, rows, k + 1, y)
    {
      assert Added(roots, c, rows, k, y);
      var i :| 0 <= i < k && rows[i].itemId == y && FromChange(rows[i]) == c[y] && !Removes(rows[i])
               && forall j :: i < j < k ==> rows[j].itemId != y;
      assert forall j :: i < j < k + 1 ==> rows[j].itemId != y;
    }
  }

  /** A row for an item of the tree changes nothing. */
  lemma SeenRow(t: Items, roots: set<Id>, c: Items, row: Change)
    requires Rooted(t, roots) && Holds(t, c) && NotNewer(t, row) && row.itemId in t
    ensures Applied(c, roots, row).0 == c
  {
    var depth: map<Id, nat> :| RootedBy(t, roots, depth);
    assert HangsOff(t, roots, depth, row.itemId);
    PlaceInScope(t, roots, c, t[row.itemId].parentId.value);
  }

  lemma OneRowMidway(t: Items, roots: set<Id>, c: Items, rows: seq<Change>, k: nat)
    requires Rooted(t, roots) && k < |rows| && Midway(t, roots, c, rows, k) && AllSeen(t, rows) && Ascends(rows)
    ensures Midway(t, roots, Applied(c, roots, rows[k]).0, rows, k + 1)
  {
    var x := rows[k].itemId;
    if x in t {
      SeenRow(t, roots, c, rows[k]);
      NothingNew(t, roots, c, rows, k);
    } else if x in roots {
      NothingNew(t, roots, c, rows, k);
    } else {
      if x in c { assert Added(roots, c, rows, k, x); }
      hide Midway;
      if Removes(rows[k]) || !InScope(c, roots, rows[k].parentId, SCOPE_LIMIT) {
        if x in c { StrangerGoes(t, roots, c, rows, k, x); } else { NothingNew(t, roots, c, rows, k); }
      } else {
        StrangerComes(t, roots, c, rows, k);
      }
    }
  }

  lemma {:induction false} AllRowsMidway(t: Items, roots: set<Id>, c: Items, rows: seq<Change>, k: nat)
    requires Rooted(t, roots) && k <= |rows| && Midway(t, roots, c, rows, k) && AllSeen(t, rows) && Ascends(rows)
    ensures Midway(t, roots, AppliedAll(c, roots, rows[k..]).0, rows, |rows|)
    decreases |rows| - k
  {
    if k < |rows| {
      OneRowMidway(t, roots, c, rows, k);
      assert rows[k..][1..] == rows[k + 1..];
      AllRowsMidway(t, roots, Applied(c, roots, rows[k]).0, rows, k + 1);
    }
  }

  // ----------------------------------------------------------------------- both directions

  lemma LastRowOf(roots: set<Id>, c: Items, rows: seq<Change>, x: Id) returns (i: nat)
    requires x in c && Added(roots, c, rows, |rows|, x)
    ensures i < |rows| && rows[i].itemId == x && FromChange(rows[i]) == c[x] && !Removes(rows[i]) && IsLast(rows, i)
  {
    i :| 0 <= i < |rows| && rows[i].itemId == x && FromChange(rows[i]) == c[x] && !Removes(rows[i])
         && forall j :: i < j < |rows| ==> rows[j].itemId != x;
  }

  /** When nothing re-enters, the folder an added item is in was itself added: there is no first one. */
  lemma {:induction false} NothingAdded(t: Items, roots: set<Id>, c: Items, rows: seq<Change>, rank: map<Id, nat>,
    x: Id)
    requires Midway(t, roots, c, rows, |rows|) && NothingReenters(t, roots, rows) && PlacesRankedBy(rows, rank)
    requires x in rank
    ensures x in c ==> x in t
    decreases rank[x]
  {
    if x in c && x !in t {
      var i := LastRowOf(roots, c, rows, x);
      assert !Reenters(t, roots, rows[i]) && RowRanked(rows[i], rank);
      NothingAdded(t, roots, c, rows, rank, rows[i].parentId.value);
    }
  }

  ghost predicate Put(t: Items, roots: set<Id>, c: Items, x: Id) {
    && x in c && x !in t && x !in roots && c[x].parentId.Some? &&
      (c[x].parentId.value in t || c[x].parentId.value in roots)
  }

  /** One row about something else leaves an item that was put into a folder of the tree. */
  lemma PutKeeps(t: Items, roots: set<Id>, c: Items, row: Change, x: Id)
    requires Rooted(t, roots) && Holds(t, c) && NotNewer(t, row) && (forall r <- roots :: r !in c)
    requires Put(t, roots, c, x) && row.itemId != x
    ensures Put(t, roots, Applied(c, roots, row).0, x)
  {
    if row.itemId in t {
      SeenRow(t, roots, c, row);
    } else if row.itemId !in roots {
      NotBelow(t, roots, c, row.itemId, x);
    }
  }

  lemma NotBelow(t: Items, roots: set<Id>, c: Items, stranger: Id, x: Id)
    requires Rooted(t, roots) && Holds(t, c) && (forall r <- roots :: r !in c)
    requires Put(t, roots, c, x) && stranger != x && stranger !in t && stranger !in roots
    ensures !Under(c, x, stranger)
  {
    if Under(c, x, stranger) {
      UnderUp(c, x, stranger);
      var up := c[x].parentId.value;
      var n: nat :| Reaches(c, up, stranger, n);
      if up in t { NotUnderStranger(t, roots, c, up, stranger, n); }
    }
  }

  /** An item put into a folder of the tree stays there while no row is about it. */
  lemma {:induction false} PutStays(t: Items, roots: set<Id>, c: Items, rows: seq<Change>, k: nat, x: Id)
    requires Rooted(t, roots) && k <= |rows| && Midway(t, roots, c, rows, k) && AllSeen(t, rows) && Ascends(rows)
    requires Put(t, roots, c, x) && forall j :: k <= j < |rows| ==> rows[j].itemId != x
    ensures x in AppliedAll(c, roots, rows[k..]).0
    decreases |rows| - k
  {
    if k < |rows| {
      OneRowMidway(t, roots, c, rows, k);
      assert rows[k..][1..] == rows[k + 1..];
      PutKeeps(t, roots, c, rows[k], x);
      hide Midway, Rooted, Put, Applied, Ascends;
      PutStays(t, roots, Applied(c, roots, rows[k]).0, rows, k + 1, x);
    }
  }

  lemma {:induction false} ReentryStays(t: Items, roots: set<Id>, c: Items, rows: seq<Change>, k: nat, i: nat)
    requires Rooted(t, roots) && k <= i < |rows| && Midway(t, roots, c, rows, k) && AllSeen(t, rows) && Ascends(rows)
    requires IsLast(rows, i) && Reenters(t, roots, rows[i])
    ensures rows[i].itemId in AppliedAll(c, roots, rows[k..]).0
    decreases i - k
  {
    OneRowMidway(t, roots, c, rows, k);
    assert rows[k..][1..] == rows[k + 1..];
    var next := Applied(c, roots, rows[k]).0;
    if k < i {
      ReentryStays(t, roots, next, rows, k + 1, i);
    } else {
      PlaceInScope(t, roots, c, rows[i].parentId.value);
      if rows[i].itemId in c { assert Added(roots, c, rows, k, rows[i].itemId); }
      PutStays(t, roots, next, rows, k + 1, rows[i].itemId);
    }
  }

  /**
   * Replaying rows over a tree that has seen them changes nothing, exactly if
   * none of them last put an item that the tree does not have into a folder that it has.
   */
  lemma ReplayChangesNothingExactly(t: Items, roots: set<Id>, rows: seq<Change>)
    requires Rooted(t, roots) && AllSeen(t, rows) && Ascends(rows) && PlacesAcyclic(rows)
    ensures AppliedAll(t, roots, rows).0 == t <==> NothingReenters(t, roots, rows)
  {
    var depth: map<Id, nat> :| RootedBy(t, roots, depth);
    forall x | x in t ensures x !in roots { assert HangsOff(t, roots, depth, x); }
    assert Midway(t, roots, t, rows, 0);
    var last := AppliedAll(t, roots, rows).0;
    assert rows[0..] == rows;
    AllRowsMidway(t, roots, t, rows, 0);
    var rank: map<Id, nat> :| PlacesRankedBy(rows, rank);
    if NothingReenters(t, roots, rows) {
      forall x | x in last
        ensures x in t
      {
        if x !in t {
          var i := LastRowOf(roots, last, rows, x);
          assert RowRanked(rows[i], rank);
          NothingAdded(t, roots, last, rows, rank, x);
        }
      }
      assert last == t;
    } else {
      var i :| 0 <= i < |rows| && IsLast(rows, i) && Reenters(t, roots, rows[i]);
      ReentryStays(t, roots, t, rows, 0, i);
    }
  }

  // ------------------------------------------------------------- over the tree it produced

  /** Rows of one item with the same revision describe the same state. */
  predicate SameRevSameState(rows: seq<Change>) {
    forall i, j :: 0 <= i < j < |rows| && SameRev(rows[i], rows[j]) ==> SameState(rows[i], rows[j])
  }

  predicate SameRev(a: Change, b: Change) {
    a.itemId == b.itemId && a.storageRevision == b.storageRevision
  }

  predicate SameState(a: Change, b: Change) {
    FromChange(a) == FromChange(b) && (Removes(a) <==> Removes(b))
  }

  /** Of the rows to come, each is newer than what is stored, or seen already. */
  predicate SeenUpTo(c: Items, feed: seq<Change>, k: nat) {
    forall i :: 0 <= i < |feed| ==>
      NotNewer(c, feed[i]) || (k <= i && feed[i].storageRevision > c[feed[i].itemId].rev)
  }

  lemma SeenAfterRow(c: Items, roots: set<Id>, feed: seq<Change>, k: nat, i: nat)
    requires k < |feed| && i < |feed| && Ascends(feed) && SameRevSameState(feed) && SeenUpTo(c, feed, k)
    requires forall r <- roots :: r !in c
    ensures var next := Applied(c, roots, feed[k]).0;
            NotNewer(next, feed[i]) || (k + 1 <= i && feed[i].storageRevision > next[feed[i].itemId].rev)
  {
    assert NotNewer(c, feed[i]) || (k <= i && feed[i].storageRevision > c[feed[i].itemId].rev);
    UnderSelf(c, feed[k].itemId);
    if feed[i].itemId == feed[k].itemId {
      assert i < k && SameRev(feed[i], feed[k]) ==> SameState(feed[i], feed[k]);
      assert k < i && SameRev(feed[k], feed[i]) ==> SameState(feed[k], feed[i]);
    }
  }

  lemma {:induction false} FeedIsSeen(c: Items, roots: set<Id>, feed: seq<Change>, k: nat)
    requires k <= |feed| && Ascends(feed) && SameRevSameState(feed) && SeenUpTo(c, feed, k)
    requires forall r <- roots :: r !in c
    ensures AllSeen(AppliedAll(c, roots, feed[k..]).0, feed)
    decreases |feed| - k
  {
    if k < |feed| {
      assert feed[k..][1..] == feed[k + 1..];
      var next := Applied(c, roots, feed[k]).0;
      forall i | 0 <= i < |feed|
        ensures NotNewer(next, feed[i]) || (k + 1 <= i && feed[i].storageRevision > next[feed[i].itemId].rev)
      {
        SeenAfterRow(c, roots, feed, k, i);
      }
      FeedIsSeen(next, roots, feed, k + 1);
    }
  }

  /** Any tail of a feed, replayed over the tree the feed led to. */
  lemma ReplayedTailChangesNothingExactly(c: Items, roots: set<Id>, feed: seq<Change>, k: nat)
    requires k <= |feed| && Ascends(feed) && SameRevSameState(feed) && SeenUpTo(c, feed, 0)
    requires forall r <- roots :: r !in c
    requires Rooted(AppliedAll(c, roots, feed).0, roots) && PlacesAcyclic(feed[k..])
    ensures var t := AppliedAll(c, roots, feed).0;
            AppliedAll(t, roots, feed[k..]).0 == t <==> NothingReenters(t, roots, feed[k..])
  {
    assert feed[0..] == feed;
    FeedIsSeen(c, roots, feed, 0);
    ReplayChangesNothingExactly(AppliedAll(c, roots, feed).0, roots, feed[k..]);
  }

  // --------------------------------------------------------------- trees a feed leads to

  /** Every row that puts an item somewhere puts it below a pair folder, or below something nearer the top. */
  predicate RankedRows(feed: seq<Change>, roots: set<Id>, depth: map<Id, nat>) {
    forall i :: 0 <= i < |feed| && !Removes(feed[i]) && feed[i].parentId.Some? ==> RankedRow(feed[i], roots, depth)
  }

  predicate RankedRow(c: Change, roots: set<Id>, depth: map<Id, nat>) {
    && c.itemId in depth && depth[c.itemId] < SCOPE_LIMIT - 1
    && (c.parentId.Some? && c.parentId.value !in roots ==>
          c.parentId.value in depth && depth[c.parentId.value] < depth[c.itemId])
  }

  lemma RowKeepsRooted(c: Items, roots: set<Id>, depth: map<Id, nat>, row: Change)
    requires RootedBy(c, roots, depth) && (!Removes(row) && row.parentId.Some? ==> RankedRow(row, roots, depth))
    ensures RootedBy(Applied(c, roots, row).0, roots, depth)
  {
    var next, q := Applied(c, roots, row).0, row.itemId;
    forall x | x in next
      ensures HangsOff(next, roots, depth, x)
    {
      if x in c && next[x] == c[x] {
        assert HangsOff(c, roots, depth, x);
        if c[x].parentId.value in c && c[x].parentId.value !in next { UnderParent(c, x, q); }
      } else {
        assert x == q && next[x] == FromChange(row) && InScope(c, roots, row.parentId, SCOPE_LIMIT);
        assert row.parentId.value in roots || row.parentId.value in c;
      }
    }
  }

  lemma {:induction false} FeedKeepsRooted(c: Items, roots: set<Id>, depth: map<Id, nat>, feed: seq<Change>)
    requires RootedBy(c, roots, depth) && RankedRows(feed, roots, depth)
    ensures RootedBy(AppliedAll(c, roots, feed).0, roots, depth)
    decreases feed
  {
    if feed != [] {
      RowKeepsRooted(c, roots, depth, feed[0]);
      FeedKeepsRooted(Applied(c, roots, feed[0]).0, roots, depth, feed[1..]);
    }
  }

  /** A rooted tree and a feed whose rows agree with it on what is nearer the top: the tree it leads to is rooted. */
  lemma RankedFeedReplays(c: Items, roots: set<Id>, depth: map<Id, nat>, feed: seq<Change>, k: nat)
    requires k <= |feed| && Ascends(feed) && SameRevSameState(feed) && SeenUpTo(c, feed, 0)
    requires RootedBy(c, roots, depth) && RankedRows(feed, roots, depth) && forall q <- depth :: q !in roots
    ensures var t := AppliedAll(c, roots, feed).0;
            AppliedAll(t, roots, feed[k..]).0 == t <==> NothingReenters(t, roots, feed[k..])
  {
    FeedKeepsRooted(c, roots, depth, feed);
    assert forall r <- roots :: r !in c;
    var rank: map<Id, nat> := map x | x in depth.Keys + roots :: if x in roots then 0 else depth[x] + 1;
    assert PlacesRankedBy(feed[k..], rank) by {
      forall i | 0 <= i < |feed[k..]| && !Removes(feed[k..][i]) && feed[k..][i].parentId.Some?
        ensures RowRanked(feed[k..][i], rank)
      {
        assert RankedRow(feed[k + i], roots, depth);
      }
    }
    assert Rooted(AppliedAll(c, roots, feed).0, roots) && PlacesAcyclic(feed[k..]);
    hide AppliedAll, RootedBy, RankedRows, PlacesRankedBy, Ascends;
    ReplayedTailChangesNothingExactly(c, roots, feed, k);
  }

  // ----------------------------------------------------------------------- where it happens

  function Row(kind: ChangeKind, itemType: NodeType, id: Id, parent: Id, rev: int): Change {
    Change(kind, itemType, id, Some(parent), [], id, None, None, rev, None)
  }

  const PAIR: Id := "pair"
  const SHOWN := [Row(Created, File, "file", "folder", 1), Row(Trashed, Folder, "folder", PAIR, 2),
                  Row(Restored, Folder, "folder", PAIR, 3)]

  lemma ShownTree(start: Items)
    requires start == map["folder" := FromChange(Row(Created, Folder, "folder", PAIR, 1))]
    ensures AppliedAll(start, {PAIR}, SHOWN).0 == map["folder" := FromChange(SHOWN[2])]
  {
    assert PAIR != "folder" && PAIR != "file" && "folder" != "file";
    assert |PAIR| == 4 && |"folder"| == 6;
    assert InScope(start, {PAIR}, Some(PAIR), SCOPE_LIMIT - 1);
    var c1 := Applied(start, {PAIR}, SHOWN[0]).0;
    assert c1 == start["file" := FromChange(SHOWN[0])];
    UnderSelf(c1, "folder");
    UnderParent(c1, "file", "folder");
    var c2 := Applied(c1, {PAIR}, SHOWN[1]).0;
    assert c2 == map[];
    var c3 := Applied(c2, {PAIR}, SHOWN[2]).0;
    assert InScope(c2, {PAIR}, Some(PAIR), SCOPE_LIMIT);
    assert SHOWN[1..] == [SHOWN[1], SHOWN[2]] && SHOWN[1..][1..] == [SHOWN[2]] && [SHOWN[2]][1..] == [];
    assert AppliedAll(c2, {PAIR}, [SHOWN[2]]).0 == AppliedAll(c3, {PAIR}, []).0 == c3;
    assert AppliedAll(c1, {PAIR}, SHOWN[1..]).0 == AppliedAll(c2, {PAIR}, SHOWN[1..][1..]).0;
  }

  /**
   * A file is created in a folder, the folder is trashed and then restored.
   * Before the restored folder's contents are fetched the file is not in the
   * tree; replaying the three rows puts it back.
   */
  lemma ShownFolderNotYetFetched(start: Items)
    requires start == map["folder" := FromChange(Row(Created, Folder, "folder", PAIR, 1))]
    ensures var t := AppliedAll(start, {PAIR}, SHOWN).0;
            Ascends(SHOWN) && SameRevSameState(SHOWN) && AppliedAll(t, {PAIR}, SHOWN).0 != t
  {
    ShownTree(start);
    ShownSees(map["folder" := FromChange(SHOWN[2])]);
    hide *;
    ReplayChangesNothingExactly(map["folder" := FromChange(SHOWN[2])], {PAIR}, SHOWN);
  }

  lemma ShownSees(t: Items)
    requires t == map["folder" := FromChange(SHOWN[2])]
    ensures Rooted(t, {PAIR}) && AllSeen(t, SHOWN) && Ascends(SHOWN) && SameRevSameState(SHOWN)
    ensures PlacesAcyclic(SHOWN) && !NothingReenters(t, {PAIR}, SHOWN)
  {
    assert |PAIR| == 4 && |"folder"| == 6 && "folder"[1] != "file"[1];
    assert HangsOff(t, {PAIR}, map["folder" := 0], "folder");
    assert RootedBy(t, {PAIR}, map["folder" := 0]);
    assert PlacesRankedBy(SHOWN, map[PAIR := 0, "folder" := 1, "file" := 2]);
    assert IsLast(SHOWN, 0) && Reenters(t, {PAIR}, SHOWN[0]);
  }
}
