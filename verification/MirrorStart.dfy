/** How a client comes to mirror the server: from a snapshot of each pair folder. */
module MirrorStart {
  import opened Common
  import opened RemoteItems
  import opened ChangeFeed
  import opened MirrorRows
  import opened Mirror

  /** What the client keeps of `x` is what the server has. */
  predicate Holds(c: Items, t: Snapshot, x: Id)
    requires x in t
  {
    x in c && Same(c[x], t[x]) && c[x].rev <= t[x].storageRevision
  }

  /** The client holds all that is live below these folders; anything else it holds is below `stale`. */
  ghost predicate Begun(c: Items, t: Snapshot, folders: set<Id>, stale: Option<Id>) {
    && (forall q <- folders, x | LiveUnder(t, q, x) :: Holds(c, t, x))
    && (forall x <- c ::
          || (exists q <- folders :: LiveUnder(t, q, x))
          || (stale.Some? && x != stale.value && Under(c, x, stale.value)))
  }

  /** Nothing live below a pair folder is a pair folder, or below another one of them. */
  lemma {:induction false} BelowIsSeen(t: Snapshot, roots: set<Id>, q: Id, x: Id)
    requires RootsApart(t, roots) && q in roots && LiveUnder(t, q, x)
    ensures Seen(t, roots, x)
    decreases |t[x].path|
  {
    if t[x].parentId.value != q { BelowIsSeen(t, roots, q, t[x].parentId.value); }
  }

  lemma {:induction false} SeenIsBelow(t: Snapshot, roots: set<Id>, x: Id) returns (q: Id)
    requires Seen(t, roots, x)
    ensures q in roots && LiveUnder(t, q, x)
    decreases |t[x].path|
  {
    if t[x].parentId.value in roots { q := t[x].parentId.value; } else {
      q := SeenIsBelow(t, roots, t[x].parentId.value);
    }
  }

  /** What lies below one pair folder is not met on the way up from below another. */
  lemma {:induction false} NotBelowOther(c: Items, t: Snapshot, roots: set<Id>, folders: set<Id>, q: Id, x: Id, r: Id,
    n: nat)
    requires RootsApart(t, roots) && folders <= roots && q in folders && r in roots && r !in folders
    requires c.Keys !! roots && (forall p <- folders, y | LiveUnder(t, p, y) :: Holds(c, t, y))
    requires LiveUnder(t, q, x)
    ensures !Reaches(c, x, r, n)
    decreases |t[x].path|
  {
    BelowIsSeen(t, roots, q, x);
    var p := t[x].parentId.value;
    assert Holds(c, t, x);
    if n > 0 {
      if p != q { NotBelowOther(c, t, roots, folders, q, p, r, n - 1); }
    }
  }

  /** One pair folder's snapshot, taken into a client that is right about the others. */
  lemma OneSnapshot(c: Items, t: Snapshot, filesRoot: Id, roots: set<Id>, folders: set<Id>, r: Id,
    answer: seq<RemoteItem>)
    requires WellFormed(t, filesRoot) && RootsApart(t, roots) && folders <= roots && r in roots && r !in folders
    requires c.Keys !! roots && Begun(c, t, folders, Some(r)) && IsSnapshot(t, r, answer)
    ensures var c' := PutAll(Emptied(c, r), answer);
            c'.Keys !! roots && Begun(c', t, folders + {r}, None)
  {
    var c' := PutAll(Emptied(c, r), answer);
    ReplacedMeans(c, r, answer);
    forall x | LiveUnder(t, r, x)
      ensures Holds(c', t, x) && x !in roots && Named(answer, x)
    {
      BelowIsSeen(t, roots, r, x);
      var i := LastNamed(answer, x);
      assert Fits(t, filesRoot, x);
    }
    forall x | !LiveUnder(t, r, x)
      ensures !Named(answer, x)
    {
    }
    forall q, x | q in folders && LiveUnder(t, q, x)
      ensures Holds(c', t, x)
    {
      if !LiveUnder(t, r, x) {
        forall n: nat { NotBelowOther(c, t, roots, folders, q, x, r, n); }
      }
    }
    forall x | x in c'
      ensures exists q <- folders + {r} :: LiveUnder(t, q, x)
    {
      if LiveUnder(t, r, x) { assert r in folders + {r}; } else {
        var q :| q in folders && LiveUnder(t, q, x);
        assert q in folders + {r};
      }
    }
  }

  lemma {:induction false} LastNamed(news: seq<RemoteItem>, x: Id) returns (i: nat)
    requires exists i :: 0 <= i < |news| && news[i].id == x
    ensures IsLast(news, i) && news[i].id == x
    decreases |news|
  {
    var n := |news| - 1;
    if news[n].id == x { i := n; } else {
      i := LastNamed(news[..n], x);
    }
  }

  /** The client after one snapshot for each of the folders, in this order. */
  ghost function Snapshotted(c: Items, order: seq<Id>, answers: seq<seq<RemoteItem>>): Items
    requires |answers| == |order|
    decreases order
  {
    if order == [] then c else Snapshotted(PutAll(Emptied(c, order[0]), answers[0]), order[1..], answers[1..])
  }

  lemma {:induction false} AllSnapshots(c: Items, t: Snapshot, filesRoot: Id, roots: set<Id>, folders: set<Id>,
    order: seq<Id>, answers: seq<seq<RemoteItem>>)
    requires WellFormed(t, filesRoot) && RootsApart(t, roots) && folders + Elements(order) <= roots
    requires forall i | 0 <= i < |order| :: order[i] !in folders && order[i] !in order[..i]
    requires |answers| == |order| && forall i | 0 <= i < |order| :: IsSnapshot(t, order[i], answers[i])
    requires c.Keys !! roots && Begun(c, t, folders, None)
    ensures Begun(Snapshotted(c, order, answers), t, folders + Elements(order), None)
    decreases order
  {
    if order == [] {
      assert folders + Elements(order) == folders;
    } else {
      var r, rest := order[0], order[1..];
      assert r in Elements(order) && IsSnapshot(t, order[0], answers[0]);
      StaleToCome(c, t, folders, r);
      OneSnapshot(c, t, filesRoot, roots, folders, r, answers[0]);
      assert (folders + {r}) + Elements(rest) == folders + Elements(order);
      forall i | 0 <= i < |rest|
        ensures rest[i] !in folders + {r} && rest[i] !in rest[..i]
      {
        assert rest[i] == order[i + 1] && order[..i + 1] == [r] + rest[..i];
      }
      hide Begun, IsSnapshot, WellFormed, RootsApart;
      AllSnapshots(PutAll(Emptied(c, r), answers[0]), t, filesRoot, roots, folders + {r}, rest, answers[1..]);
    }
  }

  lemma StaleToCome(c: Items, t: Snapshot, folders: set<Id>, r: Id)
    requires Begun(c, t, folders, None)
    ensures Begun(c, t, folders, Some(r))
  {
  }

  lemma BegunMirrors(c: Items, t: Snapshot, roots: set<Id>)
    requires RootsApart(t, roots) && Begun(c, t, roots, None)
    ensures Mirrors(c, t, roots)
  {
    forall x | x in c
      ensures Seen(t, roots, x) && Holds(c, t, x)
    {
      var q :| q in roots && LiveUnder(t, q, x);
      BelowIsSeen(t, roots, q, x);
    }
    forall x | Seen(t, roots, x)
      ensures x in c
    {
      var q := SeenIsBelow(t, roots, x);
      assert Holds(c, t, x);
    }
  }

  /** Each pair folder once, with what the server answered for it. */
  ghost predicate OneEach(t: Snapshot, roots: set<Id>, order: seq<Id>, answers: seq<seq<RemoteItem>>) {
    && Elements(order) == roots && (forall i | 0 <= i < |order| :: order[i] !in order[..i])
    && |answers| == |order| && forall i | 0 <= i < |order| :: IsSnapshot(t, order[i], answers[i])
  }

  /**
   * A client that starts empty, takes a snapshot of every pair folder and then
   * gets every mutation's rows in full mirrors the live tree, from the start on.
   */
  lemma MirrorsFromTheStart(t: Snapshot, filesRoot: Id, roots: set<Id>, order: seq<Id>,
    answers: seq<seq<RemoteItem>>, ds: seq<Sending>)
    requires WellFormed(t, filesRoot) && RootsApart(t, roots) && OneEach(t, roots, order, answers)
    requires Run(t, roots, Snapshotted(map[], order, answers), ds)
    ensures Mirrors(Snapshotted(map[], order, answers), t, roots)
    ensures Mirrors(PatchedAll(Snapshotted(map[], order, answers), ds), LastTree(t, ds), roots)
  {
    AllSnapshots(map[], t, filesRoot, roots, {}, order, answers);
    assert {} + Elements(order) == roots;
    BegunMirrors(Snapshotted(map[], order, answers), t, roots);
    hide *;
    MirrorsOverRuns(t, roots, Snapshotted(map[], order, answers), ds);
  }

  /**
   * A pair folder that was gone and is back, with whatever the client still has
   * below it: its snapshot makes the client right about it, beside the others.
   */
  lemma RestoredPairMirrors(c: Items, t: Snapshot, filesRoot: Id, roots: set<Id>, r: Id, answer: seq<RemoteItem>)
    requires WellFormed(t, filesRoot) && RootsApart(t, roots) && r in roots && c.Keys !! roots
    requires Begun(c, t, roots - {r}, Some(r)) && IsSnapshot(t, r, answer)
    ensures Mirrors(PutAll(Emptied(c, r), answer), t, roots)
  {
    OneSnapshot(c, t, filesRoot, roots, roots - {r}, r, answer);
    assert roots - {r} + {r} == roots;
    BegunMirrors(PutAll(Emptied(c, r), answer), t, roots);
  }
}
