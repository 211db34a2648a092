/** The client's loop over one page of the feed, on its tree in place. */
module ClientFeed {
  import opened Common
  import opened RemoteItems
  import opened RemoteTree
  import opened ChangeFeed
  import opened MirrorRows
  import opened Mirror

  /** Applies every row in order and collects the folders to fetch. */
  method ApplyPage(tree: RemoteTree, ghost w: World, changes: seq<Change>) returns (fetches: seq<Id>)
    requires tree.Valid() && tree.roots == w.roots
    requires Transition(w) && Mirrors(tree.items, w.before, w.roots) && Lists(RowsOf(w), changes)
    modifies tree
    ensures tree.Valid() && tree.roots == old(tree.roots)
    ensures (tree.items, fetches) == AppliedAll(old(tree.items), w.roots, changes)
  {
    hide RowsOf;
    ghost var start := tree.items;
    fetches := [];
    var i := 0;
    assert changes[..0] == [];
    while i < |changes|
      invariant 0 <= i <= |changes| && tree.Valid() && tree.roots == w.roots
      invariant (tree.items, fetches) == AppliedAll(start, w.roots, changes[..i])
    {
      EveryTreeAcyclic(w, start, changes, i);
      OneMore(start, w.roots, changes[..i], changes[i]);
      assert changes[..i + 1] == changes[..i] + [changes[i]];
      var fetch := tree.Apply(changes[i]);
      assert fetches + [] == fetches;
      if fetch.Some? { fetches := fetches + [fetch.value]; }
      i := i + 1;
    }
    assert changes[..i] == changes;
  }

  lemma {:induction false} OneMore(c: Items, roots: set<Id>, changes: seq<Change>, last: Change)
    ensures var (was, fetches) := AppliedAll(c, roots, changes);
            var (next, shown) := Applied(was, roots, last);
            AppliedAll(c, roots, changes + [last])
              == (next, fetches + (if shown.Some? then [shown.value] else []))
    decreases changes
  {
    var all := changes + [last];
    if changes == [] {
      assert all[1..] == [];
      var (next, shown) := Applied(c, roots, last);
      var head := if shown.Some? then [shown.value] else [];
      assert head + [] == [] + head;
    } else {
      var (first, shown) := Applied(c, roots, changes[0]);
      OneMore(first, roots, changes[1..], last);
      assert all[1..] == changes[1..] + [last];
      var (was, fetches) := AppliedAll(first, roots, changes[1..]);
      var (next, more) := Applied(was, roots, last);
      var head := if shown.Some? then [shown.value] else [];
      var tail := if more.Some? then [more.value] else [];
      assert (head + fetches) + tail == head + (fetches + tail);
    }
  }

  /** Adds the answers for the fetched folders. */
  method AddAnswers(tree: RemoteTree, answers: seq<seq<RemoteItem>>)
    requires tree.Valid()
    modifies tree
    ensures tree.Valid() && tree.roots == old(tree.roots)
    ensures tree.items == Answered(old(tree.items), answers)
  {
    var i := 0;
    while i < |answers|
      invariant 0 <= i <= |answers| && tree.Valid() && tree.roots == old(tree.roots)
      invariant Answered(tree.items, answers[i..]) == Answered(old(tree.items), answers)
    {
      assert answers[i..][1..] == answers[i + 1..];
      tree.AddUnder(answers[i]);
      i := i + 1;
    }
  }
}
