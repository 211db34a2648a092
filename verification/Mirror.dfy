/**
 * Diff then patch: a client that mirrors the live tree before a mutation,
 * applies the mutation's feed rows in order and then adds the folders it was
 * told to fetch, mirrors the live tree after it.
 */
module Mirror {
  import opened Common
  import opened RemoteItems
  import opened ChangeFeed
  import opened MirrorRows
  import opened FetchedFolders

  /** With every row applied, nothing the server dropped is left. */
  lemma {:induction false} NothingStale(w: World, c: Items, done: set<Id>, fetch: set<Id>, x: Id)
    requires Transition(w) && Stage(w, c, done, fetch) && RowsOf(w).Keys <= done && x in c
    ensures Fresh(w, c, x)
    decreases if x in w.before then |w.before[x].path| else 0
  {
    hide RowsOf;
    assert Holds(w, c, done, fetch, x);
    if x in w.after && w.after[x].Live() {
      Settled(w, c, done, fetch, x);
    } else if !Fresh(w, c, x) {
      GoneWithoutRow(w, x);
      assert Fits(w.before, w.filesRoot, x);
      var p := w.before[x].parentId.value;
      NothingStale(w, c, done, fetch, p);
      assert false;
    }
  }

  lemma {:induction false} FreshIsSeen(w: World, c: Items, x: Id)
    requires Fresh(w, c, x)
    ensures Seen(w.after, w.roots, x)
    decreases |w.after[x].path|
  {
    if w.after[x].parentId.value !in w.roots { FreshIsSeen(w, c, w.after[x].parentId.value); }
  }

  // --------------------------------------------------------- no tree has a cycle

  /** Every tree on the way is acyclic, so the client's walks over it end. */
  lemma StageAcyclic(w: World, c: Items, done: set<Id>, fetch: set<Id>)
    requires Transition(w) && Stage(w, c, done, fetch)
    ensures Acyclic(c)
  {
    hide RowsOf;
    forall x | x in c
      ensures (x in w.before || x in w.after) && (!Fresh(w, c, x) ==> x in w.before)
      ensures Fresh(w, c, x) ==> |w.after[x].path| <= 1000
    {
      assert Holds(w, c, done, fetch, x);
      if x in w.after { assert Fits(w.after, w.filesRoot, x); }
    }
    var rank: map<Id, nat> :=
      map x | x in c :: if Fresh(w, c, x) then |w.after[x].path| else 1001 + |w.before[x].path|;
    forall x | x in c && c[x].parentId.Some? && c[x].parentId.value in c
      ensures rank[c[x].parentId.value] < rank[x]
    {
      var p := c[x].parentId.value;
      assert Holds(w, c, done, fetch, x) && Holds(w, c, done, fetch, p);
    }
    assert RankedBy(c, rank);
  }

  lemma {:induction false} PrefixPending(w: World, done: set<Id>, c: Items, fetch: set<Id>, changes: seq<Change>,
    k: nat)
    requires Transition(w) && Stage(w, c, done, fetch) && Pending(w, done, changes) && k <= |changes|
    ensures Acyclic(AppliedAll(c, w.roots, changes[..k]).0)
    decreases k
  {
    hide RowsOf;
    if k == 0 {
      StageAcyclic(w, c, done, fetch);
    } else {
      var q := changes[0].itemId;
      HeadDue(w, done, changes);
      OneRow(w, c, done, fetch, q);
      var (next, shown) := Applied(c, w.roots, changes[0]);
      PrefixPending(w, done + {q}, next, fetch + (if shown.Some? then {shown.value} else {}), changes[1..], k - 1);
      assert changes[..k][1..] == changes[1..][..k - 1];
    }
  }

  /** Parent-first order keeps the client's tree acyclic after every single row. */
  lemma EveryTreeAcyclic(w: World, c: Items, changes: seq<Change>, k: nat)
    requires Transition(w) && Mirrors(c, w.before, w.roots) && Lists(RowsOf(w), changes) && k <= |changes|
    ensures Acyclic(AppliedAll(c, w.roots, changes[..k]).0)
  {
    Start(w, c);
    PrefixPending(w, {}, c, {}, changes, k);
  }

  // --------------------------------------------------------- the fetched folders

  ghost predicate LiveUnder(t: Snapshot, q: Id, x: Id)
    decreases if x in t then |t[x].path| else 0
  {
    && x in t && t[x].Live() && t[x].parentId.Some?
    && var p := t[x].parentId.value;
       p == q || (p in t && |t[p].path| < |t[x].path| && LiveUnder(t, q, p))
  }

  /** The server's answer for a folder: its live contents, in any order. */
  ghost predicate IsSnapshot(t: Snapshot, q: Id, answer: seq<RemoteItem>) {
    && (forall i :: 0 <= i < |answer| ==>
          answer[i].id in t && LiveUnder(t, q, answer[i].id) && answer[i] == FromState(t[answer[i].id]))
    && (forall x :: LiveUnder(t, q, x) ==> exists i :: 0 <= i < |answer| && answer[i].id == x)
  }

  function Answered(c: Items, answers: seq<seq<RemoteItem>>): Items
    decreases answers
  {
    if answers == [] then c else Answered(AddedUnder(c, answers[0]), answers[1..])
  }

  ghost predicate AllAnswered(w: World, fetches: seq<Id>, answers: seq<seq<RemoteItem>>) {
    |answers| == |fetches| && forall i :: 0 <= i < |fetches| ==> IsSnapshot(w.after, fetches[i], answers[i])
  }

  /** Everything held is to be shown, at most behind on revisions and on names the feed cannot tell. */
  ghost predicate UpToDate(w: World, c: Items) {
    forall x <- c :: Seen(w.after, w.roots, x) && AsServer(w, c[x], x) && c[x].rev <= w.after[x].storageRevision
  }

  lemma {:induction false} LiveUnderSeen(w: World, q: Id, x: Id)
    requires Transition(w) && RootsApart(w.after, w.roots) && Seen(w.after, w.roots, q) && LiveUnder(w.after, q, x)
    ensures Seen(w.after, w.roots, x)
    decreases |w.after[x].path|
  {
    assert Fits(w.after, w.filesRoot, x) && Fits(w.after, w.filesRoot, q);
    if w.after[x].parentId.value != q { LiveUnderSeen(w, q, w.after[x].parentId.value); }
  }

  /** Adding a folder's contents: nothing leaves, and what the answer names is as the server has it. */
  lemma {:induction false} AddOne(w: World, c: Items, answer: seq<RemoteItem>)
    requires UpToDate(w, c)
    requires forall i :: 0 <= i < |answer| ==>
               Seen(w.after, w.roots, answer[i].id) && answer[i] == FromState(w.after[answer[i].id])
               && w.after[answer[i].id].id == answer[i].id
    ensures UpToDate(w, AddedUnder(c, answer))
    ensures c.Keys <= AddedUnder(c, answer).Keys
    ensures forall x <- c :: AddedUnder(c, answer)[x] == c[x] || Same(AddedUnder(c, answer)[x], w.after[x])
    ensures forall i :: 0 <= i < |answer| ==>
              answer[i].id in AddedUnder(c, answer)
              && Same(AddedUnder(c, answer)[answer[i].id], w.after[answer[i].id])
    decreases answer
  {
    if answer != [] {
      var next := c[answer[0].id := answer[0]];
      assert Same(answer[0], w.after[answer[0].id]);
      AddOne(w, next, answer[1..]);
      assert AddedUnder(c, answer) == AddedUnder(next, answer[1..]);
      forall i | 0 <= i < |answer|
        ensures answer[i].id in AddedUnder(c, answer)
                && Same(AddedUnder(c, answer)[answer[i].id], w.after[answer[i].id])
      {
        if i > 0 { assert answer[i] == answer[1..][i - 1]; }
      }
    }
  }

  lemma {:induction false} AddAll(w: World, c: Items, fetches: seq<Id>, answers: seq<seq<RemoteItem>>)
    requires Transition(w) && RootsApart(w.after, w.roots) && UpToDate(w, c) && AllAnswered(w, fetches, answers)
    requires forall q <- fetches :: Seen(w.after, w.roots, q)
    ensures UpToDate(w, Answered(c, answers)) && c.Keys <= Answered(c, answers).Keys
    ensures forall x <- c :: Answered(c, answers)[x] == c[x] || Same(Answered(c, answers)[x], w.after[x])
    ensures forall q <- fetches, x | LiveUnder(w.after, q, x) ::
              x in Answered(c, answers) && Same(Answered(c, answers)[x], w.after[x])
    decreases answers
  {
    if answers != [] {
      var answer := answers[0];
      forall i | 0 <= i < |answer|
        ensures Seen(w.after, w.roots, answer[i].id) && w.after[answer[i].id].id == answer[i].id
      {
        LiveUnderSeen(w, fetches[0], answer[i].id);
        assert Fits(w.after, w.filesRoot, answer[i].id);
      }
      AddOne(w, c, answer);
      AddAll(w, AddedUnder(c, answer), fetches[1..], answers[1..]);
    }
  }

  lemma {:induction false} ShadowedIsUnder(w: World, fetch: set<Id>, x: Id)
    requires Transition(w) && Shadowed(w, fetch, x) && Seen(w.after, w.roots, x)
    ensures exists q <- fetch :: LiveUnder(w.after, q, x)
    decreases |w.after[x].path|
  {
    var p := w.after[x].parentId.value;
    if p in fetch {
      assert LiveUnder(w.after, p, x);
    } else {
      ShadowedIsUnder(w, fetch, p);
      var q :| q in fetch && LiveUnder(w.after, q, p);
      assert LiveUnder(w.after, q, x);
    }
  }

  // ------------------------------------------------------------- the main results

  /** What the client ends with: the feed applied in order, then the fetched folders added. */
  ghost function Patched(c: Items, roots: set<Id>, changes: seq<Change>, answers: seq<seq<RemoteItem>>): Items {
    Answered(AppliedAll(c, roots, changes).0, answers)
  }

  /** Everything one delivery of a mutation's feed needs. */
  ghost predicate Delivery(w: World, c: Items, changes: seq<Change>, answers: seq<seq<RemoteItem>>) {
    Mirrors(c, w.before, w.roots) && Sent(w, c, changes, answers)
  }

  ghost predicate Sent(w: World, c: Items, changes: seq<Change>, answers: seq<seq<RemoteItem>>) {
    && Transition(w) && RootsApart(w.after, w.roots)
    && Lists(RowsOf(w), changes)
    && AllAnswered(w, AppliedAll(c, w.roots, changes).1, answers)
  }

  /** Every shown item whose name the feed cannot tell lies in a folder that comes to be fetched. */
  ghost predicate NamesReach(w: World, changes: seq<Change>) {
    forall x | Seen(w.after, w.roots, x) && RenamedInsideMovedFolder(w, x) ::
      exists q :: Fetched(w, changes, q) && LiveUnder(w.after, q, x)
  }

  ghost predicate NamesIn(w: World, fetches: seq<Id>) {
    forall x | Seen(w.after, w.roots, x) && RenamedInsideMovedFolder(w, x) ::
      exists q <- fetches :: LiveUnder(w.after, q, x)
  }

  lemma NamesAreFetched(w: World, c: Items, changes: seq<Change>)
    requires Transition(w) && Mirrors(c, w.before, w.roots) && Lists(RowsOf(w), changes)
    ensures NamesReach(w, changes) <==> NamesIn(w, AppliedAll(c, w.roots, changes).1)
  {
    FetchesExactly(w, c, changes);
    hide RowsOf, Seen, RenamedInsideMovedFolder, Fetched, LiveUnder, AppliedAll, Transition, Mirrors, Lists;
    var fetches := AppliedAll(c, w.roots, changes).1;
    if NamesReach(w, changes) {
      forall x | Seen(w.after, w.roots, x) && RenamedInsideMovedFolder(w, x)
        ensures exists q <- fetches :: LiveUnder(w.after, q, x)
      {
        var q :| Fetched(w, changes, q) && LiveUnder(w.after, q, x);
        assert q in fetches;
      }
    }
    if NamesIn(w, fetches) {
      forall x | Seen(w.after, w.roots, x) && RenamedInsideMovedFolder(w, x)
        ensures exists q :: Fetched(w, changes, q) && LiveUnder(w.after, q, x)
      {
        var q :| q in fetches && LiveUnder(w.after, q, x);
        assert Fetched(w, changes, q);
      }
    }
  }

  lemma Delivered(w: World, c: Items, changes: seq<Change>, answers: seq<seq<RemoteItem>>)
    requires Delivery(w, c, changes, answers)
    ensures var (next, fetches) := AppliedAll(c, w.roots, changes);
            && UpToDate(w, next)
            && (forall q <- fetches :: Seen(w.after, w.roots, q))
            && (forall x | Seen(w.after, w.roots, x) && x !in next :: exists q <- fetches :: LiveUnder(w.after, q, x))
  {
    hide RowsOf;
    var (next, fetches) := AppliedAll(c, w.roots, changes);
    Start(w, c);
    assert Pending(w, {}, changes);
    AllRows(w, c, {}, {}, changes);
    var done := {} + Ids(changes);
    var fetch := {} + Members(fetches);
    assert Stage(w, next, done, fetch);
    assert RowsOf(w).Keys <= done by {
      forall x | x in RowsOf(w) ensures x in done {
        var i :| 0 <= i < |changes| && changes[i].itemId == x;
        assert changes[i] in changes;
      }
    }
    forall x | x in next
      ensures Seen(w.after, w.roots, x) && AsServer(w, next[x], x) && next[x].rev <= w.after[x].storageRevision
    {
      assert Holds(w, next, done, fetch, x);
      NothingStale(w, next, done, fetch, x);
      FreshIsSeen(w, next, x);
    }
    forall q | q in fetches
      ensures Seen(w.after, w.roots, q)
    {
      assert Holds(w, next, done, fetch, q);
      FreshIsSeen(w, next, q);
    }
    forall x | Seen(w.after, w.roots, x) && x !in next
      ensures exists q <- fetches :: LiveUnder(w.after, q, x)
    {
      RowsBelow(w, done, x);
      Arrived(w, next, done, fetch, x);
      ShadowedIsUnder(w, fetch, x);
    }
  }

  lemma RowsBelow(w: World, done: set<Id>, x: Id)
    requires RowsOf(w).Keys <= done && x in w.after
    ensures forall z | z in RowsOf(w) && z in w.after && w.after[z].Live() && |w.after[z].path| <= |w.after[x].path| ::
              z in done
  {
  }

  /** Items without a row are never rewritten by the feed. */
  lemma {:induction false} NoRowNoChange(c: Items, roots: set<Id>, changes: seq<Change>, x: Id)
    requires x !in Ids(changes) && x in AppliedAll(c, roots, changes).0
    ensures x in c && AppliedAll(c, roots, changes).0[x] == c[x]
    decreases changes
  {
    if changes != [] {
      assert changes[0] in changes && x != changes[0].itemId;
      forall d | d in changes[1..] ensures d in changes {}
      NoRowNoChange(Applied(c, roots, changes[0]).0, roots, changes[1..], x);
    }
  }

  lemma {:induction false} NoAnswerNoChange(c: Items, answers: seq<seq<RemoteItem>>, x: Id)
    requires forall k, i | 0 <= k < |answers| && 0 <= i < |answers[k]| :: answers[k][i].id != x
    requires x in Answered(c, answers)
    ensures x in c && Answered(c, answers)[x] == c[x]
    decreases answers
  {
    if answers != [] {
      NoAnswerNoChange(AddedUnder(c, answers[0]), answers[1..], x);
      NotAdded(c, answers[0], x);
    }
  }

  lemma {:induction false} NotAdded(c: Items, news: seq<RemoteItem>, x: Id)
    requires forall i | 0 <= i < |news| :: news[i].id != x
    requires x in AddedUnder(c, news)
    ensures x in c && AddedUnder(c, news)[x] == c[x]
    decreases news
  {
    if news != [] {
      var item := news[0];
      NotAdded(if item.id !in c || c[item.id].rev <= item.rev then c[item.id := item] else c, news[1..], x);
    }
  }

  /**
   * Diff then patch is the identity on the live tree, up to revisions, exactly
   * when every item renamed in place inside a moving folder is below a folder
   * that comes to be fetched.
   */
  lemma DiffThenPatch(w: World, c: Items, changes: seq<Change>, answers: seq<seq<RemoteItem>>)
    requires Delivery(w, c, changes, answers)
    ensures Mirrors(Patched(c, w.roots, changes, answers), w.after, w.roots) <==> NamesReach(w, changes)
  {
    hide RowsOf;
    NamesAreFetched(w, c, changes);
    if NamesIn(w, AppliedAll(c, w.roots, changes).1) {
      NamesKept(w, c, changes, answers);
    } else {
      var x :| Seen(w.after, w.roots, x) && RenamedInsideMovedFolder(w, x)
               && !exists q <- AppliedAll(c, w.roots, changes).1 :: LiveUnder(w.after, q, x);
      LostName(w, c, changes, answers, x);
    }
  }

  /** Without such a rename among the shown items, always. */
  lemma PlainChangesMirror(w: World, c: Items, changes: seq<Change>, answers: seq<seq<RemoteItem>>)
    requires Delivery(w, c, changes, answers)
    requires forall x | Seen(w.after, w.roots, x) :: !RenamedInsideMovedFolder(w, x)
    ensures Mirrors(Patched(c, w.roots, changes, answers), w.after, w.roots)
  {
    hide RowsOf, RenamedInsideMovedFolder, Seen, Delivery, Patched, Mirrors;
    DiffThenPatch(w, c, changes, answers);
  }

  lemma NamesKept(w: World, c: Items, changes: seq<Change>, answers: seq<seq<RemoteItem>>)
    requires Delivery(w, c, changes, answers) && NamesIn(w, AppliedAll(c, w.roots, changes).1)
    ensures Mirrors(Patched(c, w.roots, changes, answers), w.after, w.roots)
  {
    hide RowsOf, RenamedInsideMovedFolder, AsServer, LiveUnder, Lists, Transition, AppliedAll, Answered;
    Delivered(w, c, changes, answers);
    var (next, fetches) := AppliedAll(c, w.roots, changes);
    AddAll(w, next, fetches, answers);
    forall x | Seen(w.after, w.roots, x)
      ensures x in Answered(next, answers) && Same(Answered(next, answers)[x], w.after[x])
    {
      SeenAfter(w, next, fetches, Answered(next, answers), x);
    }
  }

  /** One shown item, after the rows and the answers. */
  lemma SeenAfter(w: World, next: Items, fetches: seq<Id>, final: Items, x: Id)
    requires NamesIn(w, fetches) && UpToDate(w, next) && Seen(w.after, w.roots, x)
    requires x !in next ==> exists q <- fetches :: LiveUnder(w.after, q, x)
    requires next.Keys <= final.Keys && forall y <- next :: final[y] == next[y] || Same(final[y], w.after[y])
    requires forall q <- fetches, y | LiveUnder(w.after, q, y) :: y in final && Same(final[y], w.after[y])
    ensures x in final && Same(final[x], w.after[x])
  {
    hide RenamedInsideMovedFolder, LiveUnder;
    if x in next { assert AsServer(w, next[x], x); }
  }

  lemma LostName(w: World, c: Items, changes: seq<Change>, answers: seq<seq<RemoteItem>>, x: Id)
    requires Delivery(w, c, changes, answers)
    requires Seen(w.after, w.roots, x) && RenamedInsideMovedFolder(w, x)
    requires !exists q <- AppliedAll(c, w.roots, changes).1 :: LiveUnder(w.after, q, x)
    ensures !Mirrors(Patched(c, w.roots, changes, answers), w.after, w.roots)
  {
    var (next, fetches) := AppliedAll(c, w.roots, changes);
    var final := Patched(c, w.roots, changes, answers);
    if x in final {
      forall k, i | 0 <= k < |answers| && 0 <= i < |answers[k]|
        ensures answers[k][i].id != x
      {
        assert IsSnapshot(w.after, fetches[k], answers[k]);
        assert fetches[k] in fetches;
      }
      NoAnswerNoChange(next, answers, x);
      assert x !in RowsOf(w);
      NoRowNoChange(c, w.roots, changes, x);
      assert w.before[x].name != w.after[x].name;
    }
  }

  // ------------------------------------------------------------------ over runs

  datatype Sending = Sending(w: World, changes: seq<Change>, answers: seq<seq<RemoteItem>>)

  ghost function PatchedAll(c: Items, ds: seq<Sending>): Items
    decreases ds
  {
    if ds == [] then c else PatchedAll(Patched(c, ds[0].w.roots, ds[0].changes, ds[0].answers), ds[1..])
  }

  /** A run of mutations one after another, each delivered in full before the next. */
  ghost predicate Run(t: Snapshot, roots: set<Id>, c: Items, ds: seq<Sending>)
    decreases ds
  {
    ds == [] ||
    (&& ds[0].w.before == t && ds[0].w.roots == roots
     && Sent(ds[0].w, c, ds[0].changes, ds[0].answers)
     && NamesReach(ds[0].w, ds[0].changes)
     && Run(ds[0].w.after, roots, Patched(c, roots, ds[0].changes, ds[0].answers), ds[1..]))
  }

  function LastTree(t: Snapshot, ds: seq<Sending>): Snapshot {
    if ds == [] then t else ds[|ds| - 1].w.after
  }

  /** Over any number of mutations the client keeps mirroring the live tree. */
  lemma {:induction false} MirrorsOverRuns(t: Snapshot, roots: set<Id>, c: Items, ds: seq<Sending>)
    requires Mirrors(c, t, roots) && Run(t, roots, c, ds)
    ensures Mirrors(PatchedAll(c, ds), LastTree(t, ds), roots)
    decreases ds
  {
    hide RowsOf, Mirrors, Sent, NamesReach, Patched;
    if ds != [] {
      assert Delivery(ds[0].w, c, ds[0].changes, ds[0].answers);
      DiffThenPatch(ds[0].w, c, ds[0].changes, ds[0].answers);
      MirrorsOverRuns(ds[0].w.after, roots, Patched(c, roots, ds[0].changes, ds[0].answers), ds[1..]);
    }
  }

  // ------------------------------------------------------- a name the feed loses

  function Entry(kind: NodeType, id: Id, parent: Id, name: string, path: seq<string>, rev: int): ItemState {
    ItemState(kind, id, Some(parent), name, path, None, None, None, rev, None)
  }

  /** Folder `a` is renamed, and in the same mutation the file in it is renamed too. */
  function RenamedTogether(): World {
    World(map["a" := Entry(Folder, "a", "root", "A", ["A"], 1), "x" := Entry(File, "x", "a", "X", ["A", "X"], 1)],
          map["a" := Entry(Folder, "a", "root", "B", ["B"], 2), "x" := Entry(File, "x", "a", "Y", ["B", "Y"], 2)],
          {"a", "x"}, {"root"}, "root")
  }

  lemma RenamedTogetherRows(row: Change)
    requires row == RowOf(Moved, RenamedTogether().after["a"])
    ensures RowsOf(RenamedTogether()) == map["a" := row]
  {
    var w := RenamedTogether();
    assert Only(w.before, w.touched) == w.before && Only(w.after, w.touched) == w.after;
    var kinds := KindsOf(w);
    assert kinds == map["a" := Moved, "x" := Moved];
    assert CoveredByParent(kinds, w.before, w.after, "x");
    assert !CoveredByParent(kinds, w.before, w.after, "a");
  }

  lemma RenamedTogetherValid()
    ensures var w := RenamedTogether();
            && Transition(w) && RootsApart(w.after, w.roots)
            && (forall x :: Seen(w.before, w.roots, x) <==> x in {"a", "x"})
            && (forall x :: Seen(w.after, w.roots, x) <==> x in {"a", "x"})
  {
    var w := RenamedTogether();
    assert Fits(w.before, "root", "a") && Fits(w.before, "root", "x");
    assert Fits(w.after, "root", "a") && Fits(w.after, "root", "x");
    assert Seen(w.before, w.roots, "a") && Seen(w.after, w.roots, "a");
  }

  /** The feed of that mutation leaves the client with the file's old name. */
  lemma NameLost(c: Items, row: Change)
    requires var w := RenamedTogether();
             && row == RowOf(Moved, w.after["a"])
             && c == map["a" := FromState(w.before["a"]), "x" := FromState(w.before["x"])]
    ensures var w := RenamedTogether();
            Delivery(w, c, [row], []) && !Mirrors(Patched(c, w.roots, [row], []), w.after, w.roots)
  {
    hide RowsOf;
    var w := RenamedTogether();
    RenamedTogetherRows(row);
    RenamedTogetherValid();
    assert [row][0].itemId == "a";
    assert InScope(c, w.roots, Some("root"), SCOPE_LIMIT);
    assert [row][1..] == [];
    assert Applied(c, w.roots, row) == (c["a" := FromChange(row)], None);
    assert [row][0] == row;
    assert AppliedAll(c["a" := FromChange(row)], w.roots, []) == (c["a" := FromChange(row)], []);
    var none: seq<Id> := [];
    assert none + none == none;
    assert AppliedAll(c, w.roots, [row]) == (c["a" := FromChange(row)], []);
    assert Patched(c, w.roots, [row], [])["x"] == c["x"];
  }
}
