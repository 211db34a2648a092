/**
 * Reading the change feed page by page while rows are appended and old ones
 * pruned: nothing is skipped silently, exactly while pruning takes rows off the
 * old end only.
 */
module FeedPaging {
  import opened Common

  datatype Row = Row(seqNo: nat, owner: string, createdAt: int, body: string)

  datatype Page = Page(changes: seq<Row>, hasMore: bool, cursor: nat)

  /** `history` is every row ever written; `rows` those still in the table. */
  datatype Log = Log(history: seq<Row>, rows: seq<Row>)

  /** `since` is where the client last started over; `received` is what it was sent from there on. */
  datatype Client = Client(since: nat, cursor: nat, received: seq<Row>)

  function Head(rows: seq<Row>): nat {
    if rows == [] then 0 else rows[|rows| - 1].seqNo
  }

  /** An owner's rows in a range, oldest first. */
  function Owned(rows: seq<Row>, owner: string, after: nat, upTo: nat): seq<Row> {
    if rows == [] then []
    else
      var rest, last := Owned(rows[..|rows| - 1], owner, after, upTo), rows[|rows| - 1];
      if last.owner == owner && after < last.seqNo <= upTo then rest + [last] else rest
  }

  /** `readStorageChanges`; nothing means the cursor is outside the log. */
  function Read(rows: seq<Row>, owner: string, after: nat, limit: nat): Option<Page>
    requires limit > 0
  {
    var head := Head(rows);
    if after > head || (rows != [] && after < rows[0].seqNo - 1) then None
    else
      var found := Owned(rows, owner, after, head);
      if |found| > limit then Some(Page(found[..limit], true, found[limit - 1].seqNo))
      else Some(Page(found, false, if head > after then head else after))
  }

  /** `pruneStorageChanges`: the newest row always stays. */
  function Pruned(rows: seq<Row>, newest: nat, before: int): seq<Row> {
    if rows == [] then []
    else
      var rest, last := Pruned(rows[..|rows| - 1], newest, before), rows[|rows| - 1];
      if last.seqNo < newest && last.createdAt < before then rest else rest + [last]
  }

  datatype Event =
    | Append(rows: seq<Row>)
    | Prune(before: int)
    | Poll(limit: nat)

  predicate Ascending(rows: seq<Row>) {
    forall i, j :: 0 <= i < j < |rows| ==> rows[i].seqNo < rows[j].seqNo
  }

  predicate RealRows(rows: seq<Row>) {
    Ascending(rows) && forall r <- rows :: r.seqNo > 0
  }

  /**
   * Rows are appended with numbers that go on from the last; a row's creation
   * time is the start of its transaction, so times may be in any order.
   */
  predicate Possible(log: Log, e: Event) {
    match e
    case Append(rows) => RealRows(log.history + rows)
    case Prune(_) => true
    case Poll(limit) => limit > 0
  }

  function After(log: Log, client: Client, owner: string, e: Event): (Log, Client)
    requires Possible(log, e)
  {
    match e
    case Append(rows) => (Log(log.history + rows, log.rows + rows), client)
    case Prune(before) => (log.(rows := Pruned(log.rows, Head(log.rows), before)), client)
    case Poll(limit) =>
      (log,
       match Read(log.rows, owner, client.cursor, limit)
       // The client starts over from a snapshot taken now.
       case None => Client(Head(log.rows), Head(log.rows), [])
       case Some(page) => client.(cursor := page.cursor, received := client.received + page.changes))
  }

  // ------------------------------------------------------------------------- invariants

  /** The table is the newest part of the history, and never empty again once it was not. */
  predicate KeepsTail(log: Log) {
    RealRows(log.history) && (log.history != [] ==> log.rows != []) && IsTail(log.history, log.rows)
  }

  predicate IsTail(history: seq<Row>, rows: seq<Row>) {
    |rows| <= |history| && rows == history[|history| - |rows|..]
  }

  lemma TailIsReal(history: seq<Row>, rows: seq<Row>)
    requires RealRows(history) && IsTail(history, rows)
    ensures RealRows(rows)
    ensures rows != [] ==> Head(rows) == Head(history)
    ensures rows != [] ==> forall r <- history[..|history| - |rows|] :: r.seqNo < rows[0].seqNo
  {
    var n := |history| - |rows|;
    assert forall i | 0 <= i < |rows| :: rows[i] == history[n + i];
    forall r | r in rows ensures r.seqNo > 0 { assert r in history; }
  }

  /** The client has been sent every row of its owner since it started, once each, in order. */
  predicate GapFree(log: Log, client: Client, owner: string) {
    && client.since <= client.cursor <= Head(log.history)
    && client.received == Owned(log.history, owner, client.since, client.cursor)
  }

  lemma {:induction false} OwnedAppend(a: seq<Row>, b: seq<Row>, owner: string, after: nat, upTo: nat)
    ensures Owned(a + b, owner, after, upTo) == Owned(a, owner, after, upTo) + Owned(b, owner, after, upTo)
    decreases b
  {
    if b == [] {
      assert a + b == a;
    } else {
      var n := |b| - 1;
      assert (a + b)[..|a + b| - 1] == a + b[..n];
      OwnedAppend(a, b[..n], owner, after, upTo);
    }
  }

  lemma {:induction false} OwnedNone(rows: seq<Row>, owner: string, after: nat, upTo: nat)
    requires forall r <- rows :: !(after < r.seqNo <= upTo)
    ensures Owned(rows, owner, after, upTo) == []
  {
    if rows != [] { OwnedNone(rows[..|rows| - 1], owner, after, upTo); }
  }

  lemma {:induction false} OwnedSplit(rows: seq<Row>, owner: string, a: nat, b: nat, c: nat)
    requires Ascending(rows) && a <= b <= c
    ensures Owned(rows, owner, a, c) == Owned(rows, owner, a, b) + Owned(rows, owner, b, c)
  {
    if rows != [] {
      var n := |rows| - 1;
      OwnedSplit(rows[..n], owner, a, b, c);
      if rows[n].seqNo <= b {
        assert forall r <- rows[..n] :: r.seqNo <= b;
        OwnedNone(rows[..n], owner, b, c);
      }
    }
  }

  lemma {:induction false} OwnedOf(rows: seq<Row>, owner: string, after: nat, upTo: nat)
    requires Ascending(rows)
    ensures forall r <- Owned(rows, owner, after, upTo) :: r in rows && r.owner == owner && after < r.seqNo <= upTo
    ensures Ascending(Owned(rows, owner, after, upTo))
  {
    if rows != [] {
      var n := |rows| - 1;
      OwnedOf(rows[..n], owner, after, upTo);
      assert forall r <- rows[..n] :: r.seqNo < rows[n].seqNo;
    }
  }

  /** The rows found up to the `k`-th of them are its first `k`. */
  lemma {:induction false} FirstFound(rows: seq<Row>, owner: string, after: nat, upTo: nat, k: nat)
    requires Ascending(rows) && 0 < k <= |Owned(rows, owner, after, upTo)|
    ensures Owned(rows, owner, after, upTo)[..k] ==
            Owned(rows, owner, after, Owned(rows, owner, after, upTo)[k - 1].seqNo)
  {
    var found := Owned(rows, owner, after, upTo);
    var mid := found[k - 1].seqNo;
    OwnedOf(rows, owner, after, upTo);
    OwnedSplit(rows, owner, after, mid, upTo);
    var a, b := Owned(rows, owner, after, mid), Owned(rows, owner, mid, upTo);
    OwnedOf(rows, owner, after, mid);
    OwnedOf(rows, owner, mid, upTo);
    assert found == a + b;
    assert forall i | 0 <= i < |a| :: a[i] == found[i] && a[i] in a && a[i].seqNo <= mid;
    assert forall i | |a| <= i < |found| :: found[i] == b[i - |a|] && b[i - |a|] in b && found[i].seqNo > mid;
    assert k < |found| ==> found[k - 1].seqNo < found[k].seqNo;
    assert |a| == k;
  }

  predicate Goes(r: Row, newest: nat, before: int) {
    r.seqNo < newest && r.createdAt < before
  }

  lemma {:induction false} PrunedHas(rows: seq<Row>, newest: nat, before: int)
    ensures forall r :: r in Pruned(rows, newest, before) <==> r in rows && !Goes(r, newest, before)
  {
    if rows != [] {
      PrunedHas(rows[..|rows| - 1], newest, before);
      assert rows == rows[..|rows| - 1] + [rows[|rows| - 1]];
    }
  }

  /** Where no row goes that is newer than one that stays, rows go from the old end only. */
  lemma {:induction false} PrunedIsTail(rows: seq<Row>, newest: nat, before: int) returns (n: nat)
    requires forall i, j | 0 <= i < j < |rows| :: Goes(rows[j], newest, before) ==> Goes(rows[i], newest, before)
    ensures n <= |rows| && Pruned(rows, newest, before) == rows[n..]
    ensures n < |rows| ==> !Goes(rows[n], newest, before)
  {
    if rows == [] {
      n := 0;
    } else {
      var last := |rows| - 1;
      n := PrunedIsTail(rows[..last], newest, before);
      if Goes(rows[last], newest, before) {
        assert n == last;
        n := |rows|;
      } else {
        assert rows[..last][n..] + [rows[last]] == rows[n..];
      }
    }
  }

  /** A row before the newest that is old enough to go, after one that is not. */
  predicate OutOfOrder(rows: seq<Row>, before: int) {
    exists i, j | 0 <= i < j < |rows| - 1 :: StaysThenGoes(rows, before, i, j)
  }

  predicate StaysThenGoes(rows: seq<Row>, before: int, i: nat, j: nat) {
    i < j < |rows| - 1 && rows[j].createdAt < before <= rows[i].createdAt
  }

  lemma {:induction false} NewestStays(rows: seq<Row>, before: int)
    requires rows != []
    ensures Pruned(rows, Head(rows), before) != [] && Head(Pruned(rows, Head(rows), before)) == Head(rows)
  {
  }

  /** Pruning leaves the newest part of the log exactly if no row is out of order for its cutoff. */
  lemma PruneLeavesTail(rows: seq<Row>, before: int)
    requires Ascending(rows)
    ensures IsTail(rows, Pruned(rows, Head(rows), before)) <==> !OutOfOrder(rows, before)
  {
    var newest := Head(rows);
    if OutOfOrder(rows, before) {
      var i, j :| 0 <= i < j < |rows| - 1 && StaysThenGoes(rows, before, i, j);
      PrunedHas(rows, newest, before);
      var kept := Pruned(rows, newest, before);
      assert rows[i] in kept && rows[j] !in kept;
      TailHasLater(rows, kept, i, j);
    } else {
      forall i, j | 0 <= i < j < |rows| && Goes(rows[j], newest, before)
        ensures Goes(rows[i], newest, before)
      {
        assert !StaysThenGoes(rows, before, i, j);
      }
      var n := PrunedIsTail(rows, newest, before);
    }
  }

  lemma TailHasLater(rows: seq<Row>, kept: seq<Row>, i: nat, j: nat)
    requires Ascending(rows) && i < j < |rows| && rows[i] in kept
    ensures IsTail(rows, kept) ==> rows[j] in kept
  {
    if IsTail(rows, kept) {
      var n := |rows| - |kept|;
      var k :| 0 <= k < |kept| && kept[k] == rows[i];
      assert kept[k] == rows[n + k];
      assert n + k == i;
      assert kept[j - n] == rows[j];
    }
  }

  /** Creation times never go back among the rows before the newest. */
  predicate InTime(rows: seq<Row>) {
    forall i, j :: 0 <= i < j < |rows| - 1 ==> rows[i].createdAt <= rows[j].createdAt
  }

  /** Every cutoff leaves the newest part of the log exactly if the creation times are in order. */
  lemma EveryPruneLeavesTail(rows: seq<Row>)
    requires Ascending(rows)
    ensures (forall before :: IsTail(rows, Pruned(rows, Head(rows), before))) <==> InTime(rows)
  {
    if InTime(rows) {
      forall before
        ensures IsTail(rows, Pruned(rows, Head(rows), before))
      {
        InTimeIsInOrder(rows, before);
        PruneLeavesTail(rows, before);
      }
    } else {
      var i, j :| 0 <= i < j < |rows| - 1 && rows[i].createdAt > rows[j].createdAt;
      assert StaysThenGoes(rows, rows[i].createdAt, i, j);
      PruneLeavesTail(rows, rows[i].createdAt);
    }
  }

  lemma InTimeIsInOrder(rows: seq<Row>, before: int)
    requires InTime(rows)
    ensures !OutOfOrder(rows, before)
  {
  }

  lemma PruneKeepsTail(log: Log, before: int)
    requires KeepsTail(log)
    ensures KeepsTail(log.(rows := Pruned(log.rows, Head(log.rows), before))) <==> !OutOfOrder(log.rows, before)
  {
    TailIsReal(log.history, log.rows);
    PruneLeavesTail(log.rows, before);
    if log.rows != [] { NewestStays(log.rows, before); }
    var kept := Pruned(log.rows, Head(log.rows), before);
    hide RealRows, Pruned, OutOfOrder;
    PrunedIsShorter(log.rows, Head(log.rows), before);
    if IsTail(log.rows, kept) { TailOfTail(log.history, log.rows, |log.rows| - |kept|); }
    if IsTail(log.history, kept) { ShorterTail(log.history, log.rows, kept); }
  }

  lemma ShorterTail(history: seq<Row>, rows: seq<Row>, kept: seq<Row>)
    requires IsTail(history, rows) && IsTail(history, kept) && |kept| <= |rows|
    ensures IsTail(rows, kept)
  {
  }

  lemma {:induction false} PrunedIsShorter(rows: seq<Row>, newest: nat, before: int)
    ensures |Pruned(rows, newest, before)| <= |rows|
  {
    if rows != [] { PrunedIsShorter(rows[..|rows| - 1], newest, before); }
  }

  lemma TailOfTail(history: seq<Row>, rows: seq<Row>, k: nat)
    requires IsTail(history, rows) && k <= |rows|
    ensures IsTail(history, rows[k..])
  {
    assert history[|history| - |rows[k..]|..] == history[|history| - |rows|..][k..];
  }

  lemma NewRowsAreNewer(history: seq<Row>, rows: seq<Row>)
    requires RealRows(history + rows)
    ensures forall r <- rows :: r.seqNo > Head(history)
    ensures Head(history) <= Head(history + rows)
  {
    var all := history + rows;
    assert forall i | 0 <= i < |rows| :: all[|history| + i] == rows[i];
    assert history != [] ==> all[|history| - 1] == history[|history| - 1];
    assert all != [] && rows == [] ==> all == history;
    assert rows != [] ==> all[|all| - 1] == rows[|rows| - 1];
  }

  lemma AppendKeepsTail(log: Log, rows: seq<Row>)
    requires KeepsTail(log) && RealRows(log.history + rows)
    ensures KeepsTail(Log(log.history + rows, log.rows + rows))
  {
    TailsAppend(log.history, log.rows, rows);
    hide RealRows, IsTail;
  }

  lemma TailsAppend(history: seq<Row>, kept: seq<Row>, rows: seq<Row>)
    requires IsTail(history, kept)
    ensures IsTail(history + rows, kept + rows)
  {
    var n := |history| - |kept|;
    assert history == history[..n] + kept;
    assert history + rows == history[..n] + (kept + rows);
  }

  lemma AppendKeeps(log: Log, client: Client, owner: string, rows: seq<Row>)
    requires KeepsTail(log) && GapFree(log, client, owner) && RealRows(log.history + rows)
    ensures KeepsTail(Log(log.history + rows, log.rows + rows))
    ensures GapFree(Log(log.history + rows, log.rows + rows), client, owner)
  {
    NewRowsAreNewer(log.history, rows);
    AppendKeepsTail(log, rows);
    hide RealRows, Head;
    OwnedAppend(log.history, rows, owner, client.since, client.cursor);
    OwnedNone(rows, owner, client.since, client.cursor);
  }

  /** Behind a cursor that is still in the log, the table has every row the history has. */
  lemma NothingPrunedAfter(log: Log, owner: string, after: nat, upTo: nat)
    requires KeepsTail(log) && log.rows != [] && after >= log.rows[0].seqNo - 1
    ensures Owned(log.rows, owner, after, upTo) == Owned(log.history, owner, after, upTo)
  {
    TailIsReal(log.history, log.rows);
    hide RealRows, Head;
    var n := |log.history| - |log.rows|;
    assert log.history == log.history[..n] + log.rows;
    OwnedAppend(log.history[..n], log.rows, owner, after, upTo);
    OwnedNone(log.history[..n], owner, after, upTo);
  }

  lemma PollKeeps(log: Log, client: Client, owner: string, limit: nat)
    requires KeepsTail(log) && GapFree(log, client, owner) && limit > 0
    ensures GapFree(log, After(log, client, owner, Poll(limit)).1, owner)
  {
    var head, after := Head(log.rows), client.cursor;
    TailIsReal(log.history, log.rows);
    if Read(log.rows, owner, after, limit).None? {
      assert forall r <- log.history :: !(head < r.seqNo <= head);
      OwnedNone(log.history, owner, head, head);
    } else {
      var page := Read(log.rows, owner, after, limit).value;
      if log.rows != [] { NothingPrunedAfter(log, owner, after, head); }
      PageIsComplete(log, owner, after, limit);
      OwnedSplit(log.history, owner, client.since, after, page.cursor);
    }
  }

  /** A page holds exactly the owner's rows from the cursor asked for up to the cursor returned. */
  lemma PageIsComplete(log: Log, owner: string, after: nat, limit: nat)
    requires KeepsTail(log) && limit > 0 && Read(log.rows, owner, after, limit).Some?
    ensures var page := Read(log.rows, owner, after, limit).value;
            && after <= page.cursor <= Head(log.rows)
            && page.changes == Owned(log.history, owner, after, page.cursor)
            && (page.hasMore ==> page.cursor > after)
  {
    TailIsReal(log.history, log.rows);
    var head := Head(log.rows);
    if log.rows != [] { NothingPrunedAfter(log, owner, after, head); }
    var found := Owned(log.history, owner, after, head);
    OwnedOf(log.history, owner, after, head);
    if |found| > limit { FirstFound(log.history, owner, after, head, limit); }
  }

  // ------------------------------------------------------- exactly when a prune is noticed

  predicate PageComplete(history: seq<Row>, owner: string, after: nat, page: Page) {
    page.changes == Owned(history, owner, after, page.cursor)
  }

  /** Whoever reads, from wherever: a page that is answered leaves out nothing on its way to its cursor. */
  ghost predicate AnswersAreComplete(log: Log) {
    forall owner, after, limit: nat | limit > 0 && Read(log.rows, owner, after, limit).Some? ::
      PageComplete(log.history, owner, after, Read(log.rows, owner, after, limit).value)
  }

  /** A client just before a row pruned from the middle is answered with a page that goes past it. */
  lemma SkippedUnawares(log: Log, before: int, i: nat, j: nat, limit: nat)
    requires KeepsTail(log) && StaysThenGoes(log.rows, before, i, j) && limit > 0
    ensures var gone, kept := log.rows[j], Pruned(log.rows, Head(log.rows), before);
            && gone.seqNo > 0 && Read(kept, gone.owner, gone.seqNo - 1, limit).Some?
            && var page := Read(kept, gone.owner, gone.seqNo - 1, limit).value;
               page.cursor >= gone.seqNo && gone !in page.changes
               && gone in Owned(log.history, gone.owner, gone.seqNo - 1, page.cursor)
  {
    var rows, gone := log.rows, log.rows[j];
    var kept, after := Pruned(rows, Head(rows), before), gone.seqNo - 1;
    TailIsReal(log.history, rows);
    KeptAround(rows, before, i, j);
    KeptAscends(rows, Head(rows), before);
    assert gone in log.history && gone.seqNo > 0;
    hide KeepsTail, RealRows, Pruned, StaysThenGoes, IsTail;
    OwnedOf(kept, gone.owner, after, Head(kept));
    var page := Read(kept, gone.owner, after, limit).value;
    hide Owned, Ascending;
    assert forall r <- page.changes :: r in kept;
    OwnedHas(log.history, gone, after, page.cursor);
  }

  /** The older row stays, the newer goes, and the log's ends are on either side of it. */
  lemma KeptAround(rows: seq<Row>, before: int, i: nat, j: nat)
    requires Ascending(rows) && StaysThenGoes(rows, before, i, j)
    ensures var kept := Pruned(rows, Head(rows), before);
            kept != [] && kept[0].seqNo < rows[j].seqNo < Head(rows) == Head(kept) && rows[j] !in kept
  {
    var kept := Pruned(rows, Head(rows), before);
    PrunedHas(rows, Head(rows), before);
    NewestStays(rows, before);
    KeptAscends(rows, Head(rows), before);
    assert rows[i] in kept;
    var at :| 0 <= at < |kept| && kept[at] == rows[i];
    assert kept[0].seqNo <= rows[i].seqNo < rows[j].seqNo < rows[|rows| - 1].seqNo;
  }

  lemma {:induction false} KeptAscends(rows: seq<Row>, newest: nat, before: int)
    requires Ascending(rows)
    ensures Ascending(Pruned(rows, newest, before))
  {
    if rows != [] {
      KeptAscends(rows[..|rows| - 1], newest, before);
      PrunedHas(rows[..|rows| - 1], newest, before);
      assert forall r <- rows[..|rows| - 1] :: r.seqNo < rows[|rows| - 1].seqNo;
    }
  }

  lemma {:induction false} OwnedHas(rows: seq<Row>, r: Row, after: nat, upTo: nat)
    requires r in rows && after < r.seqNo <= upTo
    ensures r in Owned(rows, r.owner, after, upTo)
  {
    var n := |rows| - 1;
    assert rows == rows[..n] + [rows[n]];
    if r in rows[..n] { OwnedHas(rows[..n], r, after, upTo); }
  }

  /** Pruning never makes a client skip a row unawares exactly if no row is out of order for its cutoff. */
  lemma PruneSkipsNoneExactly(log: Log, before: int)
    requires KeepsTail(log)
    ensures AnswersAreComplete(log.(rows := Pruned(log.rows, Head(log.rows), before))) <==>
            !OutOfOrder(log.rows, before)
  {
    var pruned := log.(rows := Pruned(log.rows, Head(log.rows), before));
    PruneKeepsTail(log, before);
    if OutOfOrder(log.rows, before) {
      var i, j :| 0 <= i < j < |log.rows| - 1 && StaysThenGoes(log.rows, before, i, j);
      var gone := log.rows[j];
      SkippedUnawares(log, before, i, j, 1);
      var page := Read(pruned.rows, gone.owner, gone.seqNo - 1, 1).value;
      assert !PageComplete(log.history, gone.owner, gone.seqNo - 1, page);
    } else {
      forall owner, after: nat, limit: nat | limit > 0 && Read(pruned.rows, owner, after, limit).Some?
        ensures PageComplete(pruned.history, owner, after, Read(pruned.rows, owner, after, limit).value)
      {
        PageIsComplete(pruned, owner, after, limit);
      }
    }
    hide Pruned, Read, Owned, KeepsTail;
  }

  // ------------------------------------------------------------------------- over whole runs

  ghost predicate AllPossible(log: Log, client: Client, owner: string, events: seq<Event>)
    decreases events
  {
    events != [] ==>
      Possible(log, events[0]) &&
      AllPossible(After(log, client, owner, events[0]).0, After(log, client, owner, events[0]).1, owner, events[1..])
  }

  ghost function RunOf(log: Log, client: Client, owner: string, events: seq<Event>): (Log, Client)
    requires AllPossible(log, client, owner, events)
    decreases events
  {
    if events == [] then (log, client)
    else RunOf(After(log, client, owner, events[0]).0, After(log, client, owner, events[0]).1, owner, events[1..])
  }

  /** Every prune of the run meets a table that is in order for its cutoff. */
  ghost predicate PrunesInOrder(log: Log, client: Client, owner: string, events: seq<Event>)
    requires AllPossible(log, client, owner, events)
    decreases events
  {
    events != [] ==>
      && (events[0].Prune? ==> !OutOfOrder(log.rows, events[0].before))
      && var (next, c) := After(log, client, owner, events[0]);
         PrunesInOrder(next, c, owner, events[1..])
  }

  /**
   * However appends, prunes and polls interleave, and whatever the creation
   * times: while every prune is in order, the client has been sent each of its
   * owner's changes since it last started over exactly once, in order.
   */
  lemma {:induction false} PagingIsGapFree(log: Log, client: Client, owner: string, events: seq<Event>)
    requires KeepsTail(log) && GapFree(log, client, owner) && AllPossible(log, client, owner, events)
    requires PrunesInOrder(log, client, owner, events)
    ensures var (end, c) := RunOf(log, client, owner, events); KeepsTail(end) && GapFree(end, c, owner)
    decreases events
  {
    if events != [] {
      match events[0] {
        case Append(rows) => AppendKeeps(log, client, owner, rows);
        case Prune(before) => PruneKeepsTail(log, before);
        case Poll(limit) => PollKeeps(log, client, owner, limit);
      }
      hide KeepsTail, GapFree, OutOfOrder;
      var (next, c) := After(log, client, owner, events[0]);
      PagingIsGapFree(next, c, owner, events[1..]);
    }
  }

  /** Where all rows ever written are in order of time, so is every prune. */
  lemma {:induction false} InTimePrunesInOrder(log: Log, client: Client, owner: string, events: seq<Event>)
    requires KeepsTail(log) && AllPossible(log, client, owner, events)
    requires forall r, s | 0 <= r < s < |RunOf(log, client, owner, events).0.history| ::
               RunOf(log, client, owner, events).0.history[r].createdAt
               <= RunOf(log, client, owner, events).0.history[s].createdAt
    ensures PrunesInOrder(log, client, owner, events)
    decreases events
  {
    if events != [] {
      HistoryGrows(log, client, owner, events);
      InTimeTail(log, RunOf(log, client, owner, events).0.history);
      match events[0] {
        case Append(rows) => AppendKeepsTail(log, rows);
        case Prune(before) => InTimeIsInOrder(log.rows, before); PruneKeepsTail(log, before);
        case Poll(limit) =>
      }
      hide KeepsTail, OutOfOrder, InTime;
      var (next, c) := After(log, client, owner, events[0]);
      InTimePrunesInOrder(next, c, owner, events[1..]);
    }
  }

  lemma {:induction false} HistoryGrows(log: Log, client: Client, owner: string, events: seq<Event>)
    requires AllPossible(log, client, owner, events)
    ensures log.history <= RunOf(log, client, owner, events).0.history
    decreases events
  {
    if events != [] {
      HistoryGrows(After(log, client, owner, events[0]).0, After(log, client, owner, events[0]).1, owner, events[1..]);
    }
  }

  lemma InTimeTail(log: Log, all: seq<Row>)
    requires KeepsTail(log) && log.history <= all
    requires forall r, s | 0 <= r < s < |all| :: all[r].createdAt <= all[s].createdAt
    ensures InTime(log.rows)
  {
    var n := |log.history| - |log.rows|;
    assert forall i | 0 <= i < |log.rows| :: log.rows[i] == all[n + i];
  }

  /** With times out of order pruning takes a row out of the middle, and a client misses it unawares. */
  lemma OutOfTimeSkips()
    ensures var rows := [Row(1, "me", 5, "a"), Row(2, "me", 1, "b"), Row(3, "me", 5, "c")];
            var kept := Pruned(rows, Head(rows), 3);
            Read(kept, "me", 0, 10) == Some(Page([rows[0], rows[2]], false, 3))
  {
    var rows := [Row(1, "me", 5, "a"), Row(2, "me", 1, "b"), Row(3, "me", 5, "c")];
    assert rows[..2][..1][..0] == [] && rows[..2][..1] == [rows[0]] && rows[..2] == [rows[0], rows[1]];
    assert Pruned([rows[0]], 3, 3) == [rows[0]];
    assert Pruned(rows[..2], 3, 3) == [rows[0]];
    var kept := [rows[0], rows[2]];
    assert Pruned(rows, 3, 3) == kept;
    assert kept[..1] == [rows[0]] && kept[..1][..0] == [];
    assert Owned(kept[..1], "me", 0, 3) == [rows[0]];
    assert Owned(kept, "me", 0, 3) == kept;
  }
}
