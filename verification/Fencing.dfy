/** What leases, tokens and the commit mark promise over whole runs of the journal. */
module Fencing {
  import opened Common
  import opened Paths
  import opened Disk
  import opened Steps
  import opened Effects
  import opened ResourceLocks
  import opened StorageKeys
  import opened LockedPaths
  import opened Serialisability
  import opened Journal

  predicate HasFence(op: Op) {
    op.Renew? || op.Mark? || op.Commit? || op.Begin? || op.Complete? || op.Retry? || op.Recover? || op.Abort?
  }

  /** What no operation, whoever it is for, does to a row. */
  ghost predicate Onward(before: Row, after: Row) {
    && after.token >= before.token && after.asked == before.asked && after.locks >= before.locks
    && (before.committedAt.Some? ==> after.committedAt == before.committedAt)
    && (IsOver(before.status) ==> after == before)
  }

  lemma StepsOnward(s: State, id: string, op: Op, row: string)
    requires row in s.rows && RowOk(s.rows[row])
    ensures row in Journal.After(s, id, op).rows && Onward(s.rows[row], Journal.After(s, id, op).rows[row])
  {
    if row != id { OthersStay(s, id, op, row); } else {
      hide Power2, Check, ResourceLocks.Claimed, Released;
    }
  }

  /** Tokens only grow, terminal rows are never left, a commit is never taken back. */
  lemma {:induction false} RunsOnward(s: State, calls: seq<Call>, row: string)
    requires Inv(s) && row in s.rows
    ensures row in RunOf(s, calls).rows && Onward(s.rows[row], RunOf(s, calls).rows[row]) && Inv(RunOf(s, calls))
    decreases calls
  {
    if calls != [] {
      StepsOnward(s, calls[0].id, calls[0].op, row);
      KeepsInv(s, calls[0].id, calls[0].op);
      RunsOnward(Journal.After(s, calls[0].id, calls[0].op), calls[1..], row);
    } else {
      assert Onward(s.rows[row], s.rows[row]);
    }
  }

  lemma {:induction false} RunsKeepInv(s: State, calls: seq<Call>)
    requires Inv(s)
    ensures Inv(RunOf(s, calls))
    decreases calls
  {
    if calls != [] {
      KeepsInv(s, calls[0].id, calls[0].op);
      RunsKeepInv(Journal.After(s, calls[0].id, calls[0].op), calls[1..]);
    }
  }

  /** A write that takes effect carries the newest token, from the worker that holds it, in time. */
  lemma OnlyNewestWrites(s: State, id: string, op: Op)
    requires HasFence(op) && Journal.After(s, id, op) != s
    ensures id in s.rows && HasLease(s.rows[id], op.fence)
  {
    hide Power2, Released;
  }

  predicate IsClaim(op: Op) {
    op.Claim? || op.ClaimFinal?
  }

  /** Once another worker has claimed, nothing the earlier one writes ever takes effect again. */
  lemma TakenOverForGood(s: State, id: string, claim: Op, calls: seq<Call>, write: Op)
    requires Inv(s) && id in s.rows && IsClaim(claim) && Journal.After(s, id, claim) != s
    requires HasFence(write) && write.fence.token <= s.rows[id].token
    ensures var now := RunOf(Journal.After(s, id, claim), calls); Journal.After(now, id, write) == now
  {
    var taken := Journal.After(s, id, claim);
    ClaimRaises(s, id, claim);
    KeepsInv(s, id, claim);
    RunsOnward(taken, calls, id);
    var now := RunOf(taken, calls);
    hide Journal.After, Inv, RunOf;
    if Journal.After(now, id, write) != now { OnlyNewestWrites(now, id, write); }
  }

  lemma ClaimRaises(s: State, id: string, claim: Op)
    requires id in s.rows && IsClaim(claim) && Journal.After(s, id, claim) != s
    ensures id in Journal.After(s, id, claim).rows
    ensures Journal.After(s, id, claim).rows[id].token == s.rows[id].token + 1
  {
    hide Check, Released, ResourceLocks.Claimed;
  }

  // ------------------------------------------------------------------- commit and abort

  predicate Settles(s: State, call: Call, id: string) {
    call.id == id && (call.op.Commit? || call.op.Abort?) && Journal.After(s, id, call.op) != s
  }

  /** How often, over the run, the metadata of `id` commits or `id` is aborted. */
  function Settled(s: State, calls: seq<Call>, id: string): nat
    decreases calls
  {
    if calls == [] then 0
    else (if Settles(s, calls[0], id) then 1 else 0)
         + Settled(Journal.After(s, calls[0].id, calls[0].op), calls[1..], id)
  }

  predicate IsSettled(s: State, id: string) {
    id in s.rows && (s.rows[id].committedAt.Some? || IsOver(s.rows[id].status))
  }

  lemma SettlesOnce(s: State, call: Call, id: string)
    requires Inv(s)
    ensures IsSettled(s, id) ==> IsSettled(Journal.After(s, call.id, call.op), id)
    ensures Settles(s, call, id) ==> !IsSettled(s, id) && IsSettled(Journal.After(s, call.id, call.op), id)
  {
    if id in s.rows { StepsOnward(s, call.id, call.op, id); }
    if Settles(s, call, id) {
      assert RowOk(s.rows[id]);
      hide Power2, Released;
    }
  }

  /** Metadata commits at most once, and never both commits and is aborted. */
  lemma {:induction false} CommitsOrAbortsOnce(s: State, calls: seq<Call>, id: string)
    requires Inv(s)
    ensures Settled(s, calls, id) <= if IsSettled(s, id) then 0 else 1
    decreases calls
  {
    if calls != [] {
      SettlesOnce(s, calls[0], id);
      KeepsInv(s, calls[0].id, calls[0].op);
      hide Settles, IsSettled, Inv, Journal.After;
      CommitsOrAbortsOnce(Journal.After(s, calls[0].id, calls[0].op), calls[1..], id);
    }
  }

  // ----------------------------------------------------------------- idempotency keys

  predicate CommitsKey(s: State, call: Call, key: string) {
    && call.op.Commit? && call.id in s.rows && s.rows[call.id].asked == Some(key)
    && Journal.After(s, call.id, call.op) != s
  }

  /** How many commits there are over the run of mutations asked for under `key`. */
  function KeyCommits(s: State, calls: seq<Call>, key: string): nat
    decreases calls
  {
    if calls == [] then 0
    else (if CommitsKey(s, calls[0], key) then 1 else 0)
         + KeyCommits(Journal.After(s, calls[0].id, calls[0].op), calls[1..], key)
  }

  predicate HasCommitted(s: State, key: string) {
    exists id :: id in s.rows && s.rows[id].asked == Some(key) && s.rows[id].committedAt.Some?
  }

  lemma CommittedStays(s: State, call: Call, key: string)
    requires Inv(s) && HasCommitted(s, key)
    ensures HasCommitted(Journal.After(s, call.id, call.op), key)
  {
    var id :| id in s.rows && s.rows[id].asked == Some(key) && s.rows[id].committedAt.Some?;
    StepsOnward(s, call.id, call.op, id);
  }

  lemma CommitRow(s: State, call: Call)
    requires call.op.Commit? && call.id in s.rows && Journal.After(s, call.id, call.op) != s
    ensures s.rows[call.id].status == Running
    ensures Journal.After(s, call.id, call.op).rows[call.id] ==
            s.rows[call.id].(status := Committed, committedAt := Some(call.op.fence.now))
  {
  }

  lemma FirstOfItsKey(s: State, call: Call, key: string)
    requires Inv(s) && CommitsKey(s, call, key)
    ensures !HasCommitted(s, key) && HasCommitted(Journal.After(s, call.id, call.op), key)
  {
    CommitRow(s, call);
    assert RowOk(s.rows[call.id]);
    forall id | id in s.rows && s.rows[id].asked == Some(key)
      ensures s.rows[id].committedAt.None?
    {
      assert RowOk(s.rows[id]);
    }
    assert call.id in Journal.After(s, call.id, call.op).rows;
  }

  /** At most one mutation per idempotency key ever commits, however often the key is freed and asked again. */
  lemma {:induction false} KeyCommitsOnce(s: State, calls: seq<Call>, key: string)
    requires Inv(s)
    ensures KeyCommits(s, calls, key) <= if HasCommitted(s, key) then 0 else 1
    decreases calls
  {
    if calls != [] {
      var call := calls[0];
      if HasCommitted(s, key) { CommittedStays(s, call, key); }
      if CommitsKey(s, call, key) { FirstOfItsKey(s, call, key); }
      KeepsInv(s, call.id, call.op);
      hide CommitsKey, HasCommitted, Inv, Journal.After;
      KeyCommitsOnce(Journal.After(s, call.id, call.op), calls[1..], key);
    }
  }

  // ------------------------------------------------------------------------ the locks

  predicate IsOpen(row: Row) {
    row.status in {Journal.Prepared, Running, Committed, Retrying}
  }

  /** Mutations that are not yet finalized never hold overlapping locks; a global lock is held alone. */
  lemma OpenMutationsAreApart(s: State, calls: seq<Call>, a: string, b: string)
    requires Inv(s)
    requires a in RunOf(s, calls).rows && b in RunOf(s, calls).rows && a != b
    requires IsOpen(RunOf(s, calls).rows[a]) && IsOpen(RunOf(s, calls).rows[b])
    ensures var rows := RunOf(s, calls).rows;
            && (forall x <- rows[a].locks, y <- rows[b].locks ::
                  x != y && (IsOwnerKey(x) && IsOwnerKey(y) ==> !Overlap(x, y)))
            && (GLOBAL in rows[a].locks ==> rows[b].locks == {})
  {
    RunsKeepInv(s, calls);
    var now := RunOf(s, calls);
    assert KeepsLocks(now, a) && KeepsLocks(now, b);
  }

  /** So two open mutations of one owner change the disk as if one ran before the other. */
  lemma OpenMutationsAreSerial(s: State, calls: seq<Call>, m: string, n: string, d: Disk, owner: string,
    a: seq<Step>, b: seq<Step>, turns: seq<bool>)
    requires Inv(s)
    requires m in RunOf(s, calls).rows && n in RunOf(s, calls).rows && m != n
    requires IsOpen(RunOf(s, calls).rows[m]) && IsOpen(RunOf(s, calls).rows[n])
    requires DerivedKeys(owner, a) <= RunOf(s, calls).rows[m].locks
    requires DerivedKeys(owner, b) <= RunOf(s, calls).rows[n].locks
    requires IsTree(d) && AllForward(a) && AllForward(b) && Enough(a, b, turns)
    requires Plain(owner) && owner != "" && CanonicalSteps(a) && CanonicalSteps(b)
    ensures OneThenOther(d, a, b, Together(d, a, b, turns))
  {
    RunsKeepInv(s, calls);
    var now := RunOf(s, calls);
    assert KeepsLocks(now, m) && KeepsLocks(now, n);
    LockedRunsAreSerial(d, now.held, owner, m, n, a, b, turns);
  }

  /** Over every run of an installation: consistent rows and locks, one commit a key, one end a mutation. */
  lemma FromTheStart(calls: seq<Call>, key: string, id: string)
    ensures var empty := State(map[], map[]);
            && Inv(RunOf(empty, calls))
            && KeyCommits(empty, calls, key) <= 1
            && Settled(empty, calls, id) <= 1
  {
    var empty := State(map[], map[]);
    EmptyIsFine();
    RunsKeepInv(empty, calls);
    KeyCommitsOnce(empty, calls, key);
    CommitsOrAbortsOnce(empty, calls, id);
    hide Inv, RunOf, KeyCommits, Settled;
  }

  lemma EmptyIsFine()
    ensures Inv(State(map[], map[]))
  {
  }
}
