/**
 * The journal of storage mutations: one row each, its lease and its locks.
 * Each operation is one guarded transaction; the clock values the workers pass
 * in are arbitrary.
 */
module Journal {
  import opened Common
  import opened ResourceLocks

  datatype Status =
    | Prepared | Running | Committed | Finalizing | Retrying   // still going
    | NeedsRecovery | Succeeded | Aborted                   // never left

  datatype Request = Request(ownerUserId: string, kind: string, hash: Option<string>)

  datatype Lease = Lease(owner: string, expiresAt: int)

  /** `asked` and `locks` are what the row was prepared with and has asked for since; they only serve the proofs. */
  datatype Row = Row(
    status: Status,
    idempotencyKey: Option<string>,
    request: Request,
    lease: Option<Lease>,
    token: nat,
    attempts: nat,
    nextAttemptAt: Option<int>,
    committedAt: Option<int>,
    marked: set<nat>,
    asked: Option<string>,
    locks: set<string>)

  datatype State = State(rows: map<string, Row>, held: Held)

  /** Who writes, and with which lease, at what time. */
  datatype Fence = Fence(owner: string, token: nat, now: int)

  datatype Op =
    | Prepare(idempotencyKey: Option<string>, request: Request, keys: set<string>)
    | Claim(owner: string, now: int, until: int, more: set<string>)
    | ClaimFinal(owner: string, now: int, until: int, released: bool)
    | Renew(fence: Fence, until: int)
    | Mark(fence: Fence, step: nat)
    | Commit(fence: Fence)
    | Begin(fence: Fence)
    | Complete(fence: Fence)
    | Retry(fence: Fence)
    | Recover(fence: Fence)
    | Abort(fence: Fence)
    | RetryNow(now: int)

  predicate IsOver(status: Status) {
    status == NeedsRecovery || status == Succeeded || status == Aborted
  }

  predicate IsLive(status: Status) {
    status == Running || status == Committed || status == Finalizing
  }

  // --------------------------------------------------------------------------- guards

  predicate HasLease(row: Row, fence: Fence) {
    && row.lease.Some? && row.lease.value.owner == fence.owner && row.token == fence.token
    && row.lease.value.expiresAt > fence.now
  }

  /** `assertFence`. */
  predicate Fenced(row: Row, fence: Fence) {
    HasLease(row, fence) && IsLive(row.status)
  }

  predicate Due(row: Row, now: int) {
    && (row.nextAttemptAt.Some? ==> row.nextAttemptAt.value <= now)
    && (row.lease.Some? ==> row.lease.value.expiresAt <= now)
  }

  predicate Claimable(row: Row, now: int) {
    || ((row.status == Prepared || row.status == Retrying) && Due(row, now))
    || (row.status == Running && row.lease.Some? && row.lease.value.expiresAt <= now)
  }

  predicate ClaimableFinal(row: Row, now: int) {
    (row.status == Committed || row.status == Finalizing) && Due(row, now)
  }

  function Power2(n: nat): nat {
    if n == 0 then 1 else 2 * Power2(n - 1)
  }

  /** `retryStatusForMutation`. */
  function RetryStatus(row: Row): Status {
    if row.committedAt.Some? || row.status == Committed || row.status == Finalizing then Finalizing else Retrying
  }

  // ---------------------------------------------------------------------- transactions

  function Taken(row: Row, owner: string, until: int, status: Status): Row {
    row.(status := status, lease := Some(Lease(owner, until)), token := row.token + 1,
         attempts := row.attempts + 1, nextAttemptAt := None)
  }

  function Put(s: State, id: string, row: Row): State {
    s.(rows := s.rows[id := row])
  }

  /** What one operation on the mutation `id` does; a refused one changes nothing. */
  function After(s: State, id: string, op: Op): State {
    if op.Prepare? then PreparedRow(s, id, op)
    else if id !in s.rows then s
    else
      var row := s.rows[id];
      match op
      case Claim(owner, now, until, more) =>
        if Claimable(row, now) && Claimed(s.held, more, id).Some?
        then State(s.rows[id := Taken(row, owner, until, Running).(locks := row.locks + more)],
                   Claimed(s.held, more, id).value)
        else s
      case ClaimFinal(owner, now, until, released) =>
        if ClaimableFinal(row, now)
        then State(s.rows[id := Taken(row, owner, until, Finalizing)],
                   if released then Released(s.held, id) else s.held)
        else s
      case Renew(fence, until) =>
        if Fenced(row, fence) then Put(s, id, row.(lease := Some(Lease(fence.owner, until)))) else s
      case Mark(fence, step) =>
        if Fenced(row, fence) then Put(s, id, row.(marked := row.marked + {step})) else s
      case Commit(fence) =>
        if Fenced(row, fence) && row.status == Running
        then Put(s, id, row.(status := Committed, committedAt := Some(fence.now))) else s
      case Begin(fence) =>
        if Fenced(row, fence) && row.status == Committed
        then State(s.rows[id := row.(status := Finalizing)], Released(s.held, id)) else s
      case Complete(fence) =>
        if Fenced(row, fence)
        then State(s.rows[id := row.(status := Succeeded, lease := None)], Released(s.held, id)) else s
      case Retry(fence) =>
        if HasLease(row, fence)
        then
          var wait := Power2(if row.attempts < 10 then row.attempts else 10) * 1000;
          Put(s, id, row.(status := RetryStatus(row), lease := None, nextAttemptAt := Some(fence.now + wait)))
        else s
      case Recover(fence) =>
        if HasLease(row, fence)
        then Put(s, id, row.(status := NeedsRecovery, lease := None, nextAttemptAt := None)) else s
      case Abort(fence) =>
        if Fenced(row, fence) && row.status == Running && row.committedAt.None?
        then State(s.rows[id := row.(status := Aborted, idempotencyKey := None, lease := None, nextAttemptAt := None)],
                   Released(s.held, id))
        else s
      case RetryNow(now) =>
        if (row.status == Retrying || row.status == Finalizing) && row.lease.None?
        then Put(s, id, row.(nextAttemptAt := Some(now))) else s
      case _ => s
  }

  predicate KeyTaken(s: State, key: string) {
    exists id :: id in s.rows && s.rows[id].idempotencyKey == Some(key)
  }

  function NewRow(op: Op): Row
    requires op.Prepare?
  {
    Row(Prepared, op.idempotencyKey, op.request, None, 0, 0, None, None, {}, op.idempotencyKey, op.keys)
  }

  /** `prepareStorageMutation`: ids and idempotency keys are unique, and the locks must be free. */
  function PreparedRow(s: State, id: string, op: Op): State
    requires op.Prepare?
  {
    if id == "" || id in s.rows || (op.idempotencyKey.Some? && KeyTaken(s, op.idempotencyKey.value)) then s
    else if ResourceLocks.Prepared(s.held, op.keys, id).None? then s
    else State(s.rows[id := NewRow(op)], ResourceLocks.Prepared(s.held, op.keys, id).value)
  }

  datatype Call = Call(id: string, op: Op)

  function RunOf(s: State, calls: seq<Call>): State
    decreases calls
  {
    if calls == [] then s else RunOf(After(s, calls[0].id, calls[0].op), calls[1..])
  }

  // ------------------------------------------------------------------------ invariants

  predicate RowOk(row: Row) {
    && (row.status == Running || row.status == Committed ==> row.lease.Some?)
    && (row.lease.Some? ==> IsLive(row.status))
    && (row.status == Committed || row.status == Finalizing ==> row.committedAt.Some?)
    && (row.status in {Prepared, Running, Retrying, Aborted} ==> row.committedAt.None?)
    && (if row.status == Aborted then row.idempotencyKey == None else row.idempotencyKey == row.asked)
  }

  /** Until it is finalized, a mutation holds every lock it has asked for. */
  predicate KeepsLocks(s: State, id: string)
    requires id in s.rows
  {
    s.rows[id].status in {Prepared, Running, Committed, Retrying} ==>
      forall key <- s.rows[id].locks :: key in s.held && s.held[key] == id
  }

  ghost predicate Inv(s: State) {
    && LockTree(s.held) && RealIds(s.held)
    && (forall id <- s.rows :: id != "" && RowOk(s.rows[id]) && KeepsLocks(s, id))
    && (forall a, b | a in s.rows && b in s.rows && a != b && s.rows[a].idempotencyKey.Some? ::
          s.rows[a].idempotencyKey != s.rows[b].idempotencyKey)
  }

  /** Rows of other mutations stay, and so do the locks they hold. */
  lemma OthersStay(s: State, id: string, op: Op, other: string)
    requires other in s.rows && other != id
    ensures other in After(s, id, op).rows && After(s, id, op).rows[other] == s.rows[other]
    ensures forall key <- s.held :: s.held[key] == other ==>
              key in After(s, id, op).held && After(s, id, op).held[key] == other
  {
    hide Power2, RetryStatus, Check;
  }

  /** Whose rows there are, and what becomes of the one written to. */
  lemma OnlyItsRow(s: State, id: string, op: Op)
    ensures After(s, id, op).rows.Keys == s.rows.Keys || After(s, id, op).rows.Keys == s.rows.Keys + {id}
    ensures id !in s.rows && id in After(s, id, op).rows ==>
              && op.Prepare? && id != "" && After(s, id, op).rows[id] == NewRow(op)
              && (op.idempotencyKey.Some? ==> !KeyTaken(s, op.idempotencyKey.value))
  {
    hide Power2, RetryStatus, Check;
  }

  lemma RowStaysOk(s: State, id: string, op: Op)
    requires id in s.rows && RowOk(s.rows[id])
    ensures id in After(s, id, op).rows && RowOk(After(s, id, op).rows[id])
    ensures After(s, id, op).rows[id].idempotencyKey in {None, s.rows[id].idempotencyKey}
  {
    hide Power2, Check, ResourceLocks.Claimed, Released;
  }

  lemma RowKeepsLocks(s: State, id: string, op: Op)
    requires id in After(s, id, op).rows && (id in s.rows ==> KeepsLocks(s, id) && RowOk(s.rows[id]))
    ensures KeepsLocks(After(s, id, op), id)
  {
    hide Power2, Check;
  }

  lemma HeldKeepsTree(s: State, id: string, op: Op)
    requires LockTree(s.held) && RealIds(s.held) && (id in s.rows ==> id != "")
    ensures LockTree(After(s, id, op).held) && RealIds(After(s, id, op).held)
  {
    if After(s, id, op).held != s.held {
      ReleaseKeepsTree(s.held, id);
      if op.Prepare? { PrepareKeepsTree(s.held, op.keys, id); }
      if op.Claim? { ClaimKeepsTree(s.held, op.more, id); }
      hide LockTree, RealIds, Power2, Check, RetryStatus;
    }
  }

  lemma KeepsInv(s: State, id: string, op: Op)
    requires Inv(s)
    ensures Inv(After(s, id, op))
  {
    var s' := After(s, id, op);
    HeldKeepsTree(s, id, op);
    OnlyItsRow(s, id, op);
    if id in s.rows { RowStaysOk(s, id, op); }
    if id in s'.rows { RowKeepsLocks(s, id, op); }
    hide LockTree, RealIds, After;
    forall other <- s'.rows
      ensures other != "" && RowOk(s'.rows[other]) && KeepsLocks(s', other)
    {
      if other != id {
        OthersStay(s, id, op, other);
        assert KeepsLocks(s, other);
      }
    }
    forall a, b | a in s'.rows && b in s'.rows && a != b && s'.rows[a].idempotencyKey.Some?
      ensures s'.rows[a].idempotencyKey != s'.rows[b].idempotencyKey
    {
      if a != id { OthersStay(s, id, op, a); }
      if b != id { OthersStay(s, id, op, b); }
    }
  }
}
