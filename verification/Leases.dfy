/**
 * When an operation on the journal takes effect at all: who may claim a
 * mutation and when, which locks it may add, and what a live lease keeps out.
 */
module Leases {
  import opened Common
  import opened ResourceLocks
  import opened Journal

  /** A worker has the mutation, and its time is not up. */
  predicate Leased(row: Row, now: int) {
    row.lease.Some? && row.lease.value.expiresAt > now
  }

  /** The fence is that of the worker that has the mutation. */
  predicate Wields(row: Row, fence: Fence) {
    Leased(row, fence.now) && row.lease.value.owner == fence.owner && row.token == fence.token
  }

  /** ... and the mutation is under way. */
  predicate MayWrite(row: Row, fence: Fence) {
    Wields(row, fence) && (match row.status case Running | Committed | Finalizing => true case _ => false)
  }

  predicate Waited(row: Row, now: int) {
    row.nextAttemptAt.None? || row.nextAttemptAt.value <= now
  }

  predicate MayClaim(row: Row, now: int) {
    !Leased(row, now) && (match row.status
                          case Prepared | Retrying => Waited(row, now)
                          case Running => row.lease.Some?
                          case _ => false)
  }

  predicate MayClaimFinal(row: Row, now: int) {
    !Leased(row, now) && (match row.status case Committed | Finalizing => Waited(row, now) case _ => false)
  }

  /** No mutation but `self` holds a key that overlaps one of these, and the global lock is not in the way. */
  ghost predicate NoneOverlap(held: Held, keys: set<string>, self: string) {
    keys != {} ==>
      && (if GLOBAL in keys then held == map[] else GLOBAL !in held)
      && forall a <- held, b <- keys :: held[a] != self && IsOwnerKey(b) ==> !Overlap(a, b)
  }

  lemma FreeExactly(held: Held, keys: set<string>, self: string)
    ensures Check(held, keys, self) == Free <==> NoneOverlap(held, keys, self)
  {
    forall a <- held, b <- keys
      ensures Hit(a, b) <==> Overlap(a, b)
    {
      QueryDecidesOverlap(a, b);
    }
    if Check(held, keys, self) == Free {
      forall a <- held, b <- keys | held[a] != self && IsOwnerKey(b)
        ensures !Overlap(a, b)
      {
        FreeMeansApart(held, keys, self, a, b);
      }
    }
  }

  /** Which refusal it is: the global lock asks for an operator, an overlap for patience. */
  lemma RefusedExactly(held: Held, keys: set<string>, self: string)
    ensures var global := keys != {} && (if GLOBAL in keys then held != map[] else GLOBAL in held);
            && (Check(held, keys, self) == RecoveryRequired <==> global)
            && (Check(held, keys, self) == InProgress <==>
                  !global && exists a <- held, b <- keys :: held[a] != self && IsOwnerKey(b) && Overlap(a, b))
  {
    FreeExactly(held, keys, self);
    hide Overlap, IsOwnerKey, Hit;
  }

  /** An owner's key names the owner after the prefix. */
  lemma OwnerKeysExactly(key: string)
    ensures IsOwnerKey(key) <==> |key| > 6 && key[..6] == "owner:" && key[6] != '/'
  {
  }

  /** The locks a worker may add to those its mutation has. */
  ghost predicate MayAdd(held: Held, keys: set<string>, id: string) {
    NoneOverlap(held, keys, id) && forall k <- keys :: k in held ==> held[k] == id
  }

  /** A claim takes effect exactly for a mutation nobody has whose turn it is, with the further locks free. */
  lemma ClaimExactly(s: State, id: string, op: Op)
    requires op.Claim?
    ensures After(s, id, op) ==
            if id in s.rows && MayClaim(s.rows[id], op.now) && MayAdd(s.held, op.more, id)
            then
              var row := s.rows[id];
              State(s.rows[id := row.(status := Running, lease := Some(Lease(op.owner, op.until)),
                                      token := row.token + 1, attempts := row.attempts + 1, nextAttemptAt := None,
                                      locks := row.locks + op.more)],
                    s.held + map k | k in op.more :: id)
            else s
  {
    FreeExactly(s.held, op.more, id);
    hide Check, Power2, NoneOverlap;
  }

  /** The same for a committed mutation; its locks go with the second statement, if that gets through. */
  lemma ClaimFinalExactly(s: State, id: string, op: Op)
    requires op.ClaimFinal?
    ensures After(s, id, op) ==
            if id in s.rows && MayClaimFinal(s.rows[id], op.now)
            then
              var row := s.rows[id];
              State(s.rows[id := row.(status := Finalizing, lease := Some(Lease(op.owner, op.until)),
                                      token := row.token + 1, attempts := row.attempts + 1, nextAttemptAt := None)],
                    if op.released then map k | k in s.held && s.held[k] != id :: s.held[k] else s.held)
            else s
  {
  }

  /** Not a write of the worker that has the mutation, and no claim after its time is up. */
  predicate Foreign(row: Row, op: Op) {
    match op
    case Prepare(_, _, _) => true
    case RetryNow(_) => true
    case Claim(_, now, _, _) => Leased(row, now)
    case ClaimFinal(_, now, _, _) => Leased(row, now)
    case _ => row.lease.None? || op.fence.owner != row.lease.value.owner || op.fence.token != row.token
  }

  lemma ForeignChangesNothing(s: State, id: string, op: Op)
    requires id in s.rows && s.rows[id].lease.Some? && Foreign(s.rows[id], op)
    ensures After(s, id, op) == s
  {
    if op.Claim? { ClaimExactly(s, id, op); }
    if op.ClaimFinal? { ClaimFinalExactly(s, id, op); }
    hide Power2, Check;
  }

  /**
   * While a worker has a mutation, its row is its own: over any run of claims,
   * retries, later or earlier workers and other mutations, the row stays as it
   * is and so do the locks the mutation holds.
   */
  lemma {:induction false} LeaseKeepsOthersOut(s: State, calls: seq<Call>, id: string)
    requires id in s.rows && s.rows[id].lease.Some?
    requires forall call <- calls :: call.id == id ==> Foreign(s.rows[id], call.op)
    ensures id in RunOf(s, calls).rows && RunOf(s, calls).rows[id] == s.rows[id]
    ensures forall key <- s.held :: s.held[key] == id ==>
              key in RunOf(s, calls).held && RunOf(s, calls).held[key] == id
    decreases calls
  {
    if calls != [] {
      if calls[0].id == id { ForeignChangesNothing(s, id, calls[0].op); }
      else { OthersStay(s, calls[0].id, calls[0].op, id); }
      LeaseKeepsOthersOut(After(s, calls[0].id, calls[0].op), calls[1..], id);
    }
  }
}
