/** The journal's tables, changed in place by one transaction at a time. */
module JournalStore {
  import opened Common
  import opened ResourceLocks
  import opened Journal
  import opened Leases

  datatype PrepareResult = New | Replayed(existing: string) | KeyReused | InUse

  /** The keys, each once. */
  function Unique(keys: seq<string>): set<string> {
    set k | k in keys
  }

  predicate Uses(row: Row, key: Option<string>) {
    key.Some? && row.idempotencyKey == key
  }

  function Others(held: Held, id: string): Held {
    map k | k in held && held[k] != id :: held[k]
  }

  lemma NothingAsked(held: Held, keys: set<string>, id: string)
    requires keys == {}
    ensures NoneOverlap(held, keys, id)
  {
  }

  lemma Doubles(n: nat)
    requires n <= 10
    ensures Power2(n) == [1, 2, 4, 8, 16, 32, 64, 128, 256, 512, 1024][n]
  {
    assert Power2(5) == 32;
    assert Power2(10) == 1024;
    assert Power2(7) == 128 && Power2(8) == 256 && Power2(9) == 512;
  }

  class Store {
    var rows: map<string, Row>
    var held: Held

    constructor ()
      ensures Now() == State(map[], map[])
    {
      rows, held := map[], map[];
    }

    function Now(): State
      reads this
    {
      State(rows, held)
    }

    /** A request is answered with the mutation its key already has, and refused if that was another request. */
    method Prepare(id: string, idempotencyKey: Option<string>, request: Request, keys: seq<string>)
      returns (out: PrepareResult)
      requires id != ""
      modifies this
      ensures Now() == After(old(Now()), id, Journal.Prepare(idempotencyKey, request, Unique(keys)))
      ensures out.New? <==>
                && id !in old(rows) && (forall other <- old(rows) :: !Uses(old(rows)[other], idempotencyKey))
                && NoneOverlap(old(held), Unique(keys), "") && forall k <- Unique(keys) :: k !in old(held)
      ensures out.New? ==>
                && rows == old(rows)[id := Row(Prepared, idempotencyKey, request, None, 0, 0, None, None, {},
                                               idempotencyKey, Unique(keys))]
                && held == old(held) + map k | k in Unique(keys) :: id
      ensures !out.New? ==> Now() == old(Now())
      ensures out.Replayed? || out.KeyReused? <==>
              idempotencyKey != Some("") && exists other <- old(rows) :: Uses(old(rows)[other], idempotencyKey)
      ensures out.Replayed? ==>
                out.existing in rows && Uses(rows[out.existing], idempotencyKey) &&
                  rows[out.existing].request == request
      ensures out.KeyReused? ==>
                exists other <- rows :: Uses(rows[other], idempotencyKey) && rows[other].request != request
    {
      FreeExactly(held, Unique(keys), "");
      hide NoneOverlap, Check;
      if idempotencyKey.Some? && KeyTaken(Now(), idempotencyKey.value) {
        // The empty key is not looked up, but it is still unique.
        if idempotencyKey.value == "" { return InUse; }
        var other :| other in rows && rows[other].idempotencyKey == idempotencyKey;
        if rows[other].request == request { return Replayed(other); }
        return KeyReused;
      }
      var locks := ResourceLocks.Prepared(held, Unique(keys), id);
      if id in rows || locks.None? { return InUse; }
      rows := rows[id := NewRow(Journal.Prepare(idempotencyKey, request, Unique(keys)))];
      held := locks.value;
      return New;
    }

    method OthersHold(id: string, keys: seq<string>) returns (some: bool)
      ensures some <==> exists k <- Unique(keys) :: k in held && held[k] != id
    {
      for i := 0 to |keys|
        invariant forall j | 0 <= j < i :: keys[j] in held ==> held[keys[j]] == id
      {
        if keys[i] in held && held[keys[i]] != id { return true; }
      }
      return false;
    }

    method AddLocks(id: string, keys: seq<string>)
      requires forall k <- Unique(keys) :: k in held ==> held[k] == id
      modifies this`held
      ensures held == old(held) + map k | k in Unique(keys) :: id
    {
      for i := 0 to |keys|
        invariant held.Keys == old(held).Keys + set j | 0 <= j < i :: keys[j]
        invariant forall k <- held :: held[k] == if k in old(held) then old(held)[k] else id
      {
        if keys[i] !in held { held := held[keys[i] := id]; }
      }
    }

    /** Takes the lease and the further locks together, or neither. */
    method Claim(id: string, owner: string, now: int, until: int, more: seq<string>) returns (token: Option<nat>)
      modifies this
      ensures Now() == After(old(Now()), id, Journal.Claim(owner, now, until, Unique(more)))
      ensures token.Some? <==>
              id in old(rows) && MayClaim(old(rows)[id], now) && MayAdd(old(held), Unique(more), id)
      ensures token.None? ==> Now() == old(Now())
      ensures token.Some? ==>
                && token.value == old(rows)[id].token + 1
                && rows == old(rows)[id := old(rows)[id].(
                     status := Running, lease := Some(Lease(owner, until)), token := token.value,
                     attempts := old(rows)[id].attempts + 1, nextAttemptAt := None,
                     locks := old(rows)[id].locks + Unique(more))]
                && held == old(held) + map k | k in Unique(more) :: id
    {
      FreeExactly(held, Unique(more), id);
      hide Check, NoneOverlap;
      if |more| > 0 {
        if Check(held, Unique(more), id) != Free { return None; }
        var others := OthersHold(id, more);
        if others { return None; }
      } else {
        NothingAsked(held, Unique(more), id);
      }
      if id !in rows || !Claimable(rows[id], now) { return None; }
      rows := rows[id := Taken(rows[id], owner, until, Running).(locks := rows[id].locks + Unique(more))];
      AddLocks(id, more);
      return Some(rows[id].token);
    }

    /** `released`: whether the second statement, which gives up the locks, got through as well. */
    method ClaimFinalization(id: string, owner: string, now: int, until: int, released: bool) returns (ok: bool)
      modifies this
      ensures Now() == After(old(Now()), id, ClaimFinal(owner, now, until, released))
      ensures ok <==> id in old(rows) && MayClaimFinal(old(rows)[id], now)
      ensures !ok ==> Now() == old(Now())
      ensures ok ==>
                && rows == old(rows)[id := old(rows)[id].(
                     status := Finalizing, lease := Some(Lease(owner, until)), token := old(rows)[id].token + 1,
                     attempts := old(rows)[id].attempts + 1, nextAttemptAt := None)]
                && held == if released then Others(old(held), id) else old(held)
    {
      if id !in rows || !ClaimableFinal(rows[id], now) { return false; }
      rows := rows[id := Taken(rows[id], owner, until, Finalizing)];
      if released { held := Released(held, id); }
      return true;
    }

    /** A worker makes its time longer. */
    method RenewLease(id: string, fence: Fence, until: int) returns (ok: bool)
      modifies this`rows
      ensures Now() == After(old(Now()), id, Renew(fence, until))
      ensures ok <==> id in old(rows) && MayWrite(old(rows)[id], fence)
      ensures ok ==> rows == old(rows)[id := old(rows)[id].(lease := Some(Lease(fence.owner, until)))]
      ensures !ok ==> rows == old(rows)
    {
      if id !in rows || !Fenced(rows[id], fence) { return false; }
      rows := rows[id := rows[id].(lease := Some(Lease(fence.owner, until)))];
      return true;
    }

    method MarkApplied(id: string, fence: Fence, step: nat) returns (ok: bool)
      modifies this`rows
      ensures Now() == After(old(Now()), id, Mark(fence, step))
      ensures ok <==> id in old(rows) && MayWrite(old(rows)[id], fence)
      ensures ok ==> rows == old(rows)[id := old(rows)[id].(marked := old(rows)[id].marked + {step})]
      ensures !ok ==> rows == old(rows)
    {
      if id !in rows || !Fenced(rows[id], fence) { return false; }
      rows := rows[id := rows[id].(marked := rows[id].marked + {step})];
      return true;
    }

    method CommitMetadata(id: string, fence: Fence) returns (ok: bool)
      modifies this`rows
      ensures Now() == After(old(Now()), id, Commit(fence))
      ensures ok <==> id in old(rows) && MayWrite(old(rows)[id], fence) && old(rows)[id].status == Running
      ensures ok ==> rows == old(rows)[id := old(rows)[id].(status := Committed, committedAt := Some(fence.now))]
      ensures !ok ==> rows == old(rows)
    {
      if id !in rows || !Fenced(rows[id], fence) || rows[id].status != Running { return false; }
      rows := rows[id := rows[id].(status := Committed, committedAt := Some(fence.now))];
      return true;
    }

    method BeginFinalization(id: string, fence: Fence) returns (ok: bool)
      modifies this
      ensures Now() == After(old(Now()), id, Begin(fence))
      ensures ok <==> id in old(rows) && MayWrite(old(rows)[id], fence) && old(rows)[id].status == Committed
      ensures ok ==> rows == old(rows)[id := old(rows)[id].(status := Finalizing)] && held == Others(old(held), id)
      ensures !ok ==> Now() == old(Now())
    {
      if id !in rows || !Fenced(rows[id], fence) || rows[id].status != Committed { return false; }
      rows := rows[id := rows[id].(status := Finalizing)];
      held := Released(held, id);
      return true;
    }

    method CompleteMutation(id: string, fence: Fence) returns (ok: bool)
      modifies this
      ensures Now() == After(old(Now()), id, Complete(fence))
      ensures ok <==> id in old(rows) && MayWrite(old(rows)[id], fence)
      ensures ok ==> rows == old(rows)[id := old(rows)[id].(status := Succeeded, lease := None)]
      ensures ok ==> held == Others(old(held), id)
      ensures !ok ==> Now() == old(Now())
    {
      if id !in rows || !Fenced(rows[id], fence) { return false; }
      rows := rows[id := rows[id].(status := Succeeded, lease := None)];
      held := Released(held, id);
      return true;
    }

    /** A failed attempt: the wait doubles with every one, up to a thousand seconds and a little. */
    method RetryLater(id: string, fence: Fence) returns (ok: bool)
      modifies this`rows
      ensures Now() == After(old(Now()), id, Retry(fence))
      ensures ok <==> id in old(rows) && Wields(old(rows)[id], fence)
      ensures ok ==>
                && id in rows && rows[id].nextAttemptAt.Some?
                && rows[id].nextAttemptAt.value - fence.now
                   == [1, 2, 4, 8, 16, 32, 64, 128, 256, 512, 1024][if old(rows)[id].attempts < 10
                                                                    then old(rows)[id].attempts else 10] * 1000
                && rows == old(rows)[id := old(rows)[id].(
                     status := if old(rows)[id].committedAt.Some? || old(rows)[id].status in {Committed, Finalizing}
                               then Finalizing else Retrying,
                     lease := None, nextAttemptAt := rows[id].nextAttemptAt)]
      ensures !ok ==> rows == old(rows)
    {
      if id !in rows || !HasLease(rows[id], fence) { return false; }
      var row := rows[id];
      var wait := Power2(if row.attempts < 10 then row.attempts else 10) * 1000;
      Doubles(if row.attempts < 10 then row.attempts else 10);
      hide Power2;
      rows := rows[id := row.(status := RetryStatus(row), lease := None, nextAttemptAt := Some(fence.now + wait))];
      return true;
    }

    /** Only an operator gets any further: the lease ends, but the locks stay taken. */
    method RequireRecovery(id: string, fence: Fence) returns (ok: bool)
      modifies this`rows
      ensures Now() == After(old(Now()), id, Recover(fence))
      ensures ok <==> id in old(rows) && Wields(old(rows)[id], fence)
      ensures ok ==> rows == old(rows)[id := old(rows)[id].(
                       status := NeedsRecovery, lease := None, nextAttemptAt := None)]
      ensures !ok ==> rows == old(rows)
    {
      if id !in rows || !HasLease(rows[id], fence) { return false; }
      rows := rows[id := rows[id].(status := NeedsRecovery, lease := None, nextAttemptAt := None)];
      return true;
    }

    /** Frees the idempotency key, so the same request can be made afresh. */
    method AbortMutation(id: string, fence: Fence) returns (ok: bool)
      modifies this
      ensures Now() == After(old(Now()), id, Abort(fence))
      ensures ok <==>
                && id in old(rows) && MayWrite(old(rows)[id], fence)
                && old(rows)[id].status == Running && old(rows)[id].committedAt.None?
      ensures ok ==>
                && rows == old(rows)[id := old(rows)[id].(
                     status := Aborted, idempotencyKey := None, lease := None, nextAttemptAt := None)]
                && held == Others(old(held), id)
      ensures !ok ==> Now() == old(Now())
    {
      if id !in rows || !Fenced(rows[id], fence) || rows[id].status != Running || rows[id].committedAt.Some? {
        return false;
      }
      rows := rows[id := rows[id].(status := Aborted, idempotencyKey := None, lease := None, nextAttemptAt := None)];
      held := Released(held, id);
      return true;
    }

    /** An operator cuts the wait short, of a mutation that nobody has. */
    method RetryAtOnce(id: string, now: int) returns (ok: bool)
      modifies this`rows
      ensures Now() == After(old(Now()), id, RetryNow(now))
      ensures ok <==> id in old(rows) && old(rows)[id].lease.None? && old(rows)[id].status in {Retrying, Finalizing}
      ensures ok ==> rows == old(rows)[id := old(rows)[id].(nextAttemptAt := Some(now))]
      ensures !ok ==> rows == old(rows)
    {
      if id !in rows || rows[id].lease.Some? { return false; }
      if rows[id].status != Retrying && rows[id].status != Finalizing { return false; }
      rows := rows[id := rows[id].(nextAttemptAt := Some(now))];
      return true;
    }
  }
}
