/**
 * Admission of storage requests: one at a time for each owner, in the order
 * they came, with at most so many waiting in the whole process.
 */
module OwnerQueue {
  import opened Common

  const MAX_WAITING := 32

  datatype Place = Queued | Admitted | Gone

  /**
   * One call of `waitForStorageAdmission`.  `prior` is the ticket whose tail it
   * chained on; `resolved` says its own tail promise has resolved; `counted`
   * says one of its waiters holds a place in the counter.
   */
  datatype Ticket = Ticket(owner: Option<string>, prior: Option<nat>, place: Place, resolved: bool, counted: bool)

  /** Tickets in the order of arrival, the newest tail of each owner, and the counter. */
  datatype Queue = Queue(tickets: seq<Ticket>, tails: map<string, nat>, waiting: nat)

  datatype Event =
    | Ask(owner: Option<string>)  // a request arrives
    | Enter(ticket: nat)          // its turn has come
    | GiveUp(ticket: nat)         // cancelled or timed out while queued
    | Wait(ticket: nat)           // its operation was refused and waits to be tried again
    | Leave(ticket: nat)          // its operation is over
    | Resolve(ticket: nat)        // its tail promise resolves
    | Forget(ticket: nat)         // the tail, resolved, is taken out of the map

  function Set(q: Queue, t: nat, ticket: Ticket): Queue
    requires t < |q.tickets|
  {
    q.(tickets := q.tickets[t := ticket])
  }

  function PriorFor(q: Queue, owner: Option<string>): Option<nat> {
    if owner.Some? && owner.value in q.tails then Some(q.tails[owner.value]) else None
  }

  /** `acquireOwnerTurn` up to its first wait; a full counter turns the request away before it has a place. */
  function Asked(q: Queue, owner: Option<string>): Queue {
    var prior := PriorFor(q, owner);
    if prior.Some? && q.waiting >= MAX_WAITING then q
    else
      Queue(q.tickets + [Ticket(owner, prior, Queued, false, prior.Some?)],
            if owner.Some? then q.tails[owner.value := |q.tickets|] else q.tails,
            q.waiting + if prior.Some? then 1 else 0)
  }

  predicate PriorDone(q: Queue, t: nat)
    requires t < |q.tickets|
  {
    var prior := q.tickets[t].prior;
    prior.Some? ==> prior.value < |q.tickets| && q.tickets[prior.value].resolved
  }

  function Uncount(q: Queue, t: nat): nat
    requires t < |q.tickets|
  {
    if q.tickets[t].counted && q.waiting > 0 then q.waiting - 1 else q.waiting
  }

  function After(q: Queue, e: Event): Queue {
    if e.Ask? then Asked(q, e.owner)
    else if e.ticket >= |q.tickets| then q
    else
      var t, ticket := e.ticket, q.tickets[e.ticket];
      match e
      case Enter(_) =>
        if ticket.place == Queued && PriorDone(q, t)
        then Set(q, t, ticket.(place := Admitted, counted := false)).(waiting := Uncount(q, t)) else q
      case GiveUp(_) =>
        if ticket.place == Queued
        then Set(q, t, ticket.(place := Gone, counted := false)).(waiting := Uncount(q, t)) else q
      case Wait(_) =>
        if ticket.place != Admitted || ticket.counted then q
        else if q.waiting >= MAX_WAITING then Set(q, t, ticket.(place := Gone))
        else Set(q, t, ticket.(counted := true)).(waiting := q.waiting + 1)
      case Leave(_) =>
        if ticket.place == Admitted
        then Set(q, t, ticket.(place := Gone, counted := false)).(waiting := Uncount(q, t)) else q
      case Resolve(_) =>
        if ticket.place == Gone && PriorDone(q, t) then Set(q, t, ticket.(resolved := true)) else q
      case Forget(_) =>
        if ticket.resolved && ticket.owner.Some? && ticket.owner.value in q.tails && q.tails[ticket.owner.value] == t
        then q.(tails := q.tails - {ticket.owner.value}) else q
      case _ => q
  }

  ghost function RunOf(q: Queue, events: seq<Event>): Queue
    decreases events
  {
    if events == [] then q else RunOf(After(q, events[0]), events[1..])
  }

  /** How many tickets hold a place in the counter. */
  function Counted(tickets: seq<Ticket>): nat {
    if tickets == [] then 0
    else Counted(tickets[..|tickets| - 1]) + if tickets[|tickets| - 1].counted then 1 else 0
  }

  // ------------------------------------------------------------------------- invariant

  /** Tickets of one owner chain without a gap, and a tail resolves only after all before it. */
  predicate Linked(q: Queue, i: nat, j: nat)
    requires i < j < |q.tickets|
  {
    q.tickets[i].owner.Some? && q.tickets[i].owner == q.tickets[j].owner ==>
      && (q.tickets[i].resolved || (q.tickets[j].prior.Some? && i <= q.tickets[j].prior.value))
      && (q.tickets[j].resolved ==> q.tickets[i].resolved)
  }

  predicate TicketOk(q: Queue, t: nat)
    requires t < |q.tickets|
  {
    var ticket := q.tickets[t];
    && (ticket.prior.Some? ==>
          && ticket.prior.value < t && ticket.owner.Some? && q.tickets[ticket.prior.value].owner == ticket.owner)
    && (ticket.resolved ==> ticket.place == Gone)
    && (ticket.place == Gone ==> !ticket.counted)
    && (ticket.place == Queued ==> ticket.counted == ticket.prior.Some?)
    && (ticket.place == Admitted ==> PriorDone(q, t))
  }

  predicate TailOk(q: Queue, t: nat)
    requires t < |q.tickets|
  {
    q.tickets[t].owner.Some? ==>
      var owner := q.tickets[t].owner.value;
      if owner in q.tails then t <= q.tails[owner] < |q.tickets| && q.tickets[q.tails[owner]].owner == Some(owner)
      else q.tickets[t].resolved
  }

  ghost predicate Inv(q: Queue) {
    && (forall i, j | 0 <= i < j < |q.tickets| :: Linked(q, i, j))
    && (forall t | 0 <= t < |q.tickets| :: TicketOk(q, t) && TailOk(q, t))
    && (forall owner <- q.tails :: q.tails[owner] < |q.tickets| && q.tickets[q.tails[owner]].owner == Some(owner))
    && q.waiting == Counted(q.tickets) && q.waiting <= MAX_WAITING
  }

  lemma {:induction false} CountSet(tickets: seq<Ticket>, t: nat, ticket: Ticket)
    requires t < |tickets|
    ensures Counted(tickets[t := ticket]) ==
            Counted(tickets) - (if tickets[t].counted then 1 else 0) + (if ticket.counted then 1 else 0)
    ensures tickets[t].counted ==> Counted(tickets) > 0
    decreases |tickets|
  {
    var last := |tickets| - 1;
    if t == last {
      assert tickets[t := ticket][..last] == tickets[..last];
    } else {
      assert tickets[t := ticket][..last] == tickets[..last][t := ticket];
      CountSet(tickets[..last], t, ticket);
    }
  }

  /** Once a ticket's predecessor has resolved, so have all before it. */
  lemma AllBefore(q: Queue, i: nat, j: nat)
    requires Inv(q) && i < j < |q.tickets| && PriorDone(q, j)
    requires q.tickets[i].owner.Some? && q.tickets[i].owner == q.tickets[j].owner
    ensures q.tickets[i].resolved
  {
    assert Linked(q, i, j) && TicketOk(q, j);
    var prior := q.tickets[j].prior;
    if prior.Some? && i < prior.value { assert Linked(q, i, prior.value); }
  }

  lemma AskKeeps(q: Queue, owner: Option<string>)
    requires Inv(q)
    ensures Inv(Asked(q, owner))
  {
    var q', n := Asked(q, owner), |q.tickets|;
    if q' != q {
      assert q'.tickets[..n] == q.tickets;
      forall i, j | 0 <= i < j < |q'.tickets|
        ensures Linked(q', i, j)
      {
        assert TailOk(q, i);
        if j < n { assert Linked(q, i, j); }
      }
      forall t | 0 <= t < |q'.tickets|
        ensures TicketOk(q', t) && TailOk(q', t)
      {
        if t < n { assert TicketOk(q, t) && TailOk(q, t); }
      }
    }
  }

  /** A change to one ticket that keeps its links and does not take its resolution back. */
  lemma SetKeeps(q: Queue, t: nat, ticket: Ticket, waiting: nat)
    requires Inv(q) && t < |q.tickets|
    requires ticket.owner == q.tickets[t].owner && ticket.prior == q.tickets[t].prior
    requires q.tickets[t].resolved ==> ticket.resolved
    requires ticket.resolved && !q.tickets[t].resolved ==> PriorDone(q, t)
    requires TicketOk(Set(q, t, ticket), t)
    requires waiting == Counted(Set(q, t, ticket).tickets) && waiting <= MAX_WAITING
    ensures Inv(Set(q, t, ticket).(waiting := waiting))
  {
    var q' := Set(q, t, ticket).(waiting := waiting);
    forall i, j | 0 <= i < j < |q'.tickets|
      ensures Linked(q', i, j)
    {
      assert Linked(q, i, j);
      if j == t && PriorDone(q, t) && q.tickets[i].owner.Some? && q.tickets[i].owner == q.tickets[j].owner {
        AllBefore(q, i, j);
      }
    }
    forall k | 0 <= k < |q'.tickets|
      ensures TicketOk(q', k) && TailOk(q', k)
    {
      assert TicketOk(q, k) && TailOk(q, k);
      assert TicketOk(Set(q, t, ticket), t);
    }
  }

  lemma ForgetKeeps(q: Queue, t: nat)
    requires Inv(q) && t < |q.tickets|
    ensures Inv(After(q, Forget(t)))
  {
    var q' := After(q, Forget(t));
    if q' != q {
      forall k | 0 <= k < |q.tickets|
        ensures TicketOk(q', k) && TailOk(q', k)
      {
        assert TicketOk(q, k) && TailOk(q, k);
        if k < t { assert Linked(q, k, t); }
      }
      forall i, j | 0 <= i < j < |q.tickets|
        ensures Linked(q', i, j)
      {
        assert Linked(q, i, j);
      }
    }
  }

  lemma Keeps(q: Queue, e: Event)
    requires Inv(q)
    ensures Inv(After(q, e))
  {
    if e.Ask? {
      AskKeeps(q, e.owner);
    } else if e.Forget? {
      if e.ticket < |q.tickets| { ForgetKeeps(q, e.ticket); }
    } else if After(q, e) != q {
      KeepsOne(q, e);
    }
  }

  lemma KeepsOne(q: Queue, e: Event)
    requires Inv(q) && !e.Ask? && !e.Forget? && After(q, e) != q
    ensures Inv(After(q, e))
  {
    var t, q' := e.ticket, After(q, e);
    var ticket := q'.tickets[t];
    CountSet(q.tickets, t, ticket);
    assert TicketOk(q, t);
    assert q' == Set(q, t, ticket).(waiting := q'.waiting);
    SetKeeps(q, t, ticket, q'.waiting);
  }

  lemma {:induction false} RunsKeep(q: Queue, events: seq<Event>)
    requires Inv(q)
    ensures Inv(RunOf(q, events))
    decreases events
  {
    if events != [] {
      Keeps(q, events[0]);
      RunsKeep(After(q, events[0]), events[1..]);
    }
  }

  const EMPTY := Queue([], map[], 0)

  // ------------------------------------------------------------------------ the promises

  /**
   * Over any run: while an owner's operation is under way, everything that
   * owner asked for earlier is over -- cancelled tickets included -- so an owner
   * has one operation at a time, in the order of arrival.
   */
  lemma OneAtATimeInOrder(events: seq<Event>, i: nat, j: nat)
    requires i < j < |RunOf(EMPTY, events).tickets|
    ensures var tickets := RunOf(EMPTY, events).tickets;
            tickets[i].owner.Some? && tickets[i].owner == tickets[j].owner && tickets[j].place == Admitted
            ==> tickets[i].place == Gone
  {
    RunsKeep(EMPTY, events);
    var q := RunOf(EMPTY, events);
    assert TicketOk(q, i) && TicketOk(q, j);
    if q.tickets[i].owner.Some? && q.tickets[i].owner == q.tickets[j].owner && PriorDone(q, j) { AllBefore(q, i, j); }
  }

  /** The counter is the number of live waiters, and never more than the limit. */
  lemma CounterIsExact(events: seq<Event>)
    ensures var q := RunOf(EMPTY, events); q.waiting == Counted(q.tickets) && q.waiting <= 32
  {
    RunsKeep(EMPTY, events);
  }

  /** Once every operation is over, no place is lost: the counter is back at nothing. */
  lemma NoPlaceIsLost(events: seq<Event>)
    requires forall t <- RunOf(EMPTY, events).tickets :: t.place == Gone
    ensures RunOf(EMPTY, events).waiting == 0
  {
    RunsKeep(EMPTY, events);
    var q := RunOf(EMPTY, events);
    forall t | t in q.tickets
      ensures !t.counted
    {
      var k :| 0 <= k < |q.tickets| && q.tickets[k] == t;
      assert TicketOk(q, k);
    }
    NobodyWaits(q.tickets);
  }

  lemma {:induction false} NobodyWaits(tickets: seq<Ticket>)
    requires forall t <- tickets :: !t.counted
    ensures Counted(tickets) == 0
  {
    if tickets != [] { NobodyWaits(tickets[..|tickets| - 1]); }
  }

  /** Whatever the queue does, a tail kept for an owner is that of its newest ticket. */
  lemma TailIsNewest(events: seq<Event>, owner: string)
    requires owner in RunOf(EMPTY, events).tails
    ensures var q := RunOf(EMPTY, events);
            && q.tails[owner] < |q.tickets| && q.tickets[q.tails[owner]].owner == Some(owner)
            && forall t | 0 <= t < |q.tickets| && q.tickets[t].owner == Some(owner) :: t <= q.tails[owner]
  {
    RunsKeep(EMPTY, events);
    var q := RunOf(EMPTY, events);
    forall t | 0 <= t < |q.tickets| && q.tickets[t].owner == Some(owner)
      ensures t <= q.tails[owner]
    {
      assert TailOk(q, t);
    }
  }

  /**
   * Nobody is stuck: down the chain from a ticket that has not resolved there is
   * one that can enter, leave, or resolve its tail right now.
   */
  lemma {:induction false} SomebodyCanMove(q: Queue, t: nat) returns (k: nat, e: Event)
    requires Inv(q) && t < |q.tickets| && !q.tickets[t].resolved
    ensures k <= t && q.tickets[k].owner == q.tickets[t].owner && !e.Ask? && e.ticket == k && !e.GiveUp?
    ensures After(q, e) != q
    decreases t
  {
    assert TicketOk(q, t);
    if PriorDone(q, t) {
      k := t;
      e := match q.tickets[t].place case Queued => Enter(t) case Admitted => Leave(t) case Gone => Resolve(t);
      assert After(q, e).tickets[t] != q.tickets[t];
    } else {
      k, e := SomebodyCanMove(q, q.tickets[t].prior.value);
    }
  }

  /** A ticket is changed by its own events alone, and goes on through queue and turn to its end. */
  lemma TicketGoesOn(q: Queue, e: Event, t: nat)
    requires t < |q.tickets|
    ensures t < |After(q, e).tickets|
    ensures var was, now := q.tickets[t], After(q, e).tickets[t];
            && (now != was ==> !e.Ask? && e.ticket == t)
            && now.owner == was.owner && now.prior == was.prior && (was.resolved ==> now.resolved)
            && (was.place == Gone ==> now.place == Gone)
            && (was.place == Admitted ==> now.place != Queued)
            && (was.place == Queued && now.place == Admitted ==> e == Enter(t))
  {
  }

  lemma {:induction false} GoneStaysGone(q: Queue, t: nat, events: seq<Event>)
    requires t < |q.tickets| && q.tickets[t].place == Gone
    ensures t < |RunOf(q, events).tickets| && RunOf(q, events).tickets[t].place == Gone
    decreases events
  {
    if events != [] {
      TicketGoesOn(q, events[0], t);
      GoneStaysGone(After(q, events[0]), t, events[1..]);
    }
  }

  /** A request that gives up while it is queued gives its place back, and its turn never comes. */
  lemma GivenUpForGood(q: Queue, t: nat, events: seq<Event>)
    requires Inv(q) && t < |q.tickets| && q.tickets[t].place == Queued
    ensures var after := After(q, GiveUp(t));
            && after.waiting == Counted(after.tickets) == q.waiting - (if q.tickets[t].prior.Some? then 1 else 0)
            && t < |RunOf(after, events).tickets| && RunOf(after, events).tickets[t].place == Gone
  {
    Keeps(q, GiveUp(t));
    assert TicketOk(q, t);
    CountSet(q.tickets, t, q.tickets[t]);
    GoneStaysGone(After(q, GiveUp(t)), t, events);
  }

  /** The queue as the code keeps it: a counter and a map that tickets change as they come and go. */
  class Admission {
    var tickets: seq<Ticket>
    var tails: map<string, nat>
    var waiting: nat

    constructor ()
      ensures Now() == EMPTY
    {
      tickets, tails, waiting := [], map[], 0;
    }

    ghost function Now(): Queue
      reads this
    {
      Queue(tickets, tails, waiting)
    }

    /** The waiter's place is taken before anything else, so a refused request leaves no trace. */
    method Arrive(owner: Option<string>) returns (ticket: Option<nat>)
      requires Inv(Now())
      modifies this
      ensures Now() == After(old(Now()), Ask(owner)) && Inv(Now())
      ensures ticket.None? <==> owner.Some? && owner.value in old(tails) && old(waiting) == 32
      ensures ticket.None? ==> Now() == old(Now())
      ensures ticket.Some? ==>
                var prior := if owner.Some? && owner.value in old(tails) then Some(old(tails)[owner.value]) else None;
                && ticket.value == |old(tickets)|
                && tickets == old(tickets) + [Ticket(owner, prior, Queued, false, prior.Some?)]
                && tails == (if owner.Some? then old(tails)[owner.value := ticket.value] else old(tails))
                && waiting == old(waiting) + (if prior.Some? then 1 else 0)
    {
      Keeps(Now(), Ask(owner));
      var prior := if owner.Some? && owner.value in tails then Some(tails[owner.value]) else None;
      if prior.Some? {
        if waiting >= MAX_WAITING { return None; }
        waiting := waiting + 1;
      }
      ticket := Some(|tickets|);
      if owner.Some? { tails := tails[owner.value := |tickets|]; }
      tickets := tickets + [Ticket(owner, prior, Queued, false, prior.Some?)];
    }

    method Release(t: nat)
      requires t < |tickets| && (tickets[t].counted ==> waiting > 0)
      modifies this
      ensures waiting == old(waiting) - (if old(tickets)[t].counted then 1 else 0)
      ensures tickets == old(tickets)[t := old(tickets)[t].(counted := false)] && tails == old(tails)
    {
      if tickets[t].counted { waiting := waiting - 1; }
      tickets := tickets[t := tickets[t].(counted := false)];
    }

    /** The turn comes, or the wait for it is given up; either way the waiter's place is freed. */
    method EndWait(t: nat, turn: bool) returns (ok: bool)
      requires Inv(Now()) && t < |tickets|
      modifies this
      ensures Now() == After(old(Now()), if turn then Enter(t) else GiveUp(t)) && Inv(Now())
      ensures ok <==> old(tickets)[t].place == Queued && (turn ==> old(HasTurn(t)))
      ensures ok ==>
                && tickets == old(tickets)[t := old(tickets)[t].(
                     place := if turn then Admitted else Gone, counted := false)]
                && waiting == old(waiting) - (if old(tickets)[t].prior.Some? then 1 else 0) && tails == old(tails)
      ensures !ok ==> Now() == old(Now())
    {
      Keeps(Now(), if turn then Enter(t) else GiveUp(t));
      CountSet(tickets, t, tickets[t]);
      var prior := tickets[t].prior;
      assert TicketOk(Now(), t);
      if tickets[t].place != Queued || (turn && prior.Some? && !tickets[prior.value].resolved) { return false; }
      Release(t);
      tickets := tickets[t := tickets[t].(place := if turn then Admitted else Gone)];
      return true;
    }

    /** Nobody is before the ticket, or the tail it chained on has resolved. */
    predicate HasTurn(t: nat)
      reads this
    {
      t < |tickets| &&
      (tickets[t].prior.Some? ==> tickets[t].prior.value < |tickets| && tickets[tickets[t].prior.value].resolved)
    }

    /** A refused operation waits to be tried again; with no place to wait in, it is over. */
    method WaitToRetry(t: nat) returns (ok: bool)
      requires Inv(Now()) && t < |tickets|
      modifies this
      ensures Now() == After(old(Now()), Wait(t)) && Inv(Now())
      ensures ok <==> old(tickets)[t].place == Admitted && (old(tickets)[t].counted || old(waiting) < 32)
      ensures ok ==>
                && tickets == old(tickets)[t := old(tickets)[t].(counted := true)] && tails == old(tails)
                && waiting == old(waiting) + (if old(tickets)[t].counted then 0 else 1)
      ensures !ok && old(tickets)[t].place == Admitted ==>
                && tickets == old(tickets)[t := old(tickets)[t].(place := Gone)]
                && tails == old(tails) && waiting == old(waiting)
      ensures !ok && old(tickets)[t].place != Admitted ==> Now() == old(Now())
    {
      Keeps(Now(), Wait(t));
      if tickets[t].place != Admitted { return false; }
      if tickets[t].counted { return true; }
      if waiting >= MAX_WAITING {
        tickets := tickets[t := tickets[t].(place := Gone)];
        return false;
      }
      waiting := waiting + 1;
      tickets := tickets[t := tickets[t].(counted := true)];
      return true;
    }

    method Finish(t: nat)
      requires Inv(Now()) && t < |tickets|
      modifies this
      ensures Now() == After(old(Now()), Leave(t)) && Inv(Now())
      ensures old(tickets)[t].place == Admitted ==>
                && tickets == old(tickets)[t := old(tickets)[t].(place := Gone, counted := false)]
                && waiting == old(waiting) - (if old(tickets)[t].counted then 1 else 0) && tails == old(tails)
      ensures old(tickets)[t].place != Admitted ==> Now() == old(Now())
    {
      Keeps(Now(), Leave(t));
      CountSet(tickets, t, tickets[t]);
      if tickets[t].place == Admitted {
        Release(t);
        tickets := tickets[t := tickets[t].(place := Gone)];
      }
    }

    /** The tail promise resolves once its own operation is over and the tail before it has resolved. */
    method ResolveTail(t: nat) returns (ok: bool)
      requires Inv(Now()) && t < |tickets|
      modifies this`tickets
      ensures Now() == After(old(Now()), Resolve(t)) && Inv(Now())
      ensures ok <==> old(tickets)[t].place == Gone && old(HasTurn(t))
      ensures ok ==> tickets == old(tickets)[t := old(tickets)[t].(resolved := true)]
      ensures !ok ==> tickets == old(tickets)
    {
      Keeps(Now(), Resolve(t));
      assert TicketOk(Now(), t);
      var prior := tickets[t].prior;
      if tickets[t].place != Gone || (prior.Some? && !tickets[prior.value].resolved) { return false; }
      tickets := tickets[t := tickets[t].(resolved := true)];
      return true;
    }

    /** What runs when a tail has resolved: the owner is forgotten unless a newer ticket has come. */
    method ForgetTail(t: nat)
      requires Inv(Now()) && t < |tickets| && tickets[t].resolved
      modifies this`tails
      ensures Now() == After(old(Now()), Forget(t)) && Inv(Now())
      ensures forall owner <- old(tails) ::
                owner in tails && tails[owner] == old(tails)[owner]
                <==> !(tickets[t].owner == Some(owner) && old(tails)[owner] == t)
      ensures forall owner <- tails :: owner in old(tails)
    {
      Keeps(Now(), Forget(t));
      var owner := tickets[t].owner;
      if owner.Some? && owner.value in tails && tails[owner.value] == t { tails := tails - {owner.value}; }
    }
  }
}
