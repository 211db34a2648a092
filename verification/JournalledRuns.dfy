/**
 * A mutation's row in the journal and its run on the disk, side by side: the
 * workers write the journal, in the order the executor writes it, whatever
 * else happens to the journal meanwhile.
 */
module JournalledRuns {
  import opened Common
  import opened Disk
  import opened Steps
  import opened Effects
  import opened Conservation
  import Recovery
  import opened Journal
  import opened Leases
  import opened ResourceLocks
  import Fencing

  type Run = Recovery.Run

  /** The journal has marked the steps the executor takes for applied, and tells how far the mutation is. */
  ghost predicate Tied(row: Row, r: Run) {
    && (forall i :: i in row.marked <==> 0 <= i < |r.steps| && r.steps[i].applied)
    && (r.committed <==> row.committedAt.Some?)
    && match r.status
       case Running =>
         row.status == NeedsRecovery ||
         (if r.committed then row.status == Committed else row.status in {Prepared, Running, Retrying})
       case Finalizing => row.status in {Finalizing, NeedsRecovery}
       case Succeeded => row.status == Succeeded
       case Recovering =>
         row.status in (if r.committed then {Finalizing, NeedsRecovery}
           else {Prepared, Running, Retrying, NeedsRecovery})
       case Aborted => row.status == Aborted
  }

  /** What the executor writes when: a mark after the step, each end after its phase, no end once it has stopped. */
  ghost predicate InOrder(r: Run, op: Op) {
    match op
    case Mark(_, step) => Recovery.Moved(r, Recovery.Mark) != r && step == Recovery.Next(r)
    case Commit(_) => Recovery.Moved(r, Recovery.Commit) != r
    case Complete(_) => Recovery.Moved(r, Recovery.Complete) != r
    case Abort(_) => r.status == Recovery.Running
    case _ => true
  }

  /** What an operation that took effect means for the run. */
  ghost function Follows(r: Run, row: Row, op: Op): Run {
    match op
    case Claim(_, _, _, _) => Recovery.Moved(r, Recovery.Crash)
    case ClaimFinal(_, _, _, _) => Recovery.Moved(Recovery.Moved(r, Recovery.Crash), Recovery.Finalize)
    case Mark(_, _) => Recovery.Moved(r, Recovery.Mark)
    case Commit(_) => Recovery.Moved(r, Recovery.Commit)
    case Begin(_) => Recovery.Moved(r, Recovery.Finalize)
    case Complete(_) => Recovery.Moved(r, Recovery.Complete)
    case Retry(_) => Recovery.Moved(Recovery.Moved(r, Recovery.Crash), Recovery.Finalize)
    case Abort(_) => Recovery.Moved(r, Recovery.Abort)
    case _ => r
  }

  /** A filesystem call, or one operation on some mutation of the journal. */
  datatype Turn = OnDisk(event: Recovery.Event) | Write(call: Call)

  datatype Both = Both(s: State, r: Run)

  /** Events that leave the journal alone. */
  predicate DiskOnly(e: Recovery.Event) {
    e.Work? || e.CutOff? || e.Crash? || e.Undo? || e.CutUndo?
  }

  /** The write is one to `id` that takes effect. */
  predicate Lands(s: State, id: string, call: Call) {
    id in s.rows && call.id == id && Journal.After(s, id, call.op) != s
  }

  ghost function Taken(b: Both, id: string, turn: Turn): Both {
    match turn
    case OnDisk(e) => if DiskOnly(e) then b.(r := Recovery.Moved(b.r, e)) else b
    case Write(call) =>
      Both(Journal.After(b.s, call.id, call.op),
           if Lands(b.s, id, call) then Follows(b.r, b.s.rows[id], call.op) else b.r)
  }

  ghost function AllTaken(b: Both, id: string, turns: seq<Turn>): Both
    decreases turns
  {
    if turns == [] then b else AllTaken(Taken(b, id, turns[0]), id, turns[1..])
  }

  /** Over the turns, the writes to `id` that take effect come in the executor's order. */
  ghost predicate Orderly(b: Both, id: string, turns: seq<Turn>)
    decreases turns
  {
    turns != [] ==>
      && (turns[0].Write? && Lands(b.s, id, turns[0].call) ==> InOrder(b.r, turns[0].call.op))
      && Orderly(Taken(b, id, turns[0]), id, turns[1..])
  }

  /** One operation on the mutation's own row. */
  lemma WriteKeepsTied(s: State, r: Run, id: string, op: Op)
    requires id in s.rows && RowOk(s.rows[id]) && Tied(s.rows[id], r)
    requires Journal.After(s, id, op) != s && InOrder(r, op)
    ensures id in Journal.After(s, id, op).rows
    ensures Tied(Journal.After(s, id, op).rows[id], Follows(r, s.rows[id], op))
  {
    hide Power2, Check, ResourceLocks.Claimed, Released, Recovery.NextFrom;
  }

  lemma DiskKeepsTied(row: Row, r: Run, e: Recovery.Event)
    requires Tied(row, r) && RowOk(row) && DiskOnly(e)
    ensures Tied(row, Recovery.Moved(r, e))
  {
    hide ApplyStep, UndoStep, OwnedQuarantine;
  }

  ghost predicate InStep(start: Disk, b: Both, id: string) {
    Inv(b.s) && id in b.s.rows && Tied(b.s.rows[id], b.r) && Recovery.Whole(start, b.r)
  }

  lemma TurnKeepsStep(start: Disk, b: Both, id: string, turn: Turn)
    requires InStep(start, b, id)
    requires turn.Write? && Lands(b.s, id, turn.call) ==> InOrder(b.r, turn.call.op)
    ensures InStep(start, Taken(b, id, turn), id)
  {
    assert RowOk(b.s.rows[id]);
    match turn
    case OnDisk(e) =>
      if DiskOnly(e) { DiskKeepsTied(b.s.rows[id], b.r, e); Recovery.KeepsWhole(start, b.r, e); }
      hide Inv, Tied, Recovery.Whole, Recovery.Moved;
    case Write(call) =>
      KeepsInv(b.s, call.id, call.op);
      if Lands(b.s, id, call) {
        WriteKeepsTied(b.s, b.r, id, call.op);
        FollowsKeepsWhole(start, b.r, b.s.rows[id], call.op);
      } else if call.id != id {
        OthersStay(b.s, call.id, call.op, id);
      }
      hide Inv, Tied, Recovery.Whole, Follows, Journal.After;
  }

  lemma FollowsKeepsWhole(start: Disk, r: Run, row: Row, op: Op)
    requires Recovery.Whole(start, r)
    ensures Recovery.Whole(start, Follows(r, row, op))
  {
    Recovery.KeepsWhole(start, r, Recovery.Crash);
    Recovery.KeepsWhole(start, r, Recovery.Mark);
    Recovery.KeepsWhole(start, r, Recovery.Commit);
    Recovery.KeepsWhole(start, r, Recovery.Finalize);
    Recovery.KeepsWhole(start, r, Recovery.Complete);
    Recovery.KeepsWhole(start, r, Recovery.Abort);
    Recovery.KeepsWhole(start, Recovery.Moved(r, Recovery.Crash), Recovery.Finalize);
    hide Recovery.Whole, Recovery.Moved;
  }

  lemma {:induction false} TurnsKeepStep(start: Disk, b: Both, id: string, turns: seq<Turn>)
    requires InStep(start, b, id) && Orderly(b, id, turns)
    ensures InStep(start, AllTaken(b, id, turns), id)
    decreases turns
  {
    if turns != [] {
      TurnKeepsStep(start, b, id, turns[0]);
      TurnsKeepStep(start, Taken(b, id, turns[0]), id, turns[1..]);
    }
  }

  /**
   * From the moment a mutation is prepared, through any workers, takeovers,
   * crashes and other mutations: the journal has marked exactly the steps that
   * the executor takes for applied, and until it says that cleanup has begun
   * every file's contents are on the disk.
   */
  lemma JournalTellsTheDisk(start: Disk, plan: seq<Step>, s: State, id: string, op: Op, turns: seq<Turn>)
    requires IsTree(start) && (forall step <- plan :: !step.applied)
    requires Inv(s) && op.Prepare? && id !in s.rows && Journal.After(s, id, op) != s
    requires Orderly(Both(Journal.After(s, id, op), Recovery.Begin(start, plan)), id, turns)
    ensures var b := AllTaken(Both(Journal.After(s, id, op), Recovery.Begin(start, plan)), id, turns);
            && id in b.s.rows
            && (forall i :: i in b.s.rows[id].marked <==> 0 <= i < |b.r.steps| && b.r.steps[i].applied)
            && (b.s.rows[id].committedAt.Some? <==> b.r.committed)
            && (b.s.rows[id].committedAt.None? || b.s.rows[id].status == Committed ==>
                  Bag(Files(b.r.disk)) == Bag(Files(start)))
  {
    var b := Both(Journal.After(s, id, op), Recovery.Begin(start, plan));
    PreparedInStep(start, plan, s, id, op);
    TurnsKeepStep(start, b, id, turns);
    InStepMeans(start, AllTaken(b, id, turns), id);
    hide *;
  }

  lemma PreparedInStep(start: Disk, plan: seq<Step>, s: State, id: string, op: Op)
    requires IsTree(start) && (forall step <- plan :: !step.applied)
    requires Inv(s) && op.Prepare? && id !in s.rows && Journal.After(s, id, op) != s
    ensures InStep(start, Both(Journal.After(s, id, op), Recovery.Begin(start, plan)), id)
  {
    KeepsInv(s, id, op);
    OnlyItsRow(s, id, op);
    hide Inv, Check, KeyTaken;
  }

  lemma InStepMeans(start: Disk, b: Both, id: string)
    requires InStep(start, b, id)
    ensures id in b.s.rows
    ensures forall i :: i in b.s.rows[id].marked <==> 0 <= i < |b.r.steps| && b.r.steps[i].applied
    ensures b.s.rows[id].committedAt.Some? <==> b.r.committed
    ensures b.s.rows[id].committedAt.None? || b.s.rows[id].status == Committed ==>
              Bag(Files(b.r.disk)) == Bag(Files(start))
  {
    hide Inv, IsTree, Bag, Files;
  }
}
