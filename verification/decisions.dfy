/** What the transactions of the booking protocol decide, said about the rows they read. */
module ProtocolDecisions {
  import opened Wrappers
  import opened Appointments
  import opened SlotOccupancy
  import opened Scheduling
  import opened Queries
  import opened Runs
  import opened FreeSlots
  import opened BookingCriteria
  import opened MoveCriteria
  import opened BookingProtocol

  /** What a transaction wants, and how many places count: those of its service, or one if it takes no lock. */
  function WishOfJob(job: Job): Wish {
    match job
    case BookJob(business, service, _, professional, at, durationMinutes, _) =>
      Wish(business, service, professional, None, at, at + 60 * durationMinutes)
    case MoveJob(apt, at, _) => WishToMove(apt, at)
  }

  function CapacityOfJob(db: Db, job: Job): int {
    var service := if job.BookJob? then job.service else job.apt.service;
    if (job.BookJob? || job.withServices) && service in db.services then db.services[service].capacity else 1
  }

  /** The time is free, the new start is in the future, and a moved appointment was read open. */
  predicate MayWrite(db: Db, job: Job, now: int) {
    && IsFree(db.rows, db.services, WishOfJob(job), CapacityOfJob(db, job))
    && now < job.at
    && (job.BookJob? ==> job.durationMinutes >= 1)
    && (job.MoveJob? ==> job.apt.status != Completed && job.apt.status != Cancelled)
  }

  lemma EvaluationOfListIsExact(db: Db, job: Job)
    ensures EvaluationOf(db, job, ListFor(db, job)).IsBookable()
       <==> IsFree(db.rows, db.services, WishOfJob(job), CapacityOfJob(db, job))
  {
    var w := WishOfJob(job);
    var r := job.Candidate();
    EvaluationIsExact(db.rows, db.services, w, CapacityOfJob(db, job),
                      if job.Locks() then
                        CapacityMap(db.services, ServicesOf(FreeSlots.Listed(db.rows, w)) + {r.service})
                      else map[]);
  }

  /** A transaction that has just listed is accepted if and only if it may write; if not, it lets go of its lock. */
  lemma DecisionIsExact(s: State, t: TxId, now: int)
    requires t in s.txs && s.txs[t].phase == Phase.Listed(ListFor(s.db, s.txs[t].job))
    ensures var (job, next) := (s.txs[t].job, Next(s, Decide(t, now)).value);
            && next.db == s.db && next.txs[t].job == job
            && next.txs[t].phase == (if MayWrite(s.db, job, now) then Accepted else Failed)
            && (!MayWrite(s.db, job, now) && job.Locks() ==> job.Candidate().service !in next.locks)
  {
    EvaluationOfListIsExact(s.db, s.txs[t].job);
  }

  /** A booking whose client already has the seat ends before it takes the lock; any other one goes on. */
  lemma SeatCheckIsExact(s: State, t: TxId)
    requires t in s.txs && s.txs[t].phase.Started? && s.txs[t].job.BookJob?
    ensures var (job, next) := (s.txs[t].job, Next(s, CheckSeat(t)).value);
            && next.db == s.db
            && next.txs[t].phase
               == if exists i :: 0 <= i < |s.db.rows| && IsSeat(s.db.rows[i], job.client, job.service, job.at)
                  then Done else Checked
  {
    var job := s.txs[t].job;
    FindSeatExact(s.db.rows, job.client, job.service, job.at);
    if i :| 0 <= i < |s.db.rows| && IsSeat(s.db.rows[i], job.client, job.service, job.at) {
      assert HoldsSeat(s.db.rows[i], job.client, job.service, job.at);
    }
    if i :| 0 <= i < |s.db.rows| && HoldsSeat(s.db.rows[i], job.client, job.service, job.at) {
      assert IsSeat(s.db.rows[i], job.client, job.service, job.at);
    }
  }

  /** An update waits for the commit of another one on its row, and for nothing else. */
  lemma UpdateWaitsIff(s: State, t: TxId)
    requires t in s.txs && s.txs[t].phase.Selected? && s.txs[t].job.MoveJob?
    ensures Next(s, Flush(t)).None? <==>
            exists u :: u in s.txs && s.txs[u].phase.Flushed? && s.txs[u].job.MoveJob?
                        && s.txs[u].job.apt.id == s.txs[t].job.apt.id
  {
  }

  /** So does a closing's. */
  lemma LandingWaitsIff(s: State, c: TxId, now: int)
    requires c in s.readings && s.readings[c].WillWrite() && (s.readings[c].base.Some? || s.readings[c].ByColumn())
    ensures Next(s, Land(c, now)).None? <==>
            exists u :: u in s.txs && s.txs[u].phase.Flushed? && s.txs[u].job.MoveJob?
                        && s.txs[u].job.apt.id == s.readings[c].row.id
  {
  }

  /** A transaction that is to lock its service waits exactly while another one holds it. */
  lemma LockWaitsIff(s: State, t: TxId)
    requires t in s.txs && s.txs[t].job.Locks()
    requires if s.txs[t].job.BookJob? then s.txs[t].phase.Checked? else s.txs[t].phase.Started?
    ensures Next(s, Lock(t)).None? <==> s.txs[t].job.Candidate().service in s.locks
  {
  }
}
