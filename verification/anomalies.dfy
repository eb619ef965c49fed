/**
  What the booking protocol does not give. An undisturbed transaction does what the
  sequential use case does; the interleavings shown here do not.
 */
module ProtocolAnomalies {
  import opened Wrappers
  import opened Appointments
  import opened SlotOccupancy
  import opened Scheduling
  import opened Queries
  import opened Runs
  import opened BookingLedger
  import opened BookingProtocol

  lemma ExecuteStep(s: State, step: ProtocolStep, rest: seq<ProtocolStep>)
    requires Next(s, step).Some?
    ensures Execute(s, [step] + rest) == Execute(Next(s, step).value, rest)
  {
    assert ([step] + rest)[1..] == rest;
  }

  lemma {:induction false} ExecuteConcat(s: State, a: seq<ProtocolStep>, b: seq<ProtocolStep>)
    requires Execute(s, a).Some?
    ensures Execute(s, a + b) == Execute(Execute(s, a).value, b)
    decreases |a|
  {
    if a == [] {
      assert a + b == b;
    } else {
      assert (a + b)[1..] == a[1..] + b;
      ExecuteConcat(Next(s, a[0]).value, a[1..], b);
    }
  }

  /** From the listing on: the steps of a booking that is not interrupted again. */
  function Finish(t: TxId, now: int): seq<ProtocolStep> { [Decide(t, now)] + ([Flush(t)] + ([Commit(t)] + [])) }

  lemma FinishCommits(s: State, t: TxId, now: int)
    requires t in s.txs && s.txs[t].phase.Listed? && s.txs[t].job.BookJob?
    requires EvaluationOf(s.db, s.txs[t].job, s.txs[t].phase.booked).IsBookable() && WriteAllowed(s.txs[t].job, now)
    ensures Execute(s, Finish(t, now)) ==
            Some(s.(db := Write(s.db, s.txs[t].job, None), txs := s.txs[t := Tx(s.txs[t].job, Done)],
                    locks := s.locks - {s.txs[t].job.service}))
  {
    ExecuteStep(s, Decide(t, now), [Flush(t)] + ([Commit(t)] + []));
    var a := Next(s, Decide(t, now)).value;
    ExecuteStep(a, Flush(t), [Commit(t)] + []);
    var b := Next(a, Flush(t)).value;
    ExecuteStep(b, Commit(t), []);
    assert b.txs[t := Tx(s.txs[t].job, Done)] == s.txs[t := Tx(s.txs[t].job, Done)];
  }

  /** The update of a merge that nobody interrupts writes the whole entity. */
  lemma MergedAtOnce(current: Row, target: Row)
    requires SameAppointment(current, target)
    ensures Merged(current, current, target) == target
  {
  }

  /** From the acceptance on: the steps of a move that is not interrupted again. */
  function FinishMove(t: TxId): seq<ProtocolStep> { [Select(t)] + ([Flush(t)] + ([Commit(t)] + [])) }

  lemma FinishMoveCommits(s: State, t: TxId)
    requires t in s.txs && s.txs[t].phase.Accepted? && s.txs[t].job.MoveJob?
    requires StillThere(s.db, s.txs[t].job.apt) && !RowBusy(s, s.txs[t].job.apt.id)
    ensures var job := s.txs[t].job;
            var k := IndexOf(s.db.rows, job.apt.id);
            Execute(s, FinishMove(t)) ==
            Some(s.(db := s.db.(rows := s.db.rows[k := job.Candidate()]), txs := s.txs[t := Tx(job, Done)],
                    locks := if job.Locks() then s.locks - {job.apt.service} else s.locks))
  {
    var job := s.txs[t].job;
    var current := s.db.rows[IndexOf(s.db.rows, job.apt.id)];
    ExecuteStep(s, Select(t), [Flush(t)] + ([Commit(t)] + []));
    var a := Next(s, Select(t)).value;
    assert a == SetPhase(s, t, Selected(current)) && !RowBusy(a, job.apt.id);
    ExecuteStep(a, Flush(t), [Commit(t)] + []);
    var b := Next(a, Flush(t)).value;
    ExecuteStep(b, Commit(t), []);
    MergedAtOnce(current, job.Candidate());
    assert b.txs[t := Tx(job, Done)] == s.txs[t := Tx(job, Done)];
  }

  /** From the idempotency check on. */
  function LockAndBook(t: TxId, now: int): seq<ProtocolStep> { [Lock(t)] + ([List(t)] + Finish(t, now)) }

  lemma LockAndBookCommits(s: State, t: TxId, now: int)
    requires t in s.txs && s.txs[t].phase.Checked? && s.txs[t].job.BookJob?
    requires s.txs[t].job.service !in s.locks
    requires EvaluationOf(s.db, s.txs[t].job, ListFor(s.db, s.txs[t].job)).IsBookable()
    requires WriteAllowed(s.txs[t].job, now)
    ensures Execute(s, LockAndBook(t, now)) ==
            Some(s.(db := Write(s.db, s.txs[t].job, None), txs := s.txs[t := Tx(s.txs[t].job, Done)]))
  {
    ExecuteStep(s, Lock(t), [List(t)] + Finish(t, now));
    var a := Next(s, Lock(t)).value;
    ExecuteStep(a, List(t), Finish(t, now));
    var b := Next(a, List(t)).value;
    FinishCommits(b, t, now);
    assert b.locks - {s.txs[t].job.service} == s.locks;
    assert b.txs[t := Tx(s.txs[t].job, Done)] == s.txs[t := Tx(s.txs[t].job, Done)];
  }

  function WholeBooking(t: TxId, job: Job, now: int): seq<ProtocolStep> {
    [Begin(t, job)] + ([CheckSeat(t)] + LockAndBook(t, now))
  }

  lemma WholeBookingCommits(s: State, t: TxId, job: Job, now: int)
    requires t !in s.txs && job.BookJob? && Readable(s, job) && job.service !in s.locks
    requires FindSeat(s.db.rows, job.client, job.service, job.at).None?
    requires EvaluationOf(s.db, job, ListFor(s.db, job)).IsBookable() && WriteAllowed(job, now)
    ensures Execute(s, WholeBooking(t, job, now)) ==
            Some(s.(db := Write(s.db, job, None), txs := s.txs[t := Tx(job, Done)]))
  {
    ExecuteStep(s, Begin(t, job), [CheckSeat(t)] + LockAndBook(t, now));
    var a := Next(s, Begin(t, job)).value;
    ExecuteStep(a, CheckSeat(t), LockAndBook(t, now));
    var b := Next(a, CheckSeat(t)).value;
    LockAndBookCommits(b, t, now);
    assert b.txs[t := Tx(job, Done)] == s.txs[t := Tx(job, Done)];
  }

  /** An undisturbed transaction refines the sequential booking: it commits the row that BookStep appends. */
  lemma UndisturbedIsSequential(s: State, t: TxId, input: BookInput, withProfessionals: bool, now: int,
                                freshClient: Id, freshRow: Id)
    requires ProtocolInv(s) && t !in s.txs && input.service !in s.locks
    requires var (next, result) := BookStep(s.db, input, withProfessionals, now, freshClient, freshRow);
             result.Ok? && !result.value.alreadyBooked
    requires forall i :: 0 <= i < |s.db.rows| ==> s.db.rows[i].id != freshRow
    requires forall u :: u in s.txs && s.txs[u].job.BookJob? ==> s.txs[u].job.rowId != freshRow
    ensures var r := BookStep(s.db, input, withProfessionals, now, freshClient, freshRow).1.value.appointment;
            var job := BookJob(r.business, r.service, r.client, r.professional, r.scheduledAt, r.durationMinutes, r.id);
            && Execute(s, WholeBooking(t, job, now)).Some?
            && Execute(s, WholeBooking(t, job, now)).value.db.rows
               == BookStep(s.db, input, withProfessionals, now, freshClient, freshRow).0.rows
  {
    var r := BookStep(s.db, input, withProfessionals, now, freshClient, freshRow).1.value.appointment;
    var job := BookJob(r.business, r.service, r.client, r.professional, r.scheduledAt, r.durationMinutes, r.id);
    WholeBookingCommits(s, t, job, now);
  }

  /** Up to the acceptance: the steps of a move that is not interrupted. */
  function AcceptMove(t: TxId, job: Job, now: int): seq<ProtocolStep> {
    [Begin(t, job)] + ([Lock(t)] + ([List(t)] + ([Decide(t, now)] + [])))
  }

  lemma AcceptMoveRuns(s: State, t: TxId, job: Job, now: int)
    requires t !in s.txs && job.MoveJob? && Readable(s, job) && (job.Locks() ==> job.apt.service !in s.locks)
    requires EvaluationOf(s.db, job, ListFor(s.db, job)).IsBookable() && WriteAllowed(job, now)
    ensures Execute(s, AcceptMove(t, job, now)) ==
            Some(s.(txs := s.txs[t := Tx(job, Accepted)],
                    locks := if job.Locks() then s.locks[job.apt.service := t] else s.locks))
  {
    ExecuteStep(s, Begin(t, job), [Lock(t)] + ([List(t)] + ([Decide(t, now)] + [])));
    var a := Next(s, Begin(t, job)).value;
    ExecuteStep(a, Lock(t), [List(t)] + ([Decide(t, now)] + []));
    var b := Next(a, Lock(t)).value;
    ExecuteStep(b, List(t), [Decide(t, now)] + []);
    var c := Next(b, List(t)).value;
    ExecuteStep(c, Decide(t, now), []);
    assert c.txs[t := Tx(job, Accepted)] == s.txs[t := Tx(job, Accepted)];
  }

  function WholeMove(t: TxId, job: Job, now: int): seq<ProtocolStep> { AcceptMove(t, job, now) + FinishMove(t) }

  lemma WholeMoveCommits(s: State, t: TxId, job: Job, now: int)
    requires t !in s.txs && job.MoveJob? && Readable(s, job) && !RowBusy(s, job.apt.id)
    requires job.Locks() ==> job.apt.service !in s.locks
    requires EvaluationOf(s.db, job, ListFor(s.db, job)).IsBookable() && WriteAllowed(job, now)
    ensures var k := IndexOf(s.db.rows, job.apt.id);
            Execute(s, WholeMove(t, job, now)) ==
            Some(s.(db := s.db.(rows := s.db.rows[k := job.Candidate()]), txs := s.txs[t := Tx(job, Done)]))
  {
    AcceptMoveRuns(s, t, job, now);
    var d := Execute(s, AcceptMove(t, job, now)).value;
    StillFree(s, d, t, job.apt.id);
    FinishMoveCommits(d, t);
    ExecuteConcat(s, AcceptMove(t, job, now), FinishMove(t));
    assert d.txs[t := Tx(job, Done)] == s.txs[t := Tx(job, Done)];
    assert job.Locks() ==> d.locks - {job.apt.service} == s.locks;
  }

  lemma StillFree(s: State, later: State, t: TxId, id: Id)
    requires !RowBusy(s, id) && t in later.txs && !later.txs[t].phase.Flushed?
    requires forall u :: u in later.txs && u != t ==> u in s.txs && later.txs[u] == s.txs[u]
    ensures !RowBusy(later, id)
  {
  }

  /** An undisturbed move, with the lock or without, does what the sequential move does. */
  lemma UndisturbedMoveIsSequential(s: State, t: TxId, id: Id, at: int, now: int, withServices: bool)
    requires t !in s.txs && !RowBusy(s, id) && MoveStep(s.db, id, at, true, now, withServices).1.Ok?
    requires withServices ==> s.db.rows[IndexOf(s.db.rows, id)].service !in s.locks
    ensures var job := MoveJob(s.db.rows[IndexOf(s.db.rows, id)], at, withServices);
            && Execute(s, WholeMove(t, job, now)).Some?
            && Execute(s, WholeMove(t, job, now)).value.db == MoveStep(s.db, id, at, true, now, withServices).0
  {
    var job := MoveJob(s.db.rows[IndexOf(s.db.rows, id)], at, withServices);
    WholeMoveCommits(s, t, job, now);
  }

  // ---------- a move without the catalogue ----------

  function SoloDb(rows: seq<Row>): Db { Db(map[1 := ONE_TO_ONE], map[], map[], [], rows) }

  function SoloRow(id: Id, client: Id, at: int): Row {
    Row(id, 1, 1, client, None, at, 60, Pending, None, None, None, None)
  }

  lemma SoloQuiet(p: Row)
    requires p.service == 1 && p.business == 1 && p.Valid() && p.professional == None
    ensures ProtocolInv(State(SoloDb([p]), map[], map[], map[]))
  {
    var db := SoloDb([p]);
    forall x: Session
      ensures Seats([p], x) <= CapacityOf(Caps(db), x.service)
    {
      assert [p][1..] == [];
      assert Seats([p], x) == (if InSession(p, x) then 1 else 0) + Seats([], x);
    }
    assert Inv(db);
    QuietStateIsSafe(db);
  }

  const NEWCOMER := BookJob(1, 1, 8, None, 7200, 60, 11)

  /** The unlocked move of appointment 10 to 7200 reads and lists, then a booking of 7200 runs, then the move ends. */
  function RaceSteps(): seq<ProtocolStep> {
    UnlockedListing() + (WholeBooking(2, NEWCOMER, 0) + ([Decide(1, 0)] + FinishMove(1)))
  }

  function UnlockedListing(): seq<ProtocolStep> {
    [Begin(1, MoveJob(SoloRow(10, 7, 14400), 7200, false))] + ([Lock(1)] + ([List(1)] + []))
  }

  lemma UnlockedListingRuns(s: State, p: Row)
    requires p == SoloRow(10, 7, 14400) && s == State(SoloDb([p]), map[], map[], map[])
    ensures Execute(s, UnlockedListing()) ==
            Some(s.(txs := map[1 := Tx(MoveJob(p, 7200, false), Listed([]))]))
  {
    var job := MoveJob(p, 7200, false);
    ExecuteStep(s, Begin(1, job), [Lock(1)] + ([List(1)] + []));
    var a := Next(s, Begin(1, job)).value;
    ExecuteStep(a, Lock(1), [List(1)] + []);
    var b := Next(a, Lock(1)).value;
    ExecuteStep(b, List(1), []);
    assert [p][1..] == [];
    assert ActiveInRange([p], 1, 7200, 10800, None) == [];
    assert ListFor(s.db, job) == [];
    assert Next(b, List(1)).value.txs == map[1 := Tx(job, Listed([]))];
  }

  lemma UnlockedMoveEnds(s: State, p: Row, q: Row)
    requires p == SoloRow(10, 7, 14400) && q == SoloRow(11, 8, 7200) && s.db == SoloDb([p, q])
    requires s.txs == map[1 := Tx(MoveJob(p, 7200, false), Listed([])), 2 := Tx(NEWCOMER, Done)]
    ensures Execute(s, [Decide(1, 0)] + FinishMove(1)).Some?
    ensures Execute(s, [Decide(1, 0)] + FinishMove(1)).value.db
         == SoloDb([p.(scheduledAt := 7200, status := Rescheduled), q])
  {
    ExecuteStep(s, Decide(1, 0), FinishMove(1));
    var a := Next(s, Decide(1, 0)).value;
    assert IndexOf([p, q], 10) == 0;
    assert a.txs[1].phase.Accepted? && a.txs[2] == Tx(NEWCOMER, Done);
    assert forall u :: u in a.txs ==> u == 1 || u == 2;
    FinishMoveCommits(a, 1);
  }

  lemma RaceEnds(s: State, p: Row)
    requires p == SoloRow(10, 7, 14400) && s == State(SoloDb([p]), map[], map[], map[])
    ensures Execute(s, RaceSteps()).Some?
    ensures Execute(s, RaceSteps()).value.db
         == SoloDb([p.(scheduledAt := 7200, status := Rescheduled), SoloRow(11, 8, 7200)])
  {
    UnlockedListingRuns(s, p);
    var a := Execute(s, UnlockedListing()).value;
    assert [p][1..] == [];
    assert ListFor(a.db, NEWCOMER) == [];
    WholeBookingCommits(a, 2, NEWCOMER, 0);
    var b := Execute(a, WholeBooking(2, NEWCOMER, 0)).value;
    assert b.db.rows == [p, SoloRow(11, 8, 7200)];
    UnlockedMoveEnds(b, p, SoloRow(11, 8, 7200));
    ExecuteConcat(a, WholeBooking(2, NEWCOMER, 0), [Decide(1, 0)] + FinishMove(1));
    ExecuteConcat(s, UnlockedListing(), WholeBooking(2, NEWCOMER, 0) + ([Decide(1, 0)] + FinishMove(1)));
  }

  lemma Overfull(db: Db, a: Row, b: Row)
    requires db == SoloDb([a, b]) && a.IsLive() && b.IsLive() && a.Place() == b.(id := a.id, client := a.client).Place()
    requires a.service == 1 && a.durationMinutes >= 1
    ensures !Safe(db)
  {
    assert !OneSession(db.rows[0], db.rows[1], Caps(db));
  }

  /**
    A move that is given no catalogue takes no lock: from a quiet and safe agenda,
    with bookings and moves alone and no closing in sight, one such move racing one
    booking puts two appointments into a place for one.
   */
  lemma UnlockedMoveBreaksSafety()
    ensures exists s: State, steps: seq<ProtocolStep> ::
              && ProtocolInv(s) && s.txs == map[] && s.readings == map[]
              && (forall step :: step in steps ==> !step.Read?)
              && Execute(s, steps).Some? && !Safe(Execute(s, steps).value.db)
  {
    var p := SoloRow(10, 7, 14400);
    var s := State(SoloDb([p]), map[], map[], map[]);
    SoloQuiet(p);
    RaceEnds(s, p);
    Overfull(Execute(s, RaceSteps()).value.db, p.(scheduledAt := 7200, status := Rescheduled), SoloRow(11, 8, 7200));
    RaceReadsNothing();
  }

  lemma RaceReadsNothing()
    ensures forall step :: step in RaceSteps() ==> !step.Read?
  {
    assert forall step :: step in WholeBooking(2, NEWCOMER, 0) ==> !step.Read?;
  }

  /** A row that replaces another keeps a safe agenda safe if and only if it takes no more, or fits. */
  lemma ReplaceIsSafeIff(db: Db, k: nat, w: Row)
    requires Placed(db) && Safe(db) && k < |db.rows| && w.id == db.rows[k].id && RowPlaced(w, db.services)
    ensures Safe(db.(rows := db.rows[k := w])) <==> TakesNoMore(w, db.rows[k]) || FitsNow(db, w)
  {
    var after := db.(rows := db.rows[k := w]);
    if TakesNoMore(w, db.rows[k]) || FitsNow(db, w) {
      ReplaceSafe(db, k, w);
    }
    if Safe(after) && w.IsLive() {
      SafeMeansFits(db, after, k, w);
    }
  }

  /**
    What a commit without the lock would have to check: on a safe agenda, a booking
    keeps it safe if and only if its row fits the rows committed by then, and a move
    if and only if the row as it is updated fits or takes no more than it did.
   */
  lemma WriteIsSafeIff(db: Db, job: Job, merged: Option<Row>)
    requires Placed(db) && Safe(db) && JobFits(db, Tx(job, Accepted)) && (job.MoveJob? ==> merged.Some?)
    ensures Safe(Write(db, job, merged)) <==>
            if job.BookJob? then FitsNow(db, job.Candidate())
            else
              var current := db.rows[IndexOf(db.rows, job.apt.id)];
              var w := Merged(current, merged.value, job.Candidate());
              TakesNoMore(w, current) || FitsNow(db, w)
  {
    var r, after := job.Candidate(), Write(db, job, merged);
    if job.BookJob? {
      if FitsNow(db, r) { AppendSafe(db, r); }
      if Safe(after) { SafeMeansFits(db, after, |db.rows|, r); }
    } else {
      var k := IndexOf(db.rows, job.apt.id);
      assert RowPlaced(db.rows[k], db.services);
      ReplaceIsSafeIff(db, k, Merged(db.rows[k], merged.value, r));
    }
  }

  lemma SafeMeansFits(db: Db, after: Db, k: nat, r: Row)
    requires UniqueIds(db.rows) && Safe(after) && after.services == db.services && r.IsLive()
    requires if k == |db.rows| then
               after.rows == db.rows + [r] && forall i :: 0 <= i < |db.rows| ==> db.rows[i].id != r.id
             else k < |db.rows| && r.id == db.rows[k].id && after.rows == db.rows[k := r]
    ensures FitsNow(db, r)
  {
    var x := SessionOf(r);
    assert Seats(after.rows, x) <= CapacityOf(Caps(after), x.service);
    if k == |db.rows| {
      SeatsAppend(db.rows, r, x);
      OtherSeatsAbsent(db.rows, x, r.id);
    } else {
      SeatsUpdate(db.rows, k, r, x);
      OtherSeatsPresent(db.rows, k, x);
    }
    forall i | 0 <= i < |db.rows| && db.rows[i].id != r.id
      ensures OneSession(db.rows[i], r, Caps(db))
    {
      assert i != k && after.rows[i] == db.rows[i] && after.rows[k] == r;
      assert if i < k then OneSession(after.rows[i], after.rows[k], Caps(after))
             else OneSession(after.rows[k], after.rows[i], Caps(after));
    }
  }

  // ---------- the same client twice ----------

  function SeatJob(rowId: Id): Job { BookJob(1, 1, 7, None, 7200, 60, rowId) }

  function TwiceSteps(): seq<ProtocolStep> {
    ([Begin(1, SeatJob(10))] + ([CheckSeat(1)] + [])) + (WholeBooking(2, SeatJob(11), 0) + LockAndBook(1, 0))
  }

  lemma SecondPlaceIsFree(db: Db)
    requires db.services == map[1 := YOGA] && db.rows == [YogaRow(11, 7200)]
    ensures EvaluationOf(db, SeatJob(10), ListFor(db, SeatJob(10))).IsBookable()
  {
    var q := YogaRow(11, 7200);
    assert [q][1..] == [];
    assert InRange(q, 1, 7200, SlotOf(SeatJob(10)).end, None);
    assert ActiveInRange([q], 1, 7200, SlotOf(SeatJob(10)).end, None) == [q];
    assert ListFor(db, SeatJob(10)) == [q];
    assert PlacesTaken([q], SlotOf(SeatJob(10))) == 1;
  }

  /** Neither a closing nor a move. */
  predicate Books(step: ProtocolStep) { !step.Read? && (step.Begin? ==> step.job.BookJob?) }

  lemma TwiceBooks()
    ensures forall step :: step in TwiceSteps() ==> Books(step)
  {
    assert forall step :: step in WholeBooking(2, SeatJob(11), 0) ==> Books(step);
    assert forall step :: step in LockAndBook(1, 0) ==> Books(step);
  }

  lemma {:induction false} BookingsAreCalm(s: State, steps: seq<ProtocolStep>)
    requires s.readings == map[] && forall step :: step in steps ==> Books(step)
    ensures CalmRun(s, steps)
    decreases |steps|
  {
    if steps != [] && Next(s, steps[0]).Some? {
      assert steps[0] in steps && forall step :: step in steps[1..] ==> step in steps;
      BookingsAreCalm(Next(s, steps[0]).value, steps[1..]);
    }
  }

  lemma TwiceEnds(s: State)
    requires s == State(Db(map[1 := YOGA], map[], map[], [], []), map[], map[], map[])
    ensures Execute(s, TwiceSteps()).Some?
    ensures Execute(s, TwiceSteps()).value.db.rows == [YogaRow(11, 7200), YogaRow(10, 7200)]
  {
    ExecuteStep(s, Begin(1, SeatJob(10)), [CheckSeat(1)] + []);
    var a := Next(s, Begin(1, SeatJob(10))).value;
    ExecuteStep(a, CheckSeat(1), []);
    var b := Next(a, CheckSeat(1)).value;
    WholeBookingCommits(b, 2, SeatJob(11), 0);
    var c := Execute(b, WholeBooking(2, SeatJob(11), 0)).value;
    assert c.db.rows == [YogaRow(11, 7200)];
    SecondPlaceIsFree(c.db);
    LockAndBookCommits(c, 1, 0);
    ExecuteConcat(b, WholeBooking(2, SeatJob(11), 0), LockAndBook(1, 0));
    ExecuteConcat(s, [Begin(1, SeatJob(10))] + ([CheckSeat(1)] + []),
                  WholeBooking(2, SeatJob(11), 0) + LockAndBook(1, 0));
  }

  /**
    The idempotency check runs before the lock is taken: one client's two
    simultaneous requests for a class both get a seat, although the protocol stays
    within capacity and a repeated request in sequence would not.
   */
  lemma SimultaneousRepeatTakesTwoSeats()
    ensures exists s: State, steps: seq<ProtocolStep> ::
              && ProtocolInv(s) && s.db.rows == [] && s.txs == map[] && Execute(s, steps).Some?
              && (forall step :: step in steps ==> Books(step))
              && GuardedRun(s, steps)
              && !UniqueSeats(Execute(s, steps).value.db.rows)
  {
    var s := State(Db(map[1 := YOGA], map[], map[], [], []), map[], map[], map[]);
    QuietStateIsSafe(s.db);
    TwiceEnds(s);
    TwiceBooks();
    BookingsAreCalm(s, TwiceSteps());
    CalmRunsAreGuarded(s, TwiceSteps());
    var rows := Execute(s, TwiceSteps()).value.db.rows;
    assert rows[0].client == rows[1].client && rows[0].IsLive() && rows[1].IsLive();
  }

  /** What the check before the lock would have to say at the commit: the seat stays unique iff it is free by then. */
  lemma SecondSeatIff(db: Db, job: Job)
    requires job.BookJob? && UniqueSeats(db.rows)
    ensures UniqueSeats(Write(db, job, None).rows) <==> FindSeat(db.rows, job.client, job.service, job.at).None?
  {
    FindSeatExact(db.rows, job.client, job.service, job.at);
    var after := Write(db, job, None).rows;
    if i :| 0 <= i < |db.rows| && HoldsSeat(db.rows[i], job.client, job.service, job.at) {
      assert after[i] == db.rows[i] && after[|db.rows|] == job.Candidate();
      NotUnique(after, i, |db.rows|);
    }
  }
}
