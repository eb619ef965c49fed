/**
  Updates that rest on a row as it was read earlier, and what they do to capacity. A
  closing that nobody interrupts is the sequential one; a late one need not be.
 */
module LateWrites {
  import opened Wrappers
  import opened Appointments
  import opened SlotOccupancy
  import opened Scheduling
  import opened Runs
  import opened BookingProtocol
  import opened ProtocolAnomalies

  /** A closing that is not interrupted. */
  function CloseSteps(c: TxId, id: Id, closing: Closing, now: int): seq<ProtocolStep> {
    [Read(c, id, closing)] + ([Fetch(c)] + ([Land(c, now)] + []))
  }

  lemma FreshReadingCloses(db: Db, id: Id, closing: Closing, now: int)
    requires IndexOf(db.rows, id) < |db.rows|
    ensures var row := db.rows[IndexOf(db.rows, id)];
            var reading := Reading(row, closing, Some(row));
            CloseStep(db, id, closing, now).0 == if reading.WillWrite() then WriteClosed(db, reading, now) else db
  {
    var row := db.rows[IndexOf(db.rows, id)];
    MergedAtOnce(row, Stamp(row, closing, now));
  }

  /** It is the sequential closing. */
  lemma UndisturbedCloseIsSequential(s: State, c: TxId, id: Id, closing: Closing, now: int)
    requires c !in s.readings && IndexOf(s.db.rows, id) < |s.db.rows| && !RowBusy(s, id)
    ensures Execute(s, CloseSteps(c, id, closing, now)) == Some(s.(db := CloseStep(s.db, id, closing, now).0))
  {
    var row := s.db.rows[IndexOf(s.db.rows, id)];
    var a := s.(readings := s.readings[c := Reading(row, closing, None)]);
    var b := s.(readings := s.readings[c := Reading(row, closing, Some(row))]);
    ReadsFirst(s, c, id, closing, [Fetch(c)] + ([Land(c, now)] + []));
    assert a.readings[c := Reading(row, closing, Some(row))] == b.readings;
    FetchesNext(a, c, [Land(c, now)] + []);
    LandsLast(b, c, now);
    FreshReadingCloses(s.db, id, closing, now);
    assert b.readings - {c} == s.readings;
  }

  lemma ReadsFirst(s: State, c: TxId, id: Id, closing: Closing, rest: seq<ProtocolStep>)
    requires c !in s.readings && IndexOf(s.db.rows, id) < |s.db.rows|
    ensures var a := s.(readings := s.readings[c := Reading(s.db.rows[IndexOf(s.db.rows, id)], closing, None)]);
            Execute(s, [Read(c, id, closing)] + rest) == Execute(a, rest)
  {
    var a := s.(readings := s.readings[c := Reading(s.db.rows[IndexOf(s.db.rows, id)], closing, None)]);
    assert Next(s, Read(c, id, closing)) == Some(a);
    ExecuteStep(s, Read(c, id, closing), rest);
  }

  lemma FetchesNext(s: State, c: TxId, rest: seq<ProtocolStep>)
    requires c in s.readings && s.readings[c].base.None?
    requires IndexOf(s.db.rows, s.readings[c].row.id) < |s.db.rows|
    ensures var row := s.db.rows[IndexOf(s.db.rows, s.readings[c].row.id)];
            Execute(s, [Fetch(c)] + rest) ==
            Execute(s.(readings := s.readings[c := s.readings[c].(base := Some(row))]), rest)
  {
    FetchGives(s, c);
    ExecuteStep(s, Fetch(c), rest);
  }

  lemma FetchGives(s: State, c: TxId)
    requires c in s.readings && s.readings[c].base.None?
    requires IndexOf(s.db.rows, s.readings[c].row.id) < |s.db.rows|
    ensures var row := s.db.rows[IndexOf(s.db.rows, s.readings[c].row.id)];
            Next(s, Fetch(c)) == Some(s.(readings := s.readings[c := s.readings[c].(base := Some(row))]))
  {
  }

  lemma LandsLast(s: State, c: TxId, now: int)
    requires c in s.readings && (s.readings[c].base.Some? || s.readings[c].ByColumn())
    requires !RowBusy(s, s.readings[c].row.id)
    ensures var reading := s.readings[c];
            Execute(s, [Land(c, now)] + []) ==
            Some(s.(readings := s.readings - {c},
                    db := if reading.WillWrite() then WriteClosed(s.db, reading, now) else s.db))
  {
    ExecuteStep(s, Land(c, now), []);
  }

  // ---------- late updates and capacity ----------

  /** A closing's update keeps a safe agenda safe if and only if the row takes no more than it did, or fits. */
  lemma LandsSafelyIff(db: Db, reading: Reading, now: int)
    requires Placed(db) && Safe(db) && StillThere(db, reading.row) && reading.WillWrite()
    ensures var current := db.rows[IndexOf(db.rows, reading.row.id)];
            var w := Closed(current, reading, now);
            Safe(WriteClosed(db, reading, now)) <==> TakesNoMore(w, current) || FitsNow(db, w)
  {
    var k := IndexOf(db.rows, reading.row.id);
    assert RowPlaced(db.rows[k], db.services);
    ReplaceIsSafeIff(db, k, Closed(db.rows[k], reading, now));
  }

  /** A confirm's update keeps a safe agenda safe if and only if the row is still live, or fits again, when it lands. */
  lemma ConfirmLandsSafelyIff(db: Db, reading: Reading, now: int)
    requires Placed(db) && Safe(db) && StillThere(db, reading.row)
    requires reading.closing.Confirm? && reading.WillWrite()
    ensures var current := db.rows[IndexOf(db.rows, reading.row.id)];
            Safe(WriteClosed(db, reading, now))
            <==> current.IsLive() || FitsNow(db, current.(status := Confirmed))
  {
    LandsSafelyIff(db, reading, now);
  }

  /** Appointment 10 is cancelled, its slot is booked, and the confirm that had read it lands. */
  function CancelBookLand(): seq<ProtocolStep> {
    CloseSteps(6, 10, Cancel, 0) + (WholeBooking(2, NEWCOMER, 0) + ([Land(5, 0)] + []))
  }

  function LateConfirm(): seq<ProtocolStep> { [Read(5, 10, Confirm)] + CancelBookLand() }

  function Gone(p: Row): Row { p.(status := Cancelled, cancelledAt := Some(0)) }

  lemma FreedSlotIsBookable(db: Db, gone: Row)
    requires gone == Gone(SoloRow(10, 7, 7200)) && db == SoloDb([gone])
    ensures FindSeat(db.rows, 8, 1, 7200).None? && EvaluationOf(db, NEWCOMER, ListFor(db, NEWCOMER)).IsBookable()
  {
    assert [gone][1..] == [];
    assert ActiveInRange([gone], 1, 7200, 10800, None) == [];
    assert ListFor(db, NEWCOMER) == [];
  }

  /** From the moment the row is cancelled. */
  lemma BookThenLand(s: State, p: Row)
    requires p == SoloRow(10, 7, 7200)
    requires s == State(SoloDb([Gone(p)]), map[], map[], map[5 := Reading(p, Confirm, None)])
    ensures var run := Execute(s, WholeBooking(2, NEWCOMER, 0) + ([Land(5, 0)] + []));
            run.Some? && run.value.db == SoloDb([Gone(p).(status := Confirmed), SoloRow(11, 8, 7200)])
  {
    FreedSlotIsBookable(s.db, Gone(p));
    assert Readable(s, NEWCOMER);
    WholeBookingCommits(s, 2, NEWCOMER, 0);
    var booked := Execute(s, WholeBooking(2, NEWCOMER, 0)).value;
    assert booked.db.rows == [Gone(p), SoloRow(11, 8, 7200)];
    assert forall t :: t in booked.txs ==> booked.txs[t].job.BookJob?;
    ExecuteConcat(s, WholeBooking(2, NEWCOMER, 0), [Land(5, 0)] + []);
    assert IndexOf(booked.db.rows, 10) == 0;
    LandsLast(booked, 5, 0);
  }

  lemma LateConfirmEnds(s: State, p: Row)
    requires p == SoloRow(10, 7, 7200) && s == State(SoloDb([p]), map[], map[], map[])
    ensures Execute(s, LateConfirm()).Some?
    ensures Execute(s, LateConfirm()).value.db == SoloDb([Gone(p).(status := Confirmed), SoloRow(11, 8, 7200)])
  {
    var a := s.(readings := map[5 := Reading(p, Confirm, None)]);
    assert map[][5 := Reading(p, Confirm, None)] == a.readings;
    ReadsFirst(s, 5, 10, Confirm, CancelBookLand());
    UndisturbedCloseIsSequential(a, 6, 10, Cancel, 0);
    assert CloseStep(a.db, 10, Cancel, 0).0 == SoloDb([Gone(p)]);
    ExecuteConcat(a, CloseSteps(6, 10, Cancel, 0), WholeBooking(2, NEWCOMER, 0) + ([Land(5, 0)] + []));
    BookThenLand(a.(db := SoloDb([Gone(p)])), p);
  }

  /** Every move takes the lock. */
  predicate MovesLock(steps: seq<ProtocolStep>) { forall step :: step in steps && step.Begin? ==> step.job.Locks() }

  /**
    The reminder button reads the status and later updates it without looking again:
    from a quiet and safe agenda, one confirm that lands late puts two appointments
    into a place for one.
   */
  lemma LateConfirmBreaksSafety()
    ensures exists s: State, steps: seq<ProtocolStep> ::
              && ProtocolInv(s) && s.txs == map[] && s.readings == map[]
              && (forall step :: step in steps ==> !(step.Begin? && step.job.MoveJob?))
              && Execute(s, steps).Some? && !Safe(Execute(s, steps).value.db)
  {
    var p := SoloRow(10, 7, 7200);
    var s := State(SoloDb([p]), map[], map[], map[]);
    SoloQuiet(p);
    LateConfirmEnds(s, p);
    Overfull(Execute(s, LateConfirm()).value.db, Gone(p).(status := Confirmed), SoloRow(11, 8, 7200));
    assert forall step :: step in WholeBooking(2, NEWCOMER, 0) ==> !(step.Begin? && step.job.MoveJob?);
  }

  // ---------- a start time written back ----------

  const AWAY := MoveJob(SoloRow(10, 7, 7200), 14400, true)

  /** The same appointment, moved again to where it now is. */
  const AGAIN := MoveJob(AWAY.Candidate(), 14400, true)

  /** A cancellation reads appointment 10, which is then moved away; its old slot is booked; and it is moved again. */
  function MovedAndBooked(): seq<ProtocolStep> {
    [Read(5, 10, Cancel)] + (WholeMove(1, AWAY, 0) + (WholeBooking(2, NEWCOMER, 0) + AcceptMove(3, AGAIN, 0)))
  }

  /** Another cancellation goes through, the second move selects the row, the first cancellation and the move end. */
  function LateCancel(): seq<ProtocolStep> {
    CloseSteps(6, 10, Cancel, 0) + ([Select(3)] + ([Fetch(5)] + ([Land(5, 0)] + ([Flush(3)] + ([Commit(3)] + [])))))
  }

  /** The state in which the second move has been accepted, with this row for appointment 10. */
  function Accepted3(r: Row, phase: Phase): State {
    State(SoloDb([r, SoloRow(11, 8, 7200)]), map[1 := 3],
          map[1 := Tx(AWAY, Done), 2 := Tx(NEWCOMER, Done), 3 := Tx(AGAIN, phase)],
          map[5 := Reading(SoloRow(10, 7, 7200), Cancel, None)])
  }

  lemma MovesAway(p: Row, s: State)
    requires p == SoloRow(10, 7, 7200)
    requires s == State(SoloDb([p]), map[], map[], map[5 := Reading(p, Cancel, None)])
    ensures Execute(s, WholeMove(1, AWAY, 0)) ==
            Some(s.(db := SoloDb([AWAY.Candidate()]), txs := map[1 := Tx(AWAY, Done)]))
  {
    assert [p][1..] == [];
    assert ActiveInRange([p], 1, 14400, 18000, None) == [];
    assert ListFor(s.db, AWAY) == [];
    WholeMoveCommits(s, 1, AWAY, 0);
    assert IndexOf([p], 10) == 0 && [p][0 := AWAY.Candidate()] == [AWAY.Candidate()];
    assert map[][1 := Tx(AWAY, Done)] == map[1 := Tx(AWAY, Done)];
  }

  lemma BooksOldSlot(s: State)
    requires s == State(SoloDb([AWAY.Candidate()]), map[], map[1 := Tx(AWAY, Done)],
                        map[5 := Reading(SoloRow(10, 7, 7200), Cancel, None)])
    ensures Execute(s, WholeBooking(2, NEWCOMER, 0)) ==
            Some(s.(db := SoloDb([AWAY.Candidate(), SoloRow(11, 8, 7200)]),
                    txs := map[1 := Tx(AWAY, Done), 2 := Tx(NEWCOMER, Done)]))
  {
    var r := AWAY.Candidate();
    assert [r][1..] == [];
    assert ActiveInRange([r], 1, 7200, 10800, None) == [];
    assert ListFor(s.db, NEWCOMER) == [];
    WholeBookingCommits(s, 2, NEWCOMER, 0);
    assert [r] + [SoloRow(11, 8, 7200)] == [r, SoloRow(11, 8, 7200)];
    assert s.txs[2 := Tx(NEWCOMER, Done)] == map[1 := Tx(AWAY, Done), 2 := Tx(NEWCOMER, Done)];
  }

  lemma AcceptsAgain(s: State)
    requires s == State(SoloDb([AWAY.Candidate(), SoloRow(11, 8, 7200)]), map[],
                        map[1 := Tx(AWAY, Done), 2 := Tx(NEWCOMER, Done)],
                        map[5 := Reading(SoloRow(10, 7, 7200), Cancel, None)])
    ensures Execute(s, AcceptMove(3, AGAIN, 0)) == Some(Accepted3(AWAY.Candidate(), Accepted))
  {
    var r, q := AWAY.Candidate(), SoloRow(11, 8, 7200);
    assert [r, q][1..] == [q] && [q][1..] == [];
    assert ActiveInRange([q], 1, 14400, 18000, None) == [];
    assert ActiveInRange([r, q], 1, 14400, 18000, None) == [r];
    assert ListFor(s.db, AGAIN) == [r];
    assert !Overlaps(r, SlotOf(AGAIN));
    AcceptMoveRuns(s, 3, AGAIN, 0);
    assert s.txs[3 := Tx(AGAIN, Accepted)] == Accepted3(r, Accepted).txs && map[][1 := 3] == map[1 := 3];
  }

  lemma MovedAndBookedRuns(p: Row)
    requires p == SoloRow(10, 7, 7200)
    ensures Execute(State(SoloDb([p]), map[], map[], map[]), MovedAndBooked())
         == Some(Accepted3(AWAY.Candidate(), Accepted))
  {
    var s := State(SoloDb([p]), map[], map[], map[]);
    var a := s.(readings := map[5 := Reading(p, Cancel, None)]);
    assert map[][5 := Reading(p, Cancel, None)] == a.readings;
    ReadsFirst(s, 5, 10, Cancel, WholeMove(1, AWAY, 0) + (WholeBooking(2, NEWCOMER, 0) + AcceptMove(3, AGAIN, 0)));
    MovesAway(p, a);
    var b := a.(db := SoloDb([AWAY.Candidate()]), txs := map[1 := Tx(AWAY, Done)]);
    ExecuteConcat(a, WholeMove(1, AWAY, 0), WholeBooking(2, NEWCOMER, 0) + AcceptMove(3, AGAIN, 0));
    BooksOldSlot(b);
    ExecuteConcat(b, WholeBooking(2, NEWCOMER, 0), AcceptMove(3, AGAIN, 0));
    AcceptsAgain(Execute(b, WholeBooking(2, NEWCOMER, 0)).value);
  }

  lemma CancelledAgain(s: State)
    requires s == Accepted3(AWAY.Candidate(), Accepted)
    ensures Execute(s, CloseSteps(6, 10, Cancel, 0)) == Some(Accepted3(Gone(AWAY.Candidate()), Accepted))
  {
    var r, q := AWAY.Candidate(), SoloRow(11, 8, 7200);
    assert IndexOf([r, q], 10) == 0;
    UndisturbedCloseIsSequential(s, 6, 10, Cancel, 0);
    assert [r, q][0 := Gone(r)] == [Gone(r), q];
  }

  /** The first cancellation writes back the start it had read; the move does not write the one it was evaluated for. */
  lemma StartIsWrittenBack(s: State)
    requires s == Accepted3(Gone(AWAY.Candidate()), Accepted)
    ensures var run := Execute(s, [Select(3)] + ([Fetch(5)] + ([Land(5, 0)] + ([Flush(3)] + ([Commit(3)] + [])))));
            run.Some?
            && run.value.db == SoloDb([SoloRow(10, 7, 7200).(status := Rescheduled), SoloRow(11, 8, 7200)])
  {
    var p, r, q := SoloRow(10, 7, 7200), Gone(AWAY.Candidate()), SoloRow(11, 8, 7200);
    assert IndexOf([r, q], 10) == 0 && IndexOf([Gone(p), q], 10) == 0;
    ExecuteStep(s, Select(3), [Fetch(5)] + ([Land(5, 0)] + ([Flush(3)] + ([Commit(3)] + []))));
    var a := Accepted3(r, Selected(r));
    assert s.txs[3 := Tx(AGAIN, Selected(r))] == a.txs;
    FetchesNext(a, 5, [Land(5, 0)] + ([Flush(3)] + ([Commit(3)] + [])));
    var b := a.(readings := map[5 := Reading(p, Cancel, Some(r))]);
    assert a.readings[5 := Reading(p, Cancel, Some(r))] == b.readings;
    LandsThere(b, r, q);
    ExecuteStep(b, Land(5, 0), [Flush(3)] + ([Commit(3)] + []));
    EndsThere(Next(b, Land(5, 0)).value);
  }

  lemma LandsThere(b: State, r: Row, q: Row)
    requires r == Gone(AWAY.Candidate()) && q == SoloRow(11, 8, 7200)
    requires b == Accepted3(r, Selected(r)).(readings := map[5 := Reading(SoloRow(10, 7, 7200), Cancel, Some(r))])
    ensures Next(b, Land(5, 0))
         == Some(Accepted3(Gone(SoloRow(10, 7, 7200)), Selected(r)).(readings := map[]))
  {
    assert IndexOf([r, q], 10) == 0;
    assert !RowBusy(b, 10);
    assert b.readings - {5} == map[];
    assert Closed(r, b.readings[5], 0) == Gone(SoloRow(10, 7, 7200));
    assert [r, q][0 := Gone(SoloRow(10, 7, 7200))] == [Gone(SoloRow(10, 7, 7200)), q];
  }

  lemma EndsThere(c: State)
    requires c == Accepted3(Gone(SoloRow(10, 7, 7200)), Selected(Gone(AWAY.Candidate()))).(readings := map[])
    ensures var run := Execute(c, [Flush(3)] + ([Commit(3)] + []));
            run.Some?
            && run.value.db == SoloDb([SoloRow(10, 7, 7200).(status := Rescheduled), SoloRow(11, 8, 7200)])
  {
    var r, p, q := Gone(AWAY.Candidate()), Gone(SoloRow(10, 7, 7200)), SoloRow(11, 8, 7200);
    assert IndexOf([p, q], 10) == 0;
    assert !RowBusy(c, 10);
    ExecuteStep(c, Flush(3), [Commit(3)] + []);
    var d := SetPhase(c, 3, Flushed(Some(r)));
    assert Next(c, Flush(3)) == Some(d);
    ExecuteStep(d, Commit(3), []);
    var w := Merged(p, r, AGAIN.Candidate());
    assert w == SoloRow(10, 7, 7200).(status := Rescheduled);
    assert [p, q][0 := w] == [w, q];
  }

  /**
    Not only a confirm can do that: from a quiet and safe agenda, with every move
    under the lock and no button pressed, a cancellation that writes back an old
    start lets a move bring the appointment to life where nobody evaluated it.
   */
  lemma StartWrittenBackBreaksSafety()
    ensures exists s: State, steps: seq<ProtocolStep> ::
              && ProtocolInv(s) && s.txs == map[] && s.readings == map[] && MovesLock(steps)
              && (forall step :: step in steps && step.Read? ==> step.closing.Cancel?)
              && Execute(s, steps).Some? && !Safe(Execute(s, steps).value.db)
  {
    var p := SoloRow(10, 7, 7200);
    var s := State(SoloDb([p]), map[], map[], map[]);
    SoloQuiet(p);
    MovedAndBookedRuns(p);
    var a := Accepted3(AWAY.Candidate(), Accepted);
    CancelledAgain(a);
    var rest := [Select(3)] + ([Fetch(5)] + ([Land(5, 0)] + ([Flush(3)] + ([Commit(3)] + []))));
    ExecuteConcat(a, CloseSteps(6, 10, Cancel, 0), rest);
    StartIsWrittenBack(Accepted3(Gone(AWAY.Candidate()), Accepted));
    var steps := MovedAndBooked() + LateCancel();
    ExecuteConcat(s, MovedAndBooked(), LateCancel());
    Overfull(Execute(s, steps).value.db, p.(status := Rescheduled), SoloRow(11, 8, 7200));
    LateCancelIsOrderly();
  }

  predicate Orderly(step: ProtocolStep) {
    (step.Begin? ==> step.job.Locks()) && (step.Read? ==> step.closing.Cancel?)
  }

  lemma LateCancelIsOrderly()
    ensures var steps := MovedAndBooked() + LateCancel();
            MovesLock(steps) && forall step :: step in steps && step.Read? ==> step.closing.Cancel?
  {
    assert forall step :: step in WholeMove(1, AWAY, 0) ==> Orderly(step);
    assert forall step :: step in WholeBooking(2, NEWCOMER, 0) ==> Orderly(step);
    assert forall step :: step in AcceptMove(3, AGAIN, 0) ==> Orderly(step);
    assert forall step :: step in MovedAndBooked() ==> Orderly(step);
    assert forall step :: step in LateCancel() ==> Orderly(step);
  }
}
