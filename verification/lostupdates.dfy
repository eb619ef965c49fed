/** What becomes of a closed appointment that someone had read open, and of the revenue. */
module LostUpdates {
  import opened Wrappers
  import opened Appointments
  import opened Scheduling
  import opened Runs
  import opened Revenue
  import opened BookingProtocol
  import opened ProtocolAnomalies
  import opened LateWrites

  // ---------- closed appointments ----------

  predicate IsClosedAt(s: State, id: Id) {
    var k := IndexOf(s.db.rows, id);
    k < |s.db.rows| && s.db.rows[k].IsClosed()
  }

  /**
    The commit of a move of this appointment that writes the status, or the landing
    of a confirm or no-show that does. A move or no-show leaves the status out if
    the row it selected had it already.
   */
  predicate Reopens(s: State, step: ProtocolStep, id: Id) {
    match step
    case Commit(t) =>
      && t in s.txs && s.txs[t].job.MoveJob? && s.txs[t].job.apt.id == id
      && s.txs[t].phase.Flushed? && s.txs[t].phase.merged.Some?
      && s.txs[t].phase.merged.value.status != Rescheduled
    case Land(c, _) =>
      && c in s.readings && s.readings[c].row.id == id && s.readings[c].WillWrite()
      && (s.readings[c].closing.Confirm?
          || (s.readings[c].closing.MarkNoShow? && s.readings[c].base.Some?
              && s.readings[c].base.value.status != NoShow))
    case _ => false
  }

  /** No step changes an id or drops a row. */
  lemma NextKeepsIds(s: State, step: ProtocolStep)
    requires Next(s, step).Some?
    ensures var next := Next(s, step).value;
            |s.db.rows| <= |next.db.rows| && forall i :: 0 <= i < |s.db.rows| ==> next.db.rows[i].id == s.db.rows[i].id
  {
  }

  lemma ClosedStepIff(s: State, step: ProtocolStep, id: Id)
    requires IsClosedAt(s, id) && Next(s, step).Some?
    ensures IsClosedAt(Next(s, step).value, id) <==> !Reopens(s, step, id)
  {
    NextKeepsIds(s, step);
    SameIdsSameIndex(s.db.rows, Next(s, step).value.db.rows, id);
    match step
    case Commit(t) => MoveReopensIff(s.db, s.txs[t].job, s.txs[t].phase.merged, id);
    case Land(c, now) => LandReopensIff(s.db, s.readings[c], now, id);
    case _ =>
  }

  lemma MoveReopensIff(db: Db, job: Job, merged: Option<Row>, id: Id)
    requires IndexOf(db.rows, id) < |db.rows| && db.rows[IndexOf(db.rows, id)].IsClosed()
    ensures Write(db, job, merged).rows[IndexOf(db.rows, id)].IsClosed()
            <==> !(job.MoveJob? && job.apt.id == id && merged.Some? && merged.value.status != Rescheduled)
  {
  }

  lemma LandReopensIff(db: Db, reading: Reading, now: int, id: Id)
    requires IndexOf(db.rows, id) < |db.rows| && db.rows[IndexOf(db.rows, id)].IsClosed()
    ensures WriteClosed(db, reading, now).rows[IndexOf(db.rows, id)].IsClosed()
            <==> !(reading.row.id == id && reading.WillWrite()
                   && (reading.closing.Confirm?
                       || (reading.closing.MarkNoShow? && reading.base.Some? && reading.base.value.status != NoShow)))
  {
  }

  predicate StaysClosed(s: State, steps: seq<ProtocolStep>, id: Id)
    decreases |steps|
  {
    && IsClosedAt(s, id)
    && (steps != [] && Next(s, steps[0]).Some? ==> StaysClosed(Next(s, steps[0]).value, steps[1..], id))
  }

  predicate NeverReopened(s: State, steps: seq<ProtocolStep>, id: Id)
    decreases |steps|
  {
    steps != [] && Next(s, steps[0]).Some? ==>
      !Reopens(s, steps[0], id) && NeverReopened(Next(s, steps[0]).value, steps[1..], id)
  }

  /** A closed appointment is closed throughout a run if and only if nothing of the run reopens it. */
  lemma {:induction false} StaysClosedIff(s: State, steps: seq<ProtocolStep>, id: Id)
    requires IsClosedAt(s, id)
    ensures StaysClosed(s, steps, id) <==> NeverReopened(s, steps, id)
    decreases |steps|
  {
    if steps != [] && Next(s, steps[0]).Some? {
      ClosedStepIff(s, steps[0], id);
      if !Reopens(s, steps[0], id) {
        StaysClosedIff(Next(s, steps[0]).value, steps[1..], id);
      }
    }
  }

  predicate OpenMover(s: State, t: TxId, id: Id) {
    && t in s.txs && !s.txs[t].phase.Ended()
    && s.txs[t].job.MoveJob? && s.txs[t].job.apt.id == id && !s.txs[t].job.apt.IsClosed()
  }

  predicate OpenCloser(s: State, c: TxId, id: Id) {
    c in s.readings && s.readings[c].row.id == id && !s.readings[c].row.IsClosed()
  }

  /** Somebody who has not finished has read the appointment open. */
  ghost predicate OpenReader(s: State, id: Id) {
    (exists t :: OpenMover(s, t, id)) || (exists c :: OpenCloser(s, c, id))
  }

  /** A move that was accepted had read an open appointment. */
  ghost predicate AcceptedWereOpen(s: State) {
    forall t :: t in s.txs && s.txs[t].job.MoveJob? && s.txs[t].phase.Judged() ==> !s.txs[t].job.apt.IsClosed()
  }

  lemma JudgedComesFrom(s: State, step: ProtocolStep, t: TxId)
    requires Next(s, step).Some? && t in Next(s, step).value.txs && Next(s, step).value.txs[t].phase.Judged()
    ensures t in s.txs && s.txs[t].job == Next(s, step).value.txs[t].job
    ensures s.txs[t].phase.Judged() || (step.Decide? && step.t == t && WriteAllowed(s.txs[t].job, step.now))
  {
  }

  lemma NextKeepsAccepted(s: State, step: ProtocolStep)
    requires AcceptedWereOpen(s) && Next(s, step).Some?
    ensures AcceptedWereOpen(Next(s, step).value)
  {
    var next := Next(s, step).value;
    forall t | t in next.txs && next.txs[t].job.MoveJob? && next.txs[t].phase.Judged()
      ensures !next.txs[t].job.apt.IsClosed()
    {
      JudgedComesFrom(s, step, t);
    }
  }

  /** Whoever reopens a closed appointment had read it open. */
  lemma ReopenerReadItOpen(s: State, step: ProtocolStep, id: Id)
    requires AcceptedWereOpen(s) && Next(s, step).Some? && Reopens(s, step, id)
    ensures OpenReader(s, id)
  {
    match step
    case Commit(t) => assert OpenMover(s, t, id);
    case Land(c, _) => assert OpenCloser(s, c, id);
  }

  lemma JobComesFrom(s: State, step: ProtocolStep, u: TxId)
    requires Next(s, step).Some? && u in Next(s, step).value.txs
    ensures var job := Next(s, step).value.txs[u].job;
            (u in s.txs && s.txs[u].job == job) || (u !in s.txs && Readable(s, job))
  {
  }

  lemma EndedStays(s: State, step: ProtocolStep, u: TxId)
    requires Next(s, step).Some? && u in s.txs && s.txs[u].phase.Ended()
    ensures u in Next(s, step).value.txs && Next(s, step).value.txs[u] == s.txs[u]
  {
  }

  lemma NoNewOpenMover(s: State, step: ProtocolStep, t: TxId, id: Id)
    requires IsClosedAt(s, id) && Next(s, step).Some? && OpenMover(Next(s, step).value, t, id)
    ensures OpenMover(s, t, id)
  {
    JobComesFrom(s, step, t);
    if t in s.txs && s.txs[t].phase.Ended() {
      EndedStays(s, step, t);
    }
  }

  lemma NoNewOpenCloser(s: State, step: ProtocolStep, c: TxId, id: Id)
    requires IsClosedAt(s, id) && Next(s, step).Some? && OpenCloser(Next(s, step).value, c, id)
    ensures OpenCloser(s, c, id)
  {
  }

  lemma NoNewOpenReader(s: State, step: ProtocolStep, id: Id)
    requires IsClosedAt(s, id) && !OpenReader(s, id) && Next(s, step).Some?
    ensures !OpenReader(Next(s, step).value, id)
  {
    var next := Next(s, step).value;
    forall t | OpenMover(next, t, id)
      ensures false
    {
      NoNewOpenMover(s, step, t, id);
    }
    forall c | OpenCloser(next, c, id)
      ensures false
    {
      NoNewOpenCloser(s, step, c, id);
    }
  }

  /** Once nobody is left who read it open, a closed appointment keeps every field in every continuation. */
  lemma {:induction false} ClosedForGood(s: State, steps: seq<ProtocolStep>, id: Id)
    requires IsClosedAt(s, id) && AcceptedWereOpen(s) && !OpenReader(s, id) && Execute(s, steps).Some?
    ensures var k := IndexOf(s.db.rows, id);
            k < |Execute(s, steps).value.db.rows| && Execute(s, steps).value.db.rows[k] == s.db.rows[k]
    decreases |steps|
  {
    if steps != [] {
      var next := Next(s, steps[0]).value;
      ClosedRowUntouched(s, steps[0], id);
      NoNewOpenReader(s, steps[0], id);
      NextKeepsAccepted(s, steps[0]);
      NextKeepsIds(s, steps[0]);
      SameIdsSameIndex(s.db.rows, next.db.rows, id);
      ClosedForGood(next, steps[1..], id);
    }
  }

  lemma ClosedRowUntouched(s: State, step: ProtocolStep, id: Id)
    requires IsClosedAt(s, id) && AcceptedWereOpen(s) && !OpenReader(s, id) && Next(s, step).Some?
    ensures var k := IndexOf(s.db.rows, id);
            k < |Next(s, step).value.db.rows| && Next(s, step).value.db.rows[k] == s.db.rows[k]
  {
    match step
    case Commit(t) => MoveElsewhere(s, t, id);
    case Land(c, now) => LandElsewhere(s, c, now, id);
    case _ =>
  }

  lemma MoveElsewhere(s: State, t: TxId, id: Id)
    requires IsClosedAt(s, id) && AcceptedWereOpen(s) && !OpenReader(s, id) && Next(s, Commit(t)).Some?
    ensures var k, rows := IndexOf(s.db.rows, id), Write(s.db, s.txs[t].job, s.txs[t].phase.merged).rows;
            k < |rows| && rows[k] == s.db.rows[k]
  {
    assert !OpenMover(s, t, id);
    assert s.txs[t].job.MoveJob? ==> s.txs[t].job.apt.id != id;
  }

  lemma LandElsewhere(s: State, c: TxId, now: int, id: Id)
    requires IsClosedAt(s, id) && !OpenReader(s, id) && c in s.readings
    ensures var k, rows := IndexOf(s.db.rows, id), WriteClosed(s.db, s.readings[c], now).rows;
            k < |rows| && rows[k] == s.db.rows[k]
  {
    assert !OpenCloser(s, c, id);
    assert s.readings[c].row.id == id ==> s.readings[c].row.IsClosed();
  }

  // ---------- revenue ----------

  /** What was collected on a row stays collected, where it was: a completed row keeps its start and its amount. */
  predicate KeepsCollected(was: Row, after: Row) {
    was.status.Completed? && was.amountCharged.Some? && was.amountCharged.value > 0 ==>
      && after.status.Completed? && after.scheduledAt == was.scheduledAt
      && after.amountCharged.Some? && after.amountCharged.value >= was.amountCharged.value
  }

  predicate NonNegative(r: Row) { r.amountCharged.Some? ==> r.amountCharged.value >= 0 }

  /** No amount anywhere is negative: on record, read, or selected. */
  ghost predicate AmountsOk(s: State) {
    && (forall i :: 0 <= i < |s.db.rows| ==> NonNegative(s.db.rows[i]))
    && (forall t :: t in s.txs && s.txs[t].job.MoveJob? ==> NonNegative(s.txs[t].job.apt))
    && (forall c :: c in s.readings ==> NonNegative(s.readings[c].row))
  }

  lemma ReadingComesFrom(s: State, step: ProtocolStep, c: TxId)
    requires Next(s, step).Some? && c in Next(s, step).value.readings
    ensures var row := Next(s, step).value.readings[c].row;
            (c in s.readings && s.readings[c].row == row) || IsRow(s.db, row)
  {
  }

  lemma NextKeepsAmounts(s: State, step: ProtocolStep)
    requires AmountsOk(s) && Next(s, step).Some?
    ensures AmountsOk(Next(s, step).value)
  {
    var next := Next(s, step).value;
    forall t | t in next.txs && next.txs[t].job.MoveJob?
      ensures NonNegative(next.txs[t].job.apt)
    {
      JobComesFrom(s, step, t);
    }
    forall c | c in next.readings
      ensures NonNegative(next.readings[c].row)
    {
      ReadingComesFrom(s, step, c);
    }
    NextRowsKeepAmounts(s, step);
  }

  lemma NextRowsKeepAmounts(s: State, step: ProtocolStep)
    requires AmountsOk(s) && Next(s, step).Some?
    ensures forall i :: 0 <= i < |Next(s, step).value.db.rows| ==> NonNegative(Next(s, step).value.db.rows[i])
  {
    match step
    case Commit(t) => WriteKeepsAmounts(s.db, s.txs[t].job, s.txs[t].phase.merged);
    case Land(c, now) => LandKeepsAmounts(s.db, s.readings[c], now);
    case _ => OnlyWritesWrite(s, step);
  }

  lemma WriteKeepsAmounts(db: Db, job: Job, merged: Option<Row>)
    requires (forall i :: 0 <= i < |db.rows| ==> NonNegative(db.rows[i])) && (job.MoveJob? ==> NonNegative(job.apt))
    ensures forall i :: 0 <= i < |Write(db, job, merged).rows| ==> NonNegative(Write(db, job, merged).rows[i])
  {
  }

  lemma LandKeepsAmounts(db: Db, reading: Reading, now: int)
    requires (forall i :: 0 <= i < |db.rows| ==> NonNegative(db.rows[i])) && NonNegative(reading.row)
    ensures forall i :: 0 <= i < |WriteClosed(db, reading, now).rows| ==>
              NonNegative(WriteClosed(db, reading, now).rows[i])
  {
  }

  /** No window ever shows less than before. */
  ghost predicate NoWindowFalls(before: seq<Row>, after: seq<Row>) {
    forall w: Window :: RevenueOf(before, w) <= RevenueOf(after, w)
  }

  lemma ReplaceFallsIff(rows: seq<Row>, k: nat, r: Row)
    requires k < |rows| && NonNegative(rows[k]) && NonNegative(r) && r.business == rows[k].business
    ensures NoWindowFalls(rows, rows[k := r]) <==> KeepsCollected(rows[k], r)
  {
    var was, w := rows[k], Window(rows[k].business, rows[k].scheduledAt, rows[k].scheduledAt + 1);
    RevenueUpdate(rows, k, r, w);
    if KeepsCollected(was, r) {
      forall v: Window
        ensures RevenueOf(rows, v) <= RevenueOf(rows[k := r], v)
      {
        RevenueUpdate(rows, k, r, v);
      }
    } else {
      assert RevenueOf(rows, w) > RevenueOf(rows[k := r], w);
    }
  }

  /** The row that a step replaces, and by what; None for a step that replaces none. */
  function Replacement(s: State, step: ProtocolStep): Option<(nat, Row)> {
    match step
    case Commit(t) =>
      if t in s.txs && s.txs[t].phase.Flushed? && s.txs[t].phase.merged.Some? && s.txs[t].job.MoveJob? then
        var k := IndexOf(s.db.rows, s.txs[t].job.apt.id);
        if k == |s.db.rows| then None
        else Some((k, Merged(s.db.rows[k], s.txs[t].phase.merged.value, s.txs[t].job.Candidate())))
      else None
    case Land(c, now) =>
      if c in s.readings && s.readings[c].WillWrite() then
        var k := IndexOf(s.db.rows, s.readings[c].row.id);
        if k == |s.db.rows| then None else Some((k, Closed(s.db.rows[k], s.readings[c], now)))
      else None
    case _ => None
  }

  /** The step replaces no completed row by one on which less is collected there. */
  predicate StepKeepsCollected(s: State, step: ProtocolStep) {
    match Replacement(s, step)
    case None => true
    case Some((k, r)) => k < |s.db.rows| ==> KeepsCollected(s.db.rows[k], r)
  }

  lemma ReplacementIsExact(s: State, step: ProtocolStep)
    requires Next(s, step).Some?
    ensures match Replacement(s, step)
            case Some((k, r)) =>
              k < |s.db.rows| && Next(s, step).value.db.rows == s.db.rows[k := r] && r.business == s.db.rows[k].business
            case None =>
              Next(s, step).value.db.rows == s.db.rows
              || (step.Commit? && s.txs[step.t].job.BookJob?
                  && Next(s, step).value.db.rows == s.db.rows + [s.txs[step.t].job.Candidate()])
  {
  }

  lemma StepFallsIff(s: State, step: ProtocolStep)
    requires AmountsOk(s) && Next(s, step).Some?
    ensures NoWindowFalls(s.db.rows, Next(s, step).value.db.rows) <==> StepKeepsCollected(s, step)
  {
    var rows, after := s.db.rows, Next(s, step).value.db.rows;
    NextKeepsAmounts(s, step);
    ReplacementIsExact(s, step);
    match Replacement(s, step)
    case Some((k, r)) =>
      assert NonNegative(after[k]);
      ReplaceFallsIff(rows, k, r);
    case None =>
      if after != rows {
        forall w: Window
          ensures RevenueOf(rows, w) <= RevenueOf(after, w)
        {
          RevenueAppend(rows, s.txs[step.t].job.Candidate(), w);
        }
      }
  }

  ghost predicate NeverFalls(s: State, steps: seq<ProtocolStep>)
    decreases |steps|
  {
    steps != [] && Next(s, steps[0]).Some? ==>
      && NoWindowFalls(s.db.rows, Next(s, steps[0]).value.db.rows)
      && NeverFalls(Next(s, steps[0]).value, steps[1..])
  }

  predicate CollectedKept(s: State, steps: seq<ProtocolStep>)
    decreases |steps|
  {
    steps != [] && Next(s, steps[0]).Some? ==>
      StepKeepsCollected(s, steps[0]) && CollectedKept(Next(s, steps[0]).value, steps[1..])
  }

  /**
    Under interleaving the revenue of no window ever falls if and only if no update
    takes a completed row's status, start or amount back. Sequential runs never do.
   */
  lemma {:induction false} RevenueNeverFallsIff(s: State, steps: seq<ProtocolStep>)
    requires AmountsOk(s)
    ensures NeverFalls(s, steps) <==> CollectedKept(s, steps)
    decreases |steps|
  {
    if steps != [] && Next(s, steps[0]).Some? {
      StepFallsIff(s, steps[0]);
      NextKeepsAmounts(s, steps[0]);
      RevenueNeverFallsIff(Next(s, steps[0]).value, steps[1..]);
    }
  }

  // ---------- a move that undoes a completion ----------

  const LATE_MOVE := MoveJob(SoloRow(10, 7, 14400), 7200, true)

  /** The move of appointment 10 is accepted, then the appointment is completed. */
  function AcceptThenComplete(): seq<ProtocolStep> {
    AcceptMove(1, LATE_MOVE, 0) + CloseSteps(5, 10, Complete(50), 0)
  }

  function Paid(p: Row): Row { p.(status := Completed, amountCharged := Some(50), completedAt := Some(0)) }

  lemma AcceptThenCompleteRuns(s: State, p: Row)
    requires p == SoloRow(10, 7, 14400) && s == State(SoloDb([p]), map[], map[], map[])
    ensures Execute(s, AcceptThenComplete())
         == Some(State(SoloDb([Paid(p)]), map[1 := 1], map[1 := Tx(LATE_MOVE, Accepted)], map[]))
  {
    assert [p][1..] == [];
    assert ActiveInRange([p], 1, 7200, 10800, None) == [];
    assert ListFor(s.db, LATE_MOVE) == [];
    AcceptMoveRuns(s, 1, LATE_MOVE, 0);
    var a := State(SoloDb([p]), map[1 := 1], map[1 := Tx(LATE_MOVE, Accepted)], map[]);
    assert map[][1 := Tx(LATE_MOVE, Accepted)] == a.txs && map[][1 := 1] == a.locks;
    UndisturbedCloseIsSequential(a, 5, 10, Complete(50), 0);
    assert IndexOf([p], 10) == 0 && [p][0 := Paid(p)] == [Paid(p)];
    ExecuteConcat(s, AcceptMove(1, LATE_MOVE, 0), CloseSteps(5, 10, Complete(50), 0));
  }

  lemma MoveLands(mid: State, p: Row)
    requires p == SoloRow(10, 7, 14400)
    requires mid == State(SoloDb([Paid(p)]), map[1 := 1], map[1 := Tx(LATE_MOVE, Accepted)], map[])
    ensures Execute(mid, FinishMove(1)).Some?
    ensures var rows, w := Execute(mid, FinishMove(1)).value.db.rows, Window(1, 14400, 14401);
            |rows| == 1 && rows[0].status.Rescheduled? && RevenueOf(mid.db.rows, w) == 50 && RevenueOf(rows, w) == 0
  {
    FinishMoveCommits(mid, 1);
    var w := LATE_MOVE.Candidate();
    assert IndexOf([Paid(p)], 10) == 0 && [Paid(p)][0 := w] == [w];
    assert [Paid(p)][1..] == [] && [w][1..] == [];
    assert RevenueOf([], Window(1, 14400, 14401)) == 0;
  }

  /**
    COMPLETED is not absorbing under interleaving: from a quiet agenda, a locking
    move that read the appointment open and writes after its completion takes the
    amount collected out of the revenue.
   */
  lemma MoveUndoesCompletion()
    ensures exists s: State, before: seq<ProtocolStep>, w: Window ::
              && ProtocolInv(s) && s.txs == map[] && s.readings == map[] && Execute(s, before).Some?
              && var mid := Execute(s, before).value;
                 && (exists k :: 0 <= k < |mid.db.rows| && mid.db.rows[k].status.Completed?)
                 && 1 in mid.txs && mid.txs[1].job.MoveJob? && mid.txs[1].job.Locks()
                 && Execute(mid, FinishMove(1)).Some?
                 && RevenueOf(Execute(mid, FinishMove(1)).value.db.rows, w) < RevenueOf(mid.db.rows, w)
  {
    var p := SoloRow(10, 7, 14400);
    var s := State(SoloDb([p]), map[], map[], map[]);
    SoloQuiet(p);
    AcceptThenCompleteRuns(s, p);
    var mid := Execute(s, AcceptThenComplete()).value;
    MoveLands(mid, p);
    assert mid.db.rows[0].status.Completed?;
  }
}
