/**
  Bookings, moves and closings as concurrent transactions. A booking or move reads,
  takes the row lock of its service, lists, evaluates, writes and commits in separate
  steps; a closing reads its row in one step and writes in a later one, without the
  service's lock. Reads see committed rows only, a written row becomes visible at the
  commit, and a lock is held until its transaction ends. Any number of transactions
  interleave.

  A repository update merges the entity, which was loaded earlier: the mapper selects
  the row again (nothing keeps the one it first loaded alive, and its identity map is
  weak), and then updates the columns in which the entity differs from what this
  second select returned. The two selects and the update are separate steps here. The
  update locks the row until the transaction ends. The reminder buttons update named
  columns directly.
 */
module BookingProtocol {
  import opened Wrappers
  import opened Appointments
  import opened SlotOccupancy
  import opened Scheduling
  import opened Runs

  type TxId = nat

  /** What a transaction read before it asked for the lock. A move without services takes no lock. */
  datatype Job =
    | BookJob(business: Id, service: Id, client: Id, professional: Option<Id>, at: int, durationMinutes: int, rowId: Id)
    | MoveJob(apt: Row, at: int, withServices: bool)
  {
    /** The row that the transaction evaluates and means to write. */
    function Candidate(): Row {
      match this
      case BookJob(business, service, client, professional, at, durationMinutes, rowId) =>
        Row(rowId, business, service, client, professional, at, durationMinutes, Pending, None, None, None, None)
      case MoveJob(apt, at, _) => apt.(scheduledAt := at, status := Rescheduled)
    }

    function Exclude(): Option<Id> { if MoveJob? then Some(apt.id) else None }

    predicate Locks() { BookJob? || withServices }
  }

  datatype Phase =
    | Started
    | Checked
    | Locked
    | Listed(booked: seq<Row>)
    | Accepted
    | Selected(base: Row)
    | Flushed(merged: Option<Row>)
    | Done
    | Failed
  {
    predicate Ended() { Done? || Failed? }
    predicate HasLock() { Locked? || Promised() }
    predicate Promised() { Listed? || Judged() }
    predicate Judged() { Accepted? || Selected? || Flushed? }
  }

  datatype Tx = Tx(job: Job, phase: Phase)

  /** A closing that has read its row and not yet written; base is what the merge's select returned. */
  datatype Reading = Reading(row: Row, closing: Closing, base: Option<Row>) {
    /** The reminder buttons name their columns themselves. */
    predicate ByColumn() { closing.Confirm? || closing.ButtonCancel? }

    /** Only what was read decides whether a closing writes; the row may have changed since. */
    predicate WillWrite() { CloseRow(row, closing, 0).Some? }
  }

  datatype State = State(db: Db, locks: map<Id, TxId>, txs: map<TxId, Tx>, readings: map<TxId, Reading>)

  datatype ProtocolStep =
    | Begin(t: TxId, job: Job)
    | CheckSeat(t: TxId)
    | Lock(t: TxId)
    | List(t: TxId)
    | Decide(t: TxId, now: int)
    | Select(t: TxId)
    | Flush(t: TxId)
    | Commit(t: TxId)
    | Abort(t: TxId)
    | Read(c: TxId, id: Id, closing: Closing)
    | Fetch(c: TxId)
    | Land(c: TxId, now: int)

  function SlotOf(job: Job): Slot {
    var r := job.Candidate();
    SlotFor(r.service, r.scheduledAt, r.durationMinutes, job.Exclude())
  }

  function ListFor(db: Db, job: Job): seq<Row> {
    var r, slot := job.Candidate(), SlotOf(job);
    ActiveInRange(db.rows, r.business, slot.start, slot.end, r.professional)
  }

  function EvaluationOf(db: Db, job: Job, booked: seq<Row>): SlotEvaluation {
    var service := job.Candidate().service;
    if job.Locks() then
      Evaluate(SlotOf(job), CapacityOf(Caps(db), service), booked,
               CapacityMap(db.services, ServicesOf(booked) + {service}))
    else
      Evaluate(SlotOf(job), 1, booked, map[])
  }

  /** The row rules that raise before the write. */
  predicate WriteAllowed(job: Job, now: int) {
    match job
    case BookJob(_, _, _, _, at, durationMinutes, _) => durationMinutes >= 1 && at > now
    case MoveJob(apt, at, _) => MoveRow(apt, at, now).Some?
  }

  /** The update of a merge: columns in which the entity differs from the row that was selected. */
  function Merged(current: Row, base: Row, target: Row): Row {
    current.(
      scheduledAt := if target.scheduledAt != base.scheduledAt then target.scheduledAt else current.scheduledAt,
      status := if target.status != base.status then target.status else current.status,
      cancelledAt := if target.cancelledAt != base.cancelledAt then target.cancelledAt else current.cancelledAt,
      reminderSentAt :=
        if target.reminderSentAt != base.reminderSentAt then target.reminderSentAt else current.reminderSentAt,
      amountCharged :=
        if target.amountCharged != base.amountCharged then target.amountCharged else current.amountCharged,
      completedAt := if target.completedAt != base.completedAt then target.completedAt else current.completedAt
    )
  }

  function Write(db: Db, job: Job, merged: Option<Row>): Db {
    match job
    case BookJob(_, _, _, _, _, _, _) => db.(rows := db.rows + [job.Candidate()])
    case MoveJob(apt, _, _) =>
      var k := IndexOf(db.rows, apt.id);
      if k == |db.rows| || merged.None? then db
      else db.(rows := db.rows[k := Merged(db.rows[k], merged.value, job.Candidate())])
  }

  /** The columns that a closing changes. */
  function Stamp(r: Row, closing: Closing, now: int): Row {
    match closing
    case Confirm => r.(status := Confirmed)
    case Cancel => r.(status := Cancelled, cancelledAt := Some(now))
    case ButtonCancel => r.(status := Cancelled, cancelledAt := Some(now))
    case Complete(amount) => r.(status := Completed, amountCharged := Some(amount), completedAt := Some(now))
    case MarkNoShow => r.(status := NoShow)
  }

  /** What a closing makes of the row as it is at the write. */
  function Closed(current: Row, reading: Reading, now: int): Row {
    if reading.ByColumn() then Stamp(current, reading.closing, now)
    else if reading.base.None? then current
    else Merged(current, reading.base.value, Stamp(reading.row, reading.closing, now))
  }

  function WriteClosed(db: Db, reading: Reading, now: int): Db {
    var k := IndexOf(db.rows, reading.row.id);
    if k == |db.rows| || !reading.WillWrite() then db
    else db.(rows := db.rows[k := Closed(db.rows[k], reading, now)])
  }

  /** The row with this id, as the repository reads it. */
  predicate IsRow(db: Db, r: Row) {
    var k := IndexOf(db.rows, r.id);
    k < |db.rows| && db.rows[k] == r
  }

  /** A job that a transaction can have read from this state. */
  predicate Readable(s: State, job: Job) {
    match job
    case BookJob(business, service, _, _, _, durationMinutes, rowId) =>
      && service in s.db.services && s.db.services[service].business == business
      && s.db.services[service].durationMinutes == durationMinutes
      && (forall i :: 0 <= i < |s.db.rows| ==> s.db.rows[i].id != rowId)
      && (forall t :: t in s.txs && s.txs[t].job.BookJob? ==> s.txs[t].job.rowId != rowId)
    case MoveJob(apt, _, _) => IsRow(s.db, apt)
  }

  /** The update of an uncommitted move holds the row. */
  predicate RowBusy(s: State, id: Id) {
    exists t :: t in s.txs && s.txs[t].phase.Flushed? && s.txs[t].job.MoveJob? && s.txs[t].job.apt.id == id
  }

  function SetPhase(s: State, t: TxId, phase: Phase): State
    requires t in s.txs
  {
    s.(txs := s.txs[t := s.txs[t].(phase := phase)])
  }

  /** Ending a transaction releases the lock it holds. */
  function End(s: State, t: TxId, phase: Phase): State
    requires t in s.txs
  {
    var job := s.txs[t].job;
    var after := SetPhase(s, t, phase);
    if s.txs[t].phase.HasLock() && job.Locks() then after.(locks := s.locks - {job.Candidate().service}) else after
  }

  /** The next state, or None when the step cannot be taken: a lock that is held makes its taker wait. */
  function Next(s: State, step: ProtocolStep): Option<State> {
    match step
    case Begin(t, job) =>
      if t in s.txs || !Readable(s, job) then None else Some(s.(txs := s.txs[t := Tx(job, Started)]))
    case CheckSeat(t) =>
      if t !in s.txs || !s.txs[t].phase.Started? || !s.txs[t].job.BookJob? then None
      else
        var job := s.txs[t].job;
        if FindSeat(s.db.rows, job.client, job.service, job.at).Some? then Some(End(s, t, Done))
        else Some(SetPhase(s, t, Checked))
    case Lock(t) =>
      if t !in s.txs then None
      else
        var Tx(job, phase) := s.txs[t];
        if !(if job.BookJob? then phase.Checked? else phase.Started?) then None
        else if !job.Locks() then Some(SetPhase(s, t, Locked))
        else if job.Candidate().service in s.locks then None
        else Some(SetPhase(s, t, Locked).(locks := s.locks[job.Candidate().service := t]))
    case List(t) =>
      if t !in s.txs || !s.txs[t].phase.Locked? then None
      else Some(SetPhase(s, t, Listed(ListFor(s.db, s.txs[t].job))))
    case Decide(t, now) =>
      if t !in s.txs || !s.txs[t].phase.Listed? then None
      else
        var Tx(job, phase) := s.txs[t];
        if EvaluationOf(s.db, job, phase.booked).IsBookable() && WriteAllowed(job, now) then
          Some(SetPhase(s, t, Accepted))
        else Some(End(s, t, Failed))
    case Select(t) =>
      if t !in s.txs || !s.txs[t].phase.Accepted? || !s.txs[t].job.MoveJob? then None
      else
        var k := IndexOf(s.db.rows, s.txs[t].job.apt.id);
        if k == |s.db.rows| then None else Some(SetPhase(s, t, Selected(s.db.rows[k])))
    case Flush(t) =>
      if t !in s.txs then None
      else
        var Tx(job, phase) := s.txs[t];
        if job.BookJob? then
          if phase.Accepted? then Some(SetPhase(s, t, Flushed(None))) else None
        else if phase.Selected? && !RowBusy(s, job.apt.id) then Some(SetPhase(s, t, Flushed(Some(phase.base))))
        else None
    case Commit(t) =>
      if t !in s.txs || !s.txs[t].phase.Flushed? then None
      else Some(End(s, t, Done).(db := Write(s.db, s.txs[t].job, s.txs[t].phase.merged)))
    case Abort(t) =>
      if t !in s.txs || s.txs[t].phase.Ended() then None else Some(End(s, t, Failed))
    case Read(c, id, closing) =>
      var k := IndexOf(s.db.rows, id);
      if c in s.readings || k == |s.db.rows| then None
      else Some(s.(readings := s.readings[c := Reading(s.db.rows[k], closing, None)]))
    case Fetch(c) =>
      if c !in s.readings || s.readings[c].base.Some? then None
      else
        var k := IndexOf(s.db.rows, s.readings[c].row.id);
        if k == |s.db.rows| then None
        else Some(s.(readings := s.readings[c := s.readings[c].(base := Some(s.db.rows[k]))]))
    case Land(c, now) =>
      if c !in s.readings then None
      else
        var reading := s.readings[c];
        var rest := s.(readings := s.readings - {c});
        if !reading.WillWrite() then Some(rest)
        else if (reading.base.None? && !reading.ByColumn()) || RowBusy(s, reading.row.id) then None
        else Some(rest.(db := WriteClosed(s.db, reading, now)))
  }

  /** The state after a sequence of steps, if all of them can be taken. */
  function Execute(s: State, steps: seq<ProtocolStep>): Option<State>
    decreases |steps|
  {
    if steps == [] then Some(s)
    else
      match Next(s, steps[0])
      case None => None
      case Some(next) => Execute(next, steps[1..])
  }

  // ---------- safety of one service ----------

  /** Two live appointments of one service and professional that overlap belong to one session of a group class. */
  predicate OneSession(a: Row, b: Row, caps: map<Id, int>) {
    (a.IsLive() && b.IsLive() && a.business == b.business && a.service == b.service && a.professional == b.professional
     && a.scheduledAt < b.EndsAt() && b.scheduledAt < a.EndsAt()) ==>
      CapacityOf(caps, a.service) > 1 && a.scheduledAt == b.scheduledAt
  }

  ghost predicate Safe(db: Db) {
    && (forall i, j :: 0 <= i < j < |db.rows| ==> OneSession(db.rows[i], db.rows[j], Caps(db)))
    && (forall x: Session :: Seats(db.rows, x) <= CapacityOf(Caps(db), x.service))
  }

  function SessionOf(r: Row): Session { Session(r.service, r.scheduledAt, r.professional) }

  /** Writing r now would be safe. */
  ghost predicate FitsNow(db: Db, r: Row) {
    && (forall i :: 0 <= i < |db.rows| && db.rows[i].id != r.id ==> OneSession(db.rows[i], r, Caps(db)))
    && OtherSeats(db.rows, SessionOf(r), r.id) < CapacityOf(Caps(db), r.service)
  }

  /** r takes no seat that was did not take. */
  predicate TakesNoMore(r: Row, was: Row) {
    r.IsLive() ==> was.IsLive() && r.Place() == was.Place()
  }

  lemma AppendSafe(db: Db, r: Row)
    requires Placed(db) && Safe(db) && RowPlaced(r, db.services) && FitsNow(db, r)
    requires forall i :: 0 <= i < |db.rows| ==> db.rows[i].id != r.id
    ensures Placed(db.(rows := db.rows + [r])) && Safe(db.(rows := db.rows + [r]))
  {
    var next := db.(rows := db.rows + [r]);
    forall x: Session
      ensures Seats(next.rows, x) <= CapacityOf(Caps(next), x.service)
    {
      SeatsAppend(db.rows, r, x);
      OtherSeatsAbsent(db.rows, x, r.id);
      assert Seats(db.rows, x) <= CapacityOf(Caps(db), x.service);
    }
  }

  lemma ReplaceSafe(db: Db, k: nat, r: Row)
    requires Placed(db) && Safe(db) && k < |db.rows| && r.id == db.rows[k].id && RowPlaced(r, db.services)
    requires FitsNow(db, r) || TakesNoMore(r, db.rows[k])
    ensures Placed(db.(rows := db.rows[k := r])) && Safe(db.(rows := db.rows[k := r]))
  {
    var was, next := db.rows[k], db.(rows := db.rows[k := r]);
    forall i | 0 <= i < |db.rows| && i != k
      ensures OneSession(db.rows[i], r, Caps(db)) && OneSession(r, db.rows[i], Caps(db))
    {
      assert db.rows[i].id != r.id;
      assert if i < k then OneSession(db.rows[i], was, Caps(db)) else OneSession(was, db.rows[i], Caps(db));
    }
    forall x: Session
      ensures Seats(next.rows, x) <= CapacityOf(Caps(next), x.service)
    {
      SeatsUpdate(db.rows, k, r, x);
      OtherSeatsPresent(db.rows, k, x);
      assert Seats(db.rows, x) <= CapacityOf(Caps(db), x.service);
    }
  }

  // ---------- what is left standing while others act ----------

  lemma {:induction false} OtherSeatsUpdate(rows: seq<Row>, k: nat, r: Row, x: Session, id: Id)
    requires k < |rows|
    requires InSession(r, x) && r.id != id ==> InSession(rows[k], x) && rows[k].id != id
    ensures OtherSeats(rows[k := r], x, id) <= OtherSeats(rows, x, id)
  {
    if k > 0 {
      assert rows[k := r][1..] == rows[1..][k - 1 := r];
      OtherSeatsUpdate(rows[1..], k - 1, r, x, id);
    } else {
      assert rows[k := r][1..] == rows[1..];
    }
  }

  lemma {:induction false} OtherSeatsAppend(rows: seq<Row>, r: Row, x: Session, id: Id)
    requires !InSession(r, x)
    ensures OtherSeats(rows + [r], x, id) == OtherSeats(rows, x, id)
  {
    if rows == [] {
      assert rows + [r] == [r];
    } else {
      assert (rows + [r])[1..] == rows[1..] + [r];
      OtherSeatsAppend(rows[1..], r, x, id);
    }
  }

  /** Closing a row, or changing rows of another service, cannot invalidate what fits. */
  lemma FitsAfterReplace(db: Db, k: nat, w: Row, r: Row)
    requires FitsNow(db, r) && k < |db.rows| && w.id == db.rows[k].id
    requires w.service != r.service || TakesNoMore(w, db.rows[k])
    ensures FitsNow(db.(rows := db.rows[k := w]), r)
  {
    OtherSeatsUpdate(db.rows, k, w, SessionOf(r), r.id);
    assert OneSession(db.rows[k], r, Caps(db)) || db.rows[k].id == r.id;
  }

  lemma FitsAfterAppend(db: Db, w: Row, r: Row)
    requires FitsNow(db, r) && w.service != r.service
    ensures FitsNow(db.(rows := db.rows + [w]), r)
  {
    OtherSeatsAppend(db.rows, w, SessionOf(r), r.id);
  }

  /** Only id, place and liveness matter for fitting. */
  lemma SamePlaceFits(db: Db, a: Row, b: Row)
    requires FitsNow(db, a) && a.Place() == b.Place() && a.IsLive()
    ensures FitsNow(db, b)
  {
    forall i | 0 <= i < |db.rows| && db.rows[i].id != b.id
      ensures OneSession(db.rows[i], b, Caps(db))
    {
      assert OneSession(db.rows[i], a, Caps(db));
    }
  }

  // ---------- the invariant ----------

  /** The same appointment, whenever it takes place and however it stands. */
  predicate SameAppointment(a: Row, b: Row) { a.Place() == b.(scheduledAt := a.scheduledAt).Place() }

  /** A row that was read is still in the table, as far as it cannot change. */
  ghost predicate StillThere(db: Db, r: Row) {
    && IndexOf(db.rows, r.id) < |db.rows|
    && SameAppointment(db.rows[IndexOf(db.rows, r.id)], r)
  }

  /** The job still describes a row that can be written: a fresh one, or the one that was read. */
  ghost predicate JobFits(db: Db, tx: Tx) {
    && RowPlaced(tx.job.Candidate(), db.services)
    && match tx.job
       case BookJob(_, _, _, _, _, _, rowId) =>
         tx.phase.Ended() || forall i :: 0 <= i < |db.rows| ==> db.rows[i].id != rowId
       case MoveJob(apt, _, _) => StillThere(db, apt)
  }

  /** Once a transaction has listed, what its evaluation accepts stays true until it ends. */
  ghost predicate Promise(db: Db, tx: Tx) {
    && (tx.phase.Listed? && EvaluationOf(db, tx.job, tx.phase.booked).IsBookable() ==> FitsNow(db, tx.job.Candidate()))
    && (tx.phase.Judged() ==> FitsNow(db, tx.job.Candidate()))
  }

  ghost predicate TxsOk(s: State) {
    forall t :: t in s.txs ==> JobFits(s.db, s.txs[t]) && Promise(s.db, s.txs[t]) && s.txs[t].job.Locks()
  }

  ghost predicate ReadingsOk(s: State) {
    forall c :: c in s.readings ==> StillThere(s.db, s.readings[c].row)
  }

  /** A service's lock belongs to exactly the transaction that is between Lock and its end. */
  ghost predicate LocksOk(s: State) {
    && (forall x :: x in s.locks ==>
          s.locks[x] in s.txs && s.txs[s.locks[x]].phase.HasLock() && s.txs[s.locks[x]].job.Candidate().service == x)
    && (forall t :: t in s.txs && s.txs[t].phase.HasLock() ==>
          s.txs[t].job.Candidate().service in s.locks && s.locks[s.txs[t].job.Candidate().service] == t)
  }

  ghost predicate IdsOk(s: State) {
    forall t, u :: t in s.txs && u in s.txs && t != u && s.txs[t].job.BookJob? && s.txs[u].job.BookJob? ==>
      s.txs[t].job.rowId != s.txs[u].job.rowId
  }

  ghost predicate ProtocolInv(s: State) {
    Placed(s.db) && Safe(s.db) && TxsOk(s) && ReadingsOk(s) && LocksOk(s) && IdsOk(s)
  }

  /** What List establishes: the evaluation of the committed rows speaks for all of them. */
  lemma ListingPromises(db: Db, job: Job)
    requires Placed(db) && JobFits(db, Tx(job, Locked)) && job.Locks()
    requires EvaluationOf(db, job, ListFor(db, job)).IsBookable()
    ensures FitsNow(db, job.Candidate())
  {
    var r := job.Candidate();
    PartialVerdict(db, r, job.Exclude());
    AcceptedFits(db, r, job.Exclude());
    forall i | 0 <= i < |db.rows| && db.rows[i].id != r.id
      ensures OneSession(db.rows[i], r, Caps(db))
    {
      assert Compatible(db.rows[i], r, Caps(db));
    }
  }

  lemma LockIsExclusive(s: State, t: TxId, u: TxId)
    requires LocksOk(s) && t in s.txs && u in s.txs && t != u
    requires s.txs[t].phase.HasLock() && s.txs[u].phase.HasLock()
    ensures s.txs[t].job.Candidate().service != s.txs[u].job.Candidate().service
  {
  }

  // ---------- steps that leave the committed rows alone ----------

  lemma PhaseKeepsTxs(s: State, t: TxId, phase: Phase)
    requires TxsOk(s) && ReadingsOk(s) && IdsOk(s) && t in s.txs
    requires Promise(s.db, s.txs[t].(phase := phase))
    requires s.txs[t].phase.Ended() ==> phase.Ended()
    ensures var next := SetPhase(s, t, phase);
            TxsOk(next) && ReadingsOk(next) && IdsOk(next)
  {
    var next := SetPhase(s, t, phase);
    assert JobFits(s.db, s.txs[t]);
    assert JobFits(s.db, next.txs[t]);
  }

  lemma PhaseChangeKeeps(s: State, t: TxId, phase: Phase)
    requires ProtocolInv(s) && t in s.txs
    requires Promise(s.db, s.txs[t].(phase := phase))
    requires s.txs[t].phase.Ended() ==> phase.Ended()
    ensures phase.HasLock() == s.txs[t].phase.HasLock() ==> ProtocolInv(SetPhase(s, t, phase))
    ensures phase.Ended() ==> ProtocolInv(End(s, t, phase))
  {
    var next := SetPhase(s, t, phase);
    PhaseKeepsTxs(s, t, phase);
    if phase.Ended() {
      var end := End(s, t, phase);
      assert end.txs == next.txs && end.db == s.db && end.readings == s.readings;
      EndLocks(s, t, phase);
    }
  }

  lemma EndLocks(s: State, t: TxId, phase: Phase)
    requires LocksOk(s) && TxsOk(s) && t in s.txs && phase.Ended()
    ensures LocksOk(End(s, t, phase))
  {
    var end := End(s, t, phase);
    forall u | u in end.txs && end.txs[u].phase.HasLock()
      ensures end.txs[u].job.Candidate().service in end.locks && end.locks[end.txs[u].job.Candidate().service] == u
    {
      if s.txs[t].phase.HasLock() {
        LockIsExclusive(s, t, u);
      }
    }
  }

  lemma LockKeeps(s: State, t: TxId)
    requires ProtocolInv(s) && Next(s, Lock(t)).Some?
    ensures ProtocolInv(Next(s, Lock(t)).value)
  {
    var next := Next(s, Lock(t)).value;
    PhaseKeepsTxs(s, t, Locked);
    assert next.db == s.db && next.txs == SetPhase(s, t, Locked).txs && next.readings == s.readings;
    LockKeepsLocks(s, t);
  }

  lemma LockKeepsLocks(s: State, t: TxId)
    requires LocksOk(s) && TxsOk(s) && Next(s, Lock(t)).Some?
    ensures LocksOk(Next(s, Lock(t)).value)
  {
  }

  /** A job that was just read fits. */
  lemma ReadableFits(s: State, job: Job)
    requires Placed(s.db) && Readable(s, job)
    ensures JobFits(s.db, Tx(job, Started))
  {
    if job.MoveJob? {
      assert RowPlaced(s.db.rows[IndexOf(s.db.rows, job.apt.id)], s.db.services);
    }
  }

  lemma BeginKeeps(s: State, t: TxId, job: Job)
    requires ProtocolInv(s) && Next(s, Begin(t, job)).Some? && job.Locks()
    ensures ProtocolInv(Next(s, Begin(t, job)).value)
  {
    ReadableFits(s, job);
    assert Promise(s.db, Tx(job, Started));
  }

  lemma ListKeeps(s: State, t: TxId)
    requires ProtocolInv(s) && Next(s, List(t)).Some?
    ensures ProtocolInv(Next(s, List(t)).value)
  {
    var job := s.txs[t].job;
    assert JobFits(s.db, s.txs[t]);
    if EvaluationOf(s.db, job, ListFor(s.db, job)).IsBookable() {
      ListingPromises(s.db, job);
    }
    PhaseChangeKeeps(s, t, Listed(ListFor(s.db, job)));
  }

  lemma DecideKeeps(s: State, t: TxId, now: int)
    requires ProtocolInv(s) && Next(s, Decide(t, now)).Some?
    ensures ProtocolInv(Next(s, Decide(t, now)).value)
  {
    PhaseChangeKeeps(s, t, Failed);
    if Next(s, Decide(t, now)).value == SetPhase(s, t, Accepted) {
      assert JobFits(s.db, s.txs[t]) && Promise(s.db, s.txs[t]);
      PhaseChangeKeeps(s, t, Accepted);
    }
  }

  // ---------- steps that write ----------

  lemma SameIdsSameIndex(a: seq<Row>, b: seq<Row>, id: Id)
    requires |a| <= |b| && forall i :: 0 <= i < |a| ==> b[i].id == a[i].id
    requires IndexOf(a, id) < |a|
    ensures IndexOf(b, id) == IndexOf(a, id)
  {
    var i, j := IndexOf(a, id), IndexOf(b, id);
    assert b[i].id == id;
    assert j < |a| ==> a[j].id == b[j].id;
  }

  /** Rows are only added or replaced by rows of the same appointment. */
  ghost predicate RowsGrew(a: seq<Row>, b: seq<Row>) {
    |a| <= |b| && forall i :: 0 <= i < |a| ==> SameAppointment(a[i], b[i])
  }

  lemma StaysThere(before: Db, after: Db, r: Row)
    requires RowsGrew(before.rows, after.rows) && StillThere(before, r)
    ensures StillThere(after, r)
  {
    var k := IndexOf(before.rows, r.id);
    assert forall i :: 0 <= i < |before.rows| ==> SameAppointment(before.rows[i], after.rows[i]);
    SameIdsSameIndex(before.rows, after.rows, r.id);
    assert SameAppointment(before.rows[k], after.rows[k]);
  }

  /** What one write leaves of a job: its row is still there, and a fresh id is still fresh. */
  lemma JobSurvives(before: Db, after: Db, tx: Tx)
    requires JobFits(before, tx) && after.services == before.services && RowsGrew(before.rows, after.rows)
    requires tx.job.BookJob? ==>
               forall i :: |before.rows| <= i < |after.rows| ==> after.rows[i].id != tx.job.rowId
    ensures JobFits(after, tx)
  {
    if tx.job.MoveJob? {
      StaysThere(before, after, tx.job.apt);
    } else if !tx.phase.Ended() {
      forall i | 0 <= i < |after.rows|
        ensures after.rows[i].id != tx.job.rowId
      {
        assert i < |before.rows| ==> SameAppointment(before.rows[i], after.rows[i]);
      }
    }
  }

  lemma WriteGrows(db: Db, job: Job, merged: Option<Row>)
    ensures RowsGrew(db.rows, Write(db, job, merged).rows) && Write(db, job, merged).services == db.services
  {
  }

  /** What a commit leaves of another transaction's job and promise. */
  lemma OthersSurviveCommit(s: State, t: TxId, u: TxId)
    requires ProtocolInv(s) && t in s.txs && u in s.txs && t != u && s.txs[t].phase.Flushed?
    ensures var db := Write(s.db, s.txs[t].job, s.txs[t].phase.merged);
            JobFits(db, s.txs[u]) && Promise(db, s.txs[u])
  {
    var job, merged, other := s.txs[t].job, s.txs[t].phase.merged, s.txs[u];
    var db, r := Write(s.db, job, merged), other.job.Candidate();
    assert JobFits(s.db, other) && JobFits(s.db, s.txs[t]);
    WriteGrows(s.db, job, merged);
    JobSurvives(s.db, db, other);
    assert Caps(db) == Caps(s.db);
    assert forall booked :: EvaluationOf(db, other.job, booked) == EvaluationOf(s.db, other.job, booked);
    if other.phase.HasLock() && FitsNow(s.db, r) {
      LockIsExclusive(s, t, u);
      if job.BookJob? {
        FitsAfterAppend(s.db, job.Candidate(), r);
      } else if merged.Some? {
        var k := IndexOf(s.db.rows, job.apt.id);
        FitsAfterReplace(s.db, k, Merged(s.db.rows[k], merged.value, job.Candidate()), r);
      }
    }
  }

  /** The update puts the row where it was evaluated, or takes no more than the row did. */
  predicate MovesWell(db: Db, job: Job, merged: Option<Row>) {
    job.MoveJob? && merged.Some? && IndexOf(db.rows, job.apt.id) < |db.rows| ==>
      var current := db.rows[IndexOf(db.rows, job.apt.id)];
      var w := Merged(current, merged.value, job.Candidate());
      w.scheduledAt == job.at || TakesNoMore(w, current)
  }

  lemma CommitIsSafe(db: Db, tx: Tx)
    requires Placed(db) && Safe(db) && JobFits(db, tx) && Promise(db, tx) && tx.phase.Flushed?
    requires MovesWell(db, tx.job, tx.phase.merged)
    ensures var next := Write(db, tx.job, tx.phase.merged);
            Placed(next) && Safe(next) && JobFits(next, tx.(phase := Done))
  {
    var cand, merged := tx.job.Candidate(), tx.phase.merged;
    if tx.job.BookJob? {
      AppendSafe(db, cand);
    } else if merged.Some? {
      var k := IndexOf(db.rows, tx.job.apt.id);
      var w := Merged(db.rows[k], merged.value, cand);
      if w.scheduledAt == tx.job.at {
        SamePlaceFits(db, cand, w);
      }
      assert RowPlaced(db.rows[k], db.services);
      ReplaceSafe(db, k, w);
      WriteGrows(db, tx.job, merged);
      StaysThere(db, Write(db, tx.job, merged), tx.job.apt);
    }
  }

  lemma ReadingsSurvive(s: State, next: State)
    requires ReadingsOk(s) && RowsGrew(s.db.rows, next.db.rows)
    requires forall c :: c in next.readings ==> c in s.readings && next.readings[c] == s.readings[c]
    ensures ReadingsOk(next)
  {
    forall c | c in next.readings
      ensures StillThere(next.db, next.readings[c].row)
    {
      StaysThere(s.db, next.db, s.readings[c].row);
    }
  }

  lemma CommitKeeps(s: State, t: TxId)
    requires ProtocolInv(s) && Next(s, Commit(t)).Some? && MovesWell(s.db, s.txs[t].job, s.txs[t].phase.merged)
    ensures ProtocolInv(Next(s, Commit(t)).value)
  {
    var next := Next(s, Commit(t)).value;
    assert JobFits(s.db, s.txs[t]) && Promise(s.db, s.txs[t]);
    CommitIsSafe(s.db, s.txs[t]);
    WriteGrows(s.db, s.txs[t].job, s.txs[t].phase.merged);
    ReadingsSurvive(s, next);
    EndLocks(s, t, Done);
    CommitKeepsTxs(s, t);
  }

  lemma CommitKeepsTxs(s: State, t: TxId)
    requires ProtocolInv(s) && Next(s, Commit(t)).Some? && MovesWell(s.db, s.txs[t].job, s.txs[t].phase.merged)
    ensures TxsOk(Next(s, Commit(t)).value) && IdsOk(Next(s, Commit(t)).value)
  {
    var next := Next(s, Commit(t)).value;
    assert JobFits(s.db, s.txs[t]) && Promise(s.db, s.txs[t]);
    CommitIsSafe(s.db, s.txs[t]);
    assert next.txs[t] == s.txs[t].(phase := Done);
    forall u | u in next.txs
      ensures JobFits(next.db, next.txs[u]) && Promise(next.db, next.txs[u]) && next.txs[u].job.Locks()
    {
      if u != t {
        OthersSurviveCommit(s, t, u);
      }
    }
  }

  /** Replacing a row by one that takes no more leaves jobs and promises standing. */
  lemma OthersSurviveClose(db: Db, k: nat, w: Row, tx: Tx)
    requires k < |db.rows| && SameAppointment(db.rows[k], w) && TakesNoMore(w, db.rows[k])
    requires JobFits(db, tx) && Promise(db, tx)
    ensures JobFits(db.(rows := db.rows[k := w]), tx) && Promise(db.(rows := db.rows[k := w]), tx)
  {
    if FitsNow(db, tx.job.Candidate()) {
      FitsAfterReplace(db, k, w, tx.job.Candidate());
    }
    JobSurvives(db, db.(rows := db.rows[k := w]), tx);
  }

  lemma ReadKeeps(s: State, c: TxId, id: Id, closing: Closing)
    requires ProtocolInv(s) && Next(s, Read(c, id, closing)).Some?
    ensures ProtocolInv(Next(s, Read(c, id, closing)).value)
  {
  }

  lemma FetchKeeps(s: State, c: TxId)
    requires ProtocolInv(s) && Next(s, Fetch(c)).Some?
    ensures ProtocolInv(Next(s, Fetch(c)).value)
  {
  }

  /** A closing's update takes no more than the row did. A confirm does so exactly on a live row. */
  predicate LandsWell(db: Db, reading: Reading, now: int) {
    var k := IndexOf(db.rows, reading.row.id);
    reading.WillWrite() && k < |db.rows| ==> TakesNoMore(Closed(db.rows[k], reading, now), db.rows[k])
  }

  lemma ReplaceKeepsProtocol(s: State, k: nat, w: Row)
    requires ProtocolInv(s) && k < |s.db.rows| && w.id == s.db.rows[k].id && RowPlaced(w, s.db.services)
    requires SameAppointment(s.db.rows[k], w) && TakesNoMore(w, s.db.rows[k])
    ensures ProtocolInv(s.(db := s.db.(rows := s.db.rows[k := w])))
  {
    var next := s.(db := s.db.(rows := s.db.rows[k := w]));
    ReplaceSafe(s.db, k, w);
    ReadingsSurvive(s, next);
    forall u | u in s.txs
      ensures JobFits(next.db, s.txs[u]) && Promise(next.db, s.txs[u])
    {
      OthersSurviveClose(s.db, k, w, s.txs[u]);
    }
  }

  /** A reading that is dropped costs nothing. */
  lemma DroppingKeeps(s: State, c: TxId)
    requires ProtocolInv(s)
    ensures ProtocolInv(s.(readings := s.readings - {c}))
  {
  }

  lemma LandKeeps(s: State, c: TxId, now: int)
    requires ProtocolInv(s) && Next(s, Land(c, now)).Some? && LandsWell(s.db, s.readings[c], now)
    ensures ProtocolInv(Next(s, Land(c, now)).value)
  {
    var reading := s.readings[c];
    var rest := s.(readings := s.readings - {c});
    DroppingKeeps(s, c);
    if reading.WillWrite() {
      var k := IndexOf(s.db.rows, reading.row.id);
      assert StillThere(s.db, reading.row) && RowPlaced(s.db.rows[k], s.db.services);
      var w := Closed(s.db.rows[k], reading, now);
      ClosedIsSame(s.db.rows[k], reading, now);
      ReplaceKeepsProtocol(rest, k, w);
      assert WriteClosed(s.db, reading, now) == s.db.(rows := s.db.rows[k := w]);
    }
  }

  lemma ClosedIsSame(current: Row, reading: Reading, now: int)
    ensures SameAppointment(current, Closed(current, reading, now))
  {
  }

  // ---------- runs ----------

  /** Moves are given the catalogue, as the agent's moves are, and no update brings to life what nobody evaluated. */
  predicate Guarded(s: State, step: ProtocolStep) {
    match step
    case Begin(_, job) => job.Locks()
    case Commit(t) => t in s.txs && s.txs[t].phase.Flushed? ==> MovesWell(s.db, s.txs[t].job, s.txs[t].phase.merged)
    case Land(c, now) => c in s.readings ==> LandsWell(s.db, s.readings[c], now)
    case _ => true
  }

  predicate GuardedRun(s: State, steps: seq<ProtocolStep>)
    decreases |steps|
  {
    steps != [] && Next(s, steps[0]).Some? ==>
      Guarded(s, steps[0]) && GuardedRun(Next(s, steps[0]).value, steps[1..])
  }

  lemma SeatCheckKeeps(s: State, t: TxId)
    requires ProtocolInv(s) && Next(s, CheckSeat(t)).Some?
    ensures ProtocolInv(Next(s, CheckSeat(t)).value)
  {
    var job := s.txs[t].job;
    if FindSeat(s.db.rows, job.client, job.service, job.at).Some? {
      PhaseChangeKeeps(s, t, Done);
    } else {
      PhaseChangeKeeps(s, t, Checked);
    }
  }

  lemma SelectKeeps(s: State, t: TxId)
    requires ProtocolInv(s) && Next(s, Select(t)).Some?
    ensures ProtocolInv(Next(s, Select(t)).value)
  {
    assert Promise(s.db, s.txs[t]);
    PhaseChangeKeeps(s, t, Selected(s.db.rows[IndexOf(s.db.rows, s.txs[t].job.apt.id)]));
  }

  lemma FlushKeeps(s: State, t: TxId)
    requires ProtocolInv(s) && Next(s, Flush(t)).Some?
    ensures ProtocolInv(Next(s, Flush(t)).value)
  {
    assert Promise(s.db, s.txs[t]);
    PhaseChangeKeeps(s, t, Flushed(if s.txs[t].job.BookJob? then None else Some(s.txs[t].phase.base)));
  }

  lemma AbortKeeps(s: State, t: TxId)
    requires ProtocolInv(s) && Next(s, Abort(t)).Some?
    ensures ProtocolInv(Next(s, Abort(t)).value)
  {
    PhaseChangeKeeps(s, t, Failed);
  }

  lemma StepKeepsProtocol(s: State, step: ProtocolStep)
    requires ProtocolInv(s) && Guarded(s, step) && Next(s, step).Some?
    ensures ProtocolInv(Next(s, step).value)
  {
    match step
    case Begin(t, job) => BeginKeeps(s, t, job);
    case CheckSeat(t) => SeatCheckKeeps(s, t);
    case Lock(t) => LockKeeps(s, t);
    case List(t) => ListKeeps(s, t);
    case Decide(t, now) => DecideKeeps(s, t, now);
    case Select(t) => SelectKeeps(s, t);
    case Flush(t) => FlushKeeps(s, t);
    case Commit(t) => CommitKeeps(s, t);
    case Abort(t) => AbortKeeps(s, t);
    case Read(c, id, closing) => ReadKeeps(s, c, id, closing);
    case Fetch(c) => FetchKeeps(s, c);
    case Land(c, now) => LandKeeps(s, c, now);
  }

  /**
    In every interleaving of bookings, of moves given the catalogue, and of closings
    that write on what they read earlier, committed seats stay within capacity for
    each professional value and overlapping sessions of one service are one session,
    as long as no update brings to life what nobody evaluated.
   */
  lemma {:induction false} InterleavingsAreSafe(s: State, steps: seq<ProtocolStep>)
    requires ProtocolInv(s) && Execute(s, steps).Some? && GuardedRun(s, steps)
    ensures ProtocolInv(Execute(s, steps).value)
    ensures Safe(Execute(s, steps).value.db)
    decreases |steps|
  {
    if steps != [] {
      StepKeepsProtocol(s, steps[0]);
      InterleavingsAreSafe(Next(s, steps[0]).value, steps[1..]);
    }
  }

  // ---------- when runs are guarded ----------

  /** A closing that finds the appointment at the start it read, and not come to life since it was selected again. */
  predicate Undisturbed(db: Db, reading: Reading) {
    var k := IndexOf(db.rows, reading.row.id);
    reading.WillWrite() && k < |db.rows| ==>
      var current := db.rows[k];
      if reading.ByColumn() then reading.closing.Confirm? ==> current.IsLive()
      else reading.base.Some? ==>
        && reading.base.value.scheduledAt == reading.row.scheduledAt
        && (current.IsLive() ==> reading.base.value.IsLive())
  }

  /** The condition on closings alone: moves lock, and every closing that writes is undisturbed. */
  predicate Calm(s: State, step: ProtocolStep) {
    match step
    case Begin(_, job) => job.Locks()
    case Land(c, _) => c in s.readings ==> Undisturbed(s.db, s.readings[c])
    case _ => true
  }

  predicate CalmRun(s: State, steps: seq<ProtocolStep>)
    decreases |steps|
  {
    steps != [] && Next(s, steps[0]).Some? ==>
      Calm(s, steps[0]) && CalmRun(Next(s, steps[0]).value, steps[1..])
  }

  lemma UndisturbedLandsWell(db: Db, reading: Reading, now: int)
    requires Undisturbed(db, reading)
    ensures LandsWell(db, reading, now)
    ensures IndexOf(db.rows, reading.row.id) < |db.rows| && reading.WillWrite() ==>
              var current := db.rows[IndexOf(db.rows, reading.row.id)];
              Closed(current, reading, now).scheduledAt == current.scheduledAt
  {
  }

  /** The row that a move selected for its merge. */
  function BaseOf(phase: Phase): Option<Row> {
    match phase
    case Selected(base) => Some(base)
    case Flushed(merged) => merged
    case _ => None
  }

  /** The appointment of a move that has selected it stays at the start that was selected. */
  ghost predicate StartHeld(db: Db, tx: Tx) {
    tx.job.MoveJob? && BaseOf(tx.phase).Some? && IndexOf(db.rows, tx.job.apt.id) < |db.rows| ==>
      db.rows[IndexOf(db.rows, tx.job.apt.id)].scheduledAt == BaseOf(tx.phase).value.scheduledAt
  }

  ghost predicate StartsHeld(s: State) { forall t :: t in s.txs ==> StartHeld(s.db, s.txs[t]) }

  lemma HeldMovesWell(db: Db, tx: Tx)
    requires StartHeld(db, tx) && tx.phase.Flushed?
    ensures MovesWell(db, tx.job, tx.phase.merged)
  {
  }

  /** A write that leaves the start of tx's row alone leaves it held. */
  lemma HeldAfterWrite(before: Db, after: Db, tx: Tx)
    requires StartHeld(before, tx) && JobFits(before, tx) && RowsGrew(before.rows, after.rows)
    requires tx.job.MoveJob? && BaseOf(tx.phase).Some? ==>
               var k := IndexOf(before.rows, tx.job.apt.id);
               k < |before.rows| ==> after.rows[k].scheduledAt == before.rows[k].scheduledAt
    ensures StartHeld(after, tx)
  {
    if tx.job.MoveJob? {
      assert forall i :: 0 <= i < |before.rows| ==> SameAppointment(before.rows[i], after.rows[i]);
      SameIdsSameIndex(before.rows, after.rows, tx.job.apt.id);
    }
  }

  /** The service's lock keeps other moves of the same appointment away. */
  lemma OthersHeldAfterCommit(s: State, t: TxId, u: TxId)
    requires ProtocolInv(s) && StartsHeld(s) && t in s.txs && u in s.txs && t != u && s.txs[t].phase.Flushed?
    ensures StartHeld(Write(s.db, s.txs[t].job, s.txs[t].phase.merged), s.txs[u])
  {
    var job, tx := s.txs[t].job, s.txs[u];
    assert JobFits(s.db, tx) && JobFits(s.db, s.txs[t]);
    WriteGrows(s.db, job, s.txs[t].phase.merged);
    if tx.job.MoveJob? && BaseOf(tx.phase).Some? {
      LockIsExclusive(s, t, u);
      assert job.MoveJob? ==> job.apt.id != tx.job.apt.id;
    }
    HeldAfterWrite(s.db, Write(s.db, job, s.txs[t].phase.merged), tx);
  }

  lemma CommitHolds(s: State, t: TxId)
    requires ProtocolInv(s) && StartsHeld(s) && Next(s, Commit(t)).Some?
    ensures StartsHeld(Next(s, Commit(t)).value)
  {
    var next := Next(s, Commit(t)).value;
    forall u | u in next.txs
      ensures StartHeld(next.db, next.txs[u])
    {
      if u == t {
        assert BaseOf(next.txs[u].phase).None?;
      } else {
        assert next.txs[u] == s.txs[u];
        OthersHeldAfterCommit(s, t, u);
      }
    }
  }

  lemma LandHolds(s: State, c: TxId, now: int)
    requires ProtocolInv(s) && StartsHeld(s) && Next(s, Land(c, now)).Some? && Undisturbed(s.db, s.readings[c])
    ensures StartsHeld(Next(s, Land(c, now)).value)
  {
    var next := Next(s, Land(c, now)).value;
    UndisturbedLandsWell(s.db, s.readings[c], now);
    forall u | u in next.txs
      ensures StartHeld(next.db, next.txs[u])
    {
      assert JobFits(s.db, s.txs[u]) && StartHeld(s.db, s.txs[u]);
      HeldAfterWrite(s.db, next.db, s.txs[u]);
    }
  }

  /** Only Select gives a move a base, and it is the row as it is. */
  lemma BaseComesFrom(s: State, step: ProtocolStep, u: TxId)
    requires Next(s, step).Some? && !step.Commit? && !step.Land? && u in Next(s, step).value.txs
    requires Next(s, step).value.txs[u].job.MoveJob? && BaseOf(Next(s, step).value.txs[u].phase).Some?
    ensures var tx := Next(s, step).value.txs[u];
            var k := IndexOf(s.db.rows, tx.job.apt.id);
            || (u in s.txs && s.txs[u].job == tx.job && BaseOf(s.txs[u].phase) == BaseOf(tx.phase))
            || (k < |s.db.rows| && BaseOf(tx.phase) == Some(s.db.rows[k]))
  {
  }

  lemma OnlyWritesWrite(s: State, step: ProtocolStep)
    requires Next(s, step).Some? && !step.Commit? && !step.Land?
    ensures Next(s, step).value.db == s.db
  {
  }

  /** Steps that write nothing. */
  lemma OtherStepsHold(s: State, step: ProtocolStep)
    requires StartsHeld(s) && Next(s, step).Some? && !step.Commit? && !step.Land?
    ensures StartsHeld(Next(s, step).value)
  {
    var next := Next(s, step).value;
    OnlyWritesWrite(s, step);
    forall u | u in next.txs
      ensures StartHeld(next.db, next.txs[u])
    {
      assert u in s.txs ==> StartHeld(s.db, s.txs[u]);
      if next.txs[u].job.MoveJob? && BaseOf(next.txs[u].phase).Some? {
        BaseComesFrom(s, step, u);
      }
    }
  }

  lemma CalmStepHolds(s: State, step: ProtocolStep)
    requires ProtocolInv(s) && StartsHeld(s) && Calm(s, step) && Next(s, step).Some?
    ensures Guarded(s, step) && StartsHeld(Next(s, step).value)
  {
    match step
    case Commit(t) =>
      HeldMovesWell(s.db, s.txs[t]);
      CommitHolds(s, t);
    case Land(c, now) =>
      UndisturbedLandsWell(s.db, s.readings[c], now);
      LandHolds(s, c, now);
    case _ => OtherStepsHold(s, step);
  }

  /**
    From a state without transactions, undisturbed closings are all it takes: the
    service's lock then sees to it that every move lands where it was evaluated.
   */
  lemma {:induction false} CalmRunsAreGuarded(s: State, steps: seq<ProtocolStep>)
    requires ProtocolInv(s) && StartsHeld(s) && CalmRun(s, steps)
    ensures GuardedRun(s, steps)
    decreases |steps|
  {
    if steps != [] && Next(s, steps[0]).Some? {
      CalmStepHolds(s, steps[0]);
      StepKeepsProtocol(s, steps[0]);
      CalmRunsAreGuarded(Next(s, steps[0]).value, steps[1..]);
    }
  }

  /** A state between use cases, whatever agenda sequential runs led to, satisfies the invariant. */
  lemma QuietStateIsSafe(db: Db)
    requires Inv(db)
    ensures ProtocolInv(State(db, map[], map[], map[]))
  {
    forall i, j | 0 <= i < j < |db.rows|
      ensures OneSession(db.rows[i], db.rows[j], Caps(db))
    {
      assert Compatible(db.rows[i], db.rows[j], Caps(db));
    }
  }
}
