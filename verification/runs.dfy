/**
  Sequential runs of the scheduling use cases, and what every run keeps: no two
  live appointments clash and no session is overfull.
 */
module Runs {
  import opened Wrappers
  import opened Appointments
  import opened SlotOccupancy
  import opened Scheduling
  import opened Queries
  import opened Text

  datatype Action =
    | Book(input: BookInput, withProfessionals: bool, now: int, freshClient: Id, freshRow: Id)
    | Move(id: Id, at: int, zoned: bool, now: int, withServices: bool)
    | Close(id: Id, closing: Closing, now: int)
    | EditService(service: Id, durationMinutes: int, price: Option<int>, isActive: bool)

  function Step(db: Db, a: Action): Db {
    match a
    case Book(input, withProfessionals, now, freshClient, freshRow) =>
      BookStep(db, input, withProfessionals, now, freshClient, freshRow).0
    case Move(id, at, zoned, now, withServices) => MoveStep(db, id, at, zoned, now, withServices).0
    case Close(id, closing, now) => CloseStep(db, id, closing, now).0
    case EditService(s, durationMinutes, price, isActive) =>
      if s !in db.services || durationMinutes < 1 || (price.Some? && price.value < 0) then db
      else
        db.(services := db.services[s := db.services[s].(durationMinutes := durationMinutes, price := price,
                                                          isActive := isActive)])
  }

  function Run(db: Db, actions: seq<Action>): Db
    decreases |actions|
  {
    if actions == [] then db else Run(Step(db, actions[0]), actions[1..])
  }

  /** Identifiers drawn for new rows and clients are not in use. */
  predicate Fresh(db: Db, a: Action) {
    a.Book? ==>
      && (forall i :: 0 <= i < |db.rows| ==> db.rows[i].id != a.freshRow && db.rows[i].client != a.freshClient)
      && (forall i :: 0 <= i < |db.clients| ==> db.clients[i].id != a.freshClient)
  }

  predicate FreshRun(db: Db, actions: seq<Action>)
    decreases |actions|
  {
    actions != [] ==> Fresh(db, actions[0]) && FreshRun(Step(db, actions[0]), actions[1..])
  }

  // ---------- the invariant ----------

  /** Two live appointments of one professional value that share an instant must be a parallel or a common session. */
  predicate Compatible(a: Row, b: Row, caps: map<Id, int>) {
    (a.IsLive() && b.IsLive() && a.business == b.business && a.professional == b.professional
     && a.scheduledAt < b.EndsAt() && b.scheduledAt < a.EndsAt()) ==>
      && CapacityOf(caps, a.service) > 1
      && CapacityOf(caps, b.service) > 1
      && (a.service == b.service ==> a.scheduledAt == b.scheduledAt)
  }

  datatype Session = Session(service: Id, at: int, professional: Option<Id>)

  predicate InSession(r: Row, s: Session) {
    r.IsLive() && r.service == s.service && r.scheduledAt == s.at && r.professional == s.professional
  }

  function Seats(rows: seq<Row>, s: Session): nat {
    if rows == [] then 0 else (if InSession(rows[0], s) then 1 else 0) + Seats(rows[1..], s)
  }

  function Caps(db: Db): map<Id, int> { CapacityMap(db.services, db.services.Keys) }

  predicate UniqueIds(rows: seq<Row>) {
    forall i, j :: 0 <= i < j < |rows| ==> rows[i].id != rows[j].id
  }

  /** A row of a known service of its business, with a length. */
  predicate RowPlaced(r: Row, services: map<Id, Service>) {
    r.durationMinutes >= 1 && r.service in services && services[r.service].business == r.business
  }

  predicate RowFits(r: Row, services: map<Id, Service>) { r.Valid() && RowPlaced(r, services) }

  /** What the occupancy rule needs of the tables. */
  ghost predicate Placed(db: Db) {
    && (forall s :: s in db.services ==> db.services[s].capacity >= 1 && db.services[s].durationMinutes >= 1)
    && (forall i :: 0 <= i < |db.rows| ==> RowPlaced(db.rows[i], db.services))
    && UniqueIds(db.rows)
  }

  ghost predicate WellFormed(db: Db) {
    && (forall s :: s in db.services ==> db.services[s].capacity >= 1 && db.services[s].durationMinutes >= 1)
    && (forall i :: 0 <= i < |db.rows| ==> RowFits(db.rows[i], db.services))
    && UniqueIds(db.rows)
  }

  ghost predicate NoClash(db: Db) {
    forall i, j :: 0 <= i < j < |db.rows| ==> Compatible(db.rows[i], db.rows[j], Caps(db))
  }

  ghost predicate WithinCapacity(db: Db) {
    forall s: Session :: Seats(db.rows, s) <= CapacityOf(Caps(db), s.service)
  }

  ghost predicate Inv(db: Db) { WellFormed(db) && NoClash(db) && WithinCapacity(db) }

  // ---------- seats ----------

  lemma {:induction false} SeatsUpdate(rows: seq<Row>, k: nat, r: Row, s: Session)
    requires k < |rows|
    ensures Seats(rows[k := r], s) + (if InSession(rows[k], s) then 1 else 0)
         == Seats(rows, s) + (if InSession(r, s) then 1 else 0)
  {
    if k > 0 {
      assert rows[k := r][1..] == rows[1..][k - 1 := r];
      SeatsUpdate(rows[1..], k - 1, r, s);
    } else {
      assert rows[k := r][1..] == rows[1..];
    }
  }

  lemma {:induction false} SeatsAppend(rows: seq<Row>, r: Row, s: Session)
    ensures Seats(rows + [r], s) == Seats(rows, s) + if InSession(r, s) then 1 else 0
  {
    if rows == [] {
      assert rows + [r] == [r];
    } else {
      assert (rows + [r])[1..] == rows[1..] + [r];
      SeatsAppend(rows[1..], r, s);
    }
  }

  /** Seats of a session held by rows other than this one. */
  function OtherSeats(rows: seq<Row>, s: Session, id: Id): nat {
    if rows == [] then 0
    else (if InSession(rows[0], s) && rows[0].id != id then 1 else 0) + OtherSeats(rows[1..], s, id)
  }

  lemma {:induction false} OtherSeatsAbsent(rows: seq<Row>, s: Session, id: Id)
    requires forall i :: 0 <= i < |rows| ==> rows[i].id != id
    ensures OtherSeats(rows, s, id) == Seats(rows, s)
  {
    if rows != [] {
      OtherSeatsAbsent(rows[1..], s, id);
    }
  }

  lemma {:induction false} OtherSeatsPresent(rows: seq<Row>, k: nat, s: Session)
    requires k < |rows| && UniqueIds(rows)
    ensures OtherSeats(rows, s, rows[k].id) + (if InSession(rows[k], s) then 1 else 0) == Seats(rows, s)
  {
    if k > 0 {
      OtherSeatsPresent(rows[1..], k - 1, s);
    } else {
      OtherSeatsAbsent(rows[1..], s, rows[0].id);
    }
  }

  /** The evaluation counts at least the seats of the session it asks about. */
  lemma {:induction false} EvaluationSeesSeats(rows: seq<Row>, services: map<Id, Service>, r: Row, slot: Slot)
    requires forall i :: 0 <= i < |rows| ==> RowPlaced(rows[i], services)
    requires RowPlaced(r, services)
    requires slot == SlotFor(r.service, r.scheduledAt, r.durationMinutes, slot.exclude)
    requires slot.exclude == None || slot.exclude == Some(r.id)
    ensures OtherSeats(rows, Session(r.service, r.scheduledAt, r.professional), r.id)
         <= PlacesTaken(ActiveInRange(rows, r.business, slot.start, slot.end, r.professional), slot)
  {
    if rows != [] {
      EvaluationSeesSeats(rows[1..], services, r, slot);
      var rest := ActiveInRange(rows[1..], r.business, slot.start, slot.end, r.professional);
      assert ([rows[0]] + rest)[1..] == rest;
      assert [] + rest == rest;
    }
  }

  // ---------- acceptance implies the row fits ----------

  /** The evaluation under the whole catalogue of the slot that r would occupy. */
  function Verdict(db: Db, r: Row, exclude: Option<Id>): SlotEvaluation {
    var slot := SlotFor(r.service, r.scheduledAt, r.durationMinutes, exclude);
    Evaluate(slot, CapacityOf(Caps(db), r.service),
             ActiveInRange(db.rows, r.business, slot.start, slot.end, r.professional), Caps(db))
  }

  lemma AcceptedFits(db: Db, r: Row, exclude: Option<Id>)
    requires Placed(db) && RowPlaced(r, db.services)
    requires exclude == Some(r.id) || (exclude == None && forall i :: 0 <= i < |db.rows| ==> db.rows[i].id != r.id)
    requires Verdict(db, r, exclude).IsBookable()
    ensures forall i :: 0 <= i < |db.rows| && db.rows[i].id != r.id ==>
              Compatible(db.rows[i], r, Caps(db)) && Compatible(r, db.rows[i], Caps(db))
    ensures OtherSeats(db.rows, Session(r.service, r.scheduledAt, r.professional), r.id)
          < CapacityOf(Caps(db), r.service)
  {
    var slot := SlotFor(r.service, r.scheduledAt, r.durationMinutes, exclude);
    var booked := ActiveInRange(db.rows, r.business, slot.start, slot.end, r.professional);
    EvaluationSeesSeats(db.rows, db.services, r, slot);
    if CapacityOf(Caps(db), r.service) <= 1 {
      NoOverlapNoPlace(booked, slot);
    }
    forall i | 0 <= i < |db.rows| && db.rows[i].id != r.id
      ensures Compatible(db.rows[i], r, Caps(db)) && Compatible(r, db.rows[i], Caps(db))
    {
      AcceptedIsCompatible(db, r, exclude, i);
    }
  }

  lemma AcceptedIsCompatible(db: Db, r: Row, exclude: Option<Id>, i: nat)
    requires i < |db.rows| && db.rows[i].id != r.id && (exclude == None || exclude == Some(r.id))
    requires Verdict(db, r, exclude).IsBookable()
    ensures Compatible(db.rows[i], r, Caps(db)) && Compatible(r, db.rows[i], Caps(db))
  {
    var slot := SlotFor(r.service, r.scheduledAt, r.durationMinutes, exclude);
    var booked := ActiveInRange(db.rows, r.business, slot.start, slot.end, r.professional);
    var o := db.rows[i];
    if InRange(o, r.business, slot.start, slot.end, r.professional) {
      ActiveInRangeExact(db.rows, r.business, slot.start, slot.end, r.professional, o);
      assert o in multiset(booked);
      var j :| 0 <= j < |booked| && booked[j] == o;
      assert Overlaps(booked[j], slot);
      assert CapacityOf(Caps(db), r.service) > 1 ==> !Blocks(booked[j], slot, Caps(db));
    }
  }

  lemma {:induction false} NoOverlapNoPlace(booked: seq<Row>, slot: Slot)
    requires !AnyOverlap(booked, slot)
    ensures PlacesTaken(booked, slot) == 0
  {
    if booked != [] {
      assert !Overlaps(booked[0], slot);
      AnyOverlapSplit(booked, slot, map[]);
      NoOverlapNoPlace(booked[1..], slot);
    }
  }

  // ---------- preservation ----------

  lemma AppendKeeps(db: Db, r: Row)
    requires Inv(db) && RowFits(r, db.services)
    requires forall i :: 0 <= i < |db.rows| ==> db.rows[i].id != r.id
    requires Verdict(db, r, None).IsBookable()
    ensures Inv(db.(rows := db.rows + [r]))
  {
    AcceptedFits(db, r, None);
    var more := db.(rows := db.rows + [r]);
    forall s: Session
      ensures Seats(more.rows, s) <= CapacityOf(Caps(more), s.service)
    {
      SeatsAppend(db.rows, r, s);
      OtherSeatsAbsent(db.rows, s, r.id);
      assert Seats(db.rows, s) <= CapacityOf(Caps(db), s.service);
    }
  }

  lemma ReplaceKeeps(db: Db, k: nat, r: Row)
    requires Inv(db) && k < |db.rows| && RowFits(r, db.services) && r.id == db.rows[k].id
    requires r.IsLive() && r.Place() != db.rows[k].Place() ==> Verdict(db, r, Some(r.id)).IsBookable()
    requires r.IsLive() && !db.rows[k].IsLive() ==> Verdict(db, r, Some(r.id)).IsBookable()
    ensures Inv(db.(rows := db.rows[k := r]))
  {
    var was := db.rows[k];
    var next := db.(rows := db.rows[k := r]);
    var judged := r.IsLive() && (r.Place() != was.Place() || !was.IsLive());
    if judged {
      AcceptedFits(db, r, Some(r.id));
    }
    forall i | 0 <= i < |db.rows| && i != k
      ensures Compatible(db.rows[i], r, Caps(db)) && Compatible(r, db.rows[i], Caps(db))
    {
      assert db.rows[i].id != r.id;
      if !judged && r.IsLive() {
        assert if i < k then Compatible(db.rows[i], was, Caps(db)) else Compatible(was, db.rows[i], Caps(db));
      }
    }
    forall s: Session
      ensures Seats(next.rows, s) <= CapacityOf(Caps(next), s.service)
    {
      SeatsUpdate(db.rows, k, r, s);
      OtherSeatsPresent(db.rows, k, s);
      assert Seats(db.rows, s) <= CapacityOf(Caps(db), s.service);
    }
  }

  /** A use case evaluates with part of the catalogue; the verdict is that of the whole. */
  lemma PartialVerdict(db: Db, r: Row, exclude: Option<Id>)
    requires r.service in db.services
    ensures var slot := SlotFor(r.service, r.scheduledAt, r.durationMinutes, exclude);
            var booked := ActiveInRange(db.rows, r.business, slot.start, slot.end, r.professional);
            Evaluate(slot, db.services[r.service].capacity, booked,
                     CapacityMap(db.services, ServicesOf(booked) + {r.service})) == Verdict(db, r, exclude)
  {
    var slot := SlotFor(r.service, r.scheduledAt, r.durationMinutes, exclude);
    var booked := ActiveInRange(db.rows, r.business, slot.start, slot.end, r.professional);
    var partial := CapacityMap(db.services, ServicesOf(booked) + {r.service});
    forall x | x in Overlapping(booked, slot)
      ensures CapacityOf(partial, x.service) == CapacityOf(Caps(db), x.service)
    {
      OverlappingSubset(booked, slot, x);
      PartialCapacities(db.services, ServicesOf(booked) + {r.service}, x.service);
    }
    EvaluateLocal(slot, db.services[r.service].capacity, booked, partial, booked, Caps(db));
  }

  lemma {:induction false} OverlappingSubset(booked: seq<Row>, slot: Slot, x: Row)
    requires x in Overlapping(booked, slot)
    ensures x in booked
  {
    if booked[..] != [] && !(Overlaps(booked[0], slot) && x == booked[0]) {
      OverlappingSubset(booked[1..], slot, x);
    }
  }

  lemma MoveVerdict(db: Db, k: nat, at: int, withServices: bool)
    requires WellFormed(db) && k < |db.rows|
    requires EvaluateMove(db, db.rows[k], at, withServices).1.IsBookable()
    ensures Verdict(db, db.rows[k].(scheduledAt := at), Some(db.rows[k].id)).IsBookable()
  {
    var r := db.rows[k].(scheduledAt := at);
    if withServices {
      PartialVerdict(db, r, Some(r.id));
    } else {
      var slot := SlotFor(r.service, at, r.durationMinutes, Some(r.id));
      CapacityBlindAcceptance(slot, CapacityOf(Caps(db), r.service),
                              ActiveInRange(db.rows, r.business, slot.start, slot.end, r.professional), Caps(db));
    }
  }

  lemma EditKeeps(db: Db, a: Action)
    requires Inv(db) && a.EditService?
    ensures Inv(Step(db, a))
  {
    var next := Step(db, a);
    assert Caps(next) == Caps(db);
    forall i | 0 <= i < |db.rows|
      ensures RowFits(next.rows[i], next.services)
    {
      assert RowFits(db.rows[i], db.services);
    }
    forall s: Session
      ensures Seats(next.rows, s) <= CapacityOf(Caps(next), s.service)
    {
      assert Seats(db.rows, s) <= CapacityOf(Caps(db), s.service);
    }
  }

  /** Same tables, other clients. */
  lemma ClientsIrrelevant(db: Db, clients: seq<Client>)
    requires Inv(db)
    ensures Inv(db.(clients := clients))
  {
    var next := db.(clients := clients);
    assert Caps(next) == Caps(db);
    forall s: Session
      ensures Seats(next.rows, s) <= CapacityOf(Caps(next), s.service)
    {
      assert Seats(db.rows, s) <= CapacityOf(Caps(db), s.service);
    }
  }

  lemma BookKeeps(db: Db, a: Action)
    requires Inv(db) && a.Book? && Fresh(db, a)
    ensures Inv(Step(db, a))
  {
    var (next, result) := BookStep(db, a.input, a.withProfessionals, a.now, a.freshClient, a.freshRow);
    if next.rows == db.rows {
      ClientsIrrelevant(db, next.clients);
      assert next == db.(clients := next.clients);
    } else {
      var r := result.value.appointment;
      PartialVerdict(db, r, None);
      AppendKeeps(db, r);
      ClientsIrrelevant(db.(rows := db.rows + [r]), next.clients);
      assert next == db.(rows := db.rows + [r]).(clients := next.clients);
    }
  }

  lemma StepKeeps(db: Db, a: Action)
    requires Inv(db) && Fresh(db, a)
    ensures Inv(Step(db, a))
  {
    match a
    case Book(_, _, _, _, _) => BookKeeps(db, a);
    case EditService(_, _, _, _) => EditKeeps(db, a);
    case Move(id, at, zoned, now, withServices) =>
      var k := IndexOf(db.rows, id);
      if Step(db, a) != db {
        MoveVerdict(db, k, at, withServices);
        var moved := MoveRow(db.rows[k], at, now).value;
        assert RowFits(db.rows[k], db.services);
        assert Verdict(db, moved, Some(moved.id)) == Verdict(db, db.rows[k].(scheduledAt := at), Some(db.rows[k].id));
        ReplaceKeeps(db, k, moved);
      }
    case Close(id, closing, now) =>
      var k := IndexOf(db.rows, id);
      if Step(db, a) != db {
        assert RowFits(db.rows[k], db.services);
        ReplaceKeeps(db, k, CloseRow(db.rows[k], closing, now).value);
      }
  }

  /**
    Every sequential run keeps the invariant: bookings, moves with and without the
    catalogue, closings and catalogue edits that leave the capacities alone.
   */
  lemma {:induction false} RunKeeps(db: Db, actions: seq<Action>)
    requires Inv(db) && FreshRun(db, actions)
    ensures Inv(Run(db, actions))
    decreases |actions|
  {
    if actions != [] {
      StepKeeps(db, actions[0]);
      RunKeeps(Step(db, actions[0]), actions[1..]);
    }
  }

  /** From an empty agenda: the guarantee in terms of the appointments alone. */
  lemma EveryRunIsSafe(db: Db, actions: seq<Action>)
    requires db.rows == [] && FreshRun(db, actions)
    requires forall s :: s in db.services ==> db.services[s].capacity >= 1 && db.services[s].durationMinutes >= 1
    ensures var end := Run(db, actions);
            && (forall i, j :: 0 <= i < j < |end.rows| ==> Compatible(end.rows[i], end.rows[j], Caps(end)))
            && (forall s: Session :: Seats(end.rows, s) <= CapacityOf(Caps(end), s.service))
    ensures Caps(Run(db, actions)) == Caps(db)
  {
    RunKeeps(db, actions);
    CapacitiesAreFixed(db, actions);
  }

  lemma {:induction false} CapacitiesAreFixed(db: Db, actions: seq<Action>)
    ensures Caps(Run(db, actions)) == Caps(db)
    decreases |actions|
  {
    if actions != [] {
      assert Caps(Step(db, actions[0])) == Caps(db);
      CapacitiesAreFixed(Step(db, actions[0]), actions[1..]);
    }
  }

  // ---------- seats across professionals ----------

  lemma {:induction false} ActiveCountAppend(rows: seq<Row>, r: Row, service: Id, at: int)
    ensures CountActiveAt(rows + [r], service, at) == CountActiveAt(rows, service, at)
              + if r.service == service && r.scheduledAt == at && r.IsLive() then 1 else 0
  {
    if rows == [] {
      assert rows + [r] == [r];
    } else {
      assert (rows + [r])[1..] == rows[1..] + [r];
      ActiveCountAppend(rows[1..], r, service, at);
    }
  }

  /**
    A booking that names no professional keeps the whole session within capacity.
    One that names a professional does so exactly when the session, over all
    professionals, had a place left before.
   */
  lemma SessionTotalAfterBooking(db: Db, a: Action)
    requires WellFormed(db) && a.Book? && Fresh(db, a)
    requires var result := BookStep(db, a.input, a.withProfessionals, a.now, a.freshClient, a.freshRow).1;
             result.Ok? && !result.value.alreadyBooked
    ensures var before := CountActiveAt(db.rows, a.input.service, a.input.at);
            var after := CountActiveAt(Step(db, a).rows, a.input.service, a.input.at);
            var capacity := db.services[a.input.service].capacity;
            && (after <= capacity <==> before < capacity)
            && (a.input.professional == None ==> after <= capacity)
  {
    var r := BookStep(db, a.input, a.withProfessionals, a.now, a.freshClient, a.freshRow).1.value.appointment;
    ActiveCountAppend(db.rows, r, a.input.service, a.input.at);
    if a.input.professional == None {
      var slot := SlotFor(r.service, r.scheduledAt, r.durationMinutes, None);
      var booked := ActiveInRange(db.rows, r.business, slot.start, slot.end, None);
      PlacesTakenIsActiveCount(db.rows, r.business, slot);
      if db.services[a.input.service].capacity <= 1 {
        NoOverlapNoPlace(booked, slot);
      }
    }
  }

  const ONE_TO_ONE := Service(1, 60, 1, None, true)

  const TRAINERS := map[1 := Professional(1, true), 2 := Professional(1, true)]

  function TrainerDb(clients: seq<Client>, rows: seq<Row>): Db {
    Db(map[1 := ONE_TO_ONE], TRAINERS, map[], clients, rows)
  }

  function TrainerBooking(whatsapp: string, trainer: Id, freshClient: Id, freshRow: Id): Action {
    Book(BookInput(1, 1, 7200, true, "Ana", whatsapp, Some(trainer)), true, 0, freshClient, freshRow)
  }

  function TrainerRow(id: Id, client: Id, trainer: Id): Row {
    Row(id, 1, 1, client, Some(trainer), 7200, 60, Pending, None, None, None, None)
  }

  lemma TrainerStep(clients: seq<Client>, rows: seq<Row>, whatsapp: string, trainer: Id, freshClient: Id, freshRow: Id)
    requires !IsBlank(whatsapp) && ClientIndex(clients, whatsapp) == |clients| && trainer in TRAINERS
    requires !ExternalIdTaken(clients, Strip(whatsapp))
    requires FindSeat(rows, freshClient, 1, 7200).None?
    requires ActiveInRange(rows, 1, 7200, 10800, Some(trainer)) == []
    ensures Step(TrainerDb(clients, rows), TrainerBooking(whatsapp, trainer, freshClient, freshRow)).rows ==
            rows + [TrainerRow(freshRow, freshClient, trainer)]
  {
    assert !IsBlank("Ana") by { assert "Ana"[0] == 'A'; }
    var db, a := TrainerDb(clients, rows), TrainerBooking(whatsapp, trainer, freshClient, freshRow);
    assert Admission(db, a.input, true) == Ok(ONE_TO_ONE);
    assert EnsureSlotAvailable(db, 1, 1, ONE_TO_ONE, 7200, Some(trainer)).Ok?;
  }

  lemma FirstTrainer(clients: seq<Client>)
    ensures Inv(TrainerDb(clients, [TrainerRow(20, 10, 1)]))
  {
    var r := TrainerRow(20, 10, 1);
    var db := TrainerDb(clients, [r]);
    assert [r][1..] == [];
    forall s: Session
      ensures Seats(db.rows, s) <= CapacityOf(Caps(db), s.service)
    {
      assert Seats([r], s) == (if InSession(r, s) then 1 else 0) + Seats([], s);
    }
  }

  lemma SecondTrainer(number: string, other: string)
    requires IsTrim(other) && !IsBlank(other) && number != other
    ensures var db := TrainerDb([Client(10, number, number, true, 1, Some(7200))], [TrainerRow(20, 10, 1)]);
            var a := TrainerBooking(other, 2, 11, 21);
            && Inv(db) && Fresh(db, a)
            && CountActiveAt(Step(db, a).rows, 1, 7200) == 2
  {
    var r, q, ana := TrainerRow(20, 10, 1), TrainerRow(21, 11, 2), Client(10, number, number, true, 1, Some(7200));
    FirstTrainer([ana]);
    assert [ana][1..] == [] && [r][1..] == [];
    TrimUnchanged(other);
    TrainerStep([ana], [r], other, 2, 11, 21);
    ActiveCountAppend([r], q, 1, 7200);
    ActiveCountAppend([], r, 1, 7200);
    assert [] + [r] == [r];
  }

  /**
    Capacity is per professional: with one place, and that place taken with one
    professional, another professional can still be booked for the same start.
   */
  lemma CapacityIsPerProfessional()
    ensures exists db: Db, a: Action ::
              && Inv(db) && Fresh(db, a) && a.Book? && a.withProfessionals
              && a.input.service in db.services && db.services[a.input.service].capacity == 1
              && CountActiveAt(Step(db, a).rows, a.input.service, a.input.at) == 2
  {
    assert "1"[0] == '1' && "2"[0] == '2';
    SecondTrainer("1", "2");
  }
}
