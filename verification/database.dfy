/**
  The tables of one tenant, the repository queries on them, and the use cases
  that book, move and close appointments. The functions say what a query or a use
  case answers and how it changes the tables; the methods of Database are the use
  cases themselves. A use case that raises leaves the tables as they were.
 */
module Scheduling {
  import opened Wrappers
  import opened Appointments
  import opened SlotOccupancy
  import opened Text

  datatype Service = Service(business: Id, durationMinutes: int, capacity: int, price: Option<int>, isActive: bool)

  datatype Professional = Professional(business: Id, isActive: bool)

  /** A client of the WhatsApp channel. The external id is unique among them. */
  datatype Client = Client(
    id: Id,
    whatsapp: string,
    externalId: string,
    isActive: bool,
    appointmentCount: int,
    lastAppointmentAt: Option<int>
  )

  datatype Db = Db(
    services: map<Id, Service>,
    professionals: map<Id, Professional>,
    staffing: map<Id, set<Id>>,
    clients: seq<Client>,
    rows: seq<Row>
  )

  datatype BookInput = BookInput(
    business: Id,
    service: Id,
    at: int,
    zoned: bool,
    name: string,
    whatsapp: string,
    professional: Option<Id>
  )

  datatype BookOutput = BookOutput(appointment: Row, spotsLeft: Option<int>, alreadyBooked: bool)

  datatype MoveOutput = MoveOutput(appointment: Row, spotsLeft: Option<int>)

  // ---------- queries ----------

  /** A query for professional P sees P's rows only; a query without one sees every row. */
  predicate SeenBy(who: Option<Id>, r: Row) { who.None? || r.professional == who }

  predicate InRange(r: Row, business: Id, start: int, end: int, who: Option<Id>) {
    r.business == business && r.IsLive() && r.scheduledAt < end && r.EndsAt() > start && SeenBy(who, r)
  }

  function ActiveInRange(rows: seq<Row>, business: Id, start: int, end: int, who: Option<Id>): seq<Row> {
    if rows == [] then []
    else (if InRange(rows[0], business, start, end, who) then [rows[0]] else [])
         + ActiveInRange(rows[1..], business, start, end, who)
  }

  /** What the SQL condition of list_active_in_range selects, before the end time is looked at. */
  function SelectActive(rows: seq<Row>, business: Id, end: int, who: Option<Id>): seq<Row> {
    if rows == [] then []
    else (var r := rows[0];
          if r.business == business && r.IsLive() && r.scheduledAt < end && (who.None? || r.professional == who)
          then [r] else [])
         + SelectActive(rows[1..], business, end, who)
  }

  predicate HoldsSeat(r: Row, client: Id, service: Id, at: int) {
    r.client == client && r.service == service && r.scheduledAt == at && r.IsLive()
  }

  function FindSeat(rows: seq<Row>, client: Id, service: Id, at: int): Option<Row> {
    if rows == [] then None
    else if HoldsSeat(rows[0], client, service, at) then Some(rows[0])
    else FindSeat(rows[1..], client, service, at)
  }

  function CountActiveAt(rows: seq<Row>, service: Id, at: int): nat {
    if rows == [] then 0
    else (if rows[0].service == service && rows[0].scheduledAt == at && rows[0].IsLive() then 1 else 0)
         + CountActiveAt(rows[1..], service, at)
  }

  /** Position of the row with this id, or |rows|. */
  function IndexOf(rows: seq<Row>, id: Id): (k: nat)
    ensures k <= |rows|
    ensures k < |rows| ==> rows[k].id == id
    ensures forall j :: 0 <= j < k ==> rows[j].id != id
  {
    if rows == [] || rows[0].id == id then 0 else 1 + IndexOf(rows[1..], id)
  }

  /** Position of the first reachable client with this number, or |clients|. */
  function ClientIndex(clients: seq<Client>, whatsapp: string): (k: nat)
    ensures k <= |clients|
    ensures k < |clients| ==> clients[k].isActive && clients[k].whatsapp == whatsapp
    ensures forall j :: 0 <= j < k ==> !(clients[j].isActive && clients[j].whatsapp == whatsapp)
  {
    if clients == [] || (clients[0].isActive && clients[0].whatsapp == whatsapp) then 0
    else 1 + ClientIndex(clients[1..], whatsapp)
  }

  function CapacityMap(services: map<Id, Service>, ids: set<Id>): map<Id, int> {
    map s | s in ids && s in services :: services[s].capacity
  }

  function ServicesOf(booked: seq<Row>): set<Id> { set r | r in booked :: r.service }

  function AssignedTo(db: Db, service: Id): set<Id> {
    if service in db.staffing then db.staffing[service] else {}
  }

  // ---------- booking ----------

  /** The checks a booking makes before it looks at any appointment. */
  function Admission(db: Db, input: BookInput, withProfessionals: bool): Result<Service> {
    if IsBlank(input.name) || IsBlank(input.whatsapp) || !input.zoned then Err(Invalid)
    else if input.service !in db.services || !db.services[input.service].isActive then Err(NotFound)
    else
      var service := db.services[input.service];
      if service.business != input.business then Err(Invalid)
      else if input.professional.None? || !withProfessionals then Ok(service)
      else
        var p := input.professional.value;
        if p !in db.professionals then Err(NotFound)
        else if db.professionals[p].business != input.business || !db.professionals[p].isActive then Err(Invalid)
        else if AssignedTo(db, input.service) != {} && p !in AssignedTo(db, input.service) then Err(Invalid)
        else Ok(service)
  }

  function Refusal(capacity: int, evaluation: SlotEvaluation): Error {
    if capacity > 1 && !evaluation.blocked then ClassFull else SlotTaken
  }

  function SlotFor(service: Id, at: int, durationMinutes: int, exclude: Option<Id>): Slot {
    Slot(at, at + 60 * durationMinutes, service, exclude)
  }

  /** The re-check inside the transaction, once the service row is locked. */
  function EnsureSlotAvailable(db: Db, business: Id, id: Id, service: Service, at: int, professional: Option<Id>)
    : Result<SlotEvaluation>
  {
    var slot := SlotFor(id, at, service.durationMinutes, None);
    var booked := ActiveInRange(db.rows, business, slot.start, slot.end, professional);
    var caps := CapacityMap(db.services, ServicesOf(booked) + {id});
    var evaluation := Evaluate(slot, service.capacity, booked, caps);
    if evaluation.IsBookable() then Ok(evaluation) else Err(Refusal(service.capacity, evaluation))
  }

  predicate ExternalIdTaken(clients: seq<Client>, externalId: string) {
    exists c :: c in clients && c.externalId == externalId
  }

  /** A new client is stored under the stripped number. */
  function NewClient(id: Id, whatsapp: string): Client {
    Client(id, Strip(whatsapp), Strip(whatsapp), true, 0, None)
  }

  /** The lookup finds the number as given, or the insert of a new client does not violate the unique key. */
  predicate CanIdentify(clients: seq<Client>, whatsapp: string) {
    ClientIndex(clients, whatsapp) < |clients| || !ExternalIdTaken(clients, Strip(whatsapp))
  }

  /**
    The client list with the booking client in it, and that client's position. The
    number is looked up as given but stored stripped.
   */
  function FindOrCreate(clients: seq<Client>, whatsapp: string, freshClient: Id): (r: (seq<Client>, nat))
    requires CanIdentify(clients, whatsapp)
    ensures r.1 < |r.0|
  {
    var k := ClientIndex(clients, whatsapp);
    (if k < |clients| then clients else clients + [NewClient(freshClient, whatsapp)], k)
  }

  function CountBooking(clients: seq<Client>, k: nat, at: int): seq<Client>
    requires k < |clients|
  {
    clients[k := clients[k].(appointmentCount := clients[k].appointmentCount + 1, lastAppointmentAt := Some(at))]
  }

  function BookStep(db: Db, input: BookInput, withProfessionals: bool, now: int, freshClient: Id, freshRow: Id)
    : (Db, Result<BookOutput>)
  {
    match Admission(db, input, withProfessionals)
    case Err(e) => (db, Err(e))
    case Ok(service) =>
      if !CanIdentify(db.clients, input.whatsapp) then (db, Err(DuplicateKey))
      else
        var (clients, k) := FindOrCreate(db.clients, input.whatsapp, freshClient);
        match FindSeat(db.rows, clients[k].id, input.service, input.at)
        case Some(seat) => (db.(clients := clients), Ok(BookOutput(seat, None, true)))
        case None =>
          match EnsureSlotAvailable(db, input.business, input.service, service, input.at, input.professional)
          case Err(e) => (db, Err(e))
          case Ok(evaluation) =>
            match NewRow(freshRow, input.business, input.service, clients[k].id, input.professional, input.at,
                         service.durationMinutes, now)
            case None => (db, Err(RuleViolation))
            case Some(row) =>
              (db.(clients := CountBooking(clients, k, input.at), rows := db.rows + [row]),
               Ok(BookOutput(row, if service.capacity > 1 then Some(evaluation.remaining - 1) else None, false)))
  }

  // ---------- moving and closing ----------

  /** How a move of this row to this time is evaluated, with or without a catalogue. */
  function EvaluateMove(db: Db, apt: Row, at: int, withServices: bool): (int, SlotEvaluation) {
    var capacity :=
      if withServices && apt.service in db.services then db.services[apt.service].capacity else 1;
    var slot := SlotFor(apt.service, at, apt.durationMinutes, Some(apt.id));
    var booked := ActiveInRange(db.rows, apt.business, slot.start, slot.end, apt.professional);
    var caps := if withServices then CapacityMap(db.services, ServicesOf(booked) + {apt.service}) else map[];
    (capacity, Evaluate(slot, capacity, booked, caps))
  }

  function MoveStep(db: Db, id: Id, at: int, zoned: bool, now: int, withServices: bool): (Db, Result<MoveOutput>) {
    var k := IndexOf(db.rows, id);
    if !zoned then (db, Err(Invalid))
    else if k == |db.rows| then (db, Err(NotFound))
    else
      var (capacity, evaluation) := EvaluateMove(db, db.rows[k], at, withServices);
      if !evaluation.IsBookable() then (db, Err(Refusal(capacity, evaluation)))
      else
        match MoveRow(db.rows[k], at, now)
        case None => (db, Err(RuleViolation))
        case Some(moved) =>
          (db.(rows := db.rows[k := moved]),
           Ok(MoveOutput(moved, if capacity > 1 then Some(evaluation.remaining - 1) else None)))
  }

  /** Lifecycle calls that neither book nor move. ButtonCancel is the reminder button's narrower cancel. */
  datatype Closing = Confirm | Cancel | ButtonCancel | Complete(amount: int) | MarkNoShow

  function CloseRow(r: Row, closing: Closing, now: int): Option<Row> {
    match closing
    case Confirm => ConfirmRow(r)
    case Cancel => CancelRow(r, now)
    case ButtonCancel => if r.status.Pending? || r.status.Confirmed? then CancelRow(r, now) else None
    case Complete(amount) => CompleteRow(r, amount, now)
    case MarkNoShow => NoShowRow(r)
  }

  function CloseStep(db: Db, id: Id, closing: Closing, now: int): (Db, Result<Row>) {
    var k := IndexOf(db.rows, id);
    if k == |db.rows| then (db, Err(NotFound))
    else if closing.Complete? && db.rows[k].status.Completed? then (db, Err(AlreadyClosed))
    else
      match CloseRow(db.rows[k], closing, now)
      case None => (db, Err(RuleViolation))
      case Some(closed) => (db.(rows := db.rows[k := closed]), Ok(closed))
  }

  // ---------- the session ----------

  class Database {
    var services: map<Id, Service>
    var professionals: map<Id, Professional>
    var staffing: map<Id, set<Id>>
    var clients: seq<Client>
    var rows: seq<Row>

    function View(): Db
      reads this
    {
      Db(services, professionals, staffing, clients, rows)
    }

    constructor ()
      ensures View() == Db(map[], map[], map[], [], [])
    {
      services, professionals, staffing, clients, rows := map[], map[], map[], [], [];
    }

    method ListActiveInRange(business: Id, start: int, end: int, who: Option<Id>) returns (result: seq<Row>)
      ensures result == ActiveInRange(rows, business, start, end, who)
    {
      var selected := SelectActive(rows, business, end, who);
      result := [];
      var i := 0;
      while i < |selected|
        invariant 0 <= i <= |selected|
        invariant result == EndingAfter(selected[..i], start)
      {
        var r := selected[i];
        EndingAfterSnoc(selected[..i], r, start);
        assert selected[..i + 1] == selected[..i] + [r];
        var aptEnd := r.scheduledAt + 60 * r.durationMinutes;
        if aptEnd > start {
          result := result + [r];
        }
        i := i + 1;
      }
      assert selected[..i] == selected;
      TwoStageFilter(rows, business, start, end, who);
    }

    /** The checks of the request, its service and its professional. */
    method Admit(input: BookInput, withProfessionals: bool) returns (result: Result<Service>)
      ensures result == Admission(View(), input, withProfessionals)
    {
      if IsBlank(input.name) || IsBlank(input.whatsapp) || !input.zoned {
        return Err(Invalid);
      }
      if input.service !in services || !services[input.service].isActive {
        return Err(NotFound);
      }
      var service := services[input.service];
      if service.business != input.business {
        return Err(Invalid);
      }
      if input.professional.Some? && withProfessionals {
        var p := input.professional.value;
        if p !in professionals {
          return Err(NotFound);
        }
        if professionals[p].business != input.business {
          return Err(Invalid);
        }
        if !professionals[p].isActive {
          return Err(Invalid);
        }
        var allowed := AssignedTo(View(), input.service);
        if allowed != {} && p !in allowed {
          return Err(Invalid);
        }
      }
      return Ok(service);
    }

    method Book(input: BookInput, withProfessionals: bool, now: int, freshClient: Id, freshRow: Id)
      returns (result: Result<BookOutput>)
      modifies this`clients, this`rows
      ensures (View(), result) == BookStep(old(View()), input, withProfessionals, now, freshClient, freshRow)
    {
      var admitted := Admit(input, withProfessionals);
      if admitted.Err? {
        return Err(admitted.error);
      }
      var service := admitted.value;
      var savedClients := clients;
      var k := ClientIndex(clients, input.whatsapp);
      if k == |clients| {
        if ExternalIdTaken(clients, Strip(input.whatsapp)) {
          return Err(DuplicateKey);
        }
        clients := clients + [NewClient(freshClient, input.whatsapp)];
      }
      var existing := FindSeat(rows, clients[k].id, input.service, input.at);
      if existing.Some? {
        return Ok(BookOutput(existing.value, None, true));
      }
      var slot := SlotFor(input.service, input.at, service.durationMinutes, None);
      var booked := ListActiveInRange(input.business, slot.start, slot.end, input.professional);
      var caps := CapacityMap(services, ServicesOf(booked) + {input.service});
      var evaluation := EvaluateSlot(slot, service.capacity, booked, caps);
      if !evaluation.IsBookable() {
        clients := savedClients;
        return Err(Refusal(service.capacity, evaluation));
      }
      var row := NewRow(freshRow, input.business, input.service, clients[k].id, input.professional, input.at,
                        service.durationMinutes, now);
      if row.None? {
        clients := savedClients;
        return Err(RuleViolation);
      }
      rows := rows + [row.value];
      clients := CountBooking(clients, k, input.at);
      return Ok(BookOutput(row.value, if service.capacity > 1 then Some(evaluation.remaining - 1) else None, false));
    }

    method Reschedule(id: Id, at: int, zoned: bool, now: int, withServices: bool)
      returns (result: Result<MoveOutput>)
      modifies this`rows
      ensures (View(), result) == MoveStep(old(View()), id, at, zoned, now, withServices)
    {
      if !zoned {
        return Err(Invalid);
      }
      var k := IndexOf(rows, id);
      if k == |rows| {
        return Err(NotFound);
      }
      var apt := new Appointment(rows[k]);
      var capacity, caps := 1, map[];
      if withServices && apt.service in services {
        capacity := services[apt.service].capacity;
      }
      var slot := SlotFor(apt.service, at, apt.durationMinutes, Some(apt.id));
      var booked := ListActiveInRange(apt.business, slot.start, slot.end, apt.professional);
      if withServices {
        caps := CapacityMap(services, ServicesOf(booked) + {apt.service});
      }
      var evaluation := EvaluateSlot(slot, capacity, booked, caps);
      if !evaluation.IsBookable() {
        return Err(Refusal(capacity, evaluation));
      }
      var ok := apt.Reschedule(at, None, now);
      if !ok {
        return Err(RuleViolation);
      }
      rows := rows[k := apt.View()];
      return Ok(MoveOutput(apt.View(), if capacity > 1 then Some(evaluation.remaining - 1) else None));
    }

    method CancelAppointment(id: Id, now: int) returns (result: Result<Row>)
      modifies this`rows
      ensures (View(), result) == CloseStep(old(View()), id, Cancel, now)
    {
      var k := IndexOf(rows, id);
      if k == |rows| {
        return Err(NotFound);
      }
      var apt := new Appointment(rows[k]);
      var ok := apt.Cancel(now);
      if !ok {
        return Err(RuleViolation);
      }
      rows := rows[k := apt.View()];
      return Ok(apt.View());
    }

    method CompleteAppointment(id: Id, amount: int, now: int) returns (result: Result<Row>)
      modifies this`rows
      ensures (View(), result) == CloseStep(old(View()), id, Complete(amount), now)
    {
      var k := IndexOf(rows, id);
      if k == |rows| {
        return Err(NotFound);
      }
      var apt := new Appointment(rows[k]);
      if apt.status == Completed {
        return Err(AlreadyClosed);
      }
      var ok := apt.Complete(amount, now);
      if !ok {
        return Err(RuleViolation);
      }
      rows := rows[k := apt.View()];
      return Ok(apt.View());
    }
  }

  function EndingAfter(rows: seq<Row>, start: int): seq<Row> {
    if rows == [] then []
    else (if rows[0].EndsAt() > start then [rows[0]] else []) + EndingAfter(rows[1..], start)
  }

  lemma {:induction false} EndingAfterSnoc(rows: seq<Row>, r: Row, start: int)
    ensures EndingAfter(rows + [r], start) == EndingAfter(rows, start) + if r.EndsAt() > start then [r] else []
  {
    if rows == [] {
      assert rows + [r] == [r];
    } else {
      assert (rows + [r])[1..] == rows[1..] + [r];
      EndingAfterSnoc(rows[1..], r, start);
    }
  }

  lemma {:induction false} TwoStageFilter(rows: seq<Row>, business: Id, start: int, end: int, who: Option<Id>)
    ensures EndingAfter(SelectActive(rows, business, end, who), start) == ActiveInRange(rows, business, start, end, who)
  {
    if rows != [] {
      var rest := SelectActive(rows[1..], business, end, who);
      TwoStageFilter(rows[1..], business, start, end, who);
      assert ([rows[0]] + rest)[1..] == rest;
      assert [] + rest == rest;
    }
  }
}
