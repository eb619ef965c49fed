/**
  Which booking requests are answered, by which rows, and what the answer changes,
  said about the fields of the request and of the tables.
 */
module BookingCriteria {
  import opened Wrappers
  import opened Appointments
  import opened Scheduling
  import opened Queries
  import opened Runs
  import opened Text
  import opened FreeSlots

  /** The professional exists, works for the business, and is on the service's staff list if there is one. */
  predicate CanPerform(db: Db, business: Id, service: Id, p: Id) {
    && p in db.professionals
    && db.professionals[p].business == business
    && db.professionals[p].isActive
    && (service in db.staffing && db.staffing[service] != {} ==> p in db.staffing[service])
  }

  predicate ServiceOffered(db: Db, business: Id, service: Id) {
    service in db.services && db.services[service].isActive && db.services[service].business == business
  }

  /** A request in order: it says who and when, for a service on offer, with a professional who can perform it. */
  predicate InOrder(db: Db, input: BookInput, withProfessionals: bool) {
    && (exists i :: 0 <= i < |input.name| && !IsSpace(input.name[i]))
    && (exists i :: 0 <= i < |input.whatsapp| && !IsSpace(input.whatsapp[i]))
    && input.zoned
    && ServiceOffered(db, input.business, input.service)
    && (withProfessionals && input.professional.Some? ==>
          CanPerform(db, input.business, input.service, input.professional.value))
  }

  lemma AdmissionIsExact(db: Db, input: BookInput, withProfessionals: bool)
    ensures Admission(db, input, withProfessionals).Ok? <==> InOrder(db, input, withProfessionals)
    ensures InOrder(db, input, withProfessionals) ==>
              Admission(db, input, withProfessionals) == Ok(db.services[input.service])
  {
    assert IsBlank(input.name) <==> !(exists i :: 0 <= i < |input.name| && !IsSpace(input.name[i]));
    assert IsBlank(input.whatsapp) <==> !(exists i :: 0 <= i < |input.whatsapp| && !IsSpace(input.whatsapp[i]));
  }

  /** Which error a request out of order gets: the first thing wrong in this order decides. */
  lemma AdmissionErrors(db: Db, input: BookInput, withProfessionals: bool)
    requires !InOrder(db, input, withProfessionals)
    ensures var unsaid := Strip(input.name) == "" || Strip(input.whatsapp) == "" || !input.zoned;
            var unknown := input.service !in db.services || !db.services[input.service].isActive;
            var foreign := !unknown && db.services[input.service].business != input.business;
            var noOne := input.professional.Some? && input.professional.value !in db.professionals;
            Admission(db, input, withProfessionals)
            == if !unsaid && (unknown || (!foreign && noOne)) then Err(NotFound) else Err(Invalid)
  {
    BlankIsEmptied(input.name);
    BlankIsEmptied(input.whatsapp);
    AdmissionIsExact(db, input, withProfessionals);
  }

  // ---------- the client and the seat ----------

  /** k is the first active client under this number. */
  predicate FirstClient(clients: seq<Client>, number: string, k: int) {
    && 0 <= k < |clients| && clients[k].isActive && clients[k].whatsapp == number
    && forall j :: 0 <= j < k ==> !(clients[j].isActive && clients[j].whatsapp == number)
  }

  predicate KeyTaken(clients: seq<Client>, number: string) {
    exists i :: 0 <= i < |clients| && clients[i].externalId == Strip(number)
  }

  predicate IsSeat(r: Row, client: Id, service: Id, at: int) {
    && r.client == client && r.service == service && r.scheduledAt == at
    && (r.status == Pending || r.status == Confirmed || r.status == Rescheduled)
  }

  /** The client under this number holds an active appointment for this service and start. */
  ghost predicate Seated(db: Db, number: string, service: Id, at: int) {
    exists k, i :: FirstClient(db.clients, number, k) && 0 <= i < |db.rows|
                   && IsSeat(db.rows[i], db.clients[k].id, service, at)
  }

  ghost predicate Identified(db: Db, number: string) {
    (exists k :: FirstClient(db.clients, number, k)) || !KeyTaken(db.clients, number)
  }

  lemma IndexIsFirst(clients: seq<Client>, number: string)
    ensures var k := ClientIndex(clients, number);
            if k < |clients| then
              FirstClient(clients, number, k) && forall j :: FirstClient(clients, number, j) ==> j == k
            else forall j :: !FirstClient(clients, number, j)
  {
  }

  lemma IdentifiedIsExact(db: Db, number: string)
    ensures Identified(db, number) <==> CanIdentify(db.clients, number)
  {
    IndexIsFirst(db.clients, number);
    assert KeyTaken(db.clients, number) <==> ExternalIdTaken(db.clients, Strip(number));
  }

  lemma SeatedIsExact(db: Db, a: Action)
    requires a.Book? && Fresh(db, a) && CanIdentify(db.clients, a.input.whatsapp)
    ensures var (clients, k) := FindOrCreate(db.clients, a.input.whatsapp, a.freshClient);
            FindSeat(db.rows, clients[k].id, a.input.service, a.input.at).Some?
            <==> Seated(db, a.input.whatsapp, a.input.service, a.input.at)
  {
    var (clients, k) := FindOrCreate(db.clients, a.input.whatsapp, a.freshClient);
    IndexIsFirst(db.clients, a.input.whatsapp);
    FindSeatExact(db.rows, clients[k].id, a.input.service, a.input.at);
    if i :| 0 <= i < |db.rows| && HoldsSeat(db.rows[i], clients[k].id, a.input.service, a.input.at) {
      assert IsSeat(db.rows[i], clients[k].id, a.input.service, a.input.at);
    }
    if Seated(db, a.input.whatsapp, a.input.service, a.input.at) {
      var j, i :| FirstClient(db.clients, a.input.whatsapp, j) && 0 <= i < |db.rows|
                  && IsSeat(db.rows[i], db.clients[j].id, a.input.service, a.input.at);
      assert HoldsSeat(db.rows[i], clients[k].id, a.input.service, a.input.at);
    }
  }

  // ---------- the answer ----------

  function Booked(db: Db, a: Action): (Db, Result<BookOutput>)
    requires a.Book?
  {
    BookStep(db, a.input, a.withProfessionals, a.now, a.freshClient, a.freshRow)
  }

  function WishOf(db: Db, input: BookInput): Wish
    requires input.service in db.services
  {
    Wish(input.business, input.service, input.professional, None, input.at,
         input.at + 60 * db.services[input.service].durationMinutes)
  }

  predicate FreeFor(db: Db, input: BookInput)
    requires input.service in db.services
  {
    IsFree(db.rows, db.services, WishOf(db, input), db.services[input.service].capacity)
  }

  /**
    A booking is answered if and only if the request is in order, its client can be
    identified, and either that client has the seat already or the time is free and
    in the future. Every other request changes nothing.
   */
  lemma BookingSucceedsIff(db: Db, a: Action)
    requires Placed(db) && a.Book? && Fresh(db, a)
    ensures Booked(db, a).1.Ok? <==>
              && InOrder(db, a.input, a.withProfessionals)
              && Identified(db, a.input.whatsapp)
              && (Seated(db, a.input.whatsapp, a.input.service, a.input.at)
                  || (a.now < a.input.at && FreeFor(db, a.input)))
    ensures Booked(db, a).1.Err? ==> Booked(db, a).0 == db
  {
    AdmissionIsExact(db, a.input, a.withProfessionals);
    IdentifiedIsExact(db, a.input.whatsapp);
    if InOrder(db, a.input, a.withProfessionals) && Identified(db, a.input.whatsapp) {
      SeatedIsExact(db, a);
      RecheckIsExact(db, a.input.business, a.input.service, a.input.at, a.input.professional);
    }
  }

  /** What is wrong with a request that is in order and refused all the same. */
  lemma RefusalIsExact(db: Db, a: Action)
    requires Placed(db) && a.Book? && Fresh(db, a) && InOrder(db, a.input, a.withProfessionals)
    requires Booked(db, a).1.Err?
    ensures var capacity := db.services[a.input.service].capacity;
            Booked(db, a).1.error ==
            if !Identified(db, a.input.whatsapp) then DuplicateKey
            else if FreeFor(db, a.input) then RuleViolation
            else if capacity > 1 && Obstacles(db.rows, db.services, WishOf(db, a.input)) == {} then ClassFull
            else SlotTaken
  {
    AdmissionIsExact(db, a.input, a.withProfessionals);
    IdentifiedIsExact(db, a.input.whatsapp);
    if Identified(db, a.input.whatsapp) {
      SeatedIsExact(db, a);
      RecheckIsExact(db, a.input.business, a.input.service, a.input.at, a.input.professional);
    }
  }

  /** A client who has the seat is answered with an appointment in it, and nothing changes. */
  lemma SeatedIsAnswered(db: Db, a: Action)
    requires Placed(db) && a.Book? && Fresh(db, a) && Booked(db, a).1.Ok?
    ensures var (next, result) := Booked(db, a);
            Seated(db, a.input.whatsapp, a.input.service, a.input.at) ==>
              && next == db && result.value.alreadyBooked && result.value.spotsLeft == None
              && exists k, i :: FirstClient(db.clients, a.input.whatsapp, k) && 0 <= i < |db.rows|
                   && db.rows[i] == result.value.appointment
                   && IsSeat(db.rows[i], db.clients[k].id, a.input.service, a.input.at)
  {
    AdmissionIsExact(db, a.input, a.withProfessionals);
    IdentifiedIsExact(db, a.input.whatsapp);
    BookingSucceedsIff(db, a);
    SeatedIsExact(db, a);
    IndexIsFirst(db.clients, a.input.whatsapp);
    var (clients, k) := FindOrCreate(db.clients, a.input.whatsapp, a.freshClient);
    FindSeatExact(db.rows, clients[k].id, a.input.service, a.input.at);
    if Seated(db, a.input.whatsapp, a.input.service, a.input.at) {
      var i :| 0 <= i < |db.rows| && db.rows[i] == Booked(db, a).1.value.appointment
               && HoldsSeat(db.rows[i], clients[k].id, a.input.service, a.input.at);
      assert IsSeat(db.rows[i], db.clients[k].id, a.input.service, a.input.at);
    }
  }

  /**
    Any other booking that is answered adds one row and counts it for its client: the
    first active one under the number, or a new one stored under the stripped number.
   */
  lemma BookingAddsOneRow(db: Db, a: Action)
    requires Placed(db) && a.Book? && Fresh(db, a) && Booked(db, a).1.Ok?
    requires !Seated(db, a.input.whatsapp, a.input.service, a.input.at)
    ensures a.input.service in db.services
    ensures var (next, result) := Booked(db, a);
            var (input, service) := (a.input, db.services[a.input.service]);
            && !result.value.alreadyBooked
            && next == db.(rows := next.rows, clients := next.clients)
            && next.rows == db.rows + [result.value.appointment]
            && result.value.spotsLeft == (if service.capacity > 1
                                          then Some(PlacesLeft(db.rows, WishOf(db, input), service.capacity) - 1)
                                          else None)
            && exists k :: 0 <= k < |next.clients|
                 && result.value.appointment
                    == Row(a.freshRow, input.business, input.service, next.clients[k].id, input.professional, input.at,
                           service.durationMinutes, Pending, None, None, None, None)
                 && CountedFor(db.clients, next.clients, k, a)
  {
    AdmissionIsExact(db, a.input, a.withProfessionals);
    IdentifiedIsExact(db, a.input.whatsapp);
    BookingSucceedsIff(db, a);
    SeatedIsExact(db, a);
    IndexIsFirst(db.clients, a.input.whatsapp);
    RecheckIsExact(db, a.input.business, a.input.service, a.input.at, a.input.professional);
    var (clients, k) := FindOrCreate(db.clients, a.input.whatsapp, a.freshClient);
    assert CountedFor(db.clients, Booked(db, a).0.clients, k, a);
  }

  /** Client k, an old one or a new one at the end, has one appointment more. */
  ghost predicate CountedFor(before: seq<Client>, after: seq<Client>, k: int, a: Action)
    requires a.Book?
  {
    if exists j :: FirstClient(before, a.input.whatsapp, j) then
      && FirstClient(before, a.input.whatsapp, k)
      && after == before[k := Client(before[k].id, before[k].whatsapp, before[k].externalId, true,
                                     before[k].appointmentCount + 1, Some(a.input.at))]
    else
      && k == |before|
      && after == before + [Client(a.freshClient, Strip(a.input.whatsapp), Strip(a.input.whatsapp), true, 1,
                                   Some(a.input.at))]
  }

  // ---------- over runs ----------

  /** Every appointment with a professional is with one who can perform its service. */
  predicate Staffed(db: Db) {
    forall i :: 0 <= i < |db.rows| && db.rows[i].professional.Some? ==>
      CanPerform(db, db.rows[i].business, db.rows[i].service, db.rows[i].professional.value)
  }

  predicate AlwaysChecked(actions: seq<Action>) {
    forall i :: 0 <= i < |actions| && actions[i].Book? ==> actions[i].withProfessionals
  }

  lemma StepKeepsStaffed(db: Db, a: Action)
    requires Staffed(db) && (a.Book? ==> a.withProfessionals)
    ensures Staffed(Step(db, a))
  {
    if a.Book? {
      AdmissionIsExact(db, a.input, a.withProfessionals);
    }
  }

  /** In every run whose bookings look the professionals up, every appointment is with one who can perform it. */
  lemma {:induction false} RunsStayStaffed(db: Db, actions: seq<Action>)
    requires Staffed(db) && AlwaysChecked(actions)
    ensures Staffed(Run(db, actions))
    decreases |actions|
  {
    if actions != [] {
      StepKeepsStaffed(db, actions[0]);
      RunsStayStaffed(Step(db, actions[0]), actions[1..]);
    }
  }
}

/** Which moves go through, and what they change. */
module MoveCriteria {
  import opened Wrappers
  import opened Appointments
  import opened SlotOccupancy
  import opened Scheduling
  import opened Runs
  import opened FreeSlots

  /** The appointment at its new start, seen for its own professional, itself left out. */
  function WishToMove(r: Row, at: int): Wish {
    Wish(r.business, r.service, r.professional, Some(r.id), at, at + 60 * r.durationMinutes)
  }

  /** Without the services every appointment counts as one-to-one. */
  function CapacityToMove(db: Db, r: Row, withServices: bool): int {
    if withServices && r.service in db.services then db.services[r.service].capacity else 1
  }

  predicate FreeToMove(db: Db, r: Row, at: int, withServices: bool) {
    IsFree(db.rows, db.services, WishToMove(r, at), CapacityToMove(db, r, withServices))
  }

  lemma MoveEvaluationIsExact(db: Db, r: Row, at: int, withServices: bool)
    ensures var (capacity, e) := EvaluateMove(db, r, at, withServices);
            var w := WishToMove(r, at);
            && capacity == CapacityToMove(db, r, withServices)
            && (e.IsBookable() <==> FreeToMove(db, r, at, withServices))
            && (e.IsBookable() ==> e.remaining == PlacesLeft(db.rows, w, capacity))
            && (capacity > 1 ==> (e.blocked <==> Obstacles(db.rows, db.services, w) != {}))
  {
    var w := WishToMove(r, at);
    EvaluationIsExact(db.rows, db.services, w, CapacityToMove(db, r, withServices),
                      if withServices then CapacityMap(db.services, ServicesOf(Listed(db.rows, w)) + {r.service})
                      else map[]);
  }

  /**
    A move goes through if and only if the time has a zone, the appointment exists
    and is neither completed nor cancelled, the new start is in the future, and the
    time is free for it, its own present place left out. It then changes start and
    status of that appointment; any other move changes nothing.
   */
  lemma MoveSucceedsIff(db: Db, id: Id, at: int, zoned: bool, now: int, withServices: bool)
    ensures var (next, result) := MoveStep(db, id, at, zoned, now, withServices);
            && (result.Ok? <==>
                  && zoned
                  && exists k :: IsFirst(db.rows, id, k)
                       && db.rows[k].status != Completed && db.rows[k].status != Cancelled
                       && now < at && FreeToMove(db, db.rows[k], at, withServices))
            && (result.Err? ==> next == db)
            && (result.Ok? ==>
                  exists k :: IsFirst(db.rows, id, k)
                    && result.value.appointment == db.rows[k].(scheduledAt := at, status := Rescheduled)
                    && next == db.(rows := db.rows[k := result.value.appointment])
                    && result.value.spotsLeft
                       == var capacity := CapacityToMove(db, db.rows[k], withServices);
                          if capacity > 1
                          then Some(PlacesLeft(db.rows, WishToMove(db.rows[k], at), capacity) - 1) else None)
  {
    var k := IndexOf(db.rows, id);
    if k < |db.rows| {
      assert IsFirst(db.rows, id, k);
      MoveEvaluationIsExact(db, db.rows[k], at, withServices);
    }
    assert forall j :: IsFirst(db.rows, id, j) ==> j == k;
  }

  /** k is the position of the appointment with this id. */
  predicate IsFirst(rows: seq<Row>, id: Id, k: int) {
    0 <= k < |rows| && rows[k].id == id && forall j :: 0 <= j < k ==> rows[j].id != id
  }

  /** Which error a refused move gets: a full class, a taken slot, or a rule of the appointment. */
  lemma MoveRefusalIsExact(db: Db, id: Id, at: int, zoned: bool, now: int, withServices: bool)
    requires MoveStep(db, id, at, zoned, now, withServices).1.Err?
    ensures var error := MoveStep(db, id, at, zoned, now, withServices).1.error;
            && (!zoned ==> error == Invalid)
            && (zoned && (forall k :: !IsFirst(db.rows, id, k)) ==> error == NotFound)
            && (forall k :: zoned && IsFirst(db.rows, id, k) ==>
                  error == if FreeToMove(db, db.rows[k], at, withServices) then RuleViolation
                           else if CapacityToMove(db, db.rows[k], withServices) > 1
                                   && Obstacles(db.rows, db.services, WishToMove(db.rows[k], at)) == {}
                           then ClassFull else SlotTaken)
  {
    var k := IndexOf(db.rows, id);
    if k < |db.rows| {
      assert IsFirst(db.rows, id, k);
      MoveEvaluationIsExact(db, db.rows[k], at, withServices);
    }
    assert forall j :: IsFirst(db.rows, id, j) ==> j == k;
  }
}

/** Which closings go through, what they change, and what they add to the revenue. */
module ClosingCriteria {
  import opened Wrappers
  import opened Appointments
  import opened Scheduling
  import opened Runs
  import opened Revenue
  import opened MoveCriteria

  /** The statuses in which an appointment can be closed in this way. */
  predicate Allows(r: Row, closing: Closing) {
    match closing
    case Confirm => r.status == Pending
    case Cancel => r.status != Completed && r.status != Cancelled
    case ButtonCancel => r.status == Pending || r.status == Confirmed
    case Complete(amount) =>
      amount >= 0 && (r.status == Pending || r.status == Confirmed || r.status == Rescheduled)
    case MarkNoShow => r.status == Pending || r.status == Confirmed || r.status == Rescheduled
  }

  /** r is was after the closing. */
  predicate IsClosedTo(was: Row, r: Row, closing: Closing, now: int) {
    match closing
    case Confirm => r == was.(status := Confirmed)
    case Cancel => r == was.(status := Cancelled, cancelledAt := Some(now))
    case ButtonCancel => r == was.(status := Cancelled, cancelledAt := Some(now))
    case Complete(amount) =>
      r == was.(status := Completed, amountCharged := Some(amount), completedAt := Some(now))
    case MarkNoShow => r == was.(status := NoShow)
  }

  /** A closing goes through if and only if the appointment exists in a status that allows it. */
  lemma ClosingSucceedsIff(db: Db, id: Id, closing: Closing, now: int)
    ensures var (next, result) := CloseStep(db, id, closing, now);
            && (result.Ok? <==> exists k :: IsFirst(db.rows, id, k) && Allows(db.rows[k], closing))
            && (result.Ok? ==>
                  exists k :: IsFirst(db.rows, id, k) && IsClosedTo(db.rows[k], result.value, closing, now)
                    && next == db.(rows := db.rows[k := result.value]))
            && (result.Err? ==> next == db)
            && (result.Err? && (forall k :: !IsFirst(db.rows, id, k)) ==> result.error == NotFound)
            && (result.Err? ==> forall k :: IsFirst(db.rows, id, k) ==>
                  result.error == if closing.Complete? && db.rows[k].status == Completed then AlreadyClosed
                                  else RuleViolation)
  {
    var k := IndexOf(db.rows, id);
    assert k < |db.rows| ==> IsFirst(db.rows, id, k);
    assert forall j :: IsFirst(db.rows, id, j) ==> j == k;
  }

  /**
    The revenue of a window rises by the amount of a completion exactly when the
    appointment was pending, confirmed or moved and lies in the window; no other
    closing moves it.
   */
  lemma RevenueRisesIff(db: Db, id: Id, k: int, closing: Closing, now: int, w: Window)
    requires IsFirst(db.rows, id, k)
    ensures var r := db.rows[k];
            RevenueOf(CloseStep(db, id, closing, now).0.rows, w) - RevenueOf(db.rows, w)
            == if closing.Complete? && closing.amount >= 0
                  && (r.status == Pending || r.status == Confirmed || r.status == Rescheduled)
                  && r.business == w.business && w.start <= r.scheduledAt < w.end
               then closing.amount else 0
  {
    assert k == IndexOf(db.rows, id);
    ClosingSucceedsIff(db, id, closing, now);
    var (next, result) := CloseStep(db, id, closing, now);
    if result.Ok? {
      RevenueUpdate(db.rows, k, result.value, w);
    }
  }
}
