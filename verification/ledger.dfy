/**
  Booking twice is booking once, and every client's counter accounts for the rows
  on the agenda.
 */
module BookingLedger {
  import opened Wrappers
  import opened Appointments
  import opened SlotOccupancy
  import opened Scheduling
  import opened Queries
  import opened Runs
  import opened Lifecycle
  import opened Text

  // ---------- counters ----------

  function SumCounts(clients: seq<Client>): int {
    if clients == [] then 0 else clients[0].appointmentCount + SumCounts(clients[1..])
  }

  lemma {:induction false} SumCountsUpdate(clients: seq<Client>, k: nat, c: Client)
    requires k < |clients|
    ensures SumCounts(clients[k := c]) == SumCounts(clients) - clients[k].appointmentCount + c.appointmentCount
  {
    if k > 0 {
      assert clients[k := c][1..] == clients[1..][k - 1 := c];
      SumCountsUpdate(clients[1..], k - 1, c);
    } else {
      assert clients[k := c][1..] == clients[1..];
    }
  }

  lemma {:induction false} SumCountsAppend(clients: seq<Client>, c: Client)
    ensures SumCounts(clients + [c]) == SumCounts(clients) + c.appointmentCount
  {
    if clients == [] {
      assert clients + [c] == [c];
    } else {
      assert (clients + [c])[1..] == clients[1..] + [c];
      SumCountsAppend(clients[1..], c);
    }
  }

  lemma CountLedgerStep(db: Db, a: Action)
    ensures SumCounts(Step(db, a).clients) - SumCounts(db.clients) == |Step(db, a).rows| - |db.rows|
  {
    match a
    case Book(input, _, _, freshClient, _) =>
      if CanIdentify(db.clients, input.whatsapp) {
        CountsAfter(db.clients, input.whatsapp, freshClient, input.at);
      }
    case Move(_, _, _, _, _) =>
    case Close(_, _, _) =>
    case EditService(_, _, _, _) =>
  }

  lemma CountsAfter(clients: seq<Client>, whatsapp: string, freshClient: Id, at: int)
    requires CanIdentify(clients, whatsapp)
    ensures var (all, k) := FindOrCreate(clients, whatsapp, freshClient);
            && SumCounts(all) == SumCounts(clients)
            && SumCounts(CountBooking(all, k, at)) == SumCounts(clients) + 1
  {
    var (all, k) := FindOrCreate(clients, whatsapp, freshClient);
    SumCountsAppend(clients, NewClient(freshClient, whatsapp));
    SumCountsUpdate(all, k, CountBooking(all, k, at)[k]);
  }

  /** In every run, the clients' counters grow by exactly the number of appointments added. */
  lemma {:induction false} CountLedger(db: Db, actions: seq<Action>)
    ensures SumCounts(Run(db, actions).clients) - SumCounts(db.clients) == |Run(db, actions).rows| - |db.rows|
    decreases |actions|
  {
    if actions != [] {
      CountLedgerStep(db, actions[0]);
      CountLedger(Step(db, actions[0]), actions[1..]);
    }
  }

  // ---------- one seat per client and session ----------

  ghost predicate UniqueSeats(rows: seq<Row>) {
    forall i, j :: 0 <= i < j < |rows| && rows[i].IsLive() && rows[j].IsLive() ==>
      !(rows[i].client == rows[j].client && rows[i].service == rows[j].service
        && rows[i].scheduledAt == rows[j].scheduledAt)
  }

  /** A move that goes through stays where it was or goes where its client holds no seat of the service. */
  predicate Careful(db: Db, a: Action) {
    a.Move? && MoveStep(db, a.id, a.at, a.zoned, a.now, a.withServices).1.Ok? ==>
      var r := db.rows[IndexOf(db.rows, a.id)];
      HoldsSeat(r, r.client, r.service, a.at) || FindSeat(db.rows, r.client, r.service, a.at).None?
  }

  predicate CarefulRun(db: Db, actions: seq<Action>)
    decreases |actions|
  {
    actions != [] ==> Careful(db, actions[0]) && CarefulRun(Step(db, actions[0]), actions[1..])
  }

  /** No client ever holds two live seats of one session, at any point of the run. */
  ghost predicate AlwaysUnique(db: Db, actions: seq<Action>)
    decreases |actions|
  {
    && UniqueSeats(db.rows)
    && (actions != [] ==> AlwaysUnique(Step(db, actions[0]), actions[1..]))
  }

  lemma BookingKeepsUniqueSeats(db: Db, a: Action)
    requires a.Book? && UniqueSeats(db.rows)
    ensures UniqueSeats(Step(db, a).rows)
  {
    if CanIdentify(db.clients, a.input.whatsapp) {
      var (clients, k) := FindOrCreate(db.clients, a.input.whatsapp, a.freshClient);
      FindSeatExact(db.rows, clients[k].id, a.input.service, a.input.at);
    }
  }

  lemma ReplaceKeepsUniqueSeats(rows: seq<Row>, k: nat, r: Row)
    requires k < |rows| && UniqueSeats(rows)
    requires r.Place() == rows[k].Place() && (r.IsLive() ==> rows[k].IsLive())
    ensures UniqueSeats(rows[k := r])
  {
  }

  lemma MoveKeepsUniqueSeatsIff(rows: seq<Row>, k: nat, r: Row)
    requires k < |rows| && UniqueSeats(rows) && r.IsLive()
    requires r.client == rows[k].client && r.service == rows[k].service
    ensures UniqueSeats(rows[k := r]) <==>
            HoldsSeat(rows[k], r.client, r.service, r.scheduledAt)
            || FindSeat(rows, r.client, r.service, r.scheduledAt).None?
  {
    FindSeatExact(rows, r.client, r.service, r.scheduledAt);
    var after := rows[k := r];
    if !HoldsSeat(rows[k], r.client, r.service, r.scheduledAt)
       && FindSeat(rows, r.client, r.service, r.scheduledAt).Some? {
      var i :| 0 <= i < |rows| && HoldsSeat(rows[i], r.client, r.service, r.scheduledAt);
      assert i != k && after[i] == rows[i] && after[k] == r;
      NotUnique(after, i, k);
    }
  }

  lemma NotUnique(rows: seq<Row>, i: nat, k: nat)
    requires i < |rows| && k < |rows| && i != k && rows[k].IsLive()
    requires HoldsSeat(rows[i], rows[k].client, rows[k].service, rows[k].scheduledAt)
    ensures !UniqueSeats(rows)
  {
  }

  lemma StepKeepsUniqueSeatsIff(db: Db, a: Action)
    requires UniqueSeats(db.rows)
    ensures UniqueSeats(Step(db, a).rows) <==> Careful(db, a)
  {
    match a
    case Book(_, _, _, _, _) => BookingKeepsUniqueSeats(db, a);
    case Move(id, at, _, now, _) =>
      if !Careful(db, a) {
        MoveChanges(db, a);
      }
      if Step(db, a).rows != db.rows {
        var k := IndexOf(db.rows, id);
        MoveKeepsUniqueSeatsIff(db.rows, k, MoveRow(db.rows[k], at, now).value);
      }
    case Close(id, closing, now) =>
      if Step(db, a) != db {
        var k := IndexOf(db.rows, id);
        ReplaceKeepsUniqueSeats(db.rows, k, CloseRow(db.rows[k], closing, now).value);
      }
    case EditService(_, _, _, _) =>
  }

  lemma MoveChanges(db: Db, a: Action)
    requires a.Move? && !Careful(db, a)
    ensures Step(db, a).rows != db.rows
  {
    var k := IndexOf(db.rows, a.id);
    var moved := MoveRow(db.rows[k], a.at, a.now).value;
    assert HoldsSeat(moved, moved.client, moved.service, a.at);
    assert moved != db.rows[k];
    assert Step(db, a).rows[k] == moved;
  }

  /** Clients hold one live seat per session throughout a run if and only if every move of the run is careful. */
  lemma {:induction false} SeatsStayUniqueIff(db: Db, actions: seq<Action>)
    requires UniqueSeats(db.rows)
    ensures AlwaysUnique(db, actions) <==> CarefulRun(db, actions)
    ensures CarefulRun(db, actions) ==> UniqueSeats(Run(db, actions).rows)
    decreases |actions|
  {
    if actions != [] {
      StepKeepsUniqueSeatsIff(db, actions[0]);
      if Careful(db, actions[0]) {
        SeatsStayUniqueIff(Step(db, actions[0]), actions[1..]);
      }
    }
  }

  /** Clients are only ever added, and keep their id and number. */
  ghost predicate ClientsGrew(before: seq<Client>, after: seq<Client>) {
    && |before| <= |after|
    && (forall i :: 0 <= i < |before| ==>
          && after[i].id == before[i].id
          && after[i].whatsapp == before[i].whatsapp
          && after[i].externalId == before[i].externalId
          && after[i].isActive == before[i].isActive)
  }

  lemma StepGrowsClients(db: Db, a: Action)
    ensures ClientsGrew(db.clients, Step(db, a).clients)
  {
    if a.Book? {
      BookingGrowsClients(db, a);
    }
  }

  lemma BookingGrowsClients(db: Db, a: Action)
    requires a.Book?
    ensures ClientsGrew(db.clients, Step(db, a).clients)
  {
    if CanIdentify(db.clients, a.input.whatsapp) {
      CountingGrows(db.clients, a.input.whatsapp, a.freshClient, a.input.at);
    }
  }

  lemma CountingGrows(clients: seq<Client>, whatsapp: string, freshClient: Id, at: int)
    requires CanIdentify(clients, whatsapp)
    ensures var (all, k) := FindOrCreate(clients, whatsapp, freshClient);
            ClientsGrew(clients, all) && ClientsGrew(clients, CountBooking(all, k, at))
  {
  }

  lemma {:induction false} RunGrowsClients(db: Db, actions: seq<Action>)
    ensures ClientsGrew(db.clients, Run(db, actions).clients)
    decreases |actions|
  {
    if actions != [] {
      StepGrowsClients(db, actions[0]);
      RunGrowsClients(Step(db, actions[0]), actions[1..]);
    }
  }

  lemma SameFirstClient(a: seq<Client>, b: seq<Client>, whatsapp: string)
    requires |a| <= |b|
    requires forall i :: 0 <= i < |a| ==> b[i].whatsapp == a[i].whatsapp && b[i].isActive == a[i].isActive
    requires ClientIndex(a, whatsapp) < |a|
    ensures ClientIndex(b, whatsapp) == ClientIndex(a, whatsapp)
  {
    var i, j := ClientIndex(a, whatsapp), ClientIndex(b, whatsapp);
    assert b[i].isActive && b[i].whatsapp == whatsapp;
    assert j < |a| ==> a[j].isActive == b[j].isActive && a[j].whatsapp == b[j].whatsapp;
  }

  /** Clients as the service stores them: one stripped text is both the number and the external id. */
  predicate NumbersStored(clients: seq<Client>) {
    forall i :: 0 <= i < |clients| ==> IsTrim(clients[i].whatsapp) && clients[i].externalId == clients[i].whatsapp
  }

  lemma StepStoresNumbers(db: Db, a: Action)
    requires NumbersStored(db.clients)
    ensures NumbersStored(Step(db, a).clients)
  {
    if a.Book? {
      StripExact(a.input.whatsapp);
    }
  }

  lemma {:induction false} RunStoresNumbers(db: Db, actions: seq<Action>)
    requires NumbersStored(db.clients)
    ensures NumbersStored(Run(db, actions).clients)
    decreases |actions|
  {
    if actions != [] {
      StepStoresNumbers(db, actions[0]);
      RunStoresNumbers(Step(db, actions[0]), actions[1..]);
    }
  }

  /** The answer to a request that passes the entry checks; no answer changes the tables. */
  predicate Answers(db: Db, a: Action, answer: Result<BookOutput>)
    requires a.Book?
  {
    BookStep(db, a.input, a.withProfessionals, a.now, a.freshClient, a.freshRow)
    == match Admission(db, a.input, a.withProfessionals)
       case Err(e) => (db, Err(e))
       case Ok(_) => (db, answer)
  }

  /**
    Repeating a successful booking, however much later and whatever was booked,
    moved or closed in between, adds nothing as long as the appointment is live and
    unmoved. If the number has no white space around it, an admitted repeat answers
    with a live appointment of the same client in the same seat: the original one,
    unless a move has doubled that seat. Otherwise the lookup misses the client that
    was stored under the stripped number, and inserting it again is refused.
   */
  lemma RepeatedBooking(db: Db, first: Action, actions: seq<Action>, again: Action)
    requires first.Book? && again.Book? && Step(db, first).rows != db.rows && NumbersStored(db.clients)
    requires again.input.service == first.input.service && again.input.at == first.input.at
    requires again.input.whatsapp == first.input.whatsapp
    requires |db.rows| < |Run(Step(db, first), actions).rows|
    requires var mine := Run(Step(db, first), actions).rows[|db.rows|];
             mine.IsLive() && mine.scheduledAt == first.input.at
    ensures var later := Run(Step(db, first), actions);
            var mine := later.rows[|db.rows|];
            && mine.id == first.freshRow
            && (if Strip(again.input.whatsapp) == again.input.whatsapp then
                  exists seat :: Answers(later, again, Ok(BookOutput(seat, None, true)))
                    && HoldsSeat(seat, mine.client, mine.service, mine.scheduledAt)
                    && (UniqueSeats(later.rows) ==> seat == mine)
                else
                  Answers(later, again, Err(DuplicateKey)))
  {
    var booked := Step(db, first);
    var later := Run(booked, actions);
    var mine := later.rows[|db.rows|];
    var k := BookedSeat(db, first);
    RunEvolves(booked, actions, |db.rows|);
    StepStoresNumbers(db, first);
    RunStoresNumbers(booked, actions);
    RunGrowsClients(booked, actions);
    StripExact(again.input.whatsapp);
    if Strip(again.input.whatsapp) == again.input.whatsapp {
      SameFirstClient(booked.clients, later.clients, first.input.whatsapp);
      FindSeatExact(later.rows, mine.client, mine.service, mine.scheduledAt);
      var seat := FindSeat(later.rows, mine.client, mine.service, mine.scheduledAt).value;
      SeatAnswers(later, again, seat);
      if UniqueSeats(later.rows) {
        SeatIsFound(later.rows, |db.rows|, mine.client, mine.service, mine.scheduledAt);
      }
    } else {
      assert later.clients[k] in later.clients;
      PaddedIsRefused(later, again);
    }
  }

  lemma SeatAnswers(db: Db, a: Action, seat: Row)
    requires a.Book? && ClientIndex(db.clients, a.input.whatsapp) < |db.clients|
    requires FindSeat(db.rows, db.clients[ClientIndex(db.clients, a.input.whatsapp)].id, a.input.service, a.input.at)
             == Some(seat)
    ensures Answers(db, a, Ok(BookOutput(seat, None, true)))
  {
  }

  lemma PaddedIsRefused(db: Db, a: Action)
    requires a.Book? && NumbersStored(db.clients) && !IsTrim(a.input.whatsapp)
    requires ExternalIdTaken(db.clients, Strip(a.input.whatsapp))
    ensures Answers(db, a, Err(DuplicateKey))
  {
  }

  /** The one way in which a booking adds a row. */
  lemma BookAppends(db: Db, a: Action)
    requires a.Book? && Step(db, a).rows != db.rows
    ensures CanIdentify(db.clients, a.input.whatsapp) && |Step(db, a).rows| == |db.rows| + 1
    ensures var (clients, k) := FindOrCreate(db.clients, a.input.whatsapp, a.freshClient);
            var r := Step(db, a).rows[|db.rows|];
            && Step(db, a).clients == CountBooking(clients, k, a.input.at)
            && r.id == a.freshRow && r.client == clients[k].id && r.service == a.input.service
            && r.scheduledAt == a.input.at
  {
  }

  /**
    The row a booking appends, and its client: the first one found under the number
    if the number is trim, and always one stored under the stripped number.
   */
  lemma BookedSeat(db: Db, a: Action) returns (k: nat)
    requires a.Book? && Step(db, a).rows != db.rows && NumbersStored(db.clients)
    ensures var booked := Step(db, a);
            && |booked.rows| == |db.rows| + 1
            && k < |booked.clients| && booked.clients[k].externalId == Strip(a.input.whatsapp)
            && (IsTrim(a.input.whatsapp) ==> k == ClientIndex(booked.clients, a.input.whatsapp))
            && var r := booked.rows[|db.rows|];
               r.id == a.freshRow && r.client == booked.clients[k].id && r.service == a.input.service
               && r.scheduledAt == a.input.at
  {
    var clients;
    StripExact(a.input.whatsapp);
    BookAppends(db, a);
    clients, k := FindOrCreate(db.clients, a.input.whatsapp, a.freshClient).0,
                  FindOrCreate(db.clients, a.input.whatsapp, a.freshClient).1;
    if IsTrim(a.input.whatsapp) {
      assert clients[k].isActive && clients[k].whatsapp == a.input.whatsapp;
      SameFirstClient(clients, Step(db, a).clients, a.input.whatsapp);
    }
  }

  /** Whatever was booked under a padded number, the same request straight afterwards fails. */
  lemma PaddedAgainFails(db: Db, a: Action)
    requires a.Book? && Step(db, a).rows != db.rows && NumbersStored(db.clients) && !IsTrim(a.input.whatsapp)
    ensures Answers(Step(db, a), a, Err(DuplicateKey))
  {
    var k := BookedSeat(db, a);
    StepStoresNumbers(db, a);
    assert Step(db, a).clients[k] in Step(db, a).clients;
    PaddedIsRefused(Step(db, a), a);
  }

  function FirstBooking(number: string): Action {
    Book(BookInput(1, 1, 7200, true, "Ana", number, None), true, 0, 7, 10)
  }

  lemma FirstBookingWorks(number: string)
    requires !IsBlank(number)
    ensures var db, a := Db(map[1 := YOGA], map[], map[], [], []), FirstBooking(number);
            && Admission(db, a.input, a.withProfessionals).Ok?
            && BookStep(db, a.input, a.withProfessionals, a.now, a.freshClient, a.freshRow).1.Ok?
            && Step(db, a).services == db.services && Step(db, a).rows != []
  {
    assert !IsBlank("Ana") by { assert "Ana"[0] == 'A'; }
    var db := Db(map[1 := YOGA], map[], map[], [], []);
    assert EnsureSlotAvailable(db, 1, 1, YOGA, 7200, None).Ok?;
  }

  /** With a space in front of the number the first booking goes through and the same one again fails. */
  lemma PaddedRepeatFails()
    ensures exists db: Db, a: Action ::
              && a.Book? && a.input.whatsapp == " +573001234567" && db.rows == [] && db.clients == []
              && BookStep(db, a.input, a.withProfessionals, a.now, a.freshClient, a.freshRow).1.Ok?
              && BookStep(Step(db, a), a.input, a.withProfessionals, a.now, a.freshClient, a.freshRow).1
                 == Err(DuplicateKey)
  {
    var number := " +573001234567";
    assert number[0] == ' ' && number[1] == '+';
    var db, a := Db(map[1 := YOGA], map[], map[], [], []), FirstBooking(number);
    FirstBookingWorks(number);
    PaddedAgainFails(db, a);
  }

  lemma SeatIsFound(rows: seq<Row>, i: nat, client: Id, service: Id, at: int)
    requires i < |rows| && UniqueSeats(rows) && HoldsSeat(rows[i], client, service, at)
    ensures FindSeat(rows, client, service, at) == Some(rows[i])
  {
    FindSeatExact(rows, client, service, at);
  }

  const YOGA := Service(1, 60, 2, None, true)

  function YogaRow(id: Id, at: int): Row {
    Row(id, 1, 1, 7, None, at, 60, Pending, None, None, None, None)
  }

  /** With moves the seat may double: a client's later booking can be moved onto an earlier one. */
  lemma MoveCanDoubleASeat()
    ensures exists db: Db, a: Action :: Inv(db) && UniqueSeats(db.rows) && a.Move? && !UniqueSeats(Step(db, a).rows)
  {
    var p, q := YogaRow(10, 7200), YogaRow(11, 14400);
    var db := Db(map[1 := YOGA], map[], map[], [], [p, q]);
    var a := Move(11, 7200, true, 0, true);
    assert [p, q][1..] == [q] && [q][1..] == [] && [p][1..] == [];
    YogaInv(db, p, q);
    var slot := SlotFor(1, 7200, 60, Some(11));
    assert ActiveInRange([q], 1, 7200, 10800, None) == [];
    assert ActiveInRange([p, q], 1, 7200, 10800, None) == [p];
    assert PlacesTaken([p], slot) == 1;
    assert IndexOf([q], 11) == 0 && IndexOf([p, q], 11) == 1;
    assert EvaluateMove(db, q, 7200, true).1.IsBookable();
    var moved := Step(db, a).rows;
    assert moved == [p, MoveRow(q, 7200, 0).value];
    assert moved[0].IsLive() && moved[1].IsLive() && moved[0].scheduledAt == moved[1].scheduledAt;
    assert !UniqueSeats(moved);
  }

  lemma YogaInv(db: Db, p: Row, q: Row)
    requires p == YogaRow(10, 7200) && q == YogaRow(11, 14400)
    requires db == Db(map[1 := YOGA], map[], map[], [], [p, q])
    ensures Inv(db)
  {
    forall s: Session
      ensures Seats(db.rows, s) <= CapacityOf(Caps(db), s.service)
    {
      assert [p, q][1..] == [q] && [q][1..] == [];
      assert Seats([p, q], s) == (if InSession(p, s) then 1 else 0) + Seats([q], s);
      assert Seats([q], s) == (if InSession(q, s) then 1 else 0) + Seats([], s);
    }
  }
}
