/**
  From opening hours to bookings: what is offered is ordered and inside the opening
  hours, what is offered is what booking accepts, and what one booking does to the
  offer.
 */
module DailyOffer {
  import opened Wrappers
  import opened Appointments
  import opened SlotOccupancy
  import opened Scheduling
  import opened Queries
  import opened Runs
  import opened BusinessHours
  import opened Availability
  import opened Text

  // ---------- hours to ranges ----------

  /** Ranges that follow one another: each is proper and ends before the next begins. */
  predicate Chain(ranges: seq<HourRow>) {
    ranges != [] ==>
      && ranges[0].hours.openAt < ranges[0].hours.closeAt
      && (forall y :: y in ranges[1..] ==> ranges[0].hours.closeAt <= y.hours.openAt)
      && Chain(ranges[1..])
  }

  function HoursOf(rows: seq<HourRow>): seq<Hours> {
    if rows == [] then [] else [rows[0].hours] + HoursOf(rows[1..])
  }

  /** Apartness of rows, read off their hours. */
  predicate RowsApart(rows: seq<HourRow>) {
    rows != [] ==> (forall y :: y in rows[1..] ==> Apart(rows[0].hours, y.hours)) && RowsApart(rows[1..])
  }

  predicate RowsValid(rows: seq<HourRow>) { forall y :: y in rows ==> ValidHours(y.hours) }

  lemma {:induction false} InsertApart(x: HourRow, s: seq<HourRow>, f: Field)
    requires RowsApart(s) && forall y :: y in s ==> Apart(x.hours, y.hours)
    ensures RowsApart(Insert(x, s, f))
  {
    if s == [] || Key(x, f) <= Key(s[0], f) {
      assert ([x] + s)[1..] == s;
    } else {
      var rest := Insert(x, s[1..], f);
      InsertApart(x, s[1..], f);
      assert ([s[0]] + rest)[1..] == rest;
      forall y | y in rest
        ensures Apart(s[0].hours, y.hours)
      {
        InsertPermutes(x, s[1..], f);
        assert y in multiset(rest);
      }
    }
  }

  lemma SortMembers(s: seq<HourRow>, f: Field)
    ensures forall y :: y in Sort(s, f) <==> y in s
  {
    SortCorrect(s, f);
    assert forall y :: y in Sort(s, f) <==> y in multiset(Sort(s, f));
  }

  lemma {:induction false} SortApart(s: seq<HourRow>, f: Field)
    requires RowsApart(s)
    ensures RowsApart(Sort(s, f))
  {
    if s != [] {
      SortApart(s[1..], f);
      SortMembers(s[1..], f);
      InsertApart(s[0], Sort(s[1..], f), f);
    }
  }

  lemma {:induction false} NumberedMembers(s: seq<HourRow>, n: int)
    ensures forall y :: y in Numbered(s, n) ==> exists x :: x in s && x.hours == y.hours
  {
    if s != [] {
      NumberedMembers(s[1..], n + 1);
    }
  }

  /** Sorted, apart and proper: the open rows follow one another. */
  lemma {:induction false} OpenRangesChain(s: seq<HourRow>, n: int)
    requires RowsApart(s) && RowsValid(s) && Sorted(s, ByOpening)
    ensures Chain(OpenRanges(Numbered(s, n)))
    ensures forall y :: y in OpenRanges(Numbered(s, n)) ==>
              !y.hours.isClosed && exists x :: x in s && x.hours == y.hours
  {
    if s != [] {
      OpenRangesChain(s[1..], n + 1);
      var head, rest := s[0].(sequence := n), Numbered(s[1..], n + 1);
      assert ([head] + rest)[1..] == rest;
      assert ([head] + OpenRanges(rest))[1..] == OpenRanges(rest);
      assert [] + OpenRanges(rest) == OpenRanges(rest);
      forall y | y in OpenRanges(rest) && !head.hours.isClosed
        ensures head.hours.closeAt <= y.hours.openAt
      {
        var x :| x in s[1..] && x.hours == y.hours;
        assert Apart(s[0].hours, x.hours) && Key(s[0], ByOpening) <= Key(x, ByOpening);
        assert ValidHours(x.hours) && ValidHours(s[0].hours);
      }
    }
  }

  lemma {:induction false} CreatedGroup(business: Id, schedule: seq<DayEntry>, day: int)
    ensures HoursOf(Select(Created(business, schedule), business, day)) == Group(schedule, day)
    ensures forall b :: b != business ==> Select(Created(business, schedule), b, day) == []
  {
    if schedule != [] {
      CreatedGroup(business, schedule[1..], day);
      var rest := Created(business, schedule[1..]);
      var head := HourRow(business, schedule[0].day, schedule[0].hours, 0);
      assert ([head] + rest)[1..] == rest;
      var s := Select(rest, business, day);
      assert ([head] + s)[1..] == s && [] + s == s;
    }
  }

  lemma {:induction false} ApartRows(rows: seq<HourRow>)
    requires AllApart(HoursOf(rows))
    ensures RowsApart(rows)
    ensures forall y :: y in rows ==> y.hours in HoursOf(rows)
  {
    if rows != [] {
      var h := HoursOf(rows[1..]);
      assert ([rows[0].hours] + h)[1..] == h;
      ApartRows(rows[1..]);
    }
  }

  /** What a day offers after an accepted schedule that mentions it was stored. */
  lemma StoredRangesChain(business: Id, schedule: seq<DayEntry>, rows: seq<HourRow>, day: int)
    requires Acceptable(schedule)
    requires Select(rows, business, day) == Stored(Select(Created(business, schedule), business, day))
    ensures Chain(OpenRanges(DayRows(rows, business, day)))
    ensures forall y :: y in OpenRanges(DayRows(rows, business, day)) ==>
              !y.hours.isClosed && DayEntry(day, y.hours) in schedule
  {
    var items := Select(Created(business, schedule), business, day);
    AcceptanceIsExact(schedule);
    CreatedGroup(business, schedule, day);
    assert AllApart(Group(schedule, day));
    ApartRows(items);
    forall y | y in items
      ensures ValidHours(y.hours) && DayEntry(day, y.hours) in schedule
    {
      GroupMembers(schedule, day, y.hours);
    }
    SortApart(items, ByOpening);
    SortMembers(items, ByOpening);
    SortCorrect(items, ByOpening);
    var sorted := Sort(items, ByOpening);
    OpenRangesChain(sorted, 1);
    NumberedSorted(sorted, 1);
    SortOfSorted(Numbered(sorted, 1), BySequence);
  }

  datatype HoursCall = HoursCall(business: Id, schedule: seq<DayEntry>)

  /** Tables that follow one another by calls of SetBusinessHours. */
  ghost predicate HoursRun(tables: seq<seq<HourRow>>, calls: seq<HoursCall>) {
    && |tables| == |calls| + 1
    && forall n :: 0 <= n < |calls| ==> SetsHours(tables[n], tables[n + 1], calls[n].business, calls[n].schedule)
  }

  lemma {:induction false} CreatedElsewhere(business: Id, schedule: seq<DayEntry>, b: Id, d: int)
    requires b != business
    ensures Select(Created(business, schedule), b, d) == []
  {
    if schedule != [] {
      CreatedElsewhere(business, schedule[1..], b, d);
    }
  }

  lemma CallKeepsChain(before: seq<HourRow>, after: seq<HourRow>, call: HoursCall, b: Id, d: int)
    requires SetsHours(before, after, call.business, call.schedule) && Chain(OpenRanges(DayRows(before, b, d)))
    ensures Chain(OpenRanges(DayRows(after, b, d)))
  {
    if Acceptable(call.schedule) && Select(Created(call.business, call.schedule), b, d) != [] {
      if b != call.business {
        CreatedElsewhere(call.business, call.schedule, b, d);
      }
      StoredRangesChain(call.business, call.schedule, after, d);
    }
  }

  /**
    Whatever schedules were submitted, accepted or not, from an empty table on: the
    open ranges of every day of every business are proper, disjoint and ascending.
   */
  lemma {:induction false} HoursAlwaysChain(tables: seq<seq<HourRow>>, calls: seq<HoursCall>, b: Id, d: int)
    requires HoursRun(tables, calls) && tables[0] == []
    ensures Chain(OpenRanges(DayRows(tables[|calls|], b, d)))
    decreases |calls|
  {
    if calls != [] {
      var n := |calls| - 1;
      HoursAlwaysChain(tables[..n + 1], calls[..n], b, d);
      CallKeepsChain(tables[n], tables[n + 1], calls[n], b, d);
    }
  }

  // ---------- ranges to offers ----------

  predicate InsideRange(start: int, duration: int, dayStart: int, h: Hours) {
    dayStart + ToMinute(h.openAt) <= start && start + duration <= dayStart + ToMinute(h.closeAt)
  }

  lemma {:induction false} DayStartsOrdered(ranges: seq<HourRow>, dayStart: int, duration: int, step: int)
    requires step >= 1 && duration >= 1 && Chain(ranges)
    ensures var starts := DayStarts(ranges, dayStart, duration, step);
            && Ascending(starts)
            && forall u :: u in starts ==> exists y :: y in ranges && InsideRange(u, duration, dayStart, y.hours)
  {
    if ranges != [] {
      var h := ranges[0].hours;
      var first := RangeStarts(h, dayStart, duration, step);
      var rest := DayStarts(ranges[1..], dayStart, duration, step);
      StartsAscending(dayStart + ToMinute(h.openAt), dayStart + ToMinute(h.closeAt), duration, step);
      DayStartsOrdered(ranges[1..], dayStart, duration, step);
      forall u | u in first
        ensures InsideRange(u, duration, dayStart, h)
      {
      }
      forall u | u in rest
        ensures dayStart + ToMinute(h.closeAt) <= u
      {
        var y :| y in ranges[1..] && InsideRange(u, duration, dayStart, y.hours);
        MinuteMonotone(h.closeAt, y.hours.openAt);
      }
      AscendingConcat(first, rest);
    }
  }

  lemma MinuteMonotone(a: int, b: int)
    requires a <= b
    ensures ToMinute(a) <= ToMinute(b) && ToMinute(a) <= a < ToMinute(a) + 60
  {
  }

  /**
    Hours to slots: once an accepted schedule is stored, the offered starts of a
    day it mentions strictly increase, and each session lies inside one of the
    schedule's open entries for that day, cut to whole minutes.
   */
  lemma OfferFollowsSchedule(db: Db, business: Id, schedule: seq<DayEntry>, rows: seq<HourRow>, service: Id, day: int,
                             dayStart: int, who: Option<Id>)
    requires Acceptable(schedule) && service in db.services && db.services[service].durationMinutes >= 1
    requires Select(rows, business, day) == Stored(Select(Created(business, schedule), business, day))
    ensures var offers := AvailableSlots(db, rows, business, service, day, dayStart, who).value;
            && Increasing(offers)
            && forall i :: 0 <= i < |offers| ==>
                 exists h: Hours :: DayEntry(day, h) in schedule && !h.isClosed
                   && InsideRange(offers[i].start, 60 * db.services[service].durationMinutes, dayStart, h)
  {
    StoredRangesChain(business, schedule, rows, day);
    var q := DayQuery(db, business, service, dayStart, who);
    var ranges := OpenRanges(DayRows(rows, business, day));
    DayStartsOrdered(ranges, dayStart, q.duration, q.step);
    OffersIncreasing(q, DayStarts(ranges, dayStart, q.duration, q.step));
  }

  /**
    The seconds of the hours are dropped, so a start may come up to a minute before
    the doors open. For steps of whole minutes, every offered session of a range is
    inside the real hours exactly when the range opens on a whole minute or its
    first start is not free.
   */
  lemma InsideRealHours(q: Query, h: Hours, dayStart: int)
    requires q.step >= 60 && ValidHours(h) && !h.isClosed
    ensures var offers := Offers(q, RangeStarts(h, dayStart, q.duration, q.step));
            var first := dayStart + ToMinute(h.openAt);
            (forall o :: o in offers ==> dayStart + h.openAt <= o.start && o.start + q.duration <= dayStart + h.closeAt)
            <==> (h.openAt % 60 == 0 || first + q.duration > dayStart + ToMinute(h.closeAt)
                  || !EvaluateAt(q, first).IsBookable())
  {
    var open, close := dayStart + ToMinute(h.openAt), dayStart + ToMinute(h.closeAt);
    var starts := Starts(open, close, q.duration, q.step);
    StartsAscending(open, close, q.duration, q.step);
    forall o | o in Offers(q, starts)
      ensures o.start + q.duration <= close && EvaluateAt(q, o.start).IsBookable()
      ensures o.start == open || open + 60 <= o.start
    {
      OffersExact(q, starts, o);
      FirstOrLater(open, close, q.duration, q.step, o.start);
    }
    if open + q.duration <= close {
      OffersExact(q, starts, Offer(open, EvaluateAt(q, open).remaining, q.capacity));
    }
  }

  lemma FirstOrLater(open: int, close: int, duration: int, step: int, t: int)
    requires step >= 1 && t in Starts(open, close, duration, step)
    ensures t == open || open + step <= t
  {
    StartsAscending(open + step, close, duration, step);
  }

  // ---------- offered iff accepted ----------

  lemma {:induction false} OverlappingIsLocal(rows: seq<Row>, business: Id, slot: Slot, who: Option<Id>)
    requires slot.exclude == None
    ensures Overlapping(ActiveInRange(rows, business, slot.start, slot.end, who), slot)
         == ActiveInRange(rows, business, slot.start, slot.end, who)
  {
    if rows != [] {
      OverlappingIsLocal(rows[1..], business, slot, who);
      var rest := ActiveInRange(rows[1..], business, slot.start, slot.end, who);
      assert ([rows[0]] + rest)[1..] == rest && [] + rest == rest;
    }
  }

  /** The query over the whole day and the booking's own query reach the same evaluation. */
  lemma DayEvaluationIsBookingEvaluation(db: Db, business: Id, service: Id, dayStart: int, who: Option<Id>, start: int)
    requires service in db.services
    requires dayStart <= start && start + 60 * db.services[service].durationMinutes <= dayStart + 86399
    ensures var s := db.services[service];
            var e := EvaluateAt(DayQuery(db, business, service, dayStart, who), start);
            EnsureSlotAvailable(db, business, service, s, start, who)
            == if e.IsBookable() then Ok(e) else Err(Refusal(s.capacity, e))
  {
    var s := db.services[service];
    var q := DayQuery(db, business, service, dayStart, who);
    var slot := SlotFor(service, start, s.durationMinutes, None);
    var booked := ActiveInRange(db.rows, business, slot.start, slot.end, who);
    var caps := CapacityMap(db.services, ServicesOf(booked) + {service});
    WiderWindow(db.rows, business, dayStart, dayStart + 86399, who, slot);
    forall r | r in Overlapping(q.booked, slot)
      ensures CapacityOf(q.caps, r.service) == CapacityOf(caps, r.service)
    {
      OverlappingSubset(q.booked, slot, r);
      OverlappingSubset(booked, slot, r);
      PartialCapacities(db.services, ServicesOf(q.booked) + {service}, r.service);
      PartialCapacities(db.services, ServicesOf(booked) + {service}, r.service);
    }
    EvaluateLocal(slot, s.capacity, q.booked, q.caps, booked, caps);
  }

  /** Every start of the day's grid lies inside the day that the query loads. */
  lemma {:induction false} StartsFit(ranges: seq<HourRow>, dayStart: int, duration: int, step: int, u: int)
    requires step >= 1 && u in DayStarts(ranges, dayStart, duration, step)
    ensures dayStart <= u && u + duration <= dayStart + 86399
  {
    var h := ranges[0].hours;
    if u in RangeStarts(h, dayStart, duration, step) {
      StartsAscending(dayStart + ToMinute(h.openAt), dayStart + ToMinute(h.closeAt), duration, step);
    } else {
      StartsFit(ranges[1..], dayStart, duration, step, u);
    }
  }

  /** The start times a service has on a day, free or not. */
  function GridOf(db: Db, rows: seq<HourRow>, business: Id, service: Id, day: int, dayStart: int): seq<int>
    requires service in db.services && db.services[service].durationMinutes >= 1
  {
    var s := db.services[service];
    DayStarts(OpenRanges(DayRows(rows, business, day)), dayStart, 60 * s.durationMinutes,
              if s.capacity > 1 then 60 * s.durationMinutes else SLOT_INTERVAL)
  }

  /**
    On an unchanged store and for the same professional filter, a start of the grid
    is offered if and only if booking's own check accepts it, and the places offered
    are the places booking finds.
   */
  lemma OfferedIffAccepted(db: Db, rows: seq<HourRow>, business: Id, service: Id, day: int, dayStart: int,
                           who: Option<Id>, start: int, remaining: int)
    requires service in db.services && db.services[service].durationMinutes >= 1
    requires start in GridOf(db, rows, business, service, day, dayStart)
    ensures var s := db.services[service];
            var accepted := EnsureSlotAvailable(db, business, service, s, start, who);
            Offer(start, remaining, s.capacity) in AvailableSlots(db, rows, business, service, day, dayStart, who).value
            <==> accepted.Ok? && accepted.value.remaining == remaining
  {
    var q := DayQuery(db, business, service, dayStart, who);
    var ranges := OpenRanges(DayRows(rows, business, day));
    OffersExact(q, DayStarts(ranges, dayStart, q.duration, q.step), Offer(start, remaining, q.capacity));
    StartsFit(ranges, dayStart, q.duration, q.step, start);
    DayEvaluationIsBookingEvaluation(db, business, service, dayStart, who, start);
  }

  /** A booking whose slot re-check passes goes through. */
  lemma RecheckedIsBooked(db: Db, input: BookInput, withProfessionals: bool, now: int, freshClient: Id, freshRow: Id)
    requires Admission(db, input, withProfessionals).Ok? && db.services[input.service].durationMinutes >= 1
    requires CanIdentify(db.clients, input.whatsapp)
    requires var (clients, k) := FindOrCreate(db.clients, input.whatsapp, freshClient);
             FindSeat(db.rows, clients[k].id, input.service, input.at).None?
    requires now < input.at
    requires EnsureSlotAvailable(db, input.business, input.service, db.services[input.service], input.at,
                                 input.professional).Ok?
    ensures var (next, result) := BookStep(db, input, withProfessionals, now, freshClient, freshRow);
            var service := db.services[input.service];
            var check := EnsureSlotAvailable(db, input.business, input.service, service, input.at, input.professional);
            && result.Ok? && !result.value.alreadyBooked
            && next.rows == db.rows + [result.value.appointment]
            && result.value.spotsLeft == if service.capacity > 1 then Some(check.value.remaining - 1) else None
  {
  }

  /**
    An admitted request for an offered start in the future succeeds if and only if
    its client can be identified: an active client has the number as given, or no
    client, active or not, has the stripped one as external id. It then takes the
    start, unless the client already holds that seat. If not, nothing changes.
   */
  lemma OfferedCanBeBooked(db: Db, rows: seq<HourRow>, day: int, dayStart: int, o: Offer,
                           input: BookInput, withProfessionals: bool, now: int, freshClient: Id, freshRow: Id)
    requires Admission(db, input, withProfessionals).Ok?
    requires db.services[input.service].durationMinutes >= 1
    requires o in AvailableSlots(db, rows, input.business, input.service, day, dayStart, input.professional).value
    requires input.at == o.start && now < o.start
    ensures var (next, result) := BookStep(db, input, withProfessionals, now, freshClient, freshRow);
            var known := exists c :: c in db.clients && c.isActive && c.whatsapp == input.whatsapp;
            var taken := exists c :: c in db.clients && c.externalId == Strip(input.whatsapp);
            && (result.Ok? <==> known || !taken)
            && (result.Err? ==> next == db && result == Err(DuplicateKey))
            && (result.Ok? && !result.value.alreadyBooked ==>
                  && next.rows == db.rows + [result.value.appointment]
                  && result.value.spotsLeft == if o.capacity > 1 then Some(o.remaining - 1) else None)
            && (result.Ok? && result.value.alreadyBooked ==>
                  && next.rows == db.rows && result.value.appointment in db.rows
                  && HoldsSeat(result.value.appointment, result.value.appointment.client, input.service, o.start))
  {
    IdentifiedIff(db.clients, input.whatsapp);
    if CanIdentify(db.clients, input.whatsapp) {
      var (clients, k) := FindOrCreate(db.clients, input.whatsapp, freshClient);
      FindSeatExact(db.rows, clients[k].id, input.service, o.start);
      if FindSeat(db.rows, clients[k].id, input.service, o.start).None? {
        var own := DayQuery(db, input.business, input.service, dayStart, input.professional);
        OffersExact(own, GridOf(db, rows, input.business, input.service, day, dayStart), o);
        OfferedIffAccepted(db, rows, input.business, input.service, day, dayStart, input.professional, o.start,
                           o.remaining);
        RecheckedIsBooked(db, input, withProfessionals, now, freshClient, freshRow);
      }
    }
  }

  lemma IdentifiedIff(clients: seq<Client>, whatsapp: string)
    ensures CanIdentify(clients, whatsapp) <==>
            || (exists c :: c in clients && c.isActive && c.whatsapp == whatsapp)
            || !(exists c :: c in clients && c.externalId == Strip(whatsapp))
  {
    var k := ClientIndex(clients, whatsapp);
    if k < |clients| {
      assert clients[k] in clients;
    }
  }

  // ---------- what one booking does to the offer ----------

  /** The offer without the starts closer than one session length to t. */
  function Without(offers: seq<Offer>, t: int, duration: int): seq<Offer> {
    if offers == [] then []
    else (if -duration < offers[0].start - t < duration then [] else [offers[0]]) + Without(offers[1..], t, duration)
  }

  /** The offer with one place less at t; a start without places disappears. */
  function OnePlaceLess(offers: seq<Offer>, t: int): seq<Offer> {
    if offers == [] then []
    else (if offers[0].start != t then [offers[0]]
          else if offers[0].remaining > 1 then [offers[0].(remaining := offers[0].remaining - 1)]
          else [])
         + OnePlaceLess(offers[1..], t)
  }

  /** The same query after one more booking. */
  function Booked(q: Query, r: Row): Query { q.(booked := q.booked + [r]) }

  /** r is one more session of the queried service starting at t. */
  predicate SessionAt(q: Query, r: Row, t: int) {
    r.service == q.service && r.scheduledAt == t && 60 * r.durationMinutes == q.duration
  }

  /** Booking t of a one-to-one service removes exactly the starts that would overlap it. */
  lemma {:induction false} ExclusiveUpdate(q: Query, r: Row, t: int, starts: seq<int>)
    requires q.duration >= 1 && q.capacity <= 1 && SessionAt(q, r, t)
    ensures Offers(Booked(q, r), starts) == Without(Offers(q, starts), t, q.duration)
  {
    if starts != [] {
      var u, rest := starts[0], Offers(q, starts[1..]);
      var e := EvaluateAt(q, u);
      EvaluateAppend(SlotAt(q, u), q.capacity, q.booked, r, q.caps);
      assert EvaluateAt(Booked(q, r), u) == Evaluate(SlotAt(q, u), q.capacity, q.booked + [r], q.caps);
      ExclusiveUpdate(q, r, t, starts[1..]);
      if e.IsBookable() {
        assert ([Offer(u, e.remaining, q.capacity)] + rest)[1..] == rest;
      }
    }
  }

  /** Booking t of a group class costs one place there, if no other start overlaps that session. */
  lemma {:induction false} GroupUpdate(q: Query, r: Row, t: int, starts: seq<int>)
    requires q.duration >= 1 && q.capacity > 1 && SessionAt(q, r, t) && CapacityOf(q.caps, q.service) > 1
    requires forall u :: u in starts ==> u == t || u >= t + q.duration || t >= u + q.duration
    ensures Offers(Booked(q, r), starts) == OnePlaceLess(Offers(q, starts), t)
  {
    if starts != [] {
      var u, rest := starts[0], Offers(q, starts[1..]);
      var e := EvaluateAt(q, u);
      EvaluateAppend(SlotAt(q, u), q.capacity, q.booked, r, q.caps);
      assert EvaluateAt(Booked(q, r), u) == Evaluate(SlotAt(q, u), q.capacity, q.booked + [r], q.caps);
      assert u in starts && forall v :: v in starts[1..] ==> v in starts;
      GroupUpdate(q, r, t, starts[1..]);
      if e.IsBookable() {
        assert ([Offer(u, e.remaining, q.capacity)] + rest)[1..] == rest;
      }
    }
  }

  lemma {:induction false} StartsApart(open: int, close: int, duration: int, u: int, v: int)
    requires duration >= 1
    requires u in Starts(open, close, duration, duration) && v in Starts(open, close, duration, duration)
    ensures u == v || u >= v + duration || v >= u + duration
    decreases close - duration - open
  {
    StartsAscending(open + duration, close, duration, duration);
    if u != open && v != open {
      StartsApart(open + duration, close, duration, u, v);
    }
  }

  /** When the step is the session length, the sessions of a day's grid never overlap. */
  lemma {:induction false} DayStartsApart(ranges: seq<HourRow>, dayStart: int, duration: int, u: int, v: int)
    requires duration >= 1 && Chain(ranges)
    requires u in DayStarts(ranges, dayStart, duration, duration)
    requires v in DayStarts(ranges, dayStart, duration, duration)
    ensures u == v || u >= v + duration || v >= u + duration
  {
    var h := ranges[0].hours;
    var first := RangeStarts(h, dayStart, duration, duration);
    var open, close := dayStart + ToMinute(h.openAt), dayStart + ToMinute(h.closeAt);
    StartsAscending(open, close, duration, duration);
    if u in first && v in first {
      StartsApart(open, close, duration, u, v);
    } else if u !in first && v !in first {
      DayStartsApart(ranges[1..], dayStart, duration, u, v);
    } else {
      LaterRanges(ranges, dayStart, duration, if u in first then v else u);
    }
  }

  lemma LaterRanges(ranges: seq<HourRow>, dayStart: int, duration: int, v: int)
    requires duration >= 1 && Chain(ranges) && ranges != []
    requires v in DayStarts(ranges[1..], dayStart, duration, duration)
    ensures v >= dayStart + ToMinute(ranges[0].hours.closeAt)
  {
    DayStartsOrdered(ranges[1..], dayStart, duration, duration);
    var y :| y in ranges[1..] && InsideRange(v, duration, dayStart, y.hours);
    MinuteMonotone(ranges[0].hours.closeAt, y.hours.openAt);
  }

  /** How a new row changes the loaded data of a day query. */
  lemma QueryAfterBooking(db: Db, next: Db, r: Row, business: Id, service: Id, dayStart: int, who: Option<Id>)
    requires service in db.services && next.services == db.services && next.rows == db.rows + [r]
    requires r.service == service
    ensures DayQuery(next, business, service, dayStart, who) ==
            if InRange(r, business, dayStart, dayStart + 86399, who) then
              Booked(DayQuery(db, business, service, dayStart, who), r)
            else DayQuery(db, business, service, dayStart, who)
  {
    ActiveInRangeConcat(db.rows, [r], business, dayStart, dayStart + 86399, who);
    var booked := ActiveInRange(db.rows, business, dayStart, dayStart + 86399, who);
    assert [r][1..] == [];
    assert booked + [] == booked;
    if InRange(r, business, dayStart, dayStart + 86399, who) {
      assert ActiveInRange([r], business, dayStart, dayStart + 86399, who) == [r];
      assert ServicesOf(booked + [r]) + {service} == ServicesOf(booked) + {service};
    }
  }

  /**
    The exact effect of booking an offered start t on what is offered for the same
    service and day. A query that sees the booking's professional loses, for a
    one-to-one service, exactly the starts less than one session length away from
    t, and for a group class exactly one place at t; any other query loses nothing.
   */
  lemma BookingUpdatesOffer(db: Db, rows: seq<HourRow>, day: int, dayStart: int, o: Offer, who: Option<Id>,
                            input: BookInput, withProfessionals: bool, now: int, freshClient: Id, freshRow: Id)
    requires Admission(db, input, withProfessionals).Ok?
    requires db.services[input.service].durationMinutes >= 1
    requires Chain(OpenRanges(DayRows(rows, input.business, day)))
    requires o in AvailableSlots(db, rows, input.business, input.service, day, dayStart, input.professional).value
    requires input.at == o.start
    requires var result := BookStep(db, input, withProfessionals, now, freshClient, freshRow).1;
             result.Ok? && !result.value.alreadyBooked
    ensures var s := db.services[input.service];
            var next := BookStep(db, input, withProfessionals, now, freshClient, freshRow).0;
            var before := AvailableSlots(db, rows, input.business, input.service, day, dayStart, who).value;
            var after := AvailableSlots(next, rows, input.business, input.service, day, dayStart, who).value;
            after == if who.Some? && who != input.professional then before
                     else if s.capacity > 1 then OnePlaceLess(before, o.start)
                     else Without(before, o.start, 60 * s.durationMinutes)
  {
    var (next, result) := BookStep(db, input, withProfessionals, now, freshClient, freshRow);
    var r := result.value.appointment;
    var ranges := OpenRanges(DayRows(rows, input.business, day));
    var own := DayQuery(db, input.business, input.service, dayStart, input.professional);
    var q := DayQuery(db, input.business, input.service, dayStart, who);
    QueryAfterBooking(db, next, r, input.business, input.service, dayStart, who);
    var starts := GridOf(db, rows, input.business, input.service, day, dayStart);
    OffersExact(own, starts, o);
    StartsFit(ranges, dayStart, own.duration, own.step, o.start);
    if !(who.Some? && who != input.professional) {
      assert InRange(r, input.business, dayStart, dayStart + 86399, who);
      if q.capacity > 1 {
        forall u | u in starts
          ensures u == o.start || u >= o.start + q.duration || o.start >= u + q.duration
        {
          DayStartsApart(ranges, dayStart, q.duration, u, o.start);
        }
        GroupUpdate(q, r, o.start, starts);
      } else {
        ExclusiveUpdate(q, r, o.start, starts);
      }
    }
  }

  /** What a booking that went through found when it re-checked its slot. */
  lemma BookedWasRechecked(db: Db, input: BookInput, withProfessionals: bool, now: int, freshClient: Id, freshRow: Id)
    requires var result := BookStep(db, input, withProfessionals, now, freshClient, freshRow).1;
             result.Ok? && !result.value.alreadyBooked
    ensures input.service in db.services
    ensures var result := BookStep(db, input, withProfessionals, now, freshClient, freshRow).1;
            var service := db.services[input.service];
            var check := EnsureSlotAvailable(db, input.business, input.service, service, input.at, input.professional);
            && check.Ok?
            && result.value.spotsLeft == if service.capacity > 1 then Some(check.value.remaining - 1) else None
  {
  }

  /** The places a client is told are left, zero included, are those the next query finds at t. */
  lemma SpotsLeftIsNextOffer(db: Db, rows: seq<HourRow>, day: int, dayStart: int, o: Offer, remaining: int,
                             input: BookInput, withProfessionals: bool, now: int, freshClient: Id, freshRow: Id)
    requires Admission(db, input, withProfessionals).Ok?
    requires db.services[input.service].durationMinutes >= 1 && db.services[input.service].capacity > 1
    requires Chain(OpenRanges(DayRows(rows, input.business, day)))
    requires o in AvailableSlots(db, rows, input.business, input.service, day, dayStart, input.professional).value
    requires input.at == o.start
    requires var result := BookStep(db, input, withProfessionals, now, freshClient, freshRow).1;
             result.Ok? && !result.value.alreadyBooked
    ensures var (next, result) := BookStep(db, input, withProfessionals, now, freshClient, freshRow);
            var after := AvailableSlots(next, rows, input.business, input.service, day, dayStart,
                                        input.professional).value;
            Offer(o.start, remaining, o.capacity) in after
            <==> remaining > 0 && result.value.spotsLeft == Some(remaining)
  {
    var q := DayQuery(db, input.business, input.service, dayStart, input.professional);
    var starts := GridOf(db, rows, input.business, input.service, day, dayStart);
    BookingUpdatesOffer(db, rows, day, dayStart, o, input.professional, input, withProfessionals, now, freshClient,
                        freshRow);
    OffersExact(q, starts, o);
    OfferedIffAccepted(db, rows, input.business, input.service, day, dayStart, input.professional, o.start,
                       o.remaining);
    BookedWasRechecked(db, input, withProfessionals, now, freshClient, freshRow);
    var before := Offers(q, starts);
    forall x | x in before && x.start == o.start
      ensures x == o
    {
      OffersExact(q, starts, x);
    }
    OnePlaceLessMembers(before, o.start, Offer(o.start, remaining, o.capacity));
  }

  lemma {:induction false} OnePlaceLessMembers(offers: seq<Offer>, t: int, x: Offer)
    requires x.start == t
    ensures x in OnePlaceLess(offers, t) <==> x.remaining > 0 && x.(remaining := x.remaining + 1) in offers
  {
    if offers != [] {
      OnePlaceLessMembers(offers[1..], t, x);
    }
  }
}
