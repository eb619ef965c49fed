/**
  What the availability query offers, said about the rows of the tables and the
  schedule that was submitted: no range is forgotten and no start is made up.
 */
module OfferCriteria {
  import opened Wrappers
  import opened Appointments
  import opened SlotOccupancy
  import opened Scheduling
  import opened BusinessHours
  import opened Availability
  import opened DailyOffer
  import opened FreeSlots

  // ---------- ranges ----------

  lemma {:induction false} SelectMembers(rows: seq<HourRow>, business: Id, day: int, y: HourRow)
    ensures y in Select(rows, business, day) <==> y in rows && y.business == business && y.day == day
  {
    if rows != [] {
      SelectMembers(rows[1..], business, day, y);
    }
  }

  lemma {:induction false} OpenMembers(rows: seq<HourRow>, y: HourRow)
    ensures y in OpenRanges(rows) <==> y in rows && !y.hours.isClosed
  {
    if rows != [] {
      OpenMembers(rows[1..], y);
    }
  }

  /** Every open row of the day is a range of the day. */
  lemma RangesAreComplete(rows: seq<HourRow>, business: Id, day: int, y: HourRow)
    ensures y in OpenRanges(DayRows(rows, business, day))
       <==> y in rows && y.business == business && y.day == day && !y.hours.isClosed
  {
    OpenMembers(DayRows(rows, business, day), y);
    SortMembers(Select(rows, business, day), BySequence);
    SelectMembers(rows, business, day, y);
  }

  // ---------- starts ----------

  /** t is a whole number of steps after the range opens, on the minute, and the session ends before it closes. */
  ghost predicate StartsIn(h: Hours, dayStart: int, duration: int, step: int, t: int) {
    && (exists k: nat :: t == dayStart + (h.openAt - h.openAt % 60) + k * step)
    && t + duration <= dayStart + (h.closeAt - h.closeAt % 60)
  }

  lemma RangeStartIsExact(h: Hours, dayStart: int, duration: int, step: int, t: int)
    requires step >= 1
    ensures t in RangeStarts(h, dayStart, duration, step) <==> StartsIn(h, dayStart, duration, step, t)
  {
    var open := dayStart + ToMinute(h.openAt);
    StartsExact(open, dayStart + ToMinute(h.closeAt), duration, step, t);
    assert OnGrid(t, open, step) <==> exists k: nat :: t == open + k * step;
  }

  lemma {:induction false} DayStartIsExact(ranges: seq<HourRow>, dayStart: int, duration: int, step: int, t: int)
    requires step >= 1
    ensures t in DayStarts(ranges, dayStart, duration, step)
       <==> exists y :: y in ranges && StartsIn(y.hours, dayStart, duration, step, t)
  {
    if ranges != [] {
      RangeStartIsExact(ranges[0].hours, dayStart, duration, step, t);
      DayStartIsExact(ranges[1..], dayStart, duration, step, t);
    }
  }

  // ---------- offers ----------

  function WishAt(db: Db, business: Id, service: Id, who: Option<Id>, t: int): Wish
    requires service in db.services
  {
    Wish(business, service, who, None, t, t + 60 * db.services[service].durationMinutes)
  }

  /** A start every quarter of an hour, or every session length for a class. */
  function StepOf(s: Service): int { if s.capacity > 1 then 60 * s.durationMinutes else 900 }

  lemma GridIsExact(db: Db, rows: seq<HourRow>, business: Id, service: Id, day: int, dayStart: int, t: int)
    requires service in db.services && db.services[service].durationMinutes >= 1
    ensures var s := db.services[service];
            t in GridOf(db, rows, business, service, day, dayStart)
            <==> exists y :: y in rows && y.business == business && y.day == day && !y.hours.isClosed
                   && StartsIn(y.hours, dayStart, 60 * s.durationMinutes, StepOf(s), t)
  {
    var s, ranges := db.services[service], OpenRanges(DayRows(rows, business, day));
    DayStartIsExact(ranges, dayStart, 60 * s.durationMinutes, StepOf(s), t);
    forall y
      ensures y in ranges <==> y in rows && y.business == business && y.day == day && !y.hours.isClosed
    {
      RangesAreComplete(rows, business, day, y);
    }
  }

  /**
    The query offers t if and only if some open row of the day has it as a start and
    it is free, with the places left; and it fails only for an unknown service.
   */
  lemma OfferIsExact(db: Db, rows: seq<HourRow>, business: Id, service: Id, day: int, dayStart: int, who: Option<Id>,
                     o: Offer)
    requires service in db.services ==> db.services[service].durationMinutes >= 1
    ensures var offered := AvailableSlots(db, rows, business, service, day, dayStart, who);
            if service !in db.services then offered == Err(NotFound)
            else
              var s, w := db.services[service], WishAt(db, business, service, who, o.start);
              && offered.Ok?
              && (o in offered.value <==>
                    && (exists y :: y in rows && y.business == business && y.day == day && !y.hours.isClosed
                          && StartsIn(y.hours, dayStart, 60 * s.durationMinutes, StepOf(s), o.start))
                    && IsFree(db.rows, db.services, w, s.capacity)
                    && o.remaining == PlacesLeft(db.rows, w, s.capacity) && o.capacity == s.capacity)
  {
    if service in db.services {
      var s := db.services[service];
      var grid := GridOf(db, rows, business, service, day, dayStart);
      GridIsExact(db, rows, business, service, day, dayStart, o.start);
      OffersExact(DayQuery(db, business, service, dayStart, who), grid, o);
      if o.start in grid {
        OfferedIffAccepted(db, rows, business, service, day, dayStart, who, o.start, o.remaining);
        RecheckIsExact(db, business, service, o.start, who);
      }
    }
  }

  // ---------- from the schedule ----------

  lemma {:induction false} CreatedMembers(business: Id, schedule: seq<DayEntry>, y: HourRow)
    ensures y in Created(business, schedule)
       <==> y.business == business && y.sequence == 0 && DayEntry(y.day, y.hours) in schedule
  {
    if schedule != [] {
      CreatedMembers(business, schedule[1..], y);
      assert schedule[0] == DayEntry(schedule[0].day, schedule[0].hours);
    }
  }

  lemma {:induction false} NumberedKeepsHours(s: seq<HourRow>, n: int, h: Hours)
    ensures (exists y :: y in Numbered(s, n) && y.hours == h) <==> (exists x :: x in s && x.hours == h)
  {
    if s != [] {
      NumberedKeepsHours(s[1..], n + 1, h);
      var head, rest := s[0].(sequence := n), Numbered(s[1..], n + 1);
      assert Numbered(s, n) == [head] + rest;
      if x :| x in s && x.hours == h && x != s[0] {
        assert x in s[1..];
      }
      if s[0].hours == h {
        assert head in Numbered(s, n);
      }
      if y :| y in rest && y.hours == h {
        assert y in Numbered(s, n);
      }
      if y :| y in Numbered(s, n) && y.hours == h && y !in rest {
        assert y == head && s[0] in s;
      }
      if x :| x in s[1..] && x.hours == h {
        assert x in s;
      }
    }
  }

  /** An accepted schedule leaves a day it mentions with exactly its entries. */
  lemma StoredHours(before: seq<HourRow>, rows: seq<HourRow>, business: Id, schedule: seq<DayEntry>, day: int, h: Hours)
    requires SetsHours(before, rows, business, schedule) && Acceptable(schedule)
    requires exists g: Hours :: DayEntry(day, g) in schedule
    ensures (exists y :: y in rows && y.business == business && y.day == day && y.hours == h)
       <==> DayEntry(day, h) in schedule
  {
    var created := Created(business, schedule);
    var items := Select(created, business, day);
    var g: Hours :| DayEntry(day, g) in schedule;
    CreatedMembers(business, schedule, HourRow(business, day, g, 0));
    SelectMembers(created, business, day, HourRow(business, day, g, 0));
    assert Select(rows, business, day) == Stored(items);
    NumberedKeepsHours(Sort(items, ByOpening), 1, h);
    SortMembers(items, ByOpening);
    CreatedMembers(business, schedule, HourRow(business, day, h, 0));
    SelectMembers(created, business, day, HourRow(business, day, h, 0));
    forall y | y in items
      ensures DayEntry(day, y.hours) in schedule
    {
      SelectMembers(created, business, day, y);
      CreatedMembers(business, schedule, y);
    }
    forall y: HourRow
      ensures y in Stored(items) <==> y in rows && y.business == business && y.day == day
    {
      SelectMembers(rows, business, day, y);
    }
  }

  /**
    End to end: once an accepted schedule that mentions the day is stored, t is
    offered if and only if some open entry of the schedule for that day has it as a
    start and it is free.
   */
  lemma ScheduleIsOffered(db: Db, before: seq<HourRow>, rows: seq<HourRow>, schedule: seq<DayEntry>, business: Id,
                          service: Id, day: int, dayStart: int, who: Option<Id>, o: Offer)
    requires service in db.services && db.services[service].durationMinutes >= 1
    requires SetsHours(before, rows, business, schedule) && Acceptable(schedule)
    requires exists g: Hours :: DayEntry(day, g) in schedule
    ensures var s, w := db.services[service], WishAt(db, business, service, who, o.start);
            o in AvailableSlots(db, rows, business, service, day, dayStart, who).value <==>
              && (exists h: Hours :: DayEntry(day, h) in schedule && !h.isClosed
                    && StartsIn(h, dayStart, 60 * s.durationMinutes, StepOf(s), o.start))
              && IsFree(db.rows, db.services, w, s.capacity)
              && o.remaining == PlacesLeft(db.rows, w, s.capacity) && o.capacity == s.capacity
  {
    OfferIsExact(db, rows, business, service, day, dayStart, who, o);
    var s := db.services[service];
    forall h: Hours
      ensures (exists y :: y in rows && y.business == business && y.day == day && y.hours == h)
         <==> DayEntry(day, h) in schedule
    {
      StoredHours(before, rows, business, schedule, day, h);
    }
    if h: Hours :| DayEntry(day, h) in schedule && !h.isClosed
                   && StartsIn(h, dayStart, 60 * s.durationMinutes, StepOf(s), o.start) {
      var y :| y in rows && y.business == business && y.day == day && y.hours == h;
      assert !y.hours.isClosed;
    }
  }
}
