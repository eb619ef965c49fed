/** The start times offered for a service on a day. */
module Availability {
  import opened Wrappers
  import opened Sequences
  import opened Appointments
  import opened SlotOccupancy
  import opened Scheduling
  import opened BusinessHours

  const SLOT_INTERVAL := 15 * 60

  datatype Offer = Offer(start: int, remaining: int, capacity: int)

  /** What stays the same while the starts of one query are evaluated. */
  datatype Query = Query(service: Id, duration: int, step: int, capacity: int, booked: seq<Row>, caps: map<Id, int>)

  function SlotAt(q: Query, start: int): Slot { Slot(start, start + q.duration, q.service, None) }

  function EvaluateAt(q: Query, start: int): SlotEvaluation {
    Evaluate(SlotAt(q, start), q.capacity, q.booked, q.caps)
  }

  /** The start times of one range, whether free or not. */
  function Starts(open: int, close: int, duration: int, step: int): seq<int>
    requires step >= 1
    decreases close - duration - open
  {
    if open + duration > close then [] else [open] + Starts(open + step, close, duration, step)
  }

  /** The bookable ones among some starts, in order. */
  function Offers(q: Query, starts: seq<int>): seq<Offer> {
    if starts == [] then []
    else
      var e := EvaluateAt(q, starts[0]);
      var rest := Offers(q, starts[1..]);
      if e.IsBookable() then [Offer(starts[0], e.remaining, q.capacity)] + rest else rest
  }

  method SlotsInRange(q: Query, open: int, close: int) returns (slots: seq<Offer>)
    requires q.step >= 1
    ensures slots == Offers(q, Starts(open, close, q.duration, q.step))
  {
    slots := [];
    var slot := open;
    ghost var seen: seq<int> := [];
    while slot + q.duration <= close
      invariant seen + Starts(slot, close, q.duration, q.step) == Starts(open, close, q.duration, q.step)
      invariant slots == Offers(q, seen)
      decreases close - q.duration - slot
    {
      OffersSnoc(q, seen, slot);
      ConcatAssociative(seen, [slot], Starts(slot + q.step, close, q.duration, q.step));
      var evaluation := EvaluateSlot(SlotAt(q, slot), q.capacity, q.booked, q.caps);
      if evaluation.IsBookable() {
        slots := slots + [Offer(slot, evaluation.remaining, q.capacity)];
      }
      seen := seen + [slot];
      slot := slot + q.step;
    }
    ConcatAssociative(seen, [], []);
  }

  lemma {:induction false} OffersConcat(q: Query, a: seq<int>, b: seq<int>)
    ensures Offers(q, a + b) == Offers(q, a) + Offers(q, b)
  {
    if a == [] {
      assert a + b == b;
    } else {
      assert (a + b)[1..] == a[1..] + b;
      OffersConcat(q, a[1..], b);
    }
  }

  lemma OffersSnoc(q: Query, a: seq<int>, t: int)
    ensures Offers(q, a + [t]) == Offers(q, a) +
              if EvaluateAt(q, t).IsBookable() then [Offer(t, EvaluateAt(q, t).remaining, q.capacity)] else []
  {
    OffersConcat(q, a, [t]);
    assert [t][1..] == [];
    assert Offers(q, []) == [];
  }

  // ---------- which starts ----------

  /** Start times a whole number of steps after open. */
  ghost predicate OnGrid(start: int, open: int, step: int) {
    exists k: nat :: start == open + k * step
  }

  lemma OnGridSplit(start: int, open: int, step: int)
    requires step >= 1
    ensures OnGrid(start, open, step) <==> start == open || OnGrid(start, open + step, step)
    ensures OnGrid(start, open, step) ==> start >= open
  {
    if OnGrid(start, open, step) {
      var k: nat :| start == open + k * step;
      assert k * step >= 0;
      if k > 0 {
        assert start == open + step + (k - 1) * step;
      }
    }
    if OnGrid(start, open + step, step) {
      var k: nat :| start == open + step + k * step;
      assert start == open + (k + 1) * step;
    }
    assert open == open + 0 * step;
  }

  /** The loop visits exactly the starts open + k * step that leave room for the service. */
  lemma {:induction false} StartsExact(open: int, close: int, duration: int, step: int, t: int)
    requires step >= 1
    ensures t in Starts(open, close, duration, step) <==> OnGrid(t, open, step) && t + duration <= close
    decreases close - duration - open
  {
    OnGridSplit(t, open, step);
    if open + duration <= close {
      StartsExact(open + step, close, duration, step, t);
    }
  }

  /** The offers are exactly the bookable ones among the starts, with the places the evaluation finds. */
  lemma {:induction false} OffersExact(q: Query, starts: seq<int>, o: Offer)
    ensures o in Offers(q, starts) <==>
            && o.start in starts
            && EvaluateAt(q, o.start).IsBookable()
            && o == Offer(o.start, EvaluateAt(q, o.start).remaining, q.capacity)
  {
    if starts != [] {
      OffersExact(q, starts[1..], o);
    }
  }

  predicate Ascending(starts: seq<int>) {
    starts != [] ==> (forall u :: u in starts[1..] ==> starts[0] < u) && Ascending(starts[1..])
  }

  predicate Increasing(offers: seq<Offer>) {
    forall i, j :: 0 <= i < j < |offers| ==> offers[i].start < offers[j].start
  }

  lemma {:induction false} StartsAscending(open: int, close: int, duration: int, step: int)
    requires step >= 1
    ensures var starts := Starts(open, close, duration, step);
            Ascending(starts) && forall u :: u in starts ==> open <= u && u + duration <= close
    decreases close - duration - open
  {
    if open + duration <= close {
      StartsAscending(open + step, close, duration, step);
      var rest := Starts(open + step, close, duration, step);
      assert ([open] + rest)[1..] == rest;
    }
  }

  lemma {:induction false} AscendingConcat(a: seq<int>, b: seq<int>)
    requires Ascending(a) && Ascending(b) && forall u, v :: u in a && v in b ==> u < v
    ensures Ascending(a + b)
  {
    if a == [] {
      assert a + b == b;
    } else {
      assert (a + b)[1..] == a[1..] + b;
      assert a[0] in a && forall u :: u in a[1..] ==> u in a;
      AscendingConcat(a[1..], b);
    }
  }

  /** Offers keep the order of their starts. */
  lemma {:induction false} OffersIncreasing(q: Query, starts: seq<int>)
    requires Ascending(starts)
    ensures Increasing(Offers(q, starts))
    ensures forall i :: 0 <= i < |Offers(q, starts)| ==> Offers(q, starts)[i].start in starts
  {
    if starts != [] {
      OffersIncreasing(q, starts[1..]);
    }
  }

  lemma {:induction false} StartsSpan(open: int, close: int, duration: int, step: int)
    requires step >= 1
    ensures var n := |Starts(open, close, duration, step)|;
            if open + duration <= close then n > 0 && (n - 1) * step <= close - open - duration else n == 0
    decreases close - duration - open
  {
    if open + duration <= close {
      StartsSpan(open + step, close, duration, step);
      var n := |Starts(open + step, close, duration, step)|;
      assert n * step == (n - 1) * step + step;
    }
  }

  lemma MulAtLeast(n: int, k: int, step: int)
    requires step >= 1 && n >= k
    ensures n * step >= k * step
  {
    assert (n - k) * step >= 0;
  }

  lemma QuotientBound(n: int, step: int, room: int)
    requires step >= 1 && n * step <= room
    ensures n <= room / step
  {
    var k, r := room / step, room % step;
    assert room == step * k + r && 0 <= r < step;
    assert (k + 1) * step == step * k + step;
    if n > k {
      MulAtLeast(n, k + 1, step);
    }
  }

  lemma {:induction false} OffersAtMostStarts(q: Query, starts: seq<int>)
    ensures |Offers(q, starts)| <= |starts|
  {
    if starts != [] {
      OffersAtMostStarts(q, starts[1..]);
    }
  }

  /** A range that fits the service holds at most one offer per step; any other holds none. */
  lemma OffersBounded(q: Query, open: int, close: int)
    requires q.step >= 1
    ensures |Offers(q, Starts(open, close, q.duration, q.step))|
         <= if open + q.duration <= close then (close - open - q.duration) / q.step + 1 else 0
  {
    OffersAtMostStarts(q, Starts(open, close, q.duration, q.step));
    StartsSpan(open, close, q.duration, q.step);
    if open + q.duration <= close {
      QuotientBound(|Starts(open, close, q.duration, q.step)| - 1, q.step, close - open - q.duration);
    }
  }

  // ---------- the query ----------

  /** Local wall-clock times keep hours and minutes only. */
  function ToMinute(t: int): int { t - t % 60 }

  function OpenRanges(rows: seq<HourRow>): seq<HourRow> {
    if rows == [] then [] else (if rows[0].hours.isClosed then [] else [rows[0]]) + OpenRanges(rows[1..])
  }

  /** The starts of all ranges of a day, range after range. */
  function DayStarts(ranges: seq<HourRow>, dayStart: int, duration: int, step: int): seq<int>
    requires step >= 1
  {
    if ranges == [] then []
    else RangeStarts(ranges[0].hours, dayStart, duration, step) + DayStarts(ranges[1..], dayStart, duration, step)
  }

  function RangeStarts(h: Hours, dayStart: int, duration: int, step: int): seq<int>
    requires step >= 1
  {
    Starts(dayStart + ToMinute(h.openAt), dayStart + ToMinute(h.closeAt), duration, step)
  }

  /** The rows and capacities the query loads: the whole local day, up to 23:59:59. */
  function DayQuery(db: Db, business: Id, service: Id, dayStart: int, who: Option<Id>): Query
    requires service in db.services
  {
    var s := db.services[service];
    var booked := ActiveInRange(db.rows, business, dayStart, dayStart + 86399, who);
    Query(service, 60 * s.durationMinutes, if s.capacity > 1 then 60 * s.durationMinutes else SLOT_INTERVAL,
          s.capacity, booked, CapacityMap(db.services, ServicesOf(booked) + {service}))
  }

  function AvailableSlots(db: Db, hours: seq<HourRow>, business: Id, service: Id, weekday: int, dayStart: int,
                          who: Option<Id>): Result<seq<Offer>>
    requires service in db.services ==> db.services[service].durationMinutes >= 1
  {
    if service !in db.services then Err(NotFound)
    else
      var q := DayQuery(db, business, service, dayStart, who);
      Ok(Offers(q, DayStarts(OpenRanges(DayRows(hours, business, weekday)), dayStart, q.duration, q.step)))
  }

  lemma {:induction false} DayStartsSnoc(ranges: seq<HourRow>, r: HourRow, dayStart: int, duration: int, step: int)
    requires step >= 1
    ensures DayStarts(ranges + [r], dayStart, duration, step)
         == DayStarts(ranges, dayStart, duration, step) + RangeStarts(r.hours, dayStart, duration, step)
  {
    if ranges == [] {
      assert ranges + [r] == [r];
      assert [r][1..] == [];
    } else {
      assert (ranges + [r])[1..] == ranges[1..] + [r];
      DayStartsSnoc(ranges[1..], r, dayStart, duration, step);
      ConcatAssociative(RangeStarts(ranges[0].hours, dayStart, duration, step),
                        DayStarts(ranges[1..], dayStart, duration, step),
                        RangeStarts(r.hours, dayStart, duration, step));
    }
  }

  /** The loop over the ranges. */
  method OffersOfRanges(q: Query, ranges: seq<HourRow>, dayStart: int) returns (detail: seq<Offer>)
    requires q.step >= 1
    ensures detail == Offers(q, DayStarts(ranges, dayStart, q.duration, q.step))
  {
    detail := [];
    var i := 0;
    while i < |ranges|
      invariant 0 <= i <= |ranges|
      invariant detail == Offers(q, DayStarts(ranges[..i], dayStart, q.duration, q.step))
    {
      var h := ranges[i].hours;
      var rangeDetail := SlotsInRange(q, dayStart + ToMinute(h.openAt), dayStart + ToMinute(h.closeAt));
      DayStartsSnoc(ranges[..i], ranges[i], dayStart, q.duration, q.step);
      OffersConcat(q, DayStarts(ranges[..i], dayStart, q.duration, q.step),
                   RangeStarts(h, dayStart, q.duration, q.step));
      PrefixSnoc(ranges, i);
      detail := detail + rangeDetail;
      i := i + 1;
    }
    PrefixAll(ranges);
  }

  method GetAvailableSlots(db: Database, table: HourTable, business: Id, service: Id, weekday: int, dayStart: int,
                           who: Option<Id>) returns (result: Result<seq<Offer>>)
    requires service in db.services ==> db.services[service].durationMinutes >= 1
    ensures result == AvailableSlots(db.View(), table.rows, business, service, weekday, dayStart, who)
  {
    if service !in db.services {
      return Err(NotFound);
    }
    var s := db.services[service];
    var dayRows := DayRows(table.rows, business, weekday);
    if dayRows == [] {
      return Ok([]);
    }
    var ranges := OpenRanges(dayRows);
    if ranges == [] {
      return Ok([]);
    }
    var booked := db.ListActiveInRange(business, dayStart, dayStart + 86399, who);
    var step := if s.capacity > 1 then 60 * s.durationMinutes else SLOT_INTERVAL;
    var caps := CapacityMap(db.services, ServicesOf(booked) + {service});
    var q := Query(service, 60 * s.durationMinutes, step, s.capacity, booked, caps);
    var detail := OffersOfRanges(q, ranges, dayStart);
    return Ok(detail);
  }
}
