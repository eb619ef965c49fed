/** What the repository queries return, stated without their loops. */
module Queries {
  import opened Wrappers
  import opened Arithmetic
  import opened Sequences
  import opened Appointments
  import opened SlotOccupancy
  import opened Scheduling

  /** list_active_in_range returns exactly the visible live rows that overlap the interval, with multiplicity. */
  lemma {:induction false} ActiveInRangeExact(rows: seq<Row>, business: Id, start: int, end: int, who: Option<Id>,
                                              r: Row)
    ensures multiset(ActiveInRange(rows, business, start, end, who))[r] ==
            if InRange(r, business, start, end, who) then multiset(rows)[r] else 0
  {
    if rows != [] {
      assert rows == [rows[0]] + rows[1..];
      ActiveInRangeExact(rows[1..], business, start, end, who, r);
    }
  }

  lemma {:induction false} ActiveInRangeConcat(a: seq<Row>, b: seq<Row>, business: Id, start: int, end: int,
                                               who: Option<Id>)
    ensures ActiveInRange(a + b, business, start, end, who)
         == ActiveInRange(a, business, start, end, who) + ActiveInRange(b, business, start, end, who)
  {
    if a == [] {
      assert a + b == b;
    } else {
      assert (a + b)[1..] == a[1..] + b;
      ActiveInRangeConcat(a[1..], b, business, start, end, who);
      ConcatAssociative(if InRange(a[0], business, start, end, who) then [a[0]] else [],
                        ActiveInRange(a[1..], business, start, end, who), ActiveInRange(b, business, start, end, who));
    }
  }

  /** Looking at a wider window does not change which rows overlap a slot inside it. */
  lemma {:induction false} WiderWindow(rows: seq<Row>, business: Id, start: int, end: int, who: Option<Id>, slot: Slot)
    requires start <= slot.start && slot.end <= end
    ensures Overlapping(ActiveInRange(rows, business, start, end, who), slot)
         == Overlapping(ActiveInRange(rows, business, slot.start, slot.end, who), slot)
  {
    if rows != [] {
      WiderWindow(rows[1..], business, start, end, who, slot);
      var wide, narrow := ActiveInRange(rows[1..], business, start, end, who),
                          ActiveInRange(rows[1..], business, slot.start, slot.end, who);
      var r := rows[0];
      assert [] + wide == wide && [] + narrow == narrow;
      assert ([r] + wide)[1..] == wide && ([r] + narrow)[1..] == narrow;
    }
  }

  /** Every service that matters has the same capacity in the partial map as in the whole catalogue. */
  lemma PartialCapacities(services: map<Id, Service>, ids: set<Id>, s: Id)
    requires s in ids
    ensures CapacityOf(CapacityMap(services, ids), s) == CapacityOf(CapacityMap(services, services.Keys), s)
  {
  }

  /**
    Without a professional filter, the places a session has taken are what
    count_active_for_service_at counts.
   */
  lemma {:induction false} PlacesTakenIsActiveCount(rows: seq<Row>, business: Id, slot: Slot)
    requires slot.start < slot.end && slot.exclude.None?
    requires forall i :: 0 <= i < |rows| ==> rows[i].durationMinutes >= 1
    requires forall i :: 0 <= i < |rows| && rows[i].service == slot.service ==> rows[i].business == business
    ensures PlacesTaken(ActiveInRange(rows, business, slot.start, slot.end, None), slot)
         == CountActiveAt(rows, slot.service, slot.start)
  {
    if rows != [] {
      PlacesTakenIsActiveCount(rows[1..], business, slot);
      var rest := ActiveInRange(rows[1..], business, slot.start, slot.end, None);
      assert ([rows[0]] + rest)[1..] == rest;
      assert [] + rest == rest;
    }
  }

  lemma RemainingFromActiveCount(rows: seq<Row>, business: Id, slot: Slot, capacity: int, caps: map<Id, int>)
    requires slot.start < slot.end && slot.exclude.None? && capacity > 1
    requires forall i :: 0 <= i < |rows| ==> rows[i].durationMinutes >= 1
    requires forall i :: 0 <= i < |rows| && rows[i].service == slot.service ==> rows[i].business == business
    ensures var e := Evaluate(slot, capacity, ActiveInRange(rows, business, slot.start, slot.end, None), caps);
            e.remaining == if e.blocked then 0 else Max(0, capacity - CountActiveAt(rows, slot.service, slot.start))
  {
    PlacesTakenIsActiveCount(rows, business, slot);
  }

  /** FindSeat finds a live row in that seat iff there is one. */
  lemma {:induction false} FindSeatExact(rows: seq<Row>, client: Id, service: Id, at: int)
    ensures var seat := FindSeat(rows, client, service, at);
            && (seat.Some? ==>
                  exists i :: 0 <= i < |rows| && rows[i] == seat.value && HoldsSeat(rows[i], client, service, at))
            && (seat.None? ==> forall i :: 0 <= i < |rows| ==> !HoldsSeat(rows[i], client, service, at))
  {
    if rows != [] && !HoldsSeat(rows[0], client, service, at) {
      FindSeatExact(rows[1..], client, service, at);
      assert forall i :: 1 <= i < |rows| ==> rows[i] == rows[1..][i - 1];
    }
  }
}
