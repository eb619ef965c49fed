/**
  Whether a start time is free. EvaluateSlot is the service's loop with its early
  exits; Evaluate says what it decides without mentioning any order.
 */
module SlotOccupancy {
  import opened Wrappers
  import opened Sequences
  import opened Arithmetic
  import opened Appointments

  datatype SlotEvaluation = SlotEvaluation(start: int, capacity: int, remaining: int, blocked: bool) {
    predicate IsBookable() { !blocked && remaining > 0 }
  }

  /** A candidate session: half-open interval, service, and the appointment being moved, if any. */
  datatype Slot = Slot(start: int, end: int, service: Id, exclude: Option<Id>)

  predicate Overlaps(r: Row, slot: Slot) {
    && slot.exclude != Some(r.id)
    && slot.start < r.EndsAt()
    && slot.end > r.scheduledAt
  }

  /** A service that is missing from the map counts as exclusive. */
  function CapacityOf(caps: map<Id, int>, service: Id): int {
    if service in caps then caps[service] else 1
  }

  predicate Blocks(r: Row, slot: Slot, caps: map<Id, int>) {
    && Overlaps(r, slot)
    && (CapacityOf(caps, r.service) <= 1 || (r.service == slot.service && r.scheduledAt != slot.start))
  }

  predicate TakesPlace(r: Row, slot: Slot) {
    Overlaps(r, slot) && r.service == slot.service && r.scheduledAt == slot.start
  }

  function Overlapping(booked: seq<Row>, slot: Slot): seq<Row> {
    if booked == [] then []
    else (if Overlaps(booked[0], slot) then [booked[0]] else []) + Overlapping(booked[1..], slot)
  }

  function PlacesTaken(booked: seq<Row>, slot: Slot): nat {
    if booked == [] then 0
    else (if TakesPlace(booked[0], slot) then 1 else 0) + PlacesTaken(booked[1..], slot)
  }

  predicate AnyOverlap(booked: seq<Row>, slot: Slot) {
    exists i :: 0 <= i < |booked| && Overlaps(booked[i], slot)
  }

  predicate AnyBlock(booked: seq<Row>, slot: Slot, caps: map<Id, int>) {
    exists i :: 0 <= i < |booked| && Blocks(booked[i], slot, caps)
  }

  function Evaluate(slot: Slot, capacity: int, booked: seq<Row>, caps: map<Id, int>): SlotEvaluation {
    if capacity <= 1 then
      var taken := AnyOverlap(booked, slot);
      SlotEvaluation(slot.start, 1, if taken then 0 else 1, taken)
    else if AnyBlock(booked, slot, caps) then
      SlotEvaluation(slot.start, capacity, 0, true)
    else
      SlotEvaluation(slot.start, capacity, Max(0, capacity - PlacesTaken(booked, slot)), false)
  }

  method EvaluateSlot(slot: Slot, capacity: int, booked: seq<Row>, caps: map<Id, int>)
    returns (evaluation: SlotEvaluation)
    ensures evaluation == Evaluate(slot, capacity, booked, caps)
  {
    var overlapping := Overlapping(booked, slot);
    OverlappingIsFaithful(booked, slot, caps);
    if capacity <= 1 {
      return SlotEvaluation(slot.start, 1, if overlapping != [] then 0 else 1, overlapping != []);
    }
    evaluation := EvaluateGroupClass(slot, capacity, overlapping, caps);
  }

  /** The loop over the overlapping appointments of a group class, with its early exits. */
  method EvaluateGroupClass(slot: Slot, capacity: int, overlapping: seq<Row>, caps: map<Id, int>)
    returns (evaluation: SlotEvaluation)
    requires capacity > 1
    requires forall j :: 0 <= j < |overlapping| ==> Overlaps(overlapping[j], slot)
    ensures evaluation == Evaluate(slot, capacity, overlapping, caps)
  {
    var taken, i := 0, 0;
    while i < |overlapping|
      invariant 0 <= i <= |overlapping|
      invariant forall j :: 0 <= j < i ==> !Blocks(overlapping[j], slot, caps)
      invariant taken == PlacesTaken(overlapping[..i], slot)
    {
      var apt := overlapping[i];
      PlacesTakenSnoc(overlapping, i, slot);
      if CapacityOf(caps, apt.service) <= 1 {
        assert Blocks(overlapping[i], slot, caps);
        return SlotEvaluation(slot.start, capacity, 0, true);
      }
      if apt.service == slot.service {
        if apt.scheduledAt == slot.start {
          taken := taken + 1;
        } else {
          assert Blocks(overlapping[i], slot, caps);
          return SlotEvaluation(slot.start, capacity, 0, true);
        }
      }
      i := i + 1;
    }
    PrefixAll(overlapping);
    return SlotEvaluation(slot.start, capacity, Max(0, capacity - taken), false);
  }

  lemma PlacesTakenSnoc(booked: seq<Row>, i: nat, slot: Slot)
    requires i < |booked|
    ensures PlacesTaken(booked[..i + 1], slot)
         == PlacesTaken(booked[..i], slot) + if TakesPlace(booked[i], slot) then 1 else 0
  {
    PrefixSnoc(booked, i);
    PlacesTakenConcat(booked[..i], [booked[i]], slot);
    assert [booked[i]][1..] == [];
  }

  /** The comprehension keeps every row that matters and no other. */
  lemma {:induction false} OverlappingIsFaithful(booked: seq<Row>, slot: Slot, caps: map<Id, int>)
    ensures forall i :: 0 <= i < |Overlapping(booked, slot)| ==> Overlaps(Overlapping(booked, slot)[i], slot)
    ensures Overlapping(booked, slot) != [] <==> AnyOverlap(booked, slot)
    ensures AnyBlock(Overlapping(booked, slot), slot, caps) <==> AnyBlock(booked, slot, caps)
    ensures PlacesTaken(Overlapping(booked, slot), slot) == PlacesTaken(booked, slot)
  {
    if booked != [] {
      var rest := booked[1..];
      OverlappingIsFaithful(rest, slot, caps);
      AnyOverlapSplit(booked, slot, caps);
      var o := Overlapping(booked, slot);
      if Overlaps(booked[0], slot) {
        assert o[1..] == Overlapping(rest, slot);
        AnyOverlapSplit(o, slot, caps);
      } else {
        assert o == Overlapping(rest, slot);
      }
    }
  }

  lemma AnyOverlapSplit(booked: seq<Row>, slot: Slot, caps: map<Id, int>)
    requires booked != []
    ensures AnyOverlap(booked, slot) <==> Overlaps(booked[0], slot) || AnyOverlap(booked[1..], slot)
    ensures AnyBlock(booked, slot, caps) <==> Blocks(booked[0], slot, caps) || AnyBlock(booked[1..], slot, caps)
  {
    var rest := booked[1..];
    assert forall i :: 0 <= i < |rest| ==> rest[i] == booked[i + 1];
    assert forall i :: 1 <= i < |booked| ==> booked[i] == rest[i - 1];
  }

  lemma {:induction false} PlacesTakenConcat(a: seq<Row>, b: seq<Row>, slot: Slot)
    ensures PlacesTaken(a + b, slot) == PlacesTaken(a, slot) + PlacesTaken(b, slot)
  {
    if a == [] {
      assert a + b == b;
    } else {
      assert (a + b)[1..] == a[1..] + b;
      PlacesTakenConcat(a[1..], b, slot);
    }
  }

  lemma PlacesTakenRemove(booked: seq<Row>, k: nat, slot: Slot)
    requires k < |booked|
    ensures var rest := booked[..k] + booked[k + 1..];
            PlacesTaken(booked, slot) == PlacesTaken(rest, slot) + if TakesPlace(booked[k], slot) then 1 else 0
  {
    var tail := booked[k..];
    assert booked == booked[..k] + tail;
    assert tail == [booked[k]] + booked[k + 1..];
    PlacesTakenConcat(booked[..k], tail, slot);
    PlacesTakenConcat(booked[..k], booked[k + 1..], slot);
  }

  lemma MultisetWithout(s: seq<Row>, k: nat)
    requires k < |s|
    ensures multiset(s[..k] + s[k + 1..]) == multiset(s) - multiset{s[k]}
  {
    var tail := s[k..];
    assert s == s[..k] + tail;
    assert tail == [s[k]] + s[k + 1..];
  }

  lemma SubsetAfterRemoval(small: seq<Row>, big: seq<Row>) returns (k: nat)
    requires small != [] && multiset(small) <= multiset(big)
    ensures k < |big| && big[k] == small[0]
    ensures multiset(small[1..]) <= multiset(big[..k] + big[k + 1..])
  {
    assert small[0] in multiset(small);
    assert small[0] in multiset(big);
    k :| 0 <= k < |big| && big[k] == small[0];
    MultisetWithout(small, 0);
    assert small[..0] + small[1..] == small[1..];
    MultisetWithout(big, k);
  }

  lemma {:induction false} PlacesTakenMonotone(small: seq<Row>, big: seq<Row>, slot: Slot)
    requires multiset(small) <= multiset(big)
    ensures PlacesTaken(small, slot) <= PlacesTaken(big, slot)
  {
    if small != [] {
      var k := SubsetAfterRemoval(small, big);
      PlacesTakenRemove(big, k, slot);
      PlacesTakenMonotone(small[1..], big[..k] + big[k + 1..], slot);
    }
  }

  /** Fewer bookings never make a free start time unavailable, nor cost it places. */
  lemma EvaluateAntitone(slot: Slot, capacity: int, small: seq<Row>, big: seq<Row>, caps: map<Id, int>)
    requires multiset(small) <= multiset(big)
    ensures Evaluate(slot, capacity, big, caps).IsBookable() ==>
              Evaluate(slot, capacity, small, caps).IsBookable()
    ensures Evaluate(slot, capacity, big, caps).remaining <= Evaluate(slot, capacity, small, caps).remaining
    ensures Evaluate(slot, capacity, small, caps).blocked ==> Evaluate(slot, capacity, big, caps).blocked
  {
    PlacesTakenMonotone(small, big, slot);
    forall i | 0 <= i < |small|
      ensures exists j :: 0 <= j < |big| && big[j] == small[i]
    {
      assert small[i] in multiset(small);
      assert small[i] in multiset(big);
    }
    if AnyOverlap(small, slot) {
      var i :| 0 <= i < |small| && Overlaps(small[i], slot);
      var j :| 0 <= j < |big| && big[j] == small[i];
    }
    if AnyBlock(small, slot, caps) {
      var i :| 0 <= i < |small| && Blocks(small[i], slot, caps);
      var j :| 0 <= j < |big| && big[j] == small[i];
    }
  }

  /** The order in which the database returns the rows is irrelevant. */
  lemma EvaluateOrderIndependent(slot: Slot, capacity: int, a: seq<Row>, b: seq<Row>, caps: map<Id, int>)
    requires multiset(a) == multiset(b)
    ensures Evaluate(slot, capacity, a, caps) == Evaluate(slot, capacity, b, caps)
  {
    EvaluateAntitone(slot, capacity, a, b, caps);
    EvaluateAntitone(slot, capacity, b, a, caps);
  }

  /**
    A slot that is free when every service counts as one-to-one is free, with all
    its places, under any capacities. This is what makes a reschedule that was
    given no catalogue safe in a sequential run.
   */
  lemma CapacityBlindAcceptance(slot: Slot, capacity: int, booked: seq<Row>, caps: map<Id, int>)
    requires Evaluate(slot, 1, booked, map[]).IsBookable()
    ensures Evaluate(slot, capacity, booked, caps) ==
              SlotEvaluation(slot.start, Max(1, capacity), Max(1, capacity), false)
  {
    OverlappingIsFaithful(booked, slot, caps);
  }

  /** Only the overlapping rows, and the capacities of their services, are ever looked at. */
  lemma EvaluateLocal(slot: Slot, capacity: int, a: seq<Row>, capsA: map<Id, int>, b: seq<Row>, capsB: map<Id, int>)
    requires Overlapping(a, slot) == Overlapping(b, slot)
    requires forall r :: r in Overlapping(a, slot) ==> CapacityOf(capsA, r.service) == CapacityOf(capsB, r.service)
    ensures Evaluate(slot, capacity, a, capsA) == Evaluate(slot, capacity, b, capsB)
  {
    var o := Overlapping(a, slot);
    OverlappingIsFaithful(a, slot, capsA);
    OverlappingIsFaithful(b, slot, capsB);
    assert forall i :: 0 <= i < |o| ==> o[i] in o;
    assert AnyBlock(o, slot, capsA) <==> AnyBlock(o, slot, capsB);
  }

  lemma {:induction false} OverlappingConcat(a: seq<Row>, b: seq<Row>, slot: Slot)
    ensures Overlapping(a + b, slot) == Overlapping(a, slot) + Overlapping(b, slot)
  {
    if a == [] {
      assert a + b == b;
    } else {
      assert (a + b)[1..] == a[1..] + b;
      OverlappingConcat(a[1..], b, slot);
    }
  }

  /**
    What one more booking r does to a slot: nothing if they do not overlap or r
    belongs to another group class that can run in parallel; it costs one place if
    it joins the same session of a group class; and otherwise, when it is exclusive
    or misaligned, it takes the slot away.
   */
  lemma EvaluateAppend(slot: Slot, capacity: int, booked: seq<Row>, r: Row, caps: map<Id, int>)
    ensures var before := Evaluate(slot, capacity, booked, caps);
            var after := Evaluate(slot, capacity, booked + [r], caps);
            && (!Overlaps(r, slot) ==> after == before)
            && (capacity > 1 && r.service != slot.service && CapacityOf(caps, r.service) > 1 ==> after == before)
            && (Overlaps(r, slot) && capacity <= 1 ==> after.blocked && after.remaining == 0)
            && (Blocks(r, slot, caps) ==> after.blocked && after.remaining == 0)
            && (capacity > 1 && TakesPlace(r, slot) && CapacityOf(caps, r.service) > 1 ==>
                  after == before.(remaining := Max(0, before.remaining - 1)))
  {
    var more := booked + [r];
    PlacesTakenConcat(booked, [r], slot);
    assert forall i :: 0 <= i < |booked| ==> more[i] == booked[i];
    assert more[|booked|] == r;
    assert AnyOverlap(more, slot) <==> AnyOverlap(booked, slot) || Overlaps(r, slot);
    assert AnyBlock(more, slot, caps) <==> AnyBlock(booked, slot, caps) || Blocks(r, slot, caps);
  }
}
