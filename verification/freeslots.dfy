/**
  When a time is free, said about the rows of the table: which appointments are in
  the way, by status, professional and interval, and how many share the session.
 */
module FreeSlots {
  import opened Wrappers
  import opened Sequences
  import opened Arithmetic
  import opened Appointments
  import opened SlotOccupancy
  import opened Scheduling
  import opened Queries

  /** A session somebody wants: from until until, as seen for who, leaving the appointment except out. */
  datatype Wish = Wish(business: Id, service: Id, who: Option<Id>, except: Option<Id>, from: int, until: int)

  /** An active appointment of the business that is not the one being moved and shares an instant with the session. */
  predicate Rival(r: Row, w: Wish) {
    && r.business == w.business
    && (r.status == Pending || r.status == Confirmed || r.status == Rescheduled)
    && (w.who == None || r.professional == w.who)
    && w.except != Some(r.id)
    && r.scheduledAt < w.until && w.from < r.scheduledAt + 60 * r.durationMinutes
  }

  function Rivals(rows: seq<Row>, w: Wish): set<int> { set i | 0 <= i < |rows| && Rival(rows[i], w) }

  /** Rivals that attend the same session. */
  function Companions(rows: seq<Row>, w: Wish): set<int> {
    set i | 0 <= i < |rows| && Rival(rows[i], w) && rows[i].service == w.service && rows[i].scheduledAt == w.from
  }

  predicate Exclusive(services: map<Id, Service>, service: Id) {
    service !in services || services[service].capacity <= 1
  }

  /** Rivals that a group class cannot run beside: exclusive ones, and sessions of its own at another start. */
  function Obstacles(rows: seq<Row>, services: map<Id, Service>, w: Wish): set<int> {
    set i | 0 <= i < |rows| && Rival(rows[i], w)
            && (Exclusive(services, rows[i].service) || (rows[i].service == w.service && rows[i].scheduledAt != w.from))
  }

  predicate IsFree(rows: seq<Row>, services: map<Id, Service>, w: Wish, capacity: int) {
    if capacity <= 1 then Rivals(rows, w) == {}
    else Obstacles(rows, services, w) == {} && |Companions(rows, w)| < capacity
  }

  function PlacesLeft(rows: seq<Row>, w: Wish, capacity: int): int {
    if capacity <= 1 then 1 else capacity - |Companions(rows, w)|
  }

  // ---------- the evaluation says the same ----------

  function SlotOfWish(w: Wish): Slot { Slot(w.from, w.until, w.service, w.except) }

  function Listed(rows: seq<Row>, w: Wish): seq<Row> { ActiveInRange(rows, w.business, w.from, w.until, w.who) }

  lemma InList(rows: seq<Row>, w: Wish, r: Row)
    ensures r in Listed(rows, w) <==> r in rows && InRange(r, w.business, w.from, w.until, w.who)
  {
    ActiveInRangeExact(rows, w.business, w.from, w.until, w.who, r);
    assert r in Listed(rows, w) <==> r in multiset(Listed(rows, w));
    assert r in rows <==> r in multiset(rows);
  }

  lemma OverlapIsRival(rows: seq<Row>, w: Wish)
    ensures AnyOverlap(Listed(rows, w), SlotOfWish(w)) <==> Rivals(rows, w) != {}
  {
    var l, slot := Listed(rows, w), SlotOfWish(w);
    if AnyOverlap(l, slot) {
      var j :| 0 <= j < |l| && Overlaps(l[j], slot);
      InList(rows, w, l[j]);
      var i :| 0 <= i < |rows| && rows[i] == l[j];
      assert i in Rivals(rows, w);
    }
    if i :| i in Rivals(rows, w) {
      InList(rows, w, rows[i]);
      var j :| 0 <= j < |l| && l[j] == rows[i];
      assert Overlaps(l[j], slot);
    }
  }

  lemma BlockIsObstacle(rows: seq<Row>, services: map<Id, Service>, w: Wish, caps: map<Id, int>)
    requires forall r :: r in Listed(rows, w) ==> (CapacityOf(caps, r.service) <= 1 <==> Exclusive(services, r.service))
    ensures AnyBlock(Listed(rows, w), SlotOfWish(w), caps) <==> Obstacles(rows, services, w) != {}
  {
    var l, slot := Listed(rows, w), SlotOfWish(w);
    if AnyBlock(l, slot, caps) {
      var j :| 0 <= j < |l| && Blocks(l[j], slot, caps);
      InList(rows, w, l[j]);
      var i :| 0 <= i < |rows| && rows[i] == l[j];
      assert i in Obstacles(rows, services, w);
    }
    if i :| i in Obstacles(rows, services, w) {
      InList(rows, w, rows[i]);
      var j :| 0 <= j < |l| && l[j] == rows[i];
      assert Blocks(l[j], slot, caps);
    }
  }

  lemma {:induction false} TakenAreCompanions(rows: seq<Row>, w: Wish)
    ensures PlacesTaken(Listed(rows, w), SlotOfWish(w)) == |Companions(rows, w)|
  {
    if rows == [] {
      assert Companions(rows, w) == {};
    } else {
      var n := |rows| - 1;
      var front, last := rows[..n], rows[n];
      TakenAreCompanions(front, w);
      LastCompanion(rows, w);
      assert rows == front + [last];
      ActiveInRangeConcat(front, [last], w.business, w.from, w.until, w.who);
      PlacesTakenConcat(Listed(front, w), Listed([last], w), SlotOfWish(w));
      OneTaken(last, w);
    }
  }

  predicate IsCompanion(r: Row, w: Wish) { Rival(r, w) && r.service == w.service && r.scheduledAt == w.from }

  lemma OneTaken(r: Row, w: Wish)
    ensures PlacesTaken(Listed([r], w), SlotOfWish(w)) == if IsCompanion(r, w) then 1 else 0
  {
    assert [r][1..] == [] && Listed([], w) == [];
    assert Listed([r], w) == (if InRange(r, w.business, w.from, w.until, w.who) then [r] else []) + Listed([], w);
    assert Listed([r], w) == if InRange(r, w.business, w.from, w.until, w.who) then [r] else [];
  }

  lemma LastCompanion(rows: seq<Row>, w: Wish)
    requires rows != []
    ensures var n := |rows| - 1;
            |Companions(rows, w)| == |Companions(rows[..n], w)| + if IsCompanion(rows[n], w) then 1 else 0
  {
    var n := |rows| - 1;
    var before := Companions(rows[..n], w);
    assert Companions(rows, w) == before + (if IsCompanion(rows[n], w) then {n} else {});
    assert n !in before;
  }

  /** The evaluation of the listed rows decides exactly whether the time is free, with the places left. */
  lemma EvaluationIsExact(rows: seq<Row>, services: map<Id, Service>, w: Wish, capacity: int, caps: map<Id, int>)
    requires capacity > 1 ==>
               forall r :: r in Listed(rows, w) ==>
                 (CapacityOf(caps, r.service) <= 1 <==> Exclusive(services, r.service))
    ensures var e := Evaluate(SlotOfWish(w), capacity, Listed(rows, w), caps);
            && (e.IsBookable() <==> IsFree(rows, services, w, capacity))
            && (e.IsBookable() ==> e.remaining == PlacesLeft(rows, w, capacity))
            && (e.blocked <==> if capacity <= 1 then Rivals(rows, w) != {} else Obstacles(rows, services, w) != {})
  {
    OverlapIsRival(rows, w);
    TakenAreCompanions(rows, w);
    if capacity > 1 {
      BlockIsObstacle(rows, services, w, caps);
    }
  }

  /** Booking's re-check accepts exactly the free times. */
  lemma RecheckIsExact(db: Db, business: Id, id: Id, at: int, professional: Option<Id>)
    requires id in db.services
    ensures var service := db.services[id];
            var w := Wish(business, id, professional, None, at, at + 60 * service.durationMinutes);
            var check := EnsureSlotAvailable(db, business, id, service, at, professional);
            && (check.Ok? <==> IsFree(db.rows, db.services, w, service.capacity))
            && (check.Ok? ==> check.value.remaining == PlacesLeft(db.rows, w, service.capacity))
            && (check.Err? ==>
                  check.error == if service.capacity > 1 && Obstacles(db.rows, db.services, w) == {} then ClassFull
                                 else SlotTaken)
  {
    var service := db.services[id];
    var w := Wish(business, id, professional, None, at, at + 60 * service.durationMinutes);
    EvaluationIsExact(db.rows, db.services, w, service.capacity,
                      CapacityMap(db.services, ServicesOf(Listed(db.rows, w)) + {id}));
  }

  // ---------- the count query ----------

  function ActiveAt(rows: seq<Row>, service: Id, at: int): set<int> {
    set i | 0 <= i < |rows| && rows[i].service == service && rows[i].scheduledAt == at
            && (rows[i].status == Pending || rows[i].status == Confirmed || rows[i].status == Rescheduled)
  }

  lemma CountSnoc(rows: seq<Row>, r: Row, service: Id, at: int)
    ensures CountActiveAt(rows + [r], service, at)
         == CountActiveAt(rows, service, at) + CountActiveAt([r], service, at)
  {
    if rows == [] {
      assert rows + [r] == [r];
    } else {
      assert (rows + [r])[1..] == rows[1..] + [r];
      CountSnoc(rows[1..], r, service, at);
    }
  }

  /** count_active_for_service_at counts the pending, confirmed and moved rows of the service at that start. */
  lemma {:induction false} CountIsExact(rows: seq<Row>, service: Id, at: int)
    ensures CountActiveAt(rows, service, at) == |ActiveAt(rows, service, at)|
  {
    if rows == [] {
      assert ActiveAt(rows, service, at) == {};
    } else {
      var n := |rows| - 1;
      var before := ActiveAt(rows[..n], service, at);
      CountIsExact(rows[..n], service, at);
      assert rows == rows[..n] + [rows[n]];
      CountSnoc(rows[..n], rows[n], service, at);
      assert [rows[n]][1..] == [];
      assert ActiveAt(rows, service, at) == before + (if n in ActiveAt(rows, service, at) then {n} else {});
      assert n !in before;
    }
  }
}
