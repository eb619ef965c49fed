/** The revenue figure of the reports, as a fold over the agenda and over its history. */
module Revenue {
  import opened Wrappers
  import opened Appointments
  import opened Scheduling
  import opened Runs
  import opened Lifecycle

  datatype Window = Window(business: Id, start: int, end: int)

  predicate Within(r: Row, w: Window) {
    r.business == w.business && w.start <= r.scheduledAt < w.end
  }

  /** What one row adds to the SUM. */
  function Amount(r: Row, w: Window): int {
    if Within(r, w) && r.status.Completed? && r.amountCharged.Some? then r.amountCharged.value else 0
  }

  function RevenueOf(rows: seq<Row>, w: Window): int {
    if rows == [] then 0 else Amount(rows[0], w) + RevenueOf(rows[1..], w)
  }

  function CountStatus(rows: seq<Row>, w: Window, statuses: set<Status>): nat {
    if rows == [] then 0
    else (if Within(rows[0], w) && rows[0].status in statuses then 1 else 0) + CountStatus(rows[1..], w, statuses)
  }

  datatype Block = Block(
    total: nat,
    pending: nat,
    confirmed: nat,
    completed: nat,
    cancelled: nat,
    noShow: nat,
    revenue: int
  )

  const ALL_STATUSES := {Pending, Confirmed, Completed, Cancelled, NoShow, Rescheduled}

  function SummaryBlock(rows: seq<Row>, w: Window): Block {
    Block(CountStatus(rows, w, ALL_STATUSES), CountStatus(rows, w, {Pending}), CountStatus(rows, w, {Confirmed}),
          CountStatus(rows, w, {Completed}), CountStatus(rows, w, {Cancelled}), CountStatus(rows, w, {NoShow}),
          RevenueOf(rows, w))
  }

  /** The requested period and the equally long one before it. */
  function Summary(rows: seq<Row>, business: Id, start: int, end: int): (Block, Block) {
    var delta := end - start;
    (SummaryBlock(rows, Window(business, start, end)), SummaryBlock(rows, Window(business, start - delta, start)))
  }

  // ---------- periods ----------

  lemma {:induction false} RevenueAdditive(rows: seq<Row>, business: Id, a: int, b: int, c: int)
    requires a <= b <= c
    ensures RevenueOf(rows, Window(business, a, b)) + RevenueOf(rows, Window(business, b, c))
         == RevenueOf(rows, Window(business, a, c))
  {
    if rows != [] {
      RevenueAdditive(rows[1..], business, a, b, c);
    }
  }

  lemma {:induction false} EmptyWindow(rows: seq<Row>, w: Window)
    requires w.end <= w.start
    ensures RevenueOf(rows, w) == 0
  {
    if rows != [] {
      EmptyWindow(rows[1..], w);
    }
  }

  /** The two compared periods neither share nor miss any revenue, whatever dates were asked for. */
  lemma SummarySplitsRevenue(rows: seq<Row>, business: Id, start: int, end: int)
    ensures var (current, previous) := Summary(rows, business, start, end);
            current.revenue + previous.revenue == RevenueOf(rows, Window(business, start - (end - start), end))
  {
    if start <= end {
      RevenueAdditive(rows, business, start - (end - start), start, end);
    } else {
      EmptyWindow(rows, Window(business, start, end));
      EmptyWindow(rows, Window(business, start - (end - start), start));
      EmptyWindow(rows, Window(business, start - (end - start), end));
    }
  }

  /** The per-status figures fall short of the total by exactly the moved appointments. */
  lemma {:induction false} SummaryOmitsMoved(rows: seq<Row>, w: Window)
    ensures var b := SummaryBlock(rows, w);
            b.total == b.pending + b.confirmed + b.completed + b.cancelled + b.noShow
                       + CountStatus(rows, w, {Rescheduled})
  {
    if rows != [] {
      SummaryOmitsMoved(rows[1..], w);
    }
  }

  // ---------- what the figures count ----------

  /** Positions of the business's appointments that start in the half-open period. */
  function InPeriod(rows: seq<Row>, business: Id, start: int, end: int): set<int> {
    set i | 0 <= i < |rows| && rows[i].business == business && start <= rows[i].scheduledAt && rows[i].scheduledAt < end
  }

  function WithStatus(rows: seq<Row>, business: Id, start: int, end: int, status: Status): set<int> {
    set i | i in InPeriod(rows, business, start, end) && 0 <= i < |rows| && rows[i].status == status
  }

  lemma {:induction false} CountStatusConcat(a: seq<Row>, b: seq<Row>, w: Window, statuses: set<Status>)
    ensures CountStatus(a + b, w, statuses) == CountStatus(a, w, statuses) + CountStatus(b, w, statuses)
  {
    if a == [] {
      assert a + b == b;
    } else {
      assert (a + b)[1..] == a[1..] + b;
      CountStatusConcat(a[1..], b, w, statuses);
    }
  }

  function Counted(rows: seq<Row>, w: Window, statuses: set<Status>): set<int> {
    set i | 0 <= i < |rows| && rows[i].business == w.business && w.start <= rows[i].scheduledAt
            && rows[i].scheduledAt < w.end && rows[i].status in statuses
  }

  lemma {:induction false} CountIsCardinality(rows: seq<Row>, w: Window, statuses: set<Status>)
    ensures CountStatus(rows, w, statuses) == |Counted(rows, w, statuses)|
  {
    if rows == [] {
      assert Counted(rows, w, statuses) == {};
    } else {
      var n := |rows| - 1;
      var before := Counted(rows[..n], w, statuses);
      CountIsCardinality(rows[..n], w, statuses);
      assert rows == rows[..n] + [rows[n]] && [rows[n]][1..] == [];
      CountStatusConcat(rows[..n], [rows[n]], w, statuses);
      assert Counted(rows, w, statuses) == before + (if n in Counted(rows, w, statuses) then {n} else {});
      assert n !in before;
    }
  }

  lemma OneStatus(rows: seq<Row>, w: Window, status: Status)
    ensures CountStatus(rows, w, {status}) == |WithStatus(rows, w.business, w.start, w.end, status)|
  {
    CountIsCardinality(rows, w, {status});
    assert Counted(rows, w, {status}) == WithStatus(rows, w.business, w.start, w.end, status);
  }

  lemma AllStatuses(rows: seq<Row>, w: Window)
    ensures CountStatus(rows, w, ALL_STATUSES) == |InPeriod(rows, w.business, w.start, w.end)|
  {
    CountIsCardinality(rows, w, ALL_STATUSES);
    forall s: Status
      ensures s in ALL_STATUSES
    {
      match s
      case Pending => case Confirmed => case Completed => case Cancelled => case NoShow => case Rescheduled =>
    }
    assert Counted(rows, w, ALL_STATUSES) == InPeriod(rows, w.business, w.start, w.end);
  }

  predicate BlockCounts(b: Block, rows: seq<Row>, business: Id, start: int, end: int) {
    && b.total == |InPeriod(rows, business, start, end)|
    && b.pending == |WithStatus(rows, business, start, end, Pending)|
    && b.confirmed == |WithStatus(rows, business, start, end, Confirmed)|
    && b.completed == |WithStatus(rows, business, start, end, Completed)|
    && b.cancelled == |WithStatus(rows, business, start, end, Cancelled)|
    && b.noShow == |WithStatus(rows, business, start, end, NoShow)|
  }

  lemma BlockIsExact(rows: seq<Row>, w: Window)
    ensures BlockCounts(SummaryBlock(rows, w), rows, w.business, w.start, w.end)
  {
    AllStatuses(rows, w);
    OneStatus(rows, w, Pending);
    OneStatus(rows, w, Confirmed);
    OneStatus(rows, w, Completed);
    OneStatus(rows, w, Cancelled);
    OneStatus(rows, w, NoShow);
  }

  /** The figures of the period asked for, and of the equally long one that ends where it starts. */
  lemma SummaryIsExact(rows: seq<Row>, business: Id, start: int, end: int)
    ensures var (current, previous) := Summary(rows, business, start, end);
            && BlockCounts(current, rows, business, start, end)
            && BlockCounts(previous, rows, business, start - (end - start), start)
            && current.revenue == RevenueOf(rows, Window(business, start, end))
            && previous.revenue == RevenueOf(rows, Window(business, start - (end - start), start))
  {
    BlockIsExact(rows, Window(business, start, end));
    BlockIsExact(rows, Window(business, start - (end - start), start));
  }

  // ---------- history ----------

  /** The amounts of the successful completions of a run whose appointment lies in the window. */
  function Collected(db: Db, actions: seq<Action>, w: Window): int
    decreases |actions|
  {
    if actions == [] then 0
    else CollectedBy(db, actions[0], w) + Collected(Step(db, actions[0]), actions[1..], w)
  }

  function CollectedBy(db: Db, a: Action, w: Window): int {
    if a.Close? && a.closing.Complete? then
      var result := CloseStep(db, a.id, a.closing, a.now).1;
      if result.Ok? && Within(result.value, w) then a.closing.amount else 0
    else 0
  }

  lemma {:induction false} RevenueUpdate(rows: seq<Row>, k: nat, r: Row, w: Window)
    requires k < |rows|
    ensures RevenueOf(rows[k := r], w) == RevenueOf(rows, w) - Amount(rows[k], w) + Amount(r, w)
  {
    if k > 0 {
      assert rows[k := r][1..] == rows[1..][k - 1 := r];
      RevenueUpdate(rows[1..], k - 1, r, w);
    } else {
      assert rows[k := r][1..] == rows[1..];
    }
  }

  lemma {:induction false} RevenueAppend(rows: seq<Row>, r: Row, w: Window)
    ensures RevenueOf(rows + [r], w) == RevenueOf(rows, w) + Amount(r, w)
  {
    if rows == [] {
      assert rows + [r] == [r];
    } else {
      assert (rows + [r])[1..] == rows[1..] + [r];
      RevenueAppend(rows[1..], r, w);
    }
  }

  lemma RevenueOfBooking(db: Db, a: Action, w: Window)
    requires a.Book?
    ensures RevenueOf(Step(db, a).rows, w) == RevenueOf(db.rows, w)
  {
    var (next, result) := BookStep(db, a.input, a.withProfessionals, a.now, a.freshClient, a.freshRow);
    if next.rows != db.rows {
      RevenueAppend(db.rows, result.value.appointment, w);
    }
  }

  lemma RevenueStep(db: Db, a: Action, w: Window)
    ensures RevenueOf(Step(db, a).rows, w) == RevenueOf(db.rows, w) + CollectedBy(db, a, w)
    ensures CollectedBy(db, a, w) >= 0
  {
    match a
    case Book(_, _, _, _, _) => RevenueOfBooking(db, a, w);
    case Move(id, at, _, now, _) =>
      var k := IndexOf(db.rows, id);
      if Step(db, a).rows != db.rows {
        RevenueUpdate(db.rows, k, MoveRow(db.rows[k], at, now).value, w);
      }
    case Close(id, closing, now) =>
      var k := IndexOf(db.rows, id);
      if CloseStep(db, id, closing, now).1.Ok? {
        RevenueUpdate(db.rows, k, CloseRow(db.rows[k], closing, now).value, w);
      }
    case EditService(_, _, _, _) =>
  }

  /**
    Over any run the revenue of any window grows by exactly what was collected
    there: nothing else moves it, price edits included.
   */
  lemma {:induction false} RevenueIsWhatWasCollected(db: Db, actions: seq<Action>, w: Window)
    ensures RevenueOf(Run(db, actions).rows, w) == RevenueOf(db.rows, w) + Collected(db, actions, w)
    ensures Collected(db, actions, w) >= 0
    decreases |actions|
  {
    if actions != [] {
      RevenueStep(db, actions[0], w);
      RevenueIsWhatWasCollected(Step(db, actions[0]), actions[1..], w);
    }
  }

  /** A repeated completion collects nothing. */
  lemma CompletedOnce(db: Db, actions: seq<Action>, id: Id, amount: int, now: int, amount': int, now': int)
    requires CloseStep(db, id, Complete(amount), now).1.Ok?
    ensures var later := Run(CloseStep(db, id, Complete(amount), now).0, actions);
            CloseStep(later, id, Complete(amount'), now') == (later, Err(AlreadyClosed))
  {
    var k := IndexOf(db.rows, id);
    var done := CloseStep(db, id, Complete(amount), now).0;
    RunEvolves(done, actions, k);
    var later := Run(done, actions);
    var j := IndexOf(later.rows, id);
    if j < k {
      RunEvolves(done, actions, j);
    }
  }
}
