/**
  Weekly opening hours: what schedule is accepted, and how it replaces the stored
  days. Times of day are seconds since midnight.
 */
module BusinessHours {
  import opened Wrappers
  import opened Sequences
  import opened Appointments

  type TimeOfDay = t: int | 0 <= t < 86400

  datatype Hours = Hours(openAt: TimeOfDay, closeAt: TimeOfDay, isClosed: bool) {
    predicate Contains(t: int) { !isClosed && openAt <= t < closeAt }
  }

  datatype DayEntry = DayEntry(day: int, hours: Hours)

  datatype HourRow = HourRow(business: Id, day: int, hours: Hours, sequence: int)

  // ---------- what is accepted ----------

  /** The overlap test of the validation, which looks at open entries only. */
  predicate Apart(a: Hours, b: Hours) {
    a.isClosed || b.isClosed || a.closeAt <= b.openAt || b.closeAt <= a.openAt
  }

  predicate AllApart(s: seq<Hours>) {
    s != [] ==> (forall y :: y in s[1..] ==> Apart(s[0], y)) && AllApart(s[1..])
  }

  /** The entries of one weekday, in the order given. */
  function Group(schedule: seq<DayEntry>, day: int): seq<Hours> {
    if schedule == [] then []
    else (if schedule[0].day == day then [schedule[0].hours] else []) + Group(schedule[1..], day)
  }

  function OpenOnly(s: seq<Hours>): seq<Hours> {
    if s == [] then [] else (if s[0].isClosed then [] else [s[0]]) + OpenOnly(s[1..])
  }

  predicate ValidHours(h: Hours) { h.isClosed || h.openAt < h.closeAt }

  predicate ValidDay(day: int) { 0 <= day <= 6 }

  /** What SetBusinessHours accepts: real opening hours, with no instant open twice. */
  ghost predicate Acceptable(schedule: seq<DayEntry>) {
    && schedule != []
    && (forall i :: 0 <= i < |schedule| ==>
          && 0 <= schedule[i].day <= 6
          && (schedule[i].hours.isClosed || schedule[i].hours.openAt < schedule[i].hours.closeAt))
    && (forall i, j, t :: 0 <= i < j < |schedule| && schedule[i].day == schedule[j].day ==>
          !(schedule[i].hours.Contains(t) && schedule[j].hours.Contains(t)))
  }

  lemma {:induction false} AllApartIndexed(s: seq<Hours>)
    ensures AllApart(s) <==> forall i, j :: 0 <= i < j < |s| ==> Apart(s[i], s[j])
  {
    if s != [] {
      AllApartIndexed(s[1..]);
      assert forall i :: 0 <= i < |s| - 1 ==> s[1..][i] == s[i + 1];
      if AllApart(s) {
        forall i, j | 0 <= i < j < |s|
          ensures Apart(s[i], s[j])
        {
          assert s[j] == s[1..][j - 1];
          if i > 0 {
            assert Apart(s[1..][i - 1], s[1..][j - 1]);
          }
        }
      }
    }
  }

  lemma {:induction false} OpenOnlyMembers(s: seq<Hours>, h: Hours)
    ensures h in OpenOnly(s) <==> h in s && !h.isClosed
  {
    if s != [] {
      OpenOnlyMembers(s[1..], h);
    }
  }

  lemma {:induction false} OpenOnlyApart(s: seq<Hours>)
    ensures AllApart(OpenOnly(s)) <==> AllApart(s)
  {
    if s != [] {
      OpenOnlyApart(s[1..]);
      var rest := OpenOnly(s[1..]);
      assert ([s[0]] + rest)[1..] == rest && [] + rest == rest;
      forall y
        ensures y in rest <==> y in s[1..] && !y.isClosed
      {
        OpenOnlyMembers(s[1..], y);
      }
    }
  }

  lemma {:induction false} GroupMembers(schedule: seq<DayEntry>, day: int, h: Hours)
    ensures h in Group(schedule, day) <==> DayEntry(day, h) in schedule
  {
    if schedule != [] {
      GroupMembers(schedule[1..], day, h);
      assert schedule[0] == DayEntry(schedule[0].day, schedule[0].hours);
    }
  }

  ghost predicate DaysApart(schedule: seq<DayEntry>) {
    forall day: int :: AllApart(Group(schedule, day))
  }

  lemma {:induction false} GroupApartIndexed(schedule: seq<DayEntry>, day: int)
    ensures AllApart(Group(schedule, day)) <==>
            forall i, j :: 0 <= i < j < |schedule| && schedule[i].day == day && schedule[j].day == day ==>
              Apart(schedule[i].hours, schedule[j].hours)
  {
    if schedule != [] {
      var e, rest := schedule[0], schedule[1..];
      var g := Group(rest, day);
      GroupApartIndexed(rest, day);
      assert ([e.hours] + g)[1..] == g && [] + g == g;
      GroupPositions(rest, day);
      assert forall i :: 1 <= i < |schedule| ==> schedule[i] == rest[i - 1];
      assert forall i :: 0 <= i < |rest| ==> rest[i] == schedule[i + 1];
    }
  }

  lemma GroupPositions(schedule: seq<DayEntry>, day: int)
    ensures forall j :: 0 <= j < |schedule| && schedule[j].day == day ==> schedule[j].hours in Group(schedule, day)
    ensures forall y :: y in Group(schedule, day) ==> exists j :: 0 <= j < |schedule| && schedule[j] == DayEntry(day, y)
  {
    forall j | 0 <= j < |schedule| && schedule[j].day == day
      ensures schedule[j].hours in Group(schedule, day)
    {
      GroupMembers(schedule, day, schedule[j].hours);
      assert schedule[j] == DayEntry(day, schedule[j].hours);
    }
    forall y | y in Group(schedule, day)
      ensures exists j :: 0 <= j < |schedule| && schedule[j] == DayEntry(day, y)
    {
      GroupMembers(schedule, day, y);
    }
  }

  lemma DaysApartIndexed(schedule: seq<DayEntry>)
    ensures DaysApart(schedule) <==>
            forall i, j :: 0 <= i < j < |schedule| && schedule[i].day == schedule[j].day ==>
              Apart(schedule[i].hours, schedule[j].hours)
  {
    forall day: int
      ensures AllApart(Group(schedule, day)) <==>
              forall i, j :: 0 <= i < j < |schedule| && schedule[i].day == day && schedule[j].day == day ==>
                Apart(schedule[i].hours, schedule[j].hours)
    {
      GroupApartIndexed(schedule, day);
    }
    if DaysApart(schedule) {
      forall i, j | 0 <= i < j < |schedule| && schedule[i].day == schedule[j].day
        ensures Apart(schedule[i].hours, schedule[j].hours)
      {
        assert AllApart(Group(schedule, schedule[i].day));
      }
    }
  }

  /** For real opening hours, the two comparisons of the test say that no instant is shared. */
  lemma ApartMeansDisjoint(a: Hours, b: Hours)
    requires ValidHours(a) && ValidHours(b)
    ensures Apart(a, b) <==> forall t :: !(a.Contains(t) && b.Contains(t))
  {
    if !Apart(a, b) {
      var t := if a.openAt <= b.openAt then b.openAt else a.openAt;
      assert a.Contains(t) && b.Contains(t);
    }
  }

  /** Validation and construction together accept exactly the acceptable schedules. */
  lemma AcceptanceIsExact(schedule: seq<DayEntry>)
    ensures Acceptable(schedule) <==>
            && schedule != []
            && DaysApart(schedule)
            && (forall i :: 0 <= i < |schedule| ==> ValidDay(schedule[i].day) && ValidHours(schedule[i].hours))
  {
    DaysApartIndexed(schedule);
    if forall i :: 0 <= i < |schedule| ==> ValidHours(schedule[i].hours) {
      forall i, j | 0 <= i < j < |schedule|
        ensures Apart(schedule[i].hours, schedule[j].hours) <==>
                forall t :: !(schedule[i].hours.Contains(t) && schedule[j].hours.Contains(t))
      {
        ApartMeansDisjoint(schedule[i].hours, schedule[j].hours);
      }
    }
  }

  lemma {:induction false} GroupSnoc(schedule: seq<DayEntry>, e: DayEntry, day: int)
    ensures Group(schedule + [e], day) == Group(schedule, day) + if e.day == day then [e.hours] else []
  {
    if schedule == [] {
      assert schedule + [e] == [e];
    } else {
      assert (schedule + [e])[1..] == schedule[1..] + [e];
      GroupSnoc(schedule[1..], e, day);
      ConcatAssociative(if schedule[0].day == day then [schedule[0].hours] else [], Group(schedule[1..], day),
                        if e.day == day then [e.hours] else []);
    }
  }

  /** The dictionary of groups, with its keys in the order they first occurred. */
  ghost predicate Grouped(groups: map<int, seq<Hours>>, days: seq<int>, schedule: seq<DayEntry>) {
    && (forall d: int {:trigger d in days} {:trigger d in groups} :: d in days <==> d in groups)
    && (forall d: int {:trigger Group(schedule, d)} :: Group(schedule, d) == if d in groups then groups[d] else [])
    && (forall d: int {:trigger d in groups} :: d in groups ==> Group(schedule, d) != [])
  }

  lemma GroupedSnoc(groups: map<int, seq<Hours>>, days: seq<int>, schedule: seq<DayEntry>, e: DayEntry)
    requires Grouped(groups, days, schedule)
    ensures var had := e.day in groups;
            Grouped(groups[e.day := if had then groups[e.day] + [e.hours] else [e.hours]],
                    if had then days else days + [e.day], schedule + [e])
  {
    var next := groups[e.day := if e.day in groups then groups[e.day] + [e.hours] else [e.hours]];
    var days' := if e.day in groups then days else days + [e.day];
    forall d: int
      ensures d in days' <==> d in next
      ensures d in next <==> Group(schedule + [e], d) != []
      ensures d in next ==> next[d] == Group(schedule + [e], d)
    {
      GroupSnoc(schedule, e, d);
      assert d in groups <==> Group(schedule, d) != [];
      assert d in days <==> d in groups;
    }
  }

  method GroupByDay(schedule: seq<DayEntry>) returns (groups: map<int, seq<Hours>>, days: seq<int>)
    ensures Grouped(groups, days, schedule)
  {
    groups, days := map[], [];
    var n := 0;
    while n < |schedule|
      invariant 0 <= n <= |schedule|
      invariant Grouped(groups, days, schedule[..n])
    {
      var e := schedule[n];
      GroupedSnoc(groups, days, schedule[..n], e);
      PrefixSnoc(schedule, n);
      if e.day in groups {
        groups := groups[e.day := groups[e.day] + [e.hours]];
      } else {
        groups, days := groups[e.day := [e.hours]], days + [e.day];
      }
      n := n + 1;
    }
    PrefixAll(schedule);
  }

  lemma OpenPairs(entries: seq<Hours>)
    ensures var open := OpenOnly(entries);
            && (AllApart(entries) <==> forall p, q :: 0 <= p < q < |open| ==> Apart(open[p], open[q]))
            && forall k :: 0 <= k < |open| ==> !open[k].isClosed
  {
    var open := OpenOnly(entries);
    OpenOnlyApart(entries);
    AllApartIndexed(open);
    forall k | 0 <= k < |open|
      ensures !open[k].isClosed
    {
      OpenOnlyMembers(entries, open[k]);
    }
  }

  /** The nested loops over one day's open entries. */
  method PairwiseApart(entries: seq<Hours>) returns (ok: bool)
    ensures ok <==> AllApart(entries)
  {
    var open := OpenOnly(entries);
    OpenPairs(entries);
    var i := 0;
    while i < |open|
      invariant 0 <= i <= |open|
      invariant forall p, q :: 0 <= p < i && p < q < |open| ==> Apart(open[p], open[q])
    {
      var j := i + 1;
      while j < |open|
        invariant i < j <= |open|
        invariant forall q :: i < q < j ==> Apart(open[i], open[q])
      {
        if !(open[i].closeAt <= open[j].openAt || open[j].closeAt <= open[i].openAt) {
          assert !Apart(open[i], open[j]);
          return false;
        }
        j := j + 1;
      }
      i := i + 1;
    }
    return true;
  }

  ghost predicate ValidInput(schedule: seq<DayEntry>) {
    schedule != [] && DaysApart(schedule) && forall i :: 0 <= i < |schedule| ==> ValidDay(schedule[i].day)
  }

  method ValidateInput(schedule: seq<DayEntry>) returns (ok: bool)
    ensures ok <==> ValidInput(schedule)
  {
    if schedule == [] {
      return false;
    }
    var groups, days := GroupByDay(schedule);
    var k := 0;
    while k < |days|
      invariant 0 <= k <= |days|
      invariant DaysValid(groups, days[..k])
    {
      DayVerdict(groups, days, schedule, k);
      PrefixSnoc(days, k);
      if !ValidDay(days[k]) {
        return false;
      }
      var apart := PairwiseApart(groups[days[k]]);
      if !apart {
        return false;
      }
      k := k + 1;
    }
    PrefixAll(days);
    AllDaysValid(groups, days, schedule);
    return true;
  }

  predicate DaysValid(groups: map<int, seq<Hours>>, days: seq<int>) {
    forall d :: d in days ==> d in groups && ValidDay(d) && AllApart(groups[d])
  }

  lemma DayVerdict(groups: map<int, seq<Hours>>, days: seq<int>, schedule: seq<DayEntry>, k: nat)
    requires Grouped(groups, days, schedule) && k < |days|
    ensures days[k] in groups
    ensures !ValidDay(days[k]) || !AllApart(groups[days[k]]) ==> !ValidInput(schedule)
  {
    var d := days[k];
    assert d in days;
    assert Group(schedule, d) != [] && groups[d] == Group(schedule, d);
    GroupPositions(schedule, d);
    assert Group(schedule, d)[0] in Group(schedule, d);
    if !ValidDay(d) {
      var i :| 0 <= i < |schedule| && schedule[i] == DayEntry(d, Group(schedule, d)[0]);
      assert !ValidDay(schedule[i].day);
    }
  }

  lemma AllDaysValid(groups: map<int, seq<Hours>>, days: seq<int>, schedule: seq<DayEntry>)
    requires schedule != [] && Grouped(groups, days, schedule) && DaysValid(groups, days)
    ensures ValidInput(schedule)
  {
    forall d: int
      ensures AllApart(Group(schedule, d))
    {
      assert d in days <==> d in groups;
    }
    forall i | 0 <= i < |schedule|
      ensures ValidDay(schedule[i].day)
    {
      GroupPositions(schedule, schedule[i].day);
      assert schedule[i].day in days;
    }
  }

  // ---------- how it is stored ----------

  datatype Field = ByOpening | BySequence

  function Key(h: HourRow, f: Field): int { if f == ByOpening then h.hours.openAt else h.sequence }

  function Insert(x: HourRow, s: seq<HourRow>, f: Field): seq<HourRow> {
    if s == [] || Key(x, f) <= Key(s[0], f) then [x] + s else [s[0]] + Insert(x, s[1..], f)
  }

  /** The library's stable sort. */
  function Sort(s: seq<HourRow>, f: Field): seq<HourRow> {
    if s == [] then [] else Insert(s[0], Sort(s[1..], f), f)
  }

  predicate Sorted(s: seq<HourRow>, f: Field) {
    s != [] ==> (forall y :: y in s[1..] ==> Key(s[0], f) <= Key(y, f)) && Sorted(s[1..], f)
  }

  function WithKey(s: seq<HourRow>, f: Field, v: int): seq<HourRow> {
    if s == [] then [] else (if Key(s[0], f) == v then [s[0]] else []) + WithKey(s[1..], f, v)
  }

  lemma {:induction false} InsertPermutes(x: HourRow, s: seq<HourRow>, f: Field)
    ensures multiset(Insert(x, s, f)) == multiset{x} + multiset(s)
  {
    if s != [] && Key(x, f) > Key(s[0], f) {
      InsertPermutes(x, s[1..], f);
      assert s == [s[0]] + s[1..];
    }
  }

  lemma {:induction false} InsertSorted(x: HourRow, s: seq<HourRow>, f: Field)
    requires Sorted(s, f)
    ensures Sorted(Insert(x, s, f), f)
  {
    if s == [] || Key(x, f) <= Key(s[0], f) {
      assert ([x] + s)[1..] == s;
    } else {
      var rest := Insert(x, s[1..], f);
      InsertSorted(x, s[1..], f);
      assert ([s[0]] + rest)[1..] == rest;
      forall y | y in rest
        ensures Key(s[0], f) <= Key(y, f)
      {
        InsertPermutes(x, s[1..], f);
        assert y in multiset(rest);
      }
    }
  }

  lemma {:induction false} InsertStable(x: HourRow, s: seq<HourRow>, f: Field, v: int)
    ensures WithKey(Insert(x, s, f), f, v) == (if Key(x, f) == v then [x] else []) + WithKey(s, f, v)
  {
    if s == [] || Key(x, f) <= Key(s[0], f) {
      assert ([x] + s)[1..] == s;
    } else {
      InsertStable(x, s[1..], f, v);
      var rest := Insert(x, s[1..], f);
      assert ([s[0]] + rest)[1..] == rest;
    }
  }

  lemma {:induction false} SortPermutes(s: seq<HourRow>, f: Field)
    ensures multiset(Sort(s, f)) == multiset(s)
  {
    if s != [] {
      SortPermutes(s[1..], f);
      InsertPermutes(s[0], Sort(s[1..], f), f);
      assert s == [s[0]] + s[1..];
    }
  }

  lemma {:induction false} SortSorts(s: seq<HourRow>, f: Field)
    ensures Sorted(Sort(s, f), f)
  {
    if s != [] {
      SortSorts(s[1..], f);
      InsertSorted(s[0], Sort(s[1..], f), f);
    }
  }

  /** Sort is a sort: ordered, and a permutation. */
  lemma SortCorrect(s: seq<HourRow>, f: Field)
    ensures Sorted(Sort(s, f), f)
    ensures multiset(Sort(s, f)) == multiset(s)
  {
    SortSorts(s, f);
    SortPermutes(s, f);
  }

  /** And a stable one: rows of equal keys keep their order. */
  lemma {:induction false} SortStable(s: seq<HourRow>, f: Field, v: int)
    ensures WithKey(Sort(s, f), f, v) == WithKey(s, f, v)
  {
    if s != [] {
      SortStable(s[1..], f, v);
      InsertStable(s[0], Sort(s[1..], f), f, v);
    }
  }

  lemma {:induction false} SortOfSorted(s: seq<HourRow>, f: Field)
    requires Sorted(s, f)
    ensures Sort(s, f) == s
  {
    if s != [] {
      SortOfSorted(s[1..], f);
    }
  }

  function Numbered(s: seq<HourRow>, n: int): seq<HourRow> {
    if s == [] then [] else [s[0].(sequence := n)] + Numbered(s[1..], n + 1)
  }

  lemma {:induction false} NumberedSorted(s: seq<HourRow>, n: int)
    ensures Sorted(Numbered(s, n), BySequence)
    ensures |Numbered(s, n)| == |s|
    ensures forall i :: 0 <= i < |s| ==> Numbered(s, n)[i] == s[i].(sequence := n + i)
  {
    if s != [] {
      NumberedSorted(s[1..], n + 1);
    }
  }

  lemma {:induction false} NumberedSnoc(s: seq<HourRow>, k: nat, n: int)
    requires k < |s|
    ensures Numbered(s[..k + 1], n) == Numbered(s[..k], n) + [s[k].(sequence := n + k)]
  {
    if k == 0 {
      assert s[..1] == [s[0]] && s[..0] == [];
    } else {
      assert s[..k + 1][1..] == s[1..][..k] && s[..k][1..] == s[1..][..k - 1];
      NumberedSnoc(s[1..], k - 1, n + 1);
    }
  }

  function Select(rows: seq<HourRow>, business: Id, day: int): seq<HourRow> {
    if rows == [] then []
    else (if rows[0].business == business && rows[0].day == day then [rows[0]] else [])
         + Select(rows[1..], business, day)
  }

  function DeleteDay(rows: seq<HourRow>, business: Id, day: int): seq<HourRow> {
    if rows == [] then []
    else (if rows[0].business == business && rows[0].day == day then [] else [rows[0]])
         + DeleteDay(rows[1..], business, day)
  }

  /** get_by_business_and_day: the rows of the day in sequence order. */
  function DayRows(rows: seq<HourRow>, business: Id, day: int): seq<HourRow> {
    Sort(Select(rows, business, day), BySequence)
  }

  lemma {:induction false} SelectConcat(a: seq<HourRow>, b: seq<HourRow>, business: Id, day: int)
    ensures Select(a + b, business, day) == Select(a, business, day) + Select(b, business, day)
  {
    if a == [] {
      assert a + b == b;
    } else {
      assert (a + b)[1..] == a[1..] + b;
      SelectConcat(a[1..], b, business, day);
      ConcatAssociative(if a[0].business == business && a[0].day == day then [a[0]] else [],
                        Select(a[1..], business, day), Select(b, business, day));
    }
  }

  lemma {:induction false} SelectDeleted(rows: seq<HourRow>, b: Id, d: int, business: Id, day: int)
    ensures Select(DeleteDay(rows, b, d), business, day)
         == if business == b && day == d then [] else Select(rows, business, day)
  {
    if rows != [] {
      SelectDeleted(rows[1..], b, d, business, day);
      var rest := DeleteDay(rows[1..], b, d);
      assert ([rows[0]] + rest)[1..] == rest && [] + rest == rest;
    }
  }

  lemma {:induction false} SelectUniform(s: seq<HourRow>, business: Id, day: int, b: Id, d: int)
    requires forall i :: 0 <= i < |s| ==> s[i].business == b && s[i].day == d
    ensures Select(s, business, day) == if business == b && day == d then s else []
  {
    if s != [] {
      SelectUniform(s[1..], business, day, b, d);
    }
  }

  lemma {:induction false} SelectIsUniform(rows: seq<HourRow>, b: Id, d: int)
    ensures forall i :: 0 <= i < |Select(rows, b, d)| ==>
              Select(rows, b, d)[i].business == b && Select(rows, b, d)[i].day == d
  {
    if rows != [] {
      SelectIsUniform(rows[1..], b, d);
    }
  }

  lemma SortedUniform(s: seq<HourRow>, f: Field, b: Id, d: int)
    requires forall i :: 0 <= i < |s| ==> s[i].business == b && s[i].day == d
    ensures forall i :: 0 <= i < |Sort(s, f)| ==> Sort(s, f)[i].business == b && Sort(s, f)[i].day == d
  {
    SortCorrect(s, f);
    forall i | 0 <= i < |Sort(s, f)|
      ensures Sort(s, f)[i].business == b && Sort(s, f)[i].day == d
    {
      assert Sort(s, f)[i] in multiset(Sort(s, f));
      assert Sort(s, f)[i] in multiset(s);
    }
  }

  /** The rows a day holds after it is replaced. */
  function Stored(items: seq<HourRow>): seq<HourRow> { Numbered(Sort(items, ByOpening), 1) }

  /** Without the number. */
  function Unnumbered(s: seq<HourRow>): seq<HourRow> {
    if s == [] then [] else [s[0].(sequence := 0)] + Unnumbered(s[1..])
  }

  lemma {:induction false} UnnumberedPermutes(a: seq<HourRow>, b: seq<HourRow>)
    requires multiset(a) == multiset(b)
    ensures multiset(Unnumbered(a)) == multiset(Unnumbered(b))
  {
    if a == [] {
      assert multiset(b) == multiset{};
      assert b == [];
    } else {
      assert a[0] in multiset(b);
      var k :| 0 <= k < |b| && b[k] == a[0];
      var rest := b[..k] + b[k + 1..];
      assert a == [a[0]] + a[1..];
      WithoutOne(b, k);
      assert multiset(a[1..]) == multiset(a) - multiset{a[0]};
      assert multiset(rest) == multiset(b) - multiset{b[k]};
      UnnumberedPermutes(a[1..], rest);
      UnnumberedWithout(b, k);
    }
  }

  lemma WithoutOne(s: seq<HourRow>, k: nat)
    requires k < |s|
    ensures multiset(s) == multiset(s[..k] + s[k + 1..]) + multiset{s[k]}
  {
    var tail := s[k..];
    assert s == s[..k] + tail;
    assert tail == [s[k]] + s[k + 1..];
  }

  lemma {:induction false} UnnumberedWithout(s: seq<HourRow>, k: nat)
    requires k < |s|
    ensures multiset(Unnumbered(s)) == multiset(Unnumbered(s[..k] + s[k + 1..])) + multiset{s[k].(sequence := 0)}
  {
    if k == 0 {
      assert s[..0] + s[1..] == s[1..];
    } else {
      assert (s[..k] + s[k + 1..])[1..] == s[1..][..k - 1] + s[1..][k..];
      UnnumberedWithout(s[1..], k - 1);
    }
  }

  lemma {:induction false} UnnumberedNumbered(s: seq<HourRow>, n: int)
    ensures Unnumbered(Numbered(s, n)) == Unnumbered(s)
  {
    if s != [] {
      UnnumberedNumbered(s[1..], n + 1);
      var head, rest := s[0].(sequence := n), Numbered(s[1..], n + 1);
      assert Numbered(s, n) == [head] + rest && ([head] + rest)[1..] == rest;
    }
  }

  lemma {:induction false} SortedIndexed(s: seq<HourRow>, f: Field)
    requires Sorted(s, f)
    ensures forall i, j :: 0 <= i < j < |s| ==> Key(s[i], f) <= Key(s[j], f)
  {
    if s != [] {
      SortedIndexed(s[1..], f);
      forall i, j | 0 <= i < j < |s|
        ensures Key(s[i], f) <= Key(s[j], f)
      {
        assert s[j] == s[1..][j - 1] && s[j] in s[1..];
        if i > 0 {
          assert s[i] == s[1..][i - 1];
        }
      }
    }
  }

  /** A stored day holds its items by opening time, numbered 1, 2, 3 and so on. */
  lemma StoredIsExact(items: seq<HourRow>)
    ensures var s := Stored(items);
            && |s| == |items|
            && multiset(Unnumbered(s)) == multiset(Unnumbered(items))
            && (forall i :: 0 <= i < |s| ==> s[i].sequence == i + 1)
            && (forall i, j :: 0 <= i < j < |s| ==> s[i].hours.openAt <= s[j].hours.openAt)
  {
    var sorted := Sort(items, ByOpening);
    SortCorrect(items, ByOpening);
    SortedIndexed(sorted, ByOpening);
    NumberedSorted(sorted, 1);
    UnnumberedNumbered(sorted, 1);
    UnnumberedPermutes(sorted, items);
    assert |sorted| == |multiset(sorted)|;
  }

  /** Replacing one day sets that day and no other. */
  lemma ReplacedDay(rows: seq<HourRow>, b: Id, d: int, items: seq<HourRow>)
    requires forall i :: 0 <= i < |items| ==> items[i].business == b && items[i].day == d
    ensures forall business, day ::
              Select(DeleteDay(rows, b, d) + Stored(items), business, day)
              == if business == b && day == d then Stored(items) else Select(rows, business, day)
  {
    SortedUniform(items, ByOpening, b, d);
    NumberedSorted(Sort(items, ByOpening), 1);
    forall business, day
      ensures Select(DeleteDay(rows, b, d) + Stored(items), business, day)
              == if business == b && day == d then Stored(items) else Select(rows, business, day)
    {
      SelectConcat(DeleteDay(rows, b, d), Stored(items), business, day);
      SelectDeleted(rows, b, d, business, day);
      SelectUniform(Stored(items), business, day, b, d);
    }
  }

  lemma {:induction false} SelectSnoc(rows: seq<HourRow>, r: HourRow, business: Id, day: int)
    ensures Select(rows + [r], business, day) ==
            Select(rows, business, day) + if r.business == business && r.day == day then [r] else []
  {
    SelectConcat(rows, [r], business, day);
    assert [r][1..] == [];
  }

  function Create(business: Id, e: DayEntry): Option<HourRow> {
    if !ValidDay(e.day) then None
    else if !e.hours.isClosed && e.hours.closeAt <= e.hours.openAt then None
    else Some(HourRow(business, e.day, e.hours, 0))
  }

  function Created(business: Id, schedule: seq<DayEntry>): seq<HourRow> {
    if schedule == [] then []
    else [HourRow(business, schedule[0].day, schedule[0].hours, 0)] + Created(business, schedule[1..])
  }

  lemma {:induction false} CreatedSnoc(business: Id, schedule: seq<DayEntry>, e: DayEntry)
    ensures Created(business, schedule + [e]) == Created(business, schedule) + [HourRow(business, e.day, e.hours, 0)]
  {
    if schedule == [] {
      assert schedule + [e] == [e];
    } else {
      assert (schedule + [e])[1..] == schedule[1..] + [e];
      CreatedSnoc(business, schedule[1..], e);
    }
  }

  type DayKey = (Id, int)

  ghost predicate GroupedRows(groups: map<DayKey, seq<HourRow>>, keys: seq<DayKey>, hours: seq<HourRow>) {
    && (forall key: DayKey :: key in keys <==> key in groups)
    && (forall key: DayKey {:trigger key in groups} :: key in groups <==> Select(hours, key.0, key.1) != [])
    && (forall key :: key in groups ==> groups[key] == Select(hours, key.0, key.1))
  }

  lemma GroupedRowsSnoc(groups: map<DayKey, seq<HourRow>>, keys: seq<DayKey>, hours: seq<HourRow>, h: HourRow)
    requires GroupedRows(groups, keys, hours)
    ensures var key := (h.business, h.day);
            var had := key in groups;
            GroupedRows(groups[key := if had then groups[key] + [h] else [h]],
                        if had then keys else keys + [key], hours + [h])
  {
    var k := (h.business, h.day);
    var next := groups[k := if k in groups then groups[k] + [h] else [h]];
    var keys' := if k in groups then keys else keys + [k];
    forall key: DayKey
      ensures key in keys' <==> key in next
      ensures key in next <==> Select(hours + [h], key.0, key.1) != []
      ensures key in next ==> next[key] == Select(hours + [h], key.0, key.1)
    {
      SelectSnoc(hours, h, key.0, key.1);
      assert key in groups <==> Select(hours, key.0, key.1) != [];
      assert key in keys <==> key in groups;
    }
  }

  lemma GroupedKey(groups: map<DayKey, seq<HourRow>>, keys: seq<DayKey>, hours: seq<HourRow>, k: nat)
    requires GroupedRows(groups, keys, hours) && k < |keys|
    ensures keys[k] in groups && groups[keys[k]] == Select(hours, keys[k].0, keys[k].1)
  {
    assert keys[k] in keys;
  }

  method GroupByBusinessAndDay(hours: seq<HourRow>) returns (groups: map<DayKey, seq<HourRow>>, keys: seq<DayKey>)
    ensures GroupedRows(groups, keys, hours)
  {
    groups, keys := map[], [];
    var n := 0;
    while n < |hours|
      invariant 0 <= n <= |hours|
      invariant GroupedRows(groups, keys, hours[..n])
    {
      var h := hours[n];
      var key := (h.business, h.day);
      GroupedRowsSnoc(groups, keys, hours[..n], h);
      PrefixSnoc(hours, n);
      if key in groups {
        groups := groups[key := groups[key] + [h]];
      } else {
        groups, keys := groups[key := [h]], keys + [key];
      }
      n := n + 1;
    }
    PrefixAll(hours);
  }

  ghost predicate DaysReplaced(before: seq<HourRow>, after: seq<HourRow>, hours: seq<HourRow>, keys: seq<DayKey>) {
    forall b, d :: Select(after, b, d) ==
                   if (b, d) in keys then Stored(Select(hours, b, d)) else Select(before, b, d)
  }

  lemma DaysReplacedStep(before: seq<HourRow>, rows: seq<HourRow>, hours: seq<HourRow>, keys: seq<DayKey>, k: nat)
    requires k < |keys| && DaysReplaced(before, rows, hours, keys[..k])
    ensures var (b, d) := keys[k];
            DaysReplaced(before, DeleteDay(rows, b, d) + Stored(Select(hours, b, d)), hours, keys[..k + 1])
  {
    var (b, d) := keys[k];
    SelectIsUniform(hours, b, d);
    ReplacedDay(rows, b, d, Select(hours, b, d));
    assert keys[..k + 1] == keys[..k] + [(b, d)];
    var after := DeleteDay(rows, b, d) + Stored(Select(hours, b, d));
    forall b', d'
      ensures Select(after, b', d') ==
              if (b', d') in keys[..k + 1] then Stored(Select(hours, b', d')) else Select(before, b', d')
    {
      assert Select(after, b', d') == if b' == b && d' == d then Stored(Select(hours, b, d)) else Select(rows, b', d');
      assert (b', d') in keys[..k + 1] <==> (b', d') in keys[..k] || (b', d') == (b, d);
    }
  }

  /** What one call of SetBusinessHours does to the table. */
  ghost predicate SetsHours(before: seq<HourRow>, after: seq<HourRow>, business: Id, schedule: seq<DayEntry>) {
    var created := Created(business, schedule);
    if Acceptable(schedule) then
      forall b, d :: Select(after, b, d) ==
                     if Select(created, b, d) != [] then Stored(Select(created, b, d)) else Select(before, b, d)
    else
      after == before
  }

  class HourTable {
    var rows: seq<HourRow>

    constructor ()
      ensures rows == []
    {
      rows := [];
    }

    /** Deletes one day's rows and inserts the sorted items with their numbers. */
    method ReplaceDay(b: Id, d: int, items: seq<HourRow>)
      modifies this
      ensures rows == DeleteDay(old(rows), b, d) + Stored(items)
    {
      rows := DeleteDay(rows, b, d);
      ghost var kept := rows;
      var sorted := Sort(items, ByOpening);
      var n := 0;
      while n < |sorted|
        invariant 0 <= n <= |sorted|
        invariant rows == kept + Numbered(sorted[..n], 1)
      {
        NumberedSnoc(sorted, n, 1);
        rows := rows + [sorted[n].(sequence := n + 1)];
        n := n + 1;
      }
      assert sorted[..n] == sorted;
    }

    /**
      Every (business, day) that occurs in the input ends up with exactly its items,
      sorted by opening time and numbered from 1; every other day keeps its rows.
     */
    method UpsertMany(hours: seq<HourRow>)
      modifies this
      ensures forall b, d ::
                Select(rows, b, d) == if Select(hours, b, d) != [] then Stored(Select(hours, b, d))
                                      else Select(old(rows), b, d)
    {
      if hours == [] {
        return;
      }
      var groups, keys := GroupByBusinessAndDay(hours);
      var k := 0;
      while k < |keys|
        invariant 0 <= k <= |keys|
        invariant DaysReplaced(old(rows), rows, hours, keys[..k])
      {
        var (b, d) := keys[k];
        GroupedKey(groups, keys, hours, k);
        DaysReplacedStep(old(rows), rows, hours, keys, k);
        ReplaceDay(b, d, groups[(b, d)]);
        k := k + 1;
      }
      assert keys[..k] == keys;
      forall b, d
        ensures Select(rows, b, d) == if Select(hours, b, d) != [] then Stored(Select(hours, b, d))
                                      else Select(old(rows), b, d)
      {
        assert (b, d) in keys <==> (b, d) in groups;
        assert (b, d) in groups <==> Select(hours, (b, d).0, (b, d).1) != [];
      }
    }

    /** Set the schedule of the days mentioned; on a rejected schedule nothing changes. */
    method SetBusinessHours(business: Id, schedule: seq<DayEntry>) returns (ok: bool)
      modifies this
      ensures ok <==> Acceptable(schedule)
      ensures SetsHours(old(rows), rows, business, schedule)
    {
      AcceptanceIsExact(schedule);
      ok := ValidateInput(schedule);
      if !ok {
        return;
      }
      var toSave: seq<HourRow> := [];
      var n := 0;
      while n < |schedule|
        invariant 0 <= n <= |schedule|
        invariant toSave == Created(business, schedule[..n])
        invariant forall i :: 0 <= i < n ==> ValidHours(schedule[i].hours)
        invariant rows == old(rows)
      {
        var h := Create(business, schedule[n]);
        if h.None? {
          return false;
        }
        assert schedule[..n + 1] == schedule[..n] + [schedule[n]];
        CreatedSnoc(business, schedule[..n], schedule[n]);
        toSave := toSave + [h.value];
        n := n + 1;
      }
      assert schedule[..n] == schedule;
      UpsertMany(toSave);
    }
  }
}
