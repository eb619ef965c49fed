/**
  Reminders. One scheduler polls: it selects the open appointments that start 23
  to 25 hours later and have no reminder yet, then works through the selection,
  marking a row after its message is delivered. Bookings, moves and closings
  happen at any point in between, also while a selection is being worked through.
 */
module Reminders {
  import opened Wrappers
  import opened Appointments
  import opened Scheduling
  import opened Runs
  import opened Lifecycle

  const HOUR := 3600
  const WINDOW_START := 23 * HOUR
  const WINDOW_END := 25 * HOUR

  predicate InWindow(at: int, now: int) { now + WINDOW_START <= at <= now + WINDOW_END }

  predicate IsDue(r: Row, now: int) {
    IsOpen(r.status) && InWindow(r.scheduledAt, now) && r.reminderSentAt.None?
  }

  function Due(rows: seq<Row>, now: int): seq<Id> {
    if rows == [] then [] else (if IsDue(rows[0], now) then [rows[0].id] else []) + Due(rows[1..], now)
  }

  /** What comes of one selected appointment; Unmarked is a delivery whose mark was lost. */
  datatype Outcome = Skipped | Marked(at: int) | Unmarked

  datatype Event = Act(action: Action) | Query(now: int) | Process(outcome: Outcome) | Crash

  /** The tables, what is left of the current selection, and all messages so far, with those that were not marked. */
  datatype State = State(db: Db, queue: seq<Id>, sent: multiset<Id>, lost: multiset<Id>)

  function Mark(rows: seq<Row>, id: Id, at: int): seq<Row> {
    var k := IndexOf(rows, id);
    if k == |rows| then rows else rows[k := rows[k].(reminderSentAt := Some(at))]
  }

  /** A scheduler that is still working does not poll; one without work has nothing to process. */
  function Next(s: State, e: Event): State {
    match e
    case Act(action) => s.(db := Step(s.db, action))
    case Query(now) => if s.queue != [] then s else s.(queue := Due(s.db.rows, now))
    case Crash => s.(queue := [])
    case Process(outcome) =>
      if s.queue == [] then s
      else
        var id, rest := s.queue[0], s.(queue := s.queue[1..]);
        match outcome
        case Skipped => rest
        case Marked(at) => rest.(db := s.db.(rows := Mark(s.db.rows, id, at)), sent := s.sent + multiset{id})
        case Unmarked => rest.(sent := s.sent + multiset{id}, lost := s.lost + multiset{id})
  }

  function Execute(s: State, events: seq<Event>): State
    decreases |events|
  {
    if events == [] then s else Execute(Next(s, events[0]), events[1..])
  }

  predicate FreshEvents(s: State, events: seq<Event>)
    decreases |events|
  {
    events != [] ==> (events[0].Act? ==> Fresh(s.db, events[0].action)) && FreshEvents(Next(s, events[0]), events[1..])
  }

  // ---------- the invariant ----------

  function Ids(rows: seq<Row>): set<Id> { set r | r in rows :: r.id }

  predicate Distinct(ids: seq<Id>) { forall i, j :: 0 <= i < j < |ids| ==> ids[i] != ids[j] }

  function Marks(r: Row): nat { if r.reminderSentAt.Some? then 1 else 0 }

  /** Selected appointments exist and have not been marked since they were selected. */
  ghost predicate QueueUnmarked(s: State) {
    && Distinct(s.queue)
    && (forall id :: id in s.queue ==> id in Ids(s.db.rows))
    && (forall i :: 0 <= i < |s.db.rows| && s.db.rows[i].id in s.queue ==> s.db.rows[i].reminderSentAt.None?)
  }

  /** Every message is accounted for by a mark on its row or by a lost mark. */
  ghost predicate Accounted(s: State) {
    && (forall i :: 0 <= i < |s.db.rows| ==>
          s.sent[s.db.rows[i].id] == Marks(s.db.rows[i]) + s.lost[s.db.rows[i].id])
    && (forall id :: id in s.sent || id in s.lost ==> id in Ids(s.db.rows))
  }

  ghost predicate Inv(s: State) { UniqueIds(s.db.rows) && QueueUnmarked(s) && Accounted(s) }

  lemma {:induction false} DueExact(rows: seq<Row>, now: int, id: Id)
    ensures id in Due(rows, now) <==> exists i :: 0 <= i < |rows| && rows[i].id == id && IsDue(rows[i], now)
  {
    if rows != [] {
      var rest := rows[1..];
      DueExact(rest, now, id);
      assert rows[0].id == id && IsDue(rows[0], now) ==> id in Due(rows, now);
      if i :| 0 <= i < |rest| && rest[i].id == id && IsDue(rest[i], now) {
        assert rows[i + 1] == rest[i];
      }
      if i :| 1 <= i < |rows| && rows[i].id == id && IsDue(rows[i], now) {
        assert rest[i - 1] == rows[i];
      }
    }
  }

  lemma {:induction false} DueDistinct(rows: seq<Row>, now: int)
    requires UniqueIds(rows)
    ensures Distinct(Due(rows, now))
  {
    if rows != [] {
      var rest := rows[1..];
      DueDistinct(rest, now);
      DueExact(rest, now, rows[0].id);
      assert forall i :: 0 <= i < |rest| ==> rest[i] == rows[i + 1];
    }
  }

  /** An action never touches ids and reminder marks, and adds at most one unmarked row under its fresh id. */
  lemma ActFrame(db: Db, a: Action)
    ensures |db.rows| <= |Step(db, a).rows| <= |db.rows| + 1
    ensures forall i :: 0 <= i < |db.rows| ==>
              Step(db, a).rows[i].id == db.rows[i].id
              && Step(db, a).rows[i].reminderSentAt == db.rows[i].reminderSentAt
    ensures |Step(db, a).rows| > |db.rows| ==>
              a.Book? && Step(db, a).rows[|db.rows|].id == a.freshRow
              && Step(db, a).rows[|db.rows|].reminderSentAt.None?
  {
    forall i | 0 <= i < |db.rows|
      ensures |Step(db, a).rows| >= |db.rows|
      ensures Step(db, a).rows[i].id == db.rows[i].id
      ensures Step(db, a).rows[i].reminderSentAt == db.rows[i].reminderSentAt
    {
      StepEvolves(db, a, i);
    }
  }

  lemma ActKeeps(s: State, a: Action)
    requires Inv(s) && Fresh(s.db, a)
    ensures Inv(Next(s, Act(a)))
  {
    ActFrame(s.db, a);
    ActKeepsIds(s.db, a);
    ActKeepsAccount(s, a);
    ActKeepsQueue(s, a);
  }

  lemma ActKeepsIds(db: Db, a: Action)
    requires UniqueIds(db.rows) && Fresh(db, a)
    ensures UniqueIds(Step(db, a).rows) && Ids(db.rows) <= Ids(Step(db, a).rows)
    ensures |Step(db, a).rows| > |db.rows| ==> a.freshRow !in Ids(db.rows)
  {
    ActFrame(db, a);
    var rows, after := db.rows, Step(db, a).rows;
    forall id | id in Ids(rows) ensures id in Ids(after) {
      var i :| 0 <= i < |rows| && rows[i].id == id;
      assert after[i].id == id;
    }
  }

  lemma ActKeepsAccount(s: State, a: Action)
    requires Inv(s) && Fresh(s.db, a)
    ensures Accounted(Next(s, Act(a)))
  {
    ActFrame(s.db, a);
    ActKeepsIds(s.db, a);
  }

  lemma ActKeepsQueue(s: State, a: Action)
    requires Inv(s) && Fresh(s.db, a)
    ensures QueueUnmarked(Next(s, Act(a)))
  {
    ActFrame(s.db, a);
    ActKeepsIds(s.db, a);
  }

  /** A scheduler at work does not poll; an idle one selects exactly the due; a crash forgets the selection only. */
  lemma PollsAreExact(s: State, now: int, id: Id)
    ensures s.queue != [] ==> Next(s, Query(now)) == s
    ensures s.queue == [] ==>
              var after := Next(s, Query(now));
              && after == s.(queue := after.queue)
              && (id in after.queue <==>
                    exists i :: 0 <= i < |s.db.rows| && s.db.rows[i].id == id
                      && (s.db.rows[i].status == Pending || s.db.rows[i].status == Confirmed)
                      && 82_800 <= s.db.rows[i].scheduledAt - now <= 90_000 && s.db.rows[i].reminderSentAt == None)
    ensures Next(s, Crash) == s.(queue := [])
  {
    DueExact(s.db.rows, now, id);
    if i :| 0 <= i < |s.db.rows| && s.db.rows[i].id == id
            && (s.db.rows[i].status == Pending || s.db.rows[i].status == Confirmed)
            && 82_800 <= s.db.rows[i].scheduledAt - now <= 90_000 && s.db.rows[i].reminderSentAt == None {
      assert IsDue(s.db.rows[i], now);
    }
  }

  lemma QueryKeeps(s: State, now: int)
    requires Inv(s)
    ensures Inv(Next(s, Query(now)))
  {
    if s.queue == [] {
      DueDistinct(s.db.rows, now);
      forall id ensures id in Due(s.db.rows, now) <==>
                        exists i :: 0 <= i < |s.db.rows| && s.db.rows[i].id == id && IsDue(s.db.rows[i], now)
      {
        DueExact(s.db.rows, now, id);
      }
    }
  }

  lemma ProcessKeeps(s: State, outcome: Outcome)
    requires Inv(s)
    ensures Inv(Next(s, Process(outcome)))
  {
    if s.queue != [] {
      if outcome.Marked? {
        MarkFrame(s.db.rows, s.queue[0], outcome.at);
      }
      TurnKeepsQueue(s, outcome);
      TurnKeepsAccount(s, outcome);
    }
  }

  lemma TurnKeepsQueue(s: State, outcome: Outcome)
    requires Inv(s) && s.queue != []
    ensures QueueUnmarked(Next(s, Process(outcome)))
  {
    var id, rest := s.queue[0], s.queue[1..];
    RestOfQueue(s.queue);
    if outcome.Marked? {
      MarkFrame(s.db.rows, id, outcome.at);
    }
  }

  lemma RestOfQueue(queue: seq<Id>)
    requires Distinct(queue) && queue != []
    ensures Distinct(queue[1..]) && queue[0] !in queue[1..] && forall x :: x in queue[1..] ==> x in queue
  {
  }

  lemma TurnKeepsAccount(s: State, outcome: Outcome)
    requires Inv(s) && s.queue != []
    ensures Accounted(Next(s, Process(outcome)))
  {
    var id := s.queue[0];
    assert id in s.queue && id in Ids(s.db.rows);
    if outcome.Marked? {
      MarkFrame(s.db.rows, id, outcome.at);
    }
  }

  lemma MarkFrame(rows: seq<Row>, id: Id, at: int)
    requires UniqueIds(rows)
    ensures |Mark(rows, id, at)| == |rows| && UniqueIds(Mark(rows, id, at))
    ensures forall i :: 0 <= i < |rows| ==>
              Mark(rows, id, at)[i] == if rows[i].id == id then rows[i].(reminderSentAt := Some(at)) else rows[i]
    ensures Ids(Mark(rows, id, at)) == Ids(rows)
  {
    var after := Mark(rows, id, at);
    assert forall i :: 0 <= i < |rows| ==> after[i].id == rows[i].id;
    forall x | x in Ids(rows) ensures x in Ids(after) {
      var i :| 0 <= i < |rows| && rows[i].id == x;
      assert after[i].id == x;
    }
  }

  lemma NextKeeps(s: State, e: Event)
    requires Inv(s) && (e.Act? ==> Fresh(s.db, e.action))
    ensures Inv(Next(s, e))
  {
    match e
    case Act(a) => ActKeeps(s, a);
    case Query(now) => QueryKeeps(s, now);
    case Process(outcome) => ProcessKeeps(s, outcome);
    case Crash =>
  }

  lemma {:induction false} EventsKeep(s: State, events: seq<Event>)
    requires Inv(s) && FreshEvents(s, events)
    ensures Inv(Execute(s, events))
    decreases |events|
  {
    if events != [] {
      NextKeeps(s, events[0]);
      EventsKeep(Next(s, events[0]), events[1..]);
    }
  }

  /**
    However actions, polls and crashes interleave, an appointment has been sent one
    message if it is marked and one more for each lost mark: at most one in all
    when no delivery goes unmarked.
   */
  lemma RemindedAtMostOnce(s: State, events: seq<Event>, i: nat)
    requires UniqueIds(s.db.rows) && (forall r :: r in s.db.rows ==> r.reminderSentAt.None?)
    requires s.queue == [] && s.sent == multiset{} && s.lost == multiset{} && FreshEvents(s, events)
    requires i < |Execute(s, events).db.rows|
    ensures var end := Execute(s, events);
            && end.sent[end.db.rows[i].id] == Marks(end.db.rows[i]) + end.lost[end.db.rows[i].id]
            && (end.lost[end.db.rows[i].id] == 0 ==> end.sent[end.db.rows[i].id] <= 1)
  {
    EventsKeep(s, events);
  }

  // ---------- coverage ----------

  /** What an event may do to a row: nothing sets back its mark, reopens it, or moves it and leaves it open. */
  predicate Continues(before: Row, after: Row) {
    && after.id == before.id
    && (before.reminderSentAt.Some? ==> after.reminderSentAt.Some?)
    && (IsOpen(after.status) ==> IsOpen(before.status) && after.scheduledAt == before.scheduledAt)
  }

  lemma NextContinues(s: State, e: Event, i: nat)
    requires i < |s.db.rows|
    ensures i < |Next(s, e).db.rows| && Continues(s.db.rows[i], Next(s, e).db.rows[i])
  {
    if e.Act? {
      StepEvolves(s.db, e.action, i);
    }
  }

  lemma {:induction false} EventsContinue(s: State, events: seq<Event>, i: nat)
    requires i < |s.db.rows|
    ensures i < |Execute(s, events).db.rows| && Continues(s.db.rows[i], Execute(s, events).db.rows[i])
    decreases |events|
  {
    if events != [] {
      NextContinues(s, events[0], i);
      EventsContinue(Next(s, events[0]), events[1..], i);
    }
  }

  /** No crash, and whenever this appointment's turn comes its message is delivered and marked. */
  predicate Smooth(s: State, events: seq<Event>, id: Id)
    decreases |events|
  {
    events != [] ==>
      && !events[0].Crash?
      && (events[0].Process? && s.queue != [] && s.queue[0] == id ==> events[0].outcome.Marked?)
      && Smooth(Next(s, events[0]), events[1..], id)
  }

  /** Times at which the scheduler actually selected. */
  function Polls(s: State, events: seq<Event>): seq<int>
    decreases |events|
  {
    if events == [] then []
    else (if events[0].Query? && s.queue == [] then [events[0].now] else []) + Polls(Next(s, events[0]), events[1..])
  }

  /** Polls two hours apart at most, the first at least 23 hours before the start, the last at most 25. */
  predicate Covers(polls: seq<int>, at: int) {
    && polls != []
    && at - polls[0] >= 82_800 && at - polls[|polls| - 1] <= 90_000
    && forall k :: 0 < k < |polls| ==> polls[k] - polls[k - 1] <= 7200
  }

  /** The window is as wide as the largest gap, so a covering sequence of polls hits it. */
  lemma {:induction false} SomePollInWindow(polls: seq<int>, at: int) returns (k: nat)
    requires Covers(polls, at)
    ensures k < |polls| && InWindow(at, polls[k])
  {
    if at <= polls[0] + WINDOW_END {
      k := 0;
    } else {
      assert polls[1] - polls[0] <= WINDOW_END - WINDOW_START;
      var rest := SomePollInWindow(polls[1..], at);
      k := rest + 1;
    }
  }

  /** A selected appointment has been sent its message by the time the selection is worked through. */
  lemma {:induction false} SelectedIsReminded(s: State, events: seq<Event>, i: nat)
    requires Inv(s) && FreshEvents(s, events) && i < |s.db.rows| && s.db.rows[i].id in s.queue
    requires Smooth(s, events, s.db.rows[i].id) && Execute(s, events).queue == []
    ensures i < |Execute(s, events).db.rows| && Execute(s, events).db.rows[i].reminderSentAt.Some?
    decreases |events|
  {
    var id, next := s.db.rows[i].id, Next(s, events[0]);
    NextKeeps(s, events[0]);
    NextContinues(s, events[0], i);
    if events[0].Process? && s.queue[0] == id {
      MarkFrame(s.db.rows, id, events[0].outcome.at);
      EventsContinue(next, events[1..], i);
    } else {
      assert s.queue[0] == id || id in s.queue[1..];
      SelectedIsReminded(next, events[1..], i);
    }
  }

  lemma {:induction false} PolledIsReminded(s: State, events: seq<Event>, i: nat, k: nat)
    requires Inv(s) && FreshEvents(s, events) && i < |s.db.rows|
    requires Smooth(s, events, s.db.rows[i].id) && Execute(s, events).queue == []
    requires k < |Polls(s, events)| && InWindow(s.db.rows[i].scheduledAt, Polls(s, events)[k])
    requires i < |Execute(s, events).db.rows| && IsOpen(Execute(s, events).db.rows[i].status)
    ensures Execute(s, events).db.rows[i].reminderSentAt.Some?
    decreases |events|
  {
    var e, next := events[0], Next(s, events[0]);
    NextKeeps(s, e);
    NextContinues(s, e, i);
    EventsContinue(next, events[1..], i);
    if e.Query? && s.queue == [] && k == 0 {
      if s.db.rows[i].reminderSentAt.None? {
        PollSelects(s, e.now, i);
        SelectedIsReminded(next, events[1..], i);
      }
    } else {
      PollsAfter(s, events, k);
      PolledIsReminded(next, events[1..], i, if e.Query? && s.queue == [] then k - 1 else k);
    }
  }

  lemma PollSelects(s: State, now: int, i: nat)
    requires i < |s.db.rows| && s.queue == [] && IsDue(s.db.rows[i], now)
    ensures s.db.rows[i].id in Next(s, Query(now)).queue
  {
    DueExact(s.db.rows, now, s.db.rows[i].id);
  }

  lemma PollsAfter(s: State, events: seq<Event>, k: nat)
    requires events != [] && k < |Polls(s, events)|
    ensures var rest := Polls(Next(s, events[0]), events[1..]);
            if events[0].Query? && s.queue == [] then
              Polls(s, events)[0] == events[0].now && (k > 0 ==> k - 1 < |rest| && Polls(s, events)[k] == rest[k - 1])
            else k < |rest| && Polls(s, events)[k] == rest[k]
  {
    var rest := Polls(Next(s, events[0]), events[1..]);
    if events[0].Query? && s.queue == [] {
      assert Polls(s, events) == [events[0].now] + rest;
    } else {
      assert Polls(s, events) == [] + rest;
    }
  }

  /**
    Polls at most two hours apart send exactly one reminder for every appointment
    that is still pending or confirmed at the end. That it is still open also says
    that it was never moved.
   */
  lemma RemindedExactlyOnce(s: State, events: seq<Event>, i: nat)
    requires Inv(s) && FreshEvents(s, events) && i < |s.db.rows| && s.sent[s.db.rows[i].id] == 0
    requires Smooth(s, events, s.db.rows[i].id) && Execute(s, events).queue == []
    requires Covers(Polls(s, events), s.db.rows[i].scheduledAt)
    requires i < |Execute(s, events).db.rows| && IsOpen(Execute(s, events).db.rows[i].status)
    ensures Execute(s, events).sent[s.db.rows[i].id] == 1
  {
    var k := SomePollInWindow(Polls(s, events), s.db.rows[i].scheduledAt);
    PolledIsReminded(s, events, i, k);
    EventsKeep(s, events);
    EventsContinue(s, events, i);
    NothingLost(s, events, s.db.rows[i].id);
  }

  lemma {:induction false} NothingLost(s: State, events: seq<Event>, id: Id)
    requires Smooth(s, events, id)
    ensures Execute(s, events).lost[id] == s.lost[id]
    decreases |events|
  {
    if events != [] {
      NothingLost(Next(s, events[0]), events[1..], id);
    }
  }

  /** An appointment that is no longer pending or confirmed, a moved one included, is never selected again. */
  lemma {:induction false} MovedIsNotReminded(s: State, events: seq<Event>, i: nat)
    requires Inv(s) && FreshEvents(s, events) && i < |s.db.rows|
    requires !IsOpen(s.db.rows[i].status) && s.db.rows[i].id !in s.queue
    ensures Execute(s, events).sent[s.db.rows[i].id] == s.sent[s.db.rows[i].id]
    decreases |events|
  {
    if events != [] {
      var e, next := events[0], Next(s, events[0]);
      NextKeeps(s, e);
      NextContinues(s, e, i);
      if e.Query? && s.queue == [] {
        DueExact(s.db.rows, e.now, s.db.rows[i].id);
      }
      assert e.Process? && s.queue != [] ==> forall x :: x in s.queue[1..] ==> x in s.queue;
      MovedIsNotReminded(next, events[1..], i);
    }
  }

  /** A crash between delivery and mark costs the client a second message. */
  lemma CrashRepeatsAReminder(db: Db, r: Row)
    requires db.rows == [r] && IsDue(r, 0)
    ensures Execute(State(db, [], multiset{}, multiset{}),
                    [Query(0)] + ([Process(Unmarked)] + ([Crash] + ([Query(0)] + ([Process(Marked(0))] + [])))))
            .sent[r.id] == 2
  {
    var s := State(db, [], multiset{}, multiset{});
    assert db.rows[1..] == [] && Due([], 0) == [];
    assert Due(db.rows, 0) == [r.id];
    var a := s.(queue := [r.id]);
    var b := s.(sent := multiset{r.id}, lost := multiset{r.id});
    var c := b.(queue := [r.id]);
    assert Next(s, Query(0)) == a && Next(a, Process(Unmarked)) == b && Next(b, Crash) == b && Next(b, Query(0)) == c;
    ExecuteEvent(s, Query(0), [Process(Unmarked)] + ([Crash] + ([Query(0)] + ([Process(Marked(0))] + []))));
    ExecuteEvent(a, Process(Unmarked), [Crash] + ([Query(0)] + ([Process(Marked(0))] + [])));
    ExecuteEvent(b, Crash, [Query(0)] + ([Process(Marked(0))] + []));
    ExecuteEvent(b, Query(0), [Process(Marked(0))] + []);
    ExecuteEvent(c, Process(Marked(0)), []);
  }

  /** Two scheduler processes: the same tables and messages, each with its own selection. */
  datatype Duo = Duo(first: State, other: seq<Id>)

  /** The first one's event, or the other's. */
  function DuoNext(d: Duo, byOther: bool, e: Event): Duo {
    if byOther then
      var after := Next(d.first.(queue := d.other), e);
      Duo(after.(queue := d.first.queue), after.queue)
    else
      Duo(Next(d.first, e), d.other)
  }

  /** A process that selected before another one's mark sends a common selection again: nothing re-checks. */
  lemma TwoSchedulersRemindTwice(d: Duo, at: int, at': int)
    requires d.first.queue != [] && d.other != [] && d.first.queue[0] == d.other[0]
    ensures var id := d.other[0];
            DuoNext(DuoNext(d, false, Process(Marked(at))), true, Process(Marked(at'))).first.sent[id]
            == d.first.sent[id] + 2
  {
  }

  /** And both do select a due appointment if both poll before either has marked it. */
  lemma BothSelect(s: State, now: int, now': int, i: nat)
    requires s.queue == [] && i < |s.db.rows| && IsDue(s.db.rows[i], now) && IsDue(s.db.rows[i], now')
    ensures var d := DuoNext(DuoNext(Duo(s, []), false, Query(now)), true, Query(now'));
            s.db.rows[i].id in d.first.queue && s.db.rows[i].id in d.other
  {
    DueExact(s.db.rows, now, s.db.rows[i].id);
    DueExact(s.db.rows, now', s.db.rows[i].id);
  }

  lemma ExecuteEvent(s: State, e: Event, rest: seq<Event>)
    ensures Execute(s, [e] + rest) == Execute(Next(s, e), rest)
  {
    assert ([e] + rest)[1..] == rest;
  }

  // ---------- one pass ----------

  /** The lookups before a send: the business with a phone number id, the client and the service all exist. */
  predicate CanSend(db: Db, phoneIds: map<Id, string>, r: Row) {
    && r.business in phoneIds && phoneIds[r.business] != ""
    && (exists c :: c in db.clients && c.id == r.client)
    && r.service in db.services
  }

  function Complete(db: Db, phoneIds: map<Id, string>): set<Id> {
    set r | r in db.rows && CanSend(db, phoneIds, r) :: r.id
  }

  /** Outcome of a pass without a crash: sent iff everything needed exists and the message is delivered. */
  function OutcomeOf(id: Id, complete: set<Id>, delivered: set<Id>, stamp: int): Outcome {
    if id in complete && id in delivered then Marked(stamp) else Skipped
  }

  function Turns(due: seq<Id>, complete: set<Id>, delivered: set<Id>, stamp: int): seq<Event> {
    if due == [] then [] else [Process(OutcomeOf(due[0], complete, delivered, stamp))]
                              + Turns(due[1..], complete, delivered, stamp)
  }

  /**
    Without interference, one pass is a poll followed by one turn for each
    appointment selected. What the client's phone does with a message is given.
   */
  method SendRemindersOnce(session: Database, phoneIds: map<Id, string>, delivered: set<Id>, now: int, stamp: int)
    returns (sent: multiset<Id>)
    modifies session`rows
    ensures State(session.View(), [], sent, multiset{})
         == Execute(State(old(session.View()), [], multiset{}, multiset{}),
                    [Query(now)] + Turns(Due(old(session.rows), now), Complete(old(session.View()), phoneIds),
                                         delivered, stamp))
  {
    sent := multiset{};
    var due := Due(session.rows, now);
    var complete := Complete(session.View(), phoneIds);
    ghost var first := State(session.View(), due, sent, multiset{});
    ghost var turns := Turns(due, complete, delivered, stamp);
    ExecuteEvent(State(session.View(), [], sent, multiset{}), Query(now), turns);
    var i := 0;
    while i < |due|
      invariant 0 <= i <= |due|
      invariant session.View() == old(session.View()).(rows := session.rows)
      invariant Execute(first, turns)
             == Execute(State(session.View(), due[i..], sent, multiset{}),
                        Turns(due[i..], complete, delivered, stamp))
    {
      ghost var before := State(session.View(), due[i..], sent, multiset{});
      TurnOfFirst(before, complete, delivered, stamp);
      assert due[i..][1..] == due[i + 1..];
      if due[i] in complete && due[i] in delivered {
        session.rows := Mark(session.rows, due[i], stamp);
        sent := sent + multiset{due[i]};
      }
      i := i + 1;
    }
  }

  /** One pass messages a client iff the appointment is due, everything needed exists and the message is delivered. */
  lemma PassIsExact(db: Db, phoneIds: map<Id, string>, delivered: set<Id>, now: int, stamp: int, i: nat)
    requires UniqueIds(db.rows) && i < |db.rows|
    ensures var turns := Turns(Due(db.rows, now), Complete(db, phoneIds), delivered, stamp);
            var end := Execute(State(db, [], multiset{}, multiset{}), [Query(now)] + turns);
            var r := db.rows[i];
            && end.queue == []
            && end.sent[r.id] == (if Wanted(db, phoneIds, r, now) && r.id in delivered then 1 else 0)
            && i < |end.db.rows|
            && end.db.rows[i] == if Wanted(db, phoneIds, r, now) && r.id in delivered
                                 then r.(reminderSentAt := Some(stamp)) else r
  {
    var complete, r := Complete(db, phoneIds), db.rows[i];
    var s := State(db, Due(db.rows, now), multiset{}, multiset{});
    ExecuteEvent(State(db, [], multiset{}, multiset{}), Query(now), Turns(s.queue, complete, delivered, stamp));
    DueDistinct(db.rows, now);
    DueThis(db.rows, now, i);
    CompleteThis(db, phoneIds, i);
    PassSendsTheDue(s, complete, delivered, stamp, r.id);
    PassMarks(s, complete, delivered, stamp, i);
  }

  /** An appointment 23 to 25 hours ahead that is pending or confirmed, has no reminder yet, and can be sent one. */
  predicate Wanted(db: Db, phoneIds: map<Id, string>, r: Row, now: int) {
    && (r.status == Pending || r.status == Confirmed)
    && 82_800 <= r.scheduledAt - now <= 90_000
    && r.reminderSentAt == None
    && r.business in phoneIds && phoneIds[r.business] != ""
    && (exists i :: 0 <= i < |db.clients| && db.clients[i].id == r.client)
    && r.service in db.services
  }

  /** A pass marks the rows it has messaged, with the time of the mark, and leaves every other row alone. */
  lemma {:induction false} PassMarks(s: State, complete: set<Id>, delivered: set<Id>, stamp: int, i: nat)
    requires UniqueIds(s.db.rows) && Distinct(s.queue) && i < |s.db.rows|
    ensures var end := Execute(s, Turns(s.queue, complete, delivered, stamp));
            var r := s.db.rows[i];
            && |end.db.rows| == |s.db.rows|
            && end.db.rows[i] == if r.id in s.queue && r.id in complete && r.id in delivered
                                 then r.(reminderSentAt := Some(stamp)) else r
    decreases |s.queue|
  {
    if s.queue != [] {
      var e := Process(OutcomeOf(s.queue[0], complete, delivered, stamp));
      TurnOfFirst(s, complete, delivered, stamp);
      MarkFrame(s.db.rows, s.queue[0], stamp);
      RestOfQueue(s.queue);
      assert s.db.rows[i].id in s.queue <==> s.db.rows[i].id == s.queue[0] || s.db.rows[i].id in s.queue[1..];
      PassMarks(Next(s, e), complete, delivered, stamp, i);
    }
  }

  lemma DueThis(rows: seq<Row>, now: int, i: nat)
    requires UniqueIds(rows) && i < |rows|
    ensures rows[i].id in Due(rows, now) <==> IsDue(rows[i], now)
  {
    DueExact(rows, now, rows[i].id);
  }

  lemma CompleteThis(db: Db, phoneIds: map<Id, string>, i: nat)
    requires UniqueIds(db.rows) && i < |db.rows|
    ensures db.rows[i].id in Complete(db, phoneIds) <==> CanSend(db, phoneIds, db.rows[i])
  {
    assert db.rows[i] in db.rows;
  }

  lemma TurnOfFirst(s: State, complete: set<Id>, delivered: set<Id>, stamp: int)
    requires s.queue != []
    ensures Execute(s, Turns(s.queue, complete, delivered, stamp))
         == Execute(Next(s, Process(OutcomeOf(s.queue[0], complete, delivered, stamp))),
                    Turns(s.queue[1..], complete, delivered, stamp))
  {
    ExecuteEvent(s, Process(OutcomeOf(s.queue[0], complete, delivered, stamp)),
                 Turns(s.queue[1..], complete, delivered, stamp));
  }

  /** One pass messages exactly the due appointments for which everything exists and delivery succeeds, once each. */
  lemma {:induction false} PassSendsTheDue(s: State, complete: set<Id>, delivered: set<Id>, stamp: int, id: Id)
    requires Distinct(s.queue)
    ensures var end := Execute(s, Turns(s.queue, complete, delivered, stamp));
            end.queue == []
            && end.sent[id] == s.sent[id] + if id in s.queue && id in complete && id in delivered then 1 else 0
    decreases |s.queue|
  {
    if s.queue != [] {
      var e := Process(OutcomeOf(s.queue[0], complete, delivered, stamp));
      var rest := s.queue[1..];
      TurnOfFirst(s, complete, delivered, stamp);
      assert s.queue == [s.queue[0]] + rest;
      assert s.queue[0] !in rest;
      assert id in s.queue <==> id == s.queue[0] || id in rest;
      PassSendsTheDue(Next(s, e), complete, delivered, stamp, id);
    }
  }
}
