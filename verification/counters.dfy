/**
  One client's appointment counter under concurrent bookings. A booking reads the
  counter with the client, long before it takes any lock, and writes it with the
  appointment: the merge selects the client again and leaves the counter out if it
  already has the new value.
 */
module CounterRace {
  import opened Wrappers

  type TxId = nat

  datatype Seen = Seen(read: int, base: Option<int>)

  /** The counter on record, the client's appointment rows, and what open bookings have seen of the counter. */
  datatype State = State(count: int, rows: nat, open: map<TxId, Seen>)

  datatype CounterStep = Read(t: TxId) | Fetch(t: TxId) | Finish(t: TxId)

  function Merged(current: int, base: int, target: int): int { if target != base then target else current }

  function Next(s: State, step: CounterStep): Option<State> {
    match step
    case Read(t) => if t in s.open then None else Some(s.(open := s.open[t := Seen(s.count, None)]))
    case Fetch(t) =>
      if t !in s.open || s.open[t].base.Some? then None
      else Some(s.(open := s.open[t := s.open[t].(base := Some(s.count))]))
    case Finish(t) =>
      if t !in s.open || s.open[t].base.None? then None
      else
        Some(State(Merged(s.count, s.open[t].base.value, s.open[t].read + 1), s.rows + 1, s.open - {t}))
  }

  function Execute(s: State, steps: seq<CounterStep>): Option<State>
    decreases |steps|
  {
    if steps == [] then Some(s)
    else
      match Next(s, steps[0])
      case None => None
      case Some(next) => Execute(next, steps[1..])
  }

  predicate AlwaysEqual(s: State, steps: seq<CounterStep>)
    decreases |steps|
  {
    && s.count == s.rows
    && (steps != [] && Next(s, steps[0]).Some? ==> AlwaysEqual(Next(s, steps[0]).value, steps[1..]))
  }

  /** A booking that finishes has read the counter as it still is: none of the client's finished in between. */
  predicate Current(s: State, step: CounterStep) {
    step.Finish? && step.t in s.open ==> s.open[step.t].read == s.count
  }

  predicate AlwaysCurrent(s: State, steps: seq<CounterStep>)
    decreases |steps|
  {
    steps != [] && Next(s, steps[0]).Some? ==>
      Current(s, steps[0]) && AlwaysCurrent(Next(s, steps[0]).value, steps[1..])
  }

  /** Nothing larger than the counter has been seen of it. */
  predicate SeenBefore(s: State) {
    forall t :: t in s.open ==>
      s.open[t].read <= s.count && (s.open[t].base.Some? ==> s.open[t].base.value <= s.count)
  }

  lemma StepStaysEqualIff(s: State, step: CounterStep)
    requires s.count == s.rows && SeenBefore(s) && Next(s, step).Some?
    ensures Next(s, step).value.count == Next(s, step).value.rows <==> Current(s, step)
    ensures Current(s, step) ==> SeenBefore(Next(s, step).value)
  {
    if step.Finish? {
      var seen := s.open[step.t];
      assert seen.base.value <= s.count && seen.read <= s.count;
    }
  }

  /**
    The counter equals the number of rows throughout a run if and only if no booking
    of the client finishes between another one's read and its finish.
   */
  lemma {:induction false} CountsStayEqualIff(s: State, steps: seq<CounterStep>)
    requires s.count == s.rows && SeenBefore(s)
    ensures AlwaysEqual(s, steps) <==> AlwaysCurrent(s, steps)
    decreases |steps|
  {
    if steps != [] && Next(s, steps[0]).Some? {
      StepStaysEqualIff(s, steps[0]);
      if Current(s, steps[0]) {
        CountsStayEqualIff(Next(s, steps[0]).value, steps[1..]);
      }
    }
  }

  lemma ExecuteStep(s: State, step: CounterStep, rest: seq<CounterStep>)
    requires Next(s, step).Some?
    ensures Execute(s, [step] + rest) == Execute(Next(s, step).value, rest)
  {
    assert ([step] + rest)[1..] == rest;
  }

  /** Two bookings at once, of a known client without appointments, leave two rows and a counter of one. */
  lemma SimultaneousBookingsCountOnce()
    ensures exists steps :: Execute(State(0, 0, map[]), steps).Some?
                         && Execute(State(0, 0, map[]), steps).value.rows == 2
                         && Execute(State(0, 0, map[]), steps).value.count == 1
  {
    var s := State(0, 0, map[]);
    var last := [Fetch(2)] + ([Finish(2)] + []);
    var steps := [Read(1)] + ([Read(2)] + ([Fetch(1)] + ([Finish(1)] + last)));
    ExecuteStep(s, Read(1), [Read(2)] + ([Fetch(1)] + ([Finish(1)] + last)));
    var a := Next(s, Read(1)).value;
    ExecuteStep(a, Read(2), [Fetch(1)] + ([Finish(1)] + last));
    var b := Next(a, Read(2)).value;
    ExecuteStep(b, Fetch(1), [Finish(1)] + last);
    var c := Next(b, Fetch(1)).value;
    ExecuteStep(c, Finish(1), last);
    var d := Next(c, Finish(1)).value;
    assert d.count == 1 && d.rows == 1 && d.open[2] == Seen(0, None);
    ExecuteStep(d, Fetch(2), [Finish(2)] + []);
    ExecuteStep(Next(d, Fetch(2)).value, Finish(2), []);
  }
}
