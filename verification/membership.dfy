/**
  Memberships: renewing, freezing and expiring, with an exact account of the time
  a member is entitled to. Times are seconds; days are 86400 seconds.
 */
module Memberships {
  import opened Wrappers
  import opened Arithmetic

  const DAY := 86400

  datatype Period = Monthly | Quarterly | Annual {
    function Days(): int { match this case Monthly => 30 case Quarterly => 90 case Annual => 365 }

    function AddTo(moment: int): int { moment + DAY * Days() }
  }

  datatype MemberStatus = Active | Frozen | Expired | Cancelled

  /** ceil(seconds / 86400) */
  function CeilDays(seconds: int): int { (seconds + DAY - 1) / DAY }

  datatype Terms = Terms(
    status: MemberStatus,
    startsAt: int,
    endsAt: int,
    period: Period,
    frozenAt: Option<int>,
    frozenDaysUsed: int,
    renewalCount: int,
    cancelledAt: Option<int>
  ) {
    predicate Overdue(now: int) { status.Active? && now >= endsAt }

    function EffectiveStatus(now: int): MemberStatus { if Overdue(now) then Expired else status }

    predicate IsCurrent(now: int) { EffectiveStatus(now) == Active && startsAt <= now < endsAt }

    function DaysRemaining(now: int): int { if now >= endsAt then 0 else CeilDays(endsAt - now) }
  }

  function Grant(start: int, period: Period): Terms {
    Terms(Active, start, period.AddTo(start), period, None, 0, 0, None)
  }

  datatype Op =
    | Renew(at: int, newPeriod: Option<Period>)
    | Freeze(at: int)
    | Unfreeze(at: int)
    | ExpireIfDue(at: int)
    | Cancel(at: int)

  function FrozenDays(m: Terms, at: int): int {
    if m.frozenAt.Some? then Max(0, CeilDays(at - m.frozenAt.value)) else 0
  }

  /** The terms after a command, and whether it went through; a command that raises changes nothing. */
  function Apply(m: Terms, op: Op): (Terms, bool) {
    match op
    case Renew(at, newPeriod) =>
      if m.status.Cancelled? || m.status.Frozen? then (m, false)
      else
        var applied := if newPeriod.Some? then newPeriod.value else m.period;
        (m.(endsAt := applied.AddTo(Max(m.endsAt, at)), period := applied, status := Active,
            renewalCount := m.renewalCount + 1), true)
    case Freeze(at) =>
      if !m.status.Active? then (m, false) else (m.(status := Frozen, frozenAt := Some(at)), true)
    case Unfreeze(at) =>
      if !m.status.Frozen? then (m, false)
      else
        (m.(endsAt := m.endsAt + DAY * FrozenDays(m, at), frozenDaysUsed := m.frozenDaysUsed + FrozenDays(m, at),
            frozenAt := None, status := Active), true)
    case ExpireIfDue(at) => if m.Overdue(at) then (m.(status := Expired), true) else (m, false)
    case Cancel(at) =>
      if m.status.Cancelled? then (m, true) else (m.(status := Cancelled, cancelledAt := Some(at)), true)
  }

  function Execute(m: Terms, ops: seq<Op>): Terms
    decreases |ops|
  {
    if ops == [] then m else Execute(Apply(m, ops[0]).0, ops[1..])
  }

  // ---------- the entity ----------

  class Membership {
    var status: MemberStatus
    var startsAt: int
    var endsAt: int
    var period: Period
    var frozenAt: Option<int>
    var frozenDaysUsed: int
    var renewalCount: int
    var cancelledAt: Option<int>

    function View(): Terms
      reads this
    {
      Terms(status, startsAt, endsAt, period, frozenAt, frozenDaysUsed, renewalCount, cancelledAt)
    }

    constructor (start: int, plan: Period)
      ensures View() == Grant(start, plan)
    {
      status, startsAt, endsAt, period := Active, start, plan.AddTo(start), plan;
      frozenAt, frozenDaysUsed, renewalCount, cancelledAt := None, 0, 0, None;
    }

    method Renew(at: int, newPeriod: Option<Period>) returns (ok: bool)
      modifies this
      ensures (View(), ok) == Apply(old(View()), Op.Renew(at, newPeriod))
    {
      if status == Cancelled {
        return false;
      }
      if status == Frozen {
        return false;
      }
      var applied := if newPeriod.Some? then newPeriod.value else period;
      var base := if endsAt > at then endsAt else at;
      endsAt := applied.AddTo(base);
      period := applied;
      status := Active;
      renewalCount := renewalCount + 1;
      return true;
    }

    method Freeze(at: int) returns (ok: bool)
      modifies this
      ensures (View(), ok) == Apply(old(View()), Op.Freeze(at))
    {
      if status != Active {
        return false;
      }
      status := Frozen;
      frozenAt := Some(at);
      return true;
    }

    method Unfreeze(at: int) returns (ok: bool)
      modifies this
      ensures (View(), ok) == Apply(old(View()), Op.Unfreeze(at))
    {
      if status != Frozen {
        return false;
      }
      var frozenDays := 0;
      if frozenAt.Some? {
        frozenDays := Max(0, CeilDays(at - frozenAt.value));
      }
      if frozenDays != 0 {
        endsAt := endsAt + DAY * frozenDays;
      }
      frozenDaysUsed := frozenDaysUsed + frozenDays;
      frozenAt := None;
      status := Active;
      return true;
    }

    method ExpireIfDue(now: int) returns (expired: bool)
      modifies this
      ensures (View(), expired) == Apply(old(View()), Op.ExpireIfDue(now))
    {
      if status == Active && now >= endsAt {
        status := Expired;
        return true;
      }
      return false;
    }

    method Cancel(at: int) returns (ok: bool)
      modifies this
      ensures (View(), ok) == Apply(old(View()), Op.Cancel(at))
    {
      if status == Cancelled {
        return true;
      }
      status := Cancelled;
      cancelledAt := Some(at);
      return true;
    }
  }

  // ---------- which commands go through ----------

  /** Monthly, quarterly and annual plans last 30, 90 and 365 days. */
  lemma PlansLast(start: int)
    ensures Grant(start, Monthly).endsAt == start + 2_592_000
    ensures Grant(start, Quarterly).endsAt == start + 7_776_000
    ensures Grant(start, Annual).endsAt == start + 31_536_000
  {
  }

  /** The recorded status alone decides: what each command asks for, and what it leaves when it goes through. */
  lemma CommandsGoThroughIff(m: Terms, op: Op)
    ensures var (next, ok) := Apply(m, op);
            && (ok <==> match op
                        case Renew(_, _) => m.status == Active || m.status == Expired
                        case Freeze(_) => m.status == Active
                        case Unfreeze(_) => m.status == Frozen
                        case ExpireIfDue(at) => m.status == Active && m.endsAt <= at
                        case Cancel(_) => true)
            && (!ok ==> next == m)
            && (ok ==> next.status == match op
                                      case Renew(_, _) => Active
                                      case Freeze(_) => Frozen
                                      case Unfreeze(_) => Active
                                      case ExpireIfDue(_) => Expired
                                      case Cancel(_) => Cancelled)
  {
  }

  /** A renewal adds a whole period to the end, or to now if the end is past, and takes over a new period. */
  lemma RenewalExtends(m: Terms, at: int, newPeriod: Option<Period>)
    requires Apply(m, Renew(at, newPeriod)).1
    ensures var next := Apply(m, Renew(at, newPeriod)).0;
            && next.period == (match newPeriod case Some(p) => p case None => m.period)
            && next.endsAt == (if m.endsAt > at then m.endsAt else at)
                              + 86400 * (match next.period case Monthly => 30 case Quarterly => 90 case Annual => 365)
            && next == m.(endsAt := next.endsAt, period := next.period, status := Active,
                          renewalCount := m.renewalCount + 1)
  {
  }

  /** While a membership is frozen only an unfreeze or a cancellation changes anything. */
  lemma FrozenOnlyThaws(m: Terms, op: Op)
    requires m.status == Frozen
    ensures Apply(m, op).0 != m <==> op.Unfreeze? || op.Cancel?
  {
  }

  /** Frozen memberships say since when; active and expired ones do not. */
  predicate FreezeRecorded(m: Terms) {
    && (m.status == Frozen ==> m.frozenAt.Some?)
    && (m.status == Active || m.status == Expired ==> m.frozenAt.None?)
  }

  /** Over any run from a grant: frozen_at is set on FROZEN memberships, and on no ACTIVE or EXPIRED one. */
  lemma {:induction false} FreezeAlwaysRecorded(m: Terms, ops: seq<Op>)
    requires FreezeRecorded(m)
    ensures FreezeRecorded(Execute(m, ops))
    decreases |ops|
  {
    if ops != [] {
      FreezeAlwaysRecorded(Apply(m, ops[0]).0, ops[1..]);
    }
  }

  lemma GrantsAreRecorded(start: int, period: Period, ops: seq<Op>)
    ensures var m := Execute(Grant(start, period), ops);
            && (m.status == Frozen ==> m.frozenAt.Some?)
            && (m.status == Active || m.status == Expired ==> m.frozenAt.None?)
  {
    FreezeAlwaysRecorded(Grant(start, period), ops);
  }

  /** Renewals that go through. */
  function Renewals(m: Terms, ops: seq<Op>): nat
    decreases |ops|
  {
    if ops == [] then 0
    else (if ops[0].Renew? && Apply(m, ops[0]).1 then 1 else 0) + Renewals(Apply(m, ops[0]).0, ops[1..])
  }

  lemma {:induction false} RenewalsAreCounted(m: Terms, ops: seq<Op>)
    ensures Execute(m, ops).renewalCount == m.renewalCount + Renewals(m, ops)
    decreases |ops|
  {
    if ops != [] {
      RenewalsAreCounted(Apply(m, ops[0]).0, ops[1..]);
    }
  }

  /** Unfreezing credits the least number of whole days that covers the time since the freeze, and none before it. */
  lemma UnfreezeCredits(m: Terms, at: int)
    requires m.status == Frozen && m.frozenAt.Some?
    ensures var next := Apply(m, Unfreeze(at)).0;
            var d := next.frozenDaysUsed - m.frozenDaysUsed;
            && d >= 0
            && m.frozenAt.value + 86400 * d >= at
            && (d > 0 ==> m.frozenAt.value + 86400 * (d - 1) < at)
            && next == m.(endsAt := m.endsAt + 86400 * d, frozenDaysUsed := m.frozenDaysUsed + d, frozenAt := None,
                          status := Active)
  {
  }

  /** A cancellation records its time and changes nothing else; a second one changes nothing. */
  lemma CancellationIsRecorded(m: Terms, at: int, later: int)
    requires m.status != Cancelled
    ensures var next := Apply(m, Cancel(at)).0;
            next == m.(status := Cancelled, cancelledAt := Some(at)) && Apply(next, Cancel(later)).0 == next
  {
  }

  // ---------- what an observer sees ----------

  /** A member is served from the start to the end, unless frozen, expired or cancelled on record. */
  lemma CurrentIff(m: Terms, now: int)
    ensures m.IsCurrent(now) <==> m.status == Active && m.startsAt <= now < m.endsAt
    ensures m.EffectiveStatus(now) == (if m.status == Active && m.endsAt <= now then Expired else m.status)
  {
  }

  /** days_remaining is the least number of days that reaches the end, and never negative. */
  lemma DaysReachTheEnd(m: Terms, now: int)
    ensures var d := m.DaysRemaining(now);
            && d >= 0
            && now + 86400 * d >= m.endsAt
            && (d > 0 ==> now + 86400 * (d - 1) < m.endsAt)
  {
  }

  // ---------- lazy and eager expiry ----------

  /** The clock never runs backwards, starting from now. */
  predicate Monotone(ops: seq<Op>, now: int) {
    ops != [] ==> now <= ops[0].at && Monotone(ops[1..], ops[0].at)
  }

  function LastTime(ops: seq<Op>, now: int): int {
    if ops == [] then now else LastTime(ops[1..], ops[0].at)
  }

  /** The same commands without the sweeps that persist EXPIRED. */
  function WithoutSweeps(ops: seq<Op>): seq<Op> {
    if ops == [] then []
    else if ops[0].ExpireIfDue? then WithoutSweeps(ops[1..])
    else [ops[0]] + WithoutSweeps(ops[1..])
  }

  /** Whether the commands other than sweeps went through, in order. */
  function Outcomes(m: Terms, ops: seq<Op>): seq<bool>
    decreases |ops|
  {
    if ops == [] then []
    else
      (if ops[0].ExpireIfDue? then [] else [Apply(m, ops[0]).1]) + Outcomes(Apply(m, ops[0]).0, ops[1..])
  }

  /** No freeze reaches a membership that is ACTIVE on record but past its end. */
  predicate NoOverdueFreeze(m: Terms, ops: seq<Op>)
    decreases |ops|
  {
    ops != [] ==>
      && (ops[0].Freeze? ==> !m.Overdue(ops[0].at))
      && NoOverdueFreeze(Apply(m, ops[0]).0, ops[1..])
  }

  /** The terms with expiry persisted as of now: all that an observer can tell. */
  function Settled(m: Terms, now: int): Terms { Apply(m, ExpireIfDue(now)).0 }

  /** Every observation, now or later, reads the settled terms. */
  lemma ObserversReadSettled(m: Terms, now: int, later: int)
    requires now <= later
    ensures m.EffectiveStatus(later) == Settled(m, now).EffectiveStatus(later)
    ensures m.IsCurrent(later) == Settled(m, now).IsCurrent(later)
    ensures m.DaysRemaining(later) == Settled(m, now).DaysRemaining(later)
  {
  }

  /** e is m, perhaps swept. */
  predicate SameUpToSweep(m: Terms, e: Terms, now: int) { e == m || e == Settled(m, now) }

  lemma SweepStep(m: Terms, e: Terms, now: int, op: Op)
    requires SameUpToSweep(m, e, now) && now <= op.at
    requires op.Freeze? ==> !m.Overdue(op.at)
    ensures SameUpToSweep(if op.ExpireIfDue? then m else Apply(m, op).0, Apply(e, op).0, op.at)
    ensures !op.ExpireIfDue? ==> Apply(m, op).1 == Apply(e, op).1
    ensures op.Renew? || op.Cancel? ==> Apply(m, op).0 == Apply(e, op).0
  {
  }

  /**
    Sweeping at any moments of a run is unobservable: with and without the sweeps,
    the same commands go through, and at the end the terms are the same up to a
    persisted expiry. It rests on no freeze reaching an overdue membership.
   */
  lemma {:induction false} SweepsAreInvisible(m: Terms, e: Terms, ops: seq<Op>, now: int)
    requires Monotone(ops, now) && SameUpToSweep(m, e, now)
    requires NoOverdueFreeze(m, WithoutSweeps(ops))
    ensures SameUpToSweep(Execute(m, WithoutSweeps(ops)), Execute(e, ops), LastTime(ops, now))
    ensures Outcomes(m, WithoutSweeps(ops)) == Outcomes(e, ops)
    decreases |ops|
  {
    if ops != [] {
      var op, rest := ops[0], WithoutSweeps(ops[1..]);
      if op.ExpireIfDue? {
        SweepStep(m, e, now, op);
        SweepsAreInvisible(m, Apply(e, op).0, ops[1..], op.at);
      } else {
        assert ([op] + rest)[1..] == rest;
        SweepStep(m, e, now, op);
        SweepsAreInvisible(Apply(m, op).0, Apply(e, op).0, ops[1..], op.at);
      }
    }
  }

  /** The observable form: every later status, entitlement and day count agree. */
  lemma LazyExpiryIsEagerExpiry(m: Terms, ops: seq<Op>, now: int, later: int)
    requires Monotone(ops, now) && NoOverdueFreeze(m, WithoutSweeps(ops)) && LastTime(ops, now) <= later
    ensures var lazy, eager := Execute(m, WithoutSweeps(ops)), Execute(m, ops);
            && lazy.EffectiveStatus(later) == eager.EffectiveStatus(later)
            && lazy.IsCurrent(later) == eager.IsCurrent(later)
            && lazy.DaysRemaining(later) == eager.DaysRemaining(later)
            && lazy.endsAt == eager.endsAt
    ensures ops != [] && (ops[|ops| - 1].Renew? || ops[|ops| - 1].Cancel?) ==>
              Execute(m, WithoutSweeps(ops)) == Execute(m, ops)
  {
    SweepsAreInvisible(m, m, ops, now);
    ObserversReadSettled(Execute(m, WithoutSweeps(ops)), LastTime(ops, now), later);
    ObserversReadSettled(Execute(m, ops), LastTime(ops, now), later);
    if ops != [] && (ops[|ops| - 1].Renew? || ops[|ops| - 1].Cancel?) {
      var before, last := ops[..|ops| - 1], ops[|ops| - 1];
      assert ops == before + [last];
      SplitLast(m, before, last, now);
      SweepsAreInvisible(m, m, before, now);
      SweepStep(Execute(m, WithoutSweeps(before)), Execute(m, before), LastTime(before, now), last);
    }
  }

  lemma {:induction false} ExecuteSnoc(m: Terms, ops: seq<Op>, op: Op)
    ensures Execute(m, ops + [op]) == Apply(Execute(m, ops), op).0
    decreases |ops|
  {
    if ops == [] {
      assert ops + [op] == [op] && [op][1..] == [];
      assert Execute(Apply(m, op).0, []) == Apply(m, op).0;
    } else {
      assert (ops + [op])[1..] == ops[1..] + [op];
      ExecuteSnoc(Apply(m, ops[0]).0, ops[1..], op);
    }
  }

  lemma {:induction false} SplitRun(m: Terms, ops: seq<Op>, op: Op, now: int)
    requires !op.ExpireIfDue?
    ensures WithoutSweeps(ops + [op]) == WithoutSweeps(ops) + [op]
    ensures Monotone(ops + [op], now) ==> Monotone(ops, now) && LastTime(ops, now) <= op.at
    ensures NoOverdueFreeze(m, ops + [op]) ==> NoOverdueFreeze(m, ops)
    decreases |ops|
  {
    if ops == [] {
      assert ops + [op] == [op] && [op][1..] == [];
    } else {
      assert (ops + [op])[1..] == ops[1..] + [op];
      SplitRun(Apply(m, ops[0]).0, ops[1..], op, ops[0].at);
    }
  }

  lemma SplitLast(m: Terms, before: seq<Op>, last: Op, now: int)
    requires !last.ExpireIfDue? && Monotone(before + [last], now)
    requires NoOverdueFreeze(m, WithoutSweeps(before + [last]))
    ensures Monotone(before, now) && LastTime(before, now) <= last.at
    ensures NoOverdueFreeze(m, WithoutSweeps(before))
    ensures Execute(m, before + [last]) == Apply(Execute(m, before), last).0
    ensures Execute(m, WithoutSweeps(before + [last])) == Apply(Execute(m, WithoutSweeps(before)), last).0
  {
    SplitRun(m, before, last, now);
    SplitRun(m, WithoutSweeps(before), last, now);
    ExecuteSnoc(m, before, last);
    ExecuteSnoc(m, WithoutSweeps(before), last);
  }

  /**
    The condition is exact: a freeze acts the same with and without a sweep just
    before it if and only if the membership is not overdue. When it is, the sweep
    makes the freeze fail where otherwise it would revive a lapsed membership.
   */
  lemma FreezeSeesSweepIffOverdue(m: Terms, at: int)
    ensures (Settled(Apply(m, Freeze(at)).0, at) == Settled(Apply(Settled(m, at), Freeze(at)).0, at))
            <==> !m.Overdue(at)
    ensures m.Overdue(at) ==> Apply(m, Freeze(at)).1 && !Apply(Settled(m, at), Freeze(at)).1
  {
  }

  // ---------- the time ledger ----------

  /** Days bought by the renewals that go through. */
  function RenewedDays(m: Terms, ops: seq<Op>): int
    decreases |ops|
  {
    if ops == [] then 0
    else
      (if ops[0].Renew? && Apply(m, ops[0]).1 then Apply(m, ops[0]).0.period.Days() else 0)
      + RenewedDays(Apply(m, ops[0]).0, ops[1..])
  }

  /** Time that lapsed between an end and a later renewal. */
  function LapsedTime(m: Terms, ops: seq<Op>): int
    decreases |ops|
  {
    if ops == [] then 0
    else
      (if ops[0].Renew? && Apply(m, ops[0]).1 then Max(0, ops[0].at - m.endsAt) else 0)
      + LapsedTime(Apply(m, ops[0]).0, ops[1..])
  }

  /** Every second of the end date is accounted for: renewed days, frozen days, lapsed time. */
  lemma {:induction false} TimeLedger(m: Terms, ops: seq<Op>)
    ensures var after := Execute(m, ops);
            after.endsAt == m.endsAt + DAY * RenewedDays(m, ops) + DAY * (after.frozenDaysUsed - m.frozenDaysUsed)
                            + LapsedTime(m, ops)
    ensures Execute(m, ops).startsAt == m.startsAt
    decreases |ops|
  {
    if ops != [] {
      TimeLedger(Apply(m, ops[0]).0, ops[1..]);
    }
  }

  /** From the grant on. */
  lemma GrantedTimeLedger(start: int, period: Period, ops: seq<Op>)
    ensures var m := Execute(Grant(start, period), ops);
            m.endsAt == m.startsAt + DAY * (period.Days() + RenewedDays(Grant(start, period), ops))
                        + DAY * m.frozenDaysUsed + LapsedTime(Grant(start, period), ops)
  {
    TimeLedger(Grant(start, period), ops);
  }

  /** CANCELLED is absorbing and freezes every term of the ledger. */
  lemma {:induction false} CancelledIsFinal(m: Terms, ops: seq<Op>)
    requires m.status.Cancelled?
    ensures Execute(m, ops) == m && RenewedDays(m, ops) == 0 && LapsedTime(m, ops) == 0
    decreases |ops|
  {
    if ops != [] {
      CancelledIsFinal(m, ops[1..]);
    }
  }

  // ---------- freezing ----------

  /** Time spent frozen in the cycles that end in a run, and how many they are. */
  function FrozenTime(m: Terms, ops: seq<Op>): int
    decreases |ops|
  {
    if ops == [] then 0
    else
      (if ops[0].Unfreeze? && m.status.Frozen? && m.frozenAt.Some? then ops[0].at - m.frozenAt.value else 0)
      + FrozenTime(Apply(m, ops[0]).0, ops[1..])
  }

  function Cycles(m: Terms, ops: seq<Op>): nat
    decreases |ops|
  {
    if ops == [] then 0
    else (if ops[0].Unfreeze? && m.status.Frozen? then 1 else 0) + Cycles(Apply(m, ops[0]).0, ops[1..])
  }

  lemma CeilDaysBounds(seconds: int)
    requires seconds >= 0
    ensures 0 <= DAY * CeilDays(seconds) - seconds < DAY
  {
  }

  /** A freeze and its unfreeze never cost paid time, and give away less than a day. */
  lemma FreezeConservesTime(m: Terms, f: int, u: int)
    requires m.status.Active? && f <= u
    ensures var after := Apply(Apply(m, Freeze(f)).0, Unfreeze(u)).0;
            after.status.Active? && 0 <= (after.endsAt - u) - (m.endsAt - f) < DAY
  {
    CeilDaysBounds(u - f);
  }

  /** Over any run, the days credited cover the time frozen and exceed it by less than a day per cycle. */
  lemma {:induction false} FrozenTimeIsCovered(m: Terms, ops: seq<Op>, now: int)
    requires Monotone(ops, now)
    requires m.status.Frozen? ==> m.frozenAt.Some? && m.frozenAt.value <= now
    ensures var credited := DAY * (Execute(m, ops).frozenDaysUsed - m.frozenDaysUsed);
            var n := Cycles(m, ops);
            && FrozenTime(m, ops) <= credited
            && (if n == 0 then credited == 0 == FrozenTime(m, ops) else credited < FrozenTime(m, ops) + n * DAY)
    decreases |ops|
  {
    if ops != [] {
      var next := Apply(m, ops[0]).0;
      if ops[0].Unfreeze? && m.status.Frozen? {
        CeilDaysBounds(ops[0].at - m.frozenAt.value);
      }
      FrozenTimeIsCovered(next, ops[1..], ops[0].at);
    }
  }
}
