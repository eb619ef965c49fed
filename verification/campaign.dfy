/**
  Proactive campaigns. A send is claimed by a row with a unique (tenant, key)
  before it is attempted; any number of scheduler processes run their cycles
  concurrently and may crash between any two steps.
 */
module CampaignClaims {
  import opened Wrappers

  /** What the unique index constrains: tenant and dedupe key. */
  type Claim = (int, string)

  type Proc = nat

  /** Where a process stands with the message it is working on. */
  datatype Phase =
    | Idle
    | Inserted(claim: Claim)
    | Claimed(claim: Claim)
    | Delivered(claim: Claim)

  /** Committed claim rows, with the time of delivery if any; and every attempt to send so far. */
  datatype State = State(
    committed: map<Claim, Option<int>>,
    phases: map<Proc, Phase>,
    attempts: multiset<Claim>
  ) {
    function PhaseOf(p: Proc): Phase { if p in phases then phases[p] else Idle }

    function With(p: Proc, phase: Phase): State { this.(phases := phases[p := phase]) }

    /** Some open transaction has inserted the claim: the unique index makes other inserters wait. */
    predicate Waits(claim: Claim) { exists p :: p in phases && phases[p] == Inserted(claim) }
  }

  datatype Step =
    | Insert(p: Proc, claim: Claim)
    | CommitClaim(p: Proc)
    | Attempt(p: Proc, delivered: bool)
    | GiveUp(p: Proc)
    | MarkSent(p: Proc, now: int)
    | Crash(p: Proc, committed: bool)

  /**
    The next state, or None when the step cannot be taken. Inserting a claim that
    another open transaction has inserted waits; inserting a committed one does
    nothing and the process moves on. A crash during the commit of a claim may or
    may not leave the row behind.
   */
  function Next(s: State, step: Step): Option<State> {
    match step
    case Insert(p, claim) =>
      if !s.PhaseOf(p).Idle? || s.Waits(claim) then None
      else if claim in s.committed then Some(s)
      else Some(s.With(p, Inserted(claim)))
    case CommitClaim(p) =>
      if !s.PhaseOf(p).Inserted? then None
      else
        var claim := s.PhaseOf(p).claim;
        Some(s.With(p, Claimed(claim)).(committed := s.committed[claim := None]))
    case Attempt(p, delivered) =>
      if !s.PhaseOf(p).Claimed? then None
      else
        var claim := s.PhaseOf(p).claim;
        Some(s.With(p, if delivered then Delivered(claim) else Idle).(attempts := s.attempts + multiset{claim}))
    case GiveUp(p) => if !s.PhaseOf(p).Claimed? then None else Some(s.With(p, Idle))
    case MarkSent(p, now) =>
      if !s.PhaseOf(p).Delivered? then None
      else Some(s.With(p, Idle).(committed := s.committed[s.PhaseOf(p).claim := Some(now)]))
    case Crash(p, committed) =>
      var down := s.With(p, Idle);
      if s.PhaseOf(p).Inserted? && committed then
        Some(down.(committed := s.committed[s.PhaseOf(p).claim := None]))
      else Some(down)
  }

  function Execute(s: State, steps: seq<Step>): Option<State>
    decreases |steps|
  {
    if steps == [] then Some(s)
    else
      match Next(s, steps[0])
      case None => None
      case Some(next) => Execute(next, steps[1..])
  }

  /** The claim a process has inserted and not yet attempted. */
  function Holds(phase: Phase): Option<Claim> {
    match phase
    case Inserted(claim) => Some(claim)
    case Claimed(claim) => Some(claim)
    case _ => None
  }

  /** A claim that is still to be attempted belongs to one process. */
  ghost predicate OneHolder(s: State) {
    forall p, q :: Holds(s.PhaseOf(p)).Some? && Holds(s.PhaseOf(q)) == Holds(s.PhaseOf(p)) ==> p == q
  }

  /** What a process is doing agrees with the table and with the attempts made. */
  predicate PhaseAgrees(s: State, p: Proc) {
    match s.PhaseOf(p)
    case Idle => true
    case Inserted(c) => c !in s.committed
    case Claimed(c) => c in s.committed && s.committed[c].None? && s.attempts[c] == 0
    case Delivered(c) => c in s.attempts
  }

  ghost predicate PhasesAgree(s: State) { forall p {:trigger s.PhaseOf(p)} :: PhaseAgrees(s, p) }

  ghost predicate AttemptsClaimed(s: State) {
    && (forall c: Claim :: s.attempts[c] <= 1 && (c in s.attempts ==> c in s.committed))
    && (forall c :: c in s.committed && s.committed[c].Some? ==> c in s.attempts)
  }

  ghost predicate Inv(s: State) { OneHolder(s) && PhasesAgree(s) && AttemptsClaimed(s) }

  /** Only the process of a step changes phase. */
  lemma OthersStay(s: State, step: Step)
    requires Next(s, step).Some?
    ensures forall q :: q != step.p ==> Next(s, step).value.PhaseOf(q) == s.PhaseOf(q)
  {
  }

  lemma HolderStaysOne(s: State, step: Step)
    requires Inv(s) && Next(s, step).Some?
    ensures OneHolder(Next(s, step).value)
  {
    OthersStay(s, step);
  }

  lemma PhasesStayAgreeing(s: State, step: Step)
    requires Inv(s) && Next(s, step).Some?
    ensures PhasesAgree(Next(s, step).value)
  {
    forall p: Proc
      ensures PhaseAgrees(Next(s, step).value, p)
    {
      if p == step.p {
        OwnPhaseAgrees(s, step);
      } else {
        OtherPhaseAgrees(s, step, p);
      }
    }
  }

  lemma OwnPhaseAgrees(s: State, step: Step)
    requires Inv(s) && Next(s, step).Some?
    ensures PhaseAgrees(Next(s, step).value, step.p)
  {
    assert PhaseAgrees(s, step.p);
  }

  lemma OtherPhaseAgrees(s: State, step: Step, p: Proc)
    requires Inv(s) && Next(s, step).Some? && p != step.p
    ensures PhaseAgrees(Next(s, step).value, p)
  {
    OthersStay(s, step);
    assert PhaseAgrees(s, p) && PhaseAgrees(s, step.p);
    assert Holds(s.PhaseOf(p)).Some? ==> Holds(s.PhaseOf(p)) != Holds(s.PhaseOf(step.p));
  }

  lemma AttemptsStayClaimed(s: State, step: Step)
    requires Inv(s) && Next(s, step).Some?
    ensures AttemptsClaimed(Next(s, step).value)
  {
    assert PhaseAgrees(s, step.p);
  }

  lemma StepKeeps(s: State, step: Step)
    requires Inv(s) && Next(s, step).Some?
    ensures Inv(Next(s, step).value)
    ensures s.attempts <= Next(s, step).value.attempts
  {
    HolderStaysOne(s, step);
    PhasesStayAgreeing(s, step);
    AttemptsStayClaimed(s, step);
  }

  /**
    In every interleaving, with crashes anywhere, each message is attempted at most
    once, only under a committed claim, and marked as sent only if it was attempted.
   */
  lemma {:induction false} AtMostOnce(s: State, steps: seq<Step>)
    requires Inv(s) && Execute(s, steps).Some?
    ensures var end := Execute(s, steps).value;
            && (forall c: Claim :: end.attempts[c] <= 1 && (c in end.attempts ==> c in end.committed))
            && (forall c :: c in end.committed && end.committed[c].Some? ==> c in end.attempts)
            && s.attempts <= end.attempts
            && Inv(end)
    decreases |steps|
  {
    if steps != [] {
      StepKeeps(s, steps[0]);
      AtMostOnce(Next(s, steps[0]).value, steps[1..]);
    }
  }

  /** A claim row is never given back, and a sent_at never taken back, however a process ends. */
  lemma {:induction false} ClaimsStay(s: State, steps: seq<Step>, claim: Claim)
    requires Inv(s) && Execute(s, steps).Some? && claim in s.committed
    ensures claim in Execute(s, steps).value.committed
    ensures s.committed[claim].Some? ==> Execute(s, steps).value.committed[claim].Some?
    decreases |steps|
  {
    if steps != [] {
      StepKeeps(s, steps[0]);
      ClaimsStay(Next(s, steps[0]).value, steps[1..], claim);
    }
  }

  /** An insert waits for another open one of the same claim, moves on from a committed claim, and else holds it. */
  lemma InsertIsExact(s: State, p: Proc, claim: Claim)
    requires s.PhaseOf(p) == Idle
    ensures Next(s, Insert(p, claim)) ==
            if exists q :: q in s.phases && s.phases[q] == Inserted(claim) then None
            else if claim in s.committed then Some(s)
            else Some(s.(phases := s.phases[p := Inserted(claim)]))
  {
  }

  /** A crash leaves a claim row behind only if it strikes the commit of one after the database has done it. */
  lemma CrashIsExact(s: State, p: Proc, committed: bool)
    ensures var next := Next(s, Crash(p, committed)).value;
            && next.PhaseOf(p) == Idle && next.attempts == s.attempts
            && next.committed == if committed && s.PhaseOf(p).Inserted? then s.committed[s.PhaseOf(p).claim := None]
                                 else s.committed
  {
  }

  /** Nothing is running and nothing was sent: the start of every deployment. */
  lemma FreshStartIsSafe()
    ensures Inv(State(map[], map[], multiset{}))
  {
    var s := State(map[], map[], multiset{});
    forall p: Proc
      ensures PhaseAgrees(s, p)
    {
    }
  }

  /** A failed attempt is final: from any reachable state on, an attempted message is never attempted again. */
  lemma NeverRetried(s: State, steps: seq<Step>, claim: Claim)
    requires Inv(s) && Execute(s, steps).Some? && claim in s.attempts
    ensures Execute(s, steps).value.attempts[claim] == s.attempts[claim] == 1
  {
    AtMostOnce(s, steps);
  }

  /** The claims whose message the channel took during a run. */
  function Deliveries(s: State, steps: seq<Step>): set<Claim>
    decreases |steps|
  {
    if steps == [] || Next(s, steps[0]).None? then {}
    else
      var step := steps[0];
      (if step.Attempt? && step.delivered && s.PhaseOf(step.p).Claimed? then {s.PhaseOf(step.p).claim} else {})
      + Deliveries(Next(s, step).value, steps[1..])
  }

  /** Whatever is marked as sent, or about to be, has been delivered. */
  ghost predicate SentOnly(s: State, delivered: set<Claim>) {
    && (forall p :: s.PhaseOf(p).Delivered? ==> s.PhaseOf(p).claim in delivered)
    && (forall c :: c in s.committed && s.committed[c].Some? ==> c in delivered)
  }

  /** A row gets a sent_at only for a message the channel took: a failed or abandoned attempt leaves it without. */
  lemma {:induction false} SentMeansDelivered(s: State, steps: seq<Step>, delivered: set<Claim>)
    requires SentOnly(s, delivered) && Execute(s, steps).Some?
    ensures SentOnly(Execute(s, steps).value, delivered + Deliveries(s, steps))
    decreases |steps|
  {
    if steps != [] {
      var step := steps[0];
      var took := step.Attempt? && step.delivered && s.PhaseOf(step.p).Claimed?;
      var now := if took then {s.PhaseOf(step.p).claim} else {};
      SentStep(s, step, delivered);
      SentMeansDelivered(Next(s, step).value, steps[1..], delivered + now);
      assert delivered + now + Deliveries(Next(s, step).value, steps[1..]) == delivered + Deliveries(s, steps);
    } else {
      assert delivered + Deliveries(s, steps) == delivered;
    }
  }

  lemma SentStep(s: State, step: Step, delivered: set<Claim>)
    requires SentOnly(s, delivered) && Next(s, step).Some?
    ensures SentOnly(Next(s, step).value,
                     delivered + if step.Attempt? && step.delivered && s.PhaseOf(step.p).Claimed?
                                 then {s.PhaseOf(step.p).claim} else {})
  {
    OthersStay(s, step);
  }

  /** Only an attempt attempts, and it attempts the message its process has claimed. */
  lemma OnlyAttemptsAttempt(s: State, step: Step)
    requires Next(s, step).Some?
    ensures Next(s, step).value.attempts
         == s.attempts + if step.Attempt? then multiset{s.PhaseOf(step.p).claim} else multiset{}
  {
  }

  lemma ExecuteStep(s: State, step: Step, rest: seq<Step>)
    ensures Execute(s, [step] + rest)
         == match Next(s, step) case None => None case Some(next) => Execute(next, rest)
  {
    assert ([step] + rest)[1..] == rest;
  }

  /** Whatever other processes are at, a process alone with an unclaimed message claims, delivers and marks it. */
  lemma UndisturbedDelivers(s: State, p: Proc, claim: Claim, now: int)
    requires s.PhaseOf(p).Idle? && !s.Waits(claim) && claim !in s.committed
    ensures var end := Execute(s, [Insert(p, claim)]
                                  + ([CommitClaim(p)] + ([Attempt(p, true)] + ([MarkSent(p, now)] + []))));
            && end.Some?
            && end.value.attempts == s.attempts + multiset{claim}
            && end.value.committed == s.committed[claim := Some(now)]
  {
    var a := s.With(p, Inserted(claim));
    assert Next(s, Insert(p, claim)) == Some(a);
    var b := Next(a, CommitClaim(p)).value;
    var c := Next(b, Attempt(p, true)).value;
    ExecuteStep(c, MarkSent(p, now), []);
    ExecuteStep(b, Attempt(p, true), [MarkSent(p, now)] + []);
    ExecuteStep(a, CommitClaim(p), [Attempt(p, true)] + ([MarkSent(p, now)] + []));
    ExecuteStep(s, Insert(p, claim), [CommitClaim(p)] + ([Attempt(p, true)] + ([MarkSent(p, now)] + [])));
  }
}

/** The loop of one campaign cycle and its cap on messages per business. */
module CampaignCycle {
  import opened Wrappers
  import opened Arithmetic
  import opened Sequences

  /** A candidate: its business, if one is found, and whether a message to it would go out. */
  datatype Candidate = Candidate(business: Option<int>, goesOut: bool)

  /** Candidates of a business whose message would go out. */
  function Deliverable(candidates: seq<Candidate>, business: int): nat {
    if candidates == [] then 0
    else
      var last := candidates[|candidates| - 1];
      Deliverable(candidates[..|candidates| - 1], business)
      + if last.business == Some(business) && last.goesOut then 1 else 0
  }

  /** The messages that went out for one business, given which candidates were tried. */
  function SentTo(candidates: seq<Candidate>, tried: seq<bool>, business: int): nat
    requires |tried| == |candidates|
  {
    if candidates == [] then 0
    else
      var n := |candidates| - 1;
      SentTo(candidates[..n], tried[..n], business)
      + if tried[n] && candidates[n].business == Some(business) && candidates[n].goesOut then 1 else 0
  }

  function AllSent(candidates: seq<Candidate>, tried: seq<bool>): nat
    requires |tried| == |candidates|
  {
    if candidates == [] then 0
    else
      var n := |candidates| - 1;
      AllSent(candidates[..n], tried[..n]) + if tried[n] && candidates[n].goesOut then 1 else 0
  }

  /** A candidate is tried iff fewer than cap earlier candidates of its business could be delivered to. */
  predicate RightlyTried(candidates: seq<Candidate>, tried: seq<bool>, cap: int) {
    && |tried| == |candidates|
    && forall i :: 0 <= i < |candidates| ==>
         (tried[i] <==> candidates[i].business.Some?
                        && Deliverable(candidates[..i], candidates[i].business.value) < cap)
  }

  method RunCycle(candidates: seq<Candidate>, cap: int) returns (sent: nat, tried: seq<bool>)
    ensures RightlyTried(candidates, tried, cap)
    ensures sent == AllSent(candidates, tried)
  {
    sent, tried := 0, [];
    var perBusiness: map<int, int> := map[];
    var i := 0;
    while i < |candidates|
      invariant 0 <= i <= |candidates| && |tried| == i
      invariant forall j :: 0 <= j < i ==>
                  (tried[j] <==> candidates[j].business.Some?
                                 && Deliverable(candidates[..j], candidates[j].business.value) < cap)
      invariant sent == AllSent(candidates[..i], tried)
      invariant forall b: int :: (if b in perBusiness then perBusiness[b] else 0) ==
                                 if cap <= 0 then 0 else Min(cap, Deliverable(candidates[..i], b))
    {
      var c := candidates[i];
      PrefixOfPrefix(candidates, i);
      var go := false;
      if c.business.Some? {
        var b := c.business.value;
        var already := if b in perBusiness then perBusiness[b] else 0;
        go := already < cap;
        if go && c.goesOut {
          sent := sent + 1;
          perBusiness := perBusiness[b := already + 1];
        }
      }
      assert (tried + [go])[..i] == tried;
      tried := tried + [go];
      i := i + 1;
    }
    PrefixAll(candidates);
  }

  lemma PrefixOfPrefix(s: seq<Candidate>, i: nat)
    requires i < |s|
    ensures |s[..i + 1]| == i + 1 && s[..i + 1][..i] == s[..i] && s[..i + 1][i] == s[i]
  {
  }

  /** A cycle sends each business exactly as many messages as could go out, up to the cap. */
  lemma {:induction false} CapIsExact(candidates: seq<Candidate>, tried: seq<bool>, cap: int, business: int)
    requires RightlyTried(candidates, tried, cap)
    ensures SentTo(candidates, tried, business) == Min(if cap <= 0 then 0 else cap, Deliverable(candidates, business))
  {
    if candidates != [] {
      var n := |candidates| - 1;
      assert forall i :: 0 <= i < n ==> candidates[..n][..i] == candidates[..i];
      CapIsExact(candidates[..n], tried[..n], cap, business);
    }
  }
}
