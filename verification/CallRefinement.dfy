/**
 The retry loop is the request of the protocol. Every execution of the loop, with whatever the
 network and the partner did to its attempts, is a run of the protocol's steps that concludes
 with the loop's outcome; and every list of attempts the protocol allows a request is one the
 loop makes for some breaker and clock.
 */
module CallRefinement {
  import opened Wrappers
  import opened Partner
  import opened Protocol
  import opened TransferState
  import opened Conservation
  import opened ProtocolInvariant
  import opened FirstTransfer
  import opened ReversalLimits
  import Resilience

  /**
   What became of one attempt: no connection, no answer in time, or an answer received. In each
   case the partner may have handled messages meanwhile, late ones of earlier attempts included.
   */
  datatype Passage =
    | Unreached(deliveries: seq<Step>)
    | Silent(deliveries: seq<Step>)
    | Heard(deliveries: seq<Step>)

  function StepsOf(g: Passage, id: nat): seq<Step> {
    match g
    case Unreached(d) => d + [CannotConnect(id)]
    case Silent(d) => [Send(id)] + d + [GiveUpWaiting(id)]
    case Heard(d) => [Send(id)] + d + [Receive(id)]
  }

  function Script(passages: seq<Passage>, id: nat): seq<Step> {
    if passages == [] then []
    else Script(passages[..|passages| - 1], id) + StepsOf(passages[|passages| - 1], id)
  }

  predicate AreDeliveries(steps: seq<Step>, id: nat) {
    forall i :: 0 <= i < |steps| ==> steps[i].Deliver? && steps[i].id == id
  }

  function Sent(l: Lane): Lane
    requires l.caller.Ready?
  {
    l.(caller := Waiting(l.caller.job, l.caller.outcomes),
       wire := l.wire[|l.caller.outcomes| := l.caller.job],
       contacted := true)
  }

  /** From lane `l` the network can do this, and the adapter then classifies it as `o`. */
  predicate Explains(c: Config, l: Lane, id: nat, g: Passage, o: Outcome) {
    && l.caller.Ready? && AreDeliveries(g.deliveries, id)
    && match g
       case Unreached(d) => LaneRun(c, l, d).Some? && o == ClassifyCredit(ConnectFailed).outcome
       case Silent(d) => LaneRun(c, Sent(l), d).Some? && o == ClassifyCredit(NoResponse).outcome
       case Heard(d) =>
         var m := LaneRun(c, Sent(l), d);
         && m.Some? && |l.caller.outcomes| in m.value.replies
         && o == ClassifyCredit(Replied(m.value.replies[|l.caller.outcomes|])).outcome
  }

  /** What the network did explains the outcome of each attempt, once the request gets to it. */
  predicate AllExplained(c: Config, l: Lane, id: nat, passages: seq<Passage>, outcomes: seq<Outcome>) {
    && |passages| == |outcomes|
    && forall i :: 0 <= i < |passages| ==>
                     var m := LaneRun(c, l, Script(passages[..i], id));
                     m.Some? && m.value.caller.Ready? ==> Explains(c, m.value, id, passages[i], outcomes[i])
  }

  // ---------------------------------------------------------------- one attempt

  lemma {:induction false} LaneRunConcat(c: Config, l: Lane, x: seq<Step>, m: Lane, y: seq<Step>)
    requires LaneRun(c, l, x) == Some(m)
    ensures LaneRun(c, l, x + y) == LaneRun(c, m, y)
    decreases |x|
  {
    hide LaneNext;
    if x == [] {
      assert x + y == y;
    } else {
      assert (x + y)[1..] == x[1..] + y;
      LaneRunConcat(c, LaneNext(c, l, x[0]).value, x[1..], m, y);
    }
  }

  lemma {:induction false} LaneRunOne(c: Config, l: Lane, step: Step)
    ensures LaneRun(c, l, [step]) == LaneNext(c, l, step)
  {
    hide LaneNext;
    assert [step][1..] == [];
    assert forall n :: LaneRun(c, n, []) == Some(n);
  }

  /** The partner never moves the request. */
  lemma {:induction false} DeliveriesKeepCaller(c: Config, l: Lane, steps: seq<Step>, id: nat)
    requires AreDeliveries(steps, id) && LaneRun(c, l, steps).Some?
    ensures LaneRun(c, l, steps).value.caller == l.caller
    decreases |steps|
  {
    if steps != [] {
      DeliveriesKeepCaller(c, LaneNext(c, l, steps[0]).value, steps[1..], id);
    }
  }

  /** An attempt that the request may make, explained by the network, is a run of protocol steps. */
  lemma {:induction false} AttemptIsARun(c: Config, l: Lane, id: nat, g: Passage, o: Outcome) returns (m: Lane)
    requires Explains(c, l, id, g, o) && MaySend(c, l.caller.outcomes)
    ensures LaneRun(c, l, StepsOf(g, id)) == Some(m)
    ensures m.caller == Ready(l.caller.job, l.caller.outcomes + [o])
    ensures ConcernsLane(StepsOf(g, id), id)
  {
    hide LaneRun;
    var from, last := if g.Unreached? then l else Sent(l), CannotConnect(id);
    if !g.Unreached? {
      last := if g.Silent? then GiveUpWaiting(id) else Receive(id);
      LaneRunOne(c, l, Send(id));
      LaneRunConcat(c, l, [Send(id)], from, g.deliveries);
    }
    var before := if g.Unreached? then g.deliveries else [Send(id)] + g.deliveries;
    var ready := LaneRun(c, from, g.deliveries).value;
    DeliveriesKeepCaller(c, from, g.deliveries, id);
    LaneRunConcat(c, l, before, ready, [last]);
    LaneRunOne(c, ready, last);
    m := LaneNext(c, ready, last).value;
    assert StepsOf(g, id) == before + [last];
  }

  // ---------------------------------------------------------------- the whole loop

  /** What the request has seen when it may go on to attempt `n`. */
  lemma {:induction false} LoopMaySend(c: Config, k: Resilience.Limits, b: Resilience.Breaker, deadline: int,
      turns: seq<Resilience.Turn<CallResult>>, n: nat, i: nat)
    requires c.maxCalls <= |turns| && forall j :: 0 <= j < |turns| ==> WellBehaved(Resilience.CreditResult(turns[j]))
    requires Resilience.MakesAttempts(k, b, deadline, c.maxCalls, Resilience.CreditPasses(turns), n) && i < n
    ensures MaySend(c, Resilience.Outcomes(turns[..n])[..i])
  {
    var passes, outcomes := Resilience.CreditPasses(turns), Resilience.Outcomes(turns[..n])[..i];
    assert Resilience.ComesToPass(deadline, c.maxCalls, passes, i);
    if i > 0 {
      assert outcomes[i - 1] == Resilience.CreditResult(turns[i - 1]).outcome;
    }
  }

  lemma {:induction false} NothingRuns(c: Config, l: Lane)
    ensures LaneRun(c, l, []) == Some(l)
  {
  }

  lemma {:induction false} AttemptIsExplained(c: Config, l: Lane, id: nat, passages: seq<Passage>,
      outcomes: seq<Outcome>, i: nat, m: Lane)
    requires AllExplained(c, l, id, passages, outcomes) && i < |passages| && i < |outcomes|
    requires LaneRun(c, l, Script(passages[..i], id)) == Some(m) && m.caller.Ready?
    ensures Explains(c, m, id, passages[i], outcomes[i])
  {
    hide Explains, LaneRun;
  }

  lemma {:induction false} AttemptsAreARun(c: Config, l: Lane, id: nat, passages: seq<Passage>, outcomes: seq<Outcome>,
      i: nat) returns (m: Lane)
    requires l.caller.Ready? && l.caller.outcomes == [] && i <= |outcomes|
    requires AllExplained(c, l, id, passages, outcomes)
    requires forall j :: 0 <= j < |outcomes| ==> MaySend(c, outcomes[..j])
    ensures LaneRun(c, l, Script(passages[..i], id)) == Some(m) && ConcernsLane(Script(passages[..i], id), id)
    ensures m.caller == Ready(l.caller.job, outcomes[..i])
  {
    hide MaySend, Explains, AllExplained, StepsOf, LaneRun;
    if i == 0 {
      m := l;
      NothingRuns(c, l);
    } else {
      ExplainedLength(c, l, id, passages, outcomes);
      var before := AttemptsAreARun(c, l, id, passages, outcomes, i - 1);
      AttemptIsExplained(c, l, id, passages, outcomes, i - 1, before);
      m := AttemptIsARun(c, before, id, passages[i - 1], outcomes[i - 1]);
      LaneRunConcat(c, l, Script(passages[..i - 1], id), before, StepsOf(passages[i - 1], id));
      assert passages[..i][..i - 1] == passages[..i - 1];
      assert outcomes[..i] == outcomes[..i - 1] + [outcomes[i - 1]];
    }
  }

  /**
   Every execution of the retry loop is a run of the protocol: in any state where the request is
   ready for its first attempt, if the loop makes `n` attempts and the network explains their
   outcomes, the steps of those attempts and a Conclude are possible, concern this request alone
   and leave it concluded with the outcome the loop returns.
   */
  lemma {:induction false} LoopIsARun(c: Config, s: State, id: nat, k: Resilience.Limits, b: Resilience.Breaker,
      deadline: int, turns: seq<Resilience.Turn<CallResult>>, n: nat, passages: seq<Passage>) returns (m: Lane)
    requires id < |s.lanes| && s.lanes[id].caller.Ready? && s.lanes[id].caller.outcomes == []
    requires c.maxCalls <= |turns| && forall j :: 0 <= j < |turns| ==> WellBehaved(Resilience.CreditResult(turns[j]))
    requires Resilience.MakesAttempts(k, b, deadline, c.maxCalls, Resilience.CreditPasses(turns), n)
    requires AllExplained(c, s.lanes[id], id, passages, Resilience.Outcomes(turns[..n]))
    ensures Run(c, s, Script(passages, id) + [Conclude(id)]) == Some(WithLane(s, id, m))
    ensures m.caller == Concluded(FinalOutcome(Resilience.Outcomes(turns[..n])))
  {
    var outcomes, l := Resilience.Outcomes(turns[..n]), s.lanes[id];
    hide LaneRun, Resilience.MakesAttempts, Resilience.Outcomes, MaySend, AllExplained, Run, ConcernsLane, Script;
    forall i | 0 <= i < |outcomes|
      ensures MaySend(c, outcomes[..i])
    {
      OutcomesLength(turns, n);
      LoopMaySend(c, k, b, deadline, turns, n, i);
    }
    m := AttemptsConclude(c, l, id, passages, outcomes);
    LaneRunIsRun(c, s, id, l, Script(passages, id) + [Conclude(id)]);
    assert WithLane(s, id, l) == s;
  }

  lemma {:induction false} OutcomesLength(turns: seq<Resilience.Turn<CallResult>>, n: nat)
    requires n <= |turns|
    ensures |Resilience.Outcomes(turns[..n])| == n
  {
  }

  lemma {:induction false} AttemptsConclude(c: Config, l: Lane, id: nat, passages: seq<Passage>, outcomes: seq<Outcome>)
    returns (m: Lane)
    requires l.caller.Ready? && l.caller.outcomes == []
    requires AllExplained(c, l, id, passages, outcomes)
    requires forall j :: 0 <= j < |outcomes| ==> MaySend(c, outcomes[..j])
    ensures LaneRun(c, l, Script(passages, id) + [Conclude(id)]) == Some(m)
    ensures ConcernsLane(Script(passages, id) + [Conclude(id)], id)
    ensures m.caller == Concluded(FinalOutcome(outcomes))
  {
    hide LaneRun, MaySend, AllExplained, Script;
    ExplainedLength(c, l, id, passages, outcomes);
    var ready := AttemptsAreARun(c, l, id, passages, outcomes, |outcomes|);
    assert passages[..|passages|] == passages && outcomes[..|outcomes|] == outcomes;
    LaneRunSnoc(c, l, Script(passages, id), ready, Conclude(id));
    m := LaneNext(c, ready, Conclude(id)).value;
  }

  lemma {:induction false} ExplainedLength(c: Config, l: Lane, id: nat, passages: seq<Passage>, outcomes: seq<Outcome>)
    requires AllExplained(c, l, id, passages, outcomes)
    ensures |passages| == |outcomes|
  {
  }

  // ---------------------------------------------------------------- and nothing but the loop

  /** The attempts the protocol lets a request make before it concludes. */
  predicate MayHappen(c: Config, outcomes: seq<Outcome>) {
    |outcomes| <= c.maxCalls && forall j :: 0 <= j < |outcomes| ==> MaySend(c, outcomes[..j])
  }

  /** An attempt with this outcome, made at instant 0 just after another request closed the breaker. */
  function TurnFor(o: Outcome): Resilience.Turn<CallResult> {
    Resilience.Turn([Resilience.Succeed], 0, 0, [], Resilience.Returns(CallResult(o, !Definite(o))), 0, 0, 0)
  }

  /** A pass that the deadline of 1 cuts off. */
  const TooLate :=
    Resilience.Turn([Resilience.Succeed], 0, 1, [], Resilience.Returns(CallResult(Unknown, true)), 1, 1, 0)

  function TurnsFor(c: Config, outcomes: seq<Outcome>): seq<Resilience.Turn<CallResult>>
    requires |outcomes| <= c.maxCalls
  {
    seq(c.maxCalls, i requires 0 <= i < c.maxCalls => if i < |outcomes| then TurnFor(outcomes[i]) else TooLate)
  }

  lemma {:induction false} SuccessCloses(k: Resilience.Limits, b: Resilience.Breaker, passes: seq<Resilience.Pass>,
      i: nat)
    requires i < |passes| && passes[i].others == [Resilience.Succeed]
    ensures Resilience.Admitted(k, b, passes, i)
  {
    var before := Resilience.CallsOf(passes[..i]);
    Resilience.AfterAllConcat(k, b, before, [Resilience.Succeed]);
    Resilience.AfterOne(k, Resilience.AfterAll(k, b, before), Resilience.Succeed);
  }

  /** Whatever attempts the protocol allows, the loop makes exactly those for some clock and interference. */
  lemma {:induction false} AllowedAttemptsAreALoop(c: Config, k: Resilience.Limits, b: Resilience.Breaker,
      outcomes: seq<Outcome>)
    requires MayHappen(c, outcomes)
    ensures var turns := TurnsFor(c, outcomes);
            && (forall j :: 0 <= j < |turns| ==> WellBehaved(Resilience.CreditResult(turns[j])))
            && Resilience.MakesAttempts(k, b, 1, c.maxCalls, Resilience.CreditPasses(turns), |outcomes|)
            && Resilience.Outcomes(turns[..|outcomes|]) == outcomes
  {
    var turns, n := TurnsFor(c, outcomes), |outcomes|;
    var passes := Resilience.CreditPasses(turns);
    forall i | 0 <= i < n
      ensures Resilience.Starts(k, b, 1, passes, i) && Resilience.ComesToPass(1, c.maxCalls, passes, i)
    {
      SuccessCloses(k, b, passes, i);
      assert MaySend(c, outcomes[..i]);
      if i > 0 { assert outcomes[..i][i - 1] == outcomes[i - 1]; }
    }
  }

  // ---------------------------------------------------------------- a throttled call

  predicate AllNotSent(outcomes: seq<Outcome>) {
    forall i :: 0 <= i < |outcomes| ==> outcomes[i] == NotSent
  }

  /** One more attempt that the partner throttles. */
  lemma {:induction false} ThrottledAttempt(c: Config, l: Lane, id: nat) returns (m: Lane)
    requires l.caller.Ready? && MaySend(c, l.caller.outcomes) && l.wire == map[]
    ensures var n := |l.caller.outcomes|;
            LaneRun(c, l, [Send(id), Deliver(id, n, Throttles), Receive(id)]) == Some(m)
    ensures m.caller == Ready(l.caller.job, l.caller.outcomes + [NotSent]) && m.wire == map[] && m.credits == l.credits
  {
    hide LaneRun;
    var n := |l.caller.outcomes|;
    var l1 := LaneNext(c, l, Send(id)).value;
    var l2 := LaneNext(c, l1, Deliver(id, n, Throttles)).value;
    m := LaneNext(c, l2, Receive(id)).value;
    LaneRunOne(c, l, Send(id));
    LaneRunSnoc(c, l, [Send(id)], l1, Deliver(id, n, Throttles));
    LaneRunSnoc(c, l, [Send(id)] + [Deliver(id, n, Throttles)], l2, Receive(id));
    assert [Send(id)] + [Deliver(id, n, Throttles)] + [Receive(id)]
        == [Send(id), Deliver(id, n, Throttles), Receive(id)];
    assert m.wire.Keys == {};
  }

  lemma {:induction false} ThrottledAttempts(c: Config, l: Lane, id: nat, n: nat) returns (steps: seq<Step>, m: Lane)
    requires l.caller.Ready? && l.caller.outcomes == [] && l.wire == map[] && n <= c.maxCalls
    ensures LaneRun(c, l, steps) == Some(m) && ConcernsLane(steps, id)
    ensures m.caller.Ready? && |m.caller.outcomes| == n && AllNotSent(m.caller.outcomes)
    ensures m.wire == map[] && m.credits == l.credits
  {
    if n == 0 {
      steps, m := [], l;
    } else {
      var before, ready := ThrottledAttempts(c, l, id, n - 1);
      m := ThrottledAttempt(c, ready, id);
      var last := [Send(id), Deliver(id, n - 1, Throttles), Receive(id)];
      hide LaneRun;
      LaneRunConcat(c, l, before, ready, last);
      steps := before + last;
    }
  }

  /**
   A call whose attempts, however many, were all throttled concludes NOT_SENT, and recording that
   reverses the transfer at once as PARTNER_UNAVAILABLE.
   */
  lemma {:induction false} ThrottledCallIsReversed(c: Config, opening: seq<int>, s: State, id: nat, n: nat)
    returns (steps: seq<Step>, later: State)
    requires Inv(c, opening, s) && JustSubmitted(s, id) && n <= c.maxCalls
    ensures Run(c, s, steps) == Some(later)
    ensures HasStatus(later, id, Reversed) && later.db.transfers[id].failureCode == Some(PartnerUnavailable)
  {
    hide DbInv, LaneOk, Run, LaneRun, Database.ApplyOutcome;
    var l := s.lanes[id];
    var attempts, ready := ThrottledAttempts(c, l, id, n);
    LaneRunSnoc(c, l, attempts, ready, Conclude(id));
    var concluded := LaneNext(c, ready, Conclude(id)).value;
    assert concluded.caller == Concluded(NotSent);
    LaneRunIsRun(c, s, id, l, attempts + [Conclude(id)]);
    assert WithLane(s, id, l) == s;
    var m := WithLane(s, id, concluded);
    OutcomeSucceeds(c.policy, opening, m.db, id, NotSent, c.verificationDelay, m.now);
    RunSnoc(c, s, attempts + [Conclude(id)], m, Record(id, m.now));
    steps := attempts + [Conclude(id)] + [Record(id, m.now)];
    later := Next(c, m, Record(id, m.now)).value;
  }
}
