/**
 Where the safety of reversals ends, exactly. A reversal on a NOT_FOUND is safe if and only if
 the timing hypotheses are adequate; a reversal on a REJECTED is safe on its own if and only if
 no attempt of the call was UNKNOWN; and a reversal in a given state stands for ever if and
 only if nothing of its reference is under way or can still be sent.
 */
module ReversalLimits {
  import opened Wrappers
  import opened Partner
  import opened TransferState
  import opened Database
  import opened Conservation
  import opened Reconciliation
  import opened Protocol
  import opened ProtocolInvariant
  import opened ProtocolSafety
  import opened FirstTransfer

  /** A message of this reference is under way, or its request can still send one. */
  predicate Live(c: Config, l: Lane) {
    || l.wire != map[]
    || (l.caller.Ready? && MaySend(c, l.caller.outcomes))
    || (l.caller.Waiting? && |l.caller.outcomes| + 1 < c.maxCalls)
  }

  /** No credit, and nothing that could still bring one. */
  predicate Dead(c: Config, s: State, id: nat) {
    && id < |s.lanes| && id < |s.db.transfers|
    && s.lanes[id].credits == map[] && !Live(c, s.lanes[id])
    && (s.lanes[id].caller.Debited? ==> s.db.transfers[id].status == Reversed)
  }

  /** What a step can do to the lane of transfer `id`. */
  lemma {:induction false} LaneAfterStep(c: Config, s: State, step: Step, id: nat)
    requires Next(c, s, step).Some? && id < |s.lanes|
    ensures id < |Next(c, s, step).value.lanes|
    ensures var l, m := s.lanes[id], Next(c, s, step).value.lanes[id];
            || m == l
            || m == l.(caller := Gone)
            || (IsCallerStep(step) && CallerStep(c, l, step) == Some(m))
            || (step.Deliver? && step.attempt in l.wire && Handle(l, step.attempt, step.how) == Some(m))
            || (step == Submit(id) && l.caller.Debited? && MarkSubmitted(s.db, id, s.now).Ok?
                && m == l.(caller := Ready(l.caller.job, [])))
  {
    hide DebitSource, MarkSubmitted, ApplyOutcome, ReverseInterrupted, ApplyAnswer, ClaimRows, Handle, CallerStep;
  }

  lemma {:induction false} StepKeepsDead(c: Config, opening: seq<int>, s: State, step: Step, id: nat)
    requires Inv(c, opening, s) && Next(c, s, step).Some? && Dead(c, s, id)
    ensures Dead(c, Next(c, s, step).value, id)
  {
    hide DbInv, LaneOk, Next;
    if s.db.transfers[id].status == Reversed {
      StepKeepsFinalRow(c, opening, s, step, id);
    }
    NextKeepsInv(c, opening, s, step);
    LaneAfterStep(c, s, step, id);
  }

  lemma {:induction false} RunKeepsDead(c: Config, opening: seq<int>, s: State, steps: seq<Step>, id: nat)
    requires Inv(c, opening, s) && Run(c, s, steps).Some? && Dead(c, s, id)
    ensures Dead(c, Run(c, s, steps).value, id)
    decreases |steps|
  {
    hide Inv, Next, Dead;
    if steps != [] {
      NextKeepsInv(c, opening, s, steps[0]);
      StepKeepsDead(c, opening, s, steps[0], id);
      RunKeepsDead(c, opening, Next(c, s, steps[0]).value, steps[1..], id);
    }
  }

  const Accepts := Processes("confirmed", None, false)

  const Declines := Processes("", Some(422), false)

  lemma {:induction false} DeliveryCredits(c: Config, s: State, id: nat, attempt: nat)
    requires id < |s.lanes| && attempt in s.lanes[id].wire && s.lanes[id].credits == map[]
    ensures Next(c, s, Deliver(id, attempt, Accepts)).Some?
    ensures Credited(Next(c, s, Deliver(id, attempt, Accepts)).value, id)
    ensures Next(c, s, Deliver(id, attempt, Accepts)).value.db == s.db
  {
    var l, s' := s.lanes[id], Next(c, s, Deliver(id, attempt, Accepts)).value;
    assert l.wire[attempt].partner in s'.lanes[id].credits;
  }

  /** A live, uncredited lane can be driven to a credit. */
  lemma {:induction false} LiveLaneCanBeCredited(c: Config, s: State, id: nat) returns (steps: seq<Step>)
    requires id < |s.lanes| && s.lanes[id].credits == map[] && Live(c, s.lanes[id])
    ensures Run(c, s, steps).Some? && Credited(Run(c, s, steps).value, id)
  {
    var l := s.lanes[id];
    assert Run(c, s, []) == Some(s);
    if l.wire != map[] {
      var k :| k in l.wire;
      DeliveryCredits(c, s, id, k);
      RunSnoc(c, s, [], s, Deliver(id, k, Accepts));
      steps := [] + [Deliver(id, k, Accepts)];
    } else {
      var ready, prefix := s, [];
      if l.caller.Waiting? {
        prefix := [] + [GiveUpWaiting(id)];
        RunSnoc(c, s, [], s, GiveUpWaiting(id));
        ready := Next(c, s, GiveUpWaiting(id)).value;
      }
      var n := |ready.lanes[id].caller.outcomes|;
      var sent := Next(c, ready, Send(id)).value;
      RunSnoc(c, s, prefix, ready, Send(id));
      DeliveryCredits(c, sent, id, n);
      RunSnoc(c, s, prefix + [Send(id)], sent, Deliver(id, n, Accepts));
      steps := prefix + [Send(id)] + [Deliver(id, n, Accepts)];
    }
  }

  /** No continuation ever brings a credit. */
  ghost predicate NeverCredited(c: Config, s: State, id: nat) {
    forall more :: Run(c, s, more).Some? ==> !Credited(Run(c, s, more).value, id)
  }

  lemma {:induction false} CreditRefutes(c: Config, s: State, id: nat, more: seq<Step>)
    requires Run(c, s, more).Some? && Credited(Run(c, s, more).value, id)
    ensures !NeverCredited(c, s, id)
  {
    hide Run;
  }

  /**
   The exact condition on a state: a reversal stands for ever, whatever the network and the
   partner do, if and only if no credit exists, no message is under way and no request can
   send one.
   */
  lemma {:induction false} ReversalStandsIff(c: Config, s0: State, steps: seq<Step>, s: State, id: nat)
    requires Reached(c, s0, steps, s) && HasStatus(s, id, Reversed)
    ensures NeverCredited(c, s, id) <==> !Credited(s, id) && id < |s.lanes| && !Live(c, s.lanes[id])
  {
    hide DbInv, Next, LaneOk, Live, Run;
    var opening := Opening(s0.db);
    ReachedHasInv(c, s0, steps, s);
    if Credited(s, id) {
      var none := Stay(c, Hypotheses(0, 0), s);
      CreditRefutes(c, s, id, none);
    } else if Live(c, s.lanes[id]) {
      var more := LiveLaneCanBeCredited(c, s, id);
      CreditRefutes(c, s, id, more);
    } else {
      forall more | Run(c, s, more).Some?
        ensures !Credited(Run(c, s, more).value, id)
      {
        RunKeepsDead(c, opening, s, more, id);
      }
    }
  }

  // ---------------------------------------------------------------- NOT_FOUND and the grace period

  /** The first attempt is sent and times out. */
  lemma {:induction false} TimesOut(c: Config, h: Hypotheses, s: State, id: nat) returns (steps: seq<Step>, m: State)
    requires JustSubmitted(s, id) && c.maxCalls >= 1
    ensures TimelyPath(c, h, s, steps, m)
    ensures m.db == s.db && m.now == s.now && m.workers == s.workers && id < |m.lanes|
    ensures m.lanes[id].caller == Concluded(Unknown) && m.lanes[id].refused == s.lanes[id].refused
    ensures 0 in m.lanes[id].wire && m.lanes[id].credits == map[]
  {
    hide TimelyPath;
    steps := Stay(c, h, s);
    var s1 := Next(c, s, Send(id)).value;
    steps := Extend(c, h, s, steps, s, Send(id));
    var s2 := Next(c, s1, GiveUpWaiting(id)).value;
    steps := Extend(c, h, s, steps, s1, GiveUpWaiting(id));
    assert s2.lanes[id].caller.outcomes == [Unknown];
    m := Next(c, s2, Conclude(id)).value;
    steps := Extend(c, h, s, steps, s2, Conclude(id));
  }

  /** The transfer then waits for verification. */
  lemma {:induction false} WaitsForVerification(c: Config, h: Hypotheses, opening: seq<int>, s: State,
      id: nat) returns (steps: seq<Step>, m: State)
    requires Inv(c, opening, s) && JustSubmitted(s, id) && c.maxCalls >= 1
    ensures TimelyPath(c, h, s, steps, m)
    ensures m.now == s.now && m.workers == s.workers && id < |m.lanes|
    ensures HasStatus(m, id, PendingVerification) && m.db.transfers[id].createdAt == s.db.transfers[id].createdAt
    ensures 0 in m.lanes[id].wire && m.lanes[id].credits == map[] && m.lanes[id].refused == s.lanes[id].refused
  {
    hide DbInv, LaneOk, ApplyOutcome, Run, TimelyRun;
    var sent, s1 := TimesOut(c, h, s, id);
    OutcomeSucceeds(c.policy, opening, s1.db, id, Unknown, c.verificationDelay, s1.now);
    m := Next(c, s1, Record(id, s1.now)).value;
    steps := Extend(c, h, s, sent, s1, Record(id, s1.now));
  }

  /** A worker is told NOT_FOUND just before the message lands. */
  lemma {:induction false} LandsAfterTheAnswer(c: Config, h: Hypotheses, s: State, id: nat, w: nat)
    returns (steps: seq<Step>, m: State)
    requires HasStatus(s, id, PendingVerification) && id < |s.lanes| && w !in s.workers
    requires s.now == s.db.transfers[id].createdAt && h.landing >= 1
    requires 0 in s.lanes[id].wire && s.lanes[id].credits == map[] && !s.lanes[id].refused
    requires |s.lanes| == |s.db.transfers|
    ensures TimelyPath(c, h, s, steps, m)
    ensures m.db == s.db && m.now == s.now + h.landing - 1
    ensures Credited(m, id) && w in m.workers && m.workers[w] == Asked(id, NotFound, m.now)
  {
    hide TimelyPath;
    steps := Stay(c, h, s);
    var tick, look, ask, land := Tick(h.landing - 1), Look(w, id), Ask(w, true), Deliver(id, 0, Accepts);
    var s1 := Next(c, s, tick).value;
    steps := Extend(c, h, s, steps, s, tick);
    var s2 := Next(c, s1, look).value;
    steps := Extend(c, h, s, steps, s1, look);
    var s3 := Next(c, s2, ask).value;
    steps := Extend(c, h, s, steps, s2, ask);
    DeliveryCredits(c, s3, id, 0);
    m := Next(c, s3, land).value;
    steps := Extend(c, h, s, steps, s3, land);
  }

  /** The answer is still fresh enough when the grace period ends, and the transfer is reversed. */
  lemma {:induction false} ReversesOnTheOldAnswer(c: Config, h: Hypotheses, opening: seq<int>, s: State, id: nat,
      w: nat)
    returns (steps: seq<Step>, m: State)
    requires Inv(c, opening, s) && HasStatus(s, id, PendingVerification) && Credited(s, id)
    requires w in s.workers && s.workers[w] == Asked(id, NotFound, s.now)
    requires s.now == s.db.transfers[id].createdAt + h.landing - 1 && !Adequate(c, h)
    ensures TimelyPath(c, h, s, steps, m)
    ensures HasStatus(m, id, Reversed) && Credited(m, id)
  {
    hide DbInv, LaneOk, RowOk, ApplyAnswer, TimelyPath;
    var due := DecidableAt(c.policy, s.db.transfers[id]);
    var wait := if due > s.now then due - s.now else 0;
    steps := Stay(c, h, s);
    var s1 := Next(c, s, Tick(wait)).value;
    steps := Extend(c, h, s, steps, s, Tick(wait));
    NextKeepsInv(c, opening, s, Tick(wait));
    AnswerSucceeds(c.policy, opening, s1.db, id, NotFound, s1.now);
    m := Next(c, s1, Apply(w, s1.now)).value;
    steps := Extend(c, h, s, steps, s1, Apply(w, s1.now));
  }

  /** From a transfer just submitted to one that is reversed and credited, on time throughout. */
  lemma {:induction false} InadequateHypothesesFail(c: Config, h: Hypotheses, opening: seq<int>, s: State, id: nat)
    returns (steps: seq<Step>, m: State)
    requires Inv(c, opening, s) && JustSubmitted(s, id) && c.maxCalls >= 1 && !Adequate(c, h)
    requires s.now == s.db.transfers[id].createdAt && s.workers == map[]
    ensures TimelyPath(c, h, s, steps, m)
    ensures HasStatus(m, id, Reversed) && Credited(m, id)
  {
    hide Inv, Run, TimelyRun;
    var first, s1 := WaitsForVerification(c, h, opening, s, id);
    RunKeepsInv(c, opening, s, first);
    SameLength(c, opening, s1);
    var second, s2 := LandsAfterTheAnswer(c, h, s1, id, 0);
    RunKeepsInv(c, opening, s1, second);
    var third, s3 := ReversesOnTheOldAnswer(c, h, opening, s2, id, 0);
    m := s3;
    JoinPaths(c, h, s, first, s1, second, s2);
    JoinPaths(c, h, s, first + second, s2, third, m);
    steps := first + second + third;
  }

  lemma {:induction false} SameLength(c: Config, opening: seq<int>, s: State)
    requires Inv(c, opening, s)
    ensures |s.lanes| == |s.db.transfers|
  {
  }

  lemma {:induction false} JoinPaths(c: Config, h: Hypotheses, s0: State, x: seq<Step>, s1: State, y: seq<Step>,
      s2: State)
    requires TimelyPath(c, h, s0, x, s1) && TimelyPath(c, h, s1, y, s2)
    ensures TimelyPath(c, h, s0, x + y, s2)
    decreases |x|
  {
    hide Next, Timely;
    if x == [] {
      assert x + y == y;
    } else {
      assert (x + y)[1..] == x[1..] + y;
      JoinPaths(c, h, Next(c, s0, x[0]).value, x[1..], s1, y, s2);
    }
  }

  /** Every reversed transfer of every timely run is without a credit. */
  ghost predicate ReversalsAreSafe(c: Config, h: Hypotheses) {
    forall s0, steps, s, id: nat ::
      Reached(c, s0, steps, s) && TimelyRun(c, h, s0, steps) && HasStatus(s, id, Reversed) ==> !Credited(s, id)
  }

  /**
   The exact condition on the hypotheses: reversals are safe in all timely runs if and only if
   landing + staleness is within the not-found grace (or no credit ever lands).
   */
  lemma {:induction false} ReversalsAreSafeIff(c: Config, h: Hypotheses)
    requires c.policy.Valid() && c.maxCalls >= 1 && (c.limit.Some? ==> c.limit.value >= 1)
    ensures ReversalsAreSafe(c, h) <==> Adequate(c, h)
  {
    hide Next, Inv, Initial, TimelyRun;
    if Adequate(c, h) {
      forall s0, steps, s, id: nat
        | Reached(c, s0, steps, s) && TimelyRun(c, h, s0, steps) && HasStatus(s, id, Reversed)
        ensures !Credited(s, id)
      {
        var none := Stay(c, h, s);
        ReversalIsSafe(c, h, s0, steps, s, none, s, id);
      }
    } else {
      var first, s := FirstTransferIsSubmitted(c, h);
      ReachedHasInv(c, Start, first, s);
      var second, m := InadequateHypothesesFail(c, h, Opening(Start.db), s, 0);
      JoinPaths(c, h, Start, first, s, second, m);
      assert Reached(c, Start, first + second, m);
    }
  }

  // ---------------------------------------------------------------- REJECTED after UNKNOWN

  /** The attempts of a call that ends with a REJECTED. */
  predicate EndsRejected(c: Config, outcomes: seq<Outcome>) {
    && 0 < |outcomes| <= c.maxCalls
    && outcomes[|outcomes| - 1] == Rejected
    && forall k :: 0 <= k < |outcomes| - 1 ==> !Definite(outcomes[k])
  }

  /** Without an UNKNOWN among them, such attempts leave nothing behind at the partner. */
  lemma {:induction false} RejectedLaneIsDead(c: Config, opening: seq<int>, s: State, id: nat)
    requires Inv(c, opening, s) && id < |s.lanes| && s.lanes[id].caller.Ready?
    requires EndsRejected(c, s.lanes[id].caller.outcomes) && Unknown !in s.lanes[id].caller.outcomes
    ensures Dead(c, s, id)
  {
    hide DbInv;
    var t, l := s.db.transfers[id], s.lanes[id];
    assert LaneOk(JobOf(c, s.db.book.accounts, t), t, l);
    assert l.wire.Keys == {};
    assert l.credits.Keys == {};
  }

  /** Steps that only concern one lane: the request's own, and deliveries. */
  function LaneNext(c: Config, l: Lane, step: Step): Option<Lane> {
    if step.Deliver? then
      if step.attempt in l.wire then Handle(l, step.attempt, step.how) else None
    else if IsCallerStep(step) then CallerStep(c, l, step)
    else None
  }

  function LaneRun(c: Config, l: Lane, steps: seq<Step>): Option<Lane>
    decreases |steps|
  {
    if steps == [] then Some(l)
    else
      match LaneNext(c, l, steps[0])
      case None => None
      case Some(m) => LaneRun(c, m, steps[1..])
  }

  predicate ConcernsLane(steps: seq<Step>, id: nat) {
    forall i :: 0 <= i < |steps| ==> (steps[i].Deliver? || IsCallerStep(steps[i])) && steps[i].id == id
  }

  function WithLane(s: State, id: nat, l: Lane): State
    requires id < |s.lanes|
  {
    s.(lanes := s.lanes[id := l])
  }

  lemma {:induction false} LaneRunIsRun(c: Config, s: State, id: nat, l: Lane, steps: seq<Step>)
    requires id < |s.lanes| && LaneRun(c, l, steps).Some? && ConcernsLane(steps, id)
    ensures Run(c, WithLane(s, id, l), steps) == Some(WithLane(s, id, LaneRun(c, l, steps).value))
    decreases |steps|
  {
    if steps != [] {
      hide Handle, CallerStep;
      var m := LaneNext(c, l, steps[0]).value;
      assert s.lanes[id := l][id := m] == s.lanes[id := m];
      assert Next(c, WithLane(s, id, l), steps[0]) == Some(WithLane(s, id, m));
      LaneRunIsRun(c, s, id, m, steps[1..]);
    }
  }

  lemma {:induction false} LaneRunSnoc(c: Config, l: Lane, steps: seq<Step>, m: Lane, step: Step)
    requires LaneRun(c, l, steps) == Some(m)
    ensures LaneRun(c, l, steps + [step]) == LaneNext(c, m, step)
    decreases |steps|
  {
    hide LaneNext;
    if steps == [] {
      assert steps + [step] == [step] && [step][1..] == [];
      assert forall n :: LaneRun(c, n, []) == Some(n);
    } else {
      assert (steps + [step])[1..] == steps[1..] + [step];
      LaneRunSnoc(c, LaneNext(c, l, steps[0]).value, steps[1..], m, step);
    }
  }

  /** A lane after some attempts: no credit, and every UNKNOWN attempt's message still under way. */
  predicate Lingers(l: Lane, job: Job, outcomes: seq<Outcome>) {
    && l.caller == Ready(job, outcomes) && l.credits == map[]
    && NoAttemptsFrom(l, |outcomes|)
    && forall k :: 0 <= k < |outcomes| && outcomes[k] == Unknown ==> k in l.wire
  }

  /** One more attempt can end in any way but a SUCCESS. */
  lemma {:induction false} AttemptCanEnd(c: Config, l: Lane, job: Job, outcomes: seq<Outcome>, o: Outcome, id: nat,
      l0: Lane, before: seq<Step>)
    returns (steps: seq<Step>, m: Lane)
    requires Lingers(l, job, outcomes) && MaySend(c, outcomes) && !o.Success?
    requires LaneRun(c, l0, before) == Some(l) && ConcernsLane(before, id)
    ensures LaneRun(c, l0, steps) == Some(m) && ConcernsLane(steps, id)
    ensures Lingers(m, job, outcomes + [o])
  {
    hide LaneRun;
    var n := |outcomes|;
    if o == NotSent {
      steps := before + [CannotConnect(id)];
      LaneRunSnoc(c, l0, before, l, CannotConnect(id));
      m := LaneNext(c, l, CannotConnect(id)).value;
    } else {
      var sent := LaneNext(c, l, Send(id)).value;
      LaneRunSnoc(c, l0, before, l, Send(id));
      steps := before + [Send(id)];
      if o == Unknown {
        LaneRunSnoc(c, l0, steps, sent, GiveUpWaiting(id));
        steps := steps + [GiveUpWaiting(id)];
        m := LaneNext(c, sent, GiveUpWaiting(id)).value;
      } else {
        var decline := Deliver(id, n, Declines);
        var declined := LaneNext(c, sent, decline).value;
        LaneRunSnoc(c, l0, steps, sent, decline);
        steps := steps + [decline];
        LaneRunSnoc(c, l0, steps, declined, Receive(id));
        steps := steps + [Receive(id)];
        m := LaneNext(c, declined, Receive(id)).value;
      }
    }
  }

  /** Any attempts that end with a REJECTED can happen, with the UNKNOWN ones still under way. */
  lemma {:induction false} AttemptsCanHappen(c: Config, l: Lane, job: Job, outcomes: seq<Outcome>, n: nat, id: nat)
    returns (steps: seq<Step>, m: Lane)
    requires Lingers(l, job, []) && EndsRejected(c, outcomes) && n <= |outcomes|
    ensures LaneRun(c, l, steps) == Some(m) && ConcernsLane(steps, id)
    ensures Lingers(m, job, outcomes[..n])
  {
    if n == 0 {
      steps, m := [], l;
    } else {
      var before, l' := AttemptsCanHappen(c, l, job, outcomes, n - 1, id);
      steps, m := AttemptCanEnd(c, l', job, outcomes[..n - 1], outcomes[n - 1], id, l, before);
      assert outcomes[..n] == outcomes[..n - 1] + [outcomes[n - 1]];
    }
  }

  /** The request saw `outcomes`, and the transfer was reversed in the end. */
  ghost predicate SeenAndReversed(c: Config, s: State, id: nat, outcomes: seq<Outcome>, steps: seq<Step>, m: State,
      more: seq<Step>, later: State) {
    && Run(c, s, steps) == Some(m) && id < |m.lanes|
    && m.lanes[id].caller.Ready? && m.lanes[id].caller.outcomes == outcomes
    && Run(c, m, more) == Some(later) && HasStatus(later, id, Reversed)
  }

  lemma {:induction false} RejectionIsRecorded(c: Config, opening: seq<int>, s: State, id: nat, outcomes: seq<Outcome>)
    returns (steps: seq<Step>, m: State)
    requires Inv(c, opening, s) && HasStatus(s, id, PartnerSubmitted) && id < |s.lanes|
    requires s.lanes[id].caller.Ready? && s.lanes[id].caller.outcomes == outcomes && EndsRejected(c, outcomes)
    ensures Run(c, s, steps) == Some(m) && HasStatus(m, id, Reversed) && id < |m.lanes|
    ensures m.lanes[id].wire == s.lanes[id].wire && m.lanes[id].credits == s.lanes[id].credits
  {
    hide DbInv, LaneOk, ApplyOutcome, Run;
    var none := Stay(c, Hypotheses(0, 0), s);
    var s1 := Next(c, s, Conclude(id)).value;
    RunSnoc(c, s, none, s, Conclude(id));
    OutcomeSucceeds(c.policy, opening, s1.db, id, Rejected, c.verificationDelay, s1.now);
    m := Next(c, s1, Record(id, s1.now)).value;
    RunSnoc(c, s, none + [Conclude(id)], s1, Record(id, s1.now));
    steps := none + [Conclude(id)] + [Record(id, s1.now)];
  }

  /** A lingering message lands after the reversal. */
  lemma {:induction false} LingeringMessageLands(c: Config, opening: seq<int>, s: State, id: nat,
      outcomes: seq<Outcome>, k: nat)
    returns (more: seq<Step>, later: State)
    requires Inv(c, opening, s) && HasStatus(s, id, PartnerSubmitted) && id < |s.lanes|
    requires s.lanes[id].caller.Ready? && Lingers(s.lanes[id], s.lanes[id].caller.job, outcomes)
    requires EndsRejected(c, outcomes) && k < |outcomes| && outcomes[k] == Unknown
    ensures Run(c, s, more) == Some(later) && HasStatus(later, id, Reversed) && Credited(later, id)
  {
    hide Inv, Run, Next;
    var first, m := RejectionIsRecorded(c, opening, s, id, outcomes);
    DeliveryCredits(c, m, id, k);
    RunSnoc(c, s, first, m, Deliver(id, k, Accepts));
    more := first + [Deliver(id, k, Accepts)];
    later := Next(c, m, Deliver(id, k, Accepts)).value;
  }

  /**
   The exact condition on a call: a reversal after attempts that end with a REJECTED is safe,
   with no assumption about time or the partner, if and only if no attempt was UNKNOWN. The
   guard that never downgrades an UNKNOWN covers NOT_SENT only.
   */
  lemma {:induction false} RejectionIsSafeIff(c: Config, opening: seq<int>, s: State, id: nat, outcomes: seq<Outcome>)
    requires Inv(c, opening, s) && JustSubmitted(s, id) && EndsRejected(c, outcomes)
    ensures (forall steps, m, more, later ::
               SeenAndReversed(c, s, id, outcomes, steps, m, more, later) ==> !Credited(later, id))
       <==> Unknown !in outcomes
  {
    hide Inv, Next, EndsRejected;
    if Unknown in outcomes {
      var k :| 0 <= k < |outcomes| && outcomes[k] == Unknown;
      var l := s.lanes[id];
      var steps, lane := AttemptsCanHappen(c, l, l.caller.job, outcomes, |outcomes|, id);
      assert outcomes[..|outcomes|] == outcomes;
      LaneRunIsRun(c, s, id, l, steps);
      assert WithLane(s, id, l) == s;
      var m := WithLane(s, id, lane);
      RunKeepsInv(c, opening, s, steps);
      var more, later := LingeringMessageLands(c, opening, m, id, outcomes, k);
      assert SeenAndReversed(c, s, id, outcomes, steps, m, more, later);
    } else {
      forall steps, m, more, later | SeenAndReversed(c, s, id, outcomes, steps, m, more, later)
        ensures !Credited(later, id)
      {
        RunKeepsInv(c, opening, s, steps);
        RejectedLaneIsDead(c, opening, m, id);
        RunKeepsDead(c, opening, m, more, id);
      }
    }
  }
}
