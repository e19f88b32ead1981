/**
 The loop that wraps one partner call, and the breaker it shares with other calls. Time is an
 integer; every clock reading, delay and inner result is an arbitrary input, and so are the
 calls that other requests make on the shared breaker while this one waits.
 */
module Resilience {
  import opened Wrappers
  import opened RateEngine
  import opened Partner

  // ---------------------------------------------------------------- the circuit breaker

  datatype BreakerState = Closed | Open | HalfOpen

  datatype Breaker = Breaker(state: BreakerState, failures: nat, openedAt: Time, trialInFlight: bool)

  datatype Limits = Limits(threshold: nat, cooldown: nat)

  /** A call on the breaker; reading its state counts, since that can half-open it. */
  datatype Call = Observe(now: Time) | Allow(now: Time) | Succeed | Fail(now: Time)

  const FreshBreaker := Breaker(Closed, 0, 0, false)

  function Refreshed(k: Limits, b: Breaker, now: Time): Breaker {
    if b.state == Open && now - b.openedAt >= k.cooldown then b.(state := HalfOpen) else b
  }

  predicate Admits(k: Limits, b: Breaker, now: Time) {
    var r := Refreshed(k, b, now);
    r.state == Closed || (r.state == HalfOpen && !r.trialInFlight)
  }

  function After(k: Limits, b: Breaker, call: Call): Breaker {
    match call
    case Observe(now) => Refreshed(k, b, now)
    case Allow(now) =>
      var r := Refreshed(k, b, now);
      if r.state == HalfOpen then r.(trialInFlight := true) else r
    case Succeed => Breaker(Closed, 0, b.openedAt, false)
    case Fail(now) =>
      if b.state == HalfOpen then b.(state := Open, openedAt := now, trialInFlight := false)
      else if b.failures + 1 >= k.threshold then Breaker(Open, b.failures + 1, now, false)
      else b.(failures := b.failures + 1, trialInFlight := false)
  }

  class CircuitBreaker {
    const limits: Limits
    var state: BreakerState
    var failures: nat
    var openedAt: Time
    var trialInFlight: bool

    constructor (limits: Limits)
      ensures this.limits == limits && Value() == FreshBreaker
    {
      this.limits := limits;
      state, failures, openedAt, trialInFlight := Closed, 0, 0, false;
    }

    function Value(): Breaker
      reads this
    {
      Breaker(state, failures, openedAt, trialInFlight)
    }

    method CurrentState(now: Time) returns (s: BreakerState)
      modifies this
      ensures Value() == After(limits, old(Value()), Observe(now)) && s == state
    {
      if state == Open && now - openedAt >= limits.cooldown {
        state := HalfOpen;
      }
      s := state;
    }

    method AllowRequest(now: Time) returns (allowed: bool)
      modifies this
      ensures Value() == After(limits, old(Value()), Allow(now))
      ensures allowed == Admits(limits, old(Value()), now)
    {
      var s := CurrentState(now);
      if s == Closed {
        return true;
      }
      if s == HalfOpen && !trialInFlight {
        trialInFlight := true;
        return true;
      }
      return false;
    }

    method RecordSuccess()
      modifies this
      ensures Value() == After(limits, old(Value()), Succeed)
    {
      failures := 0;
      trialInFlight := false;
      state := Closed;
    }

    method RecordFailure(now: Time)
      modifies this
      ensures Value() == After(limits, old(Value()), Fail(now))
    {
      trialInFlight := false;
      if state == HalfOpen {
        openedAt, state := now, Open;
        return;
      }
      failures := failures + 1;
      if failures >= limits.threshold {
        openedAt, state := now, Open;
      }
    }

    /** May this request attempt, after what others did? */
    method Ask(others: seq<Call>, now: Time) returns (allowed: bool)
      modifies this
      ensures Value() == After(limits, AfterAll(limits, old(Value()), others), Allow(now))
      ensures allowed == Admits(limits, AfterAll(limits, old(Value()), others), now)
    {
      Replay(others);
      allowed := AllowRequest(now);
    }

    /** The result of an attempt, after what others did while it was out. */
    method Note(during: seq<Call>, healthy: bool, now: Time)
      modifies this
      ensures Value() == After(limits, AfterAll(limits, old(Value()), during), if healthy then Succeed else Fail(now))
    {
      Replay(during);
      if healthy {
        RecordSuccess();
      } else {
        RecordFailure(now);
      }
    }

    /** What other requests do to the breaker meanwhile. */
    method Replay(calls: seq<Call>)
      modifies this
      ensures Value() == AfterAll(limits, old(Value()), calls)
    {
      for i := 0 to |calls|
        invariant Value() == AfterAll(limits, old(Value()), calls[..i])
      {
        match calls[i] {
          case Observe(now) => var _ := CurrentState(now);
          case Allow(now) => var _ := AllowRequest(now);
          case Succeed => RecordSuccess();
          case Fail(now) => RecordFailure(now);
        }
        assert calls[..i + 1][..i] == calls[..i];
      }
      assert calls[..|calls|] == calls;
    }
  }

  /** The breaker after a list of calls. */
  function AfterAll(k: Limits, b: Breaker, calls: seq<Call>): Breaker {
    if calls == [] then b
    else After(k, AfterAll(k, b, calls[..|calls| - 1]), calls[|calls| - 1])
  }

  function Reached(k: Limits, calls: seq<Call>): Breaker {
    AfterAll(k, FreshBreaker, calls)
  }

  /** Failures recorded since the last success. */
  function FailuresSinceSuccess(calls: seq<Call>): nat {
    if calls == [] then 0
    else
      var front, last := calls[..|calls| - 1], calls[|calls| - 1];
      if last.Succeed? then 0
      else FailuresSinceSuccess(front) + if last.Fail? then 1 else 0
  }

  /** Requests admitted since the breaker last entered HALF_OPEN, while it is still there. */
  function TrialsThisStay(k: Limits, calls: seq<Call>): nat {
    if calls == [] || Reached(k, calls).state != HalfOpen then 0
    else
      var front, last := calls[..|calls| - 1], calls[|calls| - 1];
      (if Reached(k, front).state == HalfOpen then TrialsThisStay(k, front) else 0)
      + if last.Allow? && Admits(k, Reached(k, front), last.now) then 1 else 0
  }

  /**
   Over every sequence of calls: the breaker is CLOSED exactly when fewer than `threshold`
   failures followed the last success, a trial is in flight only while HALF_OPEN, and one
   stay in HALF_OPEN admits at most one request.
   */
  lemma {:induction false} BreakerInvariant(k: Limits, calls: seq<Call>)
    requires k.threshold >= 1
    ensures var b := Reached(k, calls);
            && (b.state == Closed <==> FailuresSinceSuccess(calls) < k.threshold)
            && (b.state == Closed <==> b.failures < k.threshold)
            && (b.failures < k.threshold ==> b.failures == FailuresSinceSuccess(calls))
            && (b.trialInFlight ==> b.state == HalfOpen)
            && TrialsThisStay(k, calls) == (if b.trialInFlight then 1 else 0)
  {
    if calls != [] {
      BreakerInvariant(k, calls[..|calls| - 1]);
    }
  }

  predicate InCooldown(call: Call, from: Time, until: Time) {
    match call
    case Succeed => false
    case _ => from <= call.now < until
  }

  /** An OPEN breaker stays OPEN and admits nothing before its cooldown ends, unless a success is recorded. */
  lemma {:induction false} OpenBreakerAdmitsNothing(k: Limits, b: Breaker, calls: seq<Call>, since: Time)
    requires b.state == Open && since <= b.openedAt && b.failures >= k.threshold >= 1
    requires forall i :: 0 <= i < |calls| ==> InCooldown(calls[i], since, since + k.cooldown)
    ensures AfterAll(k, b, calls).state == Open && AfterAll(k, b, calls).openedAt >= since
    ensures AfterAll(k, b, calls).failures >= k.threshold
    ensures forall i :: 0 <= i < |calls| && calls[i].Allow? ==> !Admits(k, AfterAll(k, b, calls[..i]), calls[i].now)
  {
    if calls != [] {
      var front := calls[..|calls| - 1];
      OpenBreakerAdmitsNothing(k, b, front, since);
      forall i | 0 <= i < |calls| && calls[i].Allow?
        ensures !Admits(k, AfterAll(k, b, calls[..i]), calls[i].now)
      {
        if i < |front| {
          assert front[i] == calls[i] && front[..i] == calls[..i];
        }
      }
    }
  }

  /**
   A failure that leaves the breaker OPEN starts the cooldown afresh, whether it opened it, came
   from a trial or came late: the next request is admitted exactly from `now + cooldown` on, and
   whatever is called meanwhile, short of a success, nothing is admitted before that.
   */
  lemma {:induction false} FailureStartsTheCooldown(k: Limits, calls: seq<Call>, now: Time, more: seq<Call>, t: Time)
    requires k.threshold >= 1 && Reached(k, calls + [Fail(now)]).state == Open
    requires forall i :: 0 <= i < |more| ==> InCooldown(more[i], now, now + k.cooldown)
    ensures Admits(k, Reached(k, calls + [Fail(now)]), t) <==> t >= now + k.cooldown
    ensures t < now + k.cooldown ==> !Admits(k, AfterAll(k, Reached(k, calls + [Fail(now)]), more), t)
    ensures forall i :: 0 <= i < |more| && more[i].Allow? ==>
                          !Admits(k, AfterAll(k, Reached(k, calls + [Fail(now)]), more[..i]), more[i].now)
  {
    var all := calls + [Fail(now)];
    assert all[..|all| - 1] == calls;
    BreakerInvariant(k, calls);
    BreakerInvariant(k, all);
    OpenBreakerAdmitsNothing(k, Reached(k, all), more, now);
  }

  /** The breaker opens exactly at the failure that reaches the threshold, or at a failed trial. */
  lemma {:induction false} OpensExactlyAt(k: Limits, calls: seq<Call>, now: Time)
    requires k.threshold >= 1
    ensures Reached(k, calls + [Fail(now)]).state == Open <==>
            FailuresSinceSuccess(calls) + 1 >= k.threshold
    ensures Reached(k, calls + [Succeed]).state == Closed
  {
    var failed, succeeded := calls + [Fail(now)], calls + [Succeed];
    assert failed[..|failed| - 1] == calls && succeeded[..|succeeded| - 1] == calls;
    BreakerInvariant(k, calls);
    BreakerInvariant(k, failed);
  }

  /**
   A trial whose result is never recorded blocks the breaker: it stays HALF_OPEN and admits
   nothing, whatever the clock says, until some call records a result.
   */
  lemma {:induction false} LostTrialBlocks(k: Limits, b: Breaker, calls: seq<Call>)
    requires b.state == HalfOpen && b.trialInFlight
    requires forall i :: 0 <= i < |calls| ==> calls[i].Observe? || calls[i].Allow?
    ensures AfterAll(k, b, calls) == b
    ensures forall i :: 0 <= i < |calls| && calls[i].Allow? ==> !Admits(k, AfterAll(k, b, calls[..i]), calls[i].now)
  {
    if calls != [] {
      var front := calls[..|calls| - 1];
      LostTrialBlocks(k, b, front);
      forall i | 0 <= i < |calls| && calls[i].Allow?
        ensures !Admits(k, AfterAll(k, b, calls[..i]), calls[i].now)
      {
        if i < |front| {
          assert front[i] == calls[i] && front[..i] == calls[..i];
        }
      }
    }
  }

  // ---------------------------------------------------------------- when the loop goes on

  /**
   One pass of the loop as the breaker and the clock see it: what other requests do before it
   asks and while its call is out, its clock readings, and what its attempt would come to.
   */
  datatype Pass = Pass(
    others: seq<Call>,
    allowAt: Time,
    startAt: Time,
    during: seq<Call>,
    healthy: bool,
    retryable: bool,
    recordAt: Time,
    delayAt: Time,
    delay: nat)

  /** The breaker calls up to the question whether the pass may attempt. */
  function Asking(p: Pass): seq<Call> {
    p.others + [Allow(p.allowAt)]
  }

  /** The breaker calls of a pass that attempted. */
  function Attempting(p: Pass): seq<Call> {
    Asking(p) + p.during + [if p.healthy then Succeed else Fail(p.recordAt)]
  }

  function CallsOf(passes: seq<Pass>): seq<Call> {
    if passes == [] then [] else CallsOf(passes[..|passes| - 1]) + Attempting(passes[|passes| - 1])
  }

  /** The breaker lets pass `i` attempt. */
  predicate Admitted(k: Limits, b: Breaker, passes: seq<Pass>, i: nat)
    requires i < |passes|
  {
    Admits(k, AfterAll(k, b, CallsOf(passes[..i]) + passes[i].others), passes[i].allowAt)
  }

  /** Pass `i` attempts once the loop gets to it. */
  predicate Starts(k: Limits, b: Breaker, deadline: Time, passes: seq<Pass>, i: nat)
    requires i < |passes|
  {
    Admitted(k, b, passes, i) && passes[i].startAt < deadline
  }

  /** After its attempt the loop goes on to the next pass, unless attempts are used up. */
  predicate GoesOn(deadline: Time, p: Pass) {
    p.retryable && p.delayAt + p.delay < deadline
  }

  /** The loop gets from its `n` attempts to a further pass. */
  predicate ComesToPass(deadline: Time, maxAttempts: nat, passes: seq<Pass>, n: nat)
    requires n <= |passes|
  {
    n < maxAttempts && (n > 0 ==> GoesOn(deadline, passes[n - 1]))
  }

  /** The first `n` passes are come to and attempted. */
  predicate GetsTo(k: Limits, b: Breaker, deadline: Time, maxAttempts: nat, passes: seq<Pass>, n: nat)
    requires n <= |passes|
  {
    forall i :: 0 <= i < n ==> Starts(k, b, deadline, passes, i) && ComesToPass(deadline, maxAttempts, passes, i)
  }

  lemma {:induction false} EmptyGetsTo(k: Limits, b: Breaker, deadline: Time, maxAttempts: nat, passes: seq<Pass>)
    ensures GetsTo(k, b, deadline, maxAttempts, passes, 0)
  {
  }

  lemma {:induction false} GetsFurther(k: Limits, b: Breaker, deadline: Time, maxAttempts: nat, passes: seq<Pass>,
      n: nat)
    requires n < |passes| && GetsTo(k, b, deadline, maxAttempts, passes, n)
    requires Starts(k, b, deadline, passes, n) && ComesToPass(deadline, maxAttempts, passes, n)
    ensures GetsTo(k, b, deadline, maxAttempts, passes, n + 1)
  {
  }

  lemma {:induction false} FirstPassStarts(k: Limits, b: Breaker, deadline: Time, maxAttempts: nat,
      passes: seq<Pass>, n: nat)
    requires 1 <= maxAttempts && MakesAttempts(k, b, deadline, maxAttempts, passes, n)
    requires Starts(k, b, deadline, passes, 0)
    ensures n >= 1
  {
  }

  /**
   The loop makes exactly `n` attempts: each was admitted in time, each but the last led on,
   and after the last either nothing leads on or the next pass is refused or out of time.
   */
  predicate MakesAttempts(k: Limits, b: Breaker, deadline: Time, maxAttempts: nat, passes: seq<Pass>, n: nat) {
    && n <= maxAttempts <= |passes|
    && GetsTo(k, b, deadline, maxAttempts, passes, n)
    && (ComesToPass(deadline, maxAttempts, passes, n) ==> !Starts(k, b, deadline, passes, n))
  }

  /** All breaker calls of a loop that makes `n` attempts. */
  function CallsMade(deadline: Time, maxAttempts: nat, passes: seq<Pass>, n: nat): seq<Call>
    requires n <= maxAttempts <= |passes|
  {
    CallsOf(passes[..n]) + if ComesToPass(deadline, maxAttempts, passes, n) then Asking(passes[n]) else []
  }

  lemma {:induction false} NoFurtherAttempt(k: Limits, b: Breaker, deadline: Time, maxAttempts: nat,
      passes: seq<Pass>, n: nat, m: nat)
    requires MakesAttempts(k, b, deadline, maxAttempts, passes, n)
    requires MakesAttempts(k, b, deadline, maxAttempts, passes, m)
    ensures m <= n
  {
  }

  /** The number of attempts is determined by the breaker, the clock and the results. */
  lemma {:induction false} AttemptsAreDetermined(k: Limits, b: Breaker, deadline: Time, maxAttempts: nat,
      passes: seq<Pass>, n: nat, m: nat)
    requires MakesAttempts(k, b, deadline, maxAttempts, passes, n)
    requires MakesAttempts(k, b, deadline, maxAttempts, passes, m)
    ensures n == m
  {
    hide MakesAttempts;
    NoFurtherAttempt(k, b, deadline, maxAttempts, passes, n, m);
    NoFurtherAttempt(k, b, deadline, maxAttempts, passes, m, n);
  }

  lemma {:induction false} AfterAllConcat(k: Limits, b: Breaker, x: seq<Call>, y: seq<Call>)
    ensures AfterAll(k, b, x + y) == AfterAll(k, AfterAll(k, b, x), y)
  {
    if y == [] {
      assert x + y == x;
    } else {
      assert (x + y)[..|x + y| - 1] == x + y[..|y| - 1];
      AfterAllConcat(k, b, x, y[..|y| - 1]);
    }
  }

  lemma {:induction false} AfterOne(k: Limits, b: Breaker, call: Call)
    ensures AfterAll(k, b, [call]) == After(k, b, call)
  {
    assert [call][..0] == [];
  }

  /** What asking and then attempting do to the breaker, call by call. */
  lemma {:induction false} AfterPass(k: Limits, b: Breaker, passes: seq<Pass>, n: nat)
    requires n < |passes|
    ensures var p, before := passes[n], AfterAll(k, b, CallsOf(passes[..n]));
            var asked := After(k, AfterAll(k, before, p.others), Allow(p.allowAt));
            && (Admitted(k, b, passes, n) <==> Admits(k, AfterAll(k, before, p.others), p.allowAt))
            && AfterAll(k, b, CallsOf(passes[..n]) + Asking(p)) == asked
            && AfterAll(k, b, CallsOf(passes[..n + 1])) ==
               After(k, AfterAll(k, asked, p.during), if p.healthy then Succeed else Fail(p.recordAt))
  {
    hide After;
    var p, done := passes[n], CallsOf(passes[..n]);
    var last := if p.healthy then Succeed else Fail(p.recordAt);
    AfterAllConcat(k, b, done, p.others);
    AfterAllConcat(k, b, done + p.others, [Allow(p.allowAt)]);
    AfterOne(k, AfterAll(k, b, done + p.others), Allow(p.allowAt));
    assert done + p.others + [Allow(p.allowAt)] == done + Asking(p);
    AfterAllConcat(k, b, done + Asking(p), p.during);
    AfterAllConcat(k, b, done + Asking(p) + p.during, [last]);
    AfterOne(k, AfterAll(k, b, done + Asking(p) + p.during), last);
    assert passes[..n + 1][..n] == passes[..n];
    assert CallsOf(passes[..n + 1]) == done + Attempting(p) == done + Asking(p) + p.during + [last];
  }

  /** Pass `i` is admitted as the trial of a half-open breaker, which asking may itself half-open. */
  predicate IsTrial(k: Limits, b: Breaker, passes: seq<Pass>, i: nat)
    requires i < |passes|
  {
    && Admitted(k, b, passes, i)
    && Refreshed(k, AfterAll(k, b, CallsOf(passes[..i]) + passes[i].others), passes[i].allowAt).state == HalfOpen
  }

  predicate LeavesTrial(b: Breaker) {
    b.state == HalfOpen && b.trialInFlight
  }

  /**
   When the loop ends at a pass without attempting it, that pass was admitted and the breaker is
   left HALF_OPEN with a trial in flight, that nobody will record, if and only if it was admitted
   as a trial and the deadline had passed by its next clock reading.
   */
  lemma {:induction false} TrialIsLostIff(k: Limits, b: Breaker, deadline: Time, maxAttempts: nat,
      passes: seq<Pass>, n: nat)
    requires MakesAttempts(k, b, deadline, maxAttempts, passes, n)
    requires ComesToPass(deadline, maxAttempts, passes, n)
    ensures Admitted(k, b, passes, n) && LeavesTrial(AfterAll(k, b, CallsMade(deadline, maxAttempts, passes, n)))
       <==> IsTrial(k, b, passes, n) && deadline <= passes[n].startAt
  {
    AfterPass(k, b, passes, n);
    AfterAllConcat(k, b, CallsOf(passes[..n]), passes[n].others);
  }

  // ---------------------------------------------------------------- the retry loop

  /** What an inner call does: it returns, or the overall deadline cuts it off. */
  datatype Inner<R> = Returns(result: R) | CutOff

  /** One pass of the loop: clock readings, the jittered delay, the inner call, and the interference. */
  datatype Turn<R> = Turn(
    others: seq<Call>,
    allowAt: Time,
    startAt: Time,
    during: seq<Call>,
    inner: Inner<R>,
    recordAt: Time,
    delayAt: Time,
    delay: nat)

  function CreditResult(t: Turn<CallResult>): CallResult {
    if t.inner.Returns? then t.inner.result else CallResult(Unknown, false)
  }

  function Outcomes(turns: seq<Turn<CallResult>>): seq<Outcome> {
    seq(|turns|, i requires 0 <= i < |turns| => CreditResult(turns[i]).outcome)
  }

  lemma {:induction false} NoOutcomesYet(turns: seq<Turn<CallResult>>)
    ensures Outcomes(turns[..0]) == []
  {
  }

  lemma {:induction false} OutcomesGrow(turns: seq<Turn<CallResult>>, n: nat)
    requires n < |turns|
    ensures Outcomes(turns[..n + 1]) == Outcomes(turns[..n]) + [CreditResult(turns[n]).outcome]
  {
  }

  /** A refusal is a healthy answer. */
  function CreditPasses(turns: seq<Turn<CallResult>>): seq<Pass> {
    seq(|turns|, i requires 0 <= i < |turns| =>
      var t, r := turns[i], CreditResult(turns[i]);
      Pass(t.others, t.allowAt, t.startAt, t.during, Definite(r.outcome), r.retryable, t.recordAt, t.delayAt, t.delay))
  }

  /** Other requests only look at the breaker. */
  predicate OnlyLook(calls: seq<Call>) {
    forall i :: 0 <= i < |calls| ==> calls[i].Observe? || calls[i].Allow?
  }

  lemma {:induction false} LookingIsNoFailure(before: seq<Call>, calls: seq<Call>)
    requires OnlyLook(calls)
    ensures FailuresSinceSuccess(before + calls) == FailuresSinceSuccess(before)
  {
    if calls == [] {
      assert before + calls == before;
    } else {
      var n := |calls| - 1;
      assert (before + calls)[..|before + calls| - 1] == before + calls[..n];
      LookingIsNoFailure(before, calls[..n]);
    }
  }

  lemma {:induction false} OneAttemptCounts(before: seq<Call>, p: Pass)
    requires OnlyLook(p.others) && OnlyLook(p.during)
    ensures FailuresSinceSuccess(before + Attempting(p)) == if p.healthy then 0 else FailuresSinceSuccess(before) + 1
  {
    var asked := before + Asking(p);
    var last := if p.healthy then Succeed else Fail(p.recordAt);
    LookingIsNoFailure(before, Asking(p));
    LookingIsNoFailure(asked, p.during);
    var all := asked + p.during + [last];
    assert all[..|all| - 1] == asked + p.during;
    assert before + Attempting(p) == all;
  }

  /** No attempt of the call was answered definitely, except perhaps the last. */
  predicate OnlyLastDefinite(outcomes: seq<Outcome>) {
    forall i :: 0 <= i < |outcomes| - 1 ==> !Definite(outcomes[i])
  }

  /**
   What a credit call does to the count of failures since a success, while other requests only
   look: a SUCCESS or a REJECTED resets it, and each UNKNOWN or NOT_SENT attempt adds one.
   */
  lemma {:induction false} CreditCallCounts(before: seq<Call>, turns: seq<Turn<CallResult>>, n: nat)
    requires n <= |turns| && OnlyLastDefinite(Outcomes(turns[..n]))
    requires forall i :: 0 <= i < n ==> OnlyLook(turns[i].others) && OnlyLook(turns[i].during)
    ensures var outcomes := Outcomes(turns[..n]);
            FailuresSinceSuccess(before + CallsOf(CreditPasses(turns)[..n])) ==
            if n > 0 && (outcomes[n - 1].Success? || outcomes[n - 1].Rejected?) then 0
            else FailuresSinceSuccess(before) + n
  {
    var passes := CreditPasses(turns);
    if n == 0 {
      assert before + CallsOf(passes[..0]) == before;
    } else {
      hide FailuresSinceSuccess, Attempting, OnlyLook;
      var outcomes, front := Outcomes(turns[..n]), Outcomes(turns[..n - 1]);
      OutcomesGrow(turns, n - 1);
      assert |front| == n - 1;
      assert forall i :: 0 <= i < n - 1 ==> front[i] == outcomes[i] && !Definite(outcomes[i]);
      CreditCallCounts(before, turns, n - 1);
      assert passes[..n][..n - 1] == passes[..n - 1];
      assert before + CallsOf(passes[..n]) == before + CallsOf(passes[..n - 1]) + Attempting(passes[n - 1]);
      OneAttemptCounts(before + CallsOf(passes[..n - 1]), passes[n - 1]);
    }
  }

  /** A call whose last pass was recorded as healthy leaves the breaker CLOSED and at zero. */
  lemma {:induction false} HealthyEndCloses(k: Limits, b: Breaker, passes: seq<Pass>, n: nat)
    requires 0 < n <= |passes| && passes[n - 1].healthy
    ensures var left := AfterAll(k, b, CallsOf(passes[..n]));
            left.state == Closed && left.failures == 0 && !left.trialInFlight
  {
    hide After;
    AfterPass(k, b, passes, n - 1);
    assert forall x :: After(k, x, Succeed) == Breaker(Closed, 0, x.openedAt, false) by { ClosedAfterSuccess(k); }
  }

  lemma {:induction false} ClosedAfterSuccess(k: Limits)
    ensures forall x :: After(k, x, Succeed) == Breaker(Closed, 0, x.openedAt, false)
  {
  }

  /**
   The result is exactly what the attempts warrant, whatever the breaker, the clock and the
   partner do: the last attempt's SUCCESS or REJECTED, else UNKNOWN if any attempt was
   unknown, else NOT_SENT. How many attempts are made, and what becomes of the breaker, is
   exactly what admission, deadline, delays and results decide.
   */
  method CreditPoints(breaker: CircuitBreaker, maxAttempts: nat, deadline: Time, turns: seq<Turn<CallResult>>)
    returns (outcome: Outcome, attempts: nat)
    requires 1 <= maxAttempts <= |turns|
    requires forall i :: 0 <= i < |turns| ==> WellBehaved(CreditResult(turns[i]))
    modifies breaker
    ensures attempts <= maxAttempts
    ensures outcome == FinalOutcome(Outcomes(turns[..attempts]))
    ensures MakesAttempts(breaker.limits, old(breaker.Value()), deadline, maxAttempts, CreditPasses(turns), attempts)
    ensures Starts(breaker.limits, old(breaker.Value()), deadline, CreditPasses(turns), 0) ==> attempts >= 1
    ensures breaker.Value() == AfterAll(breaker.limits, old(breaker.Value()),
                                        CallsMade(deadline, maxAttempts, CreditPasses(turns), attempts))
    ensures outcome.Success? || outcome.Rejected? ==>
              breaker.state == Closed && breaker.failures == 0 && !breaker.trialInFlight
    ensures forall i :: 0 <= i < attempts ==> turns[i].startAt < deadline
    ensures forall i :: 0 <= i < attempts - 1 ==>
                          CreditResult(turns[i]).retryable && turns[i].delayAt + turns[i].delay < deadline
    ensures OnlyLastDefinite(Outcomes(turns[..attempts]))
  {
    hide After, AfterAll, CallsOf, Admits, Admitted, Asking, GetsTo, Outcomes;
    EmptyGetsTo(breaker.limits, breaker.Value(), deadline, maxAttempts, CreditPasses(turns));
    ghost var k, b, passes := breaker.limits, breaker.Value(), CreditPasses(turns);
    NoOutcomesYet(turns);
    var possiblyApplied := false;
    var result: Option<CallResult> := None;
    attempts := 0;
    NothingYet(k, b, passes);
    while true
      invariant attempts < maxAttempts
      invariant possiblyApplied <==> Unknown in Outcomes(turns[..attempts])
      invariant result == if attempts == 0 then None else Some(CreditResult(turns[attempts - 1]))
      invariant breaker.Value() == AfterAll(k, b, CallsOf(passes[..attempts]))
      invariant GetsTo(k, b, deadline, maxAttempts, passes, attempts)
      invariant ComesToPass(deadline, maxAttempts, passes, attempts)
      decreases maxAttempts - attempts
    {
      var turn := turns[attempts];
      AfterPass(k, b, passes, attempts);
      var allowed := breaker.Ask(turn.others, turn.allowAt);
      if !allowed {
        result := Some(CallResult(NotSent, false));
        break;
      }
      if deadline - turn.startAt <= 0 {
        result := if result.Some? then result else Some(CallResult(NotSent, false));
        break;
      }

      GetsFurther(k, b, deadline, maxAttempts, passes, attempts);
      attempts := attempts + 1;
      var r := CreditResult(turn);
      result := Some(r);
      OutcomesGrow(turns, attempts - 1);
      breaker.Note(turn.during, Definite(r.outcome), turn.recordAt);
      if r.outcome == Unknown {
        possiblyApplied := true;
      }
      if !r.retryable || attempts >= maxAttempts {
        break;
      }
      if turn.delayAt + turn.delay >= deadline {
        break;
      }
    }
    AttemptsEnd(k, b, deadline, maxAttempts, passes, attempts);
    if Starts(k, b, deadline, passes, 0) {
      FirstPassStarts(k, b, deadline, maxAttempts, passes, attempts);
    }
    if attempts > 0 {
      OutcomesGrow(turns, attempts - 1);
    }
    CreditComesInTime(k, b, deadline, maxAttempts, turns, attempts);
    if attempts > 0 && Definite(CreditResult(turns[attempts - 1]).outcome) {
      HealthyEndCloses(k, b, passes, attempts);
    }
    outcome := result.value.outcome;
    if possiblyApplied && outcome == NotSent {
      outcome := Unknown;
    }
  }

  /** Every attempt starts before the deadline, and each but the last leads on. */
  lemma {:induction false} ComesInTime(k: Limits, b: Breaker, deadline: Time, maxAttempts: nat, passes: seq<Pass>,
      n: nat)
    requires MakesAttempts(k, b, deadline, maxAttempts, passes, n)
    ensures forall i :: 0 <= i < n ==> passes[i].startAt < deadline
    ensures forall i :: 0 <= i < n - 1 ==> passes[i].retryable && passes[i].delayAt + passes[i].delay < deadline
  {
    forall i | 0 <= i < n
      ensures passes[i].startAt < deadline
      ensures i < n - 1 ==> GoesOn(deadline, passes[i])
    {
      assert Starts(k, b, deadline, passes, i);
      assert i < n - 1 ==> ComesToPass(deadline, maxAttempts, passes, i + 1);
    }
  }

  lemma {:induction false} CreditComesInTime(k: Limits, b: Breaker, deadline: Time, maxAttempts: nat,
      turns: seq<Turn<CallResult>>, n: nat)
    requires MakesAttempts(k, b, deadline, maxAttempts, CreditPasses(turns), n)
    requires forall i :: 0 <= i < |turns| ==> WellBehaved(CreditResult(turns[i]))
    ensures forall i :: 0 <= i < n ==> turns[i].startAt < deadline
    ensures forall i :: 0 <= i < n - 1 ==>
                          CreditResult(turns[i]).retryable && turns[i].delayAt + turns[i].delay < deadline
    ensures OnlyLastDefinite(Outcomes(turns[..n]))
  {
    var passes := CreditPasses(turns);
    ComesInTime(k, b, deadline, maxAttempts, passes, n);
    forall i | 0 <= i < n
      ensures turns[i].startAt < deadline
      ensures i < n - 1 ==> CreditResult(turns[i]).retryable && turns[i].delayAt + turns[i].delay < deadline
    {
      assert passes[i].startAt < deadline;
    }
  }

  lemma {:induction false} StatusComesInTime(k: Limits, b: Breaker, deadline: Time, maxAttempts: nat,
      turns: seq<Turn<StatusResult>>, n: nat)
    requires MakesAttempts(k, b, deadline, maxAttempts, StatusPasses(turns), n)
    ensures forall i :: 0 <= i < n ==> turns[i].startAt < deadline
    ensures forall i :: 0 <= i < n - 1 ==>
                          CheckResult(turns[i]).retryable && turns[i].delayAt + turns[i].delay < deadline
  {
    var passes := StatusPasses(turns);
    ComesInTime(k, b, deadline, maxAttempts, passes, n);
    forall i | 0 <= i < n
      ensures turns[i].startAt < deadline
      ensures i < n - 1 ==> CheckResult(turns[i]).retryable && turns[i].delayAt + turns[i].delay < deadline
    {
      assert passes[i].startAt < deadline;
    }
  }

  lemma {:induction false} NothingYet(k: Limits, b: Breaker, passes: seq<Pass>)
    ensures AfterAll(k, b, CallsOf(passes[..0])) == b
  {
  }

  /** Whether or not a further pass was asked for, the calls so far are all the calls made. */
  lemma {:induction false} AttemptsEnd(k: Limits, b: Breaker, deadline: Time, maxAttempts: nat, passes: seq<Pass>,
      n: nat)
    requires n <= maxAttempts <= |passes|
    ensures !ComesToPass(deadline, maxAttempts, passes, n) ==>
              CallsMade(deadline, maxAttempts, passes, n) == CallsOf(passes[..n])
  {
  }

  function CheckResult(t: Turn<StatusResult>): StatusResult {
    if t.inner.Returns? then t.inner.result else StatusResult(Unreachable, false)
  }

  function StatusPasses(turns: seq<Turn<StatusResult>>): seq<Pass> {
    seq(|turns|, i requires 0 <= i < |turns| =>
      var t, r := turns[i], CheckResult(turns[i]);
      Pass(t.others, t.allowAt, t.startAt, t.during, !r.answer.Unreachable?, r.retryable,
           t.recordAt, t.delayAt, t.delay))
  }

  /** A status check reports the last attempt's answer, and UNKNOWN if there was none. */
  method GetCreditStatus(breaker: CircuitBreaker, maxAttempts: nat, deadline: Time, turns: seq<Turn<StatusResult>>)
    returns (answer: Answer, attempts: nat)
    requires 1 <= maxAttempts <= |turns|
    requires forall i :: 0 <= i < |turns| && CheckResult(turns[i]).retryable ==>
                           CheckResult(turns[i]).answer.Unreachable?
    modifies breaker
    ensures attempts <= maxAttempts
    ensures answer == if attempts == 0 then Unreachable else CheckResult(turns[attempts - 1]).answer
    ensures forall i :: 0 <= i < attempts - 1 ==> CheckResult(turns[i]).answer.Unreachable?
    ensures MakesAttempts(breaker.limits, old(breaker.Value()), deadline, maxAttempts, StatusPasses(turns), attempts)
    ensures Starts(breaker.limits, old(breaker.Value()), deadline, StatusPasses(turns), 0) ==> attempts >= 1
    ensures breaker.Value() == AfterAll(breaker.limits, old(breaker.Value()),
                                        CallsMade(deadline, maxAttempts, StatusPasses(turns), attempts))
    ensures answer.HasCredit? || answer.NotFound? ==>
              breaker.state == Closed && breaker.failures == 0 && !breaker.trialInFlight
    ensures forall i :: 0 <= i < attempts ==> turns[i].startAt < deadline
    ensures forall i :: 0 <= i < attempts - 1 ==>
                          CheckResult(turns[i]).retryable && turns[i].delayAt + turns[i].delay < deadline
  {
    hide After, AfterAll, CallsOf, Admits, Admitted, Asking, GetsTo;
    EmptyGetsTo(breaker.limits, breaker.Value(), deadline, maxAttempts, StatusPasses(turns));
    ghost var k, b, passes := breaker.limits, breaker.Value(), StatusPasses(turns);
    answer, attempts := Unreachable, 0;
    NothingYet(k, b, passes);
    while true
      invariant attempts < maxAttempts
      invariant answer == Unreachable
      invariant forall i :: 0 <= i < attempts ==> CheckResult(turns[i]).answer.Unreachable?
      invariant breaker.Value() == AfterAll(k, b, CallsOf(passes[..attempts]))
      invariant GetsTo(k, b, deadline, maxAttempts, passes, attempts)
      invariant ComesToPass(deadline, maxAttempts, passes, attempts)
      decreases maxAttempts - attempts
    {
      var turn := turns[attempts];
      AfterPass(k, b, passes, attempts);
      var allowed := breaker.Ask(turn.others, turn.allowAt);
      if !allowed {
        answer := Unreachable;
        break;
      }
      if deadline - turn.startAt <= 0 {
        break;
      }
      GetsFurther(k, b, deadline, maxAttempts, passes, attempts);
      attempts := attempts + 1;
      var r := CheckResult(turn);
      answer := r.answer;
      breaker.Note(turn.during, !r.answer.Unreachable?, turn.recordAt);
      if !r.retryable || attempts >= maxAttempts {
        break;
      }
      if turn.delayAt + turn.delay >= deadline {
        break;
      }
    }
    AttemptsEnd(k, b, deadline, maxAttempts, passes, attempts);
    if Starts(k, b, deadline, passes, 0) {
      FirstPassStarts(k, b, deadline, maxAttempts, passes, attempts);
    }
    StatusComesInTime(k, b, deadline, maxAttempts, turns, attempts);
    if attempts > 0 && !CheckResult(turns[attempts - 1]).answer.Unreachable? {
      HealthyEndCloses(k, b, passes, attempts);
    }
  }

  const OpensAtOnce := Limits(1, 10)

  const TimesOut := Turn([], 0, 0, [], Returns(CallResult(Unknown, true)), 1, 1, 10)

  const ComesTooLate := Turn([], 11, 12, [], Returns(CallResult(Unknown, true)), 12, 12, 0)

  lemma {:induction false} AfterNone(k: Limits, b: Breaker)
    ensures AfterAll(k, b, []) == b
  {
  }

  /** The first attempt is admitted, and its failure opens the breaker. */
  lemma {:induction false} FirstAttemptTrips()
    ensures var passes := CreditPasses([TimesOut, ComesTooLate]);
            && Admitted(OpensAtOnce, FreshBreaker, passes, 0)
            && AfterAll(OpensAtOnce, FreshBreaker, CallsOf(passes[..1])) == Breaker(Open, 1, 1, false)
  {
    hide AfterAll, CallsOf, Admitted;
    var passes := CreditPasses([TimesOut, ComesTooLate]);
    NothingYet(OpensAtOnce, FreshBreaker, passes);
    AfterPass(OpensAtOnce, FreshBreaker, passes, 0);
    AfterNone(OpensAtOnce, FreshBreaker);
  }

  lemma {:induction false} RetryIsTheTrial()
    ensures var passes := CreditPasses([TimesOut, ComesTooLate]);
            && MakesAttempts(OpensAtOnce, FreshBreaker, 12, 2, passes, 1) && ComesToPass(12, 2, passes, 1)
            && IsTrial(OpensAtOnce, FreshBreaker, passes, 1)
  {
    hide AfterAll, CallsOf;
    var k, b, passes := OpensAtOnce, FreshBreaker, CreditPasses([TimesOut, ComesTooLate]);
    FirstAttemptTrips();
    assert Starts(k, b, 12, passes, 0) && ComesToPass(12, 2, passes, 0);
    AfterAllConcat(k, b, CallsOf(passes[..1]), passes[1].others);
    AfterNone(k, Breaker(Open, 1, 1, false));
  }

  /**
   The input that loses a trial: the first attempt opens the breaker, the wait of 10 is the
   cooldown, the retry is admitted at 11 as the trial, and its clock then reads the deadline.
   From there on `LostTrialBlocks` applies.
   */
  method RetryAdmittedAtTheDeadline() returns (breaker: CircuitBreaker, outcome: Outcome, attempts: nat)
    ensures fresh(breaker) && attempts == 1 && outcome == Unknown
    ensures breaker.state == HalfOpen && breaker.trialInFlight
  {
    hide MakesAttempts, CallsMade, CallsOf, AfterAll, IsTrial, Admitted, Starts;
    var turns := [TimesOut, ComesTooLate];
    ghost var passes := CreditPasses(turns);
    breaker := new CircuitBreaker(OpensAtOnce);
    outcome, attempts := CreditPoints(breaker, 2, 12, turns);
    RetryIsTheTrial();
    AttemptsAreDetermined(OpensAtOnce, FreshBreaker, 12, 2, passes, attempts, 1);
    TrialIsLostIff(OpensAtOnce, FreshBreaker, 12, 2, passes, 1);
    OutcomesGrow(turns, 0);
    assert Outcomes(turns[..1])[0] == Unknown;
  }
}
