/**
 Liveness in the form a safety proof can give: nothing automatable is ever out of the
 worker's reach, leases keep claims apart, and the number of inconclusive checks of a
 transfer is bounded, over every run and with crashes.
 */
module ReconciliationBound {
  import opened Wrappers
  import opened RateEngine
  import opened Partner
  import opened TransferState
  import opened Database
  import opened Conservation
  import opened Reconciliation
  import opened Protocol
  import opened ProtocolInvariant
  import opened ProtocolSafety

  // ---------------------------------------------------------------- nothing is stranded

  function Max(x: int, y: int): int {
    if x >= y then x else y
  }

  /** The instant from which the claim query selects an automatable row. */
  function DueFrom(p: Policy, t: Transfer): Time {
    var next := if t.nextCheckAt.Some? then t.nextCheckAt.value else t.createdAt;
    if t.status == PendingVerification then next else Max(next, t.createdAt + p.stuckAfter)
  }

  /**
   In every reached state, crashes included, each automatable transfer has a finite instant
   from which, and only from which, the claim query selects it (until its row is written).
   */
  lemma {:induction false} NothingIsStranded(c: Config, s0: State, steps: seq<Step>, s: State, id: nat, now: Time)
    requires Reached(c, s0, steps, s) && id < |s.db.transfers| && Automatable(s.db.transfers[id].status)
    ensures Due(c.policy, s.db.transfers[id], now) <==> now >= DueFrom(c.policy, s.db.transfers[id])
  {
    StatusDeterminesJournals(c, s0, steps, s, id);
  }

  // ---------------------------------------------------------------- leases keep claims apart

  /** Between here and the end of the run only claims write the row. */
  ghost predicate OnlyClaimsWrite(c: Config, s: State, steps: seq<Step>, id: nat)
    decreases |steps|
  {
    steps != [] && Next(c, s, steps[0]).Some? ==>
      var s' := Next(c, s, steps[0]).value;
      && (|| steps[0].Claim?
          || (&& id < |s.db.transfers| && id < |s'.db.transfers|
              && s'.db.transfers[id] == s.db.transfers[id]))
      && OnlyClaimsWrite(c, s', steps[1..], id)
  }

  /** Claims alone only ever push the next check of a leased row later. */
  lemma {:induction false} LeaseOnlyGrows(c: Config, s: State, steps: seq<Step>, id: nat, until: Time)
    requires Run(c, s, steps).Some? && OnlyClaimsWrite(c, s, steps, id) && id < |s.db.transfers|
    requires s.db.transfers[id].nextCheckAt.Some? && s.db.transfers[id].nextCheckAt.value >= until
    ensures var s' := Run(c, s, steps).value;
            && id < |s'.db.transfers|
            && s'.db.transfers[id].nextCheckAt.Some? && s'.db.transfers[id].nextCheckAt.value >= until
    decreases |steps|
  {
    if steps != [] {
      if steps[0].Claim? {
        ClaimLeasesDueRows(c.policy, s.db.transfers, steps[0].ids, steps[0].clock, id);
      }
      LeaseOnlyGrows(c, Next(c, s, steps[0]).value, steps[1..], id, until);
    }
  }

  /**
   Two claims whose clock readings are less than a lease apart never both return the same
   transfer, however late either of them runs its query, unless something other than a claim
   wrote the row in between.
   */
  lemma {:induction false} ClaimsWithinALeaseAreDisjoint(c: Config, s: State, ids: seq<nat>, clock: Time,
      between: seq<Step>, later: State, id: nat, again: Time)
    requires clock <= s.now && id < |s.db.transfers| && id in ids && Due(c.policy, s.db.transfers[id], clock)
    requires Run(c, Next(c, s, Claim(ids, clock)).value, between) == Some(later)
    requires OnlyClaimsWrite(c, Next(c, s, Claim(ids, clock)).value, between, id)
    requires again < clock + c.policy.lease
    ensures id < |later.db.transfers| && !Due(c.policy, later.db.transfers[id], again)
  {
    ClaimLeasesDueRows(c.policy, s.db.transfers, ids, clock, id);
    LeaseOnlyGrows(c, Next(c, s, Claim(ids, clock)).value, between, id, clock + c.policy.lease);
  }

  // ---------------------------------------------------------------- checks are bounded

  /** ceil(x / b), and 0 for nothing left. */
  function Ceil(x: int, b: nat): nat
    requires b > 0
  {
    if x <= 0 then 0 else (x + b - 1) / b
  }

  lemma {:induction false} CeilBounds(x: int, b: nat)
    requires b > 0 && x > 0
    ensures x <= Ceil(x, b) * b < x + b
  {
    FloorBounds(x + b - 1, b);
  }

  /** Spending a whole unit, or all that is left, takes at least one off the count. */
  lemma {:induction false} CeilStep(x: int, y: int, b: nat)
    requires b > 0 && x > 0 && (y <= x - b || y <= 0)
    ensures Ceil(y, b) + 1 <= Ceil(x, b)
  {
    CeilBounds(x, b);
    if y > 0 {
      CeilBounds(y, b);
      assert Ceil(y, b) * b < Ceil(x, b) * b;
      MulCancel(Ceil(y, b), Ceil(x, b), b);
    }
  }

  lemma {:induction false} CeilMono(x: int, y: int, b: nat)
    requires b > 0 && y <= x
    ensures Ceil(y, b) <= Ceil(x, b)
  {
    if y > 0 {
      FloorMono(y + b - 1, x + b - 1, b);
    }
  }

  lemma {:induction false} RowIsOk(c: Config, opening: seq<int>, s: State, id: nat)
    requires Inv(c, opening, s) && id < |s.db.transfers|
    ensures c.policy.Valid() && RowOk(c.policy, s.db.transfers[id])
  {
    hide DbInv, LaneOk;
    InvariantParts(c.policy, opening, s.db);
    assert TransferOk(c.policy, s.db.book.accounts, s.db.transfers[id]);
  }

  /** Checks left for a row whose next check comes at `from` or later. */
  function ChecksLeft(p: Policy, t: Transfer, from: Time): int
    requires p.backoffBase > 0
  {
    p.maxAttempts - 1 - t.attempts + Ceil(DecidableAt(p, t) - from, p.backoffBase)
  }

  /** A check that leaves the row verifiable uses up at least one of the checks left. */
  lemma {:induction false} InconclusiveCheckUsesBudget(p: Policy, t: Transfer, answer: Answer, from: Time, now: Time)
    requires p.Valid() && RowOk(p, t) && Verifiable(t.status) && now >= from
    requires CheckedRow(p, t, answer, now).Ok? && Verifiable(CheckedRow(p, t, answer, now).value.status)
    ensures var u := CheckedRow(p, t, answer, now).value;
            && u.nextCheckAt.Some?
            && 0 <= ChecksLeft(p, u, u.nextCheckAt.value)
            && ChecksLeft(p, u, u.nextCheckAt.value) + 1 <= ChecksLeft(p, t, from)
  {
    var u := CheckedRow(p, t, answer, now).value;
    var left := DecidableAt(p, t) - from;
    if answer.NotFound? {
      CeilStep(left, DecidableAt(p, t) - u.nextCheckAt.value, p.backoffBase);
    } else {
      CeilMono(left, DecidableAt(p, t) - u.nextCheckAt.value, p.backoffBase);
    }
  }

  /** The step applies a partner answer to transfer `id` while its row is still verifiable. */
  predicate ChecksTransfer(s: State, step: Step, id: nat) {
    && step.Apply? && step.worker in s.workers && s.workers[step.worker].Asked?
    && s.workers[step.worker].id == id
    && id < |s.db.transfers| && Verifiable(s.db.transfers[id].status)
  }

  ghost predicate StaysVerifiable(s: State, id: nat) {
    id < |s.db.transfers| && Verifiable(s.db.transfers[id].status)
  }

  /** Inconclusive checks of transfer `id` in a run. */
  ghost function InconclusiveChecks(c: Config, s: State, steps: seq<Step>, id: nat): nat
    decreases |steps|
  {
    if steps == [] || Next(c, s, steps[0]).None? then 0
    else
      var s' := Next(c, s, steps[0]).value;
      InconclusiveChecks(c, s', steps[1..], id)
      + if ChecksTransfer(s, steps[0], id) && StaysVerifiable(s', id) then 1 else 0
  }

  /** Each check of transfer `id` comes no earlier than the instant its predecessor wrote. */
  ghost predicate OnSchedule(c: Config, s: State, steps: seq<Step>, id: nat, from: Time)
    decreases |steps|
  {
    steps != [] && Next(c, s, steps[0]).Some? ==>
      var s' := Next(c, s, steps[0]).value;
      if ChecksTransfer(s, steps[0], id) && StaysVerifiable(s', id) then
        && steps[0].clock >= from
        && s'.db.transfers[id].nextCheckAt.Some?
        && OnSchedule(c, s', steps[1..], id, s'.db.transfers[id].nextCheckAt.value)
      else
        OnSchedule(c, s', steps[1..], id, from)
  }

  /** Each check after the first comes no earlier than the instant its predecessor wrote. */
  ghost predicate ChecksFollowSchedule(c: Config, s: State, steps: seq<Step>, id: nat)
    decreases |steps|
  {
    steps != [] && Next(c, s, steps[0]).Some? ==>
      var s' := Next(c, s, steps[0]).value;
      if ChecksTransfer(s, steps[0], id) && StaysVerifiable(s', id) then
        && s'.db.transfers[id].nextCheckAt.Some?
        && OnSchedule(c, s', steps[1..], id, s'.db.transfers[id].nextCheckAt.value)
      else
        ChecksFollowSchedule(c, s', steps[1..], id)
  }

  /** The first check of a transfer never comes before its creation. */
  lemma {:induction false} FirstCheckFollowsCreation(c: Config, opening: seq<int>, s: State, steps: seq<Step>, id: nat)
    requires Inv(c, opening, s) && Run(c, s, steps).Some? && id < |s.db.transfers|
    requires ChecksFollowSchedule(c, s, steps, id)
    ensures OnSchedule(c, s, steps, id, s.db.transfers[id].createdAt)
    decreases |steps|
  {
    hide Inv, Next, ChecksTransfer, FailsCheck;
    if steps != [] {
      var s' := Next(c, s, steps[0]).value;
      NextKeepsInv(c, opening, s, steps[0]);
      StepCountsFailedChecks(c, opening, s, steps[0], id);
      if ChecksTransfer(s, steps[0], id) {
        CheckFollowsCreation(c, opening, s, steps[0], id);
      }
      if !(ChecksTransfer(s, steps[0], id) && StaysVerifiable(s', id)) {
        FirstCheckFollowsCreation(c, opening, s', steps[1..], id);
      }
    }
  }

  lemma {:induction false} CheckFollowsCreation(c: Config, opening: seq<int>, s: State, step: Step, id: nat)
    requires Inv(c, opening, s) && Next(c, s, step).Some? && ChecksTransfer(s, step, id)
    ensures s.db.transfers[id].createdAt <= step.clock
  {
    hide DbInv, LaneOk, ApplyAnswer;
    assert WorkerOk(c, s, s.workers[step.worker]);
  }

  lemma {:induction false} ApplyCountsFailedChecks(c: Config, opening: seq<int>, s: State, w: nat, clock: Time, id: nat)
    requires Inv(c, opening, s) && Next(c, s, Apply(w, clock)).Some? && id < |s.db.transfers|
    ensures var s' := Next(c, s, Apply(w, clock)).value;
            && id < |s'.db.transfers|
            && s'.db.transfers[id].createdAt == s.db.transfers[id].createdAt
            && s'.db.transfers[id].attempts
            == s.db.transfers[id].attempts + (if FailsCheck(c, s, Apply(w, clock), id) then 1 else 0)
            && (ChecksTransfer(s, Apply(w, clock), id) ==>
                  CheckedRow(c.policy, s.db.transfers[id], s.workers[w].answer, clock) == Ok(s'.db.transfers[id]))
  {
    hide Inv, Next;
    ApplyStep(c, opening, s, w, clock);
  }

  lemma {:induction false} OtherStepsKeepAttempts(c: Config, opening: seq<int>, s: State, step: Step, id: nat)
    requires Inv(c, opening, s) && Next(c, s, step).Some? && !step.Apply? && id < |s.db.transfers|
    ensures var s' := Next(c, s, step).value;
            && id < |s'.db.transfers|
            && s'.db.transfers[id].createdAt == s.db.transfers[id].createdAt
            && s'.db.transfers[id].attempts == s.db.transfers[id].attempts
  {
    hide DbInv, LaneOk, DebitSource, ApplyOutcome, ReverseInterrupted, ClaimRows, Handle, CallerStep;
    match step
    case Create(req, route, clock) =>
      DebitSucceedsOrRefuses(c.policy, opening, s.db, req, route, c.limit, clock);
      var r := DebitSource(s.db, req, route, c.limit, clock);
      if r.Ok? { assert r.value.transfers[id] == r.value.transfers[..|s.db.transfers|][id]; }
    case Submit(k) => SubmitSucceeds(c.policy, opening, s.db, k, s.now);
    case Record(k, clock) =>
      OutcomeSucceeds(c.policy, opening, s.db, k, s.lanes[k].caller.outcome, c.verificationDelay, clock);
    case ReverseStuck(w) => ReverseStuckStep(c, opening, s, w);
    case Claim(ids, clock) => ClaimLeasesDueRows(c.policy, s.db.transfers, ids, clock, id);
    case _ =>
  }

  /** What every step does to the count of failed checks on a row. */
  lemma {:induction false} StepCountsFailedChecks(c: Config, opening: seq<int>, s: State, step: Step, id: nat)
    requires Inv(c, opening, s) && Next(c, s, step).Some? && id < |s.db.transfers|
    ensures var s' := Next(c, s, step).value;
            && id < |s'.db.transfers|
            && s'.db.transfers[id].createdAt == s.db.transfers[id].createdAt
            && s'.db.transfers[id].attempts
            == s.db.transfers[id].attempts + (if FailsCheck(c, s, step, id) then 1 else 0)
            && (ChecksTransfer(s, step, id) ==>
                  CheckedRow(c.policy, s.db.transfers[id], s.workers[step.worker].answer, step.clock) ==
                  Ok(s'.db.transfers[id]))
  {
    hide Inv, Next, CheckedRow;
    if step.Apply? {
      ApplyCountsFailedChecks(c, opening, s, step.worker, step.clock, id);
    } else {
      OtherStepsKeepAttempts(c, opening, s, step, id);
    }
  }

  /** A check that could not find out: the partner was unreachable or gave no usable answer. */
  predicate FailsCheck(c: Config, s: State, step: Step, id: nat) {
    && ChecksTransfer(s, step, id)
    && (var answer := s.workers[step.worker].answer;
        answer.Unreachable? || (answer.HasCredit? && answer.confirmation == ""))
  }

  /**
   Reconciliation is bounded: on schedule, a transfer sees no more inconclusive checks than
   its failed attempts and its not-found grace leave room for.
   */
  lemma {:induction false} ChecksAreBounded(c: Config, opening: seq<int>, s: State, steps: seq<Step>, id: nat,
      from: Time)
    requires Inv(c, opening, s) && Run(c, s, steps).Some? && id < |s.db.transfers|
    requires OnSchedule(c, s, steps, id, from) && c.policy.backoffBase > 0
    ensures InconclusiveChecks(c, s, steps, id) <= Max(0, ChecksLeft(c.policy, s.db.transfers[id], from))
    decreases |steps|
  {
    hide Inv, Next, ChecksLeft, ChecksTransfer, FailsCheck;
    if steps != [] {
      var s' := Next(c, s, steps[0]).value;
      NextKeepsInv(c, opening, s, steps[0]);
      StepCountsFailedChecks(c, opening, s, steps[0], id);
      if ChecksTransfer(s, steps[0], id) && StaysVerifiable(s', id) {
        CheckStepUsesBudget(c, opening, s, steps[0], id, from);
        ChecksAreBounded(c, opening, s', steps[1..], id, s'.db.transfers[id].nextCheckAt.value);
      } else {
        ChecksAreBounded(c, opening, s', steps[1..], id, from);
        BudgetOnlyShrinks(c.policy, s.db.transfers[id], s'.db.transfers[id], from);
      }
    }
  }

  lemma {:induction false} CheckStepUsesBudget(c: Config, opening: seq<int>, s: State, step: Step, id: nat, from: Time)
    requires Inv(c, opening, s) && Next(c, s, step).Some? && ChecksTransfer(s, step, id) && step.clock >= from
    requires StaysVerifiable(Next(c, s, step).value, id)
    ensures c.policy.backoffBase > 0
    ensures var t, u := s.db.transfers[id], Next(c, s, step).value.db.transfers[id];
            && u.nextCheckAt.Some?
            && 0 <= ChecksLeft(c.policy, u, u.nextCheckAt.value)
            && ChecksLeft(c.policy, u, u.nextCheckAt.value) + 1 <= ChecksLeft(c.policy, t, from)
  {
    hide Inv, Next, CheckedRow, ChecksLeft;
    StepCountsFailedChecks(c, opening, s, step, id);
    RowIsOk(c, opening, s, id);
    InconclusiveCheckUsesBudget(c.policy, s.db.transfers[id], s.workers[step.worker].answer, from, step.clock);
  }

  lemma {:induction false} BudgetOnlyShrinks(p: Policy, t: Transfer, u: Transfer, from: Time)
    requires p.backoffBase > 0 && u.createdAt == t.createdAt && u.attempts >= t.attempts
    ensures ChecksLeft(p, u, from) <= ChecksLeft(p, t, from)
  {
  }

  /** From its creation on: at most (max_attempts - 1) + ceil(grace / backoff_base) inconclusive checks. */
  lemma {:induction false} ChecksAreBoundedFromCreation(c: Config, s0: State, before: seq<Step>, s: State,
      steps: seq<Step>, id: nat)
    requires Reached(c, s0, before, s) && Run(c, s, steps).Some?
    requires HasStatus(s, id, SourceDebited)
    requires ChecksFollowSchedule(c, s, steps, id)
    ensures c.policy.backoffBase > 0
    ensures InconclusiveChecks(c, s, steps, id)
         <= c.policy.maxAttempts - 1 + Ceil(c.policy.notFoundGrace, c.policy.backoffBase)
  {
    hide Inv, Run, OnSchedule, ChecksFollowSchedule, InconclusiveChecks;
    ReachedHasInv(c, s0, before, s);
    RowIsOk(c, Opening(s0.db), s, id);
    FirstCheckFollowsCreation(c, Opening(s0.db), s, steps, id);
    ChecksAreBounded(c, Opening(s0.db), s, steps, id, s.db.transfers[id].createdAt);
  }

  ghost function FailedChecks(c: Config, s: State, steps: seq<Step>, id: nat): nat
    decreases |steps|
  {
    if steps == [] || Next(c, s, steps[0]).None? then 0
    else
      FailedChecks(c, Next(c, s, steps[0]).value, steps[1..], id)
      + if FailsCheck(c, s, steps[0], id) then 1 else 0
  }

  lemma {:induction false} AttemptsCountFailedChecks(c: Config, opening: seq<int>, s: State, steps: seq<Step>, id: nat)
    requires Inv(c, opening, s) && Run(c, s, steps).Some? && id < |s.db.transfers|
    ensures var s' := Run(c, s, steps).value;
            id < |s'.db.transfers|
            && s'.db.transfers[id].attempts == s.db.transfers[id].attempts + FailedChecks(c, s, steps, id)
    decreases |steps|
  {
    hide Inv, Next, FailsCheck;
    if steps != [] {
      NextKeepsInv(c, opening, s, steps[0]);
      StepCountsFailedChecks(c, opening, s, steps[0], id);
      AttemptsCountFailedChecks(c, opening, Next(c, s, steps[0]).value, steps[1..], id);
    }
  }

  /**
   MANUAL_REVIEW is reached by exactly max_attempts failed checks and by nothing else: a
   NOT_FOUND answer never counts.
   */
  lemma {:induction false} ManualReviewIffAttemptsExhausted(c: Config, s0: State, before: seq<Step>, s: State,
      steps: seq<Step>, later: State, id: nat)
    requires Reached(c, s0, before, s) && Run(c, s, steps) == Some(later)
    requires HasStatus(s, id, SourceDebited)
    ensures HasStatus(later, id, ManualReview) <==> FailedChecks(c, s, steps, id) == c.policy.maxAttempts
  {
    hide Inv, Run, FailedChecks;
    var opening := Opening(s0.db);
    ReachedHasInv(c, s0, before, s);
    RowIsOk(c, opening, s, id);
    AttemptsCountFailedChecks(c, opening, s, steps, id);
    RunKeepsInv(c, opening, s, steps);
    RowIsOk(c, opening, later, id);
  }

  /** An unknown outcome is first checked exactly the verification delay after it was recorded. */
  lemma {:induction false} UnknownIsCheckedAfterTheDelay(c: Config, opening: seq<int>, s: State, id: nat, clock: Time,
      s': State, t: Time)
    requires Inv(c, opening, s) && Next(c, s, Record(id, clock)) == Some(s') && HasStatus(s, id, PartnerSubmitted)
    requires id < |s.lanes| && s.lanes[id].caller == Concluded(Unknown)
    ensures HasStatus(s', id, PendingVerification)
    ensures Due(c.policy, s'.db.transfers[id], t) <==> t >= clock + c.verificationDelay
  {
    hide DbInv, LaneOk, RowOk, ApplyOutcome;
    OutcomeSucceeds(c.policy, opening, s.db, id, Unknown, c.verificationDelay, clock);
  }

  // ---------------------------------------------------------------- delays double

  /** The delay a failed check of transfer `id` leaves, if the transfer is not handed over. */
  ghost predicate Delays(c: Config, s: State, step: Step, id: nat, delay: int) {
    && FailsCheck(c, s, step, id) && Next(c, s, step).Some?
    && StaysVerifiable(Next(c, s, step).value, id)
    && Next(c, s, step).value.db.transfers[id].nextCheckAt == Some(step.clock + delay)
  }

  lemma {:induction false} FailedCheckDelays(c: Config, opening: seq<int>, s: State, step: Step, id: nat)
    requires Inv(c, opening, s) && Next(c, s, step).Some? && FailsCheck(c, s, step, id)
    requires StaysVerifiable(Next(c, s, step).value, id)
    ensures Delays(c, s, step, id, c.policy.Backoff(s.db.transfers[id].attempts + 1))
  {
    hide Inv, Next;
    StepCountsFailedChecks(c, opening, s, step, id);
  }

  /** The first failed check of a transfer is followed by the base delay, or the maximum if that is less. */
  lemma {:induction false} FirstDelayIsTheBase(c: Config, opening: seq<int>, s: State, step: Step, id: nat, delay: int)
    requires Inv(c, opening, s) && Delays(c, s, step, id, delay) && s.db.transfers[id].attempts == 0
    ensures delay == Min(c.policy.backoffBase, c.policy.backoffMax)
  {
    hide Inv, Next, FailsCheck;
    FailedCheckDelays(c, opening, s, step, id);
    BackoffDoubles(c.policy, 1);
  }

  /**
   Over any run: if two checks of a transfer fail and none fails in between, whatever else
   happens, the delay after the second is twice that after the first, up to the maximum.
   */
  lemma {:induction false} DelaysDouble(c: Config, opening: seq<int>, s: State, first: Step, between: seq<Step>,
      m: State,
      second: Step, id: nat, delay: int, next: int)
    requires Inv(c, opening, s) && Delays(c, s, first, id, delay)
    requires Run(c, Next(c, s, first).value, between) == Some(m)
    requires FailedChecks(c, Next(c, s, first).value, between, id) == 0
    requires Delays(c, m, second, id, next)
    ensures next == Min(2 * delay, c.policy.backoffMax)
  {
    hide Inv, Next, Run, FailedChecks;
    var s1, n := Next(c, s, first).value, s.db.transfers[id].attempts + 1;
    FailedCheckDelays(c, opening, s, first, id);
    NextKeepsInv(c, opening, s, first);
    StepCountsFailedChecks(c, opening, s, first, id);
    AttemptsCountFailedChecks(c, opening, s1, between, id);
    RunKeepsInv(c, opening, s1, between);
    FailedCheckDelays(c, opening, m, second, id);
    BackoffDoubles(c.policy, n);
  }
}
