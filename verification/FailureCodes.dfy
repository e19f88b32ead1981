/**
 What a failure code says is so. The code stored with a reversal names the branch that made it,
 and over every run that branch's reason is borne out at the partner: refused, never reached,
 never called, or not found after the grace. Two of the codes make a reversal safe for ever
 with no assumption about time or the partner.
 */
module FailureCodes {
  import opened Wrappers
  import opened RateEngine
  import opened TransferState
  import opened Database
  import opened Conservation
  import opened Reconciliation
  import opened Protocol
  import opened ProtocolInvariant
  import opened ProtocolSafety
  import opened ReversalLimits

  /** What each code of a reversal promises about the partner's side, or about its instant. */
  predicate CodeIsTrue(p: Policy, t: Transfer, l: Lane) {
    t.status == Reversed ==>
      && (t.failureCode == Some(PartnerRejected) ==> l.refused)
      && (t.failureCode == Some(PartnerUnavailable) ==> l.wire == map[] && l.credits == map[] && l.caller.Gone?)
      && (t.failureCode == Some(TransferInterrupted) ==> !l.contacted)
      && (t.failureCode == Some(PartnerNotReceived) ==>
            t.completedAt.Some? && t.completedAt.value >= t.createdAt + p.notFoundGrace)
  }

  predicate AllCodesTrue(c: Config, s: State) {
    |s.lanes| == |s.db.transfers|
    && forall id :: 0 <= id < |s.lanes| ==> CodeIsTrue(c.policy, s.db.transfers[id], s.lanes[id])
  }

  /** How a row comes to be REVERSED: by its request's outcome, a check or the interrupted reversal. */
  ghost predicate ReversesFor(c: Config, s: State, step: Step, id: nat, u: Transfer) {
    || (&& step.Record? && step.id == id && id < |s.lanes| && s.lanes[id].caller.Concluded?
        && ((s.lanes[id].caller.outcome.Rejected? && u.failureCode == Some(PartnerRejected))
            || (s.lanes[id].caller.outcome.NotSent? && u.failureCode == Some(PartnerUnavailable))))
    || (&& step.ReverseStuck? && u.failureCode == Some(TransferInterrupted))
    || (&& step.Apply? && u.failureCode == Some(PartnerNotReceived)
        && u.completedAt == Some(step.clock) && step.clock >= u.createdAt + c.policy.notFoundGrace)
  }

  lemma {:induction false} CreateReversesNothing(c: Config, opening: seq<int>, s: State, step: Step, id: nat)
    requires Inv(c, opening, s) && Next(c, s, step).Some? && step.Create?
    ensures HasStatus(Next(c, s, step).value, id, Reversed) ==> HasStatus(s, id, Reversed)
  {
    hide DbInv, LaneOk, RowOk, DebitSource;
    DebitSucceedsOrRefuses(c.policy, opening, s.db, step.req, step.route, c.limit, step.clock);
    var s', n := Next(c, s, step).value, |s.db.transfers|;
    assert s'.db != s.db ==> s'.db.transfers[..n] == s.db.transfers;
    assert id < n ==> s'.db.transfers[..n][id] == s'.db.transfers[id];
  }

  lemma {:induction false} RecordReverses(c: Config, opening: seq<int>, s: State, step: Step, id: nat)
    requires Inv(c, opening, s) && Next(c, s, step).Some? && step.Record?
    ensures HasStatus(Next(c, s, step).value, id, Reversed) && !HasStatus(s, id, Reversed) ==>
              id < |s.db.transfers| && ReversesFor(c, s, step, id, Next(c, s, step).value.db.transfers[id])
  {
    hide DbInv, LaneOk, RowOk, ApplyOutcome;
    OutcomeSucceeds(c.policy, opening, s.db, step.id, s.lanes[step.id].caller.outcome, c.verificationDelay, step.clock);
  }

  lemma {:induction false} ApplyReverses(c: Config, opening: seq<int>, s: State, step: Step, id: nat)
    requires Inv(c, opening, s) && Next(c, s, step).Some? && step.Apply?
    ensures HasStatus(Next(c, s, step).value, id, Reversed) && !HasStatus(s, id, Reversed) ==>
              id < |s.db.transfers| && ReversesFor(c, s, step, id, Next(c, s, step).value.db.transfers[id])
  {
    hide Inv, Next;
    ApplyStep(c, opening, s, step.worker, step.clock);
  }

  lemma {:induction false} NewReversal(c: Config, opening: seq<int>, s: State, step: Step, id: nat)
    requires Inv(c, opening, s) && Next(c, s, step).Some?
    requires id < |Next(c, s, step).value.db.transfers| && HasStatus(Next(c, s, step).value, id, Reversed)
    requires !HasStatus(s, id, Reversed)
    ensures id < |s.db.transfers| && ReversesFor(c, s, step, id, Next(c, s, step).value.db.transfers[id])
  {
    hide DbInv, LaneOk, RowOk, DebitSource, ApplyOutcome, ReverseInterrupted, ApplyAnswer;
    hide ClaimRows, Handle, CallerStep;
    match step
    case Create(_, _, _) => CreateReversesNothing(c, opening, s, step, id);
    case Submit(k) => SubmitSucceeds(c.policy, opening, s.db, k, s.now);
    case Record(_, _) => RecordReverses(c, opening, s, step, id);
    case ReverseStuck(w) => ReverseStuckStep(c, opening, s, w);
    case Apply(_, _) => ApplyReverses(c, opening, s, step, id);
    case Claim(ids, clock) =>
      if id < |s.db.transfers| { ClaimLeasesDueRows(c.policy, s.db.transfers, ids, clock, id); }
    case _ =>
  }

  /** The request that recorded the outcome is gone, and its lane is otherwise as it was. */
  lemma {:induction false} RecordLeaves(c: Config, s: State, id: nat, clock: Time)
    requires Next(c, s, Record(id, clock)).Some?
    ensures id < |s.lanes| && Next(c, s, Record(id, clock)).value.lanes == s.lanes[id := s.lanes[id].(caller := Gone)]
  {
    hide ApplyOutcome;
  }

  lemma {:induction false} FreshCodeIsTrue(c: Config, opening: seq<int>, s: State, step: Step, id: nat)
    requires Inv(c, opening, s) && Next(c, s, step).Some?
    requires HasStatus(Next(c, s, step).value, id, Reversed) && !HasStatus(s, id, Reversed)
    requires id < |Next(c, s, step).value.lanes|
    ensures CodeIsTrue(c.policy, Next(c, s, step).value.db.transfers[id], Next(c, s, step).value.lanes[id])
  {
    hide DbInv, LaneOk, RowOk, Next;
    var s' := Next(c, s, step).value;
    NewReversal(c, opening, s, step, id);
    NextKeepsInv(c, opening, s, step);
    NeverSubmittedIsNeverContacted(c, opening, s', id);
    if step.Record? {
      RecordLeaves(c, s, id, step.clock);
      ConcludedIsBorneOut(c, opening, s, id);
    }
  }

  lemma {:induction false} ConcludedIsBorneOut(c: Config, opening: seq<int>, s: State, id: nat)
    requires Inv(c, opening, s) && id < |s.lanes| && s.lanes[id].caller.Concluded?
    ensures s.lanes[id].caller.outcome.NotSent? ==> s.lanes[id].wire == map[] && s.lanes[id].credits == map[]
    ensures s.lanes[id].caller.outcome.Rejected? ==> s.lanes[id].refused
  {
    hide DbInv;
    assert LaneOk(JobOf(c, s.db.book.accounts, s.db.transfers[id]), s.db.transfers[id], s.lanes[id]);
  }

  lemma {:induction false} NeverSubmittedIsNeverContacted(c: Config, opening: seq<int>, s: State, id: nat)
    requires Inv(c, opening, s) && id < |s.lanes|
    ensures id < |s.db.transfers| && RowOk(c.policy, s.db.transfers[id])
    ensures HasStatus(s, id, Reversed) && s.db.transfers[id].failureCode == Some(TransferInterrupted) ==>
              && !s.lanes[id].contacted && s.lanes[id].wire == map[] && s.lanes[id].credits == map[]
              && (s.lanes[id].caller.Debited? || s.lanes[id].caller.Gone?)
  {
    hide DbInv;
    InvariantParts(c.policy, opening, s.db);
    assert TransferOk(c.policy, s.db.book.accounts, s.db.transfers[id]);
    assert LaneOk(JobOf(c, s.db.book.accounts, s.db.transfers[id]), s.db.transfers[id], s.lanes[id]);
  }

  lemma {:induction false} OldCodeStaysTrue(c: Config, opening: seq<int>, s: State, step: Step, id: nat)
    requires Inv(c, opening, s) && Next(c, s, step).Some? && HasStatus(s, id, Reversed) && id < |s.lanes|
    requires CodeIsTrue(c.policy, s.db.transfers[id], s.lanes[id])
    ensures id < |Next(c, s, step).value.lanes| && HasStatus(Next(c, s, step).value, id, Reversed)
    ensures CodeIsTrue(c.policy, Next(c, s, step).value.db.transfers[id], Next(c, s, step).value.lanes[id])
  {
    hide DbInv, LaneOk, RowOk, Next;
    StepKeepsFinalRow(c, opening, s, step, id);
    NextKeepsInv(c, opening, s, step);
    LaneAfterStep(c, s, step, id);
    NeverSubmittedIsNeverContacted(c, opening, Next(c, s, step).value, id);
  }

  lemma {:induction false} StepKeepsCodes(c: Config, opening: seq<int>, s: State, step: Step)
    requires Inv(c, opening, s) && AllCodesTrue(c, s) && Next(c, s, step).Some?
    ensures AllCodesTrue(c, Next(c, s, step).value)
  {
    hide Next, CodeIsTrue;
    var s' := Next(c, s, step).value;
    NextKeepsInv(c, opening, s, step);
    SameLength(c, opening, s);
    SameLength(c, opening, s');
    hide Inv;
    forall id | 0 <= id < |s'.lanes|
      ensures CodeIsTrue(c.policy, s'.db.transfers[id], s'.lanes[id])
    {
      if HasStatus(s, id, Reversed) {
        OldCodeStaysTrue(c, opening, s, step, id);
      } else if HasStatus(s', id, Reversed) {
        FreshCodeIsTrue(c, opening, s, step, id);
      } else {
        NotReversedIsTrue(c.policy, s'.db.transfers[id], s'.lanes[id]);
      }
    }
  }

  lemma {:induction false} NotReversedIsTrue(p: Policy, t: Transfer, l: Lane)
    requires t.status != Reversed
    ensures CodeIsTrue(p, t, l)
  {
  }

  lemma {:induction false} RunKeepsCodes(c: Config, opening: seq<int>, s: State, steps: seq<Step>)
    requires Inv(c, opening, s) && AllCodesTrue(c, s) && Run(c, s, steps).Some?
    ensures AllCodesTrue(c, Run(c, s, steps).value)
    decreases |steps|
  {
    hide Inv, Next, AllCodesTrue;
    if steps != [] {
      NextKeepsInv(c, opening, s, steps[0]);
      StepKeepsCodes(c, opening, s, steps[0]);
      RunKeepsCodes(c, opening, Next(c, s, steps[0]).value, steps[1..]);
    }
  }

  /**
   In every run a stored failure code is true: PARTNER_REJECTED means the partner refused,
   PARTNER_UNAVAILABLE that nothing is or ever will be at the partner, TRANSFER_INTERRUPTED that
   it was never called, PARTNER_NOT_RECEIVED that the grace was over; VERIFICATION_EXHAUSTED
   stands exactly in MANUAL_REVIEW, and a transfer has a code exactly there or when REVERSED.
   */
  lemma {:induction false} FailureCodesAreTrue(c: Config, s0: State, steps: seq<Step>, s: State, id: nat)
    requires Reached(c, s0, steps, s) && id < |s.db.transfers|
    ensures id < |s.lanes| && CodeIsTrue(c.policy, s.db.transfers[id], s.lanes[id])
    ensures var t := s.db.transfers[id];
            && (t.failureCode.Some? <==> t.status == Reversed || t.status == ManualReview)
            && (t.failureCode == Some(VerificationExhausted) <==> t.status == ManualReview)
            && (t.status == Reversed ==> (t.failureCode == Some(TransferInterrupted) <==> !WasSubmitted(t)))
  {
    hide Inv, Next, Run, CodeIsTrue;
    var opening := Opening(s0.db);
    InitialHasInv(c, s0);
    RunKeepsCodes(c, opening, s0, steps);
    ReachedHasInv(c, s0, steps, s);
    NeverSubmittedIsNeverContacted(c, opening, s, id);
  }

  /**
   A reversal because the partner was unavailable, or because the transfer was interrupted, is
   safe for ever with no assumption at all: no continuation brings a credit.
   */
  lemma {:induction false} TwoCodesAreSafe(c: Config, s0: State, steps: seq<Step>, s: State, id: nat)
    requires Reached(c, s0, steps, s) && HasStatus(s, id, Reversed)
    requires s.db.transfers[id].failureCode in {Some(PartnerUnavailable), Some(TransferInterrupted)}
    ensures NeverCredited(c, s, id)
  {
    hide Inv, Next, Run;
    FailureCodesAreTrue(c, s0, steps, s, id);
    ReachedHasInv(c, s0, steps, s);
    NeverSubmittedIsNeverContacted(c, Opening(s0.db), s, id);
    ReversalStandsIff(c, s0, steps, s, id);
  }
}
