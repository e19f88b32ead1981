/**
 The transfer row, its state machine, and every change one saga or reconciler transaction
 makes to the row. A transfer id is the row's position in the transfers table; the
 partner reference is that id.
 */
module TransferState {
  import opened Wrappers
  import opened Partner
  import opened RateEngine
  import Ledger

  datatype Status =
    | Pending
    | SourceDebited
    | PartnerSubmitted
    | PendingVerification
    | Completed
    | Reversed
    | ManualReview

  datatype FailureCode =
    | PartnerRejected
    | PartnerUnavailable
    | PartnerNotReceived
    | TransferInterrupted
    | VerificationExhausted

  /** One row of the append-only audit trail. */
  datatype Event = Event(from: Option<Status>, to: Status)

  datatype Transfer = Transfer(
    user: string,
    key: string,
    sourceProgram: nat,
    destinationProgram: nat,
    sourceAccount: nat,
    destinationAccount: nat,
    sourcePoints: int,
    destinationPoints: int,
    createdAt: Time,
    status: Status,
    failureCode: Option<FailureCode>,
    confirmation: Option<string>,
    attempts: nat,
    nextCheckAt: Option<Time>,
    completedAt: Option<Time>,
    events: seq<Event>)

  datatype SagaError =
    | Domain(code: ErrorCode)
    | LedgerFailure(error: Ledger.LedgerError)
    | InvalidTransition(from: Status, to: Status)
    | MissingSystemAccount
    | NoSuchTransfer
    | DuplicateKey

  function Allowed(from: Status): set<Status> {
    match from
    case Pending => {SourceDebited}
    case SourceDebited => {PartnerSubmitted, Reversed}
    case PartnerSubmitted => {Completed, Reversed, PendingVerification}
    case PendingVerification => {Completed, Reversed, ManualReview}
    case Completed => {}
    case Reversed => {}
    case ManualReview => {}
  }

  predicate CanTransition(from: Status, to: Status) {
    to in Allowed(from)
  }

  predicate IsFinal(s: Status) {
    s == Completed || s == Reversed
  }

  /** Debited points wait in clearing. */
  predicate InFlight(s: Status) {
    s in {SourceDebited, PartnerSubmitted, PendingVerification, ManualReview}
  }

  predicate Verifiable(s: Status) {
    s == PartnerSubmitted || s == PendingVerification
  }

  /** What the worker may pick up without a human. */
  predicate Automatable(s: Status) {
    s == SourceDebited || Verifiable(s)
  }

  function Transition(t: Transfer, to: Status, now: Time): Result<Transfer, SagaError> {
    if !CanTransition(t.status, to) then Err(InvalidTransition(t.status, to))
    else Ok(t.(status := to,
               completedAt := if IsFinal(to) then Some(now) else t.completedAt,
               events := t.events + [Event(Some(t.status), to)]))
  }

  // ---------------------------------------------------------------- row changes

  function SubmittedRow(t: Transfer, now: Time): Result<Transfer, SagaError> {
    Transition(t, PartnerSubmitted, now)
  }

  function SettledRow(t: Transfer, confirmation: string, now: Time): Result<Transfer, SagaError> {
    Transition(t.(confirmation := Some(confirmation), nextCheckAt := None), Completed, now)
  }

  function ReversedRow(t: Transfer, code: FailureCode, now: Time): Result<Transfer, SagaError> {
    Transition(t.(failureCode := Some(code), nextCheckAt := None), Reversed, now)
  }

  function UnknownOutcomeRow(t: Transfer, delay: nat, now: Time): Result<Transfer, SagaError> {
    Transition(t.(nextCheckAt := Some(now + delay)), PendingVerification, now)
  }

  // ---------------------------------------------------------------- reconciliation policy

  datatype Policy = Policy(
    lease: nat,
    stuckAfter: nat,
    notFoundGrace: nat,
    maxAttempts: nat,
    backoffBase: nat,
    backoffMax: nat)
  {
    /** The settings are positive integers. */
    predicate Valid() {
      && lease > 0 && stuckAfter > 0 && notFoundGrace > 0
      && maxAttempts > 0 && backoffBase > 0 && backoffMax > 0
    }

    /** How long to wait once `attempts` checks have failed; doubles each time, up to a cap. */
    function Backoff(attempts: nat): nat
      requires attempts >= 1
    {
      Min(backoffMax, backoffBase * Pow2(attempts - 1))
    }
  }

  function Min(x: int, y: int): int {
    if x <= y then x else y
  }

  function Pow2(n: nat): (p: nat)
    ensures p >= 1
  {
    if n == 0 then 1 else 2 * Pow2(n - 1)
  }

  function DecidableAt(p: Policy, t: Transfer): Time {
    t.createdAt + p.notFoundGrace
  }

  function VerifyingRow(t: Transfer, now: Time): Result<Transfer, SagaError> {
    if t.status == PartnerSubmitted then Transition(t, PendingVerification, now) else Ok(t)
  }

  function RecheckedRow(p: Policy, t: Transfer, now: Time): Result<Transfer, SagaError> {
    var v :- VerifyingRow(t, now);
    Ok(v.(nextCheckAt := Some(Min(now + p.backoffBase, DecidableAt(p, t)))))
  }

  function RetriedRow(p: Policy, t: Transfer, now: Time): Result<Transfer, SagaError> {
    var v :- VerifyingRow(t, now);
    var n := v.attempts + 1;
    if n >= p.maxAttempts then
      Transition(v.(attempts := n, failureCode := Some(VerificationExhausted), nextCheckAt := None),
                 ManualReview, now)
    else
      Ok(v.(attempts := n, nextCheckAt := Some(now + p.Backoff(n))))
  }

  /** What a status check does to the row, whatever the partner answered. */
  function CheckedRow(p: Policy, t: Transfer, answer: Answer, now: Time): Result<Transfer, SagaError> {
    if !Verifiable(t.status) then Ok(t)
    else if answer.HasCredit? && answer.confirmation != "" then SettledRow(t, answer.confirmation, now)
    else if answer.NotFound? then
      if now >= DecidableAt(p, t) then ReversedRow(t, PartnerNotReceived, now)
      else RecheckedRow(p, t, now)
    else RetriedRow(p, t, now)
  }

  // ---------------------------------------------------------------- the row invariant

  /** The audit trail is a legal path through the state machine that ends at `status`. */
  predicate LegalPath(events: seq<Event>, status: Status) {
    && events != []
    && events[0] == Event(None, Pending)
    && (forall i :: 0 < i < |events| ==>
                      && events[i].from == Some(events[i - 1].to)
                      && CanTransition(events[i - 1].to, events[i].to))
    && events[|events| - 1].to == status
  }

  predicate WasSubmitted(t: Transfer) {
    exists e <- t.events :: e.to == PartnerSubmitted
  }

  predicate RowOk(p: Policy, t: Transfer) {
    && t.status != Pending
    && t.sourcePoints > 0 && t.destinationPoints > 0
    && LegalPath(t.events, t.status)
    && (t.completedAt.Some? <==> IsFinal(t.status))
    && (t.confirmation.Some? <==> t.status == Completed)
    && (t.status == Completed ==> t.confirmation.value != "")
    && (t.failureCode.Some? <==> t.status == Reversed || t.status == ManualReview)
    && (t.status == Reversed ==>
          && t.failureCode != Some(VerificationExhausted)
          && (t.failureCode == Some(TransferInterrupted) <==> !WasSubmitted(t)))
    && (t.status == ManualReview ==> t.failureCode == Some(VerificationExhausted))
    && (t.status == PendingVerification ==> t.nextCheckAt.Some?)
    && (IsFinal(t.status) || t.status == ManualReview ==> t.nextCheckAt.None?)
    && t.attempts <= p.maxAttempts
    && (t.status == ManualReview <==> t.attempts == p.maxAttempts)
    && (t.status == SourceDebited ==> !WasSubmitted(t) && t.attempts == 0)
    && (Verifiable(t.status) ==> WasSubmitted(t))
  }

  /** Nothing that identifies a transfer or its terms ever changes after it is created. */
  predicate SameTerms(t: Transfer, u: Transfer) {
    && t.user == u.user && t.key == u.key
    && t.sourceProgram == u.sourceProgram && t.destinationProgram == u.destinationProgram
    && t.sourceAccount == u.sourceAccount && t.destinationAccount == u.destinationAccount
    && t.sourcePoints == u.sourcePoints && t.destinationPoints == u.destinationPoints
    && t.createdAt == u.createdAt
  }

  lemma {:induction false} TransitionExtendsPath(t: Transfer, to: Status, now: Time)
    requires LegalPath(t.events, t.status)
    requires CanTransition(t.status, to)
    ensures var u := Transition(t, to, now).value;
            && LegalPath(u.events, to)
            && t.events <= u.events
            && (WasSubmitted(u) <==> WasSubmitted(t) || to == PartnerSubmitted)
  {
    var u := Transition(t, to, now).value;
    var e := Event(Some(t.status), to);
    assert forall x :: x in u.events <==> x in t.events || x == e;
  }

  /** A row change succeeds, keeps the row invariant and touches none of the terms. */
  predicate GoodChange(p: Policy, t: Transfer, r: Result<Transfer, SagaError>) {
    r.Ok? && RowOk(p, r.value) && SameTerms(t, r.value)
  }

  lemma {:induction false} SubmitKeepsRow(p: Policy, t: Transfer, now: Time)
    requires p.Valid() && RowOk(p, t) && t.status == SourceDebited
    ensures GoodChange(p, t, SubmittedRow(t, now))
  {
    TransitionExtendsPath(t, PartnerSubmitted, now);
  }

  lemma {:induction false} SettleKeepsRow(p: Policy, t: Transfer, confirmation: string, now: Time)
    requires p.Valid() && RowOk(p, t) && Verifiable(t.status) && confirmation != ""
    ensures GoodChange(p, t, SettledRow(t, confirmation, now))
  {
    TransitionExtendsPath(t, Completed, now);
  }

  /** A reason to reverse this row: an interruption exactly before the partner was called. */
  predicate IsReason(t: Transfer, code: FailureCode) {
    code != VerificationExhausted && (code == TransferInterrupted <==> t.status == SourceDebited)
  }

  lemma {:induction false} ReverseKeepsRow(p: Policy, t: Transfer, code: FailureCode, now: Time)
    requires p.Valid() && RowOk(p, t) && Automatable(t.status) && IsReason(t, code)
    ensures GoodChange(p, t, ReversedRow(t, code, now))
    ensures WasSubmitted(ReversedRow(t, code, now).value) <==> WasSubmitted(t)
  {
    TransitionExtendsPath(t, Reversed, now);
  }

  lemma {:induction false} UnknownKeepsRow(p: Policy, t: Transfer, delay: nat, now: Time)
    requires p.Valid() && RowOk(p, t) && t.status == PartnerSubmitted
    ensures GoodChange(p, t, UnknownOutcomeRow(t, delay, now))
  {
    TransitionExtendsPath(t, PendingVerification, now);
  }

  lemma {:induction false} RecheckKeepsRow(p: Policy, t: Transfer, now: Time)
    requires p.Valid() && RowOk(p, t) && Verifiable(t.status)
    ensures GoodChange(p, t, RecheckedRow(p, t, now))
  {
    if t.status == PartnerSubmitted {
      TransitionExtendsPath(t, PendingVerification, now);
    }
  }

  lemma {:induction false} RetryKeepsRow(p: Policy, t: Transfer, now: Time)
    requires p.Valid() && RowOk(p, t) && Verifiable(t.status)
    ensures GoodChange(p, t, RetriedRow(p, t, now))
  {
    if t.status == PartnerSubmitted {
      TransitionExtendsPath(t, PendingVerification, now);
    }
    TransitionExtendsPath(VerifyingRow(t, now).value, ManualReview, now);
  }

  /** `u` differs from `t` at most in status, stamp and trail, and in the fields given anew. */
  predicate ChangesOnly(t: Transfer, u: Transfer, next: Option<Time>, code: Option<FailureCode>,
                        confirmation: Option<string>, attempts: nat) {
    u == t.(status := u.status, completedAt := u.completedAt, events := u.events,
            nextCheckAt := next, failureCode := code, confirmation := confirmation, attempts := attempts)
  }

  /** What each change of a row touches: every field it does not name stays. */
  lemma {:induction false} ChangesAreFramed(p: Policy, t: Transfer, confirmation: string, code: FailureCode, delay: nat,
      now: Time)
    ensures var r := SubmittedRow(t, now);
            r.Ok? ==> ChangesOnly(t, r.value, t.nextCheckAt, t.failureCode, t.confirmation, t.attempts)
    ensures var r := SettledRow(t, confirmation, now);
            r.Ok? ==> ChangesOnly(t, r.value, None, t.failureCode, Some(confirmation), t.attempts)
    ensures var r := ReversedRow(t, code, now);
            r.Ok? ==> ChangesOnly(t, r.value, None, Some(code), t.confirmation, t.attempts)
    ensures var r := UnknownOutcomeRow(t, delay, now);
            r.Ok? ==> ChangesOnly(t, r.value, Some(now + delay), t.failureCode, t.confirmation, t.attempts)
    ensures var r := RecheckedRow(p, t, now);
            r.Ok? ==> ChangesOnly(t, r.value, r.value.nextCheckAt, t.failureCode, t.confirmation, t.attempts)
    ensures var r := RetriedRow(p, t, now);
            r.Ok? ==> ChangesOnly(t, r.value, r.value.nextCheckAt,
                                  if r.value.status == ManualReview && t.status != ManualReview
                                  then Some(VerificationExhausted) else r.value.failureCode,
                                  t.confirmation, t.attempts + 1)
  {
  }

  // ---------------------------------------------------------------- delays

  /**
   The delay after the first failed check is the lesser of base and maximum, and each further one
   doubles the last, up to the maximum.
   */
  lemma {:induction false} BackoffDoubles(p: Policy, n: nat)
    requires n >= 1
    ensures p.Backoff(1) == Min(p.backoffBase, p.backoffMax)
    ensures p.Backoff(n + 1) == Min(2 * p.Backoff(n), p.backoffMax)
  {
    assert Pow2(0) == 1 && Pow2(n) == 2 * Pow2(n - 1);
    assert p.backoffBase * (2 * Pow2(n - 1)) == 2 * (p.backoffBase * Pow2(n - 1));
  }

  /**
   A recheck before the answer is decisive comes later than now, no later than the base delay or
   the decisive instant, and at one of the two.
   */
  lemma {:induction false} RecheckIsTimely(p: Policy, t: Transfer, now: Time)
    requires p.Valid() && Verifiable(t.status) && now < t.createdAt + p.notFoundGrace
    ensures var r := RecheckedRow(p, t, now);
            && r.Ok? && r.value.nextCheckAt.Some? && r.value.attempts == t.attempts
            && var next := r.value.nextCheckAt.value;
               && now < next <= now + p.backoffBase && next <= t.createdAt + p.notFoundGrace
               && (next == now + p.backoffBase || next == t.createdAt + p.notFoundGrace)
  {
  }

  /** A transition stamps a final status with its instant, and changes nothing but status, stamp and trail. */
  lemma {:induction false} TransitionStamps(t: Transfer, to: Status, now: Time)
    requires Transition(t, to, now).Ok?
    ensures var u := Transition(t, to, now).value;
            && u == t.(status := to, completedAt := u.completedAt, events := u.events)
            && u.completedAt == (if to == Completed || to == Reversed then Some(now) else t.completedAt)
            && u.events == t.events + [Event(Some(t.status), to)]
  {
  }

  // ---------------------------------------------------------------- shape of a history

  /** The statuses a trail passes through. */
  function Statuses(events: seq<Event>): seq<Status> {
    seq(|events|, i requires 0 <= i < |events| => events[i].to)
  }

  /** The ten histories a transfer can have. */
  predicate IsHistory(h: seq<Status>) {
    || h == [Pending] || h == [Pending, SourceDebited] || h == [Pending, SourceDebited, Reversed]
    || h == [Pending, SourceDebited, PartnerSubmitted]
    || h == [Pending, SourceDebited, PartnerSubmitted, Completed]
    || h == [Pending, SourceDebited, PartnerSubmitted, Reversed]
    || h == [Pending, SourceDebited, PartnerSubmitted, PendingVerification]
    || h == [Pending, SourceDebited, PartnerSubmitted, PendingVerification, Completed]
    || h == [Pending, SourceDebited, PartnerSubmitted, PendingVerification, Reversed]
    || h == [Pending, SourceDebited, PartnerSubmitted, PendingVerification, ManualReview]
  }

  /** Consecutive events join up: each starts where the one before ended. */
  predicate JoinsUp(events: seq<Event>) {
    && events != [] && events[0].from == None
    && forall i :: 0 < i < |events| ==> events[i].from == Some(events[i - 1].to)
  }

  /** A trail is legal exactly if it joins up into one of the ten histories, and ends at the status. */
  lemma {:induction false} LegalPathIff(events: seq<Event>, status: Status)
    ensures LegalPath(events, status) <==>
            JoinsUp(events) && IsHistory(Statuses(events)) && events[|events| - 1].to == status
  {
    var h := Statuses(events);
    if LegalPath(events, status) {
      LegalPathIsHistory(events, status);
      assert forall i :: 0 < i < |events| ==> events[i].from == Some(events[i - 1].to);
    }
    if JoinsUp(events) && IsHistory(h) && events[|events| - 1].to == status {
      assert events[0] == Event(None, h[0]);
      forall i | 0 < i < |events|
        ensures CanTransition(events[i - 1].to, events[i].to)
      {
        assert events[i - 1].to == h[i - 1] && events[i].to == h[i];
      }
    }
  }

  lemma {:induction false} LegalPathIsHistory(events: seq<Event>, status: Status)
    requires LegalPath(events, status)
    ensures IsHistory(Statuses(events))
  {
    var n, h := |events|, Statuses(events);
    if n == 1 {
      assert h == [Pending];
    } else {
      var front := events[..n - 1];
      assert CanTransition(events[n - 2].to, events[n - 1].to);
      LegalPathIsHistory(front, events[n - 2].to);
      assert h == Statuses(front) + [events[n - 1].to];
      assert Statuses(front)[n - 2] == events[n - 2].to;
    }
  }

  function Rank(s: Status): nat {
    match s
    case Pending => 0
    case SourceDebited => 1
    case PartnerSubmitted => 2
    case PendingVerification => 3
    case _ => 4
  }

  /** A transfer passes through each status at most once: ranks rise along its history. */
  lemma {:induction false} HistoryRises(events: seq<Event>, status: Status, i: nat, j: nat)
    requires LegalPath(events, status) && i < j < |events|
    ensures Rank(events[i].to) < Rank(events[j].to)
    decreases j
  {
    assert CanTransition(events[j - 1].to, events[j].to);
    if i < j - 1 {
      HistoryRises(events[..j], events[j - 1].to, i, j - 1);
    }
  }

  /** A reversal that skipped PARTNER_SUBMITTED came straight from SOURCE_DEBITED. */
  lemma {:induction false} InterruptedHistory(t: Transfer)
    requires LegalPath(t.events, t.status) && t.status == Reversed && !WasSubmitted(t)
    ensures t.events == [Event(None, Pending), Event(Some(Pending), SourceDebited),
                         Event(Some(SourceDebited), Reversed)]
  {
    var n := |t.events|;
    assert n > 1;
    assert t.events[1].to == SourceDebited;
    assert n > 2;
    assert t.events[2] in t.events;
    assert t.events[2].to == Reversed;
    assert n > 3 ==> CanTransition(t.events[2].to, t.events[3].to);
  }
}
