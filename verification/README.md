# Loyalty transfer engine: model and proofs

The engine moves loyalty points between programs. A transfer debits the user's source
account into a clearing account, asks a partner to credit the destination program under the
transfer id as reference, and then settles or reverses. Between those steps nothing is
locked: a request can stall or die anywhere, messages can be lost or late, and a reconciler
later asks the partner what happened. This project states what that design promises and
proves it over every run.

## How it is laid out

- `Ledger`, `TransferState`, `Partner`, `RateEngine`: the double-entry ledger, the transfer
  row and its state machine, the classification of partner answers, and conversion.
- `Database`, `Conservation`: each `unit_of_work` block as one function from a committed
  state to the next, the class `Store` whose methods are the code of those blocks, and the
  invariant every block keeps.
- `Reconciliation`, `Protocol`, `ProtocolInvariant`: the claim query, and one step system of
  any number of requests, workers and admin calls, the partner, messages, deaths and a clock.
- `ProtocolSafety`, `ReversalLimits`, `ReconciliationBound`: what holds over whole runs, the
  exact limits of reversal safety, and the bound on reconciliation. `FirstTransfer` is a
  concrete database that reaches the states the limits start from.
- `FailureCodes`, `ReconcilerPatience`: what a stored failure code says of the partner, and that
  the reconciler leaves live requests alone.
- `PartnerSimulator`, `Resilience`, `LockOrder`: the reference partner, the retry loop with
  its circuit breaker, and deadlock freedom.
- `Idempotency`, `IdempotencyProtocol`: one request on its own, and any number of them
  interleaved statement by statement.
- `CallRefinement`: the retry loop and the protocol's request are the same thing.
- `EndToEnd`, `Refusals`: the requests of one key in front of the transfer protocol, in one step
  system; what its successes and its refusals say.
- `RateHistory`: versions, bonuses, route lookup and the route cache.

`dafny verify dfyconfig.toml` checks everything.

## Assumptions that appear in statements

- One clock. A transaction reads it at any instant up to its commit and after the answer it
  acts on; nothing bounds the time in between.
- `Timely` holds the hypotheses of reversal safety: every credit lands strictly before
  created_at + landing (a credit at that very instant could follow a NOT_FOUND of the same
  instant), none lands after a refusal, and a NOT_FOUND is at most `staleness` old when the
  reconciler reads the clock. The settings only force the grace and stuck windows to exceed
  the partner deadline (app/config.py:85-100), which does not imply them.
- The partner is truthful and idempotent on the reference; it may fail, throttle, decline or
  answer without a usable confirmation at any time.

## Where the code does less than its documentation says

- app/partners/base.py:8 calls REJECTED definitive and app/partners/resilience.py:25-27
  promises that an UNKNOWN is never downgraded, but the guard at
  app/partners/resilience.py:257 covers NOT_SENT only. `RejectionIsSafeIff` gives the exact
  condition.
- A takeover deletes the row it loaded by id without looking at its status again
  (app/services/idempotency.py:206-208), so a handler that outlives the lock can have its
  completed record erased. `CompletedRecordsLastIff` gives the exact bound.
- `valid_until` is documented as the earliest moment a route changes by itself
  (app/services/rate_engine.py:61-63), but a route that has no rate yet does not know when
  its first version starts (app/services/rate_repository.py:93-104). A quote that reads its
  clock, is overtaken by the first version and then loads, stores that answer
  (`QuoteOvertakenByFirstVersion`). `HitAgreesIff` gives the exact condition.
- A half-open breaker is documented to close or open with its trial
  (app/partners/resilience.py:12-15), but a trial admitted as the deadline passes ends the loop
  unrecorded (app/partners/resilience.py:209-218), and the breaker then admits nothing until some
  other call records a result (`LostTrialBlocks`). `TrialIsLostIff` gives the exact condition,
  `RetryAdmittedAtTheDeadline` an input.
- A business error is documented to mean that no transfer was created
  (app/api/routes/transfers.py:5), but the debit's checks come before the unique key
  (app/services/transfer_service.py:171-197), so a takeover can be refused for the balance the
  request before it spent (`RefusalDespiteATransfer`). `RefusalIsTrueIff` gives the exact
  condition.

## Model

| member | source | states |
|---|---|---|
| `EndToEnd.SuccessesNameOneTransfer` | app/api/routes/transfers.py:66-98 | With both layers interleaved and no bound on handlers, all successful answers for one (user, key), from handlers or replays, under any fingerprint, name one transfer, which has exactly one debit and at most one partner credit |
| `EndToEnd.RunsProject` | app/api/idempotency.py:67-120 | Every run of the two layers is a run of the idempotency protocol and of the transfer protocol, so all their results hold of the whole |
| `EndToEnd.SuccessIsReached` | app/api/routes/transfers.py:75-89 | From the concrete seeded database a first request reaches a successful answer |
| `Refusals.RefusalIsTrueIff` | app/api/routes/transfers.py:3-5 | In every run where handlers end within the window and only its requests debit for the key, an answered business error means that no transfer of the key exists if and only if none was lost before: no request that got one died or was released unanswered, and no stored success was removed |
| `Refusals.RefusalDespiteATransfer` | app/services/transfer_service.py:171-197 | The input: a request debits the last point and dies, a takeover with the same order is refused for the balance, and 422 is answered and stored while the key has its transfer |
| `CallRefinement.LoopIsARun` | app/partners/resilience.py:198-264 | Every execution of the retry loop, with what the network did to its attempts, is a run of the protocol's steps that concludes with the loop's outcome |
| `CallRefinement.AllowedAttemptsAreALoop` | app/partners/resilience.py:208-255 | Every list of attempts the protocol allows a request is exactly what the loop makes for some clock and interference, from any breaker |
| `CallRefinement.ThrottledCallIsReversed` | app/partners/http_partner.py:88-91 | A call whose attempts, however many, were all throttled concludes NOT_SENT and the transfer is reversed at once as PARTNER_UNAVAILABLE |
| `ReversalLimits.ReversalsAreSafeIff` | app/services/reconciliation.py:313-328 | Reversals are safe in all runs where every credit lands before created_at + L, none lands after a refusal and a NOT_FOUND is at most D old when the clock is read, if and only if L + D is within the not-found grace (or L = 0) |
| `ProtocolSafety.ReversalIsSafe` | app/services/reconciliation.py:283-328 | Under those hypotheses a REVERSED transfer has no partner credit, now and after any continuation, under any interleaving of requests, workers, admin calls and deaths |
| `ProtocolSafety.LedgerAndPartnerAgree` | app/services/transfer_service.py:265-320 | On such a run a resolved transfer is COMPLETED exactly when the partner holds a credit for it |
| `ReversalLimits.RejectionIsSafeIff` | app/partners/resilience.py:235-264 | A reversal after attempts that end REJECTED is safe with no assumption at all if and only if no attempt was UNKNOWN; otherwise there is a run that ends reversed and credited |
| `ReversalLimits.ReversalStandsIff` | app/services/reconciliation.py:313-325 | In any reached state a reversal can never be followed by a credit if and only if no credit exists, no message of its reference is under way and its request cannot send one |
| `ReversalLimits.RunKeepsDead` | app/services/transfer_service.py:124-137 | Over every run, a lane with no credit, no message and no request able to send stays so |
| `ProtocolSafety.ApplyKeepsTimed` | app/services/reconciliation.py:283-328 | Applying a status answer keeps the timing invariant: a NOT_FOUND acted on after the grace was given after the last possible landing |
| `ProtocolSafety.CompletionIsHonest` | app/services/transfer_service.py:340-385 | With no timing assumption, a COMPLETED transfer has exactly one credit under its reference, at the partner of its destination program, for the user's member id in that program and exactly its destination points, and stores that credit's confirmation id |
| `ProtocolSafety.MessagesAskForTheTransfer` | app/services/transfer_service.py:129-135 | In every run every message and every credit of a reference is for the partner of the destination program, the user's member id there and exactly the destination points |
| `ProtocolSafety.ReferenceConflictIsUnreachable` | partner_simulator/main.py:155-161 | In every run a message that meets a credit of its reference asks for that same member and amount, and no reply is ever a 409 |
| `ProtocolSafety.InterruptedTransferIsNeverCalled` | app/services/reconciliation.py:264-281 | A transfer reversed before PARTNER_SUBMITTED has no message and no credit, before the reversal and in every continuation |
| `ReconcilerPatience.LiveRequestsAreLeftAlone` | app/services/reconciliation.py:209-222 | In every run, while a transfer is SOURCE_DEBITED or PARTNER_SUBMITTED and younger than the stuck window, only its own request changes its row |
| `FailureCodes.FailureCodesAreTrue` | app/domain/transfer_state.py:46-53 | In every run a stored failure code is true of the partner: rejected means refused, unavailable that nothing reached it, interrupted that it was never called, not received that the grace was over; exhausted stands exactly in MANUAL_REVIEW |
| `FailureCodes.TwoCodesAreSafe` | app/services/transfer_service.py:299-307 | A reversal as PARTNER_UNAVAILABLE or TRANSFER_INTERRUPTED can never be followed by a credit, with no assumption at all |
| `ProtocolSafety.FinalRowsNeverChange` | app/domain/transfer_state.py:33-43 | COMPLETED and REVERSED rows are identical after any further run |
| `ProtocolSafety.OneTransferAndDebitPerKey` | app/services/transfer_service.py:110-119 | In every run two transfers with one (user, key) are the same transfer, and it has exactly one debit journal |
| `ProtocolSafety.StatusDeterminesJournals` | app/services/transfer_service.py:200-216 | In every run in-flight and MANUAL_REVIEW transfers have exactly the debit journal, COMPLETED ones debit and settle, REVERSED ones debit and reversal, and the events are a legal path that ends at the status |
| `ProtocolSafety.OnlyTheDebitRefuses` | app/services/transfer_service.py:102-143 | In every run, once the debit committed, submitting fails only because the reconciler reversed first and recording an outcome never fails: a DomainError always comes from the rolled-back debit |
| `ProtocolSafety.PointsAreConserved` | app/services/ledger_invariants.py:18-50 | In every reached state program totals are zero, clearing holds exactly the in-flight points (never negative), and a user holds the seed less non-reversed outgoing points plus completed incoming ones, never negative |
| `ProtocolInvariant.NextKeepsInv` | app/services/transfer_service.py:147-320 | Each of the seventeen kinds of step keeps the protocol invariant (ledger, rows, messages, replies, credits and what each actor believes) |
| `ProtocolInvariant.RunKeepsInv` | app/services/transfer_service.py:102-143 | The protocol invariant holds along every run |
| `ProtocolInvariant.ConclusionIsBorneOut` | app/partners/resilience.py:257-264 | NOT_SENT is concluded only when nothing is under way or applied, SUCCESS only with the confirmation the partner holds, REJECTED only after a refusal |
| `ProtocolInvariant.HandleKeepsLane` | partner_simulator/main.py:136-179 | Any way the partner handles a message keeps the invariant of its reference, never takes a credit back, and answers 200 when the credit exists |
| `FirstTransfer.FirstTransferIsSubmitted` | app/services/transfer_service.py:147-261 | From a concrete seeded database a transfer reaches its first partner attempt, on time for any hypotheses |
| `PartnerSimulator.Simulator.CreateCredit` | partner_simulator/main.py:136-179 | The reply and the new credits are those of the specification for every mode; other references are untouched |
| `PartnerSimulator.Simulator.GetCredit` | partner_simulator/main.py:187-208 | The classified answer is the protocol's truthful status answer |
| `PartnerSimulator.ServedIsHandled` | partner_simulator/main.py:136-179 | Every mode of the simulator is one of the protocol's partner steps, with the same reply and credits |
| `PartnerSimulator.ModeTable` | partner_simulator/main.py:105-179 | Each mode's answer by code, and a credit is applied exactly by the requests answered 201 with their confirmation |
| `PartnerSimulator.AppliedRequestIsReplayed` | partner_simulator/main.py:155-168 | After a request was applied, and whatever requests came in between, the same request changes nothing and gets the first confirmation id |
| `PartnerSimulator.CreditStands` | partner_simulator/state.py:68-83 | A credit is unchanged by any list of later requests |
| `PartnerSimulator.ConflictingRequestIsRefused` | partner_simulator/main.py:155-161 | After any requests in between, a reference reused for another member or amount gets 409 and the first credit stands |
| `ReconciliationBound.ChecksAreBounded` | app/services/reconciliation.py:313-385 | On schedule, inconclusive checks never exceed what failed attempts and grace leave room for, from any state of any run |
| `ReconciliationBound.ChecksAreBoundedFromCreation` | app/services/reconciliation.py:330-385 | From its debit on a transfer sees at most (max_attempts - 1) + ceil(not_found_grace / backoff_base) inconclusive checks, if each check after the first waits for the instant its predecessor wrote |
| `ReconciliationBound.FirstCheckFollowsCreation` | app/services/reconciliation.py:209-233 | In every run the first check reads its clock no earlier than the transfer's creation |
| `ReconciliationBound.AttemptsCountFailedChecks` | app/services/reconciliation.py:347-362 | Over every run verification_attempts grows by exactly the checks that could not find out; NOT_FOUND never counts |
| `ReconciliationBound.DelaysDouble` | app/services/reconciliation.py:115-118 | Over any run the delay after a failed check is twice that after the failed check before it, up to the maximum, whatever happens in between |
| `ReconciliationBound.FirstDelayIsTheBase` | app/services/reconciliation.py:378-379 | The first failed check is followed by the lesser of base and maximum |
| `ReconciliationBound.UnknownIsCheckedAfterTheDelay` | app/services/transfer_service.py:308-319 | An unknown outcome is due for its first check exactly the verification delay after it was recorded |
| `ReconciliationBound.ManualReviewIffAttemptsExhausted` | app/services/reconciliation.py:363-376 | A transfer is in MANUAL_REVIEW if and only if exactly max_attempts checks failed since its debit |
| `ReconciliationBound.NothingIsStranded` | app/services/reconciliation.py:164-173 | In every reached state each automatable transfer is due exactly from one finite instant on, until its row is written |
| `ReconciliationBound.ClaimsWithinALeaseAreDisjoint` | app/services/reconciliation.py:174-196 | A claimed row is not due for any claim whose clock reading is less than a lease after the first one's, however late its query runs, unless something other than a claim wrote it |
| `Reconciliation.ClaimDue` | app/services/reconciliation.py:164-196 | Claims unlocked due rows only, in next-check order with nulls first, at most a batch, passes over a due row only when the batch is full of earlier ones, and leases exactly the claimed rows |
| `Reconciliation.FirstClaimable` | app/services/reconciliation.py:174-183 | Returns the least due unlocked row in the query's order, and nothing only if there is none |
| `Reconciliation.ClaimLeasesDueRows` | app/services/reconciliation.py:184-193 | A claim sets the lease on the due rows among its ids and leaves every other row alone |
| `Reconciliation.ClaimedRowIsDueAgain` | app/services/reconciliation.py:184-193 | A claimed row is due again exactly from the end of its lease |
| `Reconciliation.BeforeIsTheOrder` | app/services/reconciliation.py:179-179 | The order of the claim is a strict total order: never checked first, then earlier checks, then lower ids |
| `Reconciliation.ClaimKeepsInvariant` | app/services/reconciliation.py:184-193 | A claim keeps the database invariant |
| `Database.Store.Debit` | app/services/transfer_service.py:147-223 | Commits the debit transaction of the specification, or changes nothing and reports its error |
| `Database.Store.Submit` | app/services/transfer_service.py:251-261 | Commits the submit transaction or changes nothing |
| `Database.Store.SettleTransfer` | app/services/transfer_service.py:340-385 | Posts clearing to settlement and settlement to the user, and moves the row to COMPLETED, as specified |
| `Database.Store.ReverseTransfer` | app/services/transfer_service.py:388-419 | Posts clearing back to the source account in full and moves the row to REVERSED, as specified |
| `Database.Store.ApplyPartnerOutcome` | app/services/transfer_service.py:265-320 | Records each outcome as specified, ignores it if the row moved on, and rolls back as a whole on an error |
| `Database.Store.ReverseInterruptedTransfer` | app/services/reconciliation.py:264-281 | Reverses a row that is still SOURCE_DEBITED and leaves any other alone |
| `Database.Store.ApplyPartnerStatus` | app/services/reconciliation.py:283-328 | Settles, reverses, reschedules or escalates as specified, or changes nothing when the row is no longer verifiable |
| `Database.Store.RecheckAfterGrace` | app/services/reconciliation.py:330-345 | The next check is the earlier of now + backoff_base and the decidable instant, and the attempts are unchanged |
| `Database.Store.RetryOrEscalate` | app/services/reconciliation.py:347-385 | One more attempt: rescheduled with backoff, or MANUAL_REVIEW at max_attempts |
| `Database.PlanDebit` | app/services/transfer_service.py:150-176 | A plan names the user's own accounts in both programs, the source clearing account, positive points and a sufficient balance |
| `Conservation.DebitSucceedsOrRefuses` | app/services/transfer_service.py:147-216 | The debit creates exactly one SOURCE_DEBITED transfer with the request's user, key, programs and points, whose destination points are the floor of points * numerator / denominator plus the floor of the share of the bonus in force on the route, and keeps the invariant; or it fails with a business error or a taken key, never in the ledger |
| `Conservation.DebitCommitsIff` | app/services/transfer_service.py:102-197 | A debit commits if and only if the programs differ and are active, the platform limit and the rate allow the points, they reach one destination point, the user has both accounts and the balance, and the key has no transfer |
| `Conservation.PlanAcceptsIff` | app/services/transfer_service.py:154-176 | The checks before the debit pass exactly then, and each refusal names its reason |
| `Conservation.SubmitSucceeds` | app/services/transfer_service.py:251-261 | Submitting succeeds exactly from SOURCE_DEBITED and keeps the invariant |
| `Conservation.SettleSucceeds` | app/services/transfer_service.py:340-385 | Settling a verifiable transfer never fails (not on balance, not on a posted journal), changes only its row and keeps the invariant |
| `Conservation.ReverseSucceeds` | app/services/transfer_service.py:388-419 | Reversing an automatable transfer never fails; for its proper reason it changes only its row and keeps the invariant |
| `Conservation.OutcomeSucceeds` | app/services/transfer_service.py:265-320 | Recording any outcome in any state never fails and keeps the invariant |
| `Conservation.InterruptedSucceeds` | app/services/reconciliation.py:264-281 | The interrupted reversal never fails and keeps the invariant |
| `Conservation.AnswerSucceeds` | app/services/reconciliation.py:283-328 | Applying any status answer never fails and keeps the invariant |
| `Conservation.BalancesAreExplained` | app/services/transfer_service.py:366-419 | Clearing equals its opening plus the in-flight points of the program, a user balance its opening minus spent plus received |
| `TransferState.TransitionExtendsPath` | app/domain/transfer_state.py:81-110 | An allowed transition extends the audit trail by one legal step |
| `TransferState.HistoryRises` | app/domain/transfer_state.py:33-41 | A transfer passes through each status at most once |
| `TransferState.InterruptedHistory` | app/domain/transfer_state.py:33-41 | A reversal without PARTNER_SUBMITTED has exactly the history created, debited, reversed |
| `TransferState.RetryKeepsRow` | app/services/reconciliation.py:347-385 | A retry or escalation is always a legal transition and keeps the row invariant and the terms |
| `TransferState.RecheckKeepsRow` | app/services/reconciliation.py:330-345 | A recheck keeps the row invariant and the terms |
| `TransferState.BackoffDoubles` | app/services/reconciliation.py:115-118 | The delays of successive attempts double up to the maximum |
| `TransferState.RecheckIsTimely` | app/services/reconciliation.py:330-345 | A recheck comes after now, by the base delay and the decisive instant, and at one of the two |
| `TransferState.TransitionStamps` | app/domain/transfer_state.py:97-110 | A transition stamps a final status with its instant and changes nothing but status, stamp and trail |
| `TransferState.ChangesAreFramed` | app/services/transfer_service.py:377-419 | What each change of a row touches; every field it does not name stays |
| `TransferState.LegalPathIff` | app/domain/transfer_state.py:33-41 | A trail is legal exactly if it is one of the ten histories of a transfer |
| `Ledger.ValidateJournal` | app/services/ledger.py:79-94 | True exactly for two or more positive postings that net to zero in every program |
| `Ledger.NetBalanceChanges` | app/services/ledger.py:97-102 | The touched accounts and only those, each with its signed sum |
| `Ledger.Session.PostJournal` | app/services/ledger.py:105-162 | Agrees with the specification on the new ledger and on every error |
| `Ledger.Session.UpdateBalances` | app/services/ledger.py:143-159 | The ascending update loop applies all net changes, and fails exactly when some user account would be overdrawn |
| `Ledger.OverdraftIffSomeUserNegative` | app/services/ledger.py:111-117 | A journal is refused for balance exactly when some user's balance plus net change is negative, whatever the order |
| `Ledger.PostAcceptsIff` | app/services/ledger.py:105-162 | A journal is posted if and only if it has two or more positive postings that balance in every program, belongs to a transfer unless a seed, is the first of its type for it, names accounts of the postings' programs and leaves no user below zero |
| `Ledger.PostKeepsJournalsUnique` | app/services/ledger.py:121-130 | A transfer never gets two journals of one type: posting again is refused as already posted |
| `Ledger.PostKeepsConsistent` | app/services/ledger.py:105-162 | After posting, every balance still equals the signed sum of its entries, users are not negative, and only balances changed |
| `Ledger.ProgramTotalsAreZero` | app/services/ledger_invariants.py:18-25 | When balances match balanced journals every program total is zero |
| `LockOrder.NoCycleOfWaits` | app/services/ledger.py:189-205 | No chain of concurrent debits, submits, outcomes, reversals, checks and claims, each with the locks it computes from the database, closes into a cycle of waits |
| `LockOrder.SomeoneCanProceed` | app/services/ledger.py:143-159 | In any nonempty set of those transactions one is not waiting for another |
| `LockOrder.TransactionsLockWhatTheyWrite` | app/services/transfer_service.py:171-208 | Every account, journal entry, transfer row and key that a committed saga transaction wrote is in its plan of locks, so it never waits once its plan is held |
| `LockOrder.PlansAreInOrder` | app/services/transfer_service.py:327-409 | The plan of every saga transaction takes locks in the global order: transfer row, then accounts ascending, then the key slot |
| `LockOrder.PostingsTouch` | app/services/transfer_service.py:366-409 | Each journal touches exactly the accounts its transaction locks |
| `LockOrder.LockOrderOf` | app/services/ledger.py:193-200 | The lock order is the one ascending list of the distinct account ids |
| `Resilience.CreditPoints` | app/partners/resilience.py:198-264 | For every breaker, clock and partner behaviour the result is the last attempt's SUCCESS or REJECTED, else UNKNOWN if any attempt was, else NOT_SENT; the attempts are exactly those that admission, deadline, delay and retryability lead to, each before the deadline, at least one if the first is admitted in time; the breaker is left as its calls, mixed with those of other requests, leave it, and CLOSED at zero after a SUCCESS or REJECTED |
| `Resilience.GetCreditStatus` | app/partners/resilience.py:266-302 | The answer is the last attempt's and all earlier ones were UNKNOWN; attempts and breaker are characterised as for a credit, with NOT_FOUND healthy |
| `Resilience.CreditCallCounts` | app/partners/resilience.py:235-240 | While other requests only look, a credit call that ends SUCCESS or REJECTED resets the failures since a success, and each UNKNOWN or NOT_SENT attempt adds one |
| `Resilience.AttemptsAreDetermined` | app/partners/resilience.py:208-255 | Breaker, clock and results leave exactly one possible number of attempts |
| `Resilience.LostTrialBlocks` | app/partners/resilience.py:99-106 | A trial whose result is never recorded keeps the breaker HALF_OPEN and admits nothing, whatever the clock, until some call records a result |
| `Resilience.TrialIsLostIff` | app/partners/resilience.py:208-218 | When the loop ends at a pass it does not attempt, that pass was admitted and the breaker is left HALF_OPEN with a trial in flight if and only if it was admitted as a trial (also of a breaker that asking itself half-opens) and the deadline had passed by its next clock reading |
| `Resilience.RetryAdmittedAtTheDeadline` | app/partners/resilience.py:198-264 | An input through the loop that loses a trial: threshold 1, cooldown 10, a first attempt that times out, a retry admitted at 11 whose clock then reads the deadline of 12 |
| `Resilience.BreakerInvariant` | app/partners/resilience.py:90-136 | Over every call sequence: CLOSED exactly below threshold failures since a success, a trial in flight only in HALF_OPEN, at most one admission per stay there |
| `Resilience.OpenBreakerAdmitsNothing` | app/partners/resilience.py:90-106 | An OPEN breaker stays OPEN and admits nothing during its cooldown unless a success is recorded |
| `Resilience.FailureStartsTheCooldown` | app/partners/resilience.py:114-125 | Over every call list, a failure that leaves the breaker OPEN starts the cooldown afresh: the next request is admitted exactly from then plus the cooldown, and nothing earlier short of a success |
| `Resilience.OpensExactlyAt` | app/partners/resilience.py:108-125 | A failure leaves the breaker OPEN exactly when it is at least the threshold-th since a success, and a success always closes it |
| `Resilience.CircuitBreaker.AllowRequest` | app/partners/resilience.py:99-106 | The new state and the answer are those of the breaker specification |
| `Resilience.CircuitBreaker.RecordFailure` | app/partners/resilience.py:114-125 | The new state is that of the breaker specification |
| `Resilience.CircuitBreaker.RecordSuccess` | app/partners/resilience.py:108-112 | The new state is that of the breaker specification |
| `Partner.HttpAdapterIsWellBehaved` | app/partners/http_partner.py:44-120 | SUCCESS and REJECTED are never retryable, everything else is, and a confirmation id is never empty |
| `Partner.CreditTable` | app/partners/http_partner.py:44-99 | The exact table of credit outcomes: SUCCESS for 200 or 201 with an id, NOT_SENT for a failed connection or 429, REJECTED for any other 4xx, UNKNOWN for the rest |
| `Partner.StatusTable` | app/partners/http_partner.py:62-120 | The exact table of status answers: found for 200 with an id, not found for 404, unknown for the rest |
| `IdempotencyProtocol.HandlersExcludeEachOtherIff` | app/services/idempotency.py:193-249 | With any interleaving and Redis up, down or losing locks, at most one handler runs at a time in all runs where handlers end within a bound, if and only if the bound is at most min(key_ttl, lock_ttl) |
| `IdempotencyProtocol.CompletedRecordsLastIff` | app/services/idempotency.py:204-208 | Completed records survive until they expire in all such runs if and only if the bound is at most lock_ttl or key_ttl is: otherwise a takeover deletes a row completed meanwhile |
| `IdempotencyProtocol.AtMostOneHandlerRuns` | app/services/idempotency.py:129-153 | Mutual exclusion of handlers within the window, over every run |
| `IdempotencyProtocol.CompletedRecordIsImmutable` | app/services/idempotency.py:155-191 | Within the window no step changes a completed record before it expires |
| `IdempotencyProtocol.CompletedRecordIsReplayed` | app/services/idempotency.py:134-153 | Until expiry every request that reads the record answers with the stored status and body for its fingerprint, a mismatch for any other, and starts no handler, under the exact condition for records to last |
| `IdempotencyProtocol.RecordInProgressIsReported` | app/services/idempotency.py:134-143 | At every statement that reads it, a record in progress is reported as in progress exactly to its own fingerprint and as a mismatch to any other, unless a load finds it expired or abandoned; without a record a locked-out or beaten request is told in progress |
| `IdempotencyProtocol.LateRequestsAreFenced` | app/services/idempotency.py:155-191 | With no bound at all, a late complete, release or unlock never changes the row or the lock of the request that owns them |
| `Idempotency.AnswerIsReplayed` | app/services/idempotency.py:284-297 | Round trip: an answered request is replayed exactly until expiry; another body is a mismatch |
| `Idempotency.LiveRecordIsReported` | app/services/idempotency.py:284-289 | A live record in progress is reported as in progress exactly to its own fingerprint, and as a mismatch to any other |
| `Idempotency.LockedOutIsReported` | app/services/idempotency.py:134-143 | A request that is locked out and finds no record is told in progress |
| `Idempotency.NewBeginIff` | app/services/idempotency.py:193-249 | A begin is NEW exactly when the lock is free or Redis down, and no record, or only an expired or abandoned one, is stored |
| `Idempotency.LockIsHeldForItsTime` | app/services/idempotency.py:251-269 | A lock is held for exactly its time, and released by its token alone |
| `Idempotency.FirstAnswerStands` | app/services/idempotency.py:155-191 | Completing or releasing writes exactly the named record in progress, and leaves a completed or another's record alone |
| `Idempotency.FailureStartsOver` | app/services/idempotency.py:182-191 | A released key starts a new request, with Redis down, or up once the lock is free |
| `Idempotency.IdempotencyService.AcquireLock` | app/services/idempotency.py:251-260 | True only for a free lock, which it then holds; false or unavailable changes nothing |
| `Idempotency.IdempotencyService.ReleaseLock` | app/services/idempotency.py:262-269 | Removes the lock only under its own token, and touches no other key |
| `Idempotency.IdempotencyService.Claim` | app/services/idempotency.py:193-249 | Takes over an expired or abandoned row, inserts when there is none, and classifies any other without a change |
| `Idempotency.IdempotencyService.RunIdempotent` | app/api/idempotency.py:67-120 | The begin is the specified one; the handler runs exactly on a NEW begin; its answer is stored below 500 and forgotten on a crash or a 5xx; a lock it took is gone and another's is untouched; other keys are untouched |
| `RateEngine.ConversionPaysEarned` | app/services/rate_engine.py:113-159 | Accepted exactly when the rate allows the amount and something is earned, paying exactly base and bonus; zero-point refusal exactly when points * numerator < denominator |
| `RateEngine.CalculateConversion` | app/services/rate_engine.py:113-159 | Each refusal exactly by its rule; an accepted conversion pays the floor of points * numerator / denominator plus the floor of the bonus share in force |
| `RateEngine.RoundingFavoursPlatform` | app/services/rate_engine.py:136-139 | Never more than the exact value, and short of it by less than 1 + (10000 + bps)/10000 points |
| `RateEngine.SplittingNeverEarnsMore` | app/services/rate_engine.py:136-139 | Splitting an amount into any list of parts never earns more |
| `RateEngine.ChainNeverBeatsItsRate` | app/services/rate_engine.py:136-139 | A chain of transfers of any length never beats the product of its rates and bonuses |
| `RateEngine.CycleNeverGains` | app/services/rate_engine.py:136-139 | A cycle whose rate product is at most one never returns more than it took |
| `RateEngine.AmountsFitBigint` | app/api/schemas.py:14-21 | Within the request limits points * numerator and every amount of one conversion are below 2^63 |
| `RateEngine.BonusProductFitsIff` | app/services/rate_engine.py:138-138 | The product under the bonus's division, which is not stored, is below 2^63 if and only if points * numerator is below a given multiple of the denominator |
| `RateEngine.BonusProductCanExceedBigint` | app/services/rate_engine.py:138-138 | Inside the request limits that product reaches 10^22 |
| `RateHistory.VersionKeepsContiguous` | app/services/rate_admin.py:118-171 | A change is accepted exactly when acceptable and later than the current start, and versions stay 1..n with contiguous windows |
| `RateHistory.AcceptableIffMinimumIsAllowed` | app/services/rate_admin.py:78-86 | A well formed rate is acceptable exactly if its own minimum can be transferred |
| `RateHistory.HistoryIsStable` | app/services/rate_admin.py:118-171 | After any list of changes versions are contiguous and the terms at every earlier instant are unchanged |
| `RateHistory.PastTermsNeverChange` | app/services/rate_admin.py:154-171 | A new version never changes the terms in force at an earlier instant |
| `RateHistory.NewVersionTakesForce` | app/services/rate_admin.py:154-171 | From an accepted change on exactly the requested numerator, denominator, minimum, increment and maximum are in force, as the next version, started at that instant |
| `RateHistory.LastChangeIsInForce` | app/services/rate_admin.py:118-171 | After any list of changes the same holds of the last accepted one |
| `RateHistory.ExactlyOneVersionApplies` | app/services/rate_repository.py:54-64 | No two versions apply at one instant, and one does exactly from the first start on |
| `RateHistory.RateAt` | app/services/rate_repository.py:54-64 | The row in force with the latest start, and none only if no row is in force |
| `RateHistory.NextBonusStart` | app/services/rate_repository.py:76-80 | The least start after the instant, which some bonus has |
| `RateHistory.HitAgreesIff` | app/cache/rate_cache.py:96-106 | Until its valid_until a loaded route prices like a fresh load if and only if the route's first version did not start in between |
| `RateHistory.ValidUntilIsTight` | app/services/rate_repository.py:93-104 | valid_until is later than the load, and at that very instant the price changes |
| `RateHistory.LifetimeIsLongest` | app/cache/rate_cache.py:96-101 | An entry lives as long as neither the setting nor the validity forbids, and no longer |
| `RateHistory.PricesAgreeIff` | app/services/rate_repository.py:54-105 | Two instants in any order price alike if and only if no version starts between them and the same bonus applies at both |
| `RateHistory.CachedRoute.GetCachedRoute` | app/cache/rate_cache.py:118-131 | A hit answers with the stored route, which prices like a fresh load exactly when no version starts between its instant and the quote's, in either order, and the same bonus applies; within its validity only a first version can start in between, and it outlasts that by no more than the entry was late; a miss answers with a fresh load and stores it for its lifetime |
| `RateHistory.QuoteOvertakenByFirstVersion` | app/services/rate_engine.py:223-229 | A quote that reads its clock before the first version commits and loads after it makes a later quote find the route unsupported |
| `RateHistory.LoadBeforeTheFirstVersionIsStale` | app/services/rate_repository.py:93-104 | The smallest input: loaded for 5 with a version from 10, no valid_until, wrong at 10 |
| `RateHistory.CachedRoute.CreateRateVersion` | app/services/rate_admin.py:118-174 | Closes the open version, adds the next number, drops the entry and puts exactly the requested terms in force from its instant on, or changes nothing; the number is the count of versions |
| `RateHistory.CachedRoute.CreateBonus` | app/services/rate_admin.py:176-221 | Accepted exactly when valid, unfinished, on a priced route and without overlap; then added and the entry dropped |

## Left out

- SQLAlchemy, asyncpg, Redis and httpx mechanics: transactions are atomic steps, Redis is a
  value with an expiry that may be unavailable or lose it, and messages are entries of a map.
- HTTP routes, request schemas beyond their limits, presenters, problem bodies, middleware,
  logging and metrics, and the ReconcileResult labels that only feed metrics and the admin view.
- Fingerprint hashing, JSON, ISO dates, cursors, identifiers' spelling: a fingerprint is a
  string compared for equality, an account or transfer id is a position in its table.
- The rate limiter, masking, pagination and quotes' expiry: self-contained and easier than the rest.
- Row fields that no rule reads: updated_at, failure_message, rate_snapshot, event reasons and
  metadata. completed_at is the instant of the transaction's own clock reading.
- Seeding as a concurrent actor: it only builds the initial state, in which clearing is empty.
- Floating-point time and jitter: time is an integer and every delay an arbitrary input.
- Liveness of workers and of the partner.
- The partner simulator's reset of its state, which would make it untruthful.
- Errors of a rate or bonus that the request schema or a CHECK constraint would refuse are one
  error with those of the service; programs that do not exist are not modelled.
- Cache invalidations that fail, and a rate or bonus that commits between a quote's load and its
  cache write: the cache class performs lookup, load and write as one step, though a change may
  come between the quote's clock reading and that step.
- Whether an answer matches the body it answers once the idempotency record is gone: the unique
  key returns the old transfer whatever the new body says, so this is not claimed.
- Resilience.CreditPoints: takes the inner results, clock readings and other requests' breaker
  calls as inputs, and assumes of the inner adapter that SUCCESS and REJECTED are not
  retryable, which Partner.HttpAdapterIsWellBehaved proves of the HTTP one.
- Resilience.GetCreditStatus: assumes of the inner adapter that only UNKNOWN is retryable, which
  Partner.HttpAdapterIsWellBehaved proves of the HTTP one.
- LockOrder.NoCycleOfWaits: does not model lock modes (key-share locks of foreign keys do not
  conflict with the locks taken here), nor the seeding transaction.
