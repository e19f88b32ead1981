/**
 What the protocol guarantees over whole runs. The first part needs no assumption about
 time. The second part is the safety of reversals under the hypotheses of `Timely`; the
 module `ReversalLimits` shows that it fails exactly when they are not adequate.
 */
module ProtocolSafety {
  import opened Wrappers
  import opened RateEngine
  import opened Partner
  import opened Ledger
  import opened TransferState
  import opened Database
  import opened Conservation
  import opened Reconciliation
  import opened Protocol
  import opened ProtocolInvariant

  /** `s` is reached from a seeded start by some run. */
  ghost predicate Reached(c: Config, s0: State, steps: seq<Step>, s: State) {
    Initial(c, s0) && Run(c, s0, steps) == Some(s)
  }

  lemma {:induction false} ReachedHasInv(c: Config, s0: State, steps: seq<Step>, s: State)
    requires Reached(c, s0, steps, s)
    ensures Inv(c, Opening(s0.db), s)
  {
    InitialHasInv(c, s0);
    RunKeepsInv(c, Opening(s0.db), s0, steps);
  }

  // ---------------------------------------------------------------- final means final

  lemma {:induction false} StepKeepsFinalRow(c: Config, opening: seq<int>, s: State, step: Step, id: nat)
    requires Inv(c, opening, s) && Next(c, s, step).Some?
    requires id < |s.db.transfers| && IsFinal(s.db.transfers[id].status)
    ensures var s' := Next(c, s, step).value;
            id < |s'.db.transfers| && s'.db.transfers[id] == s.db.transfers[id]
  {
    hide DbInv, LaneOk, DebitSource, ApplyOutcome, ReverseInterrupted, ApplyAnswer;
    var t := s.db.transfers[id];
    match step
    case Create(req, route, clock) =>
      DebitSucceedsOrRefuses(c.policy, opening, s.db, req, route, c.limit, clock);
      var r := DebitSource(s.db, req, route, c.limit, clock);
      if r.Ok? { assert r.value.transfers[id] == r.value.transfers[..|s.db.transfers|][id]; }
    case Submit(k) => SubmitSucceeds(c.policy, opening, s.db, k, s.now);
    case Record(k, clock) =>
      OutcomeSucceeds(c.policy, opening, s.db, k, s.lanes[k].caller.outcome, c.verificationDelay, clock);
    case ReverseStuck(w) => InterruptedSucceeds(c.policy, opening, s.db, s.workers[w].id, s.now);
    case Apply(w, clock) => ApplyStep(c, opening, s, w, clock);
    case Claim(ids, clock) => ClaimLeasesDueRows(c.policy, s.db.transfers, ids, clock, id);
    case _ =>
  }

  /** COMPLETED and REVERSED rows never change again, whatever happens afterwards. */
  lemma {:induction false} FinalRowsNeverChange(c: Config, opening: seq<int>, s: State, steps: seq<Step>, id: nat)
    requires Inv(c, opening, s) && Run(c, s, steps).Some?
    requires id < |s.db.transfers| && IsFinal(s.db.transfers[id].status)
    ensures var s' := Run(c, s, steps).value;
            id < |s'.db.transfers| && s'.db.transfers[id] == s.db.transfers[id]
    decreases |steps|
  {
    hide Inv, Next;
    if steps != [] {
      NextKeepsInv(c, opening, s, steps[0]);
      StepKeepsFinalRow(c, opening, s, steps[0], id);
      FinalRowsNeverChange(c, opening, Next(c, s, steps[0]).value, steps[1..], id);
    }
  }

  // ---------------------------------------------------------------- no assumption about time

  /**
   Completion is honest: a COMPLETED transfer has exactly one credit under its reference, at
   its partner, for its member and exactly its destination points, and the row stores that
   credit's confirmation.
   */
  lemma {:induction false} CompletionIsHonest(c: Config, s0: State, steps: seq<Step>, s: State, id: nat)
    requires Reached(c, s0, steps, s) && HasStatus(s, id, Completed)
    ensures id < |s.lanes|
    ensures var t, credits := s.db.transfers[id], s.lanes[id].credits;
            && |credits| == 1
            && forall partner :: partner in credits ==>
                 && IsThePartner(c, t, partner)
                 && IsTheMember(s.db.book.accounts, t, credits[partner].member)
                 && credits[partner].points == t.destinationPoints
                 && Some(credits[partner].confirmation) == t.confirmation
  {
    hide DbInv, Find;
    ReachedHasInv(c, s0, steps, s);
    var job := JobOf(c, s.db.book.accounts, s.db.transfers[id]);
    assert LaneOk(job, s.db.transfers[id], s.lanes[id]);
    assert s.lanes[id].credits.Keys == {job.partner};
    JobIsTheTransfers(c, Opening(s0.db), s, id);
  }

  /** The partner of the destination program. */
  predicate IsThePartner(c: Config, t: Transfer, partner: string) {
    t.destinationProgram in c.partners ==> partner == c.partners[t.destinationProgram]
  }

  /** The member id of the user's account in the destination program. */
  predicate IsTheMember(accounts: seq<Account>, t: Transfer, member: string) {
    exists a, user :: 0 <= a < |accounts| && accounts[a].program == t.destinationProgram
                      && accounts[a].holder == User(user, member) && user == t.user
  }

  lemma {:induction false} JobIsTheTransfers(c: Config, opening: seq<int>, s: State, id: nat)
    requires Inv(c, opening, s) && id < |s.db.transfers|
    ensures var t, job := s.db.transfers[id], JobOf(c, s.db.book.accounts, s.db.transfers[id]);
            && IsThePartner(c, t, job.partner) && IsTheMember(s.db.book.accounts, t, job.member)
            && job.points == t.destinationPoints
  {
    hide DbInv, LaneOk;
    InvariantParts(c.policy, opening, s.db);
    var t, accounts := s.db.transfers[id], s.db.book.accounts;
    assert TransferOk(c.policy, accounts, t);
    assert accounts[t.destinationAccount].holder == User(t.user, JobOf(c, accounts, t).member);
  }

  /**
   Every message on the wire, and every credit at the partner, whatever became of the transfer,
   is for the partner of the destination program, the user's member id there and exactly the
   destination points.
   */
  lemma {:induction false} MessagesAskForTheTransfer(c: Config, s0: State, steps: seq<Step>, s: State, id: nat)
    requires Reached(c, s0, steps, s) && id < |s.lanes|
    ensures id < |s.db.transfers|
    ensures var t, accounts, l := s.db.transfers[id], s.db.book.accounts, s.lanes[id];
            && (forall k :: k in l.wire ==>
                  && IsThePartner(c, t, l.wire[k].partner) && IsTheMember(accounts, t, l.wire[k].member)
                  && l.wire[k].points == t.destinationPoints)
            && (forall p :: p in l.credits ==>
                  && IsThePartner(c, t, p) && IsTheMember(accounts, t, l.credits[p].member)
                  && l.credits[p].points == t.destinationPoints)
  {
    hide DbInv;
    ReachedHasInv(c, s0, steps, s);
    assert LaneOk(JobOf(c, s.db.book.accounts, s.db.transfers[id]), s.db.transfers[id], s.lanes[id]);
    JobIsTheTransfers(c, Opening(s0.db), s, id);
  }

  /**
   A message that meets an existing credit always asks for that same credit, so a reference
   conflict is never answered, in any run.
   */
  lemma {:induction false} ReferenceConflictIsUnreachable(c: Config, s0: State, steps: seq<Step>, s: State, id: nat)
    requires Reached(c, s0, steps, s) && id < |s.lanes|
    ensures forall attempt :: attempt in s.lanes[id].wire ==>
              var m := s.lanes[id].wire[attempt];
              m.partner in s.lanes[id].credits ==>
                && s.lanes[id].credits[m.partner].member == m.member
                && s.lanes[id].credits[m.partner].points == m.points
    ensures forall attempt :: attempt in s.lanes[id].replies ==> s.lanes[id].replies[attempt].code != 409
  {
    hide DbInv;
    ReachedHasInv(c, s0, steps, s);
    assert LaneOk(JobOf(c, s.db.book.accounts, s.db.transfers[id]), s.db.transfers[id], s.lanes[id]);
  }

  /**
   A transfer reversed before PARTNER_SUBMITTED never has a partner call: not before, and not
   in any continuation, however long its request stalls.
   */
  lemma {:induction false} InterruptedTransferIsNeverCalled(c: Config, s0: State, steps: seq<Step>, s: State,
      more: seq<Step>, later: State, id: nat)
    requires Reached(c, s0, steps, s) && Run(c, s, more) == Some(later)
    requires HasStatus(s, id, Reversed) && !WasSubmitted(s.db.transfers[id])
    ensures HasStatus(later, id, Reversed)
    ensures id < |later.lanes| && !later.lanes[id].contacted
    ensures later.lanes[id].wire == map[] && later.lanes[id].credits == map[]
  {
    hide DbInv;
    var opening := Opening(s0.db);
    ReachedHasInv(c, s0, steps, s);
    FinalRowsNeverChange(c, opening, s, more, id);
    RunKeepsInv(c, opening, s, more);
    assert LaneOk(JobOf(c, later.db.book.accounts, later.db.transfers[id]), later.db.transfers[id], later.lanes[id]);
  }

  /** At most one transfer per (user, key), and exactly one debit for it, in every run. */
  lemma {:induction false} OneTransferAndDebitPerKey(c: Config, s0: State, steps: seq<Step>, s: State, i: nat, j: nat)
    requires Reached(c, s0, steps, s) && i < |s.db.transfers| && j < |s.db.transfers|
    requires s.db.transfers[i].user == s.db.transfers[j].user && s.db.transfers[i].key == s.db.transfers[j].key
    ensures i == j
    ensures forall k :: 0 <= k < |JournalsOf(s.db.book.journals, i)| ==>
                          (JournalsOf(s.db.book.journals, i)[k].kind == TransferDebit <==> k == 0)
    ensures |JournalsOf(s.db.book.journals, i)| >= 1
  {
    hide DbInv, LaneOk, RowOk;
    ReachedHasInv(c, s0, steps, s);
    KeysAndJournals(c.policy, Opening(s0.db), s.db, i, j);
    assert JournalsOf(s.db.book.journals, i) == ExpectedJournals(s.db.book.accounts, i, s.db.transfers[i]);
  }

  /** The status determines the journals: debit alone, debit and settle, or debit and reversal. */
  lemma {:induction false} StatusDeterminesJournals(c: Config, s0: State, steps: seq<Step>, s: State, id: nat)
    requires Reached(c, s0, steps, s) && id < |s.db.transfers|
    ensures JournalsOf(s.db.book.journals, id) == ExpectedJournals(s.db.book.accounts, id, s.db.transfers[id])
    ensures RowOk(c.policy, s.db.transfers[id])
  {
    hide Consistent, BalancesMatch;
    ReachedHasInv(c, s0, steps, s);
    assert TransferOk(c.policy, s.db.book.accounts, s.db.transfers[id]);
  }

  /**
   Once the debit has committed, nothing in the request fails on business grounds: submitting
   fails only if the reconciler reversed the transfer first, and recording an outcome never
   fails. So a business error always comes from the debit, which then left nothing behind.
   */
  lemma {:induction false} OnlyTheDebitRefuses(c: Config, s0: State, steps: seq<Step>, s: State, id: nat,
      outcome: Outcome, delay: nat, now: Time)
    requires Reached(c, s0, steps, s) && id < |s.db.transfers|
    ensures MarkSubmitted(s.db, id, now).Ok? <==> s.db.transfers[id].status == SourceDebited
    ensures MarkSubmitted(s.db, id, now).Err? ==> MarkSubmitted(s.db, id, now).error.InvalidTransition?
    ensures ApplyOutcome(s.db, id, outcome, delay, now).Ok?
  {
    hide DbInv, LaneOk;
    var opening := Opening(s0.db);
    ReachedHasInv(c, s0, steps, s);
    SubmitSucceeds(c.policy, opening, s.db, id, now);
    OutcomeSucceeds(c.policy, opening, s.db, id, outcome, delay, now);
  }

  /**
   Conservation over whole runs: in every reached state each program's balances sum to zero,
   its clearing account holds exactly its in-flight points (so it is never negative), and each
   user holds the opening balance less what was spent and not returned, plus what arrived.
   */
  lemma {:induction false} PointsAreConserved(c: Config, s0: State, steps: seq<Step>, s: State, a: nat)
    requires Reached(c, s0, steps, s) && a < |s.db.book.accounts|
    ensures ProgramTotal(s.db.book.accounts, s.db.book.accounts[a].program) == 0
    ensures s.db.book.accounts[a].holder.TransferClearing? ==>
              s.db.book.accounts[a].balance == HeldInClearing(s.db.transfers, s.db.book.accounts[a].program) >= 0
    ensures s.db.book.accounts[a].holder.User? ==>
              && |s0.db.book.accounts| == |s.db.book.accounts|
              && s.db.book.accounts[a].balance ==
                 s0.db.book.accounts[a].balance - Spent(s.db.transfers, a) + Received(s.db.transfers, a)
              && s.db.book.accounts[a].balance >= 0
  {
    hide DbInv, LaneOk, Run, AllOk;
    var opening := Opening(s0.db);
    ReachedHasInv(c, s0, steps, s);
    InitialHasInv(c, s0);
    ShapeIsKept(c, opening, s0, steps);
    InvariantParts(c.policy, opening, s.db);
    ProgramTotalsAreZero(s.db.book, s.db.book.accounts[a].program);
    BalancesAreExplained(c.policy, opening, s.db, a);
    HeldIsNotNegative(c.policy, s.db.book.accounts, s.db.transfers, s.db.book.accounts[a].program);
  }

  lemma {:induction false} HeldIsNotNegative(p: Policy, accounts: seq<Account>, transfers: seq<Transfer>, program: nat)
    requires AllOk(p, accounts, transfers)
    ensures HeldInClearing(transfers, program) >= 0
  {
    if transfers != [] {
      HeldIsNotNegative(p, accounts, transfers[..|transfers| - 1], program);
    }
  }

  lemma {:induction false} StepKeepsShape(c: Config, opening: seq<int>, s: State, step: Step)
    requires Inv(c, opening, s) && Next(c, s, step).Some?
    ensures SameShape(s.db.book.accounts, Next(c, s, step).value.db.book.accounts)
  {
    hide DbInv, LaneOk, DebitSource, ApplyOutcome, ReverseInterrupted, ApplyAnswer;
    match step
    case Create(req, route, clock) => DebitSucceedsOrRefuses(c.policy, opening, s.db, req, route, c.limit, clock);
    case Record(k, clock) =>
      OutcomeSucceeds(c.policy, opening, s.db, k, s.lanes[k].caller.outcome, c.verificationDelay, clock);
    case ReverseStuck(w) => InterruptedSucceeds(c.policy, opening, s.db, s.workers[w].id, s.now);
    case Apply(w, clock) => ApplyStep(c, opening, s, w, clock);
    case _ =>
  }

  lemma {:induction false} ShapeIsKept(c: Config, opening: seq<int>, s: State, steps: seq<Step>)
    requires Inv(c, opening, s) && Run(c, s, steps).Some?
    ensures SameShape(s.db.book.accounts, Run(c, s, steps).value.db.book.accounts)
    decreases |steps|
  {
    hide Inv, Next;
    if steps != [] {
      NextKeepsInv(c, opening, s, steps[0]);
      StepKeepsShape(c, opening, s, steps[0]);
      ShapeIsKept(c, opening, Next(c, s, steps[0]).value, steps[1..]);
    }
  }

  // ---------------------------------------------------------------- the timing hypotheses

  /**
   `landing`: a credit is applied, if at all, strictly before created_at + landing.
   `staleness`: a NOT_FOUND answer is at most this old when the reconciler reads the clock.
   */
  datatype Hypotheses = Hypotheses(landing: nat, staleness: nat)

  /**
   The hypotheses are strong enough for the not-found grace: an answer that is acted on was
   given after the last landing (or nothing ever lands).
   */
  predicate Adequate(c: Config, h: Hypotheses) {
    h.landing == 0 || h.landing + h.staleness <= c.policy.notFoundGrace
  }

  /** The step makes the partner apply a credit it did not have. */
  ghost predicate AppliesCredit(c: Config, s: State, step: Step) {
    && step.Deliver?
    && Next(c, s, step).Some?
    && !Credited(s, step.id)
    && Credited(Next(c, s, step).value, step.id)
  }

  /** No credit lands late or after a refusal, and no NOT_FOUND is acted on when stale. */
  ghost predicate Timely(c: Config, h: Hypotheses, s: State, step: Step) {
    && (AppliesCredit(c, s, step) && step.id < |s.db.transfers| ==>
          && s.now < s.db.transfers[step.id].createdAt + h.landing
          && !s.lanes[step.id].refused)
    && (step.Apply? && step.worker in s.workers ==>
          var w := s.workers[step.worker];
          w.Asked? && w.answer.NotFound? ==> step.clock - w.at <= h.staleness)
  }

  ghost predicate TimelyRun(c: Config, h: Hypotheses, s: State, steps: seq<Step>)
    decreases |steps|
  {
    steps != [] ==>
      && Timely(c, h, s, steps[0])
      && Next(c, s, steps[0]).Some?
      && TimelyRun(c, h, Next(c, s, steps[0]).value, steps[1..])
  }

  /** No message of this reference is under way and none will be sent. */
  predicate Quiet(l: Lane) {
    l.wire == map[] && (l.caller.Debited? || l.caller.Concluded? || l.caller.Gone?)
  }

  predicate LaneTimed(h: Hypotheses, now: Time, t: Transfer, l: Lane) {
    && (l.refused || h.landing == 0 ==> l.credits == map[])
    && (t.status == Reversed ==>
          && l.credits == map[]
          && (Quiet(l) || l.refused || now >= t.createdAt + h.landing))
  }

  predicate WorkerTimed(h: Hypotheses, s: State, w: Worker) {
    w.Asked? && w.answer.NotFound? && w.id < |s.lanes| && w.id < |s.db.transfers|
    && w.at >= s.db.transfers[w.id].createdAt + h.landing ==>
      s.lanes[w.id].credits == map[]
  }

  predicate TimedInv(h: Hypotheses, s: State) {
    && |s.lanes| == |s.db.transfers|
    && (forall id :: 0 <= id < |s.lanes| ==> LaneTimed(h, s.now, s.db.transfers[id], s.lanes[id]))
    && (forall w :: w in s.workers ==> WorkerTimed(h, s, s.workers[w]))
  }

  /** A step on one row and one lane that applies no credit. */
  lemma {:induction false} LocalStepKeepsTimed(h: Hypotheses, s: State, s': State, id: nat)
    requires TimedInv(h, s) && id < |s.lanes| == |s'.lanes| == |s'.db.transfers|
    requires s'.workers == s.workers && s'.now == s.now
    requires s'.db.transfers == s.db.transfers[id := s'.db.transfers[id]]
    requires SameTerms(s.db.transfers[id], s'.db.transfers[id])
    requires s'.lanes == s.lanes[id := s'.lanes[id]]
    requires LaneTimed(h, s.now, s'.db.transfers[id], s'.lanes[id])
    requires s'.lanes[id].credits == s.lanes[id].credits
    ensures TimedInv(h, s')
  {
    forall k | 0 <= k < |s'.lanes|
      ensures LaneTimed(h, s'.now, s'.db.transfers[k], s'.lanes[k])
    {
      assert k != id ==> s'.db.transfers[k] == s.db.transfers[k] && s'.lanes[k] == s.lanes[k];
    }
    forall w | w in s'.workers
      ensures WorkerTimed(h, s', s'.workers[w])
    {
      assert WorkerTimed(h, s, s.workers[w]);
      var k := s.workers[w].id;
      assert k < |s.lanes| && k != id ==> s'.db.transfers[k] == s.db.transfers[k] && s'.lanes[k] == s.lanes[k];
    }
  }

  lemma {:induction false} DropKeepsTimed(h: Hypotheses, s: State, w: nat)
    requires TimedInv(h, s)
    ensures TimedInv(h, s.(workers := s.workers - {w}))
  {
    var s' := s.(workers := s.workers - {w});
    forall v | v in s'.workers
      ensures WorkerTimed(h, s', s'.workers[v])
    {
      assert WorkerTimed(h, s, s.workers[v]);
    }
  }

  lemma {:induction false} CallerStepKeepsTimed(c: Config, h: Hypotheses, s: State, step: Step)
    requires TimedInv(h, s) && IsCallerStep(step) && Next(c, s, step).Some?
    ensures TimedInv(h, Next(c, s, step).value)
  {
    var s' := Next(c, s, step).value;
    assert LaneTimed(h, s.now, s.db.transfers[step.id], s.lanes[step.id]);
    LocalStepKeepsTimed(h, s, s', step.id);
  }

  lemma {:induction false} SubmitKeepsTimed(c: Config, h: Hypotheses, opening: seq<int>, s: State, id: nat)
    requires Inv(c, opening, s) && TimedInv(h, s) && Next(c, s, Submit(id)).Some?
    ensures TimedInv(h, Next(c, s, Submit(id)).value)
  {
    hide DbInv;
    var s' := Next(c, s, Submit(id)).value;
    assert LaneTimed(h, s.now, s.db.transfers[id], s.lanes[id]);
    SubmitSucceeds(c.policy, opening, s.db, id, s.now);
    LocalStepKeepsTimed(h, s, s', id);
  }

  lemma {:induction false} RecordKeepsTimed(c: Config, h: Hypotheses, opening: seq<int>, s: State, id: nat, clock: Time)
    requires Inv(c, opening, s) && TimedInv(h, s) && Next(c, s, Record(id, clock)).Some?
    ensures TimedInv(h, Next(c, s, Record(id, clock)).value)
  {
    hide DbInv, ApplyOutcome;
    var t, l, s' := s.db.transfers[id], s.lanes[id], Next(c, s, Record(id, clock)).value;
    assert LaneOk(JobOf(c, s.db.book.accounts, t), t, l);
    assert LaneTimed(h, s.now, t, l);
    OutcomeSucceeds(c.policy, opening, s.db, id, l.caller.outcome, c.verificationDelay, clock);
    LocalStepKeepsTimed(h, s, s', id);
  }

  /** Before PARTNER_SUBMITTED nothing has been sent. */
  lemma {:induction false} InterruptedLaneIsQuiet(job: Job, p: Policy, h: Hypotheses, t: Transfer, l: Lane, now: Time)
    requires LaneOk(job, t, l) && RowOk(p, t) && LaneTimed(h, now, t, l)
    requires InterruptedRow(t, now).Ok?
    ensures LaneTimed(h, now, InterruptedRow(t, now).value, l)
  {
    assert t.status == SourceDebited ==> Quiet(l) && l.credits == map[];
  }

  lemma {:induction false} ReverseStuckStep(c: Config, opening: seq<int>, s: State, w: nat)
    requires Inv(c, opening, s) && Next(c, s, ReverseStuck(w)).Some?
    ensures w in s.workers && s.workers[w].id < |s.db.transfers|
    ensures var id, s' := s.workers[w].id, Next(c, s, ReverseStuck(w)).value;
            && s' == s.(db := s'.db, workers := s.workers - {w})
            && InterruptedRow(s.db.transfers[id], s.now).Ok?
            && s'.db.transfers == s.db.transfers[id := InterruptedRow(s.db.transfers[id], s.now).value]
            && SameTerms(s.db.transfers[id], s'.db.transfers[id])
  {
    hide DbInv, LaneOk, RowOk, InterruptedRow, ReverseInterrupted;
    InterruptedSucceeds(c.policy, opening, s.db, s.workers[w].id, s.now);
  }

  lemma {:induction false} ReverseStuckKeepsTimed(c: Config, h: Hypotheses, opening: seq<int>, s: State, w: nat)
    requires Inv(c, opening, s) && TimedInv(h, s) && Next(c, s, ReverseStuck(w)).Some?
    ensures TimedInv(h, Next(c, s, ReverseStuck(w)).value)
  {
    hide DbInv, LaneOk, RowOk, LaneTimed, InterruptedRow, Next;
    ReverseStuckStep(c, opening, s, w);
    var id, s' := s.workers[w].id, Next(c, s, ReverseStuck(w)).value;
    var t, l, mid := s.db.transfers[id], s.lanes[id], s.(db := s'.db);
    InvariantParts(c.policy, opening, s.db);
    assert TransferOk(c.policy, s.db.book.accounts, t);
    InterruptedLaneIsQuiet(JobOf(c, s.db.book.accounts, t), c.policy, h, t, l, s.now);
    LocalStepKeepsTimed(h, s, mid, id);
    DropKeepsTimed(h, mid, w);
  }

  lemma {:induction false} ApplyStep(c: Config, opening: seq<int>, s: State, w: nat, clock: Time)
    requires Inv(c, opening, s) && Next(c, s, Apply(w, clock)).Some?
    ensures w in s.workers && s.workers[w].Asked? && s.workers[w].id < |s.db.transfers|
    ensures s.workers[w].at <= clock <= s.now
    ensures var id, s' := s.workers[w].id, Next(c, s, Apply(w, clock)).value;
            var row := CheckedRow(c.policy, s.db.transfers[id], s.workers[w].answer, clock);
            && s' == s.(db := s'.db, workers := s.workers - {w})
            && row.Ok? && s'.db.transfers == s.db.transfers[id := row.value]
            && SameTerms(s.db.transfers[id], s'.db.transfers[id])
            && SameShape(s.db.book.accounts, s'.db.book.accounts)
  {
    hide DbInv, LaneOk, RowOk, CheckedRow, ApplyAnswer;
    assert WorkerOk(c, s, s.workers[w]);
    AnswerSucceeds(c.policy, opening, s.db, s.workers[w].id, s.workers[w].answer, clock);
  }

  /** The decisive case: a NOT_FOUND acted on after the grace was asked after the last landing. */
  lemma {:induction false} ApplyKeepsTimed(c: Config, h: Hypotheses, opening: seq<int>, s: State, w: nat, clock: Time)
    requires Inv(c, opening, s) && TimedInv(h, s) && Next(c, s, Apply(w, clock)).Some?
    requires Timely(c, h, s, Apply(w, clock)) && Adequate(c, h)
    ensures TimedInv(h, Next(c, s, Apply(w, clock)).value)
  {
    hide Inv, Next;
    ApplyStep(c, opening, s, w, clock);
    var id, s' := s.workers[w].id, Next(c, s, Apply(w, clock)).value;
    var t, l, mid := s.db.transfers[id], s.lanes[id], s.(db := s'.db);
    assert WorkerTimed(h, s, s.workers[w]) && LaneTimed(h, s.now, t, l);
    LocalStepKeepsTimed(h, s, mid, id);
    DropKeepsTimed(h, mid, w);
  }

  lemma {:induction false} DeliverKeepsTimed(c: Config, h: Hypotheses, opening: seq<int>, s: State, id: nat,
      attempt: nat, how: Handling)
    requires Inv(c, opening, s) && TimedInv(h, s) && Next(c, s, Deliver(id, attempt, how)).Some?
    requires Timely(c, h, s, Deliver(id, attempt, how))
    ensures TimedInv(h, Next(c, s, Deliver(id, attempt, how)).value)
  {
    hide DbInv;
    var t, l, s' := s.db.transfers[id], s.lanes[id], Next(c, s, Deliver(id, attempt, how)).value;
    assert LaneOk(JobOf(c, s.db.book.accounts, t), t, l);
    assert LaneTimed(h, s.now, t, l);
    if s'.lanes[id].credits == l.credits {
      LocalStepKeepsTimed(h, s, s', id);
    } else {
      assert l.credits.Keys == {} && l.credits == map[];
      assert AppliesCredit(c, s, Deliver(id, attempt, how));
      forall w | w in s'.workers
        ensures WorkerTimed(h, s', s'.workers[w])
      {
        assert WorkerOk(c, s, s.workers[w]) && WorkerTimed(h, s, s.workers[w]);
      }
    }
  }

  lemma {:induction false} CreditIsAtThePartner(job: Job, t: Transfer, l: Lane)
    requires LaneOk(job, t, l)
    ensures job.partner !in l.credits ==> l.credits == map[]
  {
    assert job.partner !in l.credits ==> l.credits.Keys == {};
  }

  lemma {:induction false} AskKeepsTimed(c: Config, h: Hypotheses, opening: seq<int>, s: State, w: nat, reachable: bool)
    requires Inv(c, opening, s) && TimedInv(h, s) && Next(c, s, Ask(w, reachable)).Some?
    ensures TimedInv(h, Next(c, s, Ask(w, reachable)).value)
  {
    hide DbInv, LaneOk;
    var id, s' := s.workers[w].id, Next(c, s, Ask(w, reachable)).value;
    var t, l := s.db.transfers[id], s.lanes[id];
    CreditIsAtThePartner(JobOf(c, s.db.book.accounts, t), t, l);
    forall v | v in s'.workers
      ensures WorkerTimed(h, s', s'.workers[v])
    {
      assert v != w ==> WorkerTimed(h, s, s.workers[v]);
    }
  }

  lemma {:induction false} CreateKeepsTimed(c: Config, h: Hypotheses, opening: seq<int>, s: State, req: Request,
      route: RouteConfig, clock: Time)
    requires Inv(c, opening, s) && TimedInv(h, s) && ValidRoute(route) && clock <= s.now
    ensures TimedInv(h, Next(c, s, Create(req, route, clock)).value)
  {
    hide DbInv, LaneOk, DebitSource;
    DebitSucceedsOrRefuses(c.policy, opening, s.db, req, route, c.limit, clock);
    var s', n := Next(c, s, Create(req, route, clock)).value, |s.lanes|;
    assert s'.db != s.db ==> s'.db.transfers[..n] == s.db.transfers;
    forall k | 0 <= k < |s'.lanes|
      ensures LaneTimed(h, s'.now, s'.db.transfers[k], s'.lanes[k])
    {
      if k < n {
        assert s'.db != s.db ==> s'.db.transfers[k] == s'.db.transfers[..n][k];
        assert s'.db.transfers[k] == s.db.transfers[k];
      }
    }
    forall w | w in s'.workers
      ensures WorkerTimed(h, s', s'.workers[w])
    {
      assert WorkerOk(c, s, s.workers[w]) && WorkerTimed(h, s, s.workers[w]);
      assert s'.db != s.db ==> s'.db.transfers[s.workers[w].id] == s'.db.transfers[..n][s.workers[w].id];
    }
  }

  lemma {:induction false} ClaimKeepsTimed(c: Config, h: Hypotheses, s: State, ids: seq<nat>, clock: Time)
    requires TimedInv(h, s) && clock <= s.now
    ensures TimedInv(h, Next(c, s, Claim(ids, clock)).value)
  {
    var s' := Next(c, s, Claim(ids, clock)).value;
    forall k | 0 <= k < |s'.lanes|
      ensures s'.db.transfers[k].createdAt == s.db.transfers[k].createdAt
      ensures LaneTimed(h, s'.now, s'.db.transfers[k], s'.lanes[k])
    {
      ClaimLeasesDueRows(c.policy, s.db.transfers, ids, clock, k);
    }
    forall w | w in s'.workers
      ensures WorkerTimed(h, s', s'.workers[w])
    {
      assert WorkerTimed(h, s, s.workers[w]);
    }
  }

  lemma {:induction false} NextKeepsTimed(c: Config, h: Hypotheses, opening: seq<int>, s: State, step: Step)
    requires Inv(c, opening, s) && TimedInv(h, s) && Next(c, s, step).Some?
    requires Timely(c, h, s, step) && Adequate(c, h)
    ensures TimedInv(h, Next(c, s, step).value)
  {
    hide Inv;
    match step
    case Create(req, route, clock) => CreateKeepsTimed(c, h, opening, s, req, route, clock);
    case Submit(id) => SubmitKeepsTimed(c, h, opening, s, id);
    case Record(id, clock) => RecordKeepsTimed(c, h, opening, s, id, clock);
    case Deliver(id, attempt, how) => DeliverKeepsTimed(c, h, opening, s, id, attempt, how);
    case Claim(ids, clock) => ClaimKeepsTimed(c, h, s, ids, clock);
    case ReverseStuck(w) => ReverseStuckKeepsTimed(c, h, opening, s, w);
    case Ask(w, reachable) => AskKeepsTimed(c, h, opening, s, w, reachable);
    case Apply(w, clock) => ApplyKeepsTimed(c, h, opening, s, w, clock);
    case WorkerDies(w) => DropKeepsTimed(h, s, w);
    case Tick(_) => ClockKeepsTimed(h, s, Next(c, s, step).value);
    case Look(_, _) => ClockKeepsTimed(h, s, Next(c, s, step).value);
    case _ => CallerStepKeepsTimed(c, h, s, step);
  }

  lemma {:induction false} ClockKeepsTimed(h: Hypotheses, s: State, s': State)
    requires TimedInv(h, s) && s'.db == s.db && s'.lanes == s.lanes && s'.now >= s.now
    requires forall w :: w in s'.workers ==> s'.workers[w].Looked? || (w in s.workers && s.workers[w] == s'.workers[w])
    ensures TimedInv(h, s')
  {
    forall w | w in s'.workers
      ensures WorkerTimed(h, s', s'.workers[w])
    {
      assert w in s.workers ==> WorkerTimed(h, s, s.workers[w]);
    }
  }

  lemma {:induction false} TimelyRunKeepsTimed(c: Config, h: Hypotheses, opening: seq<int>, s: State, steps: seq<Step>)
    requires Inv(c, opening, s) && TimedInv(h, s) && TimelyRun(c, h, s, steps)
    requires Adequate(c, h)
    ensures Run(c, s, steps).Some?
    ensures TimedInv(h, Run(c, s, steps).value)
    decreases |steps|
  {
    hide Inv, Next, Timely;
    if steps != [] {
      NextKeepsInv(c, opening, s, steps[0]);
      NextKeepsTimed(c, h, opening, s, steps[0]);
      TimelyRunKeepsTimed(c, h, opening, Next(c, s, steps[0]).value, steps[1..]);
    }
  }

  /**
   Reversals are safe over every timely run: with hypotheses adequate for the not-found grace,
   a REVERSED transfer has no credit at the partner, now or after any timely
   continuation, under any interleaving of requests, workers, admins and deaths.
   */
  lemma {:induction false} ReversalIsSafe(c: Config, h: Hypotheses, s0: State, steps: seq<Step>, s: State,
      more: seq<Step>, later: State, id: nat)
    requires Reached(c, s0, steps, s) && TimelyRun(c, h, s0, steps)
    requires Run(c, s, more) == Some(later) && TimelyRun(c, h, s, more)
    requires Adequate(c, h)
    requires HasStatus(s, id, Reversed)
    ensures !Credited(s, id)
    ensures HasStatus(later, id, Reversed) && !Credited(later, id)
  {
    hide Inv, Next, Timely;
    var opening := Opening(s0.db);
    InitialHasInv(c, s0);
    TimelyRunKeepsTimed(c, h, opening, s0, steps);
    ReachedHasInv(c, s0, steps, s);
    TimelyRunKeepsTimed(c, h, opening, s, more);
    FinalRowsNeverChange(c, opening, s, more, id);
    assert LaneTimed(h, s.now, s.db.transfers[id], s.lanes[id]);
    assert LaneTimed(h, later.now, later.db.transfers[id], later.lanes[id]);
  }

  /** Ledger and partner agree on every resolved transfer of a timely run. */
  lemma {:induction false} LedgerAndPartnerAgree(c: Config, h: Hypotheses, s0: State, steps: seq<Step>, s: State,
      id: nat)
    requires Reached(c, s0, steps, s) && TimelyRun(c, h, s0, steps)
    requires Adequate(c, h)
    requires id < |s.db.transfers| && IsFinal(s.db.transfers[id].status)
    ensures HasStatus(s, id, Completed) <==> Credited(s, id)
  {
    if HasStatus(s, id, Completed) {
      CompletionIsHonest(c, s0, steps, s, id);
    } else {
      assert Run(c, s, []) == Some(s);
      ReversalIsSafe(c, h, s0, steps, s, [], s, id);
    }
  }
}
