/**
 The reconciler leaves live requests alone: while a transfer is younger than the stuck window and
 its request has not handed it to verification, only that request changes its row.
 */
module ReconcilerPatience {
  import opened TransferState
  import opened Database
  import opened Conservation
  import opened Reconciliation
  import opened Protocol
  import opened ProtocolInvariant
  import opened ProtocolSafety

  /** The request still has the transfer. */
  predicate InRequestHands(t: Transfer) {
    t.status == Pending || t.status == SourceDebited || t.status == PartnerSubmitted
  }

  /** What a worker saw is not ahead of the row, and it asked about a row in request hands late enough. */
  predicate IsPatient(c: Config, s: State, w: Worker) {
    w.id < |s.db.transfers| &&
    match w
    case Looked(id, status) => Rank(status) <= Rank(s.db.transfers[id].status)
    case Asked(id, _, at) =>
      InRequestHands(s.db.transfers[id]) ==> at >= s.db.transfers[id].createdAt + c.policy.stuckAfter
  }

  predicate AllPatient(c: Config, s: State) {
    forall w :: w in s.workers ==> IsPatient(c, s, s.workers[w])
  }

  /** A row only moves forward through the statuses. */
  lemma {:induction false} StepRaisesRank(c: Config, opening: seq<int>, s: State, step: Step, id: nat)
    requires Inv(c, opening, s) && Next(c, s, step).Some? && id < |s.db.transfers|
    ensures var s' := Next(c, s, step).value;
            && id < |s'.db.transfers| && s'.db.transfers[id].createdAt == s.db.transfers[id].createdAt
            && Rank(s.db.transfers[id].status) <= Rank(s'.db.transfers[id].status)
  {
    hide DbInv, LaneOk, RowOk, DebitSource, ApplyOutcome, ReverseInterrupted, ApplyAnswer;
    hide ClaimRows, Handle, CallerStep;
    match step
    case Create(req, route, clock) =>
      DebitSucceedsOrRefuses(c.policy, opening, s.db, req, route, c.limit, clock);
      var r := DebitSource(s.db, req, route, c.limit, clock);
      if r.Ok? { assert r.value.transfers[id] == r.value.transfers[..|s.db.transfers|][id]; }
    case Submit(k) => SubmitSucceeds(c.policy, opening, s.db, k, s.now);
    case Record(k, clock) =>
      OutcomeSucceeds(c.policy, opening, s.db, k, s.lanes[k].caller.outcome, c.verificationDelay, clock);
    case ReverseStuck(w) => ReverseStuckStep(c, opening, s, w);
    case Apply(w, clock) => ApplyStep(c, opening, s, w, clock);
    case Claim(ids, clock) => ClaimLeasesDueRows(c.policy, s.db.transfers, ids, clock, id);
    case _ =>
  }

  /** What a step does to the workers: one looks, one asks, or some leave. */
  lemma {:induction false} WorkersAfterStep(c: Config, s: State, step: Step, w: nat)
    requires Next(c, s, step).Some? && w in Next(c, s, step).value.workers
    ensures var s', v := Next(c, s, step).value, Next(c, s, step).value.workers[w];
            || (w in s.workers && v == s.workers[w])
            || (s'.db == s.db && v.Looked? && v.id < |s.db.transfers| && v.status == s.db.transfers[v.id].status)
            || (&& s'.db == s.db && v.Asked? && w in s.workers && s.workers[w].Looked? && v.id == s.workers[w].id
                && v.id < |s.db.transfers| && v.at == s.now && Verifiable(s.workers[w].status)
                && (s.workers[w].status == PartnerSubmitted ==>
                      s.db.transfers[v.id].createdAt + c.policy.stuckAfter <= s.now))
  {
    hide DebitSource, MarkSubmitted, ApplyOutcome, ReverseInterrupted, ApplyAnswer, ClaimRows, Handle, CallerStep;
  }

  lemma {:induction false} StepKeepsPatience(c: Config, opening: seq<int>, s: State, step: Step)
    requires Inv(c, opening, s) && AllPatient(c, s) && Next(c, s, step).Some?
    ensures AllPatient(c, Next(c, s, step).value)
  {
    hide Inv, Next;
    var s' := Next(c, s, step).value;
    forall w | w in s'.workers
      ensures IsPatient(c, s', s'.workers[w])
    {
      WorkersAfterStep(c, s, step, w);
      assert w in s.workers ==> IsPatient(c, s, s.workers[w]);
      StepRaisesRank(c, opening, s, step, s'.workers[w].id);
    }
  }

  lemma {:induction false} RunKeepsPatience(c: Config, opening: seq<int>, s: State, steps: seq<Step>)
    requires Inv(c, opening, s) && AllPatient(c, s) && Run(c, s, steps).Some?
    ensures AllPatient(c, Run(c, s, steps).value)
    decreases |steps|
  {
    hide Inv, Next, AllPatient;
    if steps != [] {
      NextKeepsInv(c, opening, s, steps[0]);
      StepKeepsPatience(c, opening, s, steps[0]);
      RunKeepsPatience(c, opening, Next(c, s, steps[0]).value, steps[1..]);
    }
  }

  /** The step belongs to the request that created transfer `id`. */
  predicate IsItsRequests(step: Step, id: nat) {
    (step.Submit? && step.id == id) || (step.Record? && step.id == id)
  }

  lemma {:induction false} YoungRowStays(c: Config, opening: seq<int>, s: State, step: Step, id: nat)
    requires Inv(c, opening, s) && AllPatient(c, s) && Next(c, s, step).Some? && id < |s.db.transfers|
    requires InRequestHands(s.db.transfers[id]) && s.now < s.db.transfers[id].createdAt + c.policy.stuckAfter
    requires !IsItsRequests(step, id)
    ensures id < |Next(c, s, step).value.db.transfers|
    ensures Next(c, s, step).value.db.transfers[id] == s.db.transfers[id]
  {
    hide DbInv, LaneOk, RowOk, DebitSource, ApplyOutcome, ReverseInterrupted, ApplyAnswer;
    hide ClaimRows, Handle, CallerStep;
    hide CheckedRow, InterruptedRow, OutcomeRow;
    match step
    case Create(req, route, clock) =>
      DebitSucceedsOrRefuses(c.policy, opening, s.db, req, route, c.limit, clock);
      var r := DebitSource(s.db, req, route, c.limit, clock);
      if r.Ok? { assert r.value.transfers[id] == r.value.transfers[..|s.db.transfers|][id]; }
    case Submit(k) => SubmitSucceeds(c.policy, opening, s.db, k, s.now);
    case Record(k, clock) =>
      OutcomeSucceeds(c.policy, opening, s.db, k, s.lanes[k].caller.outcome, c.verificationDelay, clock);
    case ReverseStuck(w) => ReverseStuckStep(c, opening, s, w);
    case Apply(w, clock) =>
      ApplyStep(c, opening, s, w, clock);
      assert IsPatient(c, s, s.workers[w]);
    case Claim(ids, clock) => ClaimLeasesDueRows(c.policy, s.db.transfers, ids, clock, id);
    case _ =>
  }

  /**
   In every run: while a transfer is SOURCE_DEBITED or PARTNER_SUBMITTED and younger than the
   stuck window, no step but its own request's submit and record changes its row, not even a lease.
   */
  lemma {:induction false} LiveRequestsAreLeftAlone(c: Config, s0: State, steps: seq<Step>, s: State, step: Step,
      id: nat)
    requires Reached(c, s0, steps, s) && Next(c, s, step).Some? && id < |s.db.transfers|
    requires InRequestHands(s.db.transfers[id]) && s.now < s.db.transfers[id].createdAt + c.policy.stuckAfter
    requires !IsItsRequests(step, id)
    ensures id < |Next(c, s, step).value.db.transfers|
    ensures Next(c, s, step).value.db.transfers[id] == s.db.transfers[id]
  {
    hide Inv, Next, Run;
    var opening := Opening(s0.db);
    InitialHasInv(c, s0);
    RunKeepsPatience(c, opening, s0, steps);
    ReachedHasInv(c, s0, steps, s);
    YoungRowStays(c, opening, s, step, id);
  }
}
