/**
 The invariant of the protocol, kept by every step with no assumption about time: what a
 request knows of its attempts, what the partner's credits can be, and what a completed or
 never-submitted transfer implies.
 */
module ProtocolInvariant {
  import opened Wrappers
  import opened RateEngine
  import opened Partner
  import opened Ledger
  import opened TransferState
  import opened Database
  import opened Conservation
  import opened Reconciliation
  import opened Protocol

  /** The partner holds the credit `job` asks for, under confirmation `id`. */
  predicate Confirmed(job: Job, l: Lane, id: string) {
    job.partner in l.credits && l.credits[job.partner].confirmation == id
  }

  function OutcomeOf(r: Response): Outcome {
    ClassifyCreditResponse(r).outcome
  }

  /** Every credit is the one credit `job` asks for, applied by a message whose reply admits it. */
  predicate CreditsOk(job: Job, l: Lane) {
    forall p :: p in l.credits ==>
                  && p == job.partner
                  && l.credits[p].member == job.member
                  && l.credits[p].points == job.points
                  && l.credits[p].confirmation != ""
                  && l.credits[p].attempt in l.replies
                  && (OutcomeOf(l.replies[l.credits[p].attempt]).Success?
                      || OutcomeOf(l.replies[l.credits[p].attempt]).Unknown?)
  }

  predicate WireOk(job: Job, l: Lane) {
    && (forall k :: k in l.wire ==> l.wire[k] == job && k !in l.replies)
    && (forall k :: k in l.replies ==> l.replies[k].code != 409)
    && (forall k :: k in l.replies && OutcomeOf(l.replies[k]).Success? ==>
                      Confirmed(job, l, OutcomeOf(l.replies[k]).confirmation))
    && (forall k :: k in l.replies && OutcomeOf(l.replies[k]).Rejected? ==> l.refused)
    && (!l.contacted ==> l.wire == map[] && l.replies == map[] && l.credits == map[] && !l.refused)
  }

  /** What the request may believe of the attempts it has finished. */
  predicate OutcomesOk(job: Job, l: Lane, outcomes: seq<Outcome>) {
    forall k :: 0 <= k < |outcomes| ==>
                  && (outcomes[k].Success? ==> Confirmed(job, l, outcomes[k].confirmation))
                  && (outcomes[k].Rejected? ==> l.refused)
                  && (k in l.wire ==> outcomes[k] == Unknown)
                  && (k in l.replies ==> outcomes[k] == Unknown || outcomes[k] == OutcomeOf(l.replies[k]))
                  && (k < |outcomes| - 1 ==> !Definite(outcomes[k]))
  }

  /** Attempts beyond the `n` first have neither message nor reply. */
  predicate NoAttemptsFrom(l: Lane, n: nat) {
    && (forall k :: k in l.wire ==> k < n)
    && (forall k :: k in l.replies ==> k < n)
  }

  predicate CallerOk(job: Job, t: Transfer, l: Lane) {
    match l.caller
    case Debited(j) => j == job && !l.contacted
    case Ready(j, os) => j == job && WasSubmitted(t) && OutcomesOk(job, l, os) && NoAttemptsFrom(l, |os|)
    case Waiting(j, os) =>
      && j == job && WasSubmitted(t) && OutcomesOk(job, l, os) && NoAttemptsFrom(l, |os| + 1)
      && Undecided(os) && l.contacted
    case Concluded(o) =>
      && WasSubmitted(t)
      && (o.NotSent? ==> l.wire == map[] && l.credits == map[])
      && (o.Success? ==> Confirmed(job, l, o.confirmation))
      && (o.Rejected? ==> l.refused)
    case Gone => true
  }

  predicate LaneOk(job: Job, t: Transfer, l: Lane) {
    && CreditsOk(job, l)
    && WireOk(job, l)
    && CallerOk(job, t, l)
    && (l.contacted ==> WasSubmitted(t))
    && (t.status == Completed ==> t.confirmation.Some? && Confirmed(job, l, t.confirmation.value))
    && (t.status == SourceDebited ==> l.caller.Debited? || l.caller.Gone?)
  }

  predicate WorkerOk(c: Config, s: State, w: Worker) {
    && w.id < |s.lanes| == |s.db.transfers|
    && match w
       case Looked(_, _) => true
       case Asked(id, answer, at) =>
         && s.db.transfers[id].createdAt <= at <= s.now
         && (answer.HasCredit? ==>
               Confirmed(JobOf(c, s.db.book.accounts, s.db.transfers[id]), s.lanes[id], answer.confirmation))
  }

  ghost predicate Inv(c: Config, opening: seq<int>, s: State) {
    && DbInv(c.policy, opening, s.db)
    && |s.lanes| == |s.db.transfers|
    && (forall id :: 0 <= id < |s.lanes| ==>
                       LaneOk(JobOf(c, s.db.book.accounts, s.db.transfers[id]), s.db.transfers[id], s.lanes[id]))
    && (forall w :: w in s.workers ==> WorkerOk(c, s, s.workers[w]))
    && (forall id :: 0 <= id < |s.db.transfers| ==> s.db.transfers[id].createdAt <= s.now)
  }

  // ---------------------------------------------------------------- lane by lane

  /** Credits are never taken back. */
  predicate Grows(l: Lane, m: Lane) {
    forall p :: p in l.credits ==> p in m.credits && m.credits[p] == l.credits[p]
  }

  lemma {:induction false} SendKeepsLane(c: Config, job: Job, t: Transfer, l: Lane, id: nat)
    requires LaneOk(job, t, l) && CallerStep(c, l, Send(id)).Some?
    ensures LaneOk(job, t, CallerStep(c, l, Send(id)).value)
  {
    var m, n := CallerStep(c, l, Send(id)).value, |l.caller.outcomes|;
    assert m.wire.Keys == l.wire.Keys + {n};
    assert n !in l.replies;
    assert OutcomesOk(job, m, l.caller.outcomes);
  }

  /** An attempt ends with an outcome the partner's side bears out. */
  lemma {:induction false} OutcomeKeepsLane(job: Job, t: Transfer, l: Lane, o: Outcome)
    requires LaneOk(job, t, l)
    requires l.caller.Ready? || l.caller.Waiting?
    requires l.caller.Ready? ==> Undecided(l.caller.outcomes) && o.NotSent?
    requires l.caller.Waiting? ==>
               || o == Unknown
               || (|l.caller.outcomes| in l.replies && o == OutcomeOf(l.replies[|l.caller.outcomes|]))
    ensures LaneOk(job, t, l.(caller := Ready(l.caller.job, l.caller.outcomes + [o])))
  {
    var m := l.(caller := Ready(l.caller.job, l.caller.outcomes + [o]));
    assert OutcomesOk(job, m, m.caller.outcomes);
  }

  lemma {:induction false} ConcludeKeepsLane(job: Job, t: Transfer, l: Lane)
    requires LaneOk(job, t, l) && l.caller.Ready?
    ensures LaneOk(job, t, l.(caller := Concluded(FinalOutcome(l.caller.outcomes))))
  {
    ConclusionIsBorneOut(job, l, l.caller.outcomes);
  }

  /** NOT_SENT is only concluded when no attempt can have reached the partner. */
  lemma {:induction false} ConclusionIsBorneOut(job: Job, l: Lane, outcomes: seq<Outcome>)
    requires CreditsOk(job, l) && WireOk(job, l)
    requires OutcomesOk(job, l, outcomes) && NoAttemptsFrom(l, |outcomes|)
    ensures FinalOutcome(outcomes).NotSent? ==> l.wire == map[] && l.credits == map[]
    ensures FinalOutcome(outcomes).Success? ==> Confirmed(job, l, FinalOutcome(outcomes).confirmation)
    ensures FinalOutcome(outcomes).Rejected? ==> l.refused
  {
    assert FinalOutcome(outcomes).NotSent? ==> l.wire.Keys == {} && l.credits.Keys == {};
  }

  lemma {:induction false} CallerStepKeepsLane(c: Config, job: Job, t: Transfer, l: Lane, step: Step)
    requires LaneOk(job, t, l) && IsCallerStep(step) && CallerStep(c, l, step).Some?
    ensures LaneOk(job, t, CallerStep(c, l, step).value)
    ensures CallerStep(c, l, step).value.credits == l.credits
  {
    match step
    case Send(id) => SendKeepsLane(c, job, t, l, id);
    case CannotConnect(_) => OutcomeKeepsLane(job, t, l, NotSent);
    case Receive(_) => OutcomeKeepsLane(job, t, l, OutcomeOf(l.replies[|l.caller.outcomes|]));
    case GiveUpWaiting(_) => OutcomeKeepsLane(job, t, l, Unknown);
    case Conclude(_) => ConcludeKeepsLane(job, t, l);
    case _ =>
  }

  /** `m` is `l` with message `attempt` answered by `r`; credits and history may only grow. */
  predicate IsAnswered(l: Lane, m: Lane, attempt: nat, r: Response) {
    && attempt in l.wire
    && m.caller == l.caller && m.wire == l.wire - {attempt} && m.replies == l.replies[attempt := r]
    && Grows(l, m) && (l.refused ==> m.refused) && m.contacted == l.contacted
  }

  /** An answer leaves what the request may believe true. */
  lemma {:induction false} AnswerKeepsCaller(job: Job, t: Transfer, l: Lane, m: Lane, attempt: nat, r: Response)
    requires CallerOk(job, t, l) && (!l.contacted ==> l.wire == map[]) && IsAnswered(l, m, attempt, r)
    ensures CallerOk(job, t, m)
  {
    if l.caller.Ready? || l.caller.Waiting? {
      assert forall k :: k in m.replies && k != attempt ==> k in l.replies && m.replies[k] == l.replies[k];
      assert OutcomesOk(job, m, l.caller.outcomes);
    }
  }

  /** A reply that leaves the credits alone: a failure, a throttle, a refusal or a replay. */
  lemma {:induction false} ReplyKeepsLane(job: Job, t: Transfer, l: Lane, attempt: nat, r: Response, refused: bool)
    requires LaneOk(job, t, l) && attempt in l.wire
    requires r.code != 409 && (OutcomeOf(r).Success? ==> Confirmed(job, l, OutcomeOf(r).confirmation))
    requires OutcomeOf(r).Rejected? || l.refused ==> refused
    ensures LaneOk(job, t, Answered(l, attempt, r).(refused := refused))
  {
    hide CallerOk;
    var m := Answered(l, attempt, r).(refused := refused);
    assert forall k :: k in m.replies && k != attempt ==> k in l.replies && m.replies[k] == l.replies[k];
    assert forall k :: k in l.replies ==> k in m.replies && m.replies[k] == l.replies[k];
    assert CreditsOk(job, m);
    assert WireOk(job, m);
    AnswerKeepsCaller(job, t, l, m, attempt, r);
  }

  /** The lane once message `attempt` has been credited as `job` and answered with `r`. */
  function CreditedLane(job: Job, l: Lane, attempt: nat, confirmation: string, r: Response): Lane {
    var credit := PartnerCredit(job.member, job.points, confirmation, attempt);
    Answered(l, attempt, r).(credits := l.credits[job.partner := credit])
  }

  lemma {:induction false} CreditKeepsLane(job: Job, t: Transfer, l: Lane, attempt: nat, confirmation: string,
      r: Response)
    requires LaneOk(job, t, l) && attempt in l.wire && job.partner !in l.credits && confirmation != ""
    requires r.code != 409 && (OutcomeOf(r) == Success(confirmation) || OutcomeOf(r) == Unknown)
    ensures LaneOk(job, t, CreditedLane(job, l, attempt, confirmation, r))
  {
    hide CallerOk;
    var m := CreditedLane(job, l, attempt, confirmation, r);
    assert forall k :: k in m.replies && k != attempt ==> k in l.replies && m.replies[k] == l.replies[k];
    assert forall p :: p in m.credits ==> p == job.partner;
    assert CreditsOk(job, m);
    assert WireOk(job, m);
    AnswerKeepsCaller(job, t, l, m, attempt, r);
  }

  /** The partner's 409 for a reused reference is unreachable: every message asks for the same credit. */
  lemma {:induction false} HandleKeepsLane(job: Job, t: Transfer, l: Lane, attempt: nat, how: Handling)
    requires LaneOk(job, t, l) && attempt in l.wire && Handle(l, attempt, how).Some?
    ensures LaneOk(job, t, Handle(l, attempt, how).value)
    ensures Grows(l, Handle(l, attempt, how).value)
    ensures how.Processes? && job.partner in l.credits ==> Handle(l, attempt, how).value.replies[attempt].code == 200
  {
    match how
    case Fails(code) => ReplyKeepsLane(job, t, l, attempt, Response(code, None), l.refused);
    case Throttles => ReplyKeepsLane(job, t, l, attempt, Response(429, None), l.refused);
    case Processes(confirmation, declines, garbled) =>
      if job.partner in l.credits {
        var r := Response(200, if garbled then None else Some(l.credits[job.partner].confirmation));
        ReplyKeepsLane(job, t, l, attempt, r, l.refused);
      } else if declines.Some? {
        ReplyKeepsLane(job, t, l, attempt, Response(declines.value, None), true);
      } else {
        var r := Response(201, if garbled then None else Some(confirmation));
        CreditKeepsLane(job, t, l, attempt, confirmation, r);
      }
  }

  // ---------------------------------------------------------------- step by step

  lemma {:induction false} JobIgnoresBalances(c: Config, x: seq<Account>, y: seq<Account>, t: Transfer, u: Transfer)
    requires SameShape(x, y) && SameTerms(t, u)
    ensures JobOf(c, x, t) == JobOf(c, y, u)
  {
  }

  /** A step that changes one row, one lane or both, and at most advances the clock. */
  lemma {:induction false} LocalStepKeepsInv(c: Config, opening: seq<int>, s: State, s': State, id: nat)
    requires Inv(c, opening, s) && id < |s.lanes| == |s'.lanes|
    requires s'.workers == s.workers && s'.now == s.now
    requires DbInv(c.policy, opening, s'.db) && SameShape(s.db.book.accounts, s'.db.book.accounts)
    requires |s'.db.transfers| == |s.db.transfers|
    requires SameTerms(s.db.transfers[id], s'.db.transfers[id])
    requires s'.db.transfers == s.db.transfers[id := s'.db.transfers[id]]
    requires s'.lanes == s.lanes[id := s'.lanes[id]]
    requires LaneOk(JobOf(c, s.db.book.accounts, s.db.transfers[id]), s'.db.transfers[id], s'.lanes[id])
    requires Grows(s.lanes[id], s'.lanes[id])
    ensures Inv(c, opening, s')
  {
    hide DbInv, LaneOk, SameShape;
    forall k | 0 <= k < |s'.lanes|
      ensures SameTerms(s.db.transfers[k], s'.db.transfers[k])
      ensures JobOf(c, s.db.book.accounts, s.db.transfers[k]) == JobOf(c, s'.db.book.accounts, s'.db.transfers[k])
      ensures LaneOk(JobOf(c, s'.db.book.accounts, s'.db.transfers[k]), s'.db.transfers[k], s'.lanes[k])
    {
      assert k != id ==> s'.db.transfers[k] == s.db.transfers[k] && s'.lanes[k] == s.lanes[k];
      JobIgnoresBalances(c, s.db.book.accounts, s'.db.book.accounts, s.db.transfers[k], s'.db.transfers[k]);
    }
    forall w | w in s'.workers
      ensures WorkerOk(c, s', s'.workers[w])
    {
      assert WorkerOk(c, s, s.workers[w]);
    }
  }

  lemma {:induction false} WorkerDropKeepsInv(c: Config, opening: seq<int>, s: State, w: nat)
    requires Inv(c, opening, s)
    ensures Inv(c, opening, s.(workers := s.workers - {w}))
  {
    hide DbInv, LaneOk;
    var s' := s.(workers := s.workers - {w});
    forall v | v in s'.workers
      ensures WorkerOk(c, s', s'.workers[v])
    {
      assert WorkerOk(c, s, s.workers[v]);
    }
  }

  lemma {:induction false} TickKeepsInv(c: Config, opening: seq<int>, s: State, delta: nat)
    requires Inv(c, opening, s)
    ensures Inv(c, opening, s.(now := s.now + delta))
  {
    hide DbInv, LaneOk;
    var s' := s.(now := s.now + delta);
    forall v | v in s'.workers
      ensures WorkerOk(c, s', s'.workers[v])
    {
      assert WorkerOk(c, s, s.workers[v]);
    }
  }

  /** What a lane keeps when only its row changes. */
  lemma {:induction false} RowChangeKeepsLane(job: Job, t: Transfer, u: Transfer, l: Lane)
    requires LaneOk(job, t, l) && (WasSubmitted(t) ==> WasSubmitted(u))
    requires u.status == Completed ==> u.confirmation.Some? && Confirmed(job, l, u.confirmation.value)
    requires u.status == SourceDebited ==> t.status == SourceDebited
    ensures LaneOk(job, u, l)
  {
  }

  /** `u` is a later version of row `t`: its history goes on, and nothing returns to SOURCE_DEBITED. */
  predicate Later(t: Transfer, u: Transfer) {
    t.events <= u.events && (u.status == SourceDebited ==> t.status == SourceDebited)
  }

  lemma {:induction false} LaterKeepsLane(job: Job, t: Transfer, u: Transfer, l: Lane)
    requires LaneOk(job, t, l) && Later(t, u)
    requires u.status == Completed ==> u.confirmation.Some? && Confirmed(job, l, u.confirmation.value)
    ensures LaneOk(job, u, l)
  {
    if WasSubmitted(t) {
      var e :| e in t.events && e.to == PartnerSubmitted;
      assert e in u.events;
    }
    RowChangeKeepsLane(job, t, u, l);
  }

  lemma {:induction false} OutcomeRowIsLater(t: Transfer, o: Outcome, delay: nat, now: Time)
    requires OutcomeRow(t, o, delay, now).Ok?
    ensures Later(t, OutcomeRow(t, o, delay, now).value)
    ensures OutcomeRow(t, o, delay, now).value.status == Completed && t.status != Completed ==>
              o.Success? && OutcomeRow(t, o, delay, now).value.confirmation == Some(o.confirmation)
  {
  }

  lemma {:induction false} CheckedRowIsLater(p: Policy, t: Transfer, answer: Answer, now: Time)
    requires CheckedRow(p, t, answer, now).Ok?
    ensures Later(t, CheckedRow(p, t, answer, now).value)
    ensures CheckedRow(p, t, answer, now).value.status == Completed && t.status != Completed ==>
              answer.HasCredit? && CheckedRow(p, t, answer, now).value.confirmation == Some(answer.confirmation)
  {
  }

  lemma {:induction false} CreateKeepsInv(c: Config, opening: seq<int>, s: State, req: Request, route: RouteConfig,
      clock: Time)
    requires Inv(c, opening, s) && ValidRoute(route) && clock <= s.now
    ensures Inv(c, opening, Next(c, s, Create(req, route, clock)).value)
  {
    hide DbInv, LaneOk, DebitSource;
    DebitSucceedsOrRefuses(c.policy, opening, s.db, req, route, c.limit, clock);
    var r := DebitSource(s.db, req, route, c.limit, clock);
    if r.Ok? {
      var db, s' := r.value, Next(c, s, Create(req, route, clock)).value;
      var n := |s.lanes|;
      forall k | 0 <= k < |s'.lanes|
        ensures LaneOk(JobOf(c, db.book.accounts, db.transfers[k]), db.transfers[k], s'.lanes[k])
        ensures k < n ==> JobOf(c, s.db.book.accounts, s.db.transfers[k]) == JobOf(c, db.book.accounts, db.transfers[k])
      {
        if k < n {
          assert db.transfers[k] == db.transfers[..n][k];
          JobIgnoresBalances(c, s.db.book.accounts, db.book.accounts, s.db.transfers[k], db.transfers[k]);
        } else {
          NewLaneOk(JobOf(c, db.book.accounts, db.transfers[k]), db.transfers[k]);
        }
      }
      forall w | w in s'.workers
        ensures WorkerOk(c, s', s'.workers[w])
      {
        assert WorkerOk(c, s, s.workers[w]);
      }
    }
  }

  lemma {:induction false} NewLaneOk(job: Job, t: Transfer)
    requires t.status == SourceDebited
    ensures LaneOk(job, t, NewLane(job))
  {
  }

  lemma {:induction false} SubmitKeepsInv(c: Config, opening: seq<int>, s: State, id: nat)
    requires Inv(c, opening, s) && Next(c, s, Submit(id)).Some?
    ensures Inv(c, opening, Next(c, s, Submit(id)).value)
  {
    hide DbInv;
    var t, l, s' := s.db.transfers[id], s.lanes[id], Next(c, s, Submit(id)).value;
    var job := JobOf(c, s.db.book.accounts, t);
    assert LaneOk(job, t, l);
    SubmitSucceeds(c.policy, opening, s.db, id, s.now);
    SubmittedLaneOk(job, t, l, s.now);
    LocalStepKeepsInv(c, opening, s, s', id);
  }

  lemma {:induction false} SubmittedLaneOk(job: Job, t: Transfer, l: Lane, now: Time)
    requires LaneOk(job, t, l) && l.caller.Debited?
    ensures t.status != SourceDebited ==> LaneOk(job, t, l.(caller := Gone))
    ensures t.status == SourceDebited ==>
              LaneOk(job, SubmittedRow(t, now).value, l.(caller := Ready(l.caller.job, [])))
  {
    if t.status == SourceDebited {
      var u := SubmittedRow(t, now).value;
      assert u.events[|u.events| - 1] in u.events;
    }
  }

  lemma {:induction false} ConcludedLaneGoes(job: Job, t: Transfer, l: Lane)
    requires LaneOk(job, t, l) && l.caller.Concluded?
    ensures LaneOk(job, t, l.(caller := Gone))
    ensures l.caller.outcome.Success? ==> Confirmed(job, l, l.caller.outcome.confirmation)
    ensures t.status == Completed ==> t.confirmation.Some? && Confirmed(job, l, t.confirmation.value)
  {
  }

  lemma {:induction false} RecordKeepsInv(c: Config, opening: seq<int>, s: State, id: nat, clock: Time)
    requires Inv(c, opening, s) && Next(c, s, Record(id, clock)).Some?
    ensures Inv(c, opening, Next(c, s, Record(id, clock)).value)
  {
    hide DbInv, LaneOk, RowOk, ApplyOutcome;
    var t, l, s' := s.db.transfers[id], s.lanes[id], Next(c, s, Record(id, clock)).value;
    var job, o := JobOf(c, s.db.book.accounts, t), l.caller.outcome;
    ConcludedLaneGoes(job, t, l);
    OutcomeSucceeds(c.policy, opening, s.db, id, o, c.verificationDelay, clock);
    OutcomeRowIsLater(t, o, c.verificationDelay, clock);
    LaterKeepsLane(job, t, s'.db.transfers[id], l.(caller := Gone));
    LocalStepKeepsInv(c, opening, s, s', id);
  }

  lemma {:induction false} DeliverKeepsInv(c: Config, opening: seq<int>, s: State, id: nat, attempt: nat, how: Handling)
    requires Inv(c, opening, s) && Next(c, s, Deliver(id, attempt, how)).Some?
    ensures Inv(c, opening, Next(c, s, Deliver(id, attempt, how)).value)
  {
    hide DbInv, LaneOk, Handle;
    var t, l, s' := s.db.transfers[id], s.lanes[id], Next(c, s, Deliver(id, attempt, how)).value;
    HandleKeepsLane(JobOf(c, s.db.book.accounts, t), t, l, attempt, how);
    LocalStepKeepsInv(c, opening, s, s', id);
  }

  lemma {:induction false} CallerStepKeepsInv(c: Config, opening: seq<int>, s: State, step: Step)
    requires Inv(c, opening, s) && IsCallerStep(step) && Next(c, s, step).Some?
    ensures Inv(c, opening, Next(c, s, step).value)
  {
    hide DbInv, LaneOk, CallerStep;
    var id := step.id;
    var t, l, s' := s.db.transfers[id], s.lanes[id], Next(c, s, step).value;
    CallerStepKeepsLane(c, JobOf(c, s.db.book.accounts, t), t, l, step);
    LocalStepKeepsInv(c, opening, s, s', id);
  }

  lemma {:induction false} ClaimKeepsInv(c: Config, opening: seq<int>, s: State, ids: seq<nat>, clock: Time)
    requires Inv(c, opening, s) && clock <= s.now
    ensures Inv(c, opening, Next(c, s, Claim(ids, clock)).value)
  {
    hide DbInv, LaneOk;
    var s' := Next(c, s, Claim(ids, clock)).value;
    ClaimKeepsInvariant(c.policy, opening, s.db, ids, clock);
    forall k | 0 <= k < |s'.lanes|
      ensures JobOf(c, s'.db.book.accounts, s'.db.transfers[k]) == JobOf(c, s.db.book.accounts, s.db.transfers[k])
      ensures s'.db.transfers[k].createdAt == s.db.transfers[k].createdAt <= s'.now
      ensures LaneOk(JobOf(c, s'.db.book.accounts, s'.db.transfers[k]), s'.db.transfers[k], s'.lanes[k])
    {
      var t, u := s.db.transfers[k], s'.db.transfers[k];
      CompletedIsConfirmed(c, opening, s, k);
      ClaimLeasesDueRows(c.policy, s.db.transfers, ids, clock, k);
      LaterKeepsLane(JobOf(c, s.db.book.accounts, t), t, u, s.lanes[k]);
    }
    forall w | w in s'.workers
      ensures WorkerOk(c, s', s'.workers[w])
    {
      assert WorkerOk(c, s, s.workers[w]);
    }
  }

  lemma {:induction false} CompletedIsConfirmed(c: Config, opening: seq<int>, s: State, id: nat)
    requires Inv(c, opening, s) && id < |s.lanes|
    ensures var t := s.db.transfers[id];
            t.status == Completed ==>
              t.confirmation.Some? && Confirmed(JobOf(c, s.db.book.accounts, t), s.lanes[id], t.confirmation.value)
  {
    hide DbInv;
    assert LaneOk(JobOf(c, s.db.book.accounts, s.db.transfers[id]), s.db.transfers[id], s.lanes[id]);
  }

  lemma {:induction false} ReverseStuckKeepsInv(c: Config, opening: seq<int>, s: State, w: nat)
    requires Inv(c, opening, s) && Next(c, s, ReverseStuck(w)).Some?
    ensures Inv(c, opening, Next(c, s, ReverseStuck(w)).value)
  {
    hide DbInv, LaneOk, ReverseInterrupted;
    var id, s' := s.workers[w].id, Next(c, s, ReverseStuck(w)).value;
    var mid := s.(db := s'.db);
    var t := s.db.transfers[id];
    CompletedIsConfirmed(c, opening, s, id);
    InterruptedSucceeds(c.policy, opening, s.db, id, s.now);
    LaterKeepsLane(JobOf(c, s.db.book.accounts, t), t, mid.db.transfers[id], s.lanes[id]);
    LocalStepKeepsInv(c, opening, s, mid, id);
    WorkerDropKeepsInv(c, opening, mid, w);
  }

  lemma {:induction false} ApplyKeepsInv(c: Config, opening: seq<int>, s: State, w: nat, clock: Time)
    requires Inv(c, opening, s) && Next(c, s, Apply(w, clock)).Some?
    ensures Inv(c, opening, Next(c, s, Apply(w, clock)).value)
  {
    hide DbInv, LaneOk, ApplyAnswer;
    var id, answer, s' := s.workers[w].id, s.workers[w].answer, Next(c, s, Apply(w, clock)).value;
    var mid := s.(db := s'.db);
    var t := s.db.transfers[id];
    assert WorkerOk(c, s, s.workers[w]);
    CompletedIsConfirmed(c, opening, s, id);
    AnswerSucceeds(c.policy, opening, s.db, id, answer, clock);
    CheckedRowIsLater(c.policy, t, answer, clock);
    LaterKeepsLane(JobOf(c, s.db.book.accounts, t), t, mid.db.transfers[id], s.lanes[id]);
    LocalStepKeepsInv(c, opening, s, mid, id);
    WorkerDropKeepsInv(c, opening, mid, w);
  }

  lemma {:induction false} WorkerStepKeepsInv(c: Config, opening: seq<int>, s: State, w: nat, worker: Worker)
    requires Inv(c, opening, s) && WorkerOk(c, s, worker)
    ensures Inv(c, opening, s.(workers := s.workers[w := worker]))
  {
    hide DbInv, LaneOk;
    var s' := s.(workers := s.workers[w := worker]);
    forall v | v in s'.workers
      ensures WorkerOk(c, s', s'.workers[v])
    {
      assert v != w ==> WorkerOk(c, s, s.workers[v]);
    }
  }

  /** Every step keeps the invariant. */
  lemma {:induction false} NextKeepsInv(c: Config, opening: seq<int>, s: State, step: Step)
    requires Inv(c, opening, s) && Next(c, s, step).Some?
    ensures Inv(c, opening, Next(c, s, step).value)
  {
    hide DbInv, LaneOk;
    match step
    case Tick(delta) => TickKeepsInv(c, opening, s, delta);
    case Create(req, route, clock) => CreateKeepsInv(c, opening, s, req, route, clock);
    case Submit(id) => SubmitKeepsInv(c, opening, s, id);
    case Record(id, clock) => RecordKeepsInv(c, opening, s, id, clock);
    case Deliver(id, attempt, how) => DeliverKeepsInv(c, opening, s, id, attempt, how);
    case Claim(ids, clock) => ClaimKeepsInv(c, opening, s, ids, clock);
    case Look(w, id) => WorkerStepKeepsInv(c, opening, s, w, Looked(id, s.db.transfers[id].status));
    case ReverseStuck(w) => ReverseStuckKeepsInv(c, opening, s, w);
    case Ask(w, reachable) => WorkerStepKeepsInv(c, opening, s, w, Next(c, s, step).value.workers[w]);
    case Apply(w, clock) => ApplyKeepsInv(c, opening, s, w, clock);
    case WorkerDies(w) => WorkerDropKeepsInv(c, opening, s, w);
    case _ => CallerStepKeepsInv(c, opening, s, step);
  }

  lemma {:induction false} InitialHasInv(c: Config, s: State)
    requires Initial(c, s)
    ensures Inv(c, Opening(s.db), s)
  {
    SeededHasInvariant(c.policy, s.db);
  }

  /** The invariant holds along every run. */
  lemma {:induction false} RunKeepsInv(c: Config, opening: seq<int>, s: State, steps: seq<Step>)
    requires Inv(c, opening, s) && Run(c, s, steps).Some?
    ensures Inv(c, opening, Run(c, s, steps).value)
    decreases |steps|
  {
    hide Inv, Next;
    if steps != [] {
      NextKeepsInv(c, opening, s, steps[0]);
      RunKeepsInv(c, opening, Next(c, s, steps[0]).value, steps[1..]);
    }
  }
}
