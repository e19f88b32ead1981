/**
 What a refusal says about the key. A business error stored and answered for a (user, key) does
 not by itself mean that the key has no transfer: the checks of the debit come before the
 unique key, so a request that takes over from one whose transfer went unanswered can be
 refused. It means it exactly when no transfer of the key was lost before.
 */
module Refusals {
  import opened Wrappers
  import opened Database
  import opened Conservation
  import opened Reconciliation
  import opened Protocol
  import opened ProtocolInvariant
  import opened ProtocolSafety
  import opened EndToEnd

  predicate HasTransfer(x: Setting, s: State) {
    KeyTaken(s.db.transfers, x.user, x.key)
  }

  /** A request still runs with the transfer it got. */
  predicate IsHeld(w: World) {
    exists p :: p in w.held && RunsHandler(w, p)
  }

  /** The record answers with a success. */
  predicate IsAnswered(w: World) {
    Recorded(w.slots).Some? && IsSuccess(Recorded(w.slots).value.code)
  }

  /** The event loses a transfer: its request ends without the answer, or the stored answer goes. */
  ghost predicate Loses(x: Setting, w: World, e: Happening) {
    || (e.Slot? && (e.move.Die? || e.move.Release?) && e.move.p in w.held && RunsHandler(w, e.move.p))
    || (&& IsAnswered(w) && Happens(x, w, e).Some?
        && Recorded(Happens(x, w, e).value.slots) != Recorded(w.slots))
  }

  ghost predicate LosesTransfer(x: Setting, w: World, happenings: seq<Happening>)
    decreases |happenings|
  {
    happenings != [] && Happens(x, w, happenings[0]).Some?
    && (Loses(x, w, happenings[0]) || LosesTransfer(x, Happens(x, w, happenings[0]).value, happenings[1..]))
  }

  /** Transfers of this key are created by its requests only. */
  predicate OnlyByRequests(x: Setting, happenings: seq<Happening>) {
    forall i :: 0 <= i < |happenings| && happenings[i].Saga? && happenings[i].step.Create? ==>
                  happenings[i].step.req.user != x.user || happenings[i].step.req.key != x.key
  }

  /** A transfer of the key is still in the hands of a request, or answered for. */
  predicate Accounted(x: Setting, w: World) {
    HasTransfer(x, w.saga) ==> IsHeld(w) || IsAnswered(w)
  }

  // ---------------------------------------------------------------- what the saga can do

  lemma {:induction false} StepKeepsTransfer(x: Setting, opening: seq<int>, s: State, step: Step)
    requires Inv(x.config, opening, s) && Next(x.config, s, step).Some? && HasTransfer(x, s)
    ensures HasTransfer(x, Next(x.config, s, step).value)
  {
    hide Inv, Next;
    var i :| 0 <= i < |s.db.transfers| && s.db.transfers[i].user == x.user && s.db.transfers[i].key == x.key;
    StepKeepsOwner(x.config, opening, s, step, i);
  }

  /** Only a debit for the key gives it a transfer. */
  lemma {:induction false} StepCreatesForItsKey(x: Setting, opening: seq<int>, s: State, step: Step)
    requires Inv(x.config, opening, s) && Next(x.config, s, step).Some?
    requires HasTransfer(x, Next(x.config, s, step).value) && !HasTransfer(x, s)
    ensures step.Create? && step.req.user == x.user && step.req.key == x.key
    ensures DebitSource(s.db, step.req, step.route, x.config.limit, step.clock).Ok?
  {
    hide DbInv, LaneOk, DebitSource, ApplyOutcome, ReverseInterrupted, ApplyAnswer, ClaimRows, Handle, CallerStep;
    var s', n := Next(x.config, s, step).value, |s.db.transfers|;
    var i :| 0 <= i < |s'.db.transfers| && s'.db.transfers[i].user == x.user && s'.db.transfers[i].key == x.key;
    if i < n {
      StepKeepsOwner(x.config, opening, s, step, i);
      assert false;
    }
    LengthAfter(x.config, opening, s, step);
    DebitSucceedsOrRefuses(x.config.policy, opening, s.db, step.req, step.route, x.config.limit, step.clock);
  }

  lemma {:induction false} LengthAfter(c: Config, opening: seq<int>, s: State, step: Step)
    requires Inv(c, opening, s) && Next(c, s, step).Some?
    ensures !step.Create? ==> |Next(c, s, step).value.db.transfers| == |s.db.transfers|
  {
    hide DbInv, LaneOk, DebitSource, ApplyOutcome, ReverseInterrupted, ApplyAnswer, Handle, CallerStep;
    match step
    case Submit(k) => SubmitSucceeds(c.policy, opening, s.db, k, s.now);
    case Record(k, clock) =>
      OutcomeSucceeds(c.policy, opening, s.db, k, s.lanes[k].caller.outcome, c.verificationDelay, clock);
    case ReverseStuck(w) => ReverseStuckStep(c, opening, s, w);
    case Apply(w, clock) => ApplyStep(c, opening, s, w, clock);
    case _ =>
  }

  // ---------------------------------------------------------------- what an event can do

  lemma {:induction false} SagaKeepsAccounted(x: Setting, opening: seq<int>, w: World, step: Step)
    requires Inv(x.config, opening, w.saga) && Accounted(x, w) && Happens(x, w, Saga(step)).Some?
    requires step.Create? ==> step.req.user != x.user || step.req.key != x.key
    ensures Accounted(x, Happens(x, w, Saga(step)).value)
  {
    hide Inv, Next;
    var w' := Happens(x, w, Saga(step)).value;
    if HasTransfer(x, w'.saga) {
      if !HasTransfer(x, w.saga) {
        StepCreatesForItsKey(x, opening, w.saga, step);
        assert false;
      }
      if p :| p in w.held && RunsHandler(w, p) {
        assert p in w'.held && RunsHandler(w', p);
      }
    }
  }

  lemma {:induction false} CreateKeepsAccounted(x: Setting, opening: seq<int>, w: World, e: Happening)
    requires Inv(x.config, opening, w.saga) && Accounted(x, w) && e.Creates? && Happens(x, w, e).Some?
    ensures Accounted(x, Happens(x, w, e).value)
  {
    hide Inv, Next, DebitSource;
    var w' := Happens(x, w, e).value;
    if HasTransfer(x, w'.saga) {
      if HasTransfer(x, w.saga) {
        if p :| p in w.held && RunsHandler(w, p) {
          assert p in w'.held && RunsHandler(w', p);
        }
      } else {
        StepCreatesForItsKey(x, opening, w.saga, Create(e.req, e.route, e.clock));
        assert e.p in w'.held && RunsHandler(w', e.p);
      }
    }
  }

  /** A running request owns the record, which is still in progress, and no other request runs. */
  lemma {:induction false} RunnerOwnsTheRecord(x: Setting, w: World, p: nat)
    requires Slots.Bounded(x.ttl, w.slots) && RunsHandler(w, p)
    ensures Idempotency.HasRow(w.slots.slot, w.slots.procs[p].rowId) && w.slots.slot.row.value.status.InProgress?
    ensures !IsAnswered(w)
    ensures forall q :: RunsHandler(w, q) ==> q == p
  {
  }

  /** An answer is only given by a running request, and becomes the record. */
  lemma {:induction false} AnswerIsRecorded(x: Setting, w: World, p: nat, code: nat, body: string)
    requires Slots.Bounded(x.ttl, w.slots) && EndToEnd.Answered(x, w, p, code, body).Some?
    ensures RunsHandler(w, p)
    ensures Recorded(EndToEnd.Answered(x, w, p, code, body).value.slots) == Some(Reply(code, body))
  {
    hide Slots.Bounded;
    assert RunsHandler(w, p);
    RunnerOwnsTheRecord(x, w, p);
  }

  lemma {:induction false} SlotKeepsAccounted(x: Setting, w: World, m: Slots.Move)
    requires Accounted(x, w) && Happens(x, w, Slot(m)).Some? && !Loses(x, w, Slot(m))
    ensures Accounted(x, Happens(x, w, Slot(m)).value)
  {
    hide HasTransfer;
    var w' := Happens(x, w, Slot(m)).value;
    if p :| p in w.held && RunsHandler(w, p) {
      RunnerGoesOn(x.ttl, w.slots, m, p);
      assert p in w'.held && RunsHandler(w', p);
    }
  }

  /** A handler ends only by its own completion, release or death. */
  lemma {:induction false} RunnerGoesOn(ttl: Idempotency.Ttl, t: Slots.Sys, m: Slots.Move, p: nat)
    requires Slots.Next(ttl, t, m).Some? && p in t.procs && t.procs[p].Running?
    requires (m.Complete? || m.Release? || m.Die?) ==> m.p != p
    ensures p in Slots.Next(ttl, t, m).value.procs && Slots.Next(ttl, t, m).value.procs[p] == t.procs[p]
  {
  }

  lemma {:induction false} EventKeepsAccounted(x: Setting, opening: seq<int>, w: World, e: Happening)
    requires Inv(x.config, opening, w.saga) && Slots.Bounded(x.ttl, w.slots) && Accounted(x, w)
    requires Happens(x, w, e).Some? && !Loses(x, w, e) && OnlyByRequests(x, [e])
    ensures Accounted(x, Happens(x, w, e).value)
  {
    hide Inv, Slots.Bounded, Slots.Next, Next, HasTransfer, Obtained;
    match e
    case Slot(m) => SlotKeepsAccounted(x, w, m);
    case Saga(step) =>
      assert [e][0] == e;
      SagaKeepsAccounted(x, opening, w, step);
    case Creates(_, _, _, _) => CreateKeepsAccounted(x, opening, w, e);
    case Succeeds(p, code, body) => AnswerIsRecorded(x, w, p, code, body);
    case Refuses(p, code, body) =>
      AnswerIsRecorded(x, w, p, code, body);
      RunnerOwnsTheRecord(x, w, p);
    case Replays(p) =>
      if q :| q in w.held && RunsHandler(w, q) {
        assert RunsHandler(Happens(x, w, e).value, q);
      }
  }

  // ---------------------------------------------------------------- over whole runs

  lemma {:induction false} SplitPrompt(ttl: Idempotency.Ttl, bound: nat, t: Slots.Sys, a: seq<Slots.Move>,
      b: seq<Slots.Move>)
    requires Slots.PromptRun(ttl, bound, t, a + b)
    ensures Slots.PromptRun(ttl, bound, t, a) && Slots.Run(ttl, t, a).Some?
    ensures Slots.PromptRun(ttl, bound, Slots.Run(ttl, t, a).value, b)
    decreases |a|
  {
    hide Slots.Next, Slots.Prompt;
    if a == [] {
      assert a + b == b;
    } else {
      assert (a + b)[0] == a[0] && (a + b)[1..] == a[1..] + b;
      SplitPrompt(ttl, bound, Slots.Next(ttl, t, a[0]).value, a[1..], b);
    }
  }

  /** After an event of a prompt run both layers' invariants still hold, and the rest is prompt. */
  lemma {:induction false} EventKeepsInvariants(x: Setting, bound: nat, opening: seq<int>, w: World,
      happenings: seq<Happening>)
    requires happenings != [] && Happens(x, w, happenings[0]).Some? && bound <= Slots.Window(x.ttl)
    requires Inv(x.config, opening, w.saga) && Slots.Bounded(x.ttl, w.slots)
    requires Slots.PromptRun(x.ttl, bound, w.slots, AllMoves(happenings))
    ensures var w' := Happens(x, w, happenings[0]).value;
            && Inv(x.config, opening, w'.saga) && Slots.Bounded(x.ttl, w'.slots)
            && Slots.PromptRun(x.ttl, bound, w'.slots, AllMoves(happenings[1..]))
  {
    hide Inv, Happens, Slots.Bounded, Slots.PromptRun, Slots.Run, Run, MovesOf, StepsOf;
    EventProjects(x, w, happenings[0]);
    SplitPrompt(x.ttl, bound, w.slots, MovesOf(happenings[0]), AllMoves(happenings[1..]));
    Slots.PromptRunKeepsBounded(x.ttl, bound, w.slots, MovesOf(happenings[0]));
    RunKeepsInv(x.config, opening, w.saga, StepsOf(happenings[0]));
  }

  lemma {:induction false} RunsKeepAccounted(x: Setting, bound: nat, opening: seq<int>, w: World,
      happenings: seq<Happening>)
    requires Inv(x.config, opening, w.saga) && Slots.Bounded(x.ttl, w.slots) && Accounted(x, w)
    requires Runs(x, w, happenings).Some? && OnlyByRequests(x, happenings) && !LosesTransfer(x, w, happenings)
    requires bound <= Slots.Window(x.ttl) && Slots.PromptRun(x.ttl, bound, w.slots, AllMoves(happenings))
    ensures Accounted(x, Runs(x, w, happenings).value) && Slots.Bounded(x.ttl, Runs(x, w, happenings).value.slots)
    decreases |happenings|
  {
    hide Inv, Happens, Loses, Accounted, Slots.Bounded, Slots.PromptRun, AllMoves;
    if happenings != [] {
      EventKeepsInvariants(x, bound, opening, w, happenings);
      EventKeepsAccounted(x, opening, w, happenings[0]);
      RunsKeepAccounted(x, bound, opening, Happens(x, w, happenings[0]).value, happenings[1..]);
    }
  }

  /** What was lost exists, and goes on existing. */
  lemma {:induction false} LostTransferExists(x: Setting, opening: seq<int>, w: World, happenings: seq<Happening>)
    requires Inv(x.config, opening, w.saga) && AllTrue(x, w) && Runs(x, w, happenings).Some?
    requires LosesTransfer(x, w, happenings) || HasTransfer(x, w.saga)
    ensures HasTransfer(x, Runs(x, w, happenings).value.saga)
    decreases |happenings|
  {
    hide Inv, Happens, Loses, AllTrue, HasTransfer;
    if happenings != [] {
      var w' := Happens(x, w, happenings[0]).value;
      EventKeepsAllTrue(x, opening, w, happenings[0]);
      EventProjects(x, w, happenings[0]);
      RunKeepsInv(x.config, opening, w.saga, StepsOf(happenings[0]));
      if Loses(x, w, happenings[0]) {
        LosesWhatExists(x, w, happenings[0]);
      }
      if HasTransfer(x, w.saga) {
        EventKeepsTransfer(x, opening, w, happenings[0]);
      }
      LostTransferExists(x, opening, w', happenings[1..]);
    }
  }

  lemma {:induction false} LosesWhatExists(x: Setting, w: World, e: Happening)
    requires AllTrue(x, w) && Loses(x, w, e)
    ensures HasTransfer(x, w.saga)
  {
    hide Happens;
    if e.Slot? && (e.move.Die? || e.move.Release?) && e.move.p in w.held && RunsHandler(w, e.move.p) {
      assert IsOurs(x, w.saga, w.held[e.move.p]);
    } else {
      assert IsTrue(x, w.saga, Recorded(w.slots).value);
    }
  }

  lemma {:induction false} EventKeepsTransfer(x: Setting, opening: seq<int>, w: World, e: Happening)
    requires Inv(x.config, opening, w.saga) && Happens(x, w, e).Some? && HasTransfer(x, w.saga)
    ensures HasTransfer(x, Happens(x, w, e).value.saga)
  {
    hide Inv, Next, HasTransfer, Slots.Next, Obtained;
    match e
    case Saga(step) => StepKeepsTransfer(x, opening, w.saga, step);
    case Creates(_, req, route, clock) => StepKeepsTransfer(x, opening, w.saga, Create(req, route, clock));
    case _ =>
  }

  /**
   The exact condition: in any run where handlers end within the window and only its requests
   debit for the key, a refusal that is answered means that the key has no transfer if and only
   if none was lost before: no request that got one died or was released without answering, and
   no stored success was removed.
   */
  lemma {:induction false} RefusalIsTrueIff(x: Setting, bound: nat, w0: World, happenings: seq<Happening>, w: World,
      p: nat,
      code: nat, body: string)
    requires Begins(x, w0) && Runs(x, w0, happenings) == Some(w) && OnlyByRequests(x, happenings)
    requires bound <= Slots.Window(x.ttl) && Slots.PromptRun(x.ttl, bound, w0.slots, AllMoves(happenings))
    requires Happens(x, w, Refuses(p, code, body)).Some?
    ensures !HasTransfer(x, w.saga) <==> !LosesTransfer(x, w0, happenings)
  {
    hide Inv, Runs, Happens, Loses, LosesTransfer, Slots.Bounded, Slots.PromptRun, Initial;
    var opening := Opening(w0.saga.db);
    InitialHasInv(x.config, w0.saga);
    StartIsAccounted(x, w0);
    if LosesTransfer(x, w0, happenings) {
      LostTransferExists(x, opening, w0, happenings);
    } else {
      RunsKeepAccounted(x, bound, opening, w0, happenings);
      RefuserHoldsNothing(x, w, p, code, body);
    }
  }

  lemma {:induction false} StartIsAccounted(x: Setting, w: World)
    requires Begins(x, w)
    ensures Accounted(x, w) && AllTrue(x, w) && Slots.Bounded(x.ttl, w.slots)
  {
  }

  lemma {:induction false} RefuserHoldsNothing(x: Setting, w: World, p: nat, code: nat, body: string)
    requires Slots.Bounded(x.ttl, w.slots) && Happens(x, w, Refuses(p, code, body)).Some?
    ensures !IsHeld(w) && !IsAnswered(w)
  {
    hide Slots.Bounded, Slots.Next;
    AnswerIsRecorded(x, w, p, code, body);
    RunnerOwnsTheRecord(x, w, p);
  }

  // ---------------------------------------------------------------- the input

  const OrderAgain := Creates(8, FirstTransfer.Order, FirstTransfer.Route, 0)

  /** The statements of a request, up to reading the record. */
  lemma {:induction false} RequestReads(ttl: Idempotency.Ttl, t: Slots.Sys, p: nat)
    returns (t1: Slots.Sys, t2: Slots.Sys, t3: Slots.Sys)
    requires p !in t.procs
    ensures Slots.Next(ttl, t, Slots.Arrive(p, "")) == Some(t1)
    ensures Slots.Next(ttl, t1, Slots.Acquire(p, false)) == Some(t2)
    ensures Slots.Next(ttl, t2, Slots.ReadClock(p)) == Some(t3)
    ensures t3 == t.(procs := t3.procs) && p in t3.procs && t3.procs[p] == Slots.Loading("", t.now)
  {
    t1 := Slots.Next(ttl, t, Slots.Arrive(p, "")).value;
    t2 := Slots.Next(ttl, t1, Slots.Acquire(p, false)).value;
    t3 := Slots.Next(ttl, t2, Slots.ReadClock(p)).value;
  }

  /** And of one that finds it reusable. */
  lemma {:induction false} RequestTakesOver(ttl: Idempotency.Ttl, t: Slots.Sys, p: nat)
    returns (t4: Slots.Sys, t5: Slots.Sys, t6: Slots.Sys)
    requires t.deleter.None? && p in t.procs && t.procs[p] == Slots.Loading("", t.now) && t.slot.row.Some?
    requires Idempotency.Reusable(t.slot.row.value, t.now, ttl)
    ensures Slots.Next(ttl, t, Slots.Load(p)) == Some(t4)
    ensures Slots.Next(ttl, t4, Slots.Delete(p)) == Some(t5)
    ensures Slots.Next(ttl, t5, Slots.Insert(p)) == Some(t6)
    ensures p in t6.procs && t6.procs[p].Running? && t6.deleter.None?
  {
    t4 := Slots.Next(ttl, t, Slots.Load(p)).value;
    t5 := Slots.Next(ttl, t4, Slots.Delete(p)).value;
    t6 := Slots.Next(ttl, t5, Slots.Insert(p)).value;
  }

  lemma {:induction false} TakesOver(x: Setting, w: World, before: seq<Happening>, m: World, p: nat)
    returns (happenings: seq<Happening>, later: World)
    requires Runs(x, w, before) == Some(m)
    requires m.slots.deleter.None? && p !in m.slots.procs && m.slots.slot.row.Some?
    requires Idempotency.Reusable(m.slots.slot.row.value, m.slots.now, x.ttl)
    ensures Runs(x, w, happenings) == Some(later)
    ensures later == m.(slots := later.slots) && RunsHandler(later, p) && later.slots.deleter.None?
  {
    hide Runs, Happens, Slots.Next;
    var t1, t2, t3 := RequestReads(x.ttl, m.slots, p);
    var t4, t5, t6 := RequestTakesOver(x.ttl, t3, p);
    SlotHappens(x, m, Slots.Arrive(p, ""), t1);
    happenings := RunsSnoc(x, w, before, m, Slot(Slots.Arrive(p, "")));
    SlotHappens(x, m.(slots := t1), Slots.Acquire(p, false), t2);
    happenings := RunsSnoc(x, w, happenings, m.(slots := t1), Slot(Slots.Acquire(p, false)));
    SlotHappens(x, m.(slots := t2), Slots.ReadClock(p), t3);
    happenings := RunsSnoc(x, w, happenings, m.(slots := t2), Slot(Slots.ReadClock(p)));
    SlotHappens(x, m.(slots := t3), Slots.Load(p), t4);
    happenings := RunsSnoc(x, w, happenings, m.(slots := t3), Slot(Slots.Load(p)));
    SlotHappens(x, m.(slots := t4), Slots.Delete(p), t5);
    happenings := RunsSnoc(x, w, happenings, m.(slots := t4), Slot(Slots.Delete(p)));
    SlotHappens(x, m.(slots := t5), Slots.Insert(p), t6);
    happenings := RunsSnoc(x, w, happenings, m.(slots := t5), Slot(Slots.Insert(p)));
    later := m.(slots := t6);
  }

  /** The first request dies with its transfer, and its record becomes reusable. */
  lemma {:induction false} HolderDies(x: Setting, w: World) returns (dead: World, m: World)
    requires RunsHandler(w, 7) && w.slots.deleter.None? && w.slots.procs.Keys == {7} && w.slots.now == 0
    requires w.slots.slot.row == Some(Idempotency.NewRow(0, "", 0, x.ttl)) && w.held == map[7 := 0]
    ensures Happens(x, w, Slot(Slots.Die(7))) == Some(dead)
    ensures Happens(x, dead, Saga(Tick(Slots.Window(x.ttl)))) == Some(m)
    ensures m.saga == w.saga.(now := w.saga.now + Slots.Window(x.ttl)) && m.given == w.given && m.held == map[]
    ensures m.slots.deleter.None? && 8 !in m.slots.procs && m.slots.slot.row.Some?
    ensures Idempotency.Reusable(m.slots.slot.row.value, m.slots.now, x.ttl)
  {
    dead := Happens(x, w, Slot(Slots.Die(7))).value;
    m := Happens(x, dead, Saga(Tick(Slots.Window(x.ttl)))).value;
  }

  /** The second request's debit fails on the balance. */
  lemma {:induction false} OrderAgainChangesNothing(x: Setting, w: World, s: State)
    requires x.config.policy.Valid() && (x.config.limit.Some? ==> x.config.limit.value >= 1)
    requires x.user == FirstTransfer.Order.user && x.key == FirstTransfer.Order.key
    requires Next(x.config, FirstTransfer.Start, Create(FirstTransfer.Order, FirstTransfer.Route, 0)) == Some(s)
    requires w.saga.db == s.db && w.saga.now >= 0 && w.held == map[] && RunsHandler(w, 8)
    ensures Happens(x, w, OrderAgain) == Some(w)
  {
    hide DebitSource;
    FirstTransfer.OrderIsPlanned(x.config.limit);
    FirstTransfer.OrderAgainIsRefused(x.config);
  }

  /** It answers with that, and the answer is stored. */
  lemma {:induction false} SecondIsRefused(x: Setting, w: World, body: string) returns (m: World)
    requires w.held == map[] && RunsHandler(w, 8) && w.slots.deleter.None?
    ensures Happens(x, w, Refuses(8, 422, body)) == Some(m)
    ensures m.saga == w.saga && m.given == w.given + [Reply(422, body)]
  {
    m := Happens(x, w, Refuses(8, 422, body)).value;
  }

  /**
   A refusal that is not true: from the smallest seeded database the first request debits and
   dies, a second takes over one window later with the same order, and is refused for the balance
   the first one spent. The refusal is answered and stored while the key has its transfer.
   */
  lemma {:induction false} RefusalDespiteATransfer(x: Setting, body: string)
    returns (w0: World, happenings: seq<Happening>, w: World)
    requires x.config.policy.Valid() && (x.config.limit.Some? ==> x.config.limit.value >= 1)
    requires x.user == FirstTransfer.Order.user && x.key == FirstTransfer.Order.key
    ensures Begins(x, w0) && Runs(x, w0, happenings) == Some(w)
    ensures HasTransfer(x, w.saga) && w.given == [Reply(422, body)]
  {
    hide Runs, Happens, Initial, Next;
    w0 := World(EndToEnd.Quiet, FirstTransfer.Start, map[], []);
    FirstTransfer.StartIsInitial(x.config);
    var first, ready := HandlerStarts(x, w0, 7);
    var created := HandlerCreates(x, ready);
    happenings := RunsSnoc(x, w0, first, ready, OrderCreated);
    var dead, late := HolderDies(x, created);
    happenings := RunsSnoc(x, w0, happenings, created, Slot(Slots.Die(7)));
    happenings := RunsSnoc(x, w0, happenings, dead, Saga(Tick(Slots.Window(x.ttl))));
    var taken;
    happenings, taken := TakesOver(x, w0, happenings, late, 8);
    OrderHasItsTransfer(x, created.saga);
    OrderAgainChangesNothing(x, taken, created.saga);
    happenings := RunsSnoc(x, w0, happenings, taken, OrderAgain);
    w := SecondIsRefused(x, taken, body);
    happenings := RunsSnoc(x, w0, happenings, taken, Refuses(8, 422, body));
  }

  lemma {:induction false} OrderHasItsTransfer(x: Setting, s: State)
    requires x.config.policy.Valid() && (x.config.limit.Some? ==> x.config.limit.value >= 1)
    requires x.user == FirstTransfer.Order.user && x.key == FirstTransfer.Order.key
    requires Next(x.config, FirstTransfer.Start, Create(FirstTransfer.Order, FirstTransfer.Route, 0)) == Some(s)
    ensures s.now == 0 && HasTransfer(x, s)
  {
    hide DebitSource, DbInv;
    FirstTransfer.OrderIsPlanned(x.config.limit);
    FirstTransfer.OrderIsDebited(x.config);
    assert s.db.transfers[0].user == x.user && s.db.transfers[0].key == x.key;
  }
}
