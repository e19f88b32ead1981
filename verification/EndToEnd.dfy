/**
 Both layers together: the requests of one (user, key), interleaved statement by statement in
 front of the transfer protocol, each running `create_transfer` as its handler. Whatever is
 answered successfully for that key, by a handler or from the stored record, names one
 transfer, which was debited once and credited at most once.
 */
module EndToEnd {
  import opened Wrappers
  import opened RateEngine
  import opened Ledger
  import opened TransferState
  import opened Database
  import opened Conservation
  import opened Reconciliation
  import opened Protocol
  import opened ProtocolInvariant
  import opened ProtocolSafety
  import FirstTransfer
  import Idempotency
  import Slots = IdempotencyProtocol

  /** The settings of both layers, the key in question, and the transfer a response body names. */
  datatype Setting = Setting(
    config: Config,
    ttl: Idempotency.Ttl,
    user: string,
    key: string,
    names: string -> Option<nat>)

  datatype Reply = Reply(code: nat, body: string)

  /** `held` is the transfer that a running request's `create_transfer` came back with. */
  datatype World = World(slots: Slots.Sys, saga: State, held: map<nat, nat>, given: seq<Reply>)

  datatype Happening =
    | Slot(move: Slots.Move)
    | Saga(step: Step)
    | Creates(p: nat, req: Request, route: RouteConfig, clock: Time)
    | Succeeds(p: nat, code: nat, body: string)
    | Refuses(p: nat, code: nat, body: string)
    | Replays(p: nat)

  predicate IsSuccess(code: nat) {
    code < 400
  }

  // ---------------------------------------------------------------- one event

  /** The transfer of a (user, key), as the unique violation's handler looks it up. */
  function FindByKey(transfers: seq<Transfer>, user: string, key: string): (r: Option<nat>)
    ensures r.Some? <==> KeyTaken(transfers, user, key)
    ensures r.Some? ==> r.value < |transfers| && transfers[r.value].user == user && transfers[r.value].key == key
  {
    if transfers == [] then None
    else
      var n := |transfers| - 1;
      if transfers[n].user == user && transfers[n].key == key then Some(n) else FindByKey(transfers[..n], user, key)
  }

  /** What `create_transfer` holds after its debit: the new transfer, or the one the key already has. */
  ghost function Obtained(x: Setting, s: State, req: Request, route: RouteConfig, clock: Time): Option<nat>
    requires ValidRoute(route)
  {
    match DebitSource(s.db, req, route, x.config.limit, clock)
    case Ok(_) => Some(|s.db.transfers|)
    case Err(e) => if e == DuplicateKey then FindByKey(s.db.transfers, req.user, req.key) else None
  }

  /** The reply a request gives when its begin found a completed record. */
  function ReplayOf(q: Slots.Proc): Option<Reply> {
    match q
    case Unlocking(Replay(code, body)) => Some(Reply(code, body))
    case Finished(Replay(code, body)) => Some(Reply(code, body))
    case _ => None
  }

  predicate RunsHandler(w: World, p: nat) {
    p in w.slots.procs && w.slots.procs[p].Running?
  }

  function Answered(x: Setting, w: World, p: nat, code: nat, body: string): Option<World> {
    match Slots.Next(x.ttl, w.slots, Slots.Complete(p, code, body))
    case None => None
    case Some(slots) => Some(w.(slots := slots, given := w.given + [Reply(code, body)]))
  }

  /**
   One event: a statement of some request other than storing an answer, a step of the saga (a
   tick moves both), the handler's debit, its answer, or a replay. Handlers and requests may
   stop, die or be taken over anywhere in between.
   */
  ghost function Happens(x: Setting, w: World, e: Happening): Option<World> {
    match e
    case Slot(m) =>
      if m.Complete? || m.Tick? then None
      else
        (match Slots.Next(x.ttl, w.slots, m)
         case None => None
         case Some(slots) => Some(w.(slots := slots, held := if m.Die? then w.held - {m.p} else w.held)))
    case Saga(step) =>
      (match Protocol.Next(x.config, w.saga, step)
       case None => None
       case Some(s) =>
         Some(w.(saga := s, slots := if step.Tick? then w.slots.(now := w.slots.now + step.delta) else w.slots)))
    case Creates(p, req, route, clock) =>
      if !RunsHandler(w, p) || p in w.held || req.user != x.user || req.key != x.key || !ValidRoute(route) then None
      else
        (match Protocol.Next(x.config, w.saga, Create(req, route, clock))
         case None => None
         case Some(s) =>
           var id := Obtained(x, w.saga, req, route, clock);
           Some(w.(saga := s, held := if id.Some? then w.held[p := id.value] else w.held)))
    case Succeeds(p, code, body) =>
      if p !in w.held || !IsSuccess(code) || x.names(body) != Some(w.held[p]) then None
      else Answered(x, w, p, code, body)
    case Refuses(p, code, body) =>
      if p in w.held || IsSuccess(code) then None else Answered(x, w, p, code, body)
    case Replays(p) =>
      if p !in w.slots.procs then None
      else
        (match ReplayOf(w.slots.procs[p])
         case None => None
         case Some(reply) => Some(w.(given := w.given + [reply])))
  }

  ghost function Runs(x: Setting, w: World, happenings: seq<Happening>): Option<World>
    decreases |happenings|
  {
    if happenings == [] then Some(w)
    else
      match Happens(x, w, happenings[0])
      case None => None
      case Some(w') => Runs(x, w', happenings[1..])
  }

  ghost predicate Begins(x: Setting, w: World) {
    && Slots.Initial(w.slots) && Protocol.Initial(x.config, w.saga)
    && w.slots.now == w.saga.now && w.held == map[] && w.given == []
  }

  // ---------------------------------------------------------------- each layer sees its own run

  function MovesOf(e: Happening): seq<Slots.Move> {
    match e
    case Slot(m) => [m]
    case Saga(step) => if step.Tick? then [Slots.Tick(step.delta)] else []
    case Succeeds(p, code, body) => [Slots.Complete(p, code, body)]
    case Refuses(p, code, body) => [Slots.Complete(p, code, body)]
    case _ => []
  }

  function StepsOf(e: Happening): seq<Step> {
    match e
    case Saga(step) => [step]
    case Creates(_, req, route, clock) => [Create(req, route, clock)]
    case _ => []
  }

  function AllMoves(happenings: seq<Happening>): seq<Slots.Move> {
    if happenings == [] then [] else MovesOf(happenings[0]) + AllMoves(happenings[1..])
  }

  function AllSteps(happenings: seq<Happening>): seq<Step> {
    if happenings == [] then [] else StepsOf(happenings[0]) + AllSteps(happenings[1..])
  }

  lemma {:induction false} EventProjects(x: Setting, w: World, e: Happening)
    requires Happens(x, w, e).Some?
    ensures Slots.Run(x.ttl, w.slots, MovesOf(e)) == Some(Happens(x, w, e).value.slots)
    ensures Run(x.config, w.saga, StepsOf(e)) == Some(Happens(x, w, e).value.saga)
  {
    hide Slots.ProcStep, Protocol.Next;
    var w' := Happens(x, w, e).value;
    assert forall t :: Slots.Run(x.ttl, t, []) == Some(t);
    assert forall t :: Run(x.config, t, []) == Some(t);
    assert MovesOf(e) != [] ==> MovesOf(e)[1..] == [];
    assert StepsOf(e) != [] ==> StepsOf(e)[1..] == [];
  }

  lemma {:induction false} JoinMoves(ttl: Idempotency.Ttl, s: Slots.Sys, a: seq<Slots.Move>, m: Slots.Sys,
      b: seq<Slots.Move>)
    requires Slots.Run(ttl, s, a) == Some(m)
    ensures Slots.Run(ttl, s, a + b) == Slots.Run(ttl, m, b)
    decreases |a|
  {
    hide Slots.Next;
    if a == [] {
      assert a + b == b;
    } else {
      assert (a + b)[1..] == a[1..] + b;
      JoinMoves(ttl, Slots.Next(ttl, s, a[0]).value, a[1..], m, b);
    }
  }

  lemma {:induction false} JoinSteps(c: Config, s: State, a: seq<Step>, m: State, b: seq<Step>)
    requires Run(c, s, a) == Some(m)
    ensures Run(c, s, a + b) == Run(c, m, b)
    decreases |a|
  {
    hide Protocol.Next;
    if a == [] {
      assert a + b == b;
    } else {
      assert (a + b)[1..] == a[1..] + b;
      JoinSteps(c, Protocol.Next(c, s, a[0]).value, a[1..], m, b);
    }
  }

  /**
   Every run of the two layers together is a run of each: so all that is proved of the
   idempotency protocol and of the transfer protocol holds of the whole.
   */
  lemma {:induction false} RunsProject(x: Setting, w: World, happenings: seq<Happening>)
    requires Runs(x, w, happenings).Some?
    ensures Slots.Run(x.ttl, w.slots, AllMoves(happenings)) == Some(Runs(x, w, happenings).value.slots)
    ensures Run(x.config, w.saga, AllSteps(happenings)) == Some(Runs(x, w, happenings).value.saga)
    decreases |happenings|
  {
    hide Happens, MovesOf, StepsOf;
    if happenings != [] {
      var w' := Happens(x, w, happenings[0]).value;
      EventProjects(x, w, happenings[0]);
      RunsProject(x, w', happenings[1..]);
      JoinMoves(x.ttl, w.slots, MovesOf(happenings[0]), w'.slots, AllMoves(happenings[1..]));
      JoinSteps(x.config, w.saga, StepsOf(happenings[0]), w'.saga, AllSteps(happenings[1..]));
    }
  }

  // ---------------------------------------------------------------- what every event keeps

  /** The transfer exists and belongs to this key. */
  predicate IsOurs(x: Setting, s: State, id: nat) {
    id < |s.db.transfers| && s.db.transfers[id].user == x.user && s.db.transfers[id].key == x.key
  }

  /** A success names a transfer of this key. */
  predicate IsTrue(x: Setting, s: State, reply: Reply) {
    IsSuccess(reply.code) ==> x.names(reply.body).Some? && IsOurs(x, s, x.names(reply.body).value)
  }

  predicate AllTrue(x: Setting, w: World) {
    && (Recorded(w.slots).Some? ==> IsTrue(x, w.saga, Recorded(w.slots).value))
    && (forall p :: p in w.slots.procs && ReplayOf(w.slots.procs[p]).Some? ==>
                      IsTrue(x, w.saga, ReplayOf(w.slots.procs[p]).value))
    && (forall p :: p in w.held ==> IsOurs(x, w.saga, w.held[p]))
    && (forall i :: 0 <= i < |w.given| ==> IsTrue(x, w.saga, w.given[i]))
  }

  /** No step of the saga changes whose transfer a row is. */
  lemma {:induction false} StepKeepsOwner(c: Config, opening: seq<int>, s: State, step: Step, id: nat)
    requires Inv(c, opening, s) && Protocol.Next(c, s, step).Some? && id < |s.db.transfers|
    ensures var s' := Protocol.Next(c, s, step).value;
            && id < |s'.db.transfers|
            && s'.db.transfers[id].user == s.db.transfers[id].user && s'.db.transfers[id].key == s.db.transfers[id].key
  {
    hide DbInv, LaneOk, DebitSource, ApplyOutcome, ReverseInterrupted, ApplyAnswer, ClaimRows, Handle, CallerStep;
    match step
    case Create(req, route, clock) =>
      DebitSucceedsOrRefuses(c.policy, opening, s.db, req, route, c.limit, clock);
      var r := DebitSource(s.db, req, route, c.limit, clock);
      if r.Ok? { assert r.value.transfers[id] == r.value.transfers[..|s.db.transfers|][id]; }
    case Submit(k) => SubmitSucceeds(c.policy, opening, s.db, k, s.now);
    case Record(k, clock) =>
      OutcomeSucceeds(c.policy, opening, s.db, k, s.lanes[k].caller.outcome, c.verificationDelay, clock);
    case ReverseStuck(w) => ReverseStuckStep(c, opening, s, w);
    case Apply(w, clock) => ApplyStep(c, opening, s, w, clock);
    case Claim(ids, clock) => ClaimLeasesDueRows(c.policy, s.db.transfers, ids, clock, id);
    case _ =>
  }

  lemma {:induction false} StepKeepsAllTrue(x: Setting, opening: seq<int>, w: World, step: Step)
    requires Inv(x.config, opening, w.saga) && AllTrue(x, w) && Protocol.Next(x.config, w.saga, step).Some?
    ensures AllTrue(x, w.(saga := Protocol.Next(x.config, w.saga, step).value))
  {
    hide Inv, Protocol.Next;
    var s' := Protocol.Next(x.config, w.saga, step).value;
    forall id: nat | IsOurs(x, w.saga, id)
      ensures IsOurs(x, s', id)
    {
      StepKeepsOwner(x.config, opening, w.saga, step, id);
    }
  }

  /** What a request holds after its debit is a transfer of this key. */
  lemma {:induction false} ObtainedIsOurs(x: Setting, opening: seq<int>, s: State, req: Request, route: RouteConfig,
      clock: Time)
    requires Inv(x.config, opening, s) && ValidRoute(route) && req.user == x.user && req.key == x.key
    requires Protocol.Next(x.config, s, Create(req, route, clock)).Some?
    requires Obtained(x, s, req, route, clock).Some?
    ensures IsOurs(x, Protocol.Next(x.config, s, Create(req, route, clock)).value,
                   Obtained(x, s, req, route, clock).value)
  {
    hide DbInv, LaneOk, DebitSource;
    DebitSucceedsOrRefuses(x.config.policy, opening, s.db, req, route, x.config.limit, clock);
  }

  /** The answer the record holds. */
  function Recorded(t: Slots.Sys): Option<Reply> {
    if t.slot.row.Some? && t.slot.row.value.status.Completed?
    then Some(Reply(t.slot.row.value.status.code, t.slot.row.value.status.body)) else None
  }

  /** After a move the record holds what it held, or what a handler just completed it with. */
  lemma {:induction false} MoveRecords(ttl: Idempotency.Ttl, t: Slots.Sys, m: Slots.Move)
    requires Slots.Next(ttl, t, m).Some? && Recorded(Slots.Next(ttl, t, m).value).Some?
    ensures || Recorded(Slots.Next(ttl, t, m).value) == Recorded(t)
            || (m.Complete? && Recorded(Slots.Next(ttl, t, m).value) == Some(Reply(m.code, m.body)))
  {
  }

  /** After a move a request replays what it replayed before, or what the record holds. */
  lemma {:induction false} MoveReplays(ttl: Idempotency.Ttl, t: Slots.Sys, m: Slots.Move, p: nat)
    requires Slots.Next(ttl, t, m).Some? && p in Slots.Next(ttl, t, m).value.procs
    requires ReplayOf(Slots.Next(ttl, t, m).value.procs[p]).Some?
    ensures var reply := ReplayOf(Slots.Next(ttl, t, m).value.procs[p]);
            (p in t.procs && reply == ReplayOf(t.procs[p])) || reply == Recorded(t)
  {
  }

  /** Statements of the requests move answers around and invent none. */
  lemma {:induction false} MoveKeepsAllTrue(x: Setting, w: World, m: Slots.Move)
    requires AllTrue(x, w) && Slots.Next(x.ttl, w.slots, m).Some?
    requires m.Complete? ==> IsTrue(x, w.saga, Reply(m.code, m.body))
    ensures AllTrue(x, w.(slots := Slots.Next(x.ttl, w.slots, m).value))
  {
    hide Slots.Next;
    var slots := Slots.Next(x.ttl, w.slots, m).value;
    if Recorded(slots).Some? {
      MoveRecords(x.ttl, w.slots, m);
    }
    forall p | p in slots.procs && ReplayOf(slots.procs[p]).Some?
      ensures IsTrue(x, w.saga, ReplayOf(slots.procs[p]).value)
    {
      MoveReplays(x.ttl, w.slots, m, p);
    }
  }

  lemma {:induction false} EventKeepsAllTrue(x: Setting, opening: seq<int>, w: World, e: Happening)
    requires Inv(x.config, opening, w.saga) && AllTrue(x, w) && Happens(x, w, e).Some?
    ensures AllTrue(x, Happens(x, w, e).value)
  {
    hide Inv, Slots.Next, Protocol.Next, Obtained;
    match e
    case Slot(m) => MoveKeepsAllTrue(x, w, m);
    case Saga(step) => StepKeepsAllTrue(x, opening, w, step);
    case Creates(p, req, route, clock) =>
      StepKeepsAllTrue(x, opening, w, Create(req, route, clock));
      if Obtained(x, w.saga, req, route, clock).Some? {
        ObtainedIsOurs(x, opening, w.saga, req, route, clock);
      }
    case Succeeds(p, code, body) => MoveKeepsAllTrue(x, w, Slots.Complete(p, code, body));
    case Refuses(p, code, body) => MoveKeepsAllTrue(x, w, Slots.Complete(p, code, body));
    case Replays(p) =>
  }

  lemma {:induction false} RunsKeepAllTrue(x: Setting, opening: seq<int>, w: World, happenings: seq<Happening>)
    requires Inv(x.config, opening, w.saga) && AllTrue(x, w) && Runs(x, w, happenings).Some?
    ensures AllTrue(x, Runs(x, w, happenings).value)
    decreases |happenings|
  {
    hide Inv, Happens, AllTrue;
    if happenings != [] {
      var w' := Happens(x, w, happenings[0]).value;
      EventKeepsAllTrue(x, opening, w, happenings[0]);
      EventProjects(x, w, happenings[0]);
      RunKeepsInv(x.config, opening, w.saga, StepsOf(happenings[0]));
      RunsKeepAllTrue(x, opening, w', happenings[1..]);
    }
  }

  // ---------------------------------------------------------------- the whole promise

  /**
   Exactly once, end to end: over every interleaving of requests, takeovers, lost locks, deaths
   and saga steps, with no bound on handlers, all successful answers for one (user, key) name
   the same transfer; it has exactly one debit, and at most one credit at the partner.
   */
  lemma {:induction false} SuccessesNameOneTransfer(x: Setting, w0: World, happenings: seq<Happening>, w: World,
      i: nat, j: nat)
    requires Begins(x, w0) && Runs(x, w0, happenings) == Some(w)
    requires i < |w.given| && j < |w.given| && IsSuccess(w.given[i].code) && IsSuccess(w.given[j].code)
    ensures x.names(w.given[i].body) == x.names(w.given[j].body)
    ensures x.names(w.given[i].body).Some?
    ensures var id := x.names(w.given[i].body).value;
            && IsOurs(x, w.saga, id) && id < |w.saga.lanes|
            && (forall other :: IsOurs(x, w.saga, other) ==> other == id)
            && |JournalsOf(w.saga.db.book.journals, id)| >= 1
            && (forall k :: 0 <= k < |JournalsOf(w.saga.db.book.journals, id)| ==>
                              (JournalsOf(w.saga.db.book.journals, id)[k].kind == TransferDebit <==> k == 0))
            && |w.saga.lanes[id].credits| <= 1
  {
    hide Inv, Happens, Runs, Run, Slots.Run, Protocol.Initial;
    var opening := Opening(w0.saga.db);
    InitialHasInv(x.config, w0.saga);
    RunsKeepAllTrue(x, opening, w0, happenings);
    RunsProject(x, w0, happenings);
    assert Reached(x.config, w0.saga, AllSteps(happenings), w.saga);
    assert IsTrue(x, w.saga, w.given[i]) && IsTrue(x, w.saga, w.given[j]);
    var id := x.names(w.given[i].body).value;
    forall other | IsOurs(x, w.saga, other)
      ensures other == id
    {
      OneTransferAndDebitPerKey(x.config, w0.saga, AllSteps(happenings), w.saga, id, other);
    }
    OneTransferAndDebitPerKey(x.config, w0.saga, AllSteps(happenings), w.saga, id, id);
    AtMostOneCredit(x.config, w0.saga, AllSteps(happenings), w.saga, id);
  }

  lemma {:induction false} AtMostOneCredit(c: Config, s0: State, steps: seq<Step>, s: State, id: nat)
    requires Reached(c, s0, steps, s) && id < |s.db.transfers|
    ensures id < |s.lanes| && |s.lanes[id].credits| <= 1
  {
    hide DbInv;
    ReachedHasInv(c, s0, steps, s);
    var job, l := JobOf(c, s.db.book.accounts, s.db.transfers[id]), s.lanes[id];
    assert LaneOk(job, s.db.transfers[id], l);
    assert l.credits.Keys <= {job.partner};
    AtMostOneMember(l.credits.Keys, job.partner);
  }

  lemma {:induction false} AtMostOneMember(members: set<string>, only: string)
    requires members <= {only}
    ensures |members| <= 1
  {
    assert members == {} || members == {only};
  }

  // ---------------------------------------------------------------- a success is reached

  lemma {:induction false} RunsSnoc(x: Setting, w: World, happenings: seq<Happening>, m: World, e: Happening)
      returns (longer: seq<Happening>)
    requires Runs(x, w, happenings) == Some(m) && Happens(x, m, e).Some?
    ensures Runs(x, w, longer) == Happens(x, m, e)
    ensures longer == happenings + [e]
    decreases |happenings|
  {
    hide Happens;
    longer := happenings + [e];
    if happenings == [] {
      assert longer == [e] && [e][1..] == [];
      assert forall n :: Runs(x, n, []) == Some(n);
    } else {
      assert longer[1..] == happenings[1..] + [e];
      var rest := RunsSnoc(x, Happens(x, w, happenings[0]).value, happenings[1..], m, e);
    }
  }

  lemma {:induction false} Nothing(x: Setting, w: World) returns (none: seq<Happening>)
    ensures Runs(x, w, none) == Some(w)
  {
    none := [];
  }

  const Quiet := Slots.Sys(0, Idempotency.EmptySlot, 0, None, map[])

  lemma {:induction false} SlotHappens(x: Setting, w: World, m: Slots.Move, slots: Slots.Sys)
    requires Slots.Next(x.ttl, w.slots, m) == Some(slots) && !m.Complete? && !m.Tick? && !m.Die?
    ensures Happens(x, w, Slot(m)) == Some(w.(slots := slots))
  {
    hide Slots.Next;
  }

  /** The statements of the first request of a key, up to its handler. */
  lemma {:induction false} QuietSlotsStart(ttl: Idempotency.Ttl, p: nat)
    returns (t1: Slots.Sys, t2: Slots.Sys, t3: Slots.Sys, t4: Slots.Sys, t5: Slots.Sys)
    ensures Slots.Next(ttl, Quiet, Slots.Arrive(p, "")) == Some(t1)
    ensures Slots.Next(ttl, t1, Slots.Acquire(p, false)) == Some(t2)
    ensures Slots.Next(ttl, t2, Slots.ReadClock(p)) == Some(t3)
    ensures Slots.Next(ttl, t3, Slots.Load(p)) == Some(t4)
    ensures Slots.Next(ttl, t4, Slots.Insert(p)) == Some(t5)
    ensures p in t5.procs && t5.procs[p].Running? && t5.deleter.None? && t5.procs.Keys == {p}
    ensures t5.now == 0 && t5.slot.row == Some(Idempotency.NewRow(0, "", 0, ttl))
  {
    t1 := Slots.Next(ttl, Quiet, Slots.Arrive(p, "")).value;
    t2 := Slots.Next(ttl, t1, Slots.Acquire(p, false)).value;
    t3 := Slots.Next(ttl, t2, Slots.ReadClock(p)).value;
    t4 := Slots.Next(ttl, t3, Slots.Load(p)).value;
    t5 := Slots.Next(ttl, t4, Slots.Insert(p)).value;
  }

  lemma {:induction false} HandlerStarts(x: Setting, w: World, p: nat) returns (happenings: seq<Happening>, m: World)
    requires w.slots == Quiet
    ensures Runs(x, w, happenings) == Some(m)
    ensures RunsHandler(m, p) && m.slots.deleter.None? && m.slots.procs.Keys == {p}
    ensures m.slots.now == 0 && m.slots.slot.row == Some(Idempotency.NewRow(0, "", 0, x.ttl))
    ensures m == w.(slots := m.slots)
  {
    hide Runs, Happens, Slots.Next;
    var t1, t2, t3, t4, t5 := QuietSlotsStart(x.ttl, p);
    happenings := Nothing(x, w);
    SlotHappens(x, w, Slots.Arrive(p, ""), t1);
    happenings := RunsSnoc(x, w, happenings, w, Slot(Slots.Arrive(p, "")));
    SlotHappens(x, w.(slots := t1), Slots.Acquire(p, false), t2);
    happenings := RunsSnoc(x, w, happenings, w.(slots := t1), Slot(Slots.Acquire(p, false)));
    SlotHappens(x, w.(slots := t2), Slots.ReadClock(p), t3);
    happenings := RunsSnoc(x, w, happenings, w.(slots := t2), Slot(Slots.ReadClock(p)));
    SlotHappens(x, w.(slots := t3), Slots.Load(p), t4);
    happenings := RunsSnoc(x, w, happenings, w.(slots := t3), Slot(Slots.Load(p)));
    SlotHappens(x, w.(slots := t4), Slots.Insert(p), t5);
    happenings := RunsSnoc(x, w, happenings, w.(slots := t4), Slot(Slots.Insert(p)));
    m := w.(slots := t5);
  }

  const OrderCreated := Creates(7, FirstTransfer.Order, FirstTransfer.Route, 0)

  lemma {:induction false} HandlerCreates(x: Setting, w: World) returns (m: World)
    requires x.config.policy.Valid() && (x.config.limit.Some? ==> x.config.limit.value >= 1)
    requires x.user == FirstTransfer.Order.user && x.key == FirstTransfer.Order.key
    requires w.saga == FirstTransfer.Start && w.held == map[] && RunsHandler(w, 7)
    ensures Happens(x, w, OrderCreated) == Some(m)
    ensures m.slots == w.slots && m.held == map[7 := 0] && m.given == w.given
    ensures Protocol.Next(x.config, w.saga, Create(FirstTransfer.Order, FirstTransfer.Route, 0)) == Some(m.saga)
  {
    hide Protocol.Next, DebitSource, DbInv, Conservation.Creates;
    var s := FirstTransfer.FirstTransferIsCreated(x.config);
    FirstTransfer.OrderIsPlanned(x.config.limit);
    FirstTransfer.OrderIsDebited(x.config);
    m := Happens(x, w, OrderCreated).value;
  }

  lemma {:induction false} HandlerSucceeds(x: Setting, w: World, body: string) returns (m: World)
    requires RunsHandler(w, 7) && w.slots.deleter.None? && w.held == map[7 := 0] && x.names(body) == Some(0)
    ensures Happens(x, w, Succeeds(7, 202, body)) == Some(m)
    ensures m.given == w.given + [Reply(202, body)]
  {
    m := Happens(x, w, Succeeds(7, 202, body)).value;
  }

  /** From the smallest seeded database a request gets a transfer and answers with it. */
  lemma {:induction false} SuccessIsReached(x: Setting, body: string)
      returns (w0: World, happenings: seq<Happening>, w: World)
    requires x.config.policy.Valid() && (x.config.limit.Some? ==> x.config.limit.value >= 1)
    requires x.user == FirstTransfer.Order.user && x.key == FirstTransfer.Order.key && x.names(body) == Some(0)
    ensures Begins(x, w0) && Runs(x, w0, happenings) == Some(w) && w.given == [Reply(202, body)]
  {
    hide Runs, Happens, Protocol.Initial;
    w0 := World(Quiet, FirstTransfer.Start, map[], []);
    FirstTransfer.StartIsInitial(x.config);
    var first, ready := HandlerStarts(x, w0, 7);
    var created := HandlerCreates(x, ready);
    var second := RunsSnoc(x, w0, first, ready, OrderCreated);
    w := HandlerSucceeds(x, created, body);
    happenings := RunsSnoc(x, w0, second, created, Succeeds(7, 202, body));
  }
}
