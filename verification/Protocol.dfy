/**
 The transfer protocol as one step system: any number of API requests, reconciler workers
 and admin calls, each able to stall or die between steps, the partner, the messages in
 between and a single clock.

 One step is one database transaction, one message sent, handled or received, one status
 check answered, a tick, or a death. Everything that carries reference `id` (the request
 that created transfer `id`, its messages, the partner's replies and credits) is `lanes[id]`.
 */
module Protocol {
  import opened Wrappers
  import opened RateEngine
  import opened Partner
  import opened Ledger
  import opened TransferState
  import opened Database
  import opened Conservation
  import opened Reconciliation

  datatype Config = Config(
    policy: Policy,
    verificationDelay: nat,
    maxCalls: nat,
    limit: Option<int>,
    partners: map<nat, string>)

  /** What the request remembers of the transfer it debited; also the content of a message. */
  datatype Job = Job(partner: string, member: string, points: int)

  /** Where the request that created a transfer stands. */
  datatype Caller =
    | Debited(job: Job)
    | Ready(job: Job, outcomes: seq<Outcome>)
    | Waiting(job: Job, outcomes: seq<Outcome>)
    | Concluded(outcome: Outcome)
    | Gone

  /** A credit at the partner; `attempt` remembers which message applied it. */
  datatype PartnerCredit = PartnerCredit(member: string, points: int, confirmation: string, attempt: nat)

  /**
   `wire` and `replies` are keyed by attempt number, `credits` by partner code. `refused` and
   `contacted` are history: a 4xx was answered, a message was sent.
   */
  datatype Lane = Lane(
    caller: Caller,
    wire: map<nat, Job>,
    replies: map<nat, Response>,
    credits: map<string, PartnerCredit>,
    refused: bool,
    contacted: bool)

  /** A reconcile call: it has read the row, or it also has the partner's answer of instant `at`. */
  datatype Worker =
    | Looked(id: nat, status: Status)
    | Asked(id: nat, answer: Answer, at: Time)

  datatype State = State(now: Time, db: Db, lanes: seq<Lane>, workers: map<nat, Worker>)

  /** How the partner deals with one message. */
  datatype Handling =
    | Fails(code: nat)
    | Throttles
    | Processes(confirmation: string, declines: Option<nat>, garbled: bool)

  /**
   `clock` is the instant a transaction read before it started; it may commit any time later.
   */
  datatype Step =
    | Tick(delta: nat)
    | Create(req: Request, route: RouteConfig, clock: Time)
    | Submit(id: nat)
    | Send(id: nat)
    | CannotConnect(id: nat)
    | Receive(id: nat)
    | GiveUpWaiting(id: nat)
    | Conclude(id: nat)
    | Record(id: nat, clock: Time)
    | CallerDies(id: nat)
    | Deliver(id: nat, attempt: nat, how: Handling)
    | Claim(ids: seq<nat>, clock: Time)
    | Look(worker: nat, id: nat)
    | ReverseStuck(worker: nat)
    | Ask(worker: nat, reachable: bool)
    | Apply(worker: nat, clock: Time)
    | WorkerDies(worker: nat)

  // ---------------------------------------------------------------- the partner

  function Answered(l: Lane, attempt: nat, r: Response): Lane {
    l.(wire := l.wire - {attempt}, replies := l.replies[attempt := r])
  }

  function Refused(l: Lane, attempt: nat, code: nat): Lane {
    Answered(l, attempt, Response(code, None)).(refused := true)
  }

  /** A 4xx that declines a credit: 429 throttles and 409 is kept for a reused reference. */
  predicate IsDecline(code: nat) {
    400 <= code < 500 && code != 429 && code != 409
  }

  /** The partner handles a message: idempotent on the reference, never crediting twice. */
  function Handle(l: Lane, attempt: nat, how: Handling): Option<Lane>
    requires attempt in l.wire
  {
    var m := l.wire[attempt];
    match how
    case Fails(code) =>
      if code >= 500 then Some(Answered(l, attempt, Response(code, None))) else None
    case Throttles => Some(Answered(l, attempt, Response(429, None)))
    case Processes(confirmation, declines, garbled) =>
      if m.partner in l.credits then
        var existing := l.credits[m.partner];
        if existing.member == m.member && existing.points == m.points then
          Some(Answered(l, attempt, Response(200, if garbled then None else Some(existing.confirmation))))
        else
          Some(Refused(l, attempt, 409))
      else if declines.Some? then
        if IsDecline(declines.value) then Some(Refused(l, attempt, declines.value))
        else None
      else if confirmation == "" then None
      else
        Some(Answered(l, attempt, Response(201, if garbled then None else Some(confirmation)))
             .(credits := l.credits[m.partner := PartnerCredit(m.member, m.points, confirmation, attempt)]))
  }

  /** The partner's truthful answer to a status check. */
  function StatusAnswer(l: Lane, partner: string, reachable: bool): Answer {
    if !reachable then ClassifyStatus(NoResponse).answer
    else if partner in l.credits then
      ClassifyStatus(Replied(Response(200, Some(l.credits[partner].confirmation)))).answer
    else ClassifyStatus(Replied(Response(404, None))).answer
  }

  // ---------------------------------------------------------------- the request

  function PartnerOf(c: Config, program: nat): string {
    if program in c.partners then c.partners[program] else ""
  }

  function MemberOf(accounts: seq<Account>, a: nat): string {
    if a < |accounts| && accounts[a].holder.User? then accounts[a].holder.memberId else ""
  }

  /** The credit a transfer asks for. */
  function JobOf(c: Config, accounts: seq<Account>, t: Transfer): Job {
    Job(PartnerOf(c, t.destinationProgram), MemberOf(accounts, t.destinationAccount), t.destinationPoints)
  }

  function NewLane(job: Job): Lane {
    Lane(Debited(job), map[], map[], map[], false, false)
  }

  /** The retry loop goes on only after a retryable outcome and within its attempts. */
  predicate MaySend(c: Config, outcomes: seq<Outcome>) {
    |outcomes| < c.maxCalls && Undecided(outcomes)
  }

  /** The steps of the request that touch neither the database nor the partner. */
  function CallerStep(c: Config, l: Lane, step: Step): Option<Lane> {
    match step
    case Send(_) =>
      if l.caller.Ready? && MaySend(c, l.caller.outcomes) then
        Some(l.(caller := Waiting(l.caller.job, l.caller.outcomes),
                wire := l.wire[|l.caller.outcomes| := l.caller.job],
                contacted := true))
      else None
    case CannotConnect(_) =>
      if l.caller.Ready? && MaySend(c, l.caller.outcomes) then
        Some(l.(caller := Ready(l.caller.job, l.caller.outcomes + [ClassifyCredit(ConnectFailed).outcome])))
      else None
    case Receive(_) =>
      if l.caller.Waiting? && |l.caller.outcomes| in l.replies then
        var r := l.replies[|l.caller.outcomes|];
        Some(l.(caller := Ready(l.caller.job, l.caller.outcomes + [ClassifyCredit(Replied(r)).outcome])))
      else None
    case GiveUpWaiting(_) =>
      if l.caller.Waiting? then
        Some(l.(caller := Ready(l.caller.job, l.caller.outcomes + [ClassifyCredit(NoResponse).outcome])))
      else None
    case Conclude(_) =>
      if l.caller.Ready? then Some(l.(caller := Concluded(FinalOutcome(l.caller.outcomes)))) else None
    case CallerDies(_) => Some(l.(caller := Gone))
    case _ => None
  }

  predicate IsCallerStep(step: Step) {
    || step.Send? || step.CannotConnect? || step.Receive? || step.GiveUpWaiting?
    || step.Conclude? || step.CallerDies?
  }

  // ---------------------------------------------------------------- one step

  ghost function Next(c: Config, s: State, step: Step): Option<State> {
    match step
    case Tick(delta) => Some(s.(now := s.now + delta))
    case Create(req, route, clock) =>
      if !ValidRoute(route) || clock > s.now then None
      else
        (match DebitSource(s.db, req, route, c.limit, clock)
         case Err(_) => Some(s)
         case Ok(db) =>
           var row := db.transfers[|db.transfers| - 1];
           Some(s.(db := db, lanes := s.lanes + [NewLane(JobOf(c, db.book.accounts, row))])))
    case Submit(id) =>
      if id >= |s.lanes| || !s.lanes[id].caller.Debited? then None
      else
        (match MarkSubmitted(s.db, id, s.now)
         case Err(_) => Some(s.(lanes := s.lanes[id := s.lanes[id].(caller := Gone)]))
         case Ok(db) =>
           Some(s.(db := db, lanes := s.lanes[id := s.lanes[id].(caller := Ready(s.lanes[id].caller.job, []))])))
    case Record(id, clock) =>
      if id >= |s.lanes| || !s.lanes[id].caller.Concluded? || clock > s.now then None
      else
        var l := s.lanes[id];
        var r := ApplyOutcome(s.db, id, l.caller.outcome, c.verificationDelay, clock);
        Some(s.(db := Committed(s.db, r), lanes := s.lanes[id := l.(caller := Gone)]))
    case Deliver(id, attempt, how) =>
      if id >= |s.lanes| || attempt !in s.lanes[id].wire then None
      else
        (match Handle(s.lanes[id], attempt, how)
         case None => None
         case Some(l) => Some(s.(lanes := s.lanes[id := l])))
    case Claim(ids, clock) =>
      if clock > s.now then None
      else Some(s.(db := s.db.(transfers := ClaimRows(c.policy, s.db.transfers, ids, clock))))
    case Look(w, id) =>
      if id >= |s.db.transfers| || w in s.workers then None
      else Some(s.(workers := s.workers[w := Looked(id, s.db.transfers[id].status)]))
    case ReverseStuck(w) =>
      if w !in s.workers || !s.workers[w].Looked? || s.workers[w].status != SourceDebited
         || s.workers[w].id >= |s.db.transfers|
         || !PastStuckWindow(c.policy, s.db.transfers[s.workers[w].id], s.now) then None
      else
        var r := ReverseInterrupted(s.db, s.workers[w].id, s.now);
        Some(s.(db := Committed(s.db, r), workers := s.workers - {w}))
    case Ask(w, reachable) =>
      if w !in s.workers || !s.workers[w].Looked? || !Verifiable(s.workers[w].status)
         || s.workers[w].id >= |s.lanes| || s.workers[w].id >= |s.db.transfers| then None
      else
        var id := s.workers[w].id;
        var t := s.db.transfers[id];
        if s.workers[w].status == PartnerSubmitted && !PastStuckWindow(c.policy, t, s.now) then None
        else
          var answer := StatusAnswer(s.lanes[id], PartnerOf(c, t.destinationProgram), reachable);
          Some(s.(workers := s.workers[w := Asked(id, answer, s.now)]))
    case Apply(w, clock) =>
      if w !in s.workers || !s.workers[w].Asked? || !(s.workers[w].at <= clock <= s.now) then None
      else
        var r := ApplyAnswer(c.policy, s.db, s.workers[w].id, s.workers[w].answer, clock);
        Some(s.(db := Committed(s.db, r), workers := s.workers - {w}))
    case WorkerDies(w) => Some(s.(workers := s.workers - {w}))
    case _ =>
      if step.id >= |s.lanes| then None
      else
        (match CallerStep(c, s.lanes[step.id], step)
         case None => None
         case Some(l) => Some(s.(lanes := s.lanes[step.id := l])))
  }

  /** The state after a list of steps, if each was possible. */
  ghost function Run(c: Config, s: State, steps: seq<Step>): Option<State>
    decreases |steps|
  {
    if steps == [] then Some(s)
    else
      match Next(c, s, steps[0])
      case None => None
      case Some(s') => Run(c, s', steps[1..])
  }

  ghost predicate Initial(c: Config, s: State) {
    c.policy.Valid() && Seeded(s.db) && s.lanes == [] && s.workers == map[]
  }

  /** The partner has a credit under reference `id`. */
  predicate Credited(s: State, id: nat) {
    id < |s.lanes| && s.lanes[id].credits != map[]
  }

  predicate HasStatus(s: State, id: nat, status: Status) {
    id < |s.db.transfers| && s.db.transfers[id].status == status
  }
}
