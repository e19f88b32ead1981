/**
 The database and the transactions of the saga. `Db` is a committed database state; each
 function below is one `unit_of_work` block as a function from the state before to the state
 after, or to the error that rolls it back. `Store` is the code of those blocks.
 */
module Database {
  import opened Wrappers
  import opened RateEngine
  import opened Partner
  import opened Ledger
  import opened TransferState

  datatype Db = Db(book: Book, transfers: seq<Transfer>)

  /** Who an account belongs to, as the lookups ask for it. */
  datatype Role = OfUser(userId: string) | Clearing | Settlement

  function RoleOf(h: Holder): Role {
    match h
    case User(u, _) => OfUser(u)
    case TransferClearing => Clearing
    case PartnerSettlement => Settlement
  }

  /** The account of `role` in `program` (a unique index allows at most one). */
  function Find(accounts: seq<Account>, role: Role, program: nat): (r: Option<nat>)
    ensures r.Some? ==>
              && r.value < |accounts|
              && RoleOf(accounts[r.value].holder) == role
              && accounts[r.value].program == program
    ensures r.None? ==>
              forall a :: 0 <= a < |accounts| ==>
                            RoleOf(accounts[a].holder) != role || accounts[a].program != program
  {
    if accounts == [] then None
    else
      var n := |accounts| - 1;
      var found := Find(accounts[..n], role, program);
      if found.Some? then found
      else if RoleOf(accounts[n].holder) == role && accounts[n].program == program then Some(n)
      else None
  }

  function SystemAccount(accounts: seq<Account>, role: Role, program: nat): Result<nat, SagaError> {
    match Find(accounts, role, program)
    case Some(a) => Ok(a)
    case None => Err(MissingSystemAccount)
  }

  // ---------------------------------------------------------------- the three journals

  function DebitPostings(t: Transfer, clearing: nat): seq<Posting> {
    [Posting(t.sourceAccount, t.sourceProgram, Debit, t.sourcePoints),
     Posting(clearing, t.sourceProgram, Credit, t.sourcePoints)]
  }

  function SettlePostings(t: Transfer, clearing: nat, sourceSettlement: nat, destinationSettlement: nat)
    : seq<Posting>
  {
    [Posting(clearing, t.sourceProgram, Debit, t.sourcePoints),
     Posting(sourceSettlement, t.sourceProgram, Credit, t.sourcePoints),
     Posting(destinationSettlement, t.destinationProgram, Debit, t.destinationPoints),
     Posting(t.destinationAccount, t.destinationProgram, Credit, t.destinationPoints)]
  }

  function ReversalPostings(t: Transfer, clearing: nat): seq<Posting> {
    [Posting(clearing, t.sourceProgram, Debit, t.sourcePoints),
     Posting(t.sourceAccount, t.sourceProgram, Credit, t.sourcePoints)]
  }

  // ---------------------------------------------------------------- transactions

  datatype Request = Request(
    user: string,
    key: string,
    sourceProgram: nat,
    destinationProgram: nat,
    points: int)

  ghost function PostOrFail(book: Book, kind: JournalType, id: nat, postings: seq<Posting>)
    : Result<Book, SagaError>
  {
    match Post(book, kind, Some(id), postings)
    case Ok(after) => Ok(after)
    case Err(Overdrawn) => Err(Domain(InsufficientBalance))
    case Err(e) => Err(LedgerFailure(e))
  }

  predicate KeyTaken(transfers: seq<Transfer>, user: string, key: string) {
    exists i :: 0 <= i < |transfers| && transfers[i].user == user && transfers[i].key == key
  }

  function NewTransfer(req: Request, source: nat, destination: nat, conv: Conversion, now: Time): Transfer {
    Transfer(req.user, req.key, req.sourceProgram, req.destinationProgram, source, destination,
             conv.sourcePoints, conv.destinationPoints, now,
             Pending, None, None, 0, None, None, [Event(None, Pending)])
  }

  /** The checks before anything is written: what to debit, and from which accounts. */
  datatype Plan = Plan(source: nat, destination: nat, clearing: nat, conversion: Conversion)

  function PlanDebit(accounts: seq<Account>, req: Request, route: RouteConfig, limit: Option<int>, now: Time)
    : (r: Result<Plan, SagaError>)
    requires ValidRoute(route)
    ensures r.Ok? ==>
              var plan := r.value;
              && plan.source < |accounts| && plan.destination < |accounts| && plan.clearing < |accounts|
              && RoleOf(accounts[plan.source].holder) == OfUser(req.user)
              && accounts[plan.source].program == req.sourceProgram
              && RoleOf(accounts[plan.destination].holder) == OfUser(req.user)
              && accounts[plan.destination].program == req.destinationProgram
              && Find(accounts, Clearing, req.sourceProgram) == Some(plan.clearing)
              && req.sourceProgram != req.destinationProgram
              && plan.conversion.sourcePoints == req.points > 0
              && plan.conversion.destinationPoints > 0
              && accounts[plan.source].balance >= req.points
  {
    if req.sourceProgram == req.destinationProgram then Err(Domain(SameProgram))
    else if limit.Some? && req.points > limit.value then Err(Domain(AboveMaximum))
    else
      match EnsureRouteUsable(route)
      case Err(code) => Err(Domain(code))
      case Ok(rate) =>
        match CalculateConversion(rate, req.points, route.bonus, now)
        case Err(code) => Err(Domain(code))
        case Ok(conv) =>
          var source := Find(accounts, OfUser(req.user), req.sourceProgram);
          if source.None? then Err(Domain(AccountNotFound)) else
          var destination := Find(accounts, OfUser(req.user), req.destinationProgram);
          if destination.None? then Err(Domain(AccountNotFound)) else
          var clearing :- SystemAccount(accounts, Clearing, req.sourceProgram);
          if accounts[source.value].balance < req.points then Err(Domain(InsufficientBalance))
          else Ok(Plan(source.value, destination.value, clearing, conv))
  }

  /** The first transaction of a request: a new transfer with its debit journal. */
  ghost function DebitSource(db: Db, req: Request, route: RouteConfig, limit: Option<int>, now: Time)
    : Result<Db, SagaError>
    requires ValidRoute(route)
  {
    var plan :- PlanDebit(db.book.accounts, req, route, limit, now);
    if KeyTaken(db.transfers, req.user, req.key) then Err(DuplicateKey)
    else
      var t := NewTransfer(req, plan.source, plan.destination, plan.conversion, now);
      var book :- PostOrFail(db.book, TransferDebit, |db.transfers|, DebitPostings(t, plan.clearing));
      var row :- Transition(t, SourceDebited, now);
      Ok(Db(book, db.transfers + [row]))
  }

  /** A transaction that changes one row and no balance. */
  function UpdateRow(db: Db, id: nat, row: Result<Transfer, SagaError>): Result<Db, SagaError>
    requires id < |db.transfers|
  {
    var r :- row;
    Ok(db.(transfers := db.transfers[id := r]))
  }

  /** The second transaction of a request: the row becomes PARTNER_SUBMITTED. */
  function MarkSubmitted(db: Db, id: nat, now: Time): Result<Db, SagaError> {
    if id >= |db.transfers| then Err(NoSuchTransfer)
    else UpdateRow(db, id, SubmittedRow(db.transfers[id], now))
  }

  ghost function Settle(db: Db, id: nat, confirmation: string, now: Time): Result<Db, SagaError>
    requires id < |db.transfers|
  {
    var t := db.transfers[id];
    var clearing :- SystemAccount(db.book.accounts, Clearing, t.sourceProgram);
    var sourceSettlement :- SystemAccount(db.book.accounts, Settlement, t.sourceProgram);
    var destinationSettlement :- SystemAccount(db.book.accounts, Settlement, t.destinationProgram);
    var book :- PostOrFail(db.book, TransferSettle, id,
                           SettlePostings(t, clearing, sourceSettlement, destinationSettlement));
    var row :- SettledRow(t, confirmation, now);
    Ok(Db(book, db.transfers[id := row]))
  }

  ghost function Reverse(db: Db, id: nat, code: FailureCode, now: Time): Result<Db, SagaError>
    requires id < |db.transfers|
  {
    var t := db.transfers[id];
    var clearing :- SystemAccount(db.book.accounts, Clearing, t.sourceProgram);
    var book :- PostOrFail(db.book, TransferReversal, id, ReversalPostings(t, clearing));
    var row :- ReversedRow(t, code, now);
    Ok(Db(book, db.transfers[id := row]))
  }

  /** The last transaction of a request: it acts on the outcome only if the row is still PARTNER_SUBMITTED. */
  ghost function ApplyOutcome(db: Db, id: nat, outcome: Outcome, delay: nat, now: Time): Result<Db, SagaError> {
    if id >= |db.transfers| then Err(NoSuchTransfer)
    else if db.transfers[id].status != PartnerSubmitted then Ok(db)
    else
      match outcome
      case Success(c) =>
        if c != "" then Settle(db, id, c, now)
        else UpdateRow(db, id, UnknownOutcomeRow(db.transfers[id], delay, now))
      case Rejected => Reverse(db, id, PartnerRejected, now)
      case NotSent => Reverse(db, id, PartnerUnavailable, now)
      case Unknown => UpdateRow(db, id, UnknownOutcomeRow(db.transfers[id], delay, now))
  }

  /** The reconciler's reversal of a transfer whose partner was never called. */
  ghost function ReverseInterrupted(db: Db, id: nat, now: Time): Result<Db, SagaError> {
    if id >= |db.transfers| then Err(NoSuchTransfer)
    else if db.transfers[id].status != SourceDebited then Ok(db)
    else Reverse(db, id, TransferInterrupted, now)
  }

  /** The reconciler applies the partner's answer to a status check. */
  ghost function ApplyAnswer(p: Policy, db: Db, id: nat, answer: Answer, now: Time): Result<Db, SagaError> {
    if id >= |db.transfers| then Err(NoSuchTransfer)
    else
      var t := db.transfers[id];
      if !Verifiable(t.status) then Ok(db)
      else if answer.HasCredit? && answer.confirmation != "" then Settle(db, id, answer.confirmation, now)
      else if answer.NotFound? then
        if now >= DecidableAt(p, t) then Reverse(db, id, PartnerNotReceived, now)
        else UpdateRow(db, id, RecheckedRow(p, t, now))
      else UpdateRow(db, id, RetriedRow(p, t, now))
  }

  /** What remains of a transaction: its result if it committed, the old state if it rolled back. */
  function Committed(before: Db, r: Result<Db, SagaError>): Db {
    match r
    case Ok(after) => after
    case Err(_) => before
  }

  // ---------------------------------------------------------------- the code of the transactions

  class Store {
    const ledger: Session
    var transfers: seq<Transfer>

    constructor (accounts: seq<Account>, journals: seq<Journal>)
      ensures fresh(ledger) && Contents() == Db(Book(accounts, journals), [])
    {
      ledger := new Session(accounts, journals);
      transfers := [];
    }

    function Contents(): Db
      reads this, ledger
    {
      Db(ledger.Contents(), transfers)
    }

    method Rollback(accounts: seq<Account>, journals: seq<Journal>, rows: seq<Transfer>)
      modifies this, ledger
      ensures Contents() == Db(Book(accounts, journals), rows)
    {
      ledger.accounts, ledger.journals, transfers := accounts, journals, rows;
    }

    method PostJournal(kind: JournalType, id: nat, postings: seq<Posting>) returns (r: Result<(), SagaError>)
      modifies ledger
      ensures r.Ok? ==> PostOrFail(old(ledger.Contents()), kind, id, postings) == Ok(ledger.Contents())
      ensures r.Err? ==> PostOrFail(old(ledger.Contents()), kind, id, postings) == Err(r.error)
    {
      var posted := ledger.PostJournal(kind, Some(id), postings);
      match posted {
        case Ok(_) => return Ok(());
        case Err(Overdrawn) => return Err(Domain(InsufficientBalance));
        case Err(e) => return Err(LedgerFailure(e));
      }
    }

    method SettleTransfer(id: nat, confirmation: string, now: Time) returns (r: Result<(), SagaError>)
      requires id < |transfers|
      modifies this, ledger
      ensures r.Ok? ==> Settle(old(Contents()), id, confirmation, now) == Ok(Contents())
      ensures r.Err? ==> Settle(old(Contents()), id, confirmation, now) == Err(r.error)
    {
      var t := transfers[id];
      var clearing :- SystemAccount(ledger.accounts, Clearing, t.sourceProgram);
      var sourceSettlement :- SystemAccount(ledger.accounts, Settlement, t.sourceProgram);
      var destinationSettlement :- SystemAccount(ledger.accounts, Settlement, t.destinationProgram);
      var _ :- PostJournal(TransferSettle, id,
                           SettlePostings(t, clearing, sourceSettlement, destinationSettlement));
      t := t.(confirmation := Some(confirmation));
      t := t.(nextCheckAt := None);
      t :- Transition(t, Completed, now);
      transfers := transfers[id := t];
      return Ok(());
    }

    method ReverseTransfer(id: nat, code: FailureCode, now: Time) returns (r: Result<(), SagaError>)
      requires id < |transfers|
      modifies this, ledger
      ensures r.Ok? ==> Reverse(old(Contents()), id, code, now) == Ok(Contents())
      ensures r.Err? ==> Reverse(old(Contents()), id, code, now) == Err(r.error)
    {
      var t := transfers[id];
      var clearing :- SystemAccount(ledger.accounts, Clearing, t.sourceProgram);
      var _ :- PostJournal(TransferReversal, id, ReversalPostings(t, clearing));
      t := t.(failureCode := Some(code));
      t := t.(nextCheckAt := None);
      t :- Transition(t, Reversed, now);
      transfers := transfers[id := t];
      return Ok(());
    }

    method DebitInTransaction(req: Request, route: RouteConfig, limit: Option<int>, now: Time)
      returns (r: Result<(), SagaError>)
      requires ValidRoute(route)
      modifies this, ledger
      ensures r.Ok? ==> DebitSource(old(Contents()), req, route, limit, now) == Ok(Contents())
      ensures r.Err? ==> DebitSource(old(Contents()), req, route, limit, now) == Err(r.error)
    {
      var plan :- PlanDebit(ledger.accounts, req, route, limit, now);
      if KeyTaken(transfers, req.user, req.key) {
        return Err(DuplicateKey);
      }
      var id := |transfers|;
      var t := NewTransfer(req, plan.source, plan.destination, plan.conversion, now);
      var _ :- PostJournal(TransferDebit, id, DebitPostings(t, plan.clearing));
      t := Transition(t, SourceDebited, now).value;
      transfers := transfers + [t];
      return Ok(());
    }

    method Debit(req: Request, route: RouteConfig, limit: Option<int>, now: Time) returns (r: Result<nat, SagaError>)
      requires ValidRoute(route)
      modifies this, ledger
      ensures Contents() == Committed(old(Contents()), DebitSource(old(Contents()), req, route, limit, now))
      ensures r.Ok? ==> DebitSource(old(Contents()), req, route, limit, now).Ok? && r.value == |old(transfers)|
      ensures r.Err? ==> DebitSource(old(Contents()), req, route, limit, now) == Err(r.error)
    {
      var accounts, journals, rows := ledger.accounts, ledger.journals, transfers;
      var done := DebitInTransaction(req, route, limit, now);
      if done.Err? {
        Rollback(accounts, journals, rows);
        return Err(done.error);
      }
      return Ok(|rows|);
    }

    method Submit(id: nat, now: Time) returns (r: Result<(), SagaError>)
      modifies this`transfers
      ensures Contents() == Committed(old(Contents()), MarkSubmitted(old(Contents()), id, now))
      ensures r.Ok? <==> MarkSubmitted(old(Contents()), id, now).Ok?
      ensures r.Err? ==> MarkSubmitted(old(Contents()), id, now) == Err(r.error)
    {
      if id >= |transfers| {
        return Err(NoSuchTransfer);
      }
      var t :- Transition(transfers[id], PartnerSubmitted, now);
      transfers := transfers[id := t];
      return Ok(());
    }

    method OutcomeInTransaction(id: nat, outcome: Outcome, delay: nat, now: Time) returns (r: Result<(), SagaError>)
      modifies this, ledger
      ensures r.Ok? ==> ApplyOutcome(old(Contents()), id, outcome, delay, now) == Ok(Contents())
      ensures r.Err? ==> ApplyOutcome(old(Contents()), id, outcome, delay, now) == Err(r.error)
    {
      if id >= |transfers| {
        return Err(NoSuchTransfer);
      }
      var t := transfers[id];
      if t.status != PartnerSubmitted {
        return Ok(());
      }
      if outcome.Success? && outcome.confirmation != "" {
        r := SettleTransfer(id, outcome.confirmation, now);
      } else if outcome.Rejected? {
        r := ReverseTransfer(id, PartnerRejected, now);
      } else if outcome.NotSent? {
        r := ReverseTransfer(id, PartnerUnavailable, now);
      } else {
        t := t.(nextCheckAt := Some(now + delay));
        t :- Transition(t, PendingVerification, now);
        transfers := transfers[id := t];
        r := Ok(());
      }
    }

    method ApplyPartnerOutcome(id: nat, outcome: Outcome, delay: nat, now: Time) returns (r: Result<Status, SagaError>)
      modifies this, ledger
      ensures Contents() == Committed(old(Contents()), ApplyOutcome(old(Contents()), id, outcome, delay, now))
      ensures r.Ok? ==> ApplyOutcome(old(Contents()), id, outcome, delay, now).Ok?
                        && id < |transfers| && r.value == transfers[id].status
      ensures r.Err? ==> ApplyOutcome(old(Contents()), id, outcome, delay, now) == Err(r.error)
    {
      var accounts, journals, rows := ledger.accounts, ledger.journals, transfers;
      var done := OutcomeInTransaction(id, outcome, delay, now);
      if done.Err? {
        Rollback(accounts, journals, rows);
        return Err(done.error);
      }
      return Ok(transfers[id].status);
    }

    method ReverseInterruptedTransfer(id: nat, now: Time) returns (r: Result<(), SagaError>)
      modifies this, ledger
      ensures Contents() == Committed(old(Contents()), ReverseInterrupted(old(Contents()), id, now))
      ensures r.Err? ==> ReverseInterrupted(old(Contents()), id, now) == Err(r.error)
    {
      if id >= |transfers| {
        return Err(NoSuchTransfer);
      }
      if transfers[id].status != SourceDebited {
        return Ok(());
      }
      var accounts, journals, rows := ledger.accounts, ledger.journals, transfers;
      r := ReverseTransfer(id, TransferInterrupted, now);
      if r.Err? {
        Rollback(accounts, journals, rows);
      }
    }

    method RecheckAfterGrace(p: Policy, id: nat, now: Time) returns (r: Result<(), SagaError>)
      requires id < |transfers|
      modifies this`transfers
      ensures r.Ok? ==> UpdateRow(old(Contents()), id, RecheckedRow(p, old(transfers)[id], now)) == Ok(Contents())
      ensures r.Err? ==> RecheckedRow(p, old(transfers)[id], now) == Err(r.error)
    {
      var t := transfers[id];
      var decidableAt := t.createdAt + p.notFoundGrace;
      if t.status == PartnerSubmitted {
        t :- Transition(t, PendingVerification, now);
      }
      t := t.(nextCheckAt := Some(if now + p.backoffBase <= decidableAt then now + p.backoffBase else decidableAt));
      transfers := transfers[id := t];
      return Ok(());
    }

    method RetryOrEscalate(p: Policy, id: nat, now: Time) returns (r: Result<(), SagaError>)
      requires id < |transfers|
      modifies this`transfers
      ensures r.Ok? ==> UpdateRow(old(Contents()), id, RetriedRow(p, old(transfers)[id], now)) == Ok(Contents())
      ensures r.Err? ==> RetriedRow(p, old(transfers)[id], now) == Err(r.error)
    {
      var t := transfers[id];
      if t.status == PartnerSubmitted {
        t :- Transition(t, PendingVerification, now);
      }
      t := t.(attempts := t.attempts + 1);
      if t.attempts >= p.maxAttempts {
        t := t.(failureCode := Some(VerificationExhausted));
        t := t.(nextCheckAt := None);
        t :- Transition(t, ManualReview, now);
      } else {
        t := t.(nextCheckAt := Some(now + p.Backoff(t.attempts)));
      }
      transfers := transfers[id := t];
      return Ok(());
    }

    method AnswerInTransaction(p: Policy, id: nat, answer: Answer, now: Time) returns (r: Result<(), SagaError>)
      modifies this, ledger
      ensures r.Ok? ==> ApplyAnswer(p, old(Contents()), id, answer, now) == Ok(Contents())
      ensures r.Err? ==> ApplyAnswer(p, old(Contents()), id, answer, now) == Err(r.error)
    {
      if id >= |transfers| {
        return Err(NoSuchTransfer);
      }
      var t := transfers[id];
      if !Verifiable(t.status) {
        return Ok(());
      }
      if answer.HasCredit? && answer.confirmation != "" {
        r := SettleTransfer(id, answer.confirmation, now);
      } else if answer.NotFound? {
        if now >= DecidableAt(p, t) {
          r := ReverseTransfer(id, PartnerNotReceived, now);
        } else {
          r := RecheckAfterGrace(p, id, now);
        }
      } else {
        r := RetryOrEscalate(p, id, now);
      }
    }

    method ApplyPartnerStatus(p: Policy, id: nat, answer: Answer, now: Time) returns (r: Result<Status, SagaError>)
      modifies this, ledger
      ensures Contents() == Committed(old(Contents()), ApplyAnswer(p, old(Contents()), id, answer, now))
      ensures r.Ok? ==> ApplyAnswer(p, old(Contents()), id, answer, now).Ok?
                        && id < |transfers| && r.value == transfers[id].status
      ensures r.Err? ==> ApplyAnswer(p, old(Contents()), id, answer, now) == Err(r.error)
    {
      var accounts, journals, rows := ledger.accounts, ledger.journals, transfers;
      var done := AnswerInTransaction(p, id, answer, now);
      if done.Err? {
        Rollback(accounts, journals, rows);
        return Err(done.error);
      }
      return Ok(transfers[id].status);
    }
  }
}
