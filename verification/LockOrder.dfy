/**
 Row locks of the saga transactions. A transaction that writes a transfer takes its row first
 and then the accounts of its journal in ascending id order; the debit takes its accounts in
 ascending order and then the (user, key) slot of the unique index. The claim query skips
 locked rows instead of waiting for them. The plan of every transaction is computed from the
 database it runs on; the plans cover every row it writes, and no set of such transactions
 can wait in a cycle.
 */
module LockOrder {
  import opened Ledger
  import opened Wrappers
  import opened RateEngine
  import opened Partner
  import opened TransferState
  import opened Database

  datatype Lock = TransferRow(id: nat) | AccountRow(id: nat) | KeySlot(user: string, key: string)

  function Level(k: Lock): nat {
    match k
    case TransferRow(_) => 0
    case AccountRow(_) => 1
    case KeySlot(_, _) => 2
  }

  function Position(k: Lock): nat {
    match k
    case TransferRow(id) => id
    case AccountRow(id) => id
    case KeySlot(_, _) => 0
  }

  /** The global order of locks. */
  predicate Less(x: Lock, y: Lock) {
    Level(x) < Level(y) || (Level(x) == Level(y) && Position(x) < Position(y))
  }

  predicate InOrder(plan: seq<Lock>) {
    forall i, j :: 0 <= i < j < |plan| ==> Less(plan[i], plan[j])
  }

  /** A transaction that holds the first `held` locks of its plan, or one that skips locked rows. */
  datatype Tx = Ordered(plan: seq<Lock>, held: nat) | Skipping(rows: set<Lock>) {
    predicate Valid() {
      Ordered? ==> held <= |plan| && InOrder(plan)
    }

    predicate Holds(k: Lock) {
      match this
      case Ordered(plan, held) => exists i :: 0 <= i < held && i < |plan| && plan[i] == k
      case Skipping(rows) => k in rows
    }
  }

  predicate WaitsFor(a: Tx, b: Tx) {
    a.Ordered? && a.held < |a.plan| && b.Holds(a.plan[a.held])
  }

  // ---------------------------------------------------------------- ascending order

  /** The members of a set in ascending order. */
  ghost function Sorted(ids: set<nat>): (r: seq<nat>)
    ensures Ascending(r)
    ensures forall a :: a in r <==> a in ids
  {
    if ids == {} then []
    else
      HasLeast(ids);
      var least :| least in ids && forall a <- ids :: least <= a;
      var rest := Sorted(ids - {least});
      assert forall i :: 0 <= i < |rest| ==> rest[i] in rest;
      [least] + rest
  }

  /** Ascending order leaves no choice. */
  lemma {:induction false} AscendingIsUnique(x: seq<nat>, y: seq<nat>)
    requires Ascending(x) && Ascending(y) && forall a :: a in x <==> a in y
    ensures x == y
  {
    if y != [] {
      var a := y[0];
      assert a in y;
    }
    if x != [] {
      assert x[0] in y && y[0] in x;
      assert x[0] == y[0];
      forall a
        ensures a in x[1..] <==> a in y[1..]
      {
        TailMembers(x, a);
        TailMembers(y, a);
      }
      AscendingIsUnique(x[1..], y[1..]);
      assert x == [x[0]] + x[1..] && y == [y[0]] + y[1..];
    }
  }

  lemma {:induction false} TailMembers(x: seq<nat>, a: nat)
    requires Ascending(x) && x != []
    ensures a in x[1..] <==> a in x && a != x[0]
  {
    assert x == [x[0]] + x[1..];
    assert forall i :: 1 <= i < |x| ==> x[0] < x[i];
  }

  /** `sorted(set(account_ids))`: the order in which the rows are locked. */
  method LockOrderOf(accounts: set<nat>) returns (ids: seq<nat>)
    ensures ids == Sorted(accounts)
  {
    ids := SortedKeys(accounts);
    AscendingIsUnique(ids, Sorted(accounts));
  }

  // ---------------------------------------------------------------- the plans of the saga

  /** A transaction of the saga or the reconciler. */
  datatype Transaction =
    | Debit(req: Request, route: RouteConfig, limit: Option<int>, now: Time)
    | Submit(id: nat, now: Time)
    | Outcome(id: nat, outcome: Partner.Outcome, delay: nat, now: Time)
    | Interrupted(id: nat, now: Time)
    | Check(policy: Policy, id: nat, answer: Answer, now: Time)

  ghost function Perform(db: Db, x: Transaction): Result<Db, SagaError>
    requires x.Debit? ==> ValidRoute(x.route)
  {
    match x
    case Debit(req, route, limit, now) => DebitSource(db, req, route, limit, now)
    case Submit(id, now) => MarkSubmitted(db, id, now)
    case Outcome(id, outcome, delay, now) => ApplyOutcome(db, id, outcome, delay, now)
    case Interrupted(id, now) => ReverseInterrupted(db, id, now)
    case Check(policy, id, answer, now) => ApplyAnswer(policy, db, id, answer, now)
  }

  /** The accounts that settling locks; none if one of the lookups fails. */
  function SettleAccounts(accounts: seq<Account>, t: Transfer): set<nat> {
    match (Find(accounts, Clearing, t.sourceProgram), Find(accounts, Settlement, t.sourceProgram),
           Find(accounts, Settlement, t.destinationProgram))
    case (Some(clearing), Some(source), Some(destination)) => {clearing, source, destination, t.destinationAccount}
    case _ => {}
  }

  function ReverseAccounts(accounts: seq<Account>, t: Transfer): set<nat> {
    match Find(accounts, Clearing, t.sourceProgram)
    case Some(clearing) => {clearing, t.sourceAccount}
    case None => {}
  }

  function DebitAccounts(accounts: seq<Account>, req: Request): set<nat> {
    match (Find(accounts, OfUser(req.user), req.sourceProgram), Find(accounts, Clearing, req.sourceProgram))
    case (Some(source), Some(clearing)) => {source, clearing}
    case _ => {}
  }

  /** What the locked row and the input make the transaction do. */
  datatype Branch = Settling | Reversing | RowOnly

  function BranchOf(t: Transfer, x: Transaction): Branch {
    match x
    case Debit(_, _, _, _) => RowOnly
    case Submit(_, _) => RowOnly
    case Outcome(_, o, _, _) =>
      if t.status != PartnerSubmitted then RowOnly
      else if o.Success? && o.confirmation != "" then Settling
      else if o.Rejected? || o.NotSent? then Reversing
      else RowOnly
    case Interrupted(_, _) => if t.status == SourceDebited then Reversing else RowOnly
    case Check(p, _, answer, now) =>
      if !Verifiable(t.status) then RowOnly
      else if answer.HasCredit? && answer.confirmation != "" then Settling
      else if answer.NotFound? && now >= DecidableAt(p, t) then Reversing
      else RowOnly
  }

  /** The accounts a transaction locks. */
  function AccountsLocked(db: Db, x: Transaction): set<nat> {
    if x.Debit? then DebitAccounts(db.book.accounts, x.req)
    else if x.id >= |db.transfers| then {}
    else
      match BranchOf(db.transfers[x.id], x)
      case Settling => SettleAccounts(db.book.accounts, db.transfers[x.id])
      case Reversing => ReverseAccounts(db.book.accounts, db.transfers[x.id])
      case RowOnly => {}
  }

  function AccountLocks(ids: seq<nat>): seq<Lock> {
    seq(|ids|, i requires 0 <= i < |ids| => AccountRow(ids[i]))
  }

  /** The locks of a transaction in the order it takes them; one that stops early holds a prefix. */
  ghost function PlanOf(db: Db, x: Transaction): seq<Lock> {
    var accounts := AccountLocks(Sorted(AccountsLocked(db, x)));
    if x.Debit? then accounts + [KeySlot(x.req.user, x.req.key)] else [TransferRow(x.id)] + accounts
  }

  /** Every plan of the saga follows the global order. */
  lemma {:induction false} PlansAreInOrder(db: Db, x: Transaction)
    ensures InOrder(PlanOf(db, x))
  {
    var ids := Sorted(AccountsLocked(db, x));
    var locks := AccountLocks(ids);
    assert forall i, j :: 0 <= i < j < |locks| ==> Less(locks[i], locks[j]);
    assert forall i :: 0 <= i < |locks| ==> locks[i].AccountRow?;
  }

  lemma {:induction false} LockedAccountsAreInPlan(db: Db, x: Transaction, a: nat)
    requires a in AccountsLocked(db, x)
    ensures AccountRow(a) in PlanOf(db, x)
  {
    var ids := Sorted(AccountsLocked(db, x));
    var i :| 0 <= i < |ids| && ids[i] == a;
    assert AccountLocks(ids)[i] == AccountRow(a);
  }

  // ---------------------------------------------------------------- what is written is locked

  /** The journals touch exactly the accounts of their lists. */
  lemma {:induction false} PostingsTouch(t: Transfer, clearing: nat, source: nat, destination: nat, a: nat)
    ensures Touches(DebitPostings(t, clearing), a) <==> a in {t.sourceAccount, clearing}
    ensures Touches(ReversalPostings(t, clearing), a) <==> a in {clearing, t.sourceAccount}
    ensures Touches(SettlePostings(t, clearing, source, destination), a)
       <==> a in {clearing, source, destination, t.destinationAccount}
  {
    var d, r := DebitPostings(t, clearing), ReversalPostings(t, clearing);
    var s := SettlePostings(t, clearing, source, destination);
    assert d[0].account == t.sourceAccount && d[1].account == clearing;
    assert r[0].account == clearing && r[1].account == t.sourceAccount;
    assert s[0].account == clearing && s[1].account == source;
    assert s[2].account == destination && s[3].account == t.destinationAccount;
  }

  /** `after` has at most one journal more than `before`, and its entries stay inside `locked`. */
  ghost predicate PostsWithin(before: Book, after: Book, locked: set<nat>) {
    || after == before
    || (&& |after.journals| == |before.journals| + 1
        && after.journals[..|before.journals|] == before.journals
        && (forall a :: Touches(after.journals[|before.journals|].postings, a) ==> a in locked)
        && |after.accounts| == |before.accounts|
        && forall a :: 0 <= a < |before.accounts| && a !in locked ==> after.accounts[a] == before.accounts[a])
  }

  lemma {:induction false} PostStaysWithin(book: Book, kind: JournalType, id: nat, postings: seq<Posting>,
      locked: set<nat>)
    requires forall a :: Touches(postings, a) ==> a in locked
    requires PostOrFail(book, kind, id, postings).Ok?
    ensures PostsWithin(book, PostOrFail(book, kind, id, postings).value, locked)
  {
    var after := PostOrFail(book, kind, id, postings).value;
    assert after.journals == book.journals + [Journal(kind, Some(id), postings)];
    forall a | 0 <= a < |book.accounts| && a !in locked
      ensures after.accounts[a] == book.accounts[a]
    {
      NetUntouched(postings, a);
    }
  }

  lemma {:induction false} SettleStaysWithin(db: Db, id: nat, confirmation: string, now: Time)
    requires id < |db.transfers| && Settle(db, id, confirmation, now).Ok?
    ensures var after := Settle(db, id, confirmation, now).value;
            && PostsWithin(db.book, after.book, SettleAccounts(db.book.accounts, db.transfers[id]))
            && after.transfers == db.transfers[id := after.transfers[id]]
  {
    hide Post;
    var accounts, t := db.book.accounts, db.transfers[id];
    var clearing := Find(accounts, Clearing, t.sourceProgram).value;
    var source := Find(accounts, Settlement, t.sourceProgram).value;
    var destination := Find(accounts, Settlement, t.destinationProgram).value;
    forall a | Touches(SettlePostings(t, clearing, source, destination), a)
      ensures a in SettleAccounts(accounts, t)
    {
      PostingsTouch(t, clearing, source, destination, a);
    }
    PostStaysWithin(db.book, TransferSettle, id, SettlePostings(t, clearing, source, destination),
                    SettleAccounts(accounts, t));
  }

  lemma {:induction false} ReverseStaysWithin(db: Db, id: nat, code: FailureCode, now: Time)
    requires id < |db.transfers| && Reverse(db, id, code, now).Ok?
    ensures var after := Reverse(db, id, code, now).value;
            && PostsWithin(db.book, after.book, ReverseAccounts(db.book.accounts, db.transfers[id]))
            && after.transfers == db.transfers[id := after.transfers[id]]
  {
    hide Post;
    var accounts, t := db.book.accounts, db.transfers[id];
    var clearing := Find(accounts, Clearing, t.sourceProgram).value;
    forall a | Touches(ReversalPostings(t, clearing), a)
      ensures a in ReverseAccounts(accounts, t)
    {
      PostingsTouch(t, clearing, 0, 0, a);
    }
    PostStaysWithin(db.book, TransferReversal, id, ReversalPostings(t, clearing), ReverseAccounts(accounts, t));
  }

  lemma {:induction false} DebitStaysWithin(db: Db, req: Request, route: RouteConfig, limit: Option<int>, now: Time)
    requires ValidRoute(route) && DebitSource(db, req, route, limit, now).Ok?
    ensures var after := DebitSource(db, req, route, limit, now).value;
            && PostsWithin(db.book, after.book, DebitAccounts(db.book.accounts, req))
            && |after.transfers| == |db.transfers| + 1
            && after.transfers[..|db.transfers|] == db.transfers
            && after.transfers[|db.transfers|].user == req.user && after.transfers[|db.transfers|].key == req.key
  {
    hide Post;
    var accounts := db.book.accounts;
    var plan := PlanDebit(accounts, req, route, limit, now).value;
    var t := NewTransfer(req, plan.source, plan.destination, plan.conversion, now);
    PlanNamesTheFound(accounts, req, route, limit, now);
    forall a | Touches(DebitPostings(t, plan.clearing), a)
      ensures a in DebitAccounts(accounts, req)
    {
      PostingsTouch(t, plan.clearing, 0, 0, a);
    }
    PostStaysWithin(db.book, TransferDebit, |db.transfers|, DebitPostings(t, plan.clearing),
                    DebitAccounts(accounts, req));
  }

  lemma {:induction false} PlanNamesTheFound(accounts: seq<Account>, req: Request, route: RouteConfig,
      limit: Option<int>, now: Time)
    requires ValidRoute(route) && PlanDebit(accounts, req, route, limit, now).Ok?
    ensures var plan := PlanDebit(accounts, req, route, limit, now).value;
            && Find(accounts, OfUser(req.user), req.sourceProgram) == Some(plan.source)
            && Find(accounts, Clearing, req.sourceProgram) == Some(plan.clearing)
  {
  }

  /** Everything a committed transaction wrote was locked by its plan. */
  ghost predicate WritesAreLocked(db: Db, x: Transaction, after: Db) {
    && PostsWithin(db.book, after.book, AccountsLocked(db, x))
    && |after.transfers| >= |db.transfers|
    && (forall i :: 0 <= i < |db.transfers| && after.transfers[i] != db.transfers[i] ==>
                      TransferRow(i) in PlanOf(db, x))
    && (forall i :: |db.transfers| <= i < |after.transfers| ==>
                      KeySlot(after.transfers[i].user, after.transfers[i].key) in PlanOf(db, x))
  }

  /**
   Whatever a saga transaction commits, every account it changed, every account of the journal
   it posted, every transfer row it changed and the key of a transfer it inserted are in its
   plan. So once its locks are held it never waits again.
   */
  lemma {:induction false} TransactionsLockWhatTheyWrite(db: Db, x: Transaction)
    requires x.Debit? ==> ValidRoute(x.route)
    requires Perform(db, x).Ok?
    ensures WritesAreLocked(db, x, Perform(db, x).value)
    ensures forall a :: a in AccountsLocked(db, x) ==> AccountRow(a) in PlanOf(db, x)
  {
    hide Perform, PlanOf, AccountsLocked, WritesAreLocked;
    forall a | a in AccountsLocked(db, x)
      ensures AccountRow(a) in PlanOf(db, x)
    {
      LockedAccountsAreInPlan(db, x, a);
    }
    if x.Debit? {
      DebitLocksWhatItWrites(db, x);
    } else {
      RowTransactionsLockWhatTheyWrite(db, x);
    }
  }

  lemma {:induction false} DebitLocksWhatItWrites(db: Db, x: Transaction)
    requires x.Debit? && ValidRoute(x.route) && Perform(db, x).Ok?
    ensures WritesAreLocked(db, x, Perform(db, x).value)
  {
    hide DebitSource, PostsWithin, Sorted;
    DebitStaysWithin(db, x.req, x.route, x.limit, x.now);
    var plan, after := PlanOf(db, x), Perform(db, x).value;
    assert plan[|plan| - 1] == KeySlot(x.req.user, x.req.key);
    assert forall i :: 0 <= i < |db.transfers| ==> after.transfers[i] == after.transfers[..|db.transfers|][i];
  }

  lemma {:induction false} RowTransactionsLockWhatTheyWrite(db: Db, x: Transaction)
    requires !x.Debit? && Perform(db, x).Ok?
    ensures WritesAreLocked(db, x, Perform(db, x).value)
  {
    hide Settle, Reverse, Sorted;
    var t := db.transfers[x.id];
    assert PlanOf(db, x)[0] == TransferRow(x.id);
    match BranchOf(t, x)
    case Settling =>
      var confirmation := if x.Outcome? then x.outcome.confirmation else x.answer.confirmation;
      SettleStaysWithin(db, x.id, confirmation, x.now);
    case Reversing =>
      var code := if x.Interrupted? then TransferInterrupted
      else if x.Check? then PartnerNotReceived
      else if x.outcome.Rejected? then PartnerRejected
      else PartnerUnavailable;
      ReverseStaysWithin(db, x.id, code, x.now);
    case RowOnly =>
  }

  // ---------------------------------------------------------------- no deadlock

  /** Whoever holds what `a` wants, and itself waits, waits for something greater. */
  lemma {:induction false} WaitsClimb(a: Tx, b: Tx)
    requires a.Valid() && b.Valid() && WaitsFor(a, b) && b.Ordered? && b.held < |b.plan|
    ensures Less(a.plan[a.held], b.plan[b.held])
  {
  }

  /** `path` is a chain of transactions each waiting for the next. */
  predicate WaitChain(path: seq<Tx>) {
    && (forall i :: 0 <= i < |path| ==> path[i].Valid())
    && (forall i :: 0 <= i < |path| - 1 ==> WaitsFor(path[i], path[i + 1]))
  }

  lemma {:induction false} ChainClimbs(path: seq<Tx>)
    requires |path| >= 2 && WaitChain(path)
    requires path[|path| - 1].Ordered? && path[|path| - 1].held < |path[|path| - 1].plan|
    ensures path[0].Ordered? && path[0].held < |path[0].plan|
    ensures Less(path[0].plan[path[0].held], path[|path| - 1].plan[path[|path| - 1].held])
  {
    var n := |path| - 1;
    assert WaitsFor(path[n - 1], path[n - 1 + 1]);
    WaitsClimb(path[n - 1], path[n]);
    if n >= 2 {
      assert path[..n][n - 1] == path[n - 1];
      ChainClimbs(path[..n]);
    }
  }

  lemma {:induction false} OrderedWaitsDoNotCycle(path: seq<Tx>)
    requires |path| >= 1 && WaitChain(path)
    ensures !WaitsFor(path[|path| - 1], path[0])
  {
    if WaitsFor(path[|path| - 1], path[0]) {
      var cycle := path + [path[0]];
      forall i | 0 <= i < |cycle| - 1
        ensures WaitsFor(cycle[i], cycle[i + 1])
      {
        if i < |path| - 1 { assert WaitsFor(path[i], path[i + 1]); }
      }
      if |path| >= 2 { assert WaitsFor(path[0], path[0 + 1]); }
      ChainClimbs(cycle);
    }
  }

  predicate Waiting(txs: seq<Tx>, i: nat)
    requires i < |txs|
  {
    exists j :: 0 <= j < |txs| && WaitsFor(txs[i], txs[j])
  }

  /** A waiting transaction whose wanted lock no other waiting transaction's exceeds. */
  lemma {:induction false} TopWaiter(txs: seq<Tx>, n: nat) returns (top: nat)
    requires 1 <= n <= |txs|
    requires forall i :: 0 <= i < n ==> txs[i].Valid() && txs[i].Ordered? && txs[i].held < |txs[i].plan|
    ensures top < n
    ensures forall i :: 0 <= i < n ==> !Less(txs[top].plan[txs[top].held], txs[i].plan[txs[i].held])
  {
    if n == 1 {
      top := 0;
    } else {
      top := TopWaiter(txs, n - 1);
      if Less(txs[top].plan[txs[top].held], txs[n - 1].plan[txs[n - 1].held]) {
        top := n - 1;
      }
    }
  }

  lemma {:induction false} SomeOrderedTxIsFree(txs: seq<Tx>)
    requires txs != [] && forall i :: 0 <= i < |txs| ==> txs[i].Valid()
    ensures exists i :: 0 <= i < |txs| && !Waiting(txs, i)
  {
    if forall i :: 0 <= i < |txs| ==> Waiting(txs, i) {
      forall i | 0 <= i < |txs|
        ensures txs[i].Ordered? && txs[i].held < |txs[i].plan|
      {
        assert Waiting(txs, i);
      }
      var top := TopWaiter(txs, |txs|);
      assert Waiting(txs, top);
      var j :| 0 <= j < |txs| && WaitsFor(txs[top], txs[j]);
      assert Waiting(txs, j);
      WaitsClimb(txs[top], txs[j]);
      assert false;
    }
  }

  // ---------------------------------------------------------------- the saga's own transactions

  /**
   A transaction under way: a saga transaction that holds the first `held` locks of the plan it
   computed from the database it read, or a claim that holds the rows it did not skip.
   */
  datatype Running = Saga(db: Db, x: Transaction, held: nat) | Claiming(rows: set<nat>)

  ghost predicate Possible(r: Running) {
    r.Saga? ==> r.held <= |PlanOf(r.db, r.x)|
  }

  ghost function TxOf(r: Running): Tx {
    match r
    case Saga(db, x, held) => Ordered(PlanOf(db, x), held)
    case Claiming(rows) => Skipping(set id | id in rows :: TransferRow(id))
  }

  lemma {:induction false} SagaTxIsValid(r: Running)
    requires Possible(r)
    ensures TxOf(r).Valid()
  {
    if r.Saga? {
      PlansAreInOrder(r.db, r.x);
    }
  }

  ghost predicate Waits(x: Running, y: Running) {
    WaitsFor(TxOf(x), TxOf(y))
  }

  /** No set of concurrent debits, submits, outcomes, reversals, checks and claims can wait in a cycle. */
  lemma {:induction false} NoCycleOfWaits(path: seq<Running>)
    requires path != [] && forall i :: 0 <= i < |path| ==> Possible(path[i])
    requires forall i :: 0 <= i < |path| - 1 ==> Waits(path[i], path[i + 1])
    ensures !Waits(path[|path| - 1], path[0])
  {
    var txs := seq(|path|, i requires 0 <= i < |path| => TxOf(path[i]));
    forall i | 0 <= i < |txs|
      ensures txs[i].Valid()
    {
      SagaTxIsValid(path[i]);
    }
    forall i | 0 <= i < |txs| - 1
      ensures WaitsFor(txs[i], txs[i + 1])
    {
      assert Waits(path[i], path[i + 1]);
    }
    OrderedWaitsDoNotCycle(txs);
  }

  ghost predicate IsFree(running: seq<Running>, i: nat)
    requires i < |running|
  {
    forall j :: 0 <= j < |running| ==> !Waits(running[i], running[j])
  }

  /** In any nonempty set of them, one at least is not waiting for another. */
  lemma {:induction false} SomeoneCanProceed(running: seq<Running>)
    requires running != [] && forall i :: 0 <= i < |running| ==> Possible(running[i])
    ensures exists i :: 0 <= i < |running| && IsFree(running, i)
  {
    var txs := seq(|running|, i requires 0 <= i < |running| => TxOf(running[i]));
    forall i | 0 <= i < |txs|
      ensures txs[i].Valid()
    {
      SagaTxIsValid(running[i]);
    }
    SomeOrderedTxIsFree(txs);
    var i :| 0 <= i < |txs| && !Waiting(txs, i);
    forall j | 0 <= j < |running|
      ensures !Waits(running[i], running[j])
    {
      assert !WaitsFor(txs[i], txs[j]);
    }
    assert IsFree(running, i);
  }
}
