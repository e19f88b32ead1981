/**
 A smallest seeded database with a transfer to make: one user, two programs, one point, and
 a rate of one to one. It shows that the states other modules start from are reached.
 */
module FirstTransfer {
  import opened Wrappers
  import opened RateEngine
  import opened Ledger
  import opened TransferState
  import opened Database
  import opened Conservation
  import opened Protocol
  import opened ProtocolSafety

  /** A transfer whose request is about to make its first attempt. */
  predicate JustSubmitted(s: State, id: nat) {
    && HasStatus(s, id, PartnerSubmitted) && id < |s.lanes|
    && s.lanes[id].caller.Ready? && s.lanes[id].caller.outcomes == []
    && s.lanes[id].wire == map[] && s.lanes[id].replies == map[] && s.lanes[id].credits == map[]
    && !s.lanes[id].refused
  }

  // ---------------------------------------------------------------- building runs

  /** A timely run from `s0` to `s`. */
  ghost predicate TimelyPath(c: Config, h: Hypotheses, s0: State, steps: seq<Step>, s: State) {
    Run(c, s0, steps) == Some(s) && TimelyRun(c, h, s0, steps)
  }

  lemma {:induction false} Stay(c: Config, h: Hypotheses, s: State) returns (none: seq<Step>)
    ensures TimelyPath(c, h, s, none, s)
  {
    none := [];
  }

  lemma {:induction false} Extend(c: Config, h: Hypotheses, s0: State, steps: seq<Step>, s: State,
      step: Step) returns (longer: seq<Step>)
    requires TimelyPath(c, h, s0, steps, s) && Next(c, s, step).Some? && Timely(c, h, s, step)
    ensures TimelyPath(c, h, s0, longer, Next(c, s, step).value)
    ensures longer == steps + [step]
    decreases |steps|
  {
    hide Next, Timely;
    longer := steps + [step];
    if steps == [] {
      assert longer == [step] && [step][1..] == [];
      assert forall n :: Run(c, n, []) == Some(n) && TimelyRun(c, h, n, []);
    } else {
      assert longer[1..] == steps[1..] + [step];
      var rest := Extend(c, h, Next(c, s0, steps[0]).value, steps[1..], s, step);
    }
  }

  lemma {:induction false} RunSnoc(c: Config, s: State, steps: seq<Step>, m: State, step: Step)
    requires Run(c, s, steps) == Some(m)
    ensures Run(c, s, steps + [step]) == Next(c, m, step)
    decreases |steps|
  {
    hide Next;
    if steps == [] {
      assert [step][1..] == [];
      assert steps + [step] == [step];
      assert forall n :: Run(c, n, []) == Some(n);
    } else {
      assert (steps + [step])[1..] == steps[1..] + [step];
      RunSnoc(c, Next(c, s, steps[0]).value, steps[1..], m, step);
    }
  }

  // ---------------------------------------------------------------- the smallest database

  const Accounts: seq<Account> := [
    Account(User("alice", "source-member"), 0, 1),
    Account(TransferClearing, 0, 0),
    Account(PartnerSettlement, 0, -1),
    Account(User("alice", "destination-member"), 1, 0),
    Account(TransferClearing, 1, 0),
    Account(PartnerSettlement, 1, 0)]

  const Opened := Journal(Seed, None, [Posting(2, 0, Debit, 1), Posting(0, 0, Credit, 1)])

  const Start := State(0, Db(Book(Accounts, [Opened]), []), [], map[])

  const Route := RouteConfig(
    ProgramRef(0, true), ProgramRef(1, true), Some(RateRule(0, 1, 1, 1, 1, 1, None, None)), None, None)

  const Order := Request("alice", "key", 0, 1, 1)

  lemma {:induction false} StartIsConsistent()
    ensures Consistent(Start.db.book)
  {
    var x, y := Opened.postings[0], Opened.postings[1];
    PairIsValid(x, y);
    assert [] + [Opened] == [Opened];
    forall a | 0 <= a < |Accounts|
      ensures Accounts[a].balance == Net(Entries([Opened]), a)
    {
      EntriesAppend([], Opened, a);
      NetOfTwo(x, y, a);
    }
  }

  lemma {:induction false} StartIsCharted()
    ensures Charted(Accounts)
  {
    forall a | 0 <= a < |Accounts|
      ensures Find(Accounts, RoleOf(Accounts[a].holder), Accounts[a].program) == Some(a)
      ensures Find(Accounts, Clearing, Accounts[a].program).Some?
      ensures Find(Accounts, Settlement, Accounts[a].program).Some?
    {
      assert RoleOf(Accounts[1].holder) == Clearing == RoleOf(Accounts[4].holder);
      assert RoleOf(Accounts[2].holder) == Settlement == RoleOf(Accounts[5].holder);
    }
  }

  lemma {:induction false} StartIsInitial(c: Config)
    requires c.policy.Valid()
    ensures Initial(c, Start)
  {
    StartIsConsistent();
    StartIsCharted();
  }

  lemma {:induction false} OrderIsPlanned(limit: Option<int>)
    requires limit.Some? ==> limit.value >= 1
    ensures ValidRoute(Route) && PlanDebit(Accounts, Order, Route, limit, 0).Ok?
  {
    assert RoleOf(Accounts[0].holder) == OfUser("alice") == RoleOf(Accounts[3].holder);
    assert RoleOf(Accounts[1].holder) == Clearing;
    assert CalculateConversion(Route.rate.value, 1, None, 0).Ok?;
  }

  lemma {:induction false} OrderIsDebited(c: Config)
    requires c.policy.Valid() && (c.limit.Some? ==> c.limit.value >= 1)
    ensures DebitSource(Start.db, Order, Route, c.limit, 0).Ok?
    ensures Creates(c.policy, Opening(Start.db), Start.db, Order, 0,
                    DebitSource(Start.db, Order, Route, c.limit, 0).value)
  {
    hide DebitSource, PlanDebit, DbInv;
    StartIsInitial(c);
    SeededHasInvariant(c.policy, Start.db);
    OrderIsPlanned(c.limit);
    var row := PlannedRow(Order, PlanDebit(Accounts, Order, Route, c.limit, 0).value, 0);
    DebitIsAccepted(c.policy, Opening(Start.db), Start.db, Order, Route, c.limit, 0);
    DebitUnfolds(Start.db, Order, Route, c.limit, 0, row, DebitJournal(Accounts, 0, row));
    DebitSucceedsOrRefuses(c.policy, Opening(Start.db), Start.db, Order, Route, c.limit, 0);
  }

  lemma {:induction false} OrderPlan(limit: Option<int>)
    requires ValidRoute(Route) && PlanDebit(Accounts, Order, Route, limit, 0).Ok?
    ensures var plan := PlanDebit(Accounts, Order, Route, limit, 0).value;
            && plan.source == 0 && plan.conversion.sourcePoints == 1
            && Find(Accounts, Clearing, 0) == Some(plan.clearing) && plan.clearing != 0
  {
    hide PlanDebit;
  }

  /** The order takes the user's only point. */
  lemma {:induction false} OrderTakesTheLastPoint(c: Config)
    requires c.policy.Valid() && (c.limit.Some? ==> c.limit.value >= 1)
    ensures DebitSource(Start.db, Order, Route, c.limit, 0).Ok?
    ensures var accounts := DebitSource(Start.db, Order, Route, c.limit, 0).value.book.accounts;
            SameShape(Accounts, accounts) && accounts[0].balance == 0
  {
    hide DebitSource, PlanDebit, DbInv, Post, Charted, Consistent;
    StartIsInitial(c);
    StartIsConsistent();
    SeededHasInvariant(c.policy, Start.db);
    OrderIsPlanned(c.limit);
    OrderPlan(c.limit);
    var row := PlannedRow(Order, PlanDebit(Accounts, Order, Route, c.limit, 0).value, 0);
    var j := DebitJournal(Accounts, 0, row);
    DebitIsAccepted(c.policy, Opening(Start.db), Start.db, Order, Route, c.limit, 0);
    DebitUnfolds(Start.db, Order, Route, c.limit, 0, row, j);
    PostKeepsConsistent(Start.db.book, j.kind, j.transfer, j.postings);
    NetOfTwo(j.postings[0], j.postings[1], 0);
  }

  /** The same order again is refused for its balance, before the unique key is looked at. */
  lemma {:induction false} OrderAgainIsRefused(c: Config)
    requires c.policy.Valid() && (c.limit.Some? ==> c.limit.value >= 1)
    ensures DebitSource(Start.db, Order, Route, c.limit, 0).Ok?
    ensures DebitSource(DebitSource(Start.db, Order, Route, c.limit, 0).value, Order, Route, c.limit, 0)
         == Err(Domain(InsufficientBalance))
  {
    hide PlanDebit, Post, PostOrFail;
    OrderTakesTheLastPoint(c);
    OrderIsPlanned(c.limit);
    var accounts := DebitSource(Start.db, Order, Route, c.limit, 0).value.book.accounts;
    FindIgnoresBalances(Accounts, accounts, OfUser("alice"), 0);
    FindIgnoresBalances(Accounts, accounts, OfUser("alice"), 1);
    FindIgnoresBalances(Accounts, accounts, Clearing, 0);
    assert Find(Accounts, OfUser("alice"), 0) == Some(0);
    PlanAgainIsRefused(accounts, c.limit);
  }

  lemma {:induction false} PlanAgainIsRefused(accounts: seq<Account>, limit: Option<int>)
    requires limit.Some? ==> limit.value >= 1
    requires Find(accounts, OfUser("alice"), 0) == Some(0) && accounts[0].balance == 0
    requires Find(accounts, OfUser("alice"), 1).Some? && Find(accounts, Clearing, 0).Some?
    ensures ValidRoute(Route) && PlanDebit(accounts, Order, Route, limit, 0) == Err(Domain(InsufficientBalance))
  {
    assert CalculateConversion(Route.rate.value, 1, None, 0).Ok?;
  }

  lemma {:induction false} FirstTransferIsCreated(c: Config) returns (s: State)
    requires c.policy.Valid() && (c.limit.Some? ==> c.limit.value >= 1)
    ensures Next(c, Start, Create(Order, Route, 0)) == Some(s)
    ensures HasStatus(s, 0, SourceDebited) && DbInv(c.policy, Opening(Start.db), s.db)
    ensures s.now == 0 == s.db.transfers[0].createdAt && s.workers == map[]
    ensures |s.lanes| == 1 && exists job :: s.lanes[0] == NewLane(job)
  {
    hide DbInv, DebitSource;
    OrderIsPlanned(c.limit);
    OrderIsDebited(c);
    s := Next(c, Start, Create(Order, Route, 0)).value;
    var rows := s.db.transfers;
    assert s.lanes[0] == NewLane(JobOf(c, s.db.book.accounts, rows[|rows| - 1]));
  }

  /** From the seeded start a transfer of the instant 0 gets to its first partner attempt. */
  lemma {:induction false} FirstTransferIsSubmitted(c: Config, h: Hypotheses) returns (steps: seq<Step>, s: State)
    requires c.policy.Valid() && (c.limit.Some? ==> c.limit.value >= 1)
    ensures Initial(c, Start) && TimelyPath(c, h, Start, steps, s)
    ensures JustSubmitted(s, 0) && s.now == 0 == s.db.transfers[0].createdAt && s.workers == map[]
  {
    hide DbInv, DebitSource, TimelyPath;
    StartIsInitial(c);
    var none := Stay(c, h, Start);
    var s1 := FirstTransferIsCreated(c);
    var one := Extend(c, h, Start, none, Start, Create(Order, Route, 0));
    SubmitSucceeds(c.policy, Opening(Start.db), s1.db, 0, 0);
    s := Next(c, s1, Submit(0)).value;
    steps := Extend(c, h, Start, one, s1, Submit(0));
  }
}
