/**
 What every saga transaction keeps: the ledger invariants, one journal list per status, and
 every balance as its opening balance plus the effects of the transfers. From these follow
 the clearing and user balances at every committed state, and that the compensating and
 settling transactions can never fail.
 */
module Conservation {
  import opened Wrappers
  import opened RateEngine
  import opened Partner
  import opened Ledger
  import opened TransferState
  import opened Database

  /** The id of a system account that is known to exist. */
  function Id(accounts: seq<Account>, role: Role, program: nat): nat {
    match Find(accounts, role, program)
    case Some(a) => a
    case None => 0
  }

  /**
   Every program has its two system accounts, and the unique indexes hold: an account is the
   only one of its role in its program.
   */
  predicate Charted(accounts: seq<Account>) {
    forall a :: 0 <= a < |accounts| ==>
                  && Find(accounts, RoleOf(accounts[a].holder), accounts[a].program) == Some(a)
                  && Find(accounts, Clearing, accounts[a].program).Some?
                  && Find(accounts, Settlement, accounts[a].program).Some?
  }

  predicate OwnedBy(accounts: seq<Account>, a: nat, user: string, program: nat) {
    a < |accounts| && RoleOf(accounts[a].holder) == OfUser(user) && accounts[a].program == program
  }

  predicate TransferOk(p: Policy, accounts: seq<Account>, t: Transfer) {
    && RowOk(p, t)
    && OwnedBy(accounts, t.sourceAccount, t.user, t.sourceProgram)
    && OwnedBy(accounts, t.destinationAccount, t.user, t.destinationProgram)
    && t.sourceProgram != t.destinationProgram
  }

  // ---------------------------------------------------------------- status determines the journals

  function DebitJournal(accounts: seq<Account>, id: nat, t: Transfer): Journal {
    Journal(TransferDebit, Some(id), DebitPostings(t, Id(accounts, Clearing, t.sourceProgram)))
  }

  function SettleJournal(accounts: seq<Account>, id: nat, t: Transfer): Journal {
    Journal(TransferSettle, Some(id),
            SettlePostings(t, Id(accounts, Clearing, t.sourceProgram),
                           Id(accounts, Settlement, t.sourceProgram),
                           Id(accounts, Settlement, t.destinationProgram)))
  }

  function ReversalJournal(accounts: seq<Account>, id: nat, t: Transfer): Journal {
    Journal(TransferReversal, Some(id), ReversalPostings(t, Id(accounts, Clearing, t.sourceProgram)))
  }

  /** The journals a transfer must have, from its status alone. */
  function ExpectedJournals(accounts: seq<Account>, id: nat, t: Transfer): seq<Journal> {
    [DebitJournal(accounts, id, t)]
    + (if t.status == Completed then [SettleJournal(accounts, id, t)]
       else if t.status == Reversed then [ReversalJournal(accounts, id, t)]
       else [])
  }

  /** The journals a transfer has. */
  function JournalsOf(journals: seq<Journal>, id: nat): seq<Journal> {
    if journals == [] then []
    else
      var n := |journals| - 1;
      JournalsOf(journals[..n], id) + if journals[n].transfer == Some(id) then [journals[n]] else []
  }

  /** What a transfer has done to account `a` so far. */
  function Effect(accounts: seq<Account>, id: nat, t: Transfer, a: nat): int {
    Net(Entries(ExpectedJournals(accounts, id, t)), a)
  }

  function SumEffects(accounts: seq<Account>, transfers: seq<Transfer>, a: nat): int {
    if transfers == [] then 0
    else
      var n := |transfers| - 1;
      SumEffects(accounts, transfers[..n], a) + Effect(accounts, n, transfers[n], a)
  }

  predicate UniqueKeys(transfers: seq<Transfer>) {
    forall i, j :: 0 <= i < j < |transfers| ==>
                     transfers[i].user != transfers[j].user || transfers[i].key != transfers[j].key
  }

  predicate AllOk(p: Policy, accounts: seq<Account>, transfers: seq<Transfer>) {
    forall id :: 0 <= id < |transfers| ==> TransferOk(p, accounts, transfers[id])
  }

  predicate RowsOk(p: Policy, accounts: seq<Account>, transfers: seq<Transfer>) {
    && AllOk(p, accounts, transfers)
    && UniqueKeys(transfers)
  }

  ghost predicate JournalsMatch(db: Db) {
    && (forall id :: 0 <= id < |db.transfers| ==>
                       JournalsOf(db.book.journals, id) ==
                       ExpectedJournals(db.book.accounts, id, db.transfers[id]))
    && (forall i :: 0 <= i < |db.book.journals| && db.book.journals[i].transfer.Some? ==>
                      db.book.journals[i].transfer.value < |db.transfers|)
  }

  ghost predicate BalancesMatch(opening: seq<int>, db: Db) {
    && |opening| == |db.book.accounts|
    && forall a :: 0 <= a < |opening| ==>
                     db.book.accounts[a].balance ==
                     opening[a] + SumEffects(db.book.accounts, db.transfers, a)
  }

  /** The invariant of the committed database. */
  ghost predicate DbInv(p: Policy, opening: seq<int>, db: Db) {
    && p.Valid()
    && Consistent(db.book)
    && Charted(db.book.accounts)
    && RowsOk(p, db.book.accounts, db.transfers)
    && JournalsMatch(db)
    && BalancesMatch(opening, db)
  }

  /** A seeded database: opening journals only, nothing in clearing, no transfers yet. */
  ghost predicate Seeded(db: Db) {
    && Consistent(db.book)
    && Charted(db.book.accounts)
    && (forall i :: 0 <= i < |db.book.journals| ==> db.book.journals[i].transfer.None?)
    && (forall a :: 0 <= a < |db.book.accounts| && db.book.accounts[a].holder.TransferClearing? ==>
                      db.book.accounts[a].balance == 0)
    && db.transfers == []
  }

  function Opening(db: Db): seq<int> {
    seq(|db.book.accounts|, a requires 0 <= a < |db.book.accounts| => db.book.accounts[a].balance)
  }

  lemma {:induction false} SeededHasInvariant(p: Policy, db: Db)
    requires p.Valid() && Seeded(db)
    ensures DbInv(p, Opening(db), db)
  {
  }

  // ---------------------------------------------------------------- lookups do not move

  lemma {:induction false} FindIgnoresBalances(x: seq<Account>, y: seq<Account>, role: Role, program: nat)
    requires SameShape(x, y)
    ensures Find(x, role, program) == Find(y, role, program)
  {
    if x != [] {
      FindIgnoresBalances(x[..|x| - 1], y[..|y| - 1], role, program);
    }
  }

  lemma {:induction false} ExpectedIgnoresBalances(x: seq<Account>, y: seq<Account>, id: nat, t: Transfer)
    requires SameShape(x, y)
    ensures ExpectedJournals(x, id, t) == ExpectedJournals(y, id, t)
  {
    FindIgnoresBalances(x, y, Clearing, t.sourceProgram);
    FindIgnoresBalances(x, y, Settlement, t.sourceProgram);
    FindIgnoresBalances(x, y, Settlement, t.destinationProgram);
  }

  lemma {:induction false} SumIgnoresBalances(x: seq<Account>, y: seq<Account>, transfers: seq<Transfer>, a: nat)
    requires SameShape(x, y)
    ensures SumEffects(x, transfers, a) == SumEffects(y, transfers, a)
  {
    if transfers != [] {
      var n := |transfers| - 1;
      SumIgnoresBalances(x, y, transfers[..n], a);
      ExpectedIgnoresBalances(x, y, n, transfers[n]);
    }
  }

  lemma {:induction false} ChartedIgnoresBalances(x: seq<Account>, y: seq<Account>)
    requires SameShape(x, y) && Charted(x)
    ensures Charted(y)
  {
    forall a | 0 <= a < |y|
      ensures Find(y, RoleOf(y[a].holder), y[a].program) == Some(a)
      ensures Find(y, Clearing, y[a].program).Some? && Find(y, Settlement, y[a].program).Some?
    {
      FindIgnoresBalances(x, y, RoleOf(x[a].holder), x[a].program);
      FindIgnoresBalances(x, y, Clearing, x[a].program);
      FindIgnoresBalances(x, y, Settlement, x[a].program);
    }
  }

  // ---------------------------------------------------------------- sums over an update

  lemma {:induction false} SumAfterUpdate(accounts: seq<Account>, transfers: seq<Transfer>, id: nat, row: Transfer,
      a: nat)
    requires id < |transfers|
    ensures SumEffects(accounts, transfers[id := row], a)
         == SumEffects(accounts, transfers, a)
            - Effect(accounts, id, transfers[id], a) + Effect(accounts, id, row, a)
  {
    hide Effect;
    var n := |transfers| - 1;
    if id == n {
      assert transfers[id := row][..n] == transfers[..n];
    } else {
      assert transfers[id := row][..n] == transfers[..n][id := row];
      SumAfterUpdate(accounts, transfers[..n], id, row, a);
    }
  }

  lemma {:induction false} JournalsOfAppend(journals: seq<Journal>, j: Journal, id: nat)
    ensures JournalsOf(journals + [j], id)
         == JournalsOf(journals, id) + if j.transfer == Some(id) then [j] else []
  {
    assert (journals + [j])[..|journals|] == journals;
  }

  lemma {:induction false} NoJournalsYet(journals: seq<Journal>, id: nat)
    requires forall i :: 0 <= i < |journals| ==> journals[i].transfer != Some(id)
    ensures JournalsOf(journals, id) == []
  {
    if journals != [] {
      NoJournalsYet(journals[..|journals| - 1], id);
    }
  }

  lemma {:induction false} JournalIsListed(journals: seq<Journal>, i: nat, id: nat)
    requires i < |journals| && journals[i].transfer == Some(id)
    ensures journals[i] in JournalsOf(journals, id)
  {
    if i < |journals| - 1 {
      JournalIsListed(journals[..|journals| - 1], i, id);
    }
  }

  // ---------------------------------------------------------------- the three shapes of a transaction

  lemma {:induction false} RowsAfterUpdate(p: Policy, x: seq<Account>, y: seq<Account>, transfers: seq<Transfer>,
      id: nat, row: Transfer)
    requires SameShape(x, y) && RowsOk(p, x, transfers) && id < |transfers|
    requires RowOk(p, row) && SameTerms(transfers[id], row)
    ensures RowsOk(p, y, transfers[id := row])
  {
    var rows := transfers[id := row];
    forall k | 0 <= k < |rows|
      ensures TransferOk(p, y, rows[k])
    {
      assert TransferOk(p, x, transfers[k]);
    }
  }

  lemma {:induction false} JournalsAfterUpdate(db: Db, id: nat, row: Transfer)
    requires JournalsMatch(db) && id < |db.transfers|
    requires ExpectedJournals(db.book.accounts, id, row) == ExpectedJournals(db.book.accounts, id, db.transfers[id])
    ensures JournalsMatch(db.(transfers := db.transfers[id := row]))
  {
  }

  lemma {:induction false} BalancesAfterUpdate(opening: seq<int>, db: Db, id: nat, row: Transfer)
    requires BalancesMatch(opening, db) && id < |db.transfers|
    requires ExpectedJournals(db.book.accounts, id, row) == ExpectedJournals(db.book.accounts, id, db.transfers[id])
    ensures BalancesMatch(opening, db.(transfers := db.transfers[id := row]))
  {
    forall a | 0 <= a < |opening|
      ensures SumEffects(db.book.accounts, db.transfers[id := row], a) == SumEffects(db.book.accounts, db.transfers, a)
    {
      SumAfterUpdate(db.book.accounts, db.transfers, id, row, a);
    }
  }

  /** A row change that posts nothing. */
  lemma {:induction false} RowUpdateKeepsInvariant(p: Policy, opening: seq<int>, db: Db, id: nat, row: Transfer)
    requires DbInv(p, opening, db) && id < |db.transfers|
    requires RowOk(p, row) && SameTerms(db.transfers[id], row)
    requires ExpectedJournals(db.book.accounts, id, row) == ExpectedJournals(db.book.accounts, id, db.transfers[id])
    ensures DbInv(p, opening, db.(transfers := db.transfers[id := row]))
  {
    RowsAfterUpdate(p, db.book.accounts, db.book.accounts, db.transfers, id, row);
    JournalsAfterUpdate(db, id, row);
    BalancesAfterUpdate(opening, db, id, row);
  }

  /** What posting `j` does to the ledger, apart from the rows. */
  ghost predicate Posted(book: Book, j: Journal, after: Book) {
    && SameShape(book.accounts, after.accounts)
    && after.journals == book.journals + [j]
    && forall a :: 0 <= a < |book.accounts| ==>
                     after.accounts[a].balance == book.accounts[a].balance + Net(j.postings, a)
  }

  lemma {:induction false} PostIsPosted(book: Book, j: Journal)
    requires Consistent(book) && Charted(book.accounts)
    requires Post(book, j.kind, j.transfer, j.postings).Ok?
    ensures var after := Post(book, j.kind, j.transfer, j.postings).value;
            Posted(book, j, after) && Consistent(after) && Charted(after.accounts)
  {
    PostKeepsConsistent(book, j.kind, j.transfer, j.postings);
    ChartedIgnoresBalances(book.accounts, Post(book, j.kind, j.transfer, j.postings).value.accounts);
  }

  lemma {:induction false} JournalsAfterPosting(db: Db, id: nat, row: Transfer, j: Journal, book: Book)
    requires JournalsMatch(db) && id < |db.transfers| && j.transfer == Some(id)
    requires Posted(db.book, j, book)
    requires ExpectedJournals(db.book.accounts, id, row)
          == ExpectedJournals(db.book.accounts, id, db.transfers[id]) + [j]
    ensures JournalsMatch(Db(book, db.transfers[id := row]))
  {
    var after := Db(book, db.transfers[id := row]);
    forall k | 0 <= k < |after.transfers|
      ensures JournalsOf(book.journals, k) == ExpectedJournals(book.accounts, k, after.transfers[k])
    {
      JournalsOfAppend(db.book.journals, j, k);
      ExpectedIgnoresBalances(db.book.accounts, book.accounts, k, after.transfers[k]);
      assert k != id ==> after.transfers[k] == db.transfers[k];
    }
  }

  lemma {:induction false} BalancesAfterPosting(opening: seq<int>, db: Db, id: nat, row: Transfer, j: Journal,
      book: Book)
    requires BalancesMatch(opening, db) && id < |db.transfers|
    requires Posted(db.book, j, book)
    requires ExpectedJournals(db.book.accounts, id, row)
          == ExpectedJournals(db.book.accounts, id, db.transfers[id]) + [j]
    ensures BalancesMatch(opening, Db(book, db.transfers[id := row]))
  {
    var rows := db.transfers[id := row];
    forall a | 0 <= a < |opening|
      ensures book.accounts[a].balance == opening[a] + SumEffects(book.accounts, rows, a)
    {
      SumAfterUpdate(db.book.accounts, db.transfers, id, row, a);
      EntriesAppend(ExpectedJournals(db.book.accounts, id, db.transfers[id]), j, a);
      SumIgnoresBalances(db.book.accounts, book.accounts, rows, a);
    }
  }

  /** A journal for an existing transfer, together with the row change it belongs to. */
  lemma {:induction false} PostingKeepsInvariant(p: Policy, opening: seq<int>, db: Db, id: nat, row: Transfer,
      j: Journal)
    requires DbInv(p, opening, db) && id < |db.transfers|
    requires RowOk(p, row) && SameTerms(db.transfers[id], row)
    requires j.transfer == Some(id)
    requires Post(db.book, j.kind, j.transfer, j.postings).Ok?
    requires ExpectedJournals(db.book.accounts, id, row)
          == ExpectedJournals(db.book.accounts, id, db.transfers[id]) + [j]
    ensures DbInv(p, opening, Db(Post(db.book, j.kind, j.transfer, j.postings).value, db.transfers[id := row]))
  {
    var book := Post(db.book, j.kind, j.transfer, j.postings).value;
    PostIsPosted(db.book, j);
    RowsAfterUpdate(p, db.book.accounts, book.accounts, db.transfers, id, row);
    JournalsAfterPosting(db, id, row, j, book);
    BalancesAfterPosting(opening, db, id, row, j, book);
  }

  lemma {:induction false} RowsAfterCreation(p: Policy, x: seq<Account>, y: seq<Account>, transfers: seq<Transfer>,
      row: Transfer)
    requires SameShape(x, y) && RowsOk(p, x, transfers)
    requires TransferOk(p, x, row) && !KeyTaken(transfers, row.user, row.key)
    ensures RowsOk(p, y, transfers + [row])
  {
    forall k | 0 <= k < |transfers + [row]|
      ensures TransferOk(p, y, (transfers + [row])[k])
    {
      assert k < |transfers| ==> TransferOk(p, x, transfers[k]);
    }
  }

  lemma {:induction false} JournalsAfterCreation(db: Db, row: Transfer, book: Book)
    requires JournalsMatch(db) && row.status == SourceDebited
    requires Posted(db.book, DebitJournal(db.book.accounts, |db.transfers|, row), book)
    ensures JournalsMatch(Db(book, db.transfers + [row]))
  {
    var id, rows := |db.transfers|, db.transfers + [row];
    var j := DebitJournal(db.book.accounts, id, row);
    NoJournalsYet(db.book.journals, id);
    forall k | 0 <= k < |rows|
      ensures JournalsOf(book.journals, k) == ExpectedJournals(book.accounts, k, rows[k])
    {
      JournalsOfAppend(db.book.journals, j, k);
      ExpectedIgnoresBalances(db.book.accounts, book.accounts, k, rows[k]);
      assert k != id ==> rows[k] == db.transfers[k];
    }
  }

  lemma {:induction false} BalancesAfterCreation(opening: seq<int>, db: Db, row: Transfer, book: Book)
    requires BalancesMatch(opening, db) && row.status == SourceDebited
    requires Posted(db.book, DebitJournal(db.book.accounts, |db.transfers|, row), book)
    ensures BalancesMatch(opening, Db(book, db.transfers + [row]))
  {
    var id, rows := |db.transfers|, db.transfers + [row];
    var j := DebitJournal(db.book.accounts, id, row);
    assert rows[..id] == db.transfers;
    assert [] + [j] == [j];
    forall a | 0 <= a < |opening|
      ensures book.accounts[a].balance == opening[a] + SumEffects(book.accounts, rows, a)
    {
      EntriesAppend([], j, a);
      SumIgnoresBalances(db.book.accounts, book.accounts, rows, a);
    }
  }

  /** A new transfer with its debit journal. */
  lemma {:induction false} CreationKeepsInvariant(p: Policy, opening: seq<int>, db: Db, row: Transfer, j: Journal)
    requires DbInv(p, opening, db)
    requires TransferOk(p, db.book.accounts, row) && row.status == SourceDebited
    requires !KeyTaken(db.transfers, row.user, row.key)
    requires j == DebitJournal(db.book.accounts, |db.transfers|, row)
    requires Post(db.book, j.kind, j.transfer, j.postings).Ok?
    ensures DbInv(p, opening, Db(Post(db.book, j.kind, j.transfer, j.postings).value, db.transfers + [row]))
  {
    var book := Post(db.book, j.kind, j.transfer, j.postings).value;
    PostIsPosted(db.book, j);
    RowsAfterCreation(p, db.book.accounts, book.accounts, db.transfers, row);
    JournalsAfterCreation(db, row, book);
    BalancesAfterCreation(opening, db, row, book);
  }

  // ---------------------------------------------------------------- short journals

  lemma {:induction false} NetOfTwo(x: Posting, y: Posting, k: nat)
    ensures Net([x, y], k) == (if x.account == k then x.Signed() else 0) + (if y.account == k then y.Signed() else 0)
    ensures NetOfProgram([x, y], k)
         == (if x.program == k then x.Signed() else 0) + (if y.program == k then y.Signed() else 0)
  {
    assert [x, y][..1] == [x] && [x][..0] == [];
    assert Net([x], k) == if x.account == k then x.Signed() else 0;
    assert NetOfProgram([x], k) == if x.program == k then x.Signed() else 0;
  }

  lemma {:induction false} NetOfFour(x: Posting, y: Posting, z: Posting, w: Posting, k: nat)
    ensures Net([x, y, z, w], k) == Net([x, y], k) + Net([z, w], k)
    ensures NetOfProgram([x, y, z, w], k) == NetOfProgram([x, y], k) + NetOfProgram([z, w], k)
  {
    assert [x, y, z, w] == [x, y] + [z, w];
    NetConcat([x, y], [z, w], k);
    NetOfProgramConcat([x, y], [z, w], k);
  }

  lemma {:induction false} PairIsValid(x: Posting, y: Posting)
    requires x.program == y.program && x.amount == y.amount > 0 && x.direction != y.direction
    ensures ValidPostings([x, y])
  {
    forall p: nat
      ensures NetOfProgram([x, y], p) == 0
    {
      NetOfTwo(x, y, p);
    }
  }

  /** The debited account can afford it: it is a system account, or it holds the amount. */
  predicate Affordable(accounts: seq<Account>, x: Posting) {
    x.account < |accounts| && x.direction == Debit
    && (accounts[x.account].holder.User? ==> accounts[x.account].balance >= x.amount)
  }

  lemma {:induction false} PairDoesNotOverdraw(book: Book, x: Posting, y: Posting, a: nat)
    requires Consistent(book) && a < |book.accounts|
    requires Affordable(book.accounts, x) && y.direction == Credit && y.amount > 0
    ensures Net([x, y], a) < 0 && book.accounts[a].holder.User? ==> book.accounts[a].balance + Net([x, y], a) >= 0
  {
    NetOfTwo(x, y, a);
  }

  lemma {:induction false} JournalIsAccepted(book: Book, j: Journal)
    requires j.kind != Seed && j.transfer.Some? && !HasJournal(book.journals, j.transfer, j.kind)
    requires ValidPostings(j.postings) && PostingsMatch(book.accounts, j.postings)
    requires !WouldOverdraw(book.accounts, j.postings)
    ensures Post(book, j.kind, j.transfer, j.postings).Ok?
  {
  }

  /** Moving points from an account that can afford it is accepted. */
  lemma {:induction false} PairIsAccepted(book: Book, j: Journal, x: Posting, y: Posting)
    requires Consistent(book) && j.postings == [x, y] && PostingsMatch(book.accounts, j.postings)
    requires j.kind != Seed && j.transfer.Some? && !HasJournal(book.journals, j.transfer, j.kind)
    requires x.program == y.program && x.amount == y.amount > 0
    requires Affordable(book.accounts, x) && y.direction == Credit
    ensures Post(book, j.kind, j.transfer, j.postings).Ok?
  {
    PairIsValid(x, y);
    forall a | 0 <= a < |book.accounts|
      ensures !OverdrawnAt(book.accounts, a, Net(j.postings, a))
    {
      PairDoesNotOverdraw(book, x, y, a);
    }
    JournalIsAccepted(book, j);
  }

  /** Whether a transfer of this status may be reversed, and then its reversal is accepted. */
  lemma {:induction false} ReversalIsAccepted(p: Policy, opening: seq<int>, db: Db, id: nat)
    requires DbInv(p, opening, db) && id < |db.transfers|
    requires InFlight(db.transfers[id].status)
    ensures var j := ReversalJournal(db.book.accounts, id, db.transfers[id]);
            Post(db.book, j.kind, j.transfer, j.postings).Ok?
  {
    hide DbInv, Post;
    var j := ReversalJournal(db.book.accounts, id, db.transfers[id]);
    SystemAccountsExist(p, opening, db, id);
    NotYetPosted(p, opening, db, id, TransferReversal);
    PairIsAccepted(db.book, j, j.postings[0], j.postings[1]);
  }

  lemma {:induction false} NotYetPosted(p: Policy, opening: seq<int>, db: Db, id: nat, kind: JournalType)
    requires DbInv(p, opening, db) && id < |db.transfers|
    requires InFlight(db.transfers[id].status) && kind != TransferDebit
    ensures !HasJournal(db.book.journals, Some(id), kind)
  {
    if HasJournal(db.book.journals, Some(id), kind) {
      var journals := db.book.journals;
      var i :| 0 <= i < |journals| && journals[i].transfer == Some(id) && journals[i].kind == kind;
      JournalIsListed(db.book.journals, i, id);
    }
  }

  lemma {:induction false} SystemAccountsExist(p: Policy, opening: seq<int>, db: Db, id: nat)
    requires DbInv(p, opening, db) && id < |db.transfers|
    ensures var accounts, t := db.book.accounts, db.transfers[id];
            && TransferOk(p, accounts, t) && Consistent(db.book)
            && Find(accounts, Clearing, t.sourceProgram).Some?
            && Find(accounts, Settlement, t.sourceProgram).Some?
            && Find(accounts, Settlement, t.destinationProgram).Some?
  {
    assert TransferOk(p, db.book.accounts, db.transfers[id]);
  }

  /** Two moves in two programs, each from an account that can afford it, are accepted. */
  lemma {:induction false} TwoPairsAreAccepted(book: Book, j: Journal, w: Posting, x: Posting, y: Posting, z: Posting)
    requires Consistent(book) && j.postings == [w, x, y, z] && PostingsMatch(book.accounts, j.postings)
    requires j.kind != Seed && j.transfer.Some? && !HasJournal(book.journals, j.transfer, j.kind)
    requires w.program == x.program && w.amount == x.amount > 0 && x.direction == Credit
    requires y.program == z.program && y.amount == z.amount > 0 && z.direction == Credit
    requires Affordable(book.accounts, w) && !book.accounts[w.account].holder.User?
    requires Affordable(book.accounts, y) && !book.accounts[y.account].holder.User?
    ensures Post(book, j.kind, j.transfer, j.postings).Ok?
  {
    hide Post;
    PairIsValid(w, x);
    PairIsValid(y, z);
    forall program: nat
      ensures NetOfProgram(j.postings, program) == 0
    {
      NetOfFour(w, x, y, z, program);
    }
    forall a | 0 <= a < |book.accounts|
      ensures !OverdrawnAt(book.accounts, a, Net(j.postings, a))
    {
      NetOfFour(w, x, y, z, a);
      NetOfTwo(w, x, a);
      NetOfTwo(y, z, a);
    }
    JournalIsAccepted(book, j);
  }

  lemma {:induction false} SettlementIsAccepted(p: Policy, opening: seq<int>, db: Db, id: nat)
    requires DbInv(p, opening, db) && id < |db.transfers|
    requires InFlight(db.transfers[id].status)
    ensures var j := SettleJournal(db.book.accounts, id, db.transfers[id]);
            Post(db.book, j.kind, j.transfer, j.postings).Ok?
  {
    hide DbInv, Post;
    var j := SettleJournal(db.book.accounts, id, db.transfers[id]);
    SystemAccountsExist(p, opening, db, id);
    NotYetPosted(p, opening, db, id, TransferSettle);
    TwoPairsAreAccepted(db.book, j, j.postings[0], j.postings[1], j.postings[2], j.postings[3]);
  }

  // ---------------------------------------------------------------- every transaction, one by one

  lemma {:induction false} InvariantParts(p: Policy, opening: seq<int>, db: Db)
    requires DbInv(p, opening, db)
    ensures p.Valid() && Consistent(db.book) && Charted(db.book.accounts)
    ensures RowsOk(p, db.book.accounts, db.transfers)
  {
  }

  lemma {:induction false} KeysAndJournals(p: Policy, opening: seq<int>, db: Db, i: nat, j: nat)
    requires DbInv(p, opening, db) && i < |db.transfers| && j < |db.transfers|
    ensures db.transfers[i].user == db.transfers[j].user && db.transfers[i].key == db.transfers[j].key ==> i == j
    ensures JournalsOf(db.book.journals, i) == ExpectedJournals(db.book.accounts, i, db.transfers[i])
  {
    hide Consistent, Charted, AllOk, BalancesMatch;
  }

  lemma {:induction false} ExpectedUnchanged(accounts: seq<Account>, id: nat, t: Transfer, row: Transfer)
    requires SameTerms(t, row) && !IsFinal(t.status) && !IsFinal(row.status)
    ensures ExpectedJournals(accounts, id, row) == ExpectedJournals(accounts, id, t)
  {
  }

  lemma {:induction false} ExpectedWhenFinal(accounts: seq<Account>, id: nat, t: Transfer, row: Transfer)
    requires SameTerms(t, row) && !IsFinal(t.status)
    ensures row.status == Completed ==>
              ExpectedJournals(accounts, id, row) ==
              ExpectedJournals(accounts, id, t) + [SettleJournal(accounts, id, t)]
    ensures row.status == Reversed ==>
              ExpectedJournals(accounts, id, row) ==
              ExpectedJournals(accounts, id, t) + [ReversalJournal(accounts, id, t)]
  {
  }

  lemma {:induction false} SettleUnfolds(p: Policy, db: Db, id: nat, confirmation: string, now: Time, j: Journal)
    requires Charted(db.book.accounts) && id < |db.transfers| && TransferOk(p, db.book.accounts, db.transfers[id])
    requires j == SettleJournal(db.book.accounts, id, db.transfers[id])
    requires Post(db.book, j.kind, j.transfer, j.postings).Ok?
    requires SettledRow(db.transfers[id], confirmation, now).Ok?
    ensures Settle(db, id, confirmation, now)
         == Ok(Db(Post(db.book, j.kind, j.transfer, j.postings).value,
                  db.transfers[id := SettledRow(db.transfers[id], confirmation, now).value]))
  {
    var t := db.transfers[id];
    assert db.book.accounts[t.sourceAccount].program == t.sourceProgram;
    assert db.book.accounts[t.destinationAccount].program == t.destinationProgram;
  }

  lemma {:induction false} ReverseUnfolds(p: Policy, db: Db, id: nat, code: FailureCode, now: Time, j: Journal)
    requires Charted(db.book.accounts) && id < |db.transfers| && TransferOk(p, db.book.accounts, db.transfers[id])
    requires j == ReversalJournal(db.book.accounts, id, db.transfers[id])
    requires Post(db.book, j.kind, j.transfer, j.postings).Ok?
    requires ReversedRow(db.transfers[id], code, now).Ok?
    ensures Reverse(db, id, code, now)
         == Ok(Db(Post(db.book, j.kind, j.transfer, j.postings).value,
                  db.transfers[id := ReversedRow(db.transfers[id], code, now).value]))
  {
    var t := db.transfers[id];
    assert db.book.accounts[t.sourceAccount].program == t.sourceProgram;
  }

  /** A transaction of the saga committed, changed exactly row `id`, and kept the invariant. */
  ghost predicate ChangesRow(p: Policy, opening: seq<int>, db: Db, id: nat, row: Result<Transfer, SagaError>,
                             r: Result<Db, SagaError>)
    requires id < |db.transfers|
  {
    && GoodChange(p, db.transfers[id], row)
    && r.Ok?
    && r.value.transfers == db.transfers[id := row.value]
    && SameShape(db.book.accounts, r.value.book.accounts)
    && DbInv(p, opening, r.value)
  }

  /** Settling never fails on a verifiable transfer, and changes exactly its row. */
  lemma {:induction false} SettleSucceeds(p: Policy, opening: seq<int>, db: Db, id: nat, confirmation: string,
      now: Time)
    requires DbInv(p, opening, db) && id < |db.transfers|
    requires Verifiable(db.transfers[id].status) && confirmation != ""
    ensures ChangesRow(p, opening, db, id, SettledRow(db.transfers[id], confirmation, now),
                       Settle(db, id, confirmation, now))
  {
    var t := db.transfers[id];
    assert TransferOk(p, db.book.accounts, t);
    SettleKeepsRow(p, t, confirmation, now);
    var row := SettledRow(t, confirmation, now).value;
    var j := SettleJournal(db.book.accounts, id, t);
    SettlementIsAccepted(p, opening, db, id);
    SettleUnfolds(p, db, id, confirmation, now, j);
    ExpectedWhenFinal(db.book.accounts, id, t, row);
    PostIsPosted(db.book, j);
    PostingKeepsInvariant(p, opening, db, id, row, j);
  }

  /** Reversing never fails on an automatable transfer, and changes exactly its row. */
  lemma {:induction false} ReverseSucceeds(p: Policy, opening: seq<int>, db: Db, id: nat, code: FailureCode, now: Time)
    requires DbInv(p, opening, db) && id < |db.transfers|
    requires Automatable(db.transfers[id].status)
    ensures Reverse(db, id, code, now).Ok?
    ensures IsReason(db.transfers[id], code) ==>
              ChangesRow(p, opening, db, id, ReversedRow(db.transfers[id], code, now), Reverse(db, id, code, now))
  {
    var t := db.transfers[id];
    assert TransferOk(p, db.book.accounts, t);
    var row := ReversedRow(t, code, now).value;
    var j := ReversalJournal(db.book.accounts, id, t);
    ReversalIsAccepted(p, opening, db, id);
    ReverseUnfolds(p, db, id, code, now, j);
    if IsReason(t, code) {
      ReverseKeepsRow(p, t, code, now);
      ExpectedWhenFinal(db.book.accounts, id, t, row);
      PostIsPosted(db.book, j);
      PostingKeepsInvariant(p, opening, db, id, row, j);
    }
  }

  /** A row change of a transfer that stays in flight commits. */
  lemma {:induction false} RowChangeSucceeds(p: Policy, opening: seq<int>, db: Db, id: nat, row: Result<Transfer,
      SagaError>)
    requires DbInv(p, opening, db) && id < |db.transfers|
    requires GoodChange(p, db.transfers[id], row)
    requires !IsFinal(db.transfers[id].status) && !IsFinal(row.value.status)
    ensures ChangesRow(p, opening, db, id, row, UpdateRow(db, id, row))
  {
    ExpectedUnchanged(db.book.accounts, id, db.transfers[id], row.value);
    RowUpdateKeepsInvariant(p, opening, db, id, row.value);
  }

  function PlannedRow(req: Request, plan: Plan, now: Time): Transfer {
    var t := NewTransfer(req, plan.source, plan.destination, plan.conversion, now);
    Transition(t, SourceDebited, now).value
  }

  lemma {:induction false} PlannedRowOk(p: Policy, accounts: seq<Account>, req: Request, route: RouteConfig,
      limit: Option<int>, now: Time)
    requires p.Valid() && ValidRoute(route) && PlanDebit(accounts, req, route, limit, now).Ok?
    ensures var row := PlannedRow(req, PlanDebit(accounts, req, route, limit, now).value, now);
            TransferOk(p, accounts, row) && row.status == SourceDebited && !WasSubmitted(row)
  {
    var plan := PlanDebit(accounts, req, route, limit, now).value;
    TransitionExtendsPath(NewTransfer(req, plan.source, plan.destination, plan.conversion, now), SourceDebited, now);
  }

  lemma {:induction false} DebitIsAccepted(p: Policy, opening: seq<int>, db: Db, req: Request, route: RouteConfig,
      limit: Option<int>, now: Time)
    requires DbInv(p, opening, db) && ValidRoute(route)
    requires PlanDebit(db.book.accounts, req, route, limit, now).Ok?
    ensures var plan := PlanDebit(db.book.accounts, req, route, limit, now).value;
            var j := DebitJournal(db.book.accounts, |db.transfers|, PlannedRow(req, plan, now));
            Post(db.book, j.kind, j.transfer, j.postings).Ok?
  {
    hide Post, Charted, RowsOk, BalancesMatch;
    var plan := PlanDebit(db.book.accounts, req, route, limit, now).value;
    var j := DebitJournal(db.book.accounts, |db.transfers|, PlannedRow(req, plan, now));
    PairIsAccepted(db.book, j, j.postings[0], j.postings[1]);
  }

  lemma {:induction false} DebitUnfolds(db: Db, req: Request, route: RouteConfig, limit: Option<int>, now: Time,
      row: Transfer, j: Journal)
    requires ValidRoute(route) && !KeyTaken(db.transfers, req.user, req.key)
    requires PlanDebit(db.book.accounts, req, route, limit, now).Ok?
    requires row == PlannedRow(req, PlanDebit(db.book.accounts, req, route, limit, now).value, now)
    requires j == DebitJournal(db.book.accounts, |db.transfers|, row)
    requires Post(db.book, j.kind, j.transfer, j.postings).Ok?
    ensures DebitSource(db, req, route, limit, now)
         == Ok(Db(Post(db.book, j.kind, j.transfer, j.postings).value, db.transfers + [row]))
  {
    var plan := PlanDebit(db.book.accounts, req, route, limit, now).value;
    var t := NewTransfer(req, plan.source, plan.destination, plan.conversion, now);
    assert j.postings == DebitPostings(t, plan.clearing);
  }

  lemma {:induction false} PlanRefusesTheRequest(accounts: seq<Account>, req: Request, route: RouteConfig,
      limit: Option<int>, now: Time)
    requires Charted(accounts) && ValidRoute(route) && PlanDebit(accounts, req, route, limit, now).Err?
    ensures PlanDebit(accounts, req, route, limit, now).error.Domain?
  {
  }

  /** `base` and `bonus` are what `points` earn on the route at `now`: two roundings down. */
  predicate IsPrice(base: int, bonus: int, points: int, route: RouteConfig, now: Time) {
    && route.rate.Some?
    && IsFloor(base, points * route.rate.value.numerator, route.rate.value.denominator)
    && IsFloor(bonus, base * AppliedBps(route.bonus, now), BPS_DENOMINATOR)
  }

  /** The transfer pays what its source points earn on the route at `now`. */
  ghost predicate PaysThePrice(t: Transfer, route: RouteConfig, now: Time) {
    exists base, bonus :: IsPrice(base, bonus, t.sourcePoints, route, now) && t.destinationPoints == base + bonus
  }

  lemma {:induction false} PlannedRowPaysThePrice(accounts: seq<Account>, req: Request, route: RouteConfig,
      limit: Option<int>, now: Time)
    requires ValidRoute(route) && PlanDebit(accounts, req, route, limit, now).Ok?
    ensures PaysThePrice(PlannedRow(req, PlanDebit(accounts, req, route, limit, now).value, now), route, now)
  {
    var plan := PlanDebit(accounts, req, route, limit, now).value;
    assert IsPrice(plan.conversion.basePoints, plan.conversion.bonusPoints, req.points, route, now);
  }

  /** The debit committed: one new SOURCE_DEBITED transfer for this request, nothing else. */
  ghost predicate Creates(p: Policy, opening: seq<int>, db: Db, req: Request, now: Time, after: Db) {
    && !KeyTaken(db.transfers, req.user, req.key)
    && |after.transfers| == |db.transfers| + 1
    && after.transfers[..|db.transfers|] == db.transfers
    && (var row := after.transfers[|db.transfers|];
        && row.status == SourceDebited && !WasSubmitted(row)
        && row.createdAt == now && row.user == req.user && row.key == req.key
        && row.sourceProgram == req.sourceProgram && row.destinationProgram == req.destinationProgram
        && row.sourcePoints == req.points
        && row.failureCode.None? && row.confirmation.None? && row.nextCheckAt.None?)
    && SameShape(db.book.accounts, after.book.accounts)
    && DbInv(p, opening, after)
  }

  /**
   The debit transaction either creates one SOURCE_DEBITED transfer, which pays what the route's
   own rate and bonus earn on the requested points, or fails on the request
   (a business error, or a key that already has a transfer), never in the ledger or the state
   machine.
   */
  lemma {:induction false} DebitSucceedsOrRefuses(p: Policy, opening: seq<int>, db: Db, req: Request,
      route: RouteConfig, limit: Option<int>, now: Time)
    requires DbInv(p, opening, db) && ValidRoute(route)
    ensures match DebitSource(db, req, route, limit, now)
            case Ok(after) =>
              Creates(p, opening, db, req, now, after) && PaysThePrice(after.transfers[|db.transfers|], route, now)
            case Err(e) => e.Domain? || (e == DuplicateKey && KeyTaken(db.transfers, req.user, req.key))
  {
    hide DbInv, Charted, PaysThePrice;
    InvariantParts(p, opening, db);
    var planned := PlanDebit(db.book.accounts, req, route, limit, now);
    if planned.Err? {
      PlanRefusesTheRequest(db.book.accounts, req, route, limit, now);
    }
    if planned.Ok? && !KeyTaken(db.transfers, req.user, req.key) {
      var row := PlannedRow(req, planned.value, now);
      var j := DebitJournal(db.book.accounts, |db.transfers|, row);
      PlannedRowOk(p, db.book.accounts, req, route, limit, now);
      PlannedRowPaysThePrice(db.book.accounts, req, route, limit, now);
      DebitIsAccepted(p, opening, db, req, route, limit, now);
      DebitUnfolds(db, req, route, limit, now, row, j);
      PostIsPosted(db.book, j);
      CreationKeepsInvariant(p, opening, db, row, j);
    }
  }

  /** Everything the debit asks of the request, the route and the accounts. */
  predicate Acceptable(accounts: seq<Account>, req: Request, route: RouteConfig, limit: Option<int>, now: Time)
    requires ValidRoute(route)
  {
    && req.sourceProgram != req.destinationProgram
    && (limit.Some? ==> req.points <= limit.value)
    && route.source.active && route.destination.active
    && route.rate.Some? && Allows(route.rate.value, req.points)
    && req.points * route.rate.value.numerator >= route.rate.value.denominator
    && HasAccount(accounts, req.user, req.destinationProgram)
    && exists a :: 0 <= a < |accounts| && OwnedBy(accounts, a, req.user, req.sourceProgram)
                   && accounts[a].balance >= req.points
  }

  predicate HasAccount(accounts: seq<Account>, user: string, program: nat) {
    exists a :: 0 <= a < |accounts| && OwnedBy(accounts, a, user, program)
  }

  lemma {:induction false} PlanAcceptsIff(accounts: seq<Account>, req: Request, route: RouteConfig, limit: Option<int>,
      now: Time)
    requires Charted(accounts) && ValidRoute(route)
    ensures PlanDebit(accounts, req, route, limit, now).Ok? <==> Acceptable(accounts, req, route, limit, now)
    ensures PlanDebit(accounts, req, route, limit, now) == Err(Domain(InsufficientBalance)) ==>
              && HasAccount(accounts, req.user, req.sourceProgram)
              && forall a :: 0 <= a < |accounts| && OwnedBy(accounts, a, req.user, req.sourceProgram) ==>
                               accounts[a].balance < req.points
    ensures PlanDebit(accounts, req, route, limit, now) == Err(Domain(AccountNotFound)) ==>
              || !HasAccount(accounts, req.user, req.sourceProgram)
              || !HasAccount(accounts, req.user, req.destinationProgram)
    ensures PlanDebit(accounts, req, route, limit, now) == Err(Domain(ProgramInactive)) ==>
              !route.source.active || !route.destination.active
    ensures PlanDebit(accounts, req, route, limit, now) == Err(Domain(RouteNotSupported)) ==> route.rate.None?
    ensures PlanDebit(accounts, req, route, limit, now) == Err(Domain(SameProgram)) <==>
            req.sourceProgram == req.destinationProgram
  {
    hide Charted, HasAccount, OwnedBy, Find, CalculateConversion, Allows;
    LookupFinds(accounts, req.user, req.sourceProgram);
    LookupFinds(accounts, req.user, req.destinationProgram);
    if route.rate.Some? {
      ConversionOkIff(route.rate.value, req.points, route.bonus, now);
    }
  }

  /** Looking up a user's account finds it, and its program then has its system accounts. */
  lemma {:induction false} LookupFinds(accounts: seq<Account>, user: string, program: nat)
    requires Charted(accounts)
    ensures Find(accounts, OfUser(user), program).Some? <==> HasAccount(accounts, user, program)
    ensures forall a :: 0 <= a < |accounts| && OwnedBy(accounts, a, user, program) ==>
                          Find(accounts, OfUser(user), program) == Some(a)
    ensures Find(accounts, OfUser(user), program).Some? ==>
              && OwnedBy(accounts, Find(accounts, OfUser(user), program).value, user, program)
              && SystemAccount(accounts, Clearing, program).Ok?
  {
    var found := Find(accounts, OfUser(user), program);
    if found.Some? {
      assert OwnedBy(accounts, found.value, user, program);
    }
  }

  /** A conversion is accepted exactly when the amount is allowed and reaches one destination point. */
  lemma {:induction false} ConversionOkIff(rate: RateRule, points: int, bonus: Option<BonusRule>, now: Time)
    requires ValidRate(rate) && (bonus.Some? ==> ValidBonus(bonus.value))
    ensures var r := CalculateConversion(rate, points, bonus, now);
            && (r.Ok? <==> Allows(rate, points) && points * rate.numerator >= rate.denominator)
            && (r.Err? ==> r.error in {BelowMinimum, AboveMaximum, InvalidIncrement, ZeroDestinationPoints})
  {
    ConversionPaysEarned(rate, points, bonus, now);
  }

  /** A debit commits if and only if the request is acceptable and its key has no transfer. */
  lemma {:induction false} DebitCommitsIff(p: Policy, opening: seq<int>, db: Db, req: Request, route: RouteConfig,
      limit: Option<int>, now: Time)
    requires DbInv(p, opening, db) && ValidRoute(route)
    ensures DebitSource(db, req, route, limit, now).Ok? <==>
            Acceptable(db.book.accounts, req, route, limit, now) && !KeyTaken(db.transfers, req.user, req.key)
  {
    hide DbInv, PlanDebit, Acceptable, Charted;
    InvariantParts(p, opening, db);
    PlanAcceptsIff(db.book.accounts, req, route, limit, now);
    var planned := PlanDebit(db.book.accounts, req, route, limit, now);
    if planned.Ok? && !KeyTaken(db.transfers, req.user, req.key) {
      var row := PlannedRow(req, planned.value, now);
      DebitIsAccepted(p, opening, db, req, route, limit, now);
      DebitUnfolds(db, req, route, limit, now, row, DebitJournal(db.book.accounts, |db.transfers|, row));
    }
  }

  lemma {:induction false} SubmitSucceeds(p: Policy, opening: seq<int>, db: Db, id: nat, now: Time)
    requires DbInv(p, opening, db) && id < |db.transfers|
    ensures MarkSubmitted(db, id, now).Ok? <==> db.transfers[id].status == SourceDebited
    ensures db.transfers[id].status == SourceDebited ==>
              ChangesRow(p, opening, db, id, SubmittedRow(db.transfers[id], now), MarkSubmitted(db, id, now))
  {
    hide DbInv;
    var t := db.transfers[id];
    InvariantParts(p, opening, db);
    assert TransferOk(p, db.book.accounts, t);
    if t.status == SourceDebited {
      SubmitKeepsRow(p, t, now);
      RowChangeSucceeds(p, opening, db, id, SubmittedRow(t, now));
    }
  }

  /** The row after the API records an outcome. */
  function OutcomeRow(t: Transfer, outcome: Outcome, delay: nat, now: Time): Result<Transfer, SagaError> {
    if t.status != PartnerSubmitted then Ok(t)
    else
      match outcome
      case Success(c) => if c != "" then SettledRow(t, c, now) else UnknownOutcomeRow(t, delay, now)
      case Rejected => ReversedRow(t, PartnerRejected, now)
      case NotSent => ReversedRow(t, PartnerUnavailable, now)
      case Unknown => UnknownOutcomeRow(t, delay, now)
  }

  lemma {:induction false} NoChange(p: Policy, opening: seq<int>, db: Db, id: nat)
    requires DbInv(p, opening, db) && id < |db.transfers|
    ensures ChangesRow(p, opening, db, id, Ok(db.transfers[id]), Ok(db))
  {
    assert TransferOk(p, db.book.accounts, db.transfers[id]);
    assert db.transfers[id := db.transfers[id]] == db.transfers;
  }

  /** Recording an outcome never fails. */
  lemma {:induction false} OutcomeSucceeds(p: Policy, opening: seq<int>, db: Db, id: nat, outcome: Outcome,
      delay: nat, now: Time)
    requires DbInv(p, opening, db) && id < |db.transfers|
    ensures ChangesRow(p, opening, db, id, OutcomeRow(db.transfers[id], outcome, delay, now),
                       ApplyOutcome(db, id, outcome, delay, now))
  {
    hide DbInv;
    var t := db.transfers[id];
    InvariantParts(p, opening, db);
    assert TransferOk(p, db.book.accounts, t);
    if t.status != PartnerSubmitted {
      NoChange(p, opening, db, id);
    } else if outcome.Success? && outcome.confirmation != "" {
      SettleSucceeds(p, opening, db, id, outcome.confirmation, now);
    } else if outcome.Rejected? {
      ReverseSucceeds(p, opening, db, id, PartnerRejected, now);
    } else if outcome.NotSent? {
      ReverseSucceeds(p, opening, db, id, PartnerUnavailable, now);
    } else {
      UnknownKeepsRow(p, t, delay, now);
      RowChangeSucceeds(p, opening, db, id, UnknownOutcomeRow(t, delay, now));
    }
  }

  function InterruptedRow(t: Transfer, now: Time): Result<Transfer, SagaError> {
    if t.status == SourceDebited then ReversedRow(t, TransferInterrupted, now) else Ok(t)
  }

  /** The reversal of an interrupted transfer never fails. */
  lemma {:induction false} InterruptedSucceeds(p: Policy, opening: seq<int>, db: Db, id: nat, now: Time)
    requires DbInv(p, opening, db) && id < |db.transfers|
    ensures ChangesRow(p, opening, db, id, InterruptedRow(db.transfers[id], now), ReverseInterrupted(db, id, now))
  {
    if db.transfers[id].status == SourceDebited {
      ReverseSucceeds(p, opening, db, id, TransferInterrupted, now);
    } else {
      NoChange(p, opening, db, id);
    }
  }

  /** Applying a status answer never fails. */
  lemma {:induction false} AnswerSucceeds(p: Policy, opening: seq<int>, db: Db, id: nat, answer: Answer, now: Time)
    requires DbInv(p, opening, db) && id < |db.transfers|
    ensures ChangesRow(p, opening, db, id, CheckedRow(p, db.transfers[id], answer, now),
                       ApplyAnswer(p, db, id, answer, now))
  {
    hide DbInv;
    var t := db.transfers[id];
    if !Verifiable(t.status) {
      NoChange(p, opening, db, id);
    } else if answer.HasCredit? && answer.confirmation != "" {
      SettleSucceeds(p, opening, db, id, answer.confirmation, now);
    } else if answer.NotFound? && now >= DecidableAt(p, t) {
      ReverseSucceeds(p, opening, db, id, PartnerNotReceived, now);
    } else {
      InconclusiveCheckSucceeds(p, opening, db, id, now);
    }
  }

  lemma {:induction false} InconclusiveCheckSucceeds(p: Policy, opening: seq<int>, db: Db, id: nat, now: Time)
    requires DbInv(p, opening, db) && id < |db.transfers| && Verifiable(db.transfers[id].status)
    ensures ChangesRow(p, opening, db, id, RecheckedRow(p, db.transfers[id], now),
                       UpdateRow(db, id, RecheckedRow(p, db.transfers[id], now)))
    ensures ChangesRow(p, opening, db, id, RetriedRow(p, db.transfers[id], now),
                       UpdateRow(db, id, RetriedRow(p, db.transfers[id], now)))
  {
    hide DbInv;
    var t := db.transfers[id];
    InvariantParts(p, opening, db);
    assert TransferOk(p, db.book.accounts, t);
    RecheckKeepsRow(p, t, now);
    RowChangeSucceeds(p, opening, db, id, RecheckedRow(p, t, now));
    RetryKeepsRow(p, t, now);
    RowChangeSucceeds(p, opening, db, id, RetriedRow(p, t, now));
  }

  // ---------------------------------------------------------------- what the balances are

  /** Points of program `program` that are debited and neither settled nor returned. */
  function HeldInClearing(transfers: seq<Transfer>, program: nat): int {
    if transfers == [] then 0
    else
      var n := |transfers| - 1;
      HeldInClearing(transfers[..n], program)
      + if InFlight(transfers[n].status) && transfers[n].sourceProgram == program
        then transfers[n].sourcePoints else 0
  }

  /** Source points a user gave up from account `a`: everything not returned. */
  function Spent(transfers: seq<Transfer>, a: nat): int {
    if transfers == [] then 0
    else
      var n := |transfers| - 1;
      Spent(transfers[..n], a)
      + if transfers[n].sourceAccount == a && transfers[n].status != Reversed then transfers[n].sourcePoints else 0
  }

  /** Destination points credited to account `a`: completed transfers only. */
  function Received(transfers: seq<Transfer>, a: nat): int {
    if transfers == [] then 0
    else
      var n := |transfers| - 1;
      Received(transfers[..n], a)
      + if transfers[n].destinationAccount == a && transfers[n].status == Completed
        then transfers[n].destinationPoints else 0
  }

  lemma {:induction false} EffectOfJournals(accounts: seq<Account>, id: nat, t: Transfer, a: nat)
    ensures Effect(accounts, id, t, a)
         == Net(DebitJournal(accounts, id, t).postings, a)
            + (if t.status == Completed then Net(SettleJournal(accounts, id, t).postings, a)
               else if t.status == Reversed then Net(ReversalJournal(accounts, id, t).postings, a)
               else 0)
  {
    var d := DebitJournal(accounts, id, t);
    EntriesAppend([], d, a);
    assert [] + [d] == [d];
    if t.status == Completed {
      EntriesAppend([d], SettleJournal(accounts, id, t), a);
    } else if t.status == Reversed {
      EntriesAppend([d], ReversalJournal(accounts, id, t), a);
    }
  }

  lemma {:induction false} EffectOnSystemAndUsers(p: Policy, accounts: seq<Account>, id: nat, t: Transfer, a: nat)
    requires Charted(accounts) && TransferOk(p, accounts, t) && a < |accounts|
    ensures accounts[a].holder.TransferClearing? ==>
              Effect(accounts, id, t, a) ==
              if InFlight(t.status) && t.sourceProgram == accounts[a].program then t.sourcePoints else 0
    ensures accounts[a].holder.User? ==>
              Effect(accounts, id, t, a) ==
              - (if t.sourceAccount == a && t.status != Reversed then t.sourcePoints else 0)
              + (if t.destinationAccount == a && t.status == Completed then t.destinationPoints else 0)
  {
    EffectOfJournals(accounts, id, t, a);
    var d, s, r := DebitJournal(accounts, id, t).postings,
        SettleJournal(accounts, id, t).postings, ReversalJournal(accounts, id, t).postings;
    NetOfTwo(d[0], d[1], a);
    NetOfTwo(r[0], r[1], a);
    NetOfFour(s[0], s[1], s[2], s[3], a);
    NetOfTwo(s[0], s[1], a);
    NetOfTwo(s[2], s[3], a);
  }

  lemma {:induction false} AllButLast(p: Policy, accounts: seq<Account>, transfers: seq<Transfer>)
    requires AllOk(p, accounts, transfers) && transfers != []
    ensures AllOk(p, accounts, transfers[..|transfers| - 1])
    ensures TransferOk(p, accounts, transfers[|transfers| - 1])
  {
  }

  lemma {:induction false} SumOnClearing(p: Policy, accounts: seq<Account>, transfers: seq<Transfer>, a: nat)
    requires Charted(accounts) && a < |accounts| && accounts[a].holder.TransferClearing?
    requires AllOk(p, accounts, transfers)
    ensures SumEffects(accounts, transfers, a) == HeldInClearing(transfers, accounts[a].program)
  {
    hide Charted, AllOk, TransferOk, Effect, InFlight;
    if transfers != [] {
      var n := |transfers| - 1;
      AllButLast(p, accounts, transfers);
      SumOnClearing(p, accounts, transfers[..n], a);
      EffectOnSystemAndUsers(p, accounts, n, transfers[n], a);
    }
  }

  lemma {:induction false} SumOnUser(p: Policy, accounts: seq<Account>, transfers: seq<Transfer>, a: nat)
    requires Charted(accounts) && a < |accounts| && accounts[a].holder.User?
    requires AllOk(p, accounts, transfers)
    ensures SumEffects(accounts, transfers, a) == Received(transfers, a) - Spent(transfers, a)
  {
    hide Charted, AllOk, TransferOk, Effect, InFlight;
    if transfers != [] {
      var n := |transfers| - 1;
      AllButLast(p, accounts, transfers);
      SumOnUser(p, accounts, transfers[..n], a);
      EffectOnSystemAndUsers(p, accounts, n, transfers[n], a);
    }
  }

  /**
   In every committed state the clearing balance of a program is its opening balance plus the
   points of its in-flight transfers, and a user's balance is the opening balance minus what
   was spent and not returned plus what completed transfers credited.
   */
  lemma {:induction false} BalancesAreExplained(p: Policy, opening: seq<int>, db: Db, a: nat)
    requires DbInv(p, opening, db) && a < |db.book.accounts|
    ensures db.book.accounts[a].holder.TransferClearing? ==>
              db.book.accounts[a].balance ==
              opening[a] + HeldInClearing(db.transfers, db.book.accounts[a].program)
    ensures db.book.accounts[a].holder.User? ==>
              && db.book.accounts[a].balance
              == opening[a] - Spent(db.transfers, a) + Received(db.transfers, a)
              && db.book.accounts[a].balance >= 0
  {
    if db.book.accounts[a].holder.TransferClearing? {
      SumOnClearing(p, db.book.accounts, db.transfers, a);
    } else if db.book.accounts[a].holder.User? {
      SumOnUser(p, db.book.accounts, db.transfers, a);
    }
  }
}
