/**
 The double-entry ledger. An account id is its position in the accounts table; ids are only
 compared and ordered, so nothing depends on that choice. A journal carries its own entries.

 The stored balance of an account is a running total; `Consistent` ties it to the entries.
 `Post` is the specification of posting a journal, and `Session.PostJournal` is the code
 that accumulates net changes in a dictionary and updates balances in ascending id order.
 */
module Ledger {
  import opened Wrappers

  /** A user's account has a user and a member id; a system account has neither. */
  datatype Holder =
    | User(userId: string, memberId: string)
    | TransferClearing
    | PartnerSettlement

  datatype Account = Account(holder: Holder, program: nat, balance: int)

  datatype Direction = Debit | Credit

  datatype Posting = Posting(account: nat, program: nat, direction: Direction, amount: int) {
    function Signed(): int {
      if direction.Credit? then amount else -amount
    }
  }

  datatype JournalType = Seed | TransferDebit | TransferSettle | TransferReversal

  datatype Journal = Journal(kind: JournalType, transfer: Option<nat>, postings: seq<Posting>)

  datatype Book = Book(accounts: seq<Account>, journals: seq<Journal>)

  datatype LedgerError =
    | InvalidJournal
    | JournalAlreadyPosted
    | IntegrityViolation
    | Overdrawn

  // ---------------------------------------------------------------- signed sums

  /** The net change `postings` make to account `a`. */
  function Net(postings: seq<Posting>, a: nat): int {
    if postings == [] then 0
    else
      var last := postings[|postings| - 1];
      Net(postings[..|postings| - 1], a) + if last.account == a then last.Signed() else 0
  }

  /** The net change `postings` make to program `p`. */
  function NetOfProgram(postings: seq<Posting>, p: nat): int {
    if postings == [] then 0
    else
      var last := postings[|postings| - 1];
      NetOfProgram(postings[..|postings| - 1], p) + if last.program == p then last.Signed() else 0
  }

  /** All entries of a list of journals, in posting order. */
  function Entries(journals: seq<Journal>): seq<Posting> {
    if journals == [] then []
    else Entries(journals[..|journals| - 1]) + journals[|journals| - 1].postings
  }

  ghost predicate ValidPostings(postings: seq<Posting>) {
    && |postings| >= 2
    && (forall i :: 0 <= i < |postings| ==> postings[i].amount > 0)
    && IsBalanced(postings)
  }

  /** The postings net to zero in every program. */
  ghost predicate IsBalanced(postings: seq<Posting>) {
    forall p: nat :: NetOfProgram(postings, p) == 0
  }

  /** The composite foreign key: an entry names an existing account of its own program. */
  predicate PostingsMatch(accounts: seq<Account>, postings: seq<Posting>) {
    forall i :: 0 <= i < |postings| ==>
                  && postings[i].account < |accounts|
                  && accounts[postings[i].account].program == postings[i].program
  }

  predicate HasJournal(journals: seq<Journal>, transfer: Option<nat>, kind: JournalType) {
    exists i :: 0 <= i < |journals| && journals[i].transfer == transfer && journals[i].kind == kind
  }

  /** Some user balance would be driven below zero (the CHECK constraint on accounts). */
  predicate WouldOverdraw(accounts: seq<Account>, postings: seq<Posting>) {
    exists a :: 0 <= a < |accounts| && OverdrawnAt(accounts, a, Net(postings, a))
  }

  predicate OverdrawnAt(accounts: seq<Account>, a: nat, delta: int)
    requires a < |accounts|
  {
    accounts[a].holder.User? && delta != 0 && accounts[a].balance + delta < 0
  }

  function ApplyNet(accounts: seq<Account>, postings: seq<Posting>): (r: seq<Account>)
    ensures |r| == |accounts|
  {
    seq(|accounts|, i requires 0 <= i < |accounts| =>
      accounts[i].(balance := accounts[i].balance + Net(postings, i)))
  }

  /** Posting a journal: what it changes, and every way it can be refused. */
  ghost function Post(book: Book, kind: JournalType, transfer: Option<nat>, postings: seq<Posting>)
    : Result<Book, LedgerError>
  {
    if !ValidPostings(postings) then Err(InvalidJournal)
    else if (kind == Seed) != transfer.None? then Err(IntegrityViolation)
    else if transfer.Some? && HasJournal(book.journals, transfer, kind) then Err(JournalAlreadyPosted)
    else if !PostingsMatch(book.accounts, postings) then Err(IntegrityViolation)
    else if WouldOverdraw(book.accounts, postings) then Err(Overdrawn)
    else Ok(Book(ApplyNet(book.accounts, postings),
                 book.journals + [Journal(kind, transfer, postings)]))
  }

  // ---------------------------------------------------------------- the loops of the source

  method ValidateJournal(postings: seq<Posting>) returns (valid: bool)
    ensures valid <==> ValidPostings(postings)
  {
    if |postings| < 2 {
      return false;
    }
    for i := 0 to |postings|
      invariant forall k :: 0 <= k < i ==> postings[k].amount > 0
    {
      if postings[i].amount <= 0 {
        return false;
      }
    }

    var net: map<nat, int> := map[];
    for i := 0 to |postings|
      invariant forall p: nat :: NetOfProgram(postings[..i], p) == if p in net then net[p] else 0
    {
      var p := postings[i].program;
      net := net[p := (if p in net then net[p] else 0) + postings[i].Signed()];
      assert postings[..i + 1][..i] == postings[..i];
    }
    assert postings[..|postings|] == postings;
    valid := forall p :: p in net ==> net[p] == 0;
    assert valid ==> forall p: nat :: NetOfProgram(postings, p) == 0;
    assert forall p :: p in net ==> net[p] == NetOfProgram(postings, p);
  }

  method NetBalanceChanges(postings: seq<Posting>) returns (changes: map<nat, int>)
    ensures forall a :: a in changes.Keys <==> Touches(postings, a)
    ensures forall a :: a in changes ==> changes[a] == Net(postings, a)
  {
    changes := map[];
    for i := 0 to |postings|
      invariant forall a: nat :: a in changes.Keys <==> exists k :: 0 <= k < i && postings[k].account == a
      invariant forall a: nat :: Net(postings[..i], a) == if a in changes then changes[a] else 0
    {
      var a := postings[i].account;
      changes := changes[a := (if a in changes then changes[a] else 0) + postings[i].Signed()];
      assert postings[..i + 1][..i] == postings[..i];
    }
    assert postings[..|postings|] == postings;
  }

  predicate Touches(postings: seq<Posting>, a: nat) {
    exists i :: 0 <= i < |postings| && postings[i].account == a
  }

  predicate Ascending(ids: seq<nat>) {
    forall i, j :: 0 <= i < j < |ids| ==> ids[i] < ids[j]
  }

  lemma {:induction false} HasLeast(keys: set<nat>)
    requires keys != {}
    ensures exists k :: k in keys && forall other <- keys :: k <= other
  {
    var k :| k in keys;
    if forall other <- keys :: k <= other {
    } else {
      var smaller :| smaller in keys && smaller < k;
      var rest := set x | x in keys && x < k;
      assert smaller in rest && k !in rest;
      HasLeast(rest);
      var least :| least in rest && forall other <- rest :: least <= other;
      forall other | other in keys
        ensures least <= other
      {
        assert other < k ==> other in rest;
      }
    }
  }

  /** The keys of a dictionary in ascending order. */
  method SortedKeys(keys: set<nat>) returns (ids: seq<nat>)
    ensures Ascending(ids)
    ensures forall a :: a in ids <==> a in keys
  {
    ids := [];
    var left := keys;
    while left != {}
      invariant left <= keys
      invariant Ascending(ids)
      invariant forall a :: a in ids <==> a in keys - left
      invariant forall a <- ids, b <- left :: a < b
    {
      HasLeast(left);
      var k :| k in left && forall other <- left :: k <= other;
      assert forall i :: 0 <= i < |ids| ==> ids[i] in ids;
      ids := ids + [k];
      left := left - {k};
    }
  }

  class Session {
    var accounts: seq<Account>
    var journals: seq<Journal>

    constructor (accounts: seq<Account>, journals: seq<Journal>)
      ensures Contents() == Book(accounts, journals)
    {
      this.accounts := accounts;
      this.journals := journals;
    }

    function Contents(): Book
      reads this
    {
      Book(accounts, journals)
    }

    /** After an error the session may hold half the changes: the caller rolls back. */
    method PostJournal(kind: JournalType, transfer: Option<nat>, postings: seq<Posting>)
      returns (r: Result<(), LedgerError>)
      modifies this
      ensures r.Ok? ==> Post(old(Contents()), kind, transfer, postings) == Ok(Contents())
      ensures r.Err? ==> Post(old(Contents()), kind, transfer, postings) == Err(r.error)
    {
      var valid := ValidateJournal(postings);
      if !valid {
        return Err(InvalidJournal);
      }
      if (kind == Seed) != transfer.None? {
        return Err(IntegrityViolation);
      }
      if transfer.Some? && HasJournal(journals, transfer, kind) {
        return Err(JournalAlreadyPosted);
      }
      journals := journals + [Journal(kind, transfer, postings)];
      if !PostingsMatch(accounts, postings) {
        return Err(IntegrityViolation);
      }

      r := UpdateBalances(postings);
    }

    /** UPDATE accounts SET balance = balance + delta, under the CHECK on user balances. */
    method AddToBalance(a: nat, delta: int) returns (accepted: bool)
      requires a < |accounts| && delta != 0
      modifies this`accounts
      ensures accepted <==> !OverdrawnAt(old(accounts), a, delta)
      ensures accounts == if accepted
                          then old(accounts)[a := old(accounts)[a].(balance := old(accounts)[a].balance + delta)]
                          else old(accounts)
    {
      if accounts[a].holder.User? && accounts[a].balance + delta < 0 {
        return false;
      }
      accounts := accounts[a := accounts[a].(balance := accounts[a].balance + delta)];
      return true;
    }

    method UpdateBalances(postings: seq<Posting>) returns (r: Result<(), LedgerError>)
      requires PostingsMatch(accounts, postings)
      modifies this`accounts
      ensures r.Ok? ==> !WouldOverdraw(old(accounts), postings)
                        && accounts == ApplyNet(old(accounts), postings)
      ensures r.Err? ==> r.error == Overdrawn && WouldOverdraw(old(accounts), postings)
    {
      hide Net, ApplyTo;
      var changes := NetBalanceChanges(postings);
      var ids := SortedKeys(changes.Keys);
      ghost var done: set<nat> := {};
      ApplyToNone(accounts, postings);
      for i := 0 to |ids|
        invariant forall a :: a in done <==> a in ids[..i]
        invariant accounts == ApplyTo(old(accounts), postings, done)
        invariant forall a :: a in done ==> a < |accounts| && !OverdrawnAt(old(accounts), a, Net(postings, a))
      {
        var a := ids[i];
        assert Touches(postings, a) && a !in done;
        ApplyToOneMore(old(accounts), postings, done, a);
        if changes[a] != 0 {
          var accepted := AddToBalance(a, changes[a]);
          if !accepted {
            assert OverdrawnAt(old(accounts), a, Net(postings, a));
            return Err(Overdrawn);
          }
        }
        done := done + {a};
      }
      ApplyToAll(old(accounts), postings, done);
      return Ok(());
    }
  }

  /** Balances after the net changes of the accounts in `done`, and no others, were applied. */
  function ApplyTo(accounts: seq<Account>, postings: seq<Posting>, done: set<nat>): (r: seq<Account>)
    ensures |r| == |accounts|
  {
    seq(|accounts|, a requires 0 <= a < |accounts| =>
      if a in done then accounts[a].(balance := accounts[a].balance + Net(postings, a)) else accounts[a])
  }

  lemma {:induction false} ApplyToNone(accounts: seq<Account>, postings: seq<Posting>)
    ensures ApplyTo(accounts, postings, {}) == accounts
  {
  }

  lemma {:induction false} ApplyToOneMore(accounts: seq<Account>, postings: seq<Posting>, done: set<nat>, a: nat)
    requires a < |accounts| && a !in done
    ensures ApplyTo(accounts, postings, done)[a] == accounts[a]
    ensures ApplyTo(accounts, postings, done + {a}) ==
            ApplyTo(accounts, postings, done)[a := accounts[a].(balance := accounts[a].balance + Net(postings, a))]
    ensures Net(postings, a) == 0 ==> ApplyTo(accounts, postings, done + {a}) == ApplyTo(accounts, postings, done)
  {
  }

  /** Once every touched account is done, the whole journal is applied, and no account was overdrawn. */
  lemma {:induction false} ApplyToAll(accounts: seq<Account>, postings: seq<Posting>, done: set<nat>)
    requires forall a :: Touches(postings, a) ==> a in done
    requires forall a :: a in done ==> a < |accounts| && !OverdrawnAt(accounts, a, Net(postings, a))
    ensures ApplyTo(accounts, postings, done) == ApplyNet(accounts, postings)
    ensures !WouldOverdraw(accounts, postings)
  {
    forall a: nat | a !in done
      ensures Net(postings, a) == 0
    {
      NetUntouched(postings, a);
    }
  }

  // ---------------------------------------------------------------- laws of signed sums

  lemma {:induction false} NetUntouched(postings: seq<Posting>, a: nat)
    requires !Touches(postings, a)
    ensures Net(postings, a) == 0
  {
    if postings != [] {
      assert postings[|postings| - 1].account != a;
      NetUntouched(postings[..|postings| - 1], a);
    }
  }

  lemma {:induction false} NetConcat(x: seq<Posting>, y: seq<Posting>, a: nat)
    ensures Net(x + y, a) == Net(x, a) + Net(y, a)
  {
    if y == [] {
      assert x + y == x;
    } else {
      assert (x + y)[..|x + y| - 1] == x + y[..|y| - 1];
      NetConcat(x, y[..|y| - 1], a);
    }
  }

  lemma {:induction false} NetOfProgramConcat(x: seq<Posting>, y: seq<Posting>, p: nat)
    ensures NetOfProgram(x + y, p) == NetOfProgram(x, p) + NetOfProgram(y, p)
  {
    if y == [] {
      assert x + y == x;
    } else {
      assert (x + y)[..|x + y| - 1] == x + y[..|y| - 1];
      NetOfProgramConcat(x, y[..|y| - 1], p);
    }
  }

  lemma {:induction false} EntriesAppend(journals: seq<Journal>, j: Journal, a: nat)
    ensures Entries(journals + [j]) == Entries(journals) + j.postings
    ensures Net(Entries(journals + [j]), a) == Net(Entries(journals), a) + Net(j.postings, a)
  {
    assert (journals + [j])[..|journals|] == journals;
    NetConcat(Entries(journals), j.postings, a);
  }

  // ---------------------------------------------------------------- the ledger invariants

  ghost predicate Consistent(book: Book) {
    && (forall a :: 0 <= a < |book.accounts| ==>
                      book.accounts[a].balance == Net(Entries(book.journals), a))
    && (forall i :: 0 <= i < |book.journals| ==>
                      && ValidPostings(book.journals[i].postings)
                      && PostingsMatch(book.accounts, book.journals[i].postings))
    && (forall a :: 0 <= a < |book.accounts| && book.accounts[a].holder.User? ==>
                      book.accounts[a].balance >= 0)
  }

  /** Accounts are never created, deleted or moved by a journal: only balances change. */
  predicate SameShape(x: seq<Account>, y: seq<Account>) {
    && |x| == |y|
    && forall a :: 0 <= a < |x| ==> x[a].holder == y[a].holder && x[a].program == y[a].program
  }

  /** With the invariants in force a journal is refused for balance exactly when some user would go negative. */
  lemma {:induction false} OverdraftIffSomeUserNegative(book: Book, postings: seq<Posting>)
    requires Consistent(book)
    ensures WouldOverdraw(book.accounts, postings)
       <==> exists a :: 0 <= a < |book.accounts| && book.accounts[a].holder.User?
                        && book.accounts[a].balance + Net(postings, a) < 0
  {
    if a :| 0 <= a < |book.accounts| && book.accounts[a].holder.User?
            && book.accounts[a].balance + Net(postings, a) < 0 {
      assert OverdrawnAt(book.accounts, a, Net(postings, a));
    }
    if a :| 0 <= a < |book.accounts| && OverdrawnAt(book.accounts, a, Net(postings, a)) {
      assert book.accounts[a].balance + Net(postings, a) < 0;
    }
  }

  /** No transfer has two journals of one type. */
  predicate UniqueJournals(journals: seq<Journal>) {
    forall i, j :: 0 <= i < j < |journals| && journals[i].transfer.Some? ==>
                     journals[i].transfer != journals[j].transfer || journals[i].kind != journals[j].kind
  }

  /**
   A journal is posted if and only if it has two or more postings, all positive, that net to zero
   in every program, belongs to a transfer unless it is a seed, is the first of its type for that
   transfer, names accounts of the postings' own programs, and leaves no user below zero.
   */
  lemma {:induction false} PostAcceptsIff(book: Book, kind: JournalType, transfer: Option<nat>, postings: seq<Posting>)
    requires Consistent(book)
    ensures Post(book, kind, transfer, postings).Ok? <==>
            && |postings| >= 2
            && (forall i :: 0 <= i < |postings| ==> postings[i].amount > 0)
            && IsBalanced(postings)
            && (kind == Seed <==> transfer.None?)
            && (transfer.Some? ==>
                  forall i :: 0 <= i < |book.journals| ==>
                    book.journals[i].transfer != transfer || book.journals[i].kind != kind)
            && (forall i :: 0 <= i < |postings| ==>
                  postings[i].account < |book.accounts|
                  && book.accounts[postings[i].account].program == postings[i].program)
            && (forall a :: 0 <= a < |book.accounts| && book.accounts[a].holder.User? ==>
                  book.accounts[a].balance + Net(postings, a) >= 0)
  {
    OverdraftIffSomeUserNegative(book, postings);
    assert WouldOverdraw(book.accounts, postings) <==>
           !forall a :: 0 <= a < |book.accounts| && book.accounts[a].holder.User? ==>
                          book.accounts[a].balance + Net(postings, a) >= 0;
    assert PostingsMatch(book.accounts, postings) <==>
           forall i :: 0 <= i < |postings| ==>
             postings[i].account < |book.accounts|
             && book.accounts[postings[i].account].program == postings[i].program;
  }

  /** So a transfer is debited, settled and reversed at most once each. */
  lemma {:induction false} PostKeepsJournalsUnique(book: Book, kind: JournalType, transfer: Option<nat>,
      postings: seq<Posting>)
    requires UniqueJournals(book.journals) && Post(book, kind, transfer, postings).Ok?
    ensures UniqueJournals(Post(book, kind, transfer, postings).value.journals)
    ensures Post(book, kind, transfer, postings).value.journals == book.journals + [Journal(kind, transfer, postings)]
    ensures transfer.Some? ==>
              Post(Post(book, kind, transfer, postings).value, kind, transfer, postings) == Err(JournalAlreadyPosted)
  {
    var journals := Post(book, kind, transfer, postings).value.journals;
    assert journals[|book.journals|] == Journal(kind, transfer, postings);
  }

  lemma {:induction false} PostKeepsConsistent(book: Book, kind: JournalType, transfer: Option<nat>,
      postings: seq<Posting>)
    requires Consistent(book)
    requires Post(book, kind, transfer, postings).Ok?
    ensures var after := Post(book, kind, transfer, postings).value;
            && Consistent(after)
            && SameShape(book.accounts, after.accounts)
            && forall a :: 0 <= a < |book.accounts| ==>
                             after.accounts[a].balance == book.accounts[a].balance + Net(postings, a)
  {
    var j := Journal(kind, transfer, postings);
    var after := Post(book, kind, transfer, postings).value;
    forall a | 0 <= a < |after.accounts|
      ensures after.accounts[a].balance == Net(Entries(after.journals), a)
      ensures after.accounts[a].holder.User? ==> after.accounts[a].balance >= 0
    {
      EntriesAppend(book.journals, j, a);
      assert !OverdrawnAt(book.accounts, a, Net(postings, a));
    }
  }

  /** Sum of the balances of the first `n` accounts that belong to program `p`. */
  function ProgramTotal(accounts: seq<Account>, p: nat): int {
    if accounts == [] then 0
    else
      var last := accounts[|accounts| - 1];
      ProgramTotal(accounts[..|accounts| - 1], p) + if last.program == p then last.balance else 0
  }

  /** Net changes of `entries` summed over the first `n` accounts of program `p`. */
  function NetOverAccounts(accounts: seq<Account>, n: nat, entries: seq<Posting>, p: nat): int
    requires n <= |accounts|
  {
    if n == 0 then 0
    else NetOverAccounts(accounts, n - 1, entries, p)
         + if accounts[n - 1].program == p then Net(entries, n - 1) else 0
  }

  lemma {:induction false} NetOverAccountsStep(accounts: seq<Account>, n: nat, entries: seq<Posting>, p: nat)
    requires n <= |accounts| && entries != []
    requires PostingsMatch(accounts, entries)
    ensures NetOverAccounts(accounts, n, entries, p)
         == NetOverAccounts(accounts, n, entries[..|entries| - 1], p)
            + if entries[|entries| - 1].account < n && entries[|entries| - 1].program == p
              then entries[|entries| - 1].Signed() else 0
  {
    if n > 0 {
      NetOverAccountsStep(accounts, n - 1, entries, p);
    }
  }

  lemma {:induction false} NetOverAccountsIsNetOfProgram(accounts: seq<Account>, entries: seq<Posting>, p: nat)
    requires PostingsMatch(accounts, entries)
    ensures NetOverAccounts(accounts, |accounts|, entries, p) == NetOfProgram(entries, p)
  {
    if entries == [] {
      NoEntriesNoNet(accounts, |accounts|, p);
    } else {
      NetOverAccountsStep(accounts, |accounts|, entries, p);
      NetOverAccountsIsNetOfProgram(accounts, entries[..|entries| - 1], p);
    }
  }

  lemma {:induction false} NoEntriesNoNet(accounts: seq<Account>, n: nat, p: nat)
    requires n <= |accounts|
    ensures NetOverAccounts(accounts, n, [], p) == 0
  {
    if n > 0 {
      NoEntriesNoNet(accounts, n - 1, p);
    }
  }

  lemma {:induction false} JournalsNetToZero(accounts: seq<Account>, journals: seq<Journal>, p: nat)
    requires forall i :: 0 <= i < |journals| ==>
                           ValidPostings(journals[i].postings) && PostingsMatch(accounts, journals[i].postings)
    ensures NetOfProgram(Entries(journals), p) == 0
    ensures PostingsMatch(accounts, Entries(journals))
  {
    if journals != [] {
      var front, last := journals[..|journals| - 1], journals[|journals| - 1];
      JournalsNetToZero(accounts, front, p);
      NetOfProgramConcat(Entries(front), last.postings, p);
    }
  }

  lemma {:induction false} TotalIsNetOverAccounts(accounts: seq<Account>, n: nat, entries: seq<Posting>, p: nat)
    requires n <= |accounts|
    requires forall a :: 0 <= a < |accounts| ==> accounts[a].balance == Net(entries, a)
    ensures ProgramTotal(accounts[..n], p) == NetOverAccounts(accounts, n, entries, p)
  {
    if n > 0 {
      assert accounts[..n][..n - 1] == accounts[..n - 1];
      TotalIsNetOverAccounts(accounts, n - 1, entries, p);
    }
  }

  /** Points are neither created nor destroyed: the balances of every program sum to zero. */
  lemma {:induction false} ProgramTotalsAreZero(book: Book, p: nat)
    requires Consistent(book)
    ensures ProgramTotal(book.accounts, p) == 0
  {
    var entries := Entries(book.journals);
    JournalsNetToZero(book.accounts, book.journals, p);
    TotalIsNetOverAccounts(book.accounts, |book.accounts|, entries, p);
    assert book.accounts[..|book.accounts|] == book.accounts;
    NetOverAccountsIsNetOfProgram(book.accounts, entries, p);
  }
}
