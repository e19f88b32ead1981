/**
 Claiming: which transfers are due for a check, and how a claim picks and leases them.
 */
module Reconciliation {
  import opened Wrappers
  import opened RateEngine
  import opened TransferState
  import opened Database
  import opened Conservation

  predicate PastStuckWindow(p: Policy, t: Transfer, now: Time) {
    t.createdAt <= now - p.stuckAfter
  }

  /** The WHERE clause of the claim query. */
  predicate Due(p: Policy, t: Transfer, now: Time) {
    || (t.status == PendingVerification && t.nextCheckAt.Some? && t.nextCheckAt.value <= now)
    || (&& (t.status == SourceDebited || t.status == PartnerSubmitted)
        && PastStuckWindow(p, t, now)
        && (t.nextCheckAt.None? || t.nextCheckAt.value <= now))
  }

  function Leased(p: Policy, t: Transfer, now: Time): Transfer {
    t.(nextCheckAt := Some(now + p.lease))
  }

  /** A claim pushes the next check of every due row in `ids` past the lease. */
  function ClaimRows(p: Policy, transfers: seq<Transfer>, ids: seq<nat>, now: Time): (r: seq<Transfer>)
    ensures |r| == |transfers|
  {
    if ids == [] then transfers
    else
      var rest := ClaimRows(p, transfers, ids[..|ids| - 1], now);
      var id := ids[|ids| - 1];
      if id < |transfers| && Due(p, transfers[id], now) then rest[id := Leased(p, transfers[id], now)] else rest
  }

  /** A claim leases due rows and leaves every other row alone. */
  lemma {:induction false} ClaimLeasesDueRows(p: Policy, transfers: seq<Transfer>, ids: seq<nat>, now: Time, i: nat)
    requires i < |transfers|
    ensures var u := ClaimRows(p, transfers, ids, now)[i];
            if i in ids && Due(p, transfers[i], now) then u == Leased(p, transfers[i], now) else u == transfers[i]
  {
    if ids != [] {
      var front := ids[..|ids| - 1];
      ClaimLeasesDueRows(p, transfers, front, now, i);
      assert ids == front + [ids[|ids| - 1]];
    }
  }

  /** A claimed row is due again exactly from the end of its lease. */
  lemma {:induction false} ClaimedRowIsDueAgain(p: Policy, t: Transfer, clock: Time, later: Time)
    requires Due(p, t, clock)
    ensures Due(p, Leased(p, t, clock), later) <==> later >= clock + p.lease
  {
  }

  lemma {:induction false} LeaseKeepsInvariant(p: Policy, opening: seq<int>, db: Db, id: nat, at: Time)
    requires DbInv(p, opening, db) && id < |db.transfers| && Automatable(db.transfers[id].status)
    ensures DbInv(p, opening, db.(transfers := db.transfers[id := db.transfers[id].(nextCheckAt := Some(at))]))
  {
    hide DbInv;
    var t := db.transfers[id];
    var row := t.(nextCheckAt := Some(at));
    InvariantParts(p, opening, db);
    assert TransferOk(p, db.book.accounts, t);
    LeaseKeepsRow(p, t, row);
    ExpectedUnchanged(db.book.accounts, id, t, row);
    RowUpdateKeepsInvariant(p, opening, db, id, row);
  }

  lemma {:induction false} ClaimKeepsInvariant(p: Policy, opening: seq<int>, db: Db, ids: seq<nat>, now: Time)
    requires DbInv(p, opening, db)
    ensures DbInv(p, opening, db.(transfers := ClaimRows(p, db.transfers, ids, now)))
  {
    hide DbInv;
    if ids != [] {
      var front, id := ids[..|ids| - 1], ids[|ids| - 1];
      ClaimKeepsInvariant(p, opening, db, front, now);
      if id < |db.transfers| && Due(p, db.transfers[id], now) {
        var mid := db.(transfers := ClaimRows(p, db.transfers, front, now));
        ClaimLeasesDueRows(p, db.transfers, front, now, id);
        LeaseKeepsInvariant(p, opening, mid, id, now + p.lease);
      }
    } else {
      assert db.(transfers := db.transfers) == db;
    }
  }

  lemma {:induction false} LeaseKeepsRow(p: Policy, t: Transfer, row: Transfer)
    requires RowOk(p, t) && Automatable(t.status) && row.nextCheckAt.Some?
    requires row == t.(nextCheckAt := row.nextCheckAt)
    ensures RowOk(p, row) && SameTerms(t, row)
  {
  }

  // ---------------------------------------------------------------- the claim query

  /** ORDER BY next_verification_at ASC NULLS FIRST, id. */
  predicate Before(transfers: seq<Transfer>, i: nat, j: nat)
    requires i < |transfers| && j < |transfers|
  {
    match (transfers[i].nextCheckAt, transfers[j].nextCheckAt)
    case (None, None) => i < j
    case (None, Some(_)) => true
    case (Some(_), None) => false
    case (Some(x), Some(y)) => x < y || (x == y && i < j)
  }

  /** The order is a strict total order: rows never checked come first, then earlier checks, then lower ids. */
  lemma {:induction false} BeforeIsTheOrder(transfers: seq<Transfer>, i: nat, j: nat, k: nat)
    requires i < |transfers| && j < |transfers| && k < |transfers|
    ensures !Before(transfers, i, i)
    ensures i != j ==> (Before(transfers, i, j) <==> !Before(transfers, j, i))
    ensures Before(transfers, i, j) && Before(transfers, j, k) ==> Before(transfers, i, k)
    ensures transfers[i].nextCheckAt.None? && transfers[j].nextCheckAt.Some? ==> Before(transfers, i, j)
    ensures transfers[i].nextCheckAt.Some? && transfers[j].nextCheckAt.Some? ==>
              transfers[i].nextCheckAt.value < transfers[j].nextCheckAt.value ==> Before(transfers, i, j)
    ensures transfers[i].nextCheckAt == transfers[j].nextCheckAt && i < j ==> Before(transfers, i, j)
  {
  }

  /** Selected by the query and not locked by another transaction (SKIP LOCKED). */
  predicate Claimable(p: Policy, transfers: seq<Transfer>, locked: set<nat>, now: Time, i: nat) {
    i < |transfers| && i !in locked && Due(p, transfers[i], now)
  }

  method FirstClaimable(p: Policy, transfers: seq<Transfer>, skip: set<nat>, now: Time) returns (first: Option<nat>)
    ensures first.Some? ==> Claimable(p, transfers, skip, now, first.value)
    ensures forall i :: Claimable(p, transfers, skip, now, i) ==>
                          first.Some? && (i == first.value || Before(transfers, first.value, i))
  {
    first := None;
    for n := 0 to |transfers|
      invariant first.Some? ==> first.value < n && Claimable(p, transfers, skip, now, first.value)
      invariant forall i: nat :: i < n && Claimable(p, transfers, skip, now, i) ==>
                              first.Some? && (i == first.value || Before(transfers, first.value, i))
    {
      if n !in skip && Due(p, transfers[n], now) && (first.None? || Before(transfers, n, first.value)) {
        first := Some(n);
      }
    }
  }

  /**
   Claims the earliest due rows that nobody holds, at most `batch` of them, and leases exactly
   those rows; a due row is passed over only if the batch is full and it sorts after all of it.
   */
  method ClaimDue(store: Store, p: Policy, batch: nat, locked: set<nat>, now: Time) returns (claimed: seq<nat>)
    modifies store`transfers
    ensures |claimed| <= batch
    ensures forall k :: 0 <= k < |claimed| ==> Claimable(p, old(store.transfers), locked, now, claimed[k])
    ensures forall k, m :: 0 <= k < m < |claimed| ==>
                             claimed[k] < |old(store.transfers)| && claimed[m] < |old(store.transfers)|
                             && Before(old(store.transfers), claimed[k], claimed[m])
    ensures forall i :: Claimable(p, old(store.transfers), locked, now, i) && i !in claimed ==>
                          |claimed| == batch
                          && forall k :: 0 <= k < |claimed| ==> claimed[k] < |old(store.transfers)|
                                                                && Before(old(store.transfers), claimed[k], i)
    ensures store.transfers == ClaimRows(p, old(store.transfers), claimed, now)
  {
    var rows := store.transfers;
    claimed := [];
    while |claimed| < batch
      invariant |claimed| <= batch
      invariant forall k :: 0 <= k < |claimed| ==> Claimable(p, rows, locked, now, claimed[k])
      invariant forall k, m :: 0 <= k < m < |claimed| ==> Before(rows, claimed[k], claimed[m])
      invariant forall i, k :: Claimable(p, rows, locked, now, i) && i !in claimed && 0 <= k < |claimed| ==>
                                 Before(rows, claimed[k], i)
    {
      var skip := locked + (set c | c in claimed);
      var next := FirstClaimable(p, rows, skip, now);
      if next.None? {
        assert forall i :: Claimable(p, rows, locked, now, i) && i !in claimed ==>
                             Claimable(p, rows, skip, now, i);
        break;
      }
      var i := next.value;
      assert Claimable(p, rows, locked, now, i);
      forall j | Claimable(p, rows, locked, now, j) && j !in claimed && j != i
        ensures Before(rows, i, j)
      {
        assert Claimable(p, rows, skip, now, j);
      }
      claimed := claimed + [i];
    }
    var leased := rows;
    for k := 0 to |claimed|
      invariant leased == ClaimRows(p, rows, claimed[..k], now)
    {
      assert claimed[..k + 1][..k] == claimed[..k];
      leased := leased[claimed[k] := Leased(p, rows[claimed[k]], now)];
    }
    assert claimed[..|claimed|] == claimed;
    store.transfers := leased;
  }
}
