/**
 Idempotency of client requests: a durable row with a unique (user, key), and an unreliable
 lock with a time to live. `Slot` is everything stored for one (user, key); the functions on
 it are the single SQL statements and Redis commands. `IdempotencyService` is the code of one
 request on its own; `IdempotencyProtocol` interleaves any number of them.
 */
module Idempotency {
  import opened Wrappers
  import opened RateEngine

  datatype RowStatus = InProgress | Completed(code: nat, body: string)

  datatype Row = Row(id: nat, fingerprint: string, status: RowStatus, createdAt: Time, expiresAt: Time)

  datatype Lock = Lock(token: nat, expiresAt: Time)

  datatype Slot = Slot(row: Option<Row>, lock: Option<Lock>)

  const EmptySlot := Slot(None, None)

  datatype Ttl = Ttl(key: nat, lock: nat)

  datatype Begin = New(id: nat) | Replay(code: nat, body: string) | ConflictInProgress | ConflictMismatch

  // ---------------------------------------------------------------- single statements

  predicate LockFree(slot: Slot, now: Time) {
    slot.lock.None? || slot.lock.value.expiresAt <= now
  }

  /** SET NX PX. */
  function Locked(slot: Slot, token: nat, now: Time, ttl: Ttl): Slot {
    slot.(lock := Some(Lock(token, now + ttl.lock)))
  }

  /** The compare-and-delete script. */
  function Unlocked(slot: Slot, token: nat): Slot {
    if slot.lock.Some? && slot.lock.value.token == token then slot.(lock := None) else slot
  }

  predicate HasRow(slot: Slot, id: nat) {
    slot.row.Some? && slot.row.value.id == id
  }

  function Deleted(slot: Slot, id: nat): Slot {
    if HasRow(slot, id) then slot.(row := None) else slot
  }

  function NewRow(id: nat, fingerprint: string, at: Time, ttl: Ttl): Row {
    Row(id, fingerprint, InProgress, at, at + ttl.key)
  }

  /** UPDATE ... WHERE id AND IN_PROGRESS. */
  function CompletedBy(slot: Slot, id: nat, code: nat, body: string): Slot {
    if HasRow(slot, id) && slot.row.value.status.InProgress? then
      slot.(row := Some(slot.row.value.(status := Completed(code, body))))
    else slot
  }

  /** DELETE ... WHERE id AND IN_PROGRESS. */
  function ReleasedBy(slot: Slot, id: nat): Slot {
    if HasRow(slot, id) && slot.row.value.status.InProgress? then slot.(row := None) else slot
  }

  predicate Expired(row: Row, now: Time) {
    row.expiresAt <= now
  }

  predicate Abandoned(row: Row, now: Time, ttl: Ttl) {
    row.status.InProgress? && row.createdAt <= now - ttl.lock
  }

  predicate Reusable(row: Row, now: Time, ttl: Ttl) {
    Expired(row, now) || Abandoned(row, now, ttl)
  }

  function Classify(row: Row, fingerprint: string): Begin {
    if row.fingerprint != fingerprint then ConflictMismatch
    else
      match row.status
      case Completed(code, body) => Replay(code, body)
      case InProgress => ConflictInProgress
  }

  /** What a request that cannot get the lock, or that lost the race to insert, reports. */
  function ClassifySlot(slot: Slot, fingerprint: string): Begin {
    if slot.row.None? then ConflictInProgress else Classify(slot.row.value, fingerprint)
  }

  // ---------------------------------------------------------------- one request on its own

  /** `_claim` with nothing in between: the result and the slot it leaves. */
  function ClaimedAlone(slot: Slot, fingerprint: string, nextId: nat, now: Time, ttl: Ttl): (Begin, Slot) {
    if slot.row.Some? && !Reusable(slot.row.value, now, ttl) then (Classify(slot.row.value, fingerprint), slot)
    else (New(nextId), slot.(row := Some(NewRow(nextId, fingerprint, now, ttl))))
  }

  /** `begin` with nothing in between: without the lock only the stored answer counts. */
  function BeginsAlone(slot: Slot, fingerprint: string, redisUp: bool, nextId: nat, now: Time, ttl: Ttl): Begin {
    if redisUp && !LockFree(slot, now) then ClassifySlot(slot, fingerprint)
    else ClaimedAlone(slot, fingerprint, nextId, now, ttl).0
  }

  /**
   Round trip: a request that was answered is answered the same way again until its record
   expires, with Redis up or down; another request under the same key is a mismatch.
   */
  lemma {:induction false} AnswerIsReplayed(slot: Slot, f: string, g: string, id: nat, next: nat, now: Time,
      later: Time, ttl: Ttl, redisUp: bool, code: nat, body: string)
    requires ClaimedAlone(slot, f, id, now, ttl).0 == New(id) && later < now + ttl.key
    ensures var done := CompletedBy(ClaimedAlone(slot, f, id, now, ttl).1, id, code, body);
            BeginsAlone(done, g, redisUp, next, later, ttl) == if f == g then Replay(code, body) else ConflictMismatch
  {
  }

  /**
   A record in progress that is neither expired nor abandoned: a request of its own fingerprint
   is told that it is in progress, and any other that the key was used differently.
   */
  lemma {:induction false} LiveRecordIsReported(slot: Slot, f: string, redisUp: bool, next: nat, now: Time, ttl: Ttl)
    requires slot.row.Some? && slot.row.value.status.InProgress? && !Reusable(slot.row.value, now, ttl)
    ensures BeginsAlone(slot, f, redisUp, next, now, ttl) == ConflictInProgress <==> f == slot.row.value.fingerprint
    ensures BeginsAlone(slot, f, redisUp, next, now, ttl) == ConflictMismatch <==> f != slot.row.value.fingerprint
  {
  }

  /** A request that is locked out and finds no record is told that one is in progress. */
  lemma {:induction false} LockedOutIsReported(slot: Slot, f: string, next: nat, now: Time, ttl: Ttl)
    requires slot.row.None? && !LockFree(slot, now)
    ensures BeginsAlone(slot, f, true, next, now, ttl) == ConflictInProgress
  {
  }

  /** A new begin happens exactly when the lock can be had or Redis is down, and nothing live is stored. */
  lemma {:induction false} NewBeginIff(slot: Slot, f: string, redisUp: bool, next: nat, now: Time, ttl: Ttl)
    ensures BeginsAlone(slot, f, redisUp, next, now, ttl) == New(next) <==>
            && (!redisUp || slot.lock.None? || slot.lock.value.expiresAt <= now)
            && (slot.row.Some? ==>
                  || slot.row.value.expiresAt <= now
                  || (slot.row.value.status.InProgress? && slot.row.value.createdAt + ttl.lock <= now))
  {
  }

  /** The first answer stands: completing or releasing again, or under another id, changes nothing. */
  lemma {:induction false} FirstAnswerStands(slot: Slot, id: nat, code: nat, body: string)
    ensures slot.row.Some? && slot.row.value.status.Completed? ==>
              CompletedBy(slot, id, code, body) == slot && ReleasedBy(slot, id) == slot
    ensures !HasRow(slot, id) ==> CompletedBy(slot, id, code, body) == slot && ReleasedBy(slot, id) == slot
    ensures HasRow(slot, id) && slot.row.value.status.InProgress? ==>
              && ReleasedBy(slot, id) == Slot(None, slot.lock)
              && CompletedBy(slot, id, code, body) ==
                 Slot(Some(slot.row.value.(status := Completed(code, body))), slot.lock)
  {
  }

  /** A lock is held for exactly its time, by its token alone. */
  lemma {:induction false} LockIsHeldForItsTime(slot: Slot, token: nat, other: nat, now: Time, t: Time, ttl: Ttl)
    ensures LockFree(Locked(slot, token, now, ttl), t) <==> t >= now + ttl.lock
    ensures LockFree(Unlocked(Locked(slot, token, now, ttl), token), t)
    ensures other != token ==> Unlocked(Locked(slot, token, now, ttl), other) == Locked(slot, token, now, ttl)
    ensures Locked(slot, token, now, ttl).row == slot.row && Unlocked(slot, token).row == slot.row
  {
  }

  /**
   A request that failed leaves no record: the same key starts over, whatever the new body,
   with Redis down, or up once the lock is free.
   */
  lemma {:induction false} FailureStartsOver(slot: Slot, f: string, g: string, id: nat, next: nat, now: Time,
      later: Time, ttl: Ttl, redisUp: bool)
    requires ClaimedAlone(slot, f, id, now, ttl).0 == New(id)
    requires redisUp ==> LockFree(slot, later)
    ensures var failed := ReleasedBy(ClaimedAlone(slot, f, id, now, ttl).1, id);
            BeginsAlone(failed, g, redisUp, next, later, ttl) == New(next)
  {
  }

  datatype HandlerEnd = Answered(code: nat, body: string) | Crashed

  datatype Key = Key(user: string, key: string)

  function Lookup(slots: map<Key, Slot>, k: Key): Slot {
    if k in slots then slots[k] else EmptySlot
  }

  /** The other keys are untouched. */
  ghost predicate OthersKept(before: map<Key, Slot>, after: map<Key, Slot>, k: Key) {
    forall j :: j != k ==> Lookup(after, j) == Lookup(before, j)
  }

  class IdempotencyService {
    const ttl: Ttl
    var slots: map<Key, Slot>
    var nextId: nat

    constructor (ttl: Ttl)
      ensures this.ttl == ttl && slots == map[] && nextId == 0
    {
      this.ttl := ttl;
      slots, nextId := map[], 0;
    }

    function SlotOf(k: Key): Slot
      reads this
    {
      Lookup(slots, k)
    }

    /** `None` when Redis cannot be reached; otherwise whether the lock was free and is now ours. */
    method AcquireLock(k: Key, token: nat, redisUp: bool, now: Time) returns (acquired: Option<bool>)
      modifies this`slots
      ensures acquired == if !redisUp then None else Some(LockFree(old(SlotOf(k)), now))
      ensures slots == if acquired == Some(true)
                       then old(slots)[k := Locked(old(SlotOf(k)), token, now, ttl)] else old(slots)
    {
      if !redisUp {
        return None;
      }
      if !LockFree(SlotOf(k), now) {
        return Some(false);
      }
      slots := slots[k := Locked(SlotOf(k), token, now, ttl)];
      return Some(true);
    }

    method ReleaseLock(k: Key, token: Option<nat>, redisUp: bool)
      modifies this`slots
      ensures SlotOf(k) == if token.Some? && redisUp then Unlocked(old(SlotOf(k)), token.value) else old(SlotOf(k))
      ensures OthersKept(old(slots), slots, k)
    {
      if token.Some? && redisUp {
        slots := slots[k := Unlocked(SlotOf(k), token.value)];
      }
    }

    method Claim(k: Key, fingerprint: string, now: Time) returns (r: Begin)
      modifies this
      ensures (r, SlotOf(k)) == ClaimedAlone(old(SlotOf(k)), fingerprint, old(nextId), now, ttl)
      ensures nextId == old(nextId) + if r.New? then 1 else 0
      ensures OthersKept(old(slots), slots, k)
    {
      var existing := SlotOf(k).row;
      if existing.Some? {
        if !Reusable(existing.value, now, ttl) {
          return Classify(existing.value, fingerprint);
        }
        slots := slots[k := Deleted(SlotOf(k), existing.value.id)];
      }
      var row := NewRow(nextId, fingerprint, now, ttl);
      slots := slots[k := SlotOf(k).(row := Some(row))];
      nextId := nextId + 1;
      return New(row.id);
    }

    /** One request from begin to the end of its handler, alone with its key. */
    method RunIdempotent(k: Key, fingerprint: string, token: nat, redisUp: bool, now: Time, end: HandlerEnd)
      returns (r: Begin, ran: bool)
      modifies this
      ensures r == BeginsAlone(old(SlotOf(k)), fingerprint, redisUp, old(nextId), now, ttl)
      ensures ran == r.New?
      ensures SlotOf(k).lock == if redisUp && LockFree(old(SlotOf(k)), now) then None else old(SlotOf(k)).lock
      ensures !ran ==> SlotOf(k).row == old(SlotOf(k)).row
      ensures ran && end.Answered? && end.code < 500 ==>
                SlotOf(k).row ==
                Some(NewRow(old(nextId), fingerprint, now, ttl).(status := Completed(end.code, end.body)))
      ensures ran && (end.Crashed? || end.code >= 500) ==> SlotOf(k).row == None
      ensures OthersKept(old(slots), slots, k)
    {
      var acquired := AcquireLock(k, token, redisUp, now);
      if acquired == Some(false) {
        return ClassifySlot(SlotOf(k), fingerprint), false;
      }
      assert OthersKept(old(slots), slots, k);
      var held := if acquired == Some(true) then Some(token) else None;
      r := Claim(k, fingerprint, now);
      assert OthersKept(old(slots), slots, k);
      ran := r.New?;
      if ran {
        var id := r.id;
        if end.Answered? && end.code < 500 {
          slots := slots[k := CompletedBy(SlotOf(k), id, end.code, end.body)];
        } else {
          slots := slots[k := ReleasedBy(SlotOf(k), id)];
        }
      }
      assert OthersKept(old(slots), slots, k);
      ReleaseLock(k, held, redisUp);
    }
  }
}
