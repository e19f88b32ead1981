/**
 Any number of requests with one (user, key), interleaved between single statements. The
 row lock of a DELETE that has not committed is `deleter`: other statements that would write
 the row wait for it, readers still see the committed row, and a death rolls it back. The
 Redis lock may be unavailable, expire or be lost at any time.
 */
module IdempotencyProtocol {
  import opened Wrappers
  import opened RateEngine
  import opened Idempotency

  /** Where a request stands; its lock token is its own number. */
  datatype Proc =
    | Arrived(fingerprint: string)
    | LockedOut(fingerprint: string)
    | Acquired(fingerprint: string)
    | Loading(fingerprint: string, at: Time)
    | Deleting(fingerprint: string, at: Time, target: nat)
    | Inserting(fingerprint: string, at: Time)
    | Reloading(fingerprint: string)
    | Running(rowId: nat, at: Time)
    | Unlocking(result: Begin)
    | Finished(result: Begin)

  datatype Sys = Sys(now: Time, slot: Slot, nextId: nat, deleter: Option<nat>, procs: map<nat, Proc>)

  datatype Move =
    | Tick(delta: nat)
    | LoseLock
    | Cleanup
    | Arrive(p: nat, fingerprint: string)
    | Acquire(p: nat, redisUp: bool)
    | ReadClock(p: nat)
    | ReadLockedOut(p: nat)
    | Load(p: nat)
    | Delete(p: nat)
    | Insert(p: nat)
    | Reload(p: nat)
    | Complete(p: nat, code: nat, body: string)
    | Release(p: nat)
    | Unlock(p: nat, redisUp: bool)
    | Die(p: nat)

  function Set(s: Sys, p: nat, to: Proc): Sys {
    s.(procs := s.procs[p := to])
  }

  /** A statement that writes the row waits for an uncommitted DELETE of another request. */
  predicate MayWrite(s: Sys, p: nat) {
    s.deleter.None? || s.deleter == Some(p)
  }

  function Inserted(s: Sys, ttl: Ttl, p: nat, q: Proc): Sys
    requires q.Inserting?
  {
    Sys(s.now, s.slot.(row := Some(NewRow(s.nextId, q.fingerprint, q.at, ttl))), s.nextId + 1, None,
        s.procs[p := Running(s.nextId, q.at)])
  }

  function ProcStep(ttl: Ttl, s: Sys, m: Move, q: Proc): Option<Sys> {
    match (m, q)
    case (Acquire(p, redisUp), Arrived(f)) =>
      if !redisUp then Some(Set(s, p, Acquired(f)))
      else if LockFree(s.slot, s.now) then Some(Set(s, p, Acquired(f)).(slot := Locked(s.slot, p, s.now, ttl)))
      else Some(Set(s, p, LockedOut(f)))
    case (ReadLockedOut(p), LockedOut(f)) => Some(Set(s, p, Finished(ClassifySlot(s.slot, f))))
    case (ReadClock(p), Acquired(f)) => Some(Set(s, p, Loading(f, s.now)))
    case (Load(p), Loading(f, at)) =>
      if s.slot.row.None? then Some(Set(s, p, Inserting(f, at)))
      else if Reusable(s.slot.row.value, at, ttl) then Some(Set(s, p, Deleting(f, at, s.slot.row.value.id)))
      else Some(Set(s, p, Unlocking(Classify(s.slot.row.value, f))))
    case (Delete(p), Deleting(f, at, target)) =>
      if !MayWrite(s, p) then None
      else Some(Set(s, p, Inserting(f, at)).(deleter := if HasRow(s.slot, target) then Some(p) else s.deleter))
    case (Insert(p), Inserting(f, at)) =>
      if !MayWrite(s, p) then None
      else if s.deleter == Some(p) || s.slot.row.None? then Some(Inserted(s, ttl, p, q))
      else Some(Set(s, p, Reloading(f)))
    case (Reload(p), Reloading(f)) => Some(Set(s, p, Unlocking(ClassifySlot(s.slot, f))))
    case (Complete(p, code, body), Running(id, _)) =>
      if !MayWrite(s, p) then None
      else Some(Set(s, p, Unlocking(New(id))).(slot := CompletedBy(s.slot, id, code, body)))
    case (Release(p), Running(id, _)) =>
      if !MayWrite(s, p) then None
      else Some(Set(s, p, Unlocking(New(id))).(slot := ReleasedBy(s.slot, id)))
    case (Unlock(p, redisUp), Unlocking(r)) =>
      Some(Set(s, p, Finished(r)).(slot := if redisUp then Unlocked(s.slot, p) else s.slot))
    case (Die(p), _) =>
      Some(s.(procs := s.procs - {p}, deleter := if s.deleter == Some(p) then None else s.deleter))
    case _ => None
  }

  function Next(ttl: Ttl, s: Sys, m: Move): Option<Sys> {
    match m
    case Tick(delta) => Some(s.(now := s.now + delta))
    case LoseLock => Some(s.(slot := s.slot.(lock := None)))
    case Cleanup =>
      if s.deleter.None? && s.slot.row.Some? && Expired(s.slot.row.value, s.now)
      then Some(s.(slot := s.slot.(row := None))) else None
    case Arrive(p, f) => if p in s.procs then None else Some(Set(s, p, Arrived(f)))
    case _ => if m.p in s.procs then ProcStep(ttl, s, m, s.procs[m.p]) else None
  }

  function Run(ttl: Ttl, s: Sys, moves: seq<Move>): Option<Sys>
    decreases |moves|
  {
    if moves == [] then Some(s)
    else
      match Next(ttl, s, moves[0])
      case None => None
      case Some(s') => Run(ttl, s', moves[1..])
  }

  predicate Initial(s: Sys) {
    s.slot == EmptySlot && s.deleter == None && s.procs == map[]
  }

  // ---------------------------------------------------------------- no bound on handlers

  /** Row ids are never reused, so no two requests ever own the same one. */
  predicate Fresh(s: Sys) {
    && (s.slot.row.Some? ==> s.slot.row.value.id < s.nextId)
    && (forall p :: p in s.procs && s.procs[p].Running? ==> s.procs[p].rowId < s.nextId)
    && (forall p :: p in s.procs && s.procs[p].Deleting? ==> s.procs[p].target < s.nextId)
    && (forall p, q :: p in s.procs && q in s.procs && p != q && s.procs[p].Running? && s.procs[q].Running? ==>
                         s.procs[p].rowId != s.procs[q].rowId)
  }

  lemma {:induction false} StartKeepsFresh(ttl: Ttl, s: Sys, m: Move)
    requires Fresh(s) && Next(ttl, s, m).Some? && (m.Load? || m.Insert?)
    ensures Fresh(Next(ttl, s, m).value)
  {
  }

  lemma {:induction false} EndKeepsFresh(ttl: Ttl, s: Sys, m: Move)
    requires Fresh(s) && Next(ttl, s, m).Some? && !m.Load? && !m.Insert?
    ensures Fresh(Next(ttl, s, m).value)
  {
    var s' := Next(ttl, s, m).value;
    assert forall p :: p in s'.procs && (s'.procs[p].Running? || s'.procs[p].Deleting?) ==>
                         p in s.procs && s'.procs[p] == s.procs[p];
  }

  lemma {:induction false} NextKeepsFresh(ttl: Ttl, s: Sys, m: Move)
    requires Fresh(s) && Next(ttl, s, m).Some?
    ensures Fresh(Next(ttl, s, m).value)
  {
    hide Fresh, Next;
    if m.Load? || m.Insert? {
      StartKeepsFresh(ttl, s, m);
    } else {
      EndKeepsFresh(ttl, s, m);
    }
  }

  lemma {:induction false} RunKeepsFresh(ttl: Ttl, s: Sys, moves: seq<Move>)
    requires Fresh(s) && Run(ttl, s, moves).Some?
    ensures Fresh(Run(ttl, s, moves).value)
    decreases |moves|
  {
    if moves != [] {
      NextKeepsFresh(ttl, s, moves[0]);
      RunKeepsFresh(ttl, Next(ttl, s, moves[0]).value, moves[1..]);
    }
  }

  predicate Owns(s: Sys, q: nat) {
    q in s.procs && s.procs[q].Running? && HasRow(s.slot, s.procs[q].rowId)
  }

  /**
   Fencing, with no bound on how long a handler runs: when request `q` owns the row, a late
   complete or release of any other request changes nothing of the row, and its unlock leaves
   a lock that carries `q`'s token alone.
   */
  lemma {:induction false} LateRequestsAreFenced(ttl: Ttl, s0: Sys, moves: seq<Move>, s: Sys, m: Move, q: nat)
    requires Initial(s0) && Run(ttl, s0, moves) == Some(s) && Next(ttl, s, m).Some?
    requires m.Complete? || m.Release? || m.Unlock?
    requires m.p != q
    ensures Owns(s, q) ==> Next(ttl, s, m).value.slot.row == s.slot.row
    ensures s.slot.lock.Some? && s.slot.lock.value.token == q ==> Next(ttl, s, m).value.slot.lock == s.slot.lock
  {
    RunKeepsFresh(ttl, s0, moves);
  }

  /**
   What a request that reads a record in progress answers, at any statement that reads it: that
   it is in progress if and only if the fingerprint is the record's, else a mismatch. A load takes
   it over instead exactly when it is expired or abandoned by the clock the request read; and one
   that is locked out, or lost the race, and then finds no record says in progress.
   */
  lemma {:induction false} RecordInProgressIsReported(ttl: Ttl, s: Sys, m: Move)
    requires Next(ttl, s, m).Some? && (m.Load? || m.Reload? || m.ReadLockedOut?)
    ensures m.p in s.procs && m.p in Next(ttl, s, m).value.procs
    ensures var f, after := FingerprintOf(s.procs[m.p]), Next(ttl, s, m).value.procs[m.p];
            if s.slot.row.None? then
              if m.Load? then after.Inserting? else Reports(after, ConflictInProgress)
            else
              var row := s.slot.row.value;
              row.status.InProgress? ==>
                if m.Load? && (row.expiresAt <= s.procs[m.p].at || row.createdAt + ttl.lock <= s.procs[m.p].at)
                then after == Deleting(f, s.procs[m.p].at, row.id)
                else (Reports(after, ConflictInProgress) <==> f == row.fingerprint)
                     && (Reports(after, ConflictMismatch) <==> f != row.fingerprint)
  {
  }

  predicate Reports(q: Proc, answer: Begin) {
    q == Unlocking(answer) || q == Finished(answer)
  }

  /** The request's fingerprint, while it is still deciding. */
  function FingerprintOf(q: Proc): string {
    match q
    case Running(_, _) => ""
    case Unlocking(_) => ""
    case Finished(_) => ""
    case _ => q.fingerprint
  }

  // ---------------------------------------------------------------- handlers with a bound

  /** Every handler ends or dies before `bound` has passed since its request read the clock. */
  predicate Prompt(bound: nat, s: Sys) {
    forall p :: p in s.procs && s.procs[p].Running? ==> s.now < s.procs[p].at + bound
  }

  predicate PromptRun(ttl: Ttl, bound: nat, s: Sys, moves: seq<Move>)
    decreases |moves|
  {
    && Prompt(bound, s)
    && (moves != [] ==>
          Next(ttl, s, moves[0]).Some? && PromptRun(ttl, bound, Next(ttl, s, moves[0]).value, moves[1..]))
  }

  /** How long a row in progress is safe from a takeover. */
  function Window(ttl: Ttl): nat {
    if ttl.key <= ttl.lock then ttl.key else ttl.lock
  }

  /** A request that is about to replace row `r` read the clock after `r` was abandoned or expired. */
  predicate MayReplace(ttl: Ttl, r: Row, at: Time) {
    r.createdAt + Window(ttl) <= at && (r.status.Completed? ==> r.expiresAt <= at)
  }

  predicate Bounded(ttl: Ttl, s: Sys) {
    && Fresh(s)
    && (s.slot.row.Some? ==> s.slot.row.value.expiresAt == s.slot.row.value.createdAt + ttl.key)
    && (forall p :: p in s.procs && (s.procs[p].Loading? || s.procs[p].Deleting? || s.procs[p].Inserting?) ==>
                      s.procs[p].at <= s.now)
    && (forall p :: p in s.procs && s.procs[p].Deleting? && HasRow(s.slot, s.procs[p].target) ==>
                      MayReplace(ttl, s.slot.row.value, s.procs[p].at))
    && (s.deleter.Some? ==>
          && s.deleter.value in s.procs && s.procs[s.deleter.value].Inserting? && s.slot.row.Some?
          && MayReplace(ttl, s.slot.row.value, s.procs[s.deleter.value].at))
    && (forall p :: p in s.procs && s.procs[p].Running? ==>
                      && HasRow(s.slot, s.procs[p].rowId)
                      && s.slot.row.value.status.InProgress?
                      && s.slot.row.value.createdAt == s.procs[p].at)
  }

  /** The request moves between states in which it neither runs nor is about to replace a row. */
  predicate MovesQuietly(s: Sys, q: Proc, to: Proc) {
    && (q.Arrived? || q.LockedOut? || q.Acquired? || q.Reloading? || q.Unlocking?)
    && (to.LockedOut? || to.Acquired? || (to.Loading? && to.at <= s.now) || to.Unlocking? || to.Finished?)
  }

  lemma {:induction false} SetKeepsFresh(s: Sys, p: nat, to: Proc, lock: Option<Lock>)
    requires Fresh(s) && p in s.procs && MovesQuietly(s, s.procs[p], to)
    ensures Fresh(Set(s, p, to).(slot := s.slot.(lock := lock)))
  {
  }

  /** A request that touches neither rows nor handlers moves on; the lock may change. */
  lemma {:induction false} SetKeepsBounded(ttl: Ttl, s: Sys, p: nat, to: Proc, lock: Option<Lock>)
    requires Bounded(ttl, s) && p in s.procs && MovesQuietly(s, s.procs[p], to)
    ensures Bounded(ttl, Set(s, p, to).(slot := s.slot.(lock := lock)))
  {
    hide Fresh;
    SetKeepsFresh(s, p, to, lock);
  }

  /** Moves that leave the row alone and start nothing. */
  lemma {:induction false} QuietMoveKeepsBounded(ttl: Ttl, s: Sys, m: Move)
    requires Bounded(ttl, s) && Next(ttl, s, m).Some?
    requires m.Acquire? || m.ReadClock? || m.ReadLockedOut? || m.Reload? || m.Unlock?
    ensures Bounded(ttl, Next(ttl, s, m).value)
  {
    hide Bounded;
    var s' := Next(ttl, s, m).value;
    assert s'.slot == s.slot.(lock := s'.slot.lock);
    SetKeepsBounded(ttl, s, m.p, s'.procs[m.p], s'.slot.lock);
  }

  lemma {:induction false} TimeKeepsBounded(ttl: Ttl, s: Sys, m: Move)
    requires Bounded(ttl, s) && (m.Tick? || m.LoseLock?)
    ensures Bounded(ttl, Next(ttl, s, m).value)
  {
  }

  lemma {:induction false} ComingAndGoingKeepsBounded(ttl: Ttl, s: Sys, m: Move)
    requires Bounded(ttl, s) && Next(ttl, s, m).Some? && (m.Arrive? || m.Die?)
    ensures Bounded(ttl, Next(ttl, s, m).value)
  {
    NextKeepsFresh(ttl, s, m);
  }

  lemma {:induction false} LoadKeepsBounded(ttl: Ttl, s: Sys, p: nat)
    requires Bounded(ttl, s) && Next(ttl, s, Load(p)).Some?
    ensures Bounded(ttl, Next(ttl, s, Load(p)).value)
  {
    NextKeepsFresh(ttl, s, Load(p));
  }

  lemma {:induction false} DeleteKeepsBounded(ttl: Ttl, s: Sys, p: nat)
    requires Bounded(ttl, s) && Next(ttl, s, Delete(p)).Some?
    ensures Bounded(ttl, Next(ttl, s, Delete(p)).value)
  {
    NextKeepsFresh(ttl, s, Delete(p));
  }

  /** No row is replaced while a handler that owns it can still be running. */
  lemma {:induction false} NoOneRunsUnderADeleter(ttl: Ttl, bound: nat, s: Sys)
    requires bound <= Window(ttl) && Bounded(ttl, s) && Prompt(bound, s) && (s.deleter.Some? || s.slot.row.None?)
    ensures forall p :: p in s.procs ==> !s.procs[p].Running?
  {
  }

  lemma {:induction false} InsertKeepsBounded(ttl: Ttl, bound: nat, s: Sys, p: nat)
    requires bound <= Window(ttl) && Bounded(ttl, s) && Prompt(bound, s) && Next(ttl, s, Insert(p)).Some?
    ensures Bounded(ttl, Next(ttl, s, Insert(p)).value)
  {
    NextKeepsFresh(ttl, s, Insert(p));
    if s.deleter.Some? || s.slot.row.None? {
      NoOneRunsUnderADeleter(ttl, bound, s);
    }
  }

  /** A row that someone is about to replace has no running owner left to complete it. */
  lemma {:induction false} EndKeepsBounded(ttl: Ttl, bound: nat, s: Sys, m: Move)
    requires bound <= Window(ttl) && Bounded(ttl, s) && Prompt(bound, s)
    requires Next(ttl, s, m).Some? && (m.Complete? || m.Release?)
    ensures Bounded(ttl, Next(ttl, s, m).value)
  {
    NextKeepsFresh(ttl, s, m);
    assert Owns(s, m.p);
    forall q | q in s.procs && s.procs[q].Deleting?
      ensures !HasRow(s.slot, s.procs[q].target)
    {
    }
  }

  lemma {:induction false} CleanupKeepsBounded(ttl: Ttl, bound: nat, s: Sys)
    requires bound <= Window(ttl) && Bounded(ttl, s) && Prompt(bound, s) && Next(ttl, s, Cleanup).Some?
    ensures Bounded(ttl, Next(ttl, s, Cleanup).value)
  {
    NextKeepsFresh(ttl, s, Cleanup);
  }

  lemma {:induction false} NextKeepsBounded(ttl: Ttl, bound: nat, s: Sys, m: Move)
    requires bound <= Window(ttl) && Bounded(ttl, s) && Prompt(bound, s) && Next(ttl, s, m).Some?
    ensures Bounded(ttl, Next(ttl, s, m).value)
  {
    hide Bounded, Prompt, Next;
    match m
    case Load(p) => LoadKeepsBounded(ttl, s, p);
    case Delete(p) => DeleteKeepsBounded(ttl, s, p);
    case Insert(p) => InsertKeepsBounded(ttl, bound, s, p);
    case Complete(_, _, _) => EndKeepsBounded(ttl, bound, s, m);
    case Release(_) => EndKeepsBounded(ttl, bound, s, m);
    case Cleanup => CleanupKeepsBounded(ttl, bound, s);
    case Arrive(_, _) => ComingAndGoingKeepsBounded(ttl, s, m);
    case Die(_) => ComingAndGoingKeepsBounded(ttl, s, m);
    case Tick(_) => TimeKeepsBounded(ttl, s, m);
    case LoseLock => TimeKeepsBounded(ttl, s, m);
    case _ => QuietMoveKeepsBounded(ttl, s, m);
  }

  lemma {:induction false} PromptRunKeepsBounded(ttl: Ttl, bound: nat, s: Sys, moves: seq<Move>)
    requires bound <= Window(ttl) && Bounded(ttl, s) && PromptRun(ttl, bound, s, moves)
    ensures Run(ttl, s, moves).Some?
    ensures Bounded(ttl, Run(ttl, s, moves).value) && Prompt(bound, Run(ttl, s, moves).value)
    decreases |moves|
  {
    hide Bounded, Prompt, Next;
    if moves != [] {
      NextKeepsBounded(ttl, bound, s, moves[0]);
      PromptRunKeepsBounded(ttl, bound, Next(ttl, s, moves[0]).value, moves[1..]);
    }
  }

  /**
   Mutual exclusion: if every handler ends or dies within the window (the lock time, when keys
   live at least as long), at most one runs at a time, with Redis up, down or losing locks.
   */
  lemma {:induction false} AtMostOneHandlerRuns(ttl: Ttl, bound: nat, s0: Sys, moves: seq<Move>, s: Sys, p: nat, q: nat)
    requires bound <= Window(ttl) && Initial(s0)
    requires PromptRun(ttl, bound, s0, moves) && Run(ttl, s0, moves) == Some(s)
    requires p in s.procs && q in s.procs && s.procs[p].Running? && s.procs[q].Running?
    ensures p == q
  {
    PromptRunKeepsBounded(ttl, bound, s0, moves);
  }

  predicate HoldsCompleted(s: Sys, r: Row) {
    s.slot.row == Some(r) && r.status.Completed?
  }

  lemma {:induction false} ClockNeverGoesBack(ttl: Ttl, s: Sys, moves: seq<Move>)
    requires Run(ttl, s, moves).Some?
    ensures s.now <= Run(ttl, s, moves).value.now
    decreases |moves|
  {
    if moves != [] {
      ClockNeverGoesBack(ttl, Next(ttl, s, moves[0]).value, moves[1..]);
    }
  }

  /** Whoever is about to replace a completed row read the clock after it expired. */
  predicate Guarded(s: Sys) {
    && (forall p :: p in s.procs && s.procs[p].Loading? ==> s.procs[p].at <= s.now)
    && (forall p :: p in s.procs && s.procs[p].Deleting? ==>
                      && s.procs[p].at <= s.now
                      && (HasRow(s.slot, s.procs[p].target) && s.slot.row.value.status.Completed? ==>
                            s.slot.row.value.expiresAt <= s.procs[p].at))
    && (s.deleter.Some? ==>
          && s.deleter.value in s.procs && s.procs[s.deleter.value].Inserting? && s.slot.row.Some?
          && s.procs[s.deleter.value].at <= s.now
          && (s.slot.row.value.status.Completed? ==> s.slot.row.value.expiresAt <= s.procs[s.deleter.value].at))
  }

  lemma {:induction false} BoundedIsGuarded(ttl: Ttl, s: Sys)
    requires Bounded(ttl, s)
    ensures Guarded(s)
  {
  }

  lemma {:induction false} NextKeepsCompleted(ttl: Ttl, s: Sys, m: Move, r: Row)
    requires Guarded(s) && HoldsCompleted(s, r) && Next(ttl, s, m).Some?
    requires s.now < r.expiresAt
    ensures HoldsCompleted(Next(ttl, s, m).value, r)
  {
  }

  /** A completed record does not change before it expires. */
  lemma {:induction false} CompletedRecordIsImmutable(ttl: Ttl, bound: nat, s: Sys, moves: seq<Move>, r: Row)
    requires bound <= Window(ttl) && Bounded(ttl, s) && PromptRun(ttl, bound, s, moves) && HoldsCompleted(s, r)
    requires Run(ttl, s, moves).Some? && Run(ttl, s, moves).value.now < r.expiresAt
    ensures HoldsCompleted(Run(ttl, s, moves).value, r)
    decreases |moves|
  {
    hide Bounded, Prompt, Next;
    if moves != [] {
      ClockNeverGoesBack(ttl, s, moves);
      NextKeepsBounded(ttl, bound, s, moves[0]);
      BoundedIsGuarded(ttl, s);
      NextKeepsCompleted(ttl, s, moves[0], r);
      CompletedRecordIsImmutable(ttl, bound, Next(ttl, s, moves[0]).value, moves[1..], r);
    }
  }

  // ---------------------------------------------------------------- why the bound is needed

  /** A run, prompt throughout, from `s0` to `s`. */
  predicate PromptPath(ttl: Ttl, bound: nat, s0: Sys, moves: seq<Move>, s: Sys) {
    Run(ttl, s0, moves) == Some(s) && PromptRun(ttl, bound, s0, moves)
  }

  lemma {:induction false} Stay(ttl: Ttl, bound: nat, s: Sys) returns (none: seq<Move>)
    requires Prompt(bound, s)
    ensures PromptPath(ttl, bound, s, none, s)
  {
    none := [];
  }

  lemma {:induction false} Extend(ttl: Ttl, bound: nat, s0: Sys, moves: seq<Move>, s: Sys, m: Move)
      returns (longer: seq<Move>)
    requires PromptPath(ttl, bound, s0, moves, s) && Next(ttl, s, m).Some? && Prompt(bound, Next(ttl, s, m).value)
    ensures PromptPath(ttl, bound, s0, longer, Next(ttl, s, m).value)
    ensures longer == moves + [m]
    decreases |moves|
  {
    hide Next, Prompt;
    longer := moves + [m];
    if moves == [] {
      assert longer == [m] && [m][1..] == [];
      assert PromptRun(ttl, bound, Next(ttl, s, m).value, []);
      assert Run(ttl, Next(ttl, s, m).value, []) == Some(Next(ttl, s, m).value);
    } else {
      assert longer[1..] == moves[1..] + [m];
      var rest := Extend(ttl, bound, Next(ttl, s0, moves[0]).value, moves[1..], s, m);
    }
  }

  lemma {:induction false} Join(ttl: Ttl, bound: nat, s0: Sys, x: seq<Move>, s1: Sys, y: seq<Move>, s2: Sys)
    requires PromptPath(ttl, bound, s0, x, s1) && PromptPath(ttl, bound, s1, y, s2)
    ensures PromptPath(ttl, bound, s0, x + y, s2)
    decreases |x|
  {
    hide Next, Prompt;
    if x == [] {
      assert x + y == y;
    } else {
      assert (x + y)[1..] == x[1..] + y;
      Join(ttl, bound, Next(ttl, s0, x[0]).value, x[1..], s1, y, s2);
    }
  }

  /** A request that finds Redis down gets as far as reading the row. */
  lemma {:induction false} Arrives(ttl: Ttl, bound: nat, s: Sys, p: nat, f: string) returns (moves: seq<Move>, m: Sys)
    requires Prompt(bound, s) && p !in s.procs
    ensures PromptPath(ttl, bound, s, moves, m)
    ensures m == s.(procs := s.procs[p := Loading(f, s.now)])
  {
    hide PromptPath;
    moves := Stay(ttl, bound, s);
    var s1 := Next(ttl, s, Arrive(p, f)).value;
    moves := Extend(ttl, bound, s, moves, s, Arrive(p, f));
    var s2 := Next(ttl, s1, Acquire(p, false)).value;
    moves := Extend(ttl, bound, s, moves, s1, Acquire(p, false));
    m := Next(ttl, s2, ReadClock(p)).value;
    moves := Extend(ttl, bound, s, moves, s2, ReadClock(p));
    assert m.procs == s.procs[p := Loading(f, s.now)];
  }

  /** The first request starts its handler. */
  lemma {:induction false} FirstHandlerStarts(ttl: Ttl, bound: nat, s0: Sys, p: nat, f: string)
      returns (moves: seq<Move>, s: Sys)
    requires Initial(s0) && bound > 0
    ensures PromptPath(ttl, bound, s0, moves, s)
    ensures s.deleter.None? && s.now == s0.now && s.nextId == s0.nextId + 1
    ensures s.procs == map[p := Running(s0.nextId, s0.now)]
    ensures s.slot.row == Some(NewRow(s0.nextId, f, s0.now, ttl))
  {
    hide PromptPath;
    var first, s1 := Arrives(ttl, bound, s0, p, f);
    var s2 := Next(ttl, s1, Load(p)).value;
    first := Extend(ttl, bound, s0, first, s1, Load(p));
    s := Next(ttl, s2, Insert(p)).value;
    moves := Extend(ttl, bound, s0, first, s2, Insert(p));
  }

  /** A second request, one window later, finds the row reusable while the first still runs. */
  lemma {:induction false} TakeoverBegins(ttl: Ttl, bound: nat, s0: Sys, p: nat, q: nat, f: string)
      returns (moves: seq<Move>, s: Sys)
    requires Initial(s0) && bound > Window(ttl) && p != q
    ensures PromptPath(ttl, bound, s0, moves, s)
    ensures s.now == s0.now + Window(ttl) && s.nextId == s0.nextId + 1 && s.deleter.None?
    ensures s.slot.row == Some(NewRow(s0.nextId, f, s0.now, ttl))
    ensures s.procs == map[p := Running(s0.nextId, s0.now), q := Deleting(f, s.now, s0.nextId)]
  {
    hide PromptPath;
    var start, s1 := FirstHandlerStarts(ttl, bound, s0, p, f);
    var tick := Tick(Window(ttl));
    var s2 := Next(ttl, s1, tick).value;
    start := Extend(ttl, bound, s0, start, s1, tick);
    var arrive, s3 := Arrives(ttl, bound, s2, q, f);
    Join(ttl, bound, s0, start, s2, arrive, s3);
    s := Next(ttl, s3, Load(q)).value;
    moves := Extend(ttl, bound, s0, start + arrive, s3, Load(q));
  }

  /** The takeover goes through: the row is replaced and a second handler starts. */
  lemma {:induction false} TakeoverEnds(ttl: Ttl, bound: nat, s: Sys, q: nat, f: string)
      returns (moves: seq<Move>, m: Sys)
    requires Prompt(bound, s) && bound > 0 && s.deleter.None? && s.slot.row.Some?
    requires q in s.procs && s.procs[q] == Deleting(f, s.now, s.slot.row.value.id)
    ensures PromptPath(ttl, bound, s, moves, m)
    ensures m.now == s.now && m.procs == s.procs[q := Running(s.nextId, s.now)]
    ensures m.slot.row == Some(NewRow(s.nextId, f, s.now, ttl))
  {
    hide PromptPath;
    moves := Stay(ttl, bound, s);
    var s1 := Next(ttl, s, Delete(q)).value;
    moves := Extend(ttl, bound, s, moves, s, Delete(q));
    m := Next(ttl, s1, Insert(q)).value;
    moves := Extend(ttl, bound, s, moves, s1, Insert(q));
  }

  /** At most one handler runs in every state of every run that is prompt for `bound`. */
  ghost predicate HandlersExcludeEachOther(ttl: Ttl, bound: nat, s0: Sys) {
    forall moves, s, p, q ::
      PromptPath(ttl, bound, s0, moves, s) && Runs(s, p) && Runs(s, q) ==> p == q
  }

  predicate Runs(s: Sys, p: nat) {
    p in s.procs && s.procs[p].Running?
  }

  /** The exact bound: handlers exclude each other if and only if they end within the window. */
  lemma {:induction false} HandlersExcludeEachOtherIff(ttl: Ttl, bound: nat, s0: Sys)
    requires Initial(s0)
    ensures HandlersExcludeEachOther(ttl, bound, s0) <==> bound <= Window(ttl)
  {
    if bound <= Window(ttl) {
      forall moves, s, p, q | PromptPath(ttl, bound, s0, moves, s) && Runs(s, p) && Runs(s, q)
        ensures p == q
      {
        AtMostOneHandlerRuns(ttl, bound, s0, moves, s, p, q);
      }
    } else {
      var first, s := TakeoverBegins(ttl, bound, s0, 0, 1, "");
      var second, m := TakeoverEnds(ttl, bound, s, 1, "");
      Join(ttl, bound, s0, first, s, second, m);
      assert Runs(m, 0) && Runs(m, 1);
    }
  }

  /** When keys do not outlive locks: a row is only ever replaced after it expired. */
  predicate Expiring(ttl: Ttl, s: Sys) {
    && Fresh(s)
    && (s.slot.row.Some? ==> s.slot.row.value.expiresAt == s.slot.row.value.createdAt + ttl.key)
    && (forall p :: p in s.procs && (s.procs[p].Loading? || s.procs[p].Deleting? || s.procs[p].Inserting?) ==>
                      s.procs[p].at <= s.now)
    && (forall p :: p in s.procs && s.procs[p].Deleting? && HasRow(s.slot, s.procs[p].target) ==>
                      s.slot.row.value.expiresAt <= s.procs[p].at)
    && (s.deleter.Some? ==>
          && s.deleter.value in s.procs && s.procs[s.deleter.value].Inserting? && s.slot.row.Some?
          && s.slot.row.value.expiresAt <= s.procs[s.deleter.value].at)
  }

  lemma {:induction false} FreshIds(s: Sys)
    requires Fresh(s)
    ensures forall p :: p in s.procs && s.procs[p].Deleting? ==> s.procs[p].target < s.nextId
  {
  }

  lemma {:induction false} ReplacingKeepsExpiring(ttl: Ttl, s: Sys, m: Move)
    requires ttl.key <= ttl.lock && Expiring(ttl, s) && Next(ttl, s, m).Some?
    requires m.Load? || m.Delete? || m.Insert?
    ensures Expiring(ttl, Next(ttl, s, m).value)
  {
    hide Fresh;
    FreshIds(s);
    NextKeepsFresh(ttl, s, m);
  }

  lemma {:induction false} EndingKeepsExpiring(ttl: Ttl, s: Sys, m: Move)
    requires Expiring(ttl, s) && Next(ttl, s, m).Some?
    requires m.Complete? || m.Release? || m.Cleanup? || m.Die? || m.Arrive?
    ensures Expiring(ttl, Next(ttl, s, m).value)
  {
    hide Fresh;
    FreshIds(s);
    NextKeepsFresh(ttl, s, m);
  }

  lemma {:induction false} TimeKeepsExpiring(ttl: Ttl, s: Sys, m: Move)
    requires Expiring(ttl, s) && (m.Tick? || m.LoseLock?)
    ensures Expiring(ttl, Next(ttl, s, m).value)
  {
    NextKeepsFresh(ttl, s, m);
  }

  lemma {:induction false} SetKeepsExpiring(ttl: Ttl, s: Sys, p: nat, to: Proc, lock: Option<Lock>)
    requires Expiring(ttl, s) && p in s.procs && MovesQuietly(s, s.procs[p], to)
    ensures Expiring(ttl, Set(s, p, to).(slot := s.slot.(lock := lock)))
  {
    hide Fresh;
    SetKeepsFresh(s, p, to, lock);
  }

  lemma {:induction false} WaitingKeepsExpiring(ttl: Ttl, s: Sys, m: Move)
    requires Expiring(ttl, s) && Next(ttl, s, m).Some?
    requires m.Acquire? || m.ReadClock? || m.ReadLockedOut? || m.Reload? || m.Unlock?
    ensures Expiring(ttl, Next(ttl, s, m).value)
  {
    hide Expiring;
    var s' := Next(ttl, s, m).value;
    assert s'.slot == s.slot.(lock := s'.slot.lock);
    SetKeepsExpiring(ttl, s, m.p, s'.procs[m.p], s'.slot.lock);
  }

  lemma {:induction false} ExpiringIsGuarded(ttl: Ttl, s: Sys)
    requires Expiring(ttl, s)
    ensures Guarded(s)
  {
  }

  lemma {:induction false} NextKeepsExpiring(ttl: Ttl, s: Sys, m: Move)
    requires ttl.key <= ttl.lock && Expiring(ttl, s) && Next(ttl, s, m).Some?
    ensures Expiring(ttl, Next(ttl, s, m).value)
  {
    hide Expiring, Next, Guarded;
    if m.Load? || m.Delete? || m.Insert? {
      ReplacingKeepsExpiring(ttl, s, m);
    } else if m.Complete? || m.Release? || m.Cleanup? || m.Die? || m.Arrive? {
      EndingKeepsExpiring(ttl, s, m);
    } else if m.Tick? || m.LoseLock? {
      TimeKeepsExpiring(ttl, s, m);
    } else {
      WaitingKeepsExpiring(ttl, s, m);
    }
  }

  lemma {:induction false} RunKeepsExpiring(ttl: Ttl, s: Sys, moves: seq<Move>)
    requires ttl.key <= ttl.lock && Expiring(ttl, s) && Run(ttl, s, moves).Some?
    ensures Expiring(ttl, Run(ttl, s, moves).value)
    decreases |moves|
  {
    hide Expiring, Next;
    if moves != [] {
      NextKeepsExpiring(ttl, s, moves[0]);
      RunKeepsExpiring(ttl, Next(ttl, s, moves[0]).value, moves[1..]);
    }
  }

  /** Short keys need no bound: a completed record lasts until it expires. */
  lemma {:induction false} ShortKeysKeepCompleted(ttl: Ttl, s: Sys, moves: seq<Move>, r: Row)
    requires ttl.key <= ttl.lock && Expiring(ttl, s) && HoldsCompleted(s, r)
    requires Run(ttl, s, moves).Some? && Run(ttl, s, moves).value.now < r.expiresAt
    ensures HoldsCompleted(Run(ttl, s, moves).value, r)
    decreases |moves|
  {
    hide Expiring, Next, Guarded;
    if moves != [] {
      ClockNeverGoesBack(ttl, s, moves);
      NextKeepsExpiring(ttl, s, moves[0]);
      ExpiringIsGuarded(ttl, s);
      NextKeepsCompleted(ttl, s, moves[0], r);
      ShortKeysKeepCompleted(ttl, Next(ttl, s, moves[0]).value, moves[1..], r);
    }
  }

  /** Handlers end within the lock time, or keys do not outlive locks. */
  predicate RecordsAreSafe(ttl: Ttl, bound: nat) {
    bound <= ttl.lock || ttl.key <= ttl.lock
  }

  lemma {:induction false} CompletedRecordStays(ttl: Ttl, bound: nat, s0: Sys, before: seq<Move>, s: Sys, r: Row,
      moves: seq<Move>, later: Sys)
    requires RecordsAreSafe(ttl, bound) && Initial(s0)
    requires PromptPath(ttl, bound, s0, before, s) && HoldsCompleted(s, r)
    requires PromptPath(ttl, bound, s, moves, later) && later.now < r.expiresAt
    ensures HoldsCompleted(later, r) && Guarded(later)
  {
    if ttl.key <= ttl.lock {
      RunKeepsExpiring(ttl, s0, before);
      ShortKeysKeepCompleted(ttl, s, moves, r);
      RunKeepsExpiring(ttl, s, moves);
      ExpiringIsGuarded(ttl, later);
    } else {
      PromptRunKeepsBounded(ttl, bound, s0, before);
      CompletedRecordIsImmutable(ttl, bound, s, moves, r);
      PromptRunKeepsBounded(ttl, bound, s, moves);
      BoundedIsGuarded(ttl, later);
    }
  }

  /**
   Until a completed record expires, every request that reads it answers with exactly the
   stored status and body if its fingerprint is the same, and with a mismatch otherwise; and
   none starts a second handler. The condition is the exact one of `CompletedRecordsLastIff`.
   */
  lemma {:induction false} CompletedRecordIsReplayed(ttl: Ttl, bound: nat, s0: Sys, before: seq<Move>, s: Sys, r: Row,
      moves: seq<Move>, later: Sys, m: Move)
    requires RecordsAreSafe(ttl, bound) && Initial(s0)
    requires PromptPath(ttl, bound, s0, before, s) && HoldsCompleted(s, r)
    requires PromptPath(ttl, bound, s, moves, later) && later.now < r.expiresAt
    requires Next(ttl, later, m).Some? && (m.Load? || m.Reload? || m.ReadLockedOut? || m.Insert?)
    ensures var f := FingerprintOf(later.procs[m.p]);
            var answer := if r.fingerprint == f then Replay(r.status.code, r.status.body) else ConflictMismatch;
            var after := Next(ttl, later, m).value.procs[m.p];
            && (m.Load? ==> after == Unlocking(answer))
            && (m.Reload? ==> after == Unlocking(answer))
            && (m.ReadLockedOut? ==> after == Finished(answer))
            && !after.Running?
  {
    hide PromptPath;
    CompletedRecordStays(ttl, bound, s0, before, s, r, moves, later);
  }

  /** A completed record survives until it expires in every run that is prompt for `bound`. */
  ghost predicate CompletedRecordsLast(ttl: Ttl, bound: nat, s0: Sys) {
    forall moves, s, r, more, later ::
      (&& PromptPath(ttl, bound, s0, moves, s) && HoldsCompleted(s, r)
       && PromptPath(ttl, bound, s, more, later) && later.now < r.expiresAt) ==> HoldsCompleted(later, r)
  }

  /**
   The exact condition for completed records: handlers end within the lock time, or keys do not
   outlive locks. Otherwise a takeover that loaded the row while it was abandoned deletes it by
   id alone, after its completion.
   */
  lemma {:induction false} CompletedRecordsLastIff(ttl: Ttl, bound: nat, s0: Sys)
    requires Initial(s0)
    ensures CompletedRecordsLast(ttl, bound, s0) <==> RecordsAreSafe(ttl, bound)
  {
    if RecordsAreSafe(ttl, bound) {
      forall moves, s, r, more, later | PromptPath(ttl, bound, s0, moves, s) && HoldsCompleted(s, r)
                                        && PromptPath(ttl, bound, s, more, later) && later.now < r.expiresAt
        ensures HoldsCompleted(later, r)
      {
        CompletedRecordStays(ttl, bound, s0, moves, s, r, more, later);
      }
    } else {
      var first, s := TakeoverBegins(ttl, bound, s0, 0, 1, "");
      var done := Next(ttl, s, Complete(0, 201, "")).value;
      var second := Extend(ttl, bound, s0, first, s, Complete(0, 201, ""));
      var third, m := TakeoverEnds(ttl, bound, done, 1, "");
      assert HoldsCompleted(done, done.slot.row.value) && !HoldsCompleted(m, done.slot.row.value);
    }
  }
}
