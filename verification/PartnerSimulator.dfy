/**
 The reference partner: its credits, its failure modes, and the two requests it serves. The
 code of each request is proved to be one of the partner steps of the protocol.
 */
module PartnerSimulator {
  import opened Wrappers
  import opened Partner
  import opened Protocol

  datatype Mode = Normal | Reject | Error | Unavailable | Timeout | TimeoutAfterCommit | Slow | Flaky

  datatype Key = Key(partner: string, reference: nat)

  /** The step of the protocol's partner that a mode amounts to; `coin` decides a flaky partner. */
  function HandlingOf(mode: Mode, coin: bool, confirmation: string): Handling {
    match mode
    case Error => Fails(500)
    case Unavailable => Fails(503)
    case Timeout => Fails(504)
    case Flaky => if coin then Fails(500) else Processes(confirmation, None, false)
    case Reject => Processes(confirmation, Some(422), false)
    case _ => Processes(confirmation, None, false)
  }

  function FailureOf(mode: Mode, coin: bool): Option<Response> {
    match mode
    case Error => Some(Response(500, None))
    case Unavailable => Some(Response(503, None))
    case Flaky => if coin then Some(Response(500, None)) else None
    case _ => None
  }

  /** The reply to a credit request, and the credits of its reference afterwards. */
  function Served(credits: map<string, PartnerCredit>, attempt: nat, job: Job, mode: Mode, coin: bool,
      confirmation: string)
    : (Response, map<string, PartnerCredit>)
  {
    if FailureOf(mode, coin).Some? then (FailureOf(mode, coin).value, credits)
    else if mode == Timeout then (Response(504, None), credits)
    else if job.partner in credits then
      var existing := credits[job.partner];
      if existing.member == job.member && existing.points == job.points
      then (Response(200, Some(existing.confirmation)), credits)
      else (Response(409, None), credits)
    else if mode == Reject then (Response(422, None), credits)
    else (Response(201, Some(confirmation)),
          credits[job.partner := PartnerCredit(job.member, job.points, confirmation, attempt)])
  }

  /** Serving a credit request is the partner's step of the protocol on the lane of that reference, reply included. */
  lemma {:induction false} ServedIsHandled(l: Lane, attempt: nat, mode: Mode, coin: bool, confirmation: string)
    requires attempt in l.wire && confirmation != ""
    ensures var (reply, credits) := Served(l.credits, attempt, l.wire[attempt], mode, coin, confirmation);
            var after := Handle(l, attempt, HandlingOf(mode, coin, confirmation));
            && after.Some? && after.value.credits == credits
            && attempt in after.value.replies && after.value.replies[attempt] == reply
  {
    var how := HandlingOf(mode, coin, confirmation);
    var m := l.wire[attempt];
    if how.Fails? {
      assert Handle(l, attempt, how) == Some(Answered(l, attempt, Response(how.code, None)));
    } else if m.partner in l.credits {
      assert Handle(l, attempt, how).Some?;
    } else {
      assert mode == Reject <==> how.declines.Some?;
    }
  }

  class Simulator {
    var credits: map<Key, PartnerCredit>

    constructor ()
      ensures credits == map[]
    {
      credits := map[];
    }

    /** The credits under one reference, by partner: what a lane of the protocol holds. */
    function CreditsOf(reference: nat): map<string, PartnerCredit>
      reads this
    {
      map k | k in credits && k.reference == reference :: k.partner := credits[k]
    }

    /** Serves a credit request; every other reference is left alone. */
    method CreateCredit(reference: nat, attempt: nat, job: Job, mode: Mode, coin: bool, confirmation: string)
      returns (r: Response)
      requires confirmation != ""
      modifies this
      ensures (r, CreditsOf(reference)) == Served(old(CreditsOf(reference)), attempt, job, mode, coin, confirmation)
      ensures forall other :: other != reference ==> CreditsOf(other) == old(CreditsOf(other))
    {
      var failure := FailureOf(mode, coin);
      if failure.Some? {
        return failure.value;
      }
      if mode == Timeout {
        return Response(504, None);
      }
      var key := Key(job.partner, reference);
      if key in credits {
        var existing := credits[key];
        if existing.member != job.member || existing.points != job.points {
          return Response(409, None);
        }
        return Response(200, Some(existing.confirmation));
      }
      if mode == Reject {
        return Response(422, None);
      }
      var credit := PartnerCredit(job.member, job.points, confirmation, attempt);
      credits := credits[key := credit];
      assert CreditsOf(reference) == old(CreditsOf(reference))[job.partner := credit];
      return Response(201, Some(confirmation));
    }

    /** A status request changes nothing and answers truthfully, or fails as a whole. */
    method GetCredit(reference: nat, partner: string, mode: Mode, coin: bool) returns (r: Response)
      requires forall k <- credits :: credits[k].confirmation != ""
      ensures forall l: Lane | l.credits == CreditsOf(reference) ::
                ClassifyStatus(Replied(r)).answer == StatusAnswer(l, partner, FailureOf(mode, coin).None?)
    {
      var failure := FailureOf(mode, coin);
      if failure.Some? {
        return failure.value;
      }
      var key := Key(partner, reference);
      if key !in credits {
        return Response(404, None);
      }
      return Response(200, Some(credits[key].confirmation));
    }
  }

  // ---------------------------------------------------------------- over any list of requests

  /** One credit request under a reference, with the mode it meets. */
  datatype Ask = Ask(attempt: nat, job: Job, mode: Mode, coin: bool, confirmation: string)

  function Serve(credits: map<string, PartnerCredit>, ask: Ask): (Response, map<string, PartnerCredit>) {
    Served(credits, ask.attempt, ask.job, ask.mode, ask.coin, ask.confirmation)
  }

  function ServeAll(credits: map<string, PartnerCredit>, asks: seq<Ask>): map<string, PartnerCredit> {
    if asks == [] then credits else Serve(ServeAll(credits, asks[..|asks| - 1]), asks[|asks| - 1]).1
  }

  /** The request is processed: no failure comes before it. */
  predicate IsProcessed(ask: Ask) {
    FailureOf(ask.mode, ask.coin).None? && ask.mode != Timeout
  }

  /** What a request is answered, mode by mode, and when it is credited. */
  lemma {:induction false} ModeTable(credits: map<string, PartnerCredit>, ask: Ask)
    ensures var code := Serve(credits, ask).0.code;
            match ask.mode
            case Error => code == 500
            case Unavailable => code == 503
            case Timeout => code == 504
            case Flaky => ask.coin ==> code == 500
            case Reject => ask.job.partner !in credits ==> code == 422
            case _ => ask.job.partner !in credits ==> code == 201
    ensures Serve(credits, ask).1 != credits ==> Serve(credits, ask).0 == Response(201, Some(ask.confirmation))
    ensures IsProcessed(ask) && ask.mode != Reject && ask.job.partner !in credits ==>
              && Serve(credits, ask).0.code == 201
              && Serve(credits, ask).1 == credits[ask.job.partner :=
                   PartnerCredit(ask.job.member, ask.job.points, ask.confirmation, ask.attempt)]
  {
  }

  /** Once given, a credit stands through any list of later requests. */
  lemma {:induction false} CreditStands(credits: map<string, PartnerCredit>, asks: seq<Ask>, partner: string)
    requires partner in credits
    ensures partner in ServeAll(credits, asks) && ServeAll(credits, asks)[partner] == credits[partner]
  {
    if asks != [] {
      CreditStands(credits, asks[..|asks| - 1], partner);
    }
  }

  /**
   The partner is idempotent on the reference: after a request was applied, and whatever came
   in between, the same request changes nothing and gets the first confirmation id.
   */
  lemma {:induction false} AppliedRequestIsReplayed(credits: map<string, PartnerCredit>, first: Ask, between: seq<Ask>,
      again: Ask)
    requires Serve(credits, first).0.code == 201 && again.job == first.job && IsProcessed(again)
    ensures var now := ServeAll(Serve(credits, first).1, between);
            Serve(now, again) == (Response(200, Some(first.confirmation)), now)
  {
    CreditStands(Serve(credits, first).1, between, first.job.partner);
  }

  /** A reference used for a different credit is refused, whatever came in between, and the first stands. */
  lemma {:induction false} ConflictingRequestIsRefused(credits: map<string, PartnerCredit>, first: Ask,
      between: seq<Ask>, other: Ask)
    requires Serve(credits, first).0.code == 201 && IsProcessed(other)
    requires other.job.partner == first.job.partner && other.job != first.job
    ensures var now := ServeAll(Serve(credits, first).1, between);
            Serve(now, other) == (Response(409, None), now)
  {
    CreditStands(Serve(credits, first).1, between, first.job.partner);
  }
}
