/**
 Partner outcomes: how one HTTP exchange is classified, and what a whole call with retries
 may conclude from the outcomes of its attempts.
 */
module Partner {
  import opened Wrappers

  datatype Outcome = Success(confirmation: string) | Rejected | NotSent | Unknown

  datatype CallResult = CallResult(outcome: Outcome, retryable: bool)

  /** The partner's answer to a status check. */
  datatype Answer = HasCredit(confirmation: string) | NotFound | Unreachable

  datatype StatusResult = StatusResult(answer: Answer, retryable: bool)

  /** A response, reduced to its code and the confirmation_id of its body if that is a string. */
  datatype Response = Response(code: nat, confirmation: Option<string>)

  /** What one exchange with the partner yields. */
  datatype Exchange = Replied(response: Response) | ConnectFailed | NoResponse

  predicate Confirms(r: Response) {
    r.confirmation.Some? && r.confirmation.value != ""
  }

  predicate IsCreditOk(code: nat) {
    code == 200 || code == 201
  }

  function ClassifyCreditResponse(r: Response): CallResult {
    if IsCreditOk(r.code) then
      if Confirms(r) then CallResult(Success(r.confirmation.value), false)
      else CallResult(Unknown, true)
    else if r.code == 429 then CallResult(NotSent, true)
    else if 400 <= r.code < 500 then CallResult(Rejected, false)
    else CallResult(Unknown, true)
  }

  function ClassifyCredit(e: Exchange): CallResult {
    match e
    case Replied(r) => ClassifyCreditResponse(r)
    case ConnectFailed => CallResult(NotSent, true)
    case NoResponse => CallResult(Unknown, true)
  }

  function ClassifyStatus(e: Exchange): StatusResult {
    match e
    case Replied(r) =>
      if r.code == 200 && Confirms(r) then StatusResult(HasCredit(r.confirmation.value), false)
      else if r.code == 404 then StatusResult(NotFound, false)
      else StatusResult(Unreachable, true)
    case _ => StatusResult(Unreachable, true)
  }

  /** SUCCESS and REJECTED settle the matter: nothing is sent after them. */
  predicate Definite(o: Outcome) {
    o.Success? || o.Rejected?
  }

  /** No attempt so far settled the matter. */
  predicate Undecided(outcomes: seq<Outcome>) {
    outcomes != [] ==> !Definite(outcomes[|outcomes| - 1])
  }

  /** A definite outcome is never marked retryable. */
  predicate WellBehaved(r: CallResult) {
    Definite(r.outcome) ==> !r.retryable
  }

  /** The HTTP adapter is well behaved, retries all else, and confirms with a usable id. */
  lemma {:induction false} HttpAdapterIsWellBehaved(e: Exchange)
    ensures WellBehaved(ClassifyCredit(e))
    ensures !Definite(ClassifyCredit(e).outcome) ==> ClassifyCredit(e).retryable
    ensures ClassifyCredit(e).outcome.Success? ==> ClassifyCredit(e).outcome.confirmation != ""
    ensures ClassifyStatus(e).retryable <==> ClassifyStatus(e).answer.Unreachable?
    ensures ClassifyStatus(e).answer.HasCredit? ==> ClassifyStatus(e).answer.confirmation != ""
  {
  }

  /** Which exchange gives which outcome of a credit request: the whole table. */
  lemma {:induction false} CreditTable(e: Exchange, id: string)
    ensures ClassifyCredit(e).outcome == Success(id) <==>
            e.Replied? && e.response.code in {200, 201} && e.response.confirmation == Some(id) && id != ""
    ensures ClassifyCredit(e).outcome == NotSent <==>
            e.ConnectFailed? || (e.Replied? && e.response.code == 429)
    ensures ClassifyCredit(e).outcome == Rejected <==>
            e.Replied? && 400 <= e.response.code <= 499 && e.response.code != 429
    ensures ClassifyCredit(e).outcome == Unknown <==>
            || e.NoResponse?
            || (&& e.Replied? && !(400 <= e.response.code <= 499)
                && (e.response.code in {200, 201} ==> e.response.confirmation in {None, Some("")}))
  {
  }

  /** And of a status request. */
  lemma {:induction false} StatusTable(e: Exchange, id: string)
    ensures ClassifyStatus(e).answer == HasCredit(id) <==>
            e.Replied? && e.response.code == 200 && e.response.confirmation == Some(id) && id != ""
    ensures ClassifyStatus(e).answer == NotFound <==> e.Replied? && e.response.code == 404
    ensures ClassifyStatus(e).answer == Unreachable <==>
            || !e.Replied?
            || (&& e.response.code != 404
                && (e.response.code == 200 ==> e.response.confirmation in {None, Some("")}))
  {
  }

  /** The conclusion of a call from the outcomes of its attempts, in order. */
  function FinalOutcome(outcomes: seq<Outcome>): Outcome {
    if outcomes != [] && Definite(outcomes[|outcomes| - 1]) then outcomes[|outcomes| - 1]
    else if Unknown in outcomes then Unknown
    else NotSent
  }
}
