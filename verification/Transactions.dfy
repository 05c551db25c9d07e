/** One legacy exchange transaction: submissions, mediated review, holder binding. */
module Transactions {
  import opened Prelude
  import opened Credentials
  import opened SubmissionVerifier
  import opened Interleaving

  datatype ReviewStatus = PendingSubmission | PendingReview | Approved | Rejected

  datatype PresentationReview = PresentationReview(reviewId: string, status: ReviewStatus, vp: Option<Presentation>)

  /** Only the holder of the submitted presentation is kept. */
  datatype HolderSubmission = HolderSubmission(vpHolder: Option<string>, result: VerificationResult)

  datatype Transaction = Transaction(transactionId: string, exchangeId: string, vpRequest: VpRequest,
                                     review: Option<PresentationReview>, submission: Option<HolderSubmission>,
                                     callback: seq<string>)
  {
    predicate IsMediated() {
      vpRequest.services != [] && vpRequest.services[0].kind.Mediated?
    }
  }

  datatype TransactionResponse = TransactionResponse(errors: seq<SubmissionError>, vpRequest: Option<VpRequest>,
                                                     vp: Option<Presentation>, processingInProgress: bool)

  /** `NoAnswer` covers the exceptions and the undefined result for another kind of interaction, on which the service throws. */
  datatype Answer = Answered(response: TransactionResponse, callback: seq<string>) | HolderForbidden | NoAnswer

  function NewTransaction(transactionId: string, exchangeId: string, vpRequest: VpRequest, callback: seq<string>,
                          reviewId: string): Transaction
  {
    var t := Transaction(transactionId, exchangeId, vpRequest, None, None, callback);
    if t.IsMediated() then t.(review := Some(PresentationReview(reviewId, PendingSubmission, None))) else t
  }

  /** `processPresentation` on values. */
  function Process(v: Verifier, t: Transaction, vp: Presentation): (Transaction, Answer) {
    if t.submission.Some? && t.submission.value.vpHolder != vp.holder then (t, HolderForbidden)
    else
      match Verify(v, vp, t.vpRequest)
      case VerdictThrew => (t, NoAnswer)
      case Verdict(result) =>
        var submission := Some(HolderSubmission(vp.holder, result));
        if result.errors != [] then (t, Answered(TransactionResponse(result.errors, None, None, false), []))
        else if t.vpRequest.services == [] then (t, NoAnswer)
        else
          match t.vpRequest.services[0].kind
          case Mediated =>
            if t.review.None? then (t, NoAnswer)
            else
              var inProgress := Answered(TransactionResponse([], Some(t.vpRequest), None, true), t.callback);
              (match t.review.value.status
               case PendingSubmission =>
                 var recorded := if t.submission.None? then t.(submission := submission) else t;
                 (recorded.(review := Some(t.review.value.(status := PendingReview))), inProgress)
               case PendingReview => (t, inProgress)
               case Approved => (t, Answered(TransactionResponse([], None, t.review.value.vp, false), []))
               case Rejected => (t, Answered(TransactionResponse([], None, t.review.value.vp, false), [])))
          case Unmediated =>
            (t.(submission := submission), Answered(TransactionResponse([], None, None, false), t.callback))
          case OtherInteraction(_) => (t, NoAnswer)
  }

  datatype Decision = Approve(vp: Option<Presentation>) | Reject

  /** A decision is taken in any status; without a review to decide it throws. A rejection keeps the presentation. */
  function Decide(t: Transaction, d: Decision): Option<Transaction> {
    if t.review.None? then None
    else match d
      case Approve(vp) => Some(t.(review := Some(t.review.value.(status := Approved, vp := vp))))
      case Reject => Some(t.(review := Some(t.review.value.(status := Rejected))))
  }

  class TransactionEntity {
    var transactionId: string
    var exchangeId: string
    var vpRequest: VpRequest
    var presentationReview: Option<PresentationReview>
    var presentationSubmission: Option<HolderSubmission>
    var callback: seq<string>

    function Value(): Transaction reads this {
      Transaction(transactionId, exchangeId, vpRequest, presentationReview, presentationSubmission, callback)
    }

    constructor (transactionId: string, exchangeId: string, vpRequest: VpRequest, callback: seq<string>, reviewId: string)
      ensures Value() == NewTransaction(transactionId, exchangeId, vpRequest, callback, reviewId)
    {
      this.transactionId := transactionId;
      this.exchangeId := exchangeId;
      this.vpRequest := vpRequest;
      this.presentationSubmission := None;
      this.presentationReview := None;
      if |vpRequest.services| > 0 && vpRequest.services[0].kind == Mediated {
        this.presentationReview := Some(PresentationReview(reviewId, PendingSubmission, None));
      }
      this.callback := callback;
    }

    constructor FromStore(t: Transaction)
      ensures Value() == t
    {
      transactionId, exchangeId, vpRequest := t.transactionId, t.exchangeId, t.vpRequest;
      presentationReview, presentationSubmission, callback := t.review, t.submission, t.callback;
    }

    method ApprovePresentationSubmission(vp: Option<Presentation>) returns (threw: bool)
      modifies this`presentationReview
      ensures match Decide(old(Value()), Approve(vp))
              case None => threw && Value() == old(Value())
              case Some(t) => !threw && Value() == t
    {
      if presentationReview.None? {
        return true;
      }
      presentationReview := Some(presentationReview.value.(status := Approved));
      presentationReview := Some(presentationReview.value.(vp := vp));
      return false;
    }

    method RejectPresentationSubmission() returns (threw: bool)
      modifies this`presentationReview
      ensures match Decide(old(Value()), Reject)
              case None => threw && Value() == old(Value())
              case Some(t) => !threw && Value() == t
    {
      if presentationReview.None? {
        return true;
      }
      presentationReview := Some(presentationReview.value.(status := Rejected));
      return false;
    }

    method ProcessPresentation(v: Verifier, vp: Presentation) returns (answer: Answer)
      modifies this`presentationReview, this`presentationSubmission
      ensures (Value(), answer) == Process(v, old(Value()), vp)
    {
      if presentationSubmission.Some? && presentationSubmission.value.vpHolder != vp.holder {
        return HolderForbidden;
      }
      var verdict := VerifyVpRequestSubmission(v, vp, vpRequest);
      if verdict.VerdictThrew? {
        return NoAnswer;
      }
      var errors := verdict.result.errors;
      if |errors| > 0 {
        return Answered(TransactionResponse(errors, None, None, false), []);
      }
      if vpRequest.services == [] {
        return NoAnswer;
      }
      match vpRequest.services[0].kind {
        case Mediated =>
          if presentationReview.None? {
            return NoAnswer;
          }
          match presentationReview.value.status {
            case PendingSubmission =>
              if presentationSubmission.None? {
                presentationSubmission := Some(HolderSubmission(vp.holder, verdict.result));
              }
              presentationReview := Some(presentationReview.value.(status := PendingReview));
              return Answered(TransactionResponse([], Some(vpRequest), None, true), callback);
            case PendingReview =>
              return Answered(TransactionResponse([], Some(vpRequest), None, true), callback);
            case Approved =>
              return Answered(TransactionResponse([], None, presentationReview.value.vp, false), []);
            case Rejected =>
              return Answered(TransactionResponse([], None, presentationReview.value.vp, false), []);
          }
        case Unmediated =>
          presentationSubmission := Some(HolderSubmission(vp.holder, verdict.result));
          return Answered(TransactionResponse([], None, None, false), callback);
        case OtherInteraction(_) =>
          return NoAnswer;
      }
    }
  }

  // ---- What the service saves and posts ----

  /** `validBody` stands for the class-validator checks of the callback body, which run after the save. */
  datatype TransactionConfig = TransactionConfig(verifier: Verifier, validBody: (Transaction, Presentation) -> bool)

  datatype TransactionRequest = Continue(vp: Presentation) | Decided(decision: Decision)

  datatype TransactionReply =
    | Response(response: TransactionResponse)
    | ReviewAdded
    | SubmissionErrors(errors: seq<SubmissionError>)
    | Forbidden
    | FailedBeforeSave
    | FailedAfterSave

  /** The transaction saved, if any, the reply, and the callback urls that are posted to. */
  datatype Served = Served(saved: Option<Transaction>, reply: TransactionReply, posts: seq<string>)

  function Serve(cfg: TransactionConfig, t: Transaction, r: TransactionRequest): Served {
    match r
    case Decided(d) =>
      var decided := Decide(t, d);
      Served(decided, if decided.Some? then ReviewAdded else FailedBeforeSave, [])
    case Continue(vp) =>
      match Process(cfg.verifier, t, vp)
      case (_, HolderForbidden) => Served(None, Forbidden, [])
      case (_, NoAnswer) => Served(None, FailedBeforeSave, [])
      case (saved, Answered(response, callback)) =>
        if response.errors != [] then Served(None, SubmissionErrors(response.errors), [])
        else if !cfg.validBody(saved, vp) then Served(Some(saved), FailedAfterSave, [])
        else Served(Some(saved), Response(response), callback)
  }

  function ServerOf(cfg: TransactionConfig): Server<Transaction, TransactionRequest> {
    (t: Transaction, r: TransactionRequest) => Serve(cfg, t, r).saved
  }

  function After(cfg: TransactionConfig, t: Transaction, r: TransactionRequest): Transaction {
    Apply(ServerOf(cfg), t, r)
  }

  function Run(cfg: TransactionConfig, t: Transaction, requests: seq<TransactionRequest>): Transaction {
    Serial(ServerOf(cfg), t, requests)
  }
}
