/**
 A legacy transaction as a function of the requests it has received: every answer and the whole stored value, read off
 fields, the history and the verifier's libraries alone.
 */
module TransactionLaws {
  import opened Prelude
  import opened Credentials
  import opened SubmissionVerifier
  import opened Interleaving
  import opened Transactions
  import opened TransactionRuns

  // ---- One request ----

  ghost function RecordOf(v: Verifier, t: Transaction, vp: Presentation): HolderSubmission {
    HolderSubmission(vp.holder, VerificationResult(ProofValid(v, vp, t.vpRequest.challenge), [], []))
  }

  predicate IsUnmediated(t: Transaction) {
    t.vpRequest.services != [] && t.vpRequest.services[0].kind.Unmediated?
  }

  predicate IsDecided(t: Transaction) {
    t.review.Some? && (t.review.value.status == Approved || t.review.value.status == Rejected)
  }

  /** The transaction that accepting the presentation leaves, and what the holder is answered and which urls are notified. */
  ghost predicate Takes(v: Verifier, t: Transaction, vp: Presentation, t': Transaction, response: TransactionResponse, urls: seq<string>) {
    if IsUnmediated(t) then
      && t' == t.(submission := Some(RecordOf(v, t, vp)))
      && response == TransactionResponse([], None, None, false) && urls == t.callback
    else if t.review.None? then false
    else if IsDecided(t) then
      && t' == t && response == TransactionResponse([], None, t.review.value.vp, false) && urls == []
    else
      && t' == t.(submission := if t.submission.Some? then t.submission else Some(RecordOf(v, t, vp)),
                  review := Some(PresentationReview(t.review.value.reviewId, PendingReview, t.review.value.vp)))
      && response == TransactionResponse([], Some(t.vpRequest), None, true) && urls == t.callback
  }

  /** Another holder than the recorded one. */
  predicate Bars(t: Transaction, vp: Presentation) {
    t.submission.Some? && t.submission.value.vpHolder != vp.holder
  }

  ghost predicate Unserved(served: Served, reply: TransactionReply) {
    served == Served(None, reply, [])
  }

  /** The outcome of a submission: another holder is barred first, then the verifier may throw or refuse, then it is taken. */
  ghost predicate Continued(cfg: TransactionConfig, t: Transaction, vp: Presentation, served: Served) {
    if Bars(t, vp) then Unserved(served, Forbidden)
    else if !Returns(cfg.verifier, vp, t.vpRequest) then Unserved(served, FailedBeforeSave)
    else if !Meets(cfg.verifier, vp, t.vpRequest) then
      && served.reply.SubmissionErrors? && Unserved(served, served.reply) && served.reply.errors != []
      && Lists(cfg.verifier, vp, t.vpRequest, served.reply.errors)
    else if !t.IsMediated() && !IsUnmediated(t) then Unserved(served, FailedBeforeSave)
    else exists response, urls :: TakenAndAnswered(cfg, t, vp, served, response, urls)
  }

  ghost predicate TakenAndAnswered(cfg: TransactionConfig, t: Transaction, vp: Presentation, served: Served,
                                   response: TransactionResponse, urls: seq<string>)
  {
    && served.saved.Some? && Takes(cfg.verifier, t, vp, served.saved.value, response, urls)
    && if cfg.validBody(served.saved.value, vp)
       then served.reply == Response(response) && served.posts == urls
       else served.reply == FailedAfterSave && served.posts == []
  }

  /** The saved transaction and answer of an accepted submission. */
  lemma TakenLaw(cfg: TransactionConfig, t: Transaction, vp: Presentation)
    returns (response: TransactionResponse, urls: seq<string>)
    requires Inv(cfg, t) && !Bars(t, vp) && Meets(cfg.verifier, vp, t.vpRequest) && (t.IsMediated() || IsUnmediated(t))
    ensures TakenAndAnswered(cfg, t, vp, Serve(cfg, t, Continue(vp)), response, urls)
  {
    AcceptedVerdict(cfg.verifier, vp, t.vpRequest);
    response := if IsUnmediated(t) then TransactionResponse([], None, None, false)
                else if IsDecided(t) then TransactionResponse([], None, t.review.value.vp, false)
                else TransactionResponse([], Some(t.vpRequest), None, true);
    urls := if IsDecided(t) then [] else t.callback;
  }

  lemma ContinueLaw(cfg: TransactionConfig, t: Transaction, vp: Presentation)
    requires Inv(cfg, t)
    ensures Continued(cfg, t, vp, Serve(cfg, t, Continue(vp)))
  {
    if !Bars(t, vp) {
      VerdictLaw(cfg.verifier, vp, t.vpRequest);
      AcceptsIff(cfg.verifier, vp, t.vpRequest);
      if Meets(cfg.verifier, vp, t.vpRequest) {
        AcceptedVerdict(cfg.verifier, vp, t.vpRequest);
        if t.IsMediated() || IsUnmediated(t) {
          var _, _ := TakenLaw(cfg, t, vp);
        }
      }
    }
  }

  /** A decision sets the status, an approval also the presentation; without a review it fails. */
  lemma DecideLaw(cfg: TransactionConfig, t: Transaction, d: Decision)
    ensures var served := Serve(cfg, t, Decided(d));
            match t.review
            case None => Unserved(served, FailedBeforeSave)
            case Some(review) =>
              var decided := match d
                case Approve(vp) => PresentationReview(review.reviewId, Approved, vp)
                case Reject => PresentationReview(review.reviewId, Rejected, review.vp);
              served == Served(Some(t.(review := Some(decided))), ReviewAdded, [])
  {
  }

  // ---- The whole history ----

  /** The holder of the first submission accepted at all, or, when mediated, accepted while undecided. */
  function FirstHolder(cfg: TransactionConfig, t: Transaction, requests: seq<TransactionRequest>): Option<Option<string>> {
    if requests == [] then None
    else
      var n := |requests| - 1;
      var before, r := FirstHolder(cfg, t, requests[..n]), requests[n];
      if before.Some? || r.Decided? || !Meets(cfg.verifier, r.vp, t.vpRequest) then before
      else if IsUnmediated(t) || (t.IsMediated() && !HasDecision(requests[..n])) then Some(r.vp.holder)
      else None
  }

  /** The presentation whose verdict is held: the first when mediated, else the latest of the first holder. */
  function Recorded(cfg: TransactionConfig, t: Transaction, requests: seq<TransactionRequest>): Option<Presentation> {
    if requests == [] then None
    else
      var n := |requests| - 1;
      var before, r := Recorded(cfg, t, requests[..n]), requests[n];
      if r.Decided? || !Meets(cfg.verifier, r.vp, t.vpRequest) then before
      else if IsUnmediated(t) then (if before.Some? && before.value.holder != r.vp.holder then before else Some(r.vp))
      else if t.IsMediated() && !HasDecision(requests[..n]) && before.None? then Some(r.vp)
      else before
  }

  function LastDecision(requests: seq<TransactionRequest>): Option<Decision> {
    if requests == [] then None
    else
      var r := requests[|requests| - 1];
      if r.Decided? then Some(r.decision) else LastDecision(requests[..|requests| - 1])
  }

  /** The status is that of the last decision; without one it says whether a submission was accepted. */
  function StatusAfter(cfg: TransactionConfig, t: Transaction, requests: seq<TransactionRequest>): ReviewStatus {
    match LastDecision(requests)
    case Some(Approve(_)) => Approved
    case Some(Reject) => Rejected
    case None => if Recorded(cfg, t, requests).Some? then PendingReview else PendingSubmission
  }

  /** The transaction that the history describes. */
  ghost function Described(cfg: TransactionConfig, t: Transaction, requests: seq<TransactionRequest>): Transaction
    requires Fresh(t)
  {
    var recorded := Recorded(cfg, t, requests);
    Transaction(
      t.transactionId, t.exchangeId, t.vpRequest,
      if t.review.None? then None
      else Some(PresentationReview(t.review.value.reviewId, StatusAfter(cfg, t, requests), LastIssued(requests))),
      if recorded.None? then None else Some(RecordOf(cfg.verifier, t, recorded.value)),
      t.callback)
  }

  lemma {:induction false} DecisionIff(requests: seq<TransactionRequest>)
    ensures HasDecision(requests) <==> LastDecision(requests).Some?
  {
    if requests != [] {
      DecisionIff(requests[..|requests| - 1]);
      HasDecisionSnoc(requests);
    }
  }

  lemma FreshInv(cfg: TransactionConfig, t: Transaction)
    requires Fresh(t)
    ensures Inv(cfg, t)
  {
  }

  lemma DecideStep(cfg: TransactionConfig, t: Transaction, requests: seq<TransactionRequest>)
    requires Fresh(t) && requests != [] && requests[|requests| - 1].Decided?
    ensures After(cfg, Described(cfg, t, requests[..|requests| - 1]), requests[|requests| - 1]) == Described(cfg, t, requests)
  {
    var n := |requests| - 1;
    DecideLaw(cfg, Described(cfg, t, requests[..n]), requests[n].decision);
  }

  lemma ContinueStep(cfg: TransactionConfig, t: Transaction, requests: seq<TransactionRequest>)
    requires Fresh(t) && requests != [] && requests[|requests| - 1].Continue?
    requires Inv(cfg, Described(cfg, t, requests[..|requests| - 1]))
    ensures After(cfg, Described(cfg, t, requests[..|requests| - 1]), requests[|requests| - 1]) == Described(cfg, t, requests)
  {
    var n := |requests| - 1;
    var before, vp := Described(cfg, t, requests[..n]), requests[n].vp;
    DecisionIff(requests[..n]);
    ContinueLaw(cfg, before, vp);
    if !Bars(before, vp) && Meets(cfg.verifier, vp, t.vpRequest) && (t.IsMediated() || IsUnmediated(t)) {
      var _, _ := TakenLaw(cfg, before, vp);
    }
  }

  /** The stored transaction is exactly what its history describes. */
  lemma {:induction false} HistoryLaw(cfg: TransactionConfig, t: Transaction, requests: seq<TransactionRequest>)
    requires Fresh(t)
    ensures Run(cfg, t, requests) == Described(cfg, t, requests)
  {
    if requests != [] {
      var n := |requests| - 1;
      HistoryLaw(cfg, t, requests[..n]);
      FreshInv(cfg, t);
      RunInv(cfg, t, requests[..n]);
      if requests[n].Decided? {
        DecideStep(cfg, t, requests);
      } else {
        ContinueStep(cfg, t, requests);
      }
    }
  }

  lemma {:induction false} FirstHolderIsRecorded(cfg: TransactionConfig, t: Transaction, requests: seq<TransactionRequest>)
    ensures var recorded := Recorded(cfg, t, requests);
            FirstHolder(cfg, t, requests) == if recorded.None? then None else Some(recorded.value.holder)
  {
    if requests != [] {
      FirstHolderIsRecorded(cfg, t, requests[..|requests| - 1]);
    }
  }

  /**
   Holder binding: after any requests, a submission is answered Forbidden, with nothing saved and nobody notified, if and
   only if a first holder exists and is another.
   */
  lemma ForbiddenIff(cfg: TransactionConfig, t: Transaction, requests: seq<TransactionRequest>, vp: Presentation)
    requires Fresh(t)
    ensures var served := Serve(cfg, Run(cfg, t, requests), Continue(vp));
            var first := FirstHolder(cfg, t, requests);
            && (served.reply == Forbidden <==> first.Some? && first.value != vp.holder)
            && (served.reply == Forbidden ==> served == Served(None, Forbidden, []))
  {
    HistoryLaw(cfg, t, requests);
    FirstHolderIsRecorded(cfg, t, requests);
    FreshInv(cfg, t);
    RunInv(cfg, t, requests);
    ContinueLaw(cfg, Run(cfg, t, requests), vp);
    var now := Run(cfg, t, requests);
    if !Bars(now, vp) && Meets(cfg.verifier, vp, now.vpRequest) && (now.IsMediated() || IsUnmediated(now)) {
      var _, _ := TakenLaw(cfg, now, vp);
    }
  }
}
