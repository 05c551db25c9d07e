/** What holds of a legacy transaction over whole runs, serial or interleaved. */
module TransactionRuns {
  import opened Prelude
  import opened Credentials
  import opened SubmissionVerifier
  import opened Interleaving
  import opened Transactions

  /** The recorded holder presented something the verifier accepted for this transaction's request. */
  ghost predicate Verified(cfg: TransactionConfig, t: Transaction, s: HolderSubmission) {
    && s.result.errors == []
    && exists vp: Presentation :: vp.holder == s.vpHolder && Verify(cfg.verifier, vp, t.vpRequest) == Verdict(s.result)
  }

  ghost predicate Inv(cfg: TransactionConfig, t: Transaction) {
    && (t.review.Some? <==> t.IsMediated())
    && (t.submission.Some? ==> Verified(cfg, t, t.submission.value))
    && (t.review.Some? ==>
          && (t.submission.Some? ==> t.review.value.status != PendingSubmission)
          && (t.review.value.status == PendingReview ==> t.submission.Some?)
          && (Rank(t.review.value.status) < 2 ==> t.review.value.vp.None?))
  }

  function Rank(status: ReviewStatus): nat {
    match status
    case PendingSubmission => 0
    case PendingReview => 1
    case Approved => 2
    case Rejected => 2
  }

  /**
   What no request undoes: the request and the callbacks; the rank of a review; the holder of a submission; and,
   when mediated, the whole submission.
   */
  ghost predicate Grows(a: Transaction, b: Transaction) {
    && a.transactionId == b.transactionId && a.exchangeId == b.exchangeId
    && a.vpRequest == b.vpRequest && a.callback == b.callback
    && a.review.Some? == b.review.Some?
    && (a.review.Some? ==> Rank(a.review.value.status) <= Rank(b.review.value.status))
    && (a.submission.Some? ==> b.submission.Some? && b.submission.value.vpHolder == a.submission.value.vpHolder)
    && (a.submission.Some? && a.IsMediated() ==> b.submission == a.submission)
  }

  lemma NewInv(cfg: TransactionConfig, transactionId: string, exchangeId: string, vpRequest: VpRequest,
               callback: seq<string>, reviewId: string)
    ensures Inv(cfg, NewTransaction(transactionId, exchangeId, vpRequest, callback, reviewId))
  {
  }

  lemma StaysVerified(cfg: TransactionConfig, t: Transaction, t': Transaction, s: HolderSubmission)
    requires Verified(cfg, t, s) && t'.vpRequest == t.vpRequest
    ensures Verified(cfg, t', s)
  {
    var vp: Presentation :| vp.holder == s.vpHolder && Verify(cfg.verifier, vp, t.vpRequest) == Verdict(s.result);
  }

  lemma DecideInv(cfg: TransactionConfig, t: Transaction, r: TransactionRequest)
    requires Inv(cfg, t) && r.Decided?
    ensures Inv(cfg, After(cfg, t, r)) && Grows(t, After(cfg, t, r))
  {
    if t.submission.Some? {
      StaysVerified(cfg, t, After(cfg, t, r), t.submission.value);
    }
  }

  lemma ContinueInv(cfg: TransactionConfig, t: Transaction, r: TransactionRequest)
    requires Inv(cfg, t) && r.Continue?
    ensures Inv(cfg, After(cfg, t, r)) && Grows(t, After(cfg, t, r))
  {
    var t' := After(cfg, t, r);
    if t'.submission == t.submission {
      if t.submission.Some? {
        StaysVerified(cfg, t, t', t.submission.value);
      }
    } else {
      assert Verify(cfg.verifier, r.vp, t.vpRequest) == Verdict(t'.submission.value.result);
    }
  }

  lemma AfterInv(cfg: TransactionConfig, t: Transaction, r: TransactionRequest)
    requires Inv(cfg, t)
    ensures Inv(cfg, After(cfg, t, r)) && Grows(t, After(cfg, t, r))
  {
    match r {
      case Decided(_) => DecideInv(cfg, t, r);
      case Continue(_) => ContinueInv(cfg, t, r);
    }
  }

  /** Over any run the review rank never falls, and a recorded holder stays the holder, mediated or not. */
  lemma {:induction false} RunInv(cfg: TransactionConfig, t: Transaction, requests: seq<TransactionRequest>)
    requires Inv(cfg, t)
    ensures Inv(cfg, Run(cfg, t, requests)) && Grows(t, Run(cfg, t, requests))
  {
    if requests != [] {
      var n := |requests| - 1;
      RunInv(cfg, t, requests[..n]);
      AfterInv(cfg, Run(cfg, t, requests[..n]), requests[n]);
    }
  }

  /** Where the code asks whether to overwrite an earlier submission there never is one. */
  lemma NothingToOverwrite(cfg: TransactionConfig, t: Transaction, requests: seq<TransactionRequest>)
    requires Inv(cfg, t)
    requires var t' := Run(cfg, t, requests); t'.review.Some? && t'.review.value.status == PendingSubmission
    ensures Run(cfg, t, requests).submission.None?
  {
    RunInv(cfg, t, requests);
  }

  /** Under any interleaving of load and save halves the invariant holds of the stored transaction. */
  lemma ConcurrentInv(cfg: TransactionConfig, t: Transaction, events: seq<Event<TransactionRequest>>)
    requires Inv(cfg, t)
    ensures Inv(cfg, Interleave(ServerOf(cfg), Initial(t), events).stored)
  {
    forall v: Transaction, r: TransactionRequest | Inv(cfg, v) ensures Inv(cfg, Apply(ServerOf(cfg), v, r)) {
      AfterInv(cfg, v, r);
    }
    InvariantSurvives(ServerOf(cfg), (v: Transaction) => Inv(cfg, v), t, events);
  }

  // ---- Callbacks ----

  function TotalPosts(cfg: TransactionConfig, t: Transaction, requests: seq<TransactionRequest>): nat {
    if requests == [] then 0
    else
      var n := |requests| - 1;
      TotalPosts(cfg, t, requests[..n]) + |Serve(cfg, Run(cfg, t, requests[..n]), requests[n]).posts|
  }

  predicate HasDecision(requests: seq<TransactionRequest>) {
    exists i :: 0 <= i < |requests| && requests[i].Decided?
  }

  /** An accepted submission; when mediated, one made before the first decision. */
  predicate Notifies(cfg: TransactionConfig, t: Transaction, before: seq<TransactionRequest>, r: TransactionRequest) {
    r.Continue? && Serve(cfg, Run(cfg, t, before), r).reply.Response? && !(t.IsMediated() && HasDecision(before))
  }

  function Notifying(cfg: TransactionConfig, t: Transaction, requests: seq<TransactionRequest>): nat {
    if requests == [] then 0
    else
      var n := |requests| - 1;
      Notifying(cfg, t, requests[..n]) + if Notifies(cfg, t, requests[..n], requests[n]) then 1 else 0
  }

  ghost predicate Fresh(t: Transaction) {
    && (t.review.Some? <==> t.IsMediated())
    && t.submission.None?
    && (t.review.Some? ==> t.review.value.status == PendingSubmission && t.review.value.vp.None?)
  }

  lemma AfterDecided(cfg: TransactionConfig, t: Transaction, r: TransactionRequest)
    requires t.review.Some?
    ensures var t' := After(cfg, t, r);
            t'.review.Some? && (Rank(t'.review.value.status) == 2 <==> r.Decided? || Rank(t.review.value.status) == 2)
  {
  }

  lemma HasDecisionSnoc(requests: seq<TransactionRequest>)
    requires requests != []
    ensures var n := |requests| - 1; HasDecision(requests) <==> HasDecision(requests[..n]) || requests[n].Decided?
  {
    var n := |requests| - 1;
    if HasDecision(requests[..n]) {
      var i :| 0 <= i < n && requests[..n][i].Decided?;
      assert requests[i].Decided?;
    }
    if HasDecision(requests) && !requests[n].Decided? {
      var i :| 0 <= i <= n && requests[i].Decided?;
      assert requests[..n][i].Decided?;
    }
  }

  lemma {:induction false} DecidedIff(cfg: TransactionConfig, t: Transaction, requests: seq<TransactionRequest>)
    requires Fresh(t) && t.IsMediated()
    ensures var t' := Run(cfg, t, requests);
            t'.review.Some? && (Rank(t'.review.value.status) == 2 <==> HasDecision(requests))
  {
    if requests != [] {
      var n := |requests| - 1;
      DecidedIff(cfg, t, requests[..n]);
      AfterDecided(cfg, Run(cfg, t, requests[..n]), requests[n]);
      HasDecisionSnoc(requests);
    }
  }

  lemma ServePosts(cfg: TransactionConfig, t: Transaction, r: TransactionRequest)
    requires Inv(cfg, t)
    ensures |Serve(cfg, t, r).posts| ==
            if r.Continue? && Serve(cfg, t, r).reply.Response? && !(t.IsMediated() && Rank(t.review.value.status) == 2)
            then |t.callback| else 0
  {
  }

  lemma PostsOfOne(cfg: TransactionConfig, t: Transaction, before: seq<TransactionRequest>, r: TransactionRequest)
    requires Fresh(t)
    ensures |Serve(cfg, Run(cfg, t, before), r).posts| == if Notifies(cfg, t, before, r) then |t.callback| else 0
  {
    RunInv(cfg, t, before);
    if t.IsMediated() {
      DecidedIff(cfg, t, before);
    }
    ServePosts(cfg, Run(cfg, t, before), r);
  }

  lemma OneMore(p: nat, k: nat, c: nat, more: bool, p': nat, k': nat)
    requires p == k * c
    requires p' == p + (if more then c else 0) && k' == k + if more then 1 else 0
    ensures p' == k' * c
  {
  }

  lemma CountOne(cfg: TransactionConfig, t: Transaction, requests: seq<TransactionRequest>)
    requires Fresh(t) && requests != []
    ensures var n := |requests| - 1;
            var more := Notifies(cfg, t, requests[..n], requests[n]);
            && Notifying(cfg, t, requests) == Notifying(cfg, t, requests[..n]) + (if more then 1 else 0)
            && TotalPosts(cfg, t, requests) == TotalPosts(cfg, t, requests[..n]) + if more then |t.callback| else 0
  {
    PostsOfOne(cfg, t, requests[..|requests| - 1], requests[|requests| - 1]);
  }

  /** Conservation: posts attempted are the configured callbacks times the submissions that notify. */
  lemma {:induction false} CallbackConservation(cfg: TransactionConfig, t: Transaction, requests: seq<TransactionRequest>)
    requires Fresh(t)
    ensures TotalPosts(cfg, t, requests) == Notifying(cfg, t, requests) * |t.callback|
  {
    if requests != [] {
      var n := |requests| - 1;
      CallbackConservation(cfg, t, requests[..n]);
      CountOne(cfg, t, requests);
      OneMore(TotalPosts(cfg, t, requests[..n]), Notifying(cfg, t, requests[..n]), |t.callback|,
              Notifies(cfg, t, requests[..n], requests[n]), TotalPosts(cfg, t, requests), Notifying(cfg, t, requests));
    }
  }

  // ---- Where an issued presentation comes from ----

  /** The presentation of the most recent approval; rejections do not count. */
  function LastIssued(requests: seq<TransactionRequest>): Option<Presentation> {
    if requests == [] then None
    else
      var r := requests[|requests| - 1];
      if r.Decided? && r.decision.Approve? then r.decision.vp else LastIssued(requests[..|requests| - 1])
  }

  lemma AfterHolds(cfg: TransactionConfig, t: Transaction, r: TransactionRequest)
    requires t.review.Some?
    ensures var t' := After(cfg, t, r);
            t'.review.Some? && t'.review.value.vp ==
            if r.Decided? && r.decision.Approve? then r.decision.vp else t.review.value.vp
  {
  }

  lemma {:induction false} HeldIsLastIssued(cfg: TransactionConfig, t: Transaction, requests: seq<TransactionRequest>)
    requires Fresh(t) && t.IsMediated()
    ensures var t' := Run(cfg, t, requests); t'.review.Some? && t'.review.value.vp == LastIssued(requests)
  {
    if requests != [] {
      var n := |requests| - 1;
      HeldIsLastIssued(cfg, t, requests[..n]);
      AfterHolds(cfg, Run(cfg, t, requests[..n]), requests[n]);
    }
  }

  /**
   The answer to a submission carries a presentation only after a decision, and then it is the one passed in the most
   recent approval, even when that was rejected later.
   */
  lemma VpProvenance(cfg: TransactionConfig, t: Transaction, requests: seq<TransactionRequest>, vp: Presentation)
    requires Fresh(t)
    requires Process(cfg.verifier, Run(cfg, t, requests), vp).1.Answered?
    ensures var response := Process(cfg.verifier, Run(cfg, t, requests), vp).1.response;
            && (response.vp.Some? ==> t.IsMediated() && HasDecision(requests))
            && (response.errors == [] && t.IsMediated() && HasDecision(requests) ==> response.vp == LastIssued(requests))
  {
    RunInv(cfg, t, requests);
    if t.IsMediated() {
      DecidedIff(cfg, t, requests);
      HeldIsLastIssued(cfg, t, requests);
    }
  }

  /** A holder is told to wait, and given the request again, exactly while a mediated transaction is undecided. */
  lemma InProgressIff(cfg: TransactionConfig, t: Transaction, requests: seq<TransactionRequest>, vp: Presentation)
    requires Fresh(t)
    requires var answer := Process(cfg.verifier, Run(cfg, t, requests), vp).1;
             answer.Answered? && answer.response.errors == []
    ensures var answer := Process(cfg.verifier, Run(cfg, t, requests), vp).1;
            && (answer.response.processingInProgress <==> t.IsMediated() && !HasDecision(requests))
            && answer.response.vpRequest == (if answer.response.processingInProgress then Some(t.vpRequest) else None)
            && answer.callback == (if t.IsMediated() && HasDecision(requests) then [] else t.callback)
  {
    RunInv(cfg, t, requests);
    if t.IsMediated() {
      DecidedIff(cfg, t, requests);
    }
  }
}
