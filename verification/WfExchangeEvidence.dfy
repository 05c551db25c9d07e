/** What a stored exchange proves about the presentations it holds. */
module WfExchangeEvidence {
  import opened Prelude
  import opened Credentials
  import opened SubmissionVerifier
  import opened ExchangeSteps
  import opened Workflows
  import opened WfExchange
  import opened Interleaving
  import opened WfExchangeRuns

  /** The presentation answers this step's own request: its challenge, and every query the definition asks. */
  ghost predicate Evidence(cfg: Config, def: StepDefinition, s: Step) {
    && s.QueryStep? && def.vpr.Some?
    && s.submission.Some?
    && var vp := s.submission.value.presentation;
    && vp.proof.Some? && vp.proof.value.challenge == Some(s.vpRequest.challenge)
    && ProofSilent(cfg.verifier, vp, s.vpRequest.challenge)
    && s.vpRequest.query == def.vpr.value.query
    && forall q :: 0 <= q < |def.vpr.value.query| ==> QueryPasses(cfg.verifier, vp, def.vpr.value.query[q])
  }

  lemma CompleteQueryHasEvidence(cfg: Config, w: Workflow, ex: Exchange, i: nat)
    requires Inv(cfg, w, ex) && i < |ex.steps| && ex.steps[i].QueryStep?
    ensures ex.steps[i].stepId in w.steps
    ensures ex.steps[i].IsComplete() <==> Evidence(cfg, w.steps[ex.steps[i].stepId], ex.steps[i])
  {
    var s := ex.steps[i];
    assert StepOk(cfg, w, ex.exchangeId, s);
    if s.submission.Some? {
      AcceptsIff(cfg.verifier, s.submission.value.presentation, s.vpRequest);
    }
  }

  /** Every place a step tells the holder to go to is the exchange's own URL, one per service the definition lists, in order. */
  lemma EndpointsAreOwn(cfg: Config, w: Workflow, ex: Exchange, i: nat)
    requires Inv(cfg, w, ex) && i < |ex.steps|
    ensures ex.steps[i].stepId in w.steps
    ensures var s, vpr, url := ex.steps[i], w.steps[ex.steps[i].stepId].vpr,
                               cfg.baseUrl + "/workflows/" + ex.workflowId + "/exchanges/" + ex.exchangeId;
            match s
            case IssuanceStep(_, _, _, redirect, _) => vpr.None? && redirect == url
            case QueryStep(_, _, _, vpRequest, _) =>
              && vpr.Some?
              && |vpRequest.services| == |vpr.value.interactServices|
              && (forall k :: 0 <= k < |vpRequest.services| ==>
                    vpRequest.services[k] == InteractService(vpr.value.interactServices[k], url))
              && vpRequest.query == vpr.value.query && vpRequest.domain == Some(cfg.baseUrl)
  {
    assert StepOk(cfg, w, ex.exchangeId, ex.steps[i]);
  }

  // ---- Challenges ----

  /** No uuid is drawn twice: not the one of the creation and not those of the submitting requests. */
  ghost predicate FreshChallenges(challenge: string, requests: seq<Request>) {
    && (forall k :: 0 <= k < |requests| && requests[k].Submit? ==> requests[k].challenge != challenge)
    && (forall j, k :: 0 <= j < k < |requests| && requests[j].Submit? && requests[k].Submit? ==>
          requests[j].challenge != requests[k].challenge)
  }

  ghost function Drawn(challenge: string, requests: seq<Request>): set<string> {
    {challenge} + set k | 0 <= k < |requests| && requests[k].Submit? :: requests[k].challenge
  }

  ghost predicate ChallengesFrom(steps: seq<Step>, drawn: set<string>) {
    && (forall i :: 0 <= i < |steps| && steps[i].QueryStep? ==> steps[i].vpRequest.challenge in drawn)
    && (forall i, j :: 0 <= i < j < |steps| && steps[i].QueryStep? && steps[j].QueryStep? ==>
          steps[i].vpRequest.challenge != steps[j].vpRequest.challenge)
  }

  /** `ex'` keeps the requests of `ex` and adds at most one step, which, if it is a query step, has challenge `c`. */
  ghost predicate AddsChallenge(ex: seq<Step>, ex': seq<Step>, c: string) {
    && |ex| <= |ex'| <= |ex| + 1
    && (forall i :: 0 <= i < |ex| ==> ex[i].QueryStep? == ex'[i].QueryStep? && (ex[i].QueryStep? ==> ex[i].vpRequest == ex'[i].vpRequest))
    && (|ex'| > |ex| && ex'[|ex|].QueryStep? ==> ex'[|ex|].vpRequest.challenge == c)
  }

  lemma MovedOnAddsChallenge(cfg: Config, w: Workflow, ex: Exchange, step: Step, c: string)
    requires ex.steps != []
    requires var s := ex.steps[|ex.steps| - 1];
             s.QueryStep? == step.QueryStep? && (s.QueryStep? ==> s.vpRequest == step.vpRequest)
    ensures AddsChallenge(ex.steps, MovedOn(cfg, w, ex, step, c).steps, c)
  {
  }

  lemma AfterAddsChallenge(cfg: Config, w: Workflow, ex: Exchange, r: Request, c: string)
    requires r.Submit? ==> r.challenge == c
    ensures AddsChallenge(ex.steps, After(cfg, w, ex, r).steps, c)
    ensures !r.Submit? ==> |After(cfg, w, ex, r).steps| == |ex.steps|
  {
    match r {
      case Poll =>
      case Review(_, _, _) =>
        ReviewAfter(cfg, w, ex, r);
      case Submit(vp, _, _) =>
        SubmitOutcome(cfg, w, ex, r);
        if Serve(cfg, w, ex, r).0.Some? {
          MovedOnAddsChallenge(cfg, w, ex, Process(cfg.verifier, ex.steps[|ex.steps| - 1], vp).0, c);
        }
    }
  }

  lemma AddedChallenges(steps: seq<Step>, steps': seq<Step>, c: string, drawn: set<string>, drawn': set<string>)
    requires ChallengesFrom(steps, drawn) && AddsChallenge(steps, steps', c)
    requires drawn <= drawn' && (|steps| < |steps'| ==> c !in drawn && c in drawn')
    ensures ChallengesFrom(steps', drawn')
  {
  }

  lemma {:induction false} RunChallenges(cfg: Config, w: Workflow, exchangeId: string, challenge: string, requests: seq<Request>)
    requires FreshChallenges(challenge, requests)
    ensures ChallengesFrom(Reached(cfg, w, exchangeId, challenge, requests).steps, Drawn(challenge, requests))
  {
    if requests != [] {
      var n := |requests| - 1;
      var before := requests[..n];
      RunChallenges(cfg, w, exchangeId, challenge, before);
      var drawn, drawn' := Drawn(challenge, before), Drawn(challenge, requests);
      forall c | c in drawn ensures c in drawn' {
        if c != challenge {
          var k :| 0 <= k < n && before[k].Submit? && before[k].challenge == c;
          assert requests[k].Submit? && requests[k].challenge == c;
        }
      }
      var ex := Reached(cfg, w, exchangeId, challenge, before);
      var c := if requests[n].Submit? then requests[n].challenge else "";
      if requests[n].Submit? {
        assert c in drawn';
      }
      AfterAddsChallenge(cfg, w, ex, requests[n], c);
      AddedChallenges(ex.steps, After(cfg, w, ex, requests[n]).steps, c, drawn, drawn');
    }
  }

  /** No replay: with fresh challenges, one presentation never completes two steps of an exchange. */
  lemma NoReplay(cfg: Config, w: Workflow, exchangeId: string, challenge: string, requests: seq<Request>, i: nat, j: nat)
    requires FreshChallenges(challenge, requests)
    requires i < j < |Reached(cfg, w, exchangeId, challenge, requests).steps|
    requires var steps := Reached(cfg, w, exchangeId, challenge, requests).steps;
             steps[i].QueryStep? && steps[i].IsComplete() && steps[j].QueryStep? && steps[j].IsComplete()
    ensures var steps := Reached(cfg, w, exchangeId, challenge, requests).steps;
            && steps[i].submission.Some? && steps[j].submission.Some?
            && steps[i].submission.value.presentation != steps[j].submission.value.presentation
  {
    var ex := Reached(cfg, w, exchangeId, challenge, requests);
    ReachedInv(cfg, w, exchangeId, challenge, requests);
    RunChallenges(cfg, w, exchangeId, challenge, requests);
    CompleteQueryHasEvidence(cfg, w, ex, i);
    CompleteQueryHasEvidence(cfg, w, ex, j);
  }
}
