/**
 What each operation of the workflow service does to the store and answers, read off stored fields, workflow definitions
 and the verifier's libraries alone.
 */
module WorkflowServiceLaws {
  import opened Prelude
  import opened Credentials
  import opened SubmissionVerifier
  import opened Uuids
  import opened ExchangeSteps
  import opened Workflows
  import opened WfExchange
  import opened WfExchangeRuns
  import opened WfExchangeTheorems
  import opened WorkflowServices
  import opened WorkflowServiceRuns

  // ---- The vocabulary ----

  /** A step as it is when the exchange reaches it. */
  ghost predicate FreshStep(baseUrl: string, workflowId: string, exchangeId: string, def: StepDefinition, stepId: string,
                            challenge: string, s: Step)
  {
    var url := baseUrl + "/workflows/" + workflowId + "/exchanges/" + exchangeId;
    && s.stepId == stepId && s.state == InProgress && s.callback == def.callback
    && match def.vpr
       case None => s.IssuanceStep? && s.holderRedirectUrl == url && s.issuedVP == None
       case Some(vpr) =>
         && s.QueryStep? && s.submission == None
         && s.vpRequest.challenge == challenge && s.vpRequest.query == vpr.query && s.vpRequest.domain == Some(baseUrl)
         && |s.vpRequest.services| == |vpr.interactServices|
         && forall k :: 0 <= k < |vpr.interactServices| ==> s.vpRequest.services[k] == InteractService(vpr.interactServices[k], url)
  }

  /** What a step tells the holder: its request, the presentation issued, or to come back. */
  ghost predicate Tells(s: Step, response: StepResponse) {
    match s
    case QueryStep(_, _, _, vpRequest, _) => response == RequestPresentation(vpRequest)
    case IssuanceStep(_, _, _, url, issuedVP) =>
      if issuedVP.Some? then response == IssuedPresentation(issuedVP.value) else response == RedirectTo(url)
  }

  /** `k` is the least index with the step id. */
  ghost predicate FirstWith(steps: seq<Step>, stepId: string, k: nat) {
    k < |steps| && steps[k].stepId == stepId && forall j :: 0 <= j < k ==> steps[j].stepId != stepId
  }

  /** A step that has accepted the presentation: a query step records it and is complete, an issuance step stays as it is. */
  ghost function Answered(v: Verifier, s: Step, vp: Presentation): Step {
    match s
    case QueryStep(id, _, callback, vpRequest, _) =>
      var result := VerificationResult(ProofValid(v, vp, vpRequest.challenge), [], []);
      QueryStep(id, Complete, callback, vpRequest, Some(Submission(vp, result)))
    case IssuanceStep(_, _, _, _, _) => s
  }

  /** The step's callbacks get one post each, with its id, request and submission, unless the body is invalid. */
  ghost predicate Notified(cfg: Config, s: Step, requestUrl: string, response: StepResponse, reply: Reply) {
    var body := match s
      case QueryStep(id, _, _, vpRequest, submission) => CallbackBody(id, requestUrl, Some(vpRequest), submission)
      case IssuanceStep(id, _, _, _, _) => CallbackBody(id, requestUrl, None, None);
    if cfg.validBody(body)
    then
      && reply.Responded? && reply.response == response && |reply.posts| == |s.callback|
      && forall i :: 0 <= i < |s.callback| ==> reply.posts[i] == Post(s.callback[i], body)
    else reply == ThrewAfterSave
  }

  // ---- One submission ----

  /**
   `ex'` is the exchange after its last step accepted the presentation: that step is answered and those before it are as
   they were. An incomplete step waits. A complete one is followed by exactly the step its link names, fresh from its own
   definition, and if the link is missing, empty or no step, the exchange is completed.
   */
  ghost predicate Accepted(cfg: Config, w: Workflow, ex: Exchange, vp: Presentation, challenge: string, ex': Exchange)
    requires ex.steps != [] && ex.steps[|ex.steps| - 1].stepId in w.steps
  {
    var last := |ex.steps| - 1;
    var s := Answered(cfg.verifier, ex.steps[last], vp);
    var link := w.steps[s.stepId].nextStep;
    && ex'.exchangeId == ex.exchangeId && ex'.workflowId == ex.workflowId
    && |ex'.steps| > last && ex'.steps[..last] == ex.steps[..last] && ex'.steps[last] == s
    && if s.state == InProgress then |ex'.steps| == |ex.steps| && ex'.state == Active
       else if link.Some? && link.value != "" && link.value in w.steps then
         && |ex'.steps| == |ex.steps| + 1 && ex'.state == Active
         && FreshStep(cfg.baseUrl, ex.workflowId, ex.exchangeId, w.steps[link.value], link.value, challenge, ex'.steps[last + 1])
       else |ex'.steps| == |ex.steps| && ex'.state == Completed
  }

  ghost predicate Refused(cfg: Config, vp: Presentation, request: VpRequest, reply: Reply) {
    if Returns(cfg.verifier, vp, request)
    then reply.BadRequest? && reply.errors != [] && Lists(cfg.verifier, vp, request, reply.errors)
    else reply == ThrewBeforeSave
  }

  lemma HydrateIsFresh(baseUrl: string, workflowId: string, exchangeId: string, def: StepDefinition, stepId: string, challenge: string)
    ensures FreshStep(baseUrl, workflowId, exchangeId, def, stepId, challenge,
                      Hydrate(baseUrl, workflowId, exchangeId, def, stepId, challenge))
  {
  }

  lemma ResponseTells(s: Step)
    ensures forall response :: Tells(s, response) <==> response == s.Response()
  {
  }

  lemma MatchIsFirst(steps: seq<Step>, stepId: string, k: nat)
    requires FirstWith(steps, stepId, k)
    ensures FirstMatch(steps, stepId) == Some(k)
  {
  }

  lemma ProcessLaw(v: Verifier, s: Step, vp: Presentation)
    ensures s.IssuanceStep? || Meets(v, vp, s.vpRequest) ==>
              && Process(v, s, vp).0 == Answered(v, s, vp)
              && Process(v, s, vp).1.Processed? && Process(v, s, vp).1.errors == []
    ensures s.QueryStep? && !Meets(v, vp, s.vpRequest) && Returns(v, vp, s.vpRequest) ==>
              && Process(v, s, vp).1.Processed? && Process(v, s, vp).1.errors != []
              && Lists(v, vp, s.vpRequest, Process(v, s, vp).1.errors)
    ensures s.QueryStep? && !Returns(v, vp, s.vpRequest) ==> Process(v, s, vp).1.ProcessingThrew?
  {
    if s.QueryStep? {
      VerdictLaw(v, vp, s.vpRequest);
      AcceptsIff(v, vp, s.vpRequest);
      if Meets(v, vp, s.vpRequest) {
        AcceptedVerdict(v, vp, s.vpRequest);
      }
    }
  }

  lemma MovedOnLaw(cfg: Config, w: Workflow, ex: Exchange, vp: Presentation, challenge: string)
    requires ex.steps != [] && ex.steps[|ex.steps| - 1].stepId in w.steps
    ensures Accepted(cfg, w, ex, vp, challenge,
                     MovedOn(cfg, w, ex, Answered(cfg.verifier, ex.steps[|ex.steps| - 1], vp), challenge))
  {
    var last := |ex.steps| - 1;
    var s := Answered(cfg.verifier, ex.steps[last], vp);
    var link := w.steps[s.stepId].nextStep;
    var ex' := MovedOn(cfg, w, ex, s, challenge);
    assert ex'.steps[..last] == ex.steps[..last];
    if link.Some? {
      NextIff(w, s.stepId, link.value);
      if link.value in w.steps {
        HydrateIsFresh(cfg.baseUrl, ex.workflowId, ex.exchangeId, w.steps[link.value], link.value, challenge);
      }
    }
    if Next(w, s.stepId).Some? {
      NextIff(w, s.stepId, Next(w, s.stepId).value);
    }
  }

  /**
   What the entity returns and keeps in memory: the callbacks are those of the step that processed the presentation, and a
   query step records the verdict it returns, also when it refuses. A throw leaves everything but the state.
   */
  lemma EntityLaw(v: Verifier, baseUrl: string, ex: Exchange, vp: Presentation, next: Option<StepDefinition>,
                  nextId: Option<string>, challenge: string)
    ensures var (ex', outcome) := Participate(v, baseUrl, ex, vp, next, nextId, challenge);
            if ex.steps == [] then outcome == ParticipationThrew && ex' == ex.(state := Active)
            else
              var last := |ex.steps| - 1;
              match ex.steps[last]
              case IssuanceStep(_, _, callback, _, _) => outcome.Accepted? && outcome.callback == callback && outcome.result == None
              case QueryStep(id, state, callback, vpRequest, _) =>
                if !Returns(v, vp, vpRequest) then outcome == ParticipationThrew && ex' == ex.(state := Active)
                else
                  && !outcome.ParticipationThrew? && (outcome.Accepted? <==> Meets(v, vp, vpRequest))
                  && outcome.callback == callback && outcome.result.Some?
                  && Lists(v, vp, vpRequest, outcome.result.value.errors)
                  && outcome.result.value.verified == ProofValid(v, vp, vpRequest.challenge)
                  && last < |ex'.steps| && ex'.steps[last].QueryStep?
                  && ex'.steps[last].submission == Some(Submission(vp, outcome.result.value))
                  && (outcome.Refused? ==>
                        && outcome.errors == outcome.result.value.errors
                        && ex' == ex.(state := Active, steps := ex.steps[last :=
                             QueryStep(id, state, callback, vpRequest, Some(Submission(vp, outcome.result.value)))]))
  {
    if ex.steps != [] && ex.steps[|ex.steps| - 1].QueryStep? {
      VerdictLaw(v, vp, ex.steps[|ex.steps| - 1].vpRequest);
      AcceptsIff(v, vp, ex.steps[|ex.steps| - 1].vpRequest);
    }
  }

  /** The reply to a saved presentation: the new last step's answer, and the posts of the first step with the id. */
  lemma AcceptedReply(cfg: Config, w: Workflow, ex: Exchange, r: Request, k: nat, response: StepResponse)
    requires r.Submit? && Serve(cfg, w, ex, r).0.Some? && ex.steps != []
    requires var steps := After(cfg, w, ex, r).steps;
             steps != [] && FirstWith(steps, ex.steps[|ex.steps| - 1].stepId, k) && Tells(steps[|steps| - 1], response)
    ensures Notified(cfg, After(cfg, w, ex, r).steps[k], r.requestUrl, response, Serve(cfg, w, ex, r).1)
  {
    var steps := After(cfg, w, ex, r).steps;
    MatchIsFirst(steps, ex.steps[|ex.steps| - 1].stepId, k);
    ResponseTells(steps[|steps| - 1]);
    SubmitOutcome(cfg, w, ex, r);
    assert response == steps[|steps| - 1].Response();
    var body := BodyOf(steps[k], r.requestUrl);
    assert Serve(cfg, w, ex, r).1 == if cfg.validBody(body) then Responded(response, PostsOf(steps[k], r.requestUrl)) else ThrewAfterSave;
  }

  lemma SubmitLaw(cfg: Config, w: Workflow, ex: Exchange, r: Request)
    requires r.Submit? && ex.steps != [] && ex.steps[|ex.steps| - 1].stepId in w.steps
    ensures var s := ex.steps[|ex.steps| - 1];
            if s.IssuanceStep? || Meets(cfg.verifier, r.vp, s.vpRequest)
            then Serve(cfg, w, ex, r).0.Some? && Accepted(cfg, w, ex, r.vp, r.challenge, Serve(cfg, w, ex, r).0.value)
            else Serve(cfg, w, ex, r).0.None? && Refused(cfg, r.vp, s.vpRequest, Serve(cfg, w, ex, r).1)
  {
    var s := ex.steps[|ex.steps| - 1];
    ProcessLaw(cfg.verifier, s, r.vp);
    SubmitOutcome(cfg, w, ex, r);
    MovedOnLaw(cfg, w, ex, r.vp, r.challenge);
  }

  /** On a first visit, the step that processed the presentation is the first with its id. */
  lemma ProcessedIsFirst(cfg: Config, w: Workflow, ex: Exchange, r: Request)
    requires Inv(cfg, w, ex) && r.Submit? && ex.steps != []
    requires ex.steps[|ex.steps| - 1].QueryStep? && Meets(cfg.verifier, r.vp, ex.steps[|ex.steps| - 1].vpRequest)
    requires forall q: nat :: q < |ex.steps| - 1 ==> Walk(w, q) != Walk(w, |ex.steps| - 1)
    ensures var last, steps := |ex.steps| - 1, After(cfg, w, ex, r).steps;
            && Serve(cfg, w, ex, r).0.Some? && last < |steps|
            && steps[last] == Answered(cfg.verifier, ex.steps[last], r.vp)
            && FirstWith(steps, ex.steps[last].stepId, last)
  {
    var last := |ex.steps| - 1;
    assert StepOk(cfg, w, ex.exchangeId, ex.steps[last]);
    SubmitLaw(cfg, w, ex, r);
    AfterInv(cfg, w, ex, r);
    FirstVisitIff(w, After(cfg, w, ex, r).steps, last);
  }

  /** On a first visit, the posts carry the step's id, its request, the processed submission and the request URL. */
  lemma PostsCarrySubmission(cfg: Config, w: Workflow, ex: Exchange, r: Request)
    requires Inv(cfg, w, ex) && r.Submit? && ex.steps != []
    requires ex.steps[|ex.steps| - 1].QueryStep? && Meets(cfg.verifier, r.vp, ex.steps[|ex.steps| - 1].vpRequest)
    requires forall q: nat :: q < |ex.steps| - 1 ==> Walk(w, q) != Walk(w, |ex.steps| - 1)
    ensures var s, reply := ex.steps[|ex.steps| - 1], Serve(cfg, w, ex, r).1;
            var result := VerificationResult(ProofValid(cfg.verifier, r.vp, s.vpRequest.challenge), [], []);
            var body := CallbackBody(s.stepId, r.requestUrl, Some(s.vpRequest), Some(Submission(r.vp, result)));
            if cfg.validBody(body)
            then
              && reply.Responded? && |reply.posts| == |s.callback|
              && forall i :: 0 <= i < |s.callback| ==> reply.posts[i] == Post(s.callback[i], body)
            else reply == ThrewAfterSave
  {
    var last, steps, reply := |ex.steps| - 1, After(cfg, w, ex, r).steps, Serve(cfg, w, ex, r).1;
    ProcessedIsFirst(cfg, w, ex, r);
    var response := steps[|steps| - 1].Response();
    ResponseTells(steps[|steps| - 1]);
    AcceptedReply(cfg, w, ex, r, last, response);
    NotifiedQuery(cfg, ex.steps[last], r, response, reply);
  }

  lemma NotifiedQuery(cfg: Config, s: Step, r: Request, response: StepResponse, reply: Reply)
    requires r.Submit? && s.QueryStep? && Notified(cfg, Answered(cfg.verifier, s, r.vp), r.requestUrl, response, reply)
    ensures var result := VerificationResult(ProofValid(cfg.verifier, r.vp, s.vpRequest.challenge), [], []);
            var body := CallbackBody(s.stepId, r.requestUrl, Some(s.vpRequest), Some(Submission(r.vp, result)));
            if cfg.validBody(body)
            then
              && reply.Responded? && |reply.posts| == |s.callback|
              && forall i :: 0 <= i < |s.callback| ==> reply.posts[i] == Post(s.callback[i], body)
            else reply == ThrewAfterSave
  {
  }

  // ---- The operations ----

  ghost predicate Holds(st: Store, workflowId: string, exchangeId: string) {
    exchangeId in st.exchanges && st.exchanges[exchangeId].workflowId == workflowId
  }

  /** An empty body is answered by the current step and changes nothing. */
  lemma PollLaw(su: Setup, st: Store, workflowId: string, exchangeId: string, requestUrl: string, response: StepResponse)
    ensures var (st', reply) := Perform(su, st, ParticipateIn(workflowId, exchangeId, requestUrl, None));
            && st' == st
            && (!Holds(st, workflowId, exchangeId) <==> reply == Missing)
            && (Holds(st, workflowId, exchangeId) ==>
                  var steps := st.exchanges[exchangeId].steps;
                  if steps == [] then reply == ExchangeReply(ThrewBeforeSave)
                  else reply == ExchangeReply(Responded(response, [])) <==> Tells(steps[|steps| - 1], response))
  {
    if Holds(st, workflowId, exchangeId) && st.exchanges[exchangeId].steps != [] {
      ResponseTells(st.exchanges[exchangeId].steps[|st.exchanges[exchangeId].steps| - 1]);
    }
  }

  /** The response is what the new last step tells; the posts are those of the first step with the current id. */
  ghost predicate RepliedTo(cfg: Config, ex: Exchange, ex': Exchange, requestUrl: string, reply: Reply)
    requires ex.steps != [] && ex'.steps != []
  {
    forall k: nat, response ::
      FirstWith(ex'.steps, ex.steps[|ex.steps| - 1].stepId, k) && Tells(ex'.steps[|ex'.steps| - 1], response) ==>
        Notified(cfg, ex'.steps[k], requestUrl, response, reply)
  }

  lemma SavedIsRepliedTo(cfg: Config, w: Workflow, ex: Exchange, r: Request)
    requires r.Submit? && Serve(cfg, w, ex, r).0.Some?
    ensures ex.steps != [] && Serve(cfg, w, ex, r).0.value.steps != []
    ensures RepliedTo(cfg, ex, Serve(cfg, w, ex, r).0.value, r.requestUrl, Serve(cfg, w, ex, r).1)
  {
    SubmitOutcome(cfg, w, ex, r);
    var ex' := Serve(cfg, w, ex, r).0.value;
    forall k: nat, response | FirstWith(ex'.steps, ex.steps[|ex.steps| - 1].stepId, k) && Tells(ex'.steps[|ex'.steps| - 1], response)
      ensures Notified(cfg, ex'.steps[k], r.requestUrl, response, Serve(cfg, w, ex, r).1)
    {
      AcceptedReply(cfg, w, ex, r, k, response);
    }
  }

  lemma ParticipateReply(su: Setup, st: Store, op: Operation)
    requires op.ParticipateIn? && op.vp.Some? && Holds(st, op.workflowId, op.exchangeId) && op.workflowId in st.workflows
    ensures var r := Submit(op.vp.value, su.supply(st.drawn), op.requestUrl);
            Perform(su, st, op).1 == ExchangeReply(Serve(su.cfg, st.workflows[op.workflowId], st.exchanges[op.exchangeId], r).1)
  {
  }

  /**
   A presentation: what is missing, what throws, what is refused and with which errors, and, when it is accepted, the one
   exchange that changes, what it becomes, the response and the posts.
   */
  lemma ParticipateLaw(su: Setup, st: Store, workflowId: string, exchangeId: string, requestUrl: string, vp: Presentation)
    ensures var (st', reply) := Perform(su, st, ParticipateIn(workflowId, exchangeId, requestUrl, Some(vp)));
            if !Holds(st, workflowId, exchangeId) || workflowId !in st.workflows then st' == st && reply == Missing
            else
              var ex, w := st.exchanges[exchangeId], st.workflows[workflowId];
              && st'.workflows == st.workflows && st'.drawn == st.drawn + 1 && reply.ExchangeReply?
              && if ex.steps == [] || ex.steps[|ex.steps| - 1].stepId !in w.steps
                 then st'.exchanges == st.exchanges && reply.reply == ThrewBeforeSave
                 else
                   var s := ex.steps[|ex.steps| - 1];
                   if s.IssuanceStep? || Meets(su.cfg.verifier, vp, s.vpRequest) then
                     && exchangeId in st'.exchanges
                     && st'.exchanges == st.exchanges[exchangeId := st'.exchanges[exchangeId]]
                     && Accepted(su.cfg, w, ex, vp, su.supply(st.drawn), st'.exchanges[exchangeId])
                     && RepliedTo(su.cfg, ex, st'.exchanges[exchangeId], requestUrl, reply.reply)
                   else st'.exchanges == st.exchanges && Refused(su.cfg, vp, s.vpRequest, reply.reply)
  {
    var op := ParticipateIn(workflowId, exchangeId, requestUrl, Some(vp));
    if Holds(st, workflowId, exchangeId) && workflowId in st.workflows {
      var ex, w := st.exchanges[exchangeId], st.workflows[workflowId];
      var r := Submit(vp, su.supply(st.drawn), requestUrl);
      ParticipateShape(su, st, op);
      ParticipateReply(su, st, op);
      if ex.steps != [] && ex.steps[|ex.steps| - 1].stepId in w.steps {
        SubmitLaw(su.cfg, w, ex, r);
        if Serve(su.cfg, w, ex, r).0.Some? {
          SavedIsRepliedTo(su.cfg, w, ex, r);
        }
      }
    }
  }

  /**
   A review of the first step with the id: if that is an issuance step, the store changes in its presentation and its
   completeness and in nothing else; otherwise it does not change. The review's result makes no difference.
   */
  lemma AddReviewLaw(su: Setup, st: Store, workflowId: string, exchangeId: string, stepId: string, result: ReviewResult,
                     issued: Option<Presentation>)
    ensures var (st', reply) := Perform(su, st, AddReview(workflowId, exchangeId, stepId, result, issued));
            && (!Holds(st, workflowId, exchangeId) ==> st' == st && reply == Missing)
            && (Holds(st, workflowId, exchangeId) ==>
                  var ex := st.exchanges[exchangeId];
                  && ((forall i :: 0 <= i < |ex.steps| ==> ex.steps[i].stepId != stepId) ==>
                        st' == st && reply == ExchangeReply(ThrewBeforeSave))
                  && forall k: nat :: FirstWith(ex.steps, stepId, k) ==>
                       match ex.steps[k]
                       case QueryStep(_, _, _, _, _) => st' == st && reply == ExchangeReply(OnlyIssuanceSteps)
                       case IssuanceStep(id, _, callback, url, _) =>
                         && reply == ExchangeReply(Reviewed)
                         && st' == st.(exchanges := st.exchanges[exchangeId :=
                              ex.(steps := ex.steps[k := IssuanceStep(id, Complete, callback, url, issued)])]))
  {
    if Holds(st, workflowId, exchangeId) {
      var steps := st.exchanges[exchangeId].steps;
      forall k: nat | FirstWith(steps, stepId, k) ensures FirstMatch(steps, stepId) == Some(k) {
        MatchIsFirst(steps, stepId, k);
      }
    }
  }

  /** Once the current issuance step is reviewed with a presentation, that is what the holder is answered. */
  lemma ReviewedIsAnswered(su: Setup, st: Store, workflowId: string, exchangeId: string, result: ReviewResult, issued: Presentation,
                           requestUrl: string)
    requires Holds(st, workflowId, exchangeId) && st.exchanges[exchangeId].steps != []
    requires var steps := st.exchanges[exchangeId].steps;
             steps[|steps| - 1].IssuanceStep? && FirstWith(steps, steps[|steps| - 1].stepId, |steps| - 1)
    ensures var steps := st.exchanges[exchangeId].steps;
            var st' := Perform(su, st, AddReview(workflowId, exchangeId, steps[|steps| - 1].stepId, result, Some(issued))).0;
            Perform(su, st', ParticipateIn(workflowId, exchangeId, requestUrl, None)).1 ==
            ExchangeReply(Responded(IssuedPresentation(issued), []))
  {
    var steps := st.exchanges[exchangeId].steps;
    var id := steps[|steps| - 1].stepId;
    AddReviewLaw(su, st, workflowId, exchangeId, id, result, Some(issued));
    var st' := Perform(su, st, AddReview(workflowId, exchangeId, id, result, Some(issued))).0;
    PollLaw(su, st', workflowId, exchangeId, requestUrl, IssuedPresentation(issued));
  }

  /** A taken id is a conflict; otherwise the definition is stored as given, under the id given or a fresh one. */
  lemma CreateWorkflowLaw(su: Setup, st: Store, id: Option<string>, steps: map<string, StepDefinition>, initialStep: string)
    ensures var (st', reply) := Perform(su, st, CreateWorkflow(id, steps, initialStep));
            if id.Some? && id.value in st.workflows then st' == st && reply == Conflict
            else
              && reply.WorkflowCreated?
              && (id.Some? ==> reply.workflowId == id.value)
              && (id.None? ==> reply.workflowId == su.supply(st.drawn) && st'.drawn > st.drawn)
              && st'.exchanges == st.exchanges
              && st'.workflows == st.workflows[reply.workflowId := Workflow(reply.workflowId, steps, initialStep)]
  {
  }

  /** A new pending exchange holds the workflow's initial step, fresh from its definition, or nothing if that is not defined. */
  lemma CreateExchangeLaw(su: Setup, st: Store, workflowId: string)
    ensures var (st', reply) := Perform(su, st, CreateExchange(workflowId));
            if workflowId !in st.workflows then st' == st && reply == Missing
            else
              var w, x, url := st.workflows[workflowId], su.supply(st.drawn), su.cfg.baseUrl + "/workflows/" + workflowId + "/exchanges/";
              && reply == ExchangeCreated(url + x, w.initialStep, Pending)
              && st'.workflows == st.workflows && st'.drawn == st.drawn + 2
              && x in st'.exchanges && st'.exchanges == st.exchanges[x := st'.exchanges[x]]
              && var ex := st'.exchanges[x];
              && ex.exchangeId == x && ex.workflowId == w.workflowId && ex.state == Pending
              && if w.initialStep in w.steps
                 then
                   && |ex.steps| == 1
                   && FreshStep(su.cfg.baseUrl, w.workflowId, x, w.steps[w.initialStep], w.initialStep, su.supply(st.drawn + 1), ex.steps[0])
                 else ex.steps == []
  {
    if workflowId in st.workflows && st.workflows[workflowId].initialStep in st.workflows[workflowId].steps {
      var w := st.workflows[workflowId];
      HydrateIsFresh(su.cfg.baseUrl, w.workflowId, su.supply(st.drawn), w.steps[w.initialStep], w.initialStep, su.supply(st.drawn + 1));
    }
  }

  // ---- Definitions over runs ----

  /** The workflow that the first creation under this id asked for. */
  function FirstDefinition(ops: seq<Operation>, id: string): Option<Workflow> {
    if ops == [] then None
    else
      var before, op := FirstDefinition(ops[..|ops| - 1], id), ops[|ops| - 1];
      if before.None? && op.CreateWorkflow? && op.id == Some(id) then Some(Workflow(id, op.steps, op.initialStep)) else before
  }

  /** Over any run, a workflow id that no uuid equals stands for its first definition, whatever was created after. */
  lemma {:induction false} FirstDefinitionStays(su: Setup, ops: seq<Operation>, id: string)
    requires forall k: nat :: su.supply(k) != id
    ensures var workflows := PerformAll(su, EMPTY, ops).workflows;
            match FirstDefinition(ops, id)
            case None => id !in workflows
            case Some(w) => id in workflows && workflows[id] == w
  {
    if ops != [] {
      var n := |ops| - 1;
      FirstDefinitionStays(su, ops[..n], id);
      WorkflowsAfter(su, PerformAll(su, EMPTY, ops[..n]), ops[n]);
    }
  }

  lemma WorkflowsAfter(su: Setup, st: Store, op: Operation)
    ensures var workflows := Perform(su, st, op).0.workflows;
            if op.CreateWorkflow? && !(op.id.Some? && op.id.value in st.workflows)
            then
              var id := op.id.GetOr(su.supply(st.drawn));
              workflows == st.workflows[id := Workflow(id, op.steps, op.initialStep)]
            else workflows == st.workflows
  {
  }
}
