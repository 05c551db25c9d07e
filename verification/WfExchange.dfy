/** One workflow exchange: the entity that processes presentations, and what its service saves for each request. */
module WfExchange {
  import opened Prelude
  import opened Credentials
  import opened SubmissionVerifier
  import opened ExchangeSteps
  import opened Workflows

  datatype ExchangeState = Pending | Active | Completed | Invalid

  datatype Exchange = Exchange(exchangeId: string, workflowId: string, steps: seq<Step>, state: ExchangeState)

  /** The body posted to the callbacks of a step. */
  datatype CallbackBody = CallbackBody(stepId: string, exchangeUrl: string, vpRequest: Option<VpRequest>,
                                       submission: Option<Submission>)

  datatype Post = Post(url: string, body: CallbackBody)

  /** What is fixed for a running service. `validBody` stands for the class-validator checks of a callback body. */
  datatype Config = Config(verifier: Verifier, baseUrl: string, validBody: CallbackBody -> bool)

  // ---- Hydrating a definition ----

  function Endpoint(baseUrl: string, workflowId: string, exchangeId: string): string {
    baseUrl + "/workflows/" + workflowId + "/exchanges/" + exchangeId
  }

  function RequestFor(baseUrl: string, workflowId: string, exchangeId: string, vpr: VprDefinition, challenge: string): VpRequest {
    var endpoint := Endpoint(baseUrl, workflowId, exchangeId);
    VpRequest(
      challenge, vpr.query,
      seq(|vpr.interactServices|, i requires 0 <= i < |vpr.interactServices| => InteractService(vpr.interactServices[i], endpoint)),
      Some(baseUrl))
  }

  /** `challenge` is the fresh uuid; an issuance step does not use it. */
  function Hydrate(baseUrl: string, workflowId: string, exchangeId: string, def: StepDefinition, stepId: string,
                   challenge: string): Step
  {
    if def.vpr.Some?
    then QueryStep(stepId, InProgress, def.callback, RequestFor(baseUrl, workflowId, exchangeId, def.vpr.value, challenge), None)
    else IssuanceStep(stepId, InProgress, def.callback, Endpoint(baseUrl, workflowId, exchangeId), None)
  }

  /** A new exchange; without an initial definition it has no steps. */
  function Created(baseUrl: string, w: Workflow, exchangeId: string, challenge: string): Exchange {
    Exchange(
      exchangeId, w.workflowId,
      match w.GetInitialStep()
      case None => []
      case Some(def) => [Hydrate(baseUrl, w.workflowId, exchangeId, def, w.initialStep, challenge)],
      Pending)
  }

  // ---- The entity ----

  datatype Participation =
    | Accepted(response: StepResponse, callback: seq<string>, result: Option<VerificationResult>)
    | Refused(errors: seq<SubmissionError>, callback: seq<string>, result: Option<VerificationResult>)
    | ParticipationThrew

  /** The entity after `participateInExchange`, also when it refuses or throws: then it is not what the store keeps. */
  function Participate(v: Verifier, baseUrl: string, ex: Exchange, vp: Presentation, next: Option<StepDefinition>,
                       nextId: Option<string>, challenge: string): (Exchange, Participation)
  {
    var active := ex.(state := Active);
    if ex.steps == [] then (active, ParticipationThrew)
    else
      var last := |ex.steps| - 1;
      match Process(v, ex.steps[last], vp)
      case (_, ProcessingThrew) => (active, ParticipationThrew)
      case (step, Processed(errors, result)) =>
        var updated := active.(steps := ex.steps[last := step]);
        if errors != [] then (updated, Refused(errors, step.callback, result))
        else if !step.IsComplete() then (updated, Accepted(step.Response(), step.callback, result))
        else if next.None? then (updated.(state := Completed), Accepted(step.Response(), step.callback, result))
        else
          var hydrated := Hydrate(baseUrl, ex.workflowId, ex.exchangeId, next.value, nextId.GetOr(""), challenge);
          (updated.(steps := updated.steps + [hydrated]), Accepted(hydrated.Response(), step.callback, result))
  }

  class WfExchangeEntity {
    var exchangeId: string
    var workflowId: string
    var steps: seq<Row>
    var state: ExchangeState

    ghost predicate Valid() reads this {
      forall i :: 0 <= i < |steps| ==> WellFormed(steps[i])
    }

    function Value(): Exchange reads this {
      Exchange(exchangeId, workflowId, RehydrateAll(steps), state)
    }

    constructor (w: Workflow, baseUrl: string, exchangeId: string, challenge: string)
      ensures Valid() && Value() == Created(baseUrl, w, exchangeId, challenge)
    {
      this.exchangeId := exchangeId;
      this.workflowId := w.workflowId;
      this.steps := [];
      this.state := Pending;
      new;
      var initial := w.GetInitialStep();
      if initial.Some? {
        var row := HydrateExchangeStep(initial.value, w.initialStep, baseUrl, challenge);
        this.steps := this.steps + [row];
      }
    }

    /** The entity the repository returns for a stored exchange. */
    constructor FromStore(exchangeId: string, workflowId: string, steps: seq<Row>, state: ExchangeState)
      requires forall i :: 0 <= i < |steps| ==> WellFormed(steps[i])
      ensures Valid() && this.steps == steps
      ensures Value() == Exchange(exchangeId, workflowId, RehydrateAll(steps), state)
    {
      this.exchangeId := exchangeId;
      this.workflowId := workflowId;
      this.steps := steps;
      this.state := state;
    }

    method HydrateExchangeStep(def: StepDefinition, stepId: string, baseUrl: string, challenge: string) returns (row: Row)
      ensures row == ToRow(Hydrate(baseUrl, workflowId, exchangeId, def, stepId, challenge))
      ensures WellFormed(row) && Rehydrate(row) == Hydrate(baseUrl, workflowId, exchangeId, def, stepId, challenge)
    {
      StepRoundTrip(Hydrate(baseUrl, workflowId, exchangeId, def, stepId, challenge));
      if def.vpr.Some? {
        var vpRequest := RequestFor(baseUrl, workflowId, exchangeId, def.vpr.value, challenge);
        var step := new QueryExchangeStep(stepId, vpRequest, def.callback);
        row := step.Stored();
      } else {
        var step := new IssuanceExchangeStep(stepId, def.callback, Endpoint(baseUrl, workflowId, exchangeId));
        row := step.Stored();
      }
    }

    /** The current step is rehydrated into a new object, processes the presentation and is written back. */
    method ProcessCurrentStep(v: Verifier, vp: Presentation) returns (r: Processing)
      requires Valid() && steps != []
      modifies this`steps
      ensures Valid() && |steps| == |old(steps)|
      ensures
        var last := |old(steps)| - 1;
        var (step, outcome) := Process(v, old(Value()).steps[last], vp);
        r == outcome && Value().steps == old(Value()).steps[last := step]
    {
      var last := |steps| - 1;
      var row := steps[last];
      if row.vpRequest.Some? {
        var step := new QueryExchangeStep.FromRow(row);
        r := step.ProcessPresentation(v, vp);
        row := step.Stored();
        StepRoundTrip(step.Value());
      } else {
        var step := new IssuanceExchangeStep.FromRow(row);
        r := step.ProcessPresentation(v, vp);
        row := step.Stored();
        StepRoundTrip(step.Value());
      }
      steps := steps[last := row];
    }

    /** The current step is complete: push the next step, or complete the exchange when there is none. */
    method AdvanceStep(next: Option<StepDefinition>, nextId: Option<string>, baseUrl: string, challenge: string)
      requires Valid() && steps != []
      modifies this`steps, this`state
      ensures Valid() && steps != []
      ensures Value() ==
              if next.None? then old(Value()).(state := Completed)
              else old(Value()).(steps := old(Value()).steps
                     + [Hydrate(baseUrl, workflowId, exchangeId, next.value, nextId.GetOr(""), challenge)])
    {
      if next.Some? {
        var row := HydrateExchangeStep(next.value, nextId.GetOr(""), baseUrl, challenge);
        ghost var before := Value().steps;
        steps := steps + [row];
        assert Value().steps == before + [Rehydrate(row)];
      } else {
        state := Completed;
      }
    }

    method ParticipateInExchange(v: Verifier, baseUrl: string, vp: Presentation, next: Option<StepDefinition>,
                                 nextId: Option<string>, challenge: string) returns (r: Participation)
      requires Valid()
      modifies this`steps, this`state
      ensures Valid() && (Value(), r) == Participate(v, baseUrl, old(Value()), vp, next, nextId, challenge)
    {
      state := Active;
      if steps == [] {
        return ParticipationThrew;
      }
      var processing := ProcessCurrentStep(v, vp);
      if processing.ProcessingThrew? {
        assert Value().steps == old(Value()).steps;
        return ParticipationThrew;
      }
      var current := Rehydrate(steps[|steps| - 1]);
      if |processing.errors| > 0 {
        return Refused(processing.errors, current.callback, processing.result);
      }
      if current.IsComplete() {
        AdvanceStep(next, nextId, baseUrl, challenge);
      }
      var response := GetExchangeResponse();
      return Accepted(response, current.callback, processing.result);
    }

    method GetExchangeResponse() returns (response: StepResponse)
      requires Valid() && steps != []
      ensures response == Value().steps[|steps| - 1].Response()
    {
      response := Rehydrate(steps[|steps| - 1]).Response();
    }

    /** `getStep`: the first step with the id; None stands for the exception on an unknown id. */
    method GetStep(stepId: string) returns (step: Option<Step>)
      requires Valid()
      ensures match FirstMatch(Value().steps, stepId)
              case None => step == None
              case Some(k) => step == Some(Value().steps[k])
    {
      var k := FirstMatchRow(steps, stepId);
      if k.None? {
        return None;
      }
      return Some(Rehydrate(steps[k.value]));
    }

    method ReplaceFirst(stepId: string, row: Row)
      requires Valid() && WellFormed(row)
      requires FirstMatch(Value().steps, stepId).Some?
      modifies this`steps
      ensures Valid() && |steps| == |old(steps)|
      ensures Value().steps == old(Value()).steps[FirstMatch(old(Value()).steps, stepId).value := Rehydrate(row)]
    {
      var k := FirstMatchRow(steps, stepId);
      steps := steps[k.value := row];
    }
  }

  // ---- What the service saves ----

  /** A review carries a result, but the service never reads it. */
  datatype ReviewResult = Approved | Rejected

  datatype Request =
    | Poll
    | Submit(vp: Presentation, challenge: string, requestUrl: string)
    | Review(stepId: string, result: ReviewResult, issued: Option<Presentation>)

  datatype Reply =
    | Responded(response: StepResponse, posts: seq<Post>)
    | Reviewed
    | BadRequest(errors: seq<SubmissionError>)
    | OnlyIssuanceSteps
    | NotFound
    | ThrewBeforeSave
    | ThrewAfterSave

  function BodyOf(step: Step, requestUrl: string): CallbackBody {
    match step
    case QueryStep(id, _, _, vpRequest, submission) => CallbackBody(id, requestUrl, Some(vpRequest), submission)
    case IssuanceStep(id, _, _, _, _) => CallbackBody(id, requestUrl, None, None)
  }

  function PostsOf(step: Step, requestUrl: string): (posts: seq<Post>)
    ensures |posts| == |step.callback|
    ensures forall i :: 0 <= i < |posts| ==> posts[i] == Post(step.callback[i], BodyOf(step, requestUrl))
  {
    seq(|step.callback|, i requires 0 <= i < |step.callback| => Post(step.callback[i], BodyOf(step, requestUrl)))
  }

  /** An empty body only asks what the current step expects. */
  function PollReply(ex: Exchange): Reply {
    if ex.steps == [] then ThrewBeforeSave else Responded(ex.steps[|ex.steps| - 1].Response(), [])
  }

  /** `addReview`: the first step with the id, if it is an issuance step, gets the presentation and is complete. */
  function ReviewOutcome(ex: Exchange, stepId: string, issued: Option<Presentation>): (Option<Exchange>, Reply) {
    match FirstMatch(ex.steps, stepId)
    case None => (None, ThrewBeforeSave)
    case Some(k) =>
      if ex.steps[k].QueryStep? then (None, OnlyIssuanceSteps)
      else (Some(ex.(steps := ex.steps[k := WithVP(ex.steps[k], issued)])), Reviewed)
  }

  /** The exchange saved for a request, or None when the request throws or only reads; and the reply. */
  function Serve(cfg: Config, w: Workflow, ex: Exchange, request: Request): (Option<Exchange>, Reply) {
    match request
    case Poll => (None, PollReply(ex))
    case Submit(vp, challenge, requestUrl) =>
      if ex.steps == [] then (None, ThrewBeforeSave)
      else
        var current := ex.steps[|ex.steps| - 1].stepId;
        (match w.GetNextStep(current)
         case UnknownStep => (None, ThrewBeforeSave)
         case Successor(next, nextId) =>
           match Participate(cfg.verifier, cfg.baseUrl, ex, vp, next, nextId, challenge)
           case (_, ParticipationThrew) => (None, ThrewBeforeSave)
           case (_, Refused(errors, _, _)) => (None, BadRequest(errors))
           case (saved, Accepted(response, _, _)) =>
             var k := FirstMatch(saved.steps, current);
             (Some(saved),
              if k.None? then ThrewAfterSave
              else if !cfg.validBody(BodyOf(saved.steps[k.value], requestUrl)) then ThrewAfterSave
              else Responded(response, PostsOf(saved.steps[k.value], requestUrl))))
    case Review(stepId, _, issued) => ReviewOutcome(ex, stepId, issued)
  }
}
