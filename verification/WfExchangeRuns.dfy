/** What holds of a workflow exchange over whole runs of requests. */
module WfExchangeRuns {
  import opened Prelude
  import opened Credentials
  import opened SubmissionVerifier
  import opened ExchangeSteps
  import opened Workflows
  import opened WfExchange
  import opened Interleaving

  function ServerOf(cfg: Config, w: Workflow): Server<Exchange, Request> {
    (ex: Exchange, r: Request) => Serve(cfg, w, ex, r).0
  }

  /** The stored exchange after one request. */
  function After(cfg: Config, w: Workflow, ex: Exchange, r: Request): Exchange {
    Apply(ServerOf(cfg, w), ex, r)
  }

  function Run(cfg: Config, w: Workflow, ex: Exchange, requests: seq<Request>): Exchange {
    Serial(ServerOf(cfg, w), ex, requests)
  }

  /** The stored exchange after creation and a list of requests. */
  function Reached(cfg: Config, w: Workflow, exchangeId: string, challenge: string, requests: seq<Request>): Exchange {
    Run(cfg, w, Created(cfg.baseUrl, w, exchangeId, challenge), requests)
  }

  // ---- The invariant of stored exchanges ----

  /** A step is its definition hydrated; a query step is complete exactly when it holds an error-free, verified-for-it submission. */
  ghost predicate StepOk(cfg: Config, w: Workflow, exchangeId: string, s: Step) {
    && s.stepId in w.steps
    && var def := w.steps[s.stepId];
    && s.callback == def.callback
    && match s
       case QueryStep(_, _, _, vpRequest, submission) =>
         && def.vpr.Some?
         && vpRequest == RequestFor(cfg.baseUrl, w.workflowId, exchangeId, def.vpr.value, vpRequest.challenge)
         && (s.IsComplete() <==> submission.Some?)
         && (submission.Some? ==>
               && Verify(cfg.verifier, submission.value.presentation, vpRequest) == Verdict(submission.value.result)
               && submission.value.result.errors == [])
       case IssuanceStep(_, _, _, url, issuedVP) =>
         && def.vpr.None?
         && url == Endpoint(cfg.baseUrl, w.workflowId, exchangeId)
         && (issuedVP.Some? ==> s.IsComplete())
  }

  ghost predicate OnWalk(w: Workflow, steps: seq<Step>) {
    && (steps == [] <==> Walk(w, 0).None?)
    && forall i: nat :: i < |steps| ==> Walk(w, i) == Some(steps[i].stepId)
  }

  /** Reviews resolve an id to its first occurrence, so an issuance step that repeats an id cannot be complete. */
  ghost predicate RepeatsIncomplete(steps: seq<Step>) {
    forall i, j :: 0 <= i < j < |steps| && steps[i].stepId == steps[j].stepId && steps[j].IssuanceStep? ==> !steps[j].IsComplete()
  }

  ghost predicate StateFits(w: Workflow, ex: Exchange) {
    match ex.state
    case Pending => |ex.steps| <= 1 && (ex.steps != [] ==> ex.steps[0].IssuanceStep? || !ex.steps[0].IsComplete())
    case Active => ex.steps != [] && (ex.steps[|ex.steps| - 1].IssuanceStep? || !ex.steps[|ex.steps| - 1].IsComplete())
    case Completed => ex.steps != [] && ex.steps[|ex.steps| - 1].IsComplete() && Walk(w, |ex.steps|).None?
    case Invalid => false
  }

  ghost predicate StepsInv(cfg: Config, w: Workflow, exchangeId: string, steps: seq<Step>) {
    && OnWalk(w, steps)
    && (forall i :: 0 <= i < |steps| ==> StepOk(cfg, w, exchangeId, steps[i]))
    && (forall i :: 0 <= i < |steps| - 1 ==> steps[i].IsComplete())
    && RepeatsIncomplete(steps)
  }

  ghost predicate Inv(cfg: Config, w: Workflow, ex: Exchange) {
    ex.workflowId == w.workflowId && StepsInv(cfg, w, ex.exchangeId, ex.steps) && StateFits(w, ex)
  }

  /** What no later request undoes: ids, definitions, requests with their challenges, completeness, completion. */
  ghost predicate SameStep(a: Step, b: Step) {
    && a.stepId == b.stepId
    && a.callback == b.callback
    && a.QueryStep? == b.QueryStep?
    && (a.QueryStep? ==> a.vpRequest == b.vpRequest)
    && (a.IssuanceStep? ==> a.holderRedirectUrl == b.holderRedirectUrl)
    && (a.IsComplete() ==> b.IsComplete())
  }

  ghost predicate Grows(a: Exchange, b: Exchange) {
    && a.exchangeId == b.exchangeId
    && |a.steps| <= |b.steps|
    && (forall i :: 0 <= i < |a.steps| ==> SameStep(a.steps[i], b.steps[i]))
    && (a.state.Completed? ==> b.state.Completed? && |b.steps| == |a.steps|)
  }

  lemma CreatedInv(cfg: Config, w: Workflow, exchangeId: string, challenge: string)
    ensures Inv(cfg, w, Created(cfg.baseUrl, w, exchangeId, challenge))
  {
  }

  lemma ReplaceKeeps(cfg: Config, w: Workflow, exchangeId: string, steps: seq<Step>, k: nat, s: Step)
    requires StepsInv(cfg, w, exchangeId, steps) && k < |steps|
    requires StepOk(cfg, w, exchangeId, s) && SameStep(steps[k], s)
    requires s.QueryStep? || s.state == steps[k].state || forall j :: 0 <= j < k ==> steps[j].stepId != s.stepId
    ensures StepsInv(cfg, w, exchangeId, steps[k := s])
  {
  }

  lemma PushKeeps(cfg: Config, w: Workflow, exchangeId: string, steps: seq<Step>, s: Step)
    requires StepsInv(cfg, w, exchangeId, steps) && steps != [] && steps[|steps| - 1].IsComplete()
    requires StepOk(cfg, w, exchangeId, s) && !s.IsComplete() && Walk(w, |steps|) == Some(s.stepId)
    ensures StepsInv(cfg, w, exchangeId, steps + [s])
  {
  }

  /** The exchange once its last step has become `step`: it waits, moves on to the next step, or is completed. */
  function MovedOn(cfg: Config, w: Workflow, ex: Exchange, step: Step, challenge: string): Exchange
    requires ex.steps != []
  {
    var steps := ex.steps[|ex.steps| - 1 := step];
    var next := Next(w, step.stepId);
    if !step.IsComplete() then ex.(steps := steps, state := Active)
    else if next.None? || next.value !in w.steps then ex.(steps := steps, state := Completed)
    else
      var hydrated := Hydrate(cfg.baseUrl, ex.workflowId, ex.exchangeId, w.steps[next.value], next.value, challenge);
      ex.(steps := steps + [hydrated], state := Active)
  }

  /** A presentation is saved exactly when the current step, known to the workflow, processes it without error. */
  lemma SubmitOutcome(cfg: Config, w: Workflow, ex: Exchange, r: Request)
    requires r.Submit?
    ensures Serve(cfg, w, ex, r).0.Some? <==>
            && ex.steps != []
            && ex.steps[|ex.steps| - 1].stepId in w.steps
            && Process(cfg.verifier, ex.steps[|ex.steps| - 1], r.vp).1.Processed?
            && Process(cfg.verifier, ex.steps[|ex.steps| - 1], r.vp).1.errors == []
    ensures Serve(cfg, w, ex, r).0.Some? ==>
            After(cfg, w, ex, r) == MovedOn(cfg, w, ex, Process(cfg.verifier, ex.steps[|ex.steps| - 1], r.vp).0, r.challenge)
  {
  }

  lemma ProcessKeepsStep(cfg: Config, w: Workflow, exchangeId: string, s: Step, vp: Presentation)
    requires StepOk(cfg, w, exchangeId, s)
    requires Process(cfg.verifier, s, vp).1.Processed? && Process(cfg.verifier, s, vp).1.errors == []
    ensures var s' := Process(cfg.verifier, s, vp).0;
            StepOk(cfg, w, exchangeId, s') && SameStep(s, s') && (s.IssuanceStep? ==> s' == s) && (s.QueryStep? ==> s'.IsComplete())
  {
  }

  lemma PushedInv(cfg: Config, w: Workflow, ex: Exchange, steps: seq<Step>, next: string, challenge: string)
    requires ex.workflowId == w.workflowId && StepsInv(cfg, w, ex.exchangeId, steps)
    requires steps != [] && steps[|steps| - 1].IsComplete() && Walk(w, |steps|) == Some(next)
    ensures next in w.steps
    ensures var hydrated := Hydrate(cfg.baseUrl, ex.workflowId, ex.exchangeId, w.steps[next], next, challenge);
            Inv(cfg, w, ex.(steps := steps + [hydrated], state := Active))
  {
    WalkKey(w, |steps|);
    var hydrated := Hydrate(cfg.baseUrl, ex.workflowId, ex.exchangeId, w.steps[next], next, challenge);
    PushKeeps(cfg, w, ex.exchangeId, steps, hydrated);
  }

  lemma MovedOnInv(cfg: Config, w: Workflow, ex: Exchange, step: Step, challenge: string)
    requires Inv(cfg, w, ex) && ex.steps != []
    requires StepOk(cfg, w, ex.exchangeId, step) && SameStep(ex.steps[|ex.steps| - 1], step)
    requires step.QueryStep? ==> step.IsComplete()
    requires step.IssuanceStep? ==> step == ex.steps[|ex.steps| - 1]
    ensures Inv(cfg, w, MovedOn(cfg, w, ex, step, challenge))
  {
    var last := |ex.steps| - 1;
    var steps := ex.steps[last := step];
    ReplaceKeeps(cfg, w, ex.exchangeId, ex.steps, last, step);
    assert Walk(w, last) == Some(step.stepId) && Walk(w, last + 1) == Next(w, step.stepId);
    if step.IsComplete() && Next(w, step.stepId).Some? {
      PushedInv(cfg, w, ex, steps, Next(w, step.stepId).value, challenge);
    }
  }

  lemma MovedOnGrows(cfg: Config, w: Workflow, ex: Exchange, step: Step, challenge: string)
    requires Inv(cfg, w, ex) && ex.steps != []
    requires SameStep(ex.steps[|ex.steps| - 1], step)
    ensures Grows(ex, MovedOn(cfg, w, ex, step, challenge))
  {
    var last := |ex.steps| - 1;
    assert Walk(w, last) == Some(ex.steps[last].stepId) && Walk(w, last + 1) == Next(w, step.stepId);
  }

  lemma SubmitInv(cfg: Config, w: Workflow, ex: Exchange, r: Request)
    requires Inv(cfg, w, ex) && r.Submit?
    ensures Inv(cfg, w, After(cfg, w, ex, r)) && Grows(ex, After(cfg, w, ex, r))
  {
    SubmitOutcome(cfg, w, ex, r);
    if Serve(cfg, w, ex, r).0.Some? {
      var last := ex.steps[|ex.steps| - 1];
      ProcessKeepsStep(cfg, w, ex.exchangeId, last, r.vp);
      MovedOnInv(cfg, w, ex, Process(cfg.verifier, last, r.vp).0, r.challenge);
      MovedOnGrows(cfg, w, ex, Process(cfg.verifier, last, r.vp).0, r.challenge);
    }
  }

  /** A review is saved exactly when the first step with its id is an issuance step, and then changes that step alone. */
  lemma ReviewAfter(cfg: Config, w: Workflow, ex: Exchange, r: Request)
    requires r.Review?
    ensures var k := FirstMatch(ex.steps, r.stepId);
            if k.Some? && ex.steps[k.value].IssuanceStep?
            then After(cfg, w, ex, r) == ex.(steps := ex.steps[k.value := WithVP(ex.steps[k.value], r.issued)])
            else After(cfg, w, ex, r) == ex && Serve(cfg, w, ex, r).0.None?
  {
  }

  lemma ReplacedInv(cfg: Config, w: Workflow, ex: Exchange, k: nat, issued: Option<Presentation>)
    requires Inv(cfg, w, ex) && k < |ex.steps| && ex.steps[k].IssuanceStep?
    requires forall j :: 0 <= j < k ==> ex.steps[j].stepId != ex.steps[k].stepId
    ensures var ex' := ex.(steps := ex.steps[k := WithVP(ex.steps[k], issued)]);
            Inv(cfg, w, ex') && Grows(ex, ex')
  {
    assert StepOk(cfg, w, ex.exchangeId, ex.steps[k]);
    ReplaceKeeps(cfg, w, ex.exchangeId, ex.steps, k, WithVP(ex.steps[k], issued));
  }

  lemma ReviewInv(cfg: Config, w: Workflow, ex: Exchange, r: Request)
    requires Inv(cfg, w, ex) && r.Review?
    ensures Inv(cfg, w, After(cfg, w, ex, r)) && Grows(ex, After(cfg, w, ex, r))
  {
    ReviewAfter(cfg, w, ex, r);
    var k := FirstMatch(ex.steps, r.stepId);
    if k.Some? && ex.steps[k.value].IssuanceStep? {
      ReplacedInv(cfg, w, ex, k.value, r.issued);
    }
  }

  lemma AfterInv(cfg: Config, w: Workflow, ex: Exchange, r: Request)
    requires Inv(cfg, w, ex)
    ensures Inv(cfg, w, After(cfg, w, ex, r)) && Grows(ex, After(cfg, w, ex, r))
  {
    match r {
      case Poll =>
      case Submit(_, _, _) => SubmitInv(cfg, w, ex, r);
      case Review(_, _, _) => ReviewInv(cfg, w, ex, r);
    }
  }

  /** Over any run the invariant is kept and nothing already established is undone; in particular completion is final. */
  lemma {:induction false} RunInv(cfg: Config, w: Workflow, ex: Exchange, requests: seq<Request>)
    requires Inv(cfg, w, ex)
    ensures Inv(cfg, w, Run(cfg, w, ex, requests)) && Grows(ex, Run(cfg, w, ex, requests))
  {
    if requests != [] {
      var n := |requests| - 1;
      RunInv(cfg, w, ex, requests[..n]);
      AfterInv(cfg, w, Run(cfg, w, ex, requests[..n]), requests[n]);
    }
  }

  lemma ReachedInv(cfg: Config, w: Workflow, exchangeId: string, challenge: string, requests: seq<Request>)
    ensures Inv(cfg, w, Reached(cfg, w, exchangeId, challenge, requests))
  {
    CreatedInv(cfg, w, exchangeId, challenge);
    RunInv(cfg, w, Created(cfg.baseUrl, w, exchangeId, challenge), requests);
  }
}
