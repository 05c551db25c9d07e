/** The workflow service: its two repositories, its operations, and what holds of the whole store over any run. */
module WorkflowServices {
  import opened Prelude
  import opened Credentials
  import opened SubmissionVerifier
  import opened Uuids
  import opened ExchangeSteps
  import opened Workflows
  import opened WfExchange
  import opened WfExchangeRuns
  import opened WfExchangeEvidence

  datatype Store = Store(workflows: map<string, Workflow>, exchanges: map<string, Exchange>, drawn: nat) {
    /** `findOneBy` with both ids. */
    function Find(workflowId: string, exchangeId: string): Option<Exchange> {
      if exchangeId in exchanges && exchanges[exchangeId].workflowId == workflowId then Some(exchanges[exchangeId]) else None
    }
  }

  datatype Operation =
    | CreateWorkflow(id: Option<string>, steps: map<string, StepDefinition>, initialStep: string)
    | CreateExchange(workflowId: string)
    | ParticipateIn(workflowId: string, exchangeId: string, requestUrl: string, vp: Option<Presentation>)
    | AddReview(workflowId: string, exchangeId: string, stepId: string, result: ReviewResult, issued: Option<Presentation>)

  datatype ServiceReply =
    | Conflict
    | Missing
    | WorkflowCreated(workflowId: string)
    | ExchangeCreated(exchangeUrl: string, step: string, state: ExchangeState)
    | ExchangeReply(reply: Reply)

  /** The service configuration: the verifier, the base URL with controller path, the body checks and the uuid supply. */
  datatype Setup = Setup(cfg: Config, supply: Supply)

  function Perform(su: Setup, st: Store, op: Operation): (Store, ServiceReply) {
    match op
    case CreateWorkflow(id, steps, initialStep) =>
      if id.Some? && id.value in st.workflows then (st, Conflict)
      else
        var workflowId := if id.Some? then id.value else su.supply(st.drawn);
        (st.(workflows := st.workflows[workflowId := Workflow(workflowId, steps, initialStep)], drawn := st.drawn + 1),
         WorkflowCreated(workflowId))
    case CreateExchange(workflowId) =>
      if workflowId !in st.workflows then (st, Missing)
      else
        var w := st.workflows[workflowId];
        var exchangeId := su.supply(st.drawn);
        var ex := Created(su.cfg.baseUrl, w, exchangeId, su.supply(st.drawn + 1));
        (st.(exchanges := st.exchanges[exchangeId := ex], drawn := st.drawn + 2),
         ExchangeCreated(Endpoint(su.cfg.baseUrl, workflowId, exchangeId), w.initialStep, ex.state))
    case ParticipateIn(workflowId, exchangeId, requestUrl, vp) =>
      (match st.Find(workflowId, exchangeId)
       case None => (st, Missing)
       case Some(ex) =>
         if vp.None? then (st, ExchangeReply(PollReply(ex)))
         else if workflowId !in st.workflows then (st, Missing)
         else
           var (saved, reply) := Serve(su.cfg, st.workflows[workflowId], ex, Submit(vp.value, su.supply(st.drawn), requestUrl));
           (Put(st, exchangeId, saved).(drawn := st.drawn + 1), ExchangeReply(reply)))
    case AddReview(workflowId, exchangeId, stepId, result, issued) =>
      match st.Find(workflowId, exchangeId)
      case None => (st, Missing)
      case Some(ex) =>
        var (saved, reply) := ReviewOutcome(ex, stepId, issued);
        (Put(st, exchangeId, saved), ExchangeReply(reply))
  }

  /** `exchangeRepository.save`, if the operation gets that far. */
  function Put(st: Store, exchangeId: string, saved: Option<Exchange>): Store {
    if saved.None? then st else st.(exchanges := st.exchanges[exchangeId := saved.value])
  }

  function PerformAll(su: Setup, st: Store, ops: seq<Operation>): Store {
    if ops == [] then st else Perform(su, PerformAll(su, st, ops[..|ops| - 1]), ops[|ops| - 1]).0
  }

  // ---- The service object ----

  datatype StoredExchange = StoredExchange(exchangeId: string, workflowId: string, steps: seq<Row>, state: ExchangeState)

  function Loaded(s: StoredExchange): Exchange {
    Exchange(s.exchangeId, s.workflowId, RehydrateAll(s.steps), s.state)
  }

  ghost predicate Storable(s: StoredExchange) {
    forall i :: 0 <= i < |s.steps| ==> WellFormed(s.steps[i])
  }

  class WorkflowService {
    const setup: Setup
    var workflows: map<string, Workflow>
    var exchanges: map<string, StoredExchange>
    var drawn: nat

    ghost predicate Valid() reads this {
      forall id :: id in exchanges ==> Storable(exchanges[id])
    }

    ghost function Contents(): Store reads this {
      Store(workflows, map id | id in exchanges :: Loaded(exchanges[id]), drawn)
    }

    constructor (setup: Setup)
      ensures Valid() && Contents() == Store(map[], map[], 0) && this.setup == setup
    {
      this.setup := setup;
      workflows, exchanges, drawn := map[], map[], 0;
    }

    method CreateWorkflow(id: Option<string>, steps: map<string, StepDefinition>, initialStep: string) returns (reply: ServiceReply)
      requires Valid()
      modifies this`workflows, this`drawn
      ensures Valid() && (Contents(), reply) == Perform(setup, old(Contents()), Operation.CreateWorkflow(id, steps, initialStep))
    {
      if id.Some? && id.value in workflows {
        return Conflict;
      }
      var workflowId := if id.Some? then id.value else setup.supply(drawn);
      drawn := drawn + 1;
      workflows := workflows[workflowId := Workflow(workflowId, steps, initialStep)];
      return WorkflowCreated(workflowId);
    }

    method CreateExchange(workflowId: string) returns (reply: ServiceReply)
      requires Valid()
      modifies this`exchanges, this`drawn
      ensures Valid() && (Contents(), reply) == Perform(setup, old(Contents()), Operation.CreateExchange(workflowId))
    {
      if workflowId !in workflows {
        return Missing;
      }
      var w := workflows[workflowId];
      var exchangeId := setup.supply(drawn);
      var exchange := new WfExchangeEntity(w, setup.cfg.baseUrl, exchangeId, setup.supply(drawn + 1));
      drawn := drawn + 2;
      Save(exchangeId, exchange);
      return ExchangeCreated(Endpoint(setup.cfg.baseUrl, workflowId, exchangeId), w.initialStep, exchange.state);
    }

    method Save(exchangeId: string, exchange: WfExchangeEntity)
      requires Valid() && exchange.Valid()
      modifies this`exchanges
      ensures Valid()
      ensures Contents() == old(Contents()).(exchanges := old(Contents()).exchanges[exchangeId := exchange.Value()])
    {
      exchanges := exchanges[exchangeId := StoredExchange(exchange.exchangeId, exchange.workflowId, exchange.steps, exchange.state)];
    }

    /** Loading makes a new entity; nothing shares it. */
    method Load(workflowId: string, exchangeId: string) returns (exchange: WfExchangeEntity?)
      requires Valid()
      ensures exchange == null <==> Contents().Find(workflowId, exchangeId).None?
      ensures exchange != null ==>
                fresh(exchange) && exchange.Valid() && Contents().Find(workflowId, exchangeId) == Some(exchange.Value())
    {
      if exchangeId !in exchanges || exchanges[exchangeId].workflowId != workflowId {
        return null;
      }
      var s := exchanges[exchangeId];
      exchange := new WfExchangeEntity.FromStore(s.exchangeId, s.workflowId, s.steps, s.state);
    }

    method ParticipateInExchange(workflowId: string, exchangeId: string, requestUrl: string, vp: Option<Presentation>)
      returns (reply: ServiceReply)
      requires Valid()
      modifies this`exchanges, this`drawn
      ensures Valid()
      ensures (Contents(), reply) == Perform(setup, old(Contents()), Operation.ParticipateIn(workflowId, exchangeId, requestUrl, vp))
    {
      var exchange := Load(workflowId, exchangeId);
      if exchange == null {
        return Missing;
      }
      if vp.None? {
        if exchange.steps == [] {
          return ExchangeReply(ThrewBeforeSave);
        }
        var response := exchange.GetExchangeResponse();
        return ExchangeReply(Responded(response, []));
      }
      if workflowId !in workflows {
        return Missing;
      }
      var challenge := setup.supply(drawn);
      drawn := drawn + 1;
      if exchange.steps == [] {
        return ExchangeReply(ThrewBeforeSave);
      }
      var current := exchange.steps[|exchange.steps| - 1].stepId;
      var successor := workflows[workflowId].GetNextStep(current);
      if successor.UnknownStep? {
        return ExchangeReply(ThrewBeforeSave);
      }
      var outcome := exchange.ParticipateInExchange(setup.cfg.verifier, setup.cfg.baseUrl, vp.value, successor.definition, successor.stepId, challenge);
      if outcome.ParticipationThrew? {
        return ExchangeReply(ThrewBeforeSave);
      }
      if outcome.Refused? {
        return ExchangeReply(BadRequest(outcome.errors));
      }
      Save(exchangeId, exchange);
      var stepResult := exchange.GetStep(current);
      if stepResult.None? || !setup.cfg.validBody(BodyOf(stepResult.value, requestUrl)) {
        return ExchangeReply(ThrewAfterSave);
      }
      return ExchangeReply(Responded(outcome.response, PostsOf(stepResult.value, requestUrl)));
    }

    method AddReview(workflowId: string, exchangeId: string, stepId: string, result: ReviewResult, issued: Option<Presentation>)
      returns (reply: ServiceReply)
      requires Valid()
      modifies this`exchanges
      ensures Valid()
      ensures (Contents(), reply) == Perform(setup, old(Contents()), Operation.AddReview(workflowId, exchangeId, stepId, result, issued))
    {
      var exchange := Load(workflowId, exchangeId);
      if exchange == null {
        return Missing;
      }
      var stepInfo := exchange.GetStep(stepId);
      if stepInfo.None? {
        return ExchangeReply(ThrewBeforeSave);
      }
      if stepInfo.value.QueryStep? {
        return ExchangeReply(OnlyIssuanceSteps);
      }
      StepRoundTrip(stepInfo.value);
      var step := new IssuanceExchangeStep.FromRow(ToRow(stepInfo.value));
      step.AddVP(issued);
      var row := step.Stored();
      StepRoundTrip(step.Value());
      exchange.ReplaceFirst(stepId, row);
      Save(exchangeId, exchange);
      return ExchangeReply(Reviewed);
    }

    /** `getExchangeState`: the current step id and the state; None when the exchange is missing or has no steps. */
    method GetExchangeState(workflowId: string, exchangeId: string) returns (r: Option<(string, ExchangeState)>)
      requires Valid()
      ensures var found := Contents().Find(workflowId, exchangeId);
              if found.None? || found.value.steps == [] then r == None
              else r == Some((found.value.steps[|found.value.steps| - 1].stepId, found.value.state))
    {
      var exchange := Load(workflowId, exchangeId);
      if exchange == null || exchange.steps == [] {
        return None;
      }
      return Some((exchange.steps[|exchange.steps| - 1].stepId, exchange.state));
    }

    /** `getExchangeStep`: the first step with the id and its response; None when there is none. */
    method GetExchangeStep(workflowId: string, exchangeId: string, stepId: string) returns (r: Option<(Step, StepResponse)>)
      requires Valid()
      ensures match Contents().Find(workflowId, exchangeId)
              case None => r == None
              case Some(ex) =>
                match FirstMatch(ex.steps, stepId)
                case None => r == None
                case Some(k) => r == Some((ex.steps[k], ex.steps[k].Response()))
    {
      var exchange := Load(workflowId, exchangeId);
      if exchange == null {
        return None;
      }
      var step := exchange.GetStep(stepId);
      if step.None? {
        return None;
      }
      return Some((step.value, step.value.Response()));
    }
  }
}
