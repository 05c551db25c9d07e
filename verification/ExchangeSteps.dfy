/** The steps of a workflow exchange: as values, as stored JSON rows and as the objects that process presentations. */
module ExchangeSteps {
  import opened Prelude
  import opened Credentials
  import opened SubmissionVerifier

  datatype StepState = InProgress | Complete

  datatype Submission = Submission(presentation: Presentation, result: VerificationResult)

  datatype StepResponse =
    | RequestPresentation(vpRequest: VpRequest)
    | IssuedPresentation(presentation: Presentation)
    | RedirectTo(url: string)

  datatype Step =
    | QueryStep(stepId: string, state: StepState, callback: seq<string>, vpRequest: VpRequest,
                submission: Option<Submission>)
    | IssuanceStep(stepId: string, state: StepState, callback: seq<string>, holderRedirectUrl: string,
                   issuedVP: Option<Presentation>)
  {
    predicate IsComplete() {
      state.Complete?
    }

    function Response(): StepResponse {
      match this
      case QueryStep(_, _, _, vpRequest, _) => RequestPresentation(vpRequest)
      case IssuanceStep(_, _, _, url, issuedVP) =>
        if issuedVP.Some? then IssuedPresentation(issuedVP.value) else RedirectTo(url)
    }
  }

  /** What `processPresentation` of a step returns; an issuance step has no verification result. */
  datatype Processing = Processed(errors: seq<SubmissionError>, result: Option<VerificationResult>) | ProcessingThrew

  function Process(v: Verifier, step: Step, vp: Presentation): (Step, Processing) {
    match step
    case IssuanceStep(_, _, _, _, _) => (step, Processed([], None))
    case QueryStep(_, _, _, vpRequest, _) =>
      match Verify(v, vp, vpRequest)
      case VerdictThrew => (step, ProcessingThrew)
      case Verdict(result) =>
        var recorded := step.(submission := Some(Submission(vp, result)));
        (if result.errors == [] then recorded.(state := Complete) else recorded,
         Processed(result.errors, Some(result)))
  }

  function WithVP(step: Step, vp: Option<Presentation>): Step
    requires step.IssuanceStep?
  {
    step.(issuedVP := vp, state := Complete)
  }

  // ---- Stored rows ----

  /** A step as the 'simple-json' column keeps it: undefined fields are not there. */
  datatype Row = Row(stepId: string, state: StepState, callback: seq<string>, kind: string,
                     vpRequest: Option<VpRequest>, presentationSubmission: Option<Submission>,
                     holderRedirectUrl: Option<string>, issuedVP: Option<Presentation>)

  const QUERY_KIND := "QueryExchangeStep"
  const ISSUANCE_KIND := "IssuanceExchangeStep"

  function ToRow(step: Step): Row {
    match step
    case QueryStep(id, state, callback, vpRequest, submission) =>
      Row(id, state, callback, QUERY_KIND, Some(vpRequest), submission, None, None)
    case IssuanceStep(id, state, callback, url, issuedVP) =>
      Row(id, state, callback, ISSUANCE_KIND, None, None, Some(url), issuedVP)
  }

  /** The class a row is turned into is chosen by the presence of `vpRequest`, never by its type tag. */
  function Rehydrate(row: Row): Step {
    if row.vpRequest.Some?
    then QueryStep(row.stepId, row.state, row.callback, row.vpRequest.value, row.presentationSubmission)
    else IssuanceStep(row.stepId, row.state, row.callback, row.holderRedirectUrl.GetOr(""), row.issuedVP)
  }

  /** The tag names the class that presence of `vpRequest` selects, and no field of the other class is there. */
  predicate WellFormed(row: Row) {
    if row.vpRequest.Some?
    then row.kind == QUERY_KIND && row.holderRedirectUrl.None? && row.issuedVP.None?
    else row.kind == ISSUANCE_KIND && row.presentationSubmission.None? && row.holderRedirectUrl.Some?
  }

  /** Storing and rehydrating loses nothing of any step. */
  lemma StepRoundTrip(step: Step)
    ensures WellFormed(ToRow(step)) && Rehydrate(ToRow(step)) == step
  {
  }

  /** Rehydrating and storing gives back exactly the rows that storing writes: the well-formed ones. */
  lemma RowRoundTripIff(row: Row)
    ensures ToRow(Rehydrate(row)) == row <==> WellFormed(row)
  {
    if row.holderRedirectUrl.Some? {
      assert row.holderRedirectUrl == Some(row.holderRedirectUrl.value);
    }
  }

  function RehydrateAll(rows: seq<Row>): (steps: seq<Step>)
    ensures |steps| == |rows|
    ensures forall i :: 0 <= i < |rows| ==> steps[i] == Rehydrate(rows[i])
  {
    seq(|rows|, i requires 0 <= i < |rows| => Rehydrate(rows[i]))
  }

  /** `Array.prototype.find` on step ids: the first position that carries the id. */
  function FirstMatch(steps: seq<Step>, stepId: string): (k: Option<nat>)
    ensures k.Some? ==>
              && k.value < |steps| && steps[k.value].stepId == stepId
              && forall j :: 0 <= j < k.value ==> steps[j].stepId != stepId
    ensures k.None? ==> forall j :: 0 <= j < |steps| ==> steps[j].stepId != stepId
  {
    if steps == [] then None
    else if steps[0].stepId == stepId then Some(0)
    else
      match FirstMatch(steps[1..], stepId)
      case None => None
      case Some(k) =>
        assert forall j :: 0 < j < |steps| ==> steps[j] == steps[1..][j - 1];
        Some(k + 1)
  }

  function FirstMatchRow(rows: seq<Row>, stepId: string): (k: Option<nat>)
    ensures k == FirstMatch(RehydrateAll(rows), stepId)
  {
    if rows == [] then None
    else
      assert RehydrateAll(rows)[1..] == RehydrateAll(rows[1..]);
      if rows[0].stepId == stepId then Some(0)
      else
        match FirstMatchRow(rows[1..], stepId)
        case None => None
        case Some(k) => Some(k + 1)
  }

  // ---- Step objects ----

  class QueryExchangeStep {
    var stepId: string
    var state: StepState
    var callback: seq<string>
    var kind: string
    var vpRequest: VpRequest
    var presentationSubmission: Option<Submission>

    ghost predicate Valid() reads this {
      kind == QUERY_KIND
    }

    function Value(): Step reads this {
      QueryStep(stepId, state, callback, vpRequest, presentationSubmission)
    }

    constructor (stepId: string, vpRequest: VpRequest, callback: seq<string>)
      ensures Valid() && Value() == QueryStep(stepId, InProgress, callback, vpRequest, None)
    {
      this.stepId := stepId;
      this.callback := callback;
      this.kind := QUERY_KIND;
      this.state := InProgress;
      this.vpRequest := vpRequest;
      this.presentationSubmission := None;
    }

    /** `plainToInstance(QueryExchangeStep, row)`: a new object; the row itself is not touched. */
    constructor FromRow(row: Row)
      requires WellFormed(row) && row.vpRequest.Some?
      ensures Valid() && Value() == Rehydrate(row)
    {
      this.stepId := row.stepId;
      this.callback := row.callback;
      this.kind := row.kind;
      this.state := row.state;
      this.vpRequest := row.vpRequest.value;
      this.presentationSubmission := row.presentationSubmission;
    }

    method Stored() returns (row: Row)
      requires Valid()
      ensures row == ToRow(Value())
    {
      row := Row(stepId, state, callback, kind, Some(vpRequest), presentationSubmission, None, None);
    }

    method MarkComplete()
      modifies this`state
      ensures Value() == old(Value()).(state := Complete)
    {
      state := Complete;
    }

    method ProcessPresentation(v: Verifier, vp: Presentation) returns (r: Processing)
      requires Valid()
      modifies this`state, this`presentationSubmission
      ensures Valid() && (Value(), r) == Process(v, old(Value()), vp)
    {
      var verdict := VerifyVpRequestSubmission(v, vp, vpRequest);
      if verdict.VerdictThrew? {
        return ProcessingThrew;
      }
      var errors := verdict.result.errors;
      presentationSubmission := Some(Submission(vp, verdict.result));
      if |errors| == 0 {
        MarkComplete();
      }
      return Processed(errors, Some(verdict.result));
    }
  }

  class IssuanceExchangeStep {
    var stepId: string
    var state: StepState
    var callback: seq<string>
    var kind: string
    var holderRedirectUrl: string
    var issuedVP: Option<Presentation>

    ghost predicate Valid() reads this {
      kind == ISSUANCE_KIND
    }

    function Value(): Step reads this {
      IssuanceStep(stepId, state, callback, holderRedirectUrl, issuedVP)
    }

    constructor (stepId: string, callback: seq<string>, holderRedirectUrl: string)
      ensures Valid() && Value() == IssuanceStep(stepId, InProgress, callback, holderRedirectUrl, None)
    {
      this.stepId := stepId;
      this.callback := callback;
      this.kind := ISSUANCE_KIND;
      this.state := InProgress;
      this.holderRedirectUrl := holderRedirectUrl;
      this.issuedVP := None;
    }

    constructor FromRow(row: Row)
      requires WellFormed(row) && row.vpRequest.None?
      ensures Valid() && Value() == Rehydrate(row)
    {
      this.stepId := row.stepId;
      this.callback := row.callback;
      this.kind := row.kind;
      this.state := row.state;
      this.holderRedirectUrl := row.holderRedirectUrl.value;
      this.issuedVP := row.issuedVP;
    }

    method Stored() returns (row: Row)
      requires Valid()
      ensures row == ToRow(Value())
    {
      row := Row(stepId, state, callback, kind, None, None, Some(holderRedirectUrl), issuedVP);
    }

    method MarkComplete()
      modifies this`state
      ensures Value() == old(Value()).(state := Complete)
    {
      state := Complete;
    }

    method AddVP(vp: Option<Presentation>)
      requires Valid()
      modifies this`state, this`issuedVP
      ensures Valid() && old(Value()).IssuanceStep? && Value() == WithVP(old(Value()), vp)
    {
      issuedVP := vp;
      MarkComplete();
    }

    method ProcessPresentation(v: Verifier, vp: Presentation) returns (r: Processing)
      requires Valid()
      ensures (Value(), r) == Process(v, Value(), vp)
    {
      return Processed([], None);
    }
  }
}
