/**
 Checking a submitted presentation against a VP request: the proof, the challenge and every query.
 The workflow copy and the exchange copy of the service differ only in the declared type of the
 request and read nothing of it but the challenge and the query list.
 */
module SubmissionVerifier {
  import opened Prelude
  import opened Credentials

  /** What the proof library answers: a verdict, whose error list may be missing, or a throw. */
  datatype ProofOutcome = ProofChecked(isValid: bool, errors: Option<seq<string>>) | ProofThrew

  /** What the presentation exchange library answers for one definition; an entry's message may be missing. */
  datatype PexOutcome = PexErrors(messages: seq<Option<string>>) | PexThrewString(message: string) | PexThrewOther

  datatype Verifier = Verifier(
    proof: (Presentation, string) -> ProofOutcome,
    pex: (Definition, Presentation) -> PexOutcome)

  /** The errors collected by a check, or an exception that leaves the verifier. */
  datatype Checked = Errors(errors: seq<SubmissionError>) | Threw

  datatype Verdict = Verdict(result: VerificationResult) | VerdictThrew

  function Join(a: Checked, b: Checked): Checked {
    if a.Threw? || b.Threw? then Threw else Errors(a.errors + b.errors)
  }

  // ---- The checks, as concatenations ----

  predicate HasHolder(vp: Presentation) {
    vp.holder.Some? && vp.holder.value != ""
  }

  function Reason(message: Option<string>): string {
    if message.None? || message.value == "" then "Unknown" else message.value
  }

  /** The messages one definition contributes, in order; None when the library threw a non-string. */
  function Messages(outcome: PexOutcome): Option<seq<Option<string>>> {
    match outcome
    case PexErrors(messages) => Some(messages)
    case PexThrewString(message) => Some([Some(message)])
    case PexThrewOther => None
  }

  function Numbered(messages: seq<Option<string>>, number: nat): (errors: seq<SubmissionError>)
    ensures |errors| == |messages|
    ensures forall i :: 0 <= i < |errors| ==> errors[i] == DefinitionFailed(number, Reason(messages[i]))
  {
    seq(|messages|, i requires 0 <= i < |messages| => DefinitionFailed(number, Reason(messages[i])))
  }

  function OneDefinition(v: Verifier, vp: Presentation, d: Definition, number: nat): Checked {
    match Messages(v.pex(d, vp))
    case None => Threw
    case Some(messages) => Errors(Numbered(messages, number))
  }

  function DefinitionErrors(v: Verifier, vp: Presentation, defs: seq<Definition>): Checked {
    if defs == [] then Errors([])
    else Join(DefinitionErrors(v, vp, defs[..|defs| - 1]), OneDefinition(v, vp, defs[|defs| - 1], |defs|))
  }

  function QueryErrors(v: Verifier, vp: Presentation, q: Query): Checked {
    match q
    case DidAuth => Errors(if HasHolder(vp) then [] else [HolderRequired])
    case PresentationDefinition(defs) => DefinitionErrors(v, vp, defs)
    case OtherQuery(_) => Errors([UnknownQueryType])
  }

  function AllQueryErrors(v: Verifier, vp: Presentation, qs: seq<Query>): Checked {
    if qs == [] then Errors([]) else Join(QueryErrors(v, vp, qs[0]), AllQueryErrors(v, vp, qs[1..]))
  }

  function ChallengeErrors(vp: Presentation, challenge: string): Checked {
    match vp.proof
    case None => Threw
    case Some(proof) => Errors(if proof.challenge == Some(challenge) then [] else [ChallengeMismatch])
  }

  function Titles(messages: seq<string>): (errors: seq<SubmissionError>)
    ensures |errors| == |messages|
    ensures forall i :: 0 <= i < |errors| ==> errors[i] == ProofError(messages[i])
  {
    seq(|messages|, i requires 0 <= i < |messages| => ProofError(messages[i]))
  }

  /** `transformVerificationResult` followed by `verifyPresentationProof`. */
  function ProofVerdict(v: Verifier, vp: Presentation, challenge: string): Verdict {
    if vp.proof.None? then VerdictThrew
    else match v.proof(vp, challenge)
      case ProofThrew => VerdictThrew
      case ProofChecked(isValid, errors) =>
        if isValid then Verdict(VerificationResult(true, [], []))
        else if errors.None? then VerdictThrew
        else Verdict(VerificationResult(false, Titles(errors.value), []))
  }

  function Verify(v: Verifier, vp: Presentation, request: VpRequest): Verdict {
    var proof := ProofVerdict(v, vp, request.challenge);
    var rest := Join(AllQueryErrors(v, vp, request.query), ChallengeErrors(vp, request.challenge));
    if proof.VerdictThrew? || rest.Threw? then VerdictThrew
    else Verdict(VerificationResult(proof.result.verified, proof.result.errors + rest.errors, []))
  }

  // ---- The code ----

  /** `verifyVpRequestTypePresentationDefinition`: a loop that pushes onto one error array. */
  method VerifyPresentationDefinitions(v: Verifier, vp: Presentation, defs: seq<Definition>) returns (r: Checked)
    ensures r == DefinitionErrors(v, vp, defs)
  {
    var errors: seq<SubmissionError> := [];
    for index := 0 to |defs|
      invariant DefinitionErrors(v, vp, defs[..index]) == Errors(errors)
      invariant forall k :: 0 <= k < index ==> !OneDefinition(v, vp, defs[k], k + 1).Threw?
    {
      assert defs[..index + 1][..index] == defs[..index];
      var partialErrors: seq<Option<string>> := [];
      match v.pex(defs[index], vp) {
        case PexErrors(messages) => partialErrors := messages;
        case PexThrewString(message) => partialErrors := [Some(message)];
        case PexThrewOther =>
          DefinitionThrowEscapes(v, vp, defs, index);
          return Threw;
      }
      errors := errors + Numbered(partialErrors, index + 1);
    }
    assert defs[..|defs|] == defs;
    return Errors(errors);
  }

  lemma {:induction false} DefinitionThrowEscapes(v: Verifier, vp: Presentation, defs: seq<Definition>, k: nat)
    requires k < |defs|
    requires OneDefinition(v, vp, defs[k], k + 1).Threw?
    ensures DefinitionErrors(v, vp, defs).Threw?
  {
    if k < |defs| - 1 {
      DefinitionThrowEscapes(v, vp, defs[..|defs| - 1], k);
    }
  }

  /** `validatePresentationAgainstVpRequest`: the flat map over the queries, then the common errors. */
  method ValidatePresentation(v: Verifier, vp: Presentation, request: VpRequest) returns (r: Checked)
    ensures r == Join(AllQueryErrors(v, vp, request.query), ChallengeErrors(vp, request.challenge))
  {
    if vp.proof.None? {
      return Threw;
    }
    var commonErrors: seq<SubmissionError> := [];
    if vp.proof.value.challenge != Some(request.challenge) {
      commonErrors := commonErrors + [ChallengeMismatch];
    }
    var partialErrors: seq<SubmissionError> := [];
    var i := 0;
    while i < |request.query|
      invariant 0 <= i <= |request.query|
      invariant AllQueryErrors(v, vp, request.query) == Join(Errors(partialErrors), AllQueryErrors(v, vp, request.query[i..]))
    {
      var one: Checked;
      match request.query[i] {
        case DidAuth =>
          one := Errors(if HasHolder(vp) then [] else [HolderRequired]);
        case PresentationDefinition(defs) =>
          one := VerifyPresentationDefinitions(v, vp, defs);
        case OtherQuery(_) =>
          one := Errors([UnknownQueryType]);
      }
      if one.Threw? {
        return Threw;
      }
      ghost var rest := AllQueryErrors(v, vp, request.query[i + 1..]);
      JoinAssociates(Errors(partialErrors), one, rest);
      partialErrors := partialErrors + one.errors;
      i := i + 1;
    }
    return Errors(partialErrors + commonErrors);
  }

  method VerifyVpRequestSubmission(v: Verifier, vp: Presentation, request: VpRequest) returns (r: Verdict)
    ensures r == Verify(v, vp, request)
  {
    var proof := ProofVerdict(v, vp, request.challenge);
    if proof.VerdictThrew? {
      return VerdictThrew;
    }
    var rest := ValidatePresentation(v, vp, request);
    if rest.Threw? {
      return VerdictThrew;
    }
    return Verdict(VerificationResult(proof.result.verified, proof.result.errors + rest.errors, []));
  }

  // ---- What an empty error list means ----

  lemma JoinAssociates(a: Checked, b: Checked, c: Checked)
    ensures Join(Join(a, b), c) == Join(a, Join(b, c))
  {
    if !a.Threw? && !b.Threw? && !c.Threw? {
      assert (a.errors + b.errors) + c.errors == a.errors + (b.errors + c.errors);
    }
  }

  /** No errors and no exception: what both state machines test before they accept. */
  predicate Accepts(v: Verifier, vp: Presentation, request: VpRequest) {
    var verdict := Verify(v, vp, request);
    verdict.Verdict? && verdict.result.errors == []
  }

  predicate DefinitionPasses(v: Verifier, vp: Presentation, d: Definition) {
    v.pex(d, vp) == PexErrors([])
  }

  predicate QueryPasses(v: Verifier, vp: Presentation, q: Query) {
    match q
    case DidAuth => vp.holder.Some? && vp.holder.value != ""
    case PresentationDefinition(defs) => forall i :: 0 <= i < |defs| ==> DefinitionPasses(v, vp, defs[i])
    case OtherQuery(_) => false
  }

  /** The proof check reported nothing: it succeeded, or it failed and listed no reason. */
  predicate ProofSilent(v: Verifier, vp: Presentation, challenge: string) {
    var outcome := v.proof(vp, challenge);
    outcome.ProofChecked? && (outcome.isValid || outcome.errors == Some([]))
  }

  /** The proof library's own verdict. */
  predicate ProofValid(v: Verifier, vp: Presentation, challenge: string) {
    v.proof(vp, challenge).ProofChecked? && v.proof(vp, challenge).isValid
  }

  lemma {:induction false} DefinitionsPassIff(v: Verifier, vp: Presentation, defs: seq<Definition>)
    ensures DefinitionErrors(v, vp, defs) == Errors([]) <==>
            forall i :: 0 <= i < |defs| ==> DefinitionPasses(v, vp, defs[i])
  {
    if defs != [] {
      var n := |defs| - 1;
      DefinitionsPassIff(v, vp, defs[..n]);
      assert OneDefinition(v, vp, defs[n], n + 1) == Errors([]) <==> DefinitionPasses(v, vp, defs[n]) by {
        var messages := Messages(v.pex(defs[n], vp));
        if messages.Some? {
          assert |Numbered(messages.value, n + 1)| == |messages.value|;
        }
      }
      assert forall i :: 0 <= i < n ==> defs[..n][i] == defs[i];
    }
  }

  lemma {:induction false} QueriesPassIff(v: Verifier, vp: Presentation, qs: seq<Query>)
    ensures AllQueryErrors(v, vp, qs) == Errors([]) <==> forall i :: 0 <= i < |qs| ==> QueryPasses(v, vp, qs[i])
  {
    if qs != [] {
      QueriesPassIff(v, vp, qs[1..]);
      if qs[0].PresentationDefinition? {
        DefinitionsPassIff(v, vp, qs[0].definitions);
      }
      assert forall i :: 0 < i < |qs| ==> qs[i] == qs[1..][i - 1];
    }
  }

  /** The presentation meets everything the request asks of it. */
  predicate Meets(v: Verifier, vp: Presentation, request: VpRequest) {
    && vp.proof.Some?
    && vp.proof.value.challenge == Some(request.challenge)
    && ProofSilent(v, vp, request.challenge)
    && forall i :: 0 <= i < |request.query| ==> QueryPasses(v, vp, request.query[i])
  }

  /** Both directions: exactly which presentations the state machines accept for a request. */
  lemma AcceptsIff(v: Verifier, vp: Presentation, request: VpRequest)
    ensures Accepts(v, vp, request) <==> Meets(v, vp, request)
  {
    QueriesPassIff(v, vp, request.query);
  }

  /** The error list alone decides acceptance, so a failed proof that lists no reason is accepted; nothing else is. */
  lemma AcceptedButUnverifiedIff(v: Verifier, vp: Presentation, request: VpRequest)
    requires Accepts(v, vp, request)
    ensures !Verify(v, vp, request).result.verified <==> v.proof(vp, request.challenge) == ProofChecked(false, Some([]))
  {
    AcceptsIff(v, vp, request);
  }

  /** A holder can meet every condition and still carry a proof the library called invalid. */
  lemma UnverifiedAcceptanceExists()
    ensures exists v: Verifier, vp, request ::
              Accepts(v, vp, request) && !Verify(v, vp, request).result.verified
  {
    var v := Verifier((_, _) => ProofChecked(false, Some([])), (_, _) => PexErrors([]));
    var vp := Presentation(Some("did:key:h"), Some(Proof(Some("c"), None)), []);
    var request := VpRequest("c", [DidAuth], [], None);
    AcceptsIff(v, vp, request);
    AcceptedButUnverifiedIff(v, vp, request);
  }

  /** Splitting a query list splits the error list at the same place. */
  lemma {:induction false} QueriesDistribute(v: Verifier, vp: Presentation, a: seq<Query>, b: seq<Query>)
    ensures AllQueryErrors(v, vp, a + b) == Join(AllQueryErrors(v, vp, a), AllQueryErrors(v, vp, b))
  {
    if a == [] {
      assert a + b == b;
      var rest := AllQueryErrors(v, vp, b);
      if rest.Errors? { assert [] + rest.errors == rest.errors; }
    } else {
      assert (a + b)[1..] == a[1..] + b;
      QueriesDistribute(v, vp, a[1..], b);
      JoinAssociates(QueryErrors(v, vp, a[0]), AllQueryErrors(v, vp, a[1..]), AllQueryErrors(v, vp, b));
    }
  }

  ghost predicate IsReason(message: Option<string>, reason: string) {
    if message.None? || message.value == "" then reason == "Unknown" else reason == message.value
  }

  function Reasons(messages: seq<Option<string>>): (reasons: seq<string>)
    ensures |reasons| == |messages|
    ensures forall i :: 0 <= i < |messages| ==> reasons[i] == Reason(messages[i]) && IsReason(messages[i], reasons[i])
  {
    seq(|messages|, i requires 0 <= i < |messages| => Reason(messages[i]))
  }

  /** The reasons reported under one definition number, in the order they are reported. */
  function ReasonsOf(errors: seq<SubmissionError>, number: nat): seq<string> {
    if errors == [] then []
    else
      var before := ReasonsOf(errors[..|errors| - 1], number);
      var last := errors[|errors| - 1];
      if last.DefinitionFailed? && last.number == number then before + [last.reason] else before
  }

  lemma {:induction false} ReasonsOfAppend(a: seq<SubmissionError>, b: seq<SubmissionError>, number: nat)
    ensures ReasonsOf(a + b, number) == ReasonsOf(a, number) + ReasonsOf(b, number)
  {
    if b == [] {
      assert a + b == a;
    } else {
      assert (a + b)[..|a + b| - 1] == a + b[..|b| - 1];
      ReasonsOfAppend(a, b[..|b| - 1], number);
    }
  }

  lemma {:induction false} ReasonsOfNumbered(messages: seq<Option<string>>, number: nat, asked: nat)
    ensures ReasonsOf(Numbered(messages, number), asked) ==
            if asked == number then Reasons(messages) else []
  {
    if messages != [] {
      var n := |messages| - 1;
      assert Numbered(messages, number)[..n] == Numbered(messages[..n], number);
      assert Reasons(messages) == Reasons(messages[..n]) + [Reason(messages[n])];
      ReasonsOfNumbered(messages[..n], number, asked);
    }
  }

  /**
   Every message is reported under the 1-based position of its own definition: the reasons under number k
   are definition k's messages, in order, nothing is reported under any other number, and numbers never decrease.
   */
  lemma {:induction false} DefinitionsAreNumbered(v: Verifier, vp: Presentation, defs: seq<Definition>, number: nat)
    requires DefinitionErrors(v, vp, defs).Errors?
    ensures var errors := DefinitionErrors(v, vp, defs).errors;
            && (forall i :: 0 <= i < |errors| ==> errors[i].DefinitionFailed? && 1 <= errors[i].number <= |defs|)
            && (forall i, j :: 0 <= i < j < |errors| ==> errors[i].number <= errors[j].number)
            && ReasonsOf(errors, number) ==
               if 1 <= number <= |defs| then Reasons(Messages(v.pex(defs[number - 1], vp)).GetOr([])) else []
  {
    if defs != [] {
      var n := |defs| - 1;
      DefinitionsAreNumbered(v, vp, defs[..n], number);
      var before := DefinitionErrors(v, vp, defs[..n]).errors;
      var messages := Messages(v.pex(defs[n], vp)).value;
      ReasonsOfAppend(before, Numbered(messages, n + 1), number);
      ReasonsOfNumbered(messages, n + 1, number);
    }
  }

  // ---- What a returned verdict lists ----

  /** The reasons that one evaluated definition gives: one per error, or the thrown string. */
  ghost predicate DefinitionReasons(outcome: PexOutcome, reasons: seq<string>) {
    match outcome
    case PexErrors(messages) => |reasons| == |messages| && forall i :: 0 <= i < |messages| ==> IsReason(messages[i], reasons[i])
    case PexThrewString(message) => |reasons| == 1 && IsReason(Some(message), reasons[0])
    case PexThrewOther => false
  }

  /** What one query contributes to the errors. */
  ghost predicate QueryBlock(v: Verifier, vp: Presentation, q: Query, block: seq<SubmissionError>) {
    match q
    case DidAuth => block == if vp.holder.None? || vp.holder.value == "" then [HolderRequired] else []
    case PresentationDefinition(defs) =>
      && (forall i :: 0 <= i < |block| ==> block[i].DefinitionFailed? && 1 <= block[i].number <= |defs|)
      && (forall i, j :: 0 <= i < j < |block| ==> block[i].number <= block[j].number)
      && (forall k :: 0 <= k < |defs| ==> DefinitionReasons(v.pex(defs[k], vp), ReasonsOf(block, k + 1)))
    case OtherQuery(_) => block == [UnknownQueryType]
  }

  function Concat(blocks: seq<seq<SubmissionError>>): seq<SubmissionError> {
    if blocks == [] then [] else blocks[0] + Concat(blocks[1..])
  }

  /** The messages of a proof that the library called invalid. */
  function ProofMessages(v: Verifier, vp: Presentation, challenge: string): seq<string> {
    match v.proof(vp, challenge)
    case ProofThrew => []
    case ProofChecked(isValid, errors) => if isValid then [] else errors.GetOr([])
  }

  ghost predicate ListsInOrder(v: Verifier, vp: Presentation, request: VpRequest, errors: seq<SubmissionError>,
                               blocks: seq<seq<SubmissionError>>)
    requires vp.proof.Some?
  {
    var messages := ProofMessages(v, vp, request.challenge);
    && |blocks| == |request.query|
    && (forall i :: 0 <= i < |blocks| ==> QueryBlock(v, vp, request.query[i], blocks[i]))
    && |messages| <= |errors|
    && (forall i :: 0 <= i < |messages| ==> errors[i] == ProofError(messages[i]))
    && errors[|messages|..] ==
       Concat(blocks) + if vp.proof.value.challenge == Some(request.challenge) then [] else [ChallengeMismatch]
  }

  /**
   The errors are the proof library's messages, then what each query contributes in the order of the queries, then the
   challenge mismatch if there is one.
   */
  ghost predicate Lists(v: Verifier, vp: Presentation, request: VpRequest, errors: seq<SubmissionError>) {
    vp.proof.Some? && exists blocks :: ListsInOrder(v, vp, request, errors, blocks)
  }

  /** Neither library throws anything but a string, a failed proof has an error list, and the presentation has a proof. */
  predicate Returns(v: Verifier, vp: Presentation, request: VpRequest) {
    && vp.proof.Some?
    && v.proof(vp, request.challenge).ProofChecked?
    && (v.proof(vp, request.challenge).isValid || v.proof(vp, request.challenge).errors.Some?)
    && forall i :: 0 <= i < |request.query| ==> QueryReturns(v, vp, request.query[i])
  }

  predicate QueryReturns(v: Verifier, vp: Presentation, q: Query) {
    q.PresentationDefinition? ==> forall k :: 0 <= k < |q.definitions| ==> !v.pex(q.definitions[k], vp).PexThrewOther?
  }

  lemma {:induction false} DefinitionsReturnIff(v: Verifier, vp: Presentation, defs: seq<Definition>)
    ensures DefinitionErrors(v, vp, defs).Errors? <==> forall k :: 0 <= k < |defs| ==> !v.pex(defs[k], vp).PexThrewOther?
  {
    if defs != [] {
      var n := |defs| - 1;
      DefinitionsReturnIff(v, vp, defs[..n]);
      assert forall k :: 0 <= k < n ==> defs[..n][k] == defs[k];
    }
  }

  lemma {:induction false} QueriesReturnIff(v: Verifier, vp: Presentation, qs: seq<Query>)
    ensures AllQueryErrors(v, vp, qs).Errors? <==> forall i :: 0 <= i < |qs| ==> QueryReturns(v, vp, qs[i])
  {
    if qs != [] {
      QueriesReturnIff(v, vp, qs[1..]);
      if qs[0].PresentationDefinition? {
        DefinitionsReturnIff(v, vp, qs[0].definitions);
      }
      assert forall i :: 0 < i < |qs| ==> qs[i] == qs[1..][i - 1];
    }
  }

  lemma ReasonsFit(outcome: PexOutcome)
    requires !outcome.PexThrewOther?
    ensures DefinitionReasons(outcome, Reasons(Messages(outcome).GetOr([])))
  {
  }

  lemma DefinitionsBlock(v: Verifier, vp: Presentation, defs: seq<Definition>)
    requires DefinitionErrors(v, vp, defs).Errors?
    ensures QueryBlock(v, vp, PresentationDefinition(defs), DefinitionErrors(v, vp, defs).errors)
  {
    var block := DefinitionErrors(v, vp, defs).errors;
    DefinitionsAreNumbered(v, vp, defs, 0);
    DefinitionsReturnIff(v, vp, defs);
    forall k | 0 <= k < |defs| ensures DefinitionReasons(v.pex(defs[k], vp), ReasonsOf(block, k + 1)) {
      DefinitionsAreNumbered(v, vp, defs, k + 1);
      ReasonsFit(v.pex(defs[k], vp));
    }
  }

  lemma {:induction false} QueryBlocks(v: Verifier, vp: Presentation, qs: seq<Query>) returns (blocks: seq<seq<SubmissionError>>)
    requires AllQueryErrors(v, vp, qs).Errors?
    ensures |blocks| == |qs| && Concat(blocks) == AllQueryErrors(v, vp, qs).errors
    ensures forall i :: 0 <= i < |qs| ==> QueryBlock(v, vp, qs[i], blocks[i])
  {
    if qs == [] {
      blocks := [];
    } else {
      var rest := QueryBlocks(v, vp, qs[1..]);
      var block := QueryErrors(v, vp, qs[0]).errors;
      if qs[0].PresentationDefinition? {
        DefinitionsBlock(v, vp, qs[0].definitions);
      }
      blocks := [block] + rest;
      assert blocks[1..] == rest;
      forall i | 0 < i < |qs| ensures QueryBlock(v, vp, qs[i], blocks[i]) {
        assert qs[i] == qs[1..][i - 1] && blocks[i] == rest[i - 1];
      }
    }
  }

  /**
   What every verdict is, without the functions that compute it: when one is returned, what its errors are and in which
   order, and that its flag is the proof library's own, on refusals too.
   */
  lemma VerdictLaw(v: Verifier, vp: Presentation, request: VpRequest)
    ensures Verify(v, vp, request).Verdict? <==> Returns(v, vp, request)
    ensures Returns(v, vp, request) ==>
            var result := Verify(v, vp, request).result;
            && Lists(v, vp, request, result.errors)
            && result.verified == ProofValid(v, vp, request.challenge)
            && result.warnings == []
  {
    QueriesReturnIff(v, vp, request.query);
    if Returns(v, vp, request) {
      var blocks := QueryBlocks(v, vp, request.query);
      var result := Verify(v, vp, request).result;
      assert ListsInOrder(v, vp, request, result.errors, blocks) by {
        assert result.errors[|ProofMessages(v, vp, request.challenge)|..] ==
               Join(AllQueryErrors(v, vp, request.query), ChallengeErrors(vp, request.challenge)).errors;
      }
    }
  }

  /** The verdict on a presentation that meets the request. */
  lemma AcceptedVerdict(v: Verifier, vp: Presentation, request: VpRequest)
    requires Meets(v, vp, request)
    ensures Verify(v, vp, request) == Verdict(VerificationResult(ProofValid(v, vp, request.challenge), [], []))
  {
    AcceptsIff(v, vp, request);
    VerdictLaw(v, vp, request);
  }

  // ---- How often each error is listed ----

  function DidAuths(qs: seq<Query>): nat {
    if qs == [] then 0 else (if qs[0].DidAuth? then 1 else 0) + DidAuths(qs[1..])
  }

  function Unknowns(qs: seq<Query>): nat {
    if qs == [] then 0 else (if qs[0].OtherQuery? then 1 else 0) + Unknowns(qs[1..])
  }

  lemma BlockCounts(v: Verifier, vp: Presentation, q: Query, block: seq<SubmissionError>)
    requires QueryBlock(v, vp, q, block)
    ensures multiset(block)[HolderRequired] == if q.DidAuth? && (vp.holder.None? || vp.holder.value == "") then 1 else 0
    ensures multiset(block)[UnknownQueryType] == if q.OtherQuery? then 1 else 0
    ensures multiset(block)[ChallengeMismatch] == 0
  {
    if q.PresentationDefinition? {
      assert HolderRequired !in block && UnknownQueryType !in block && ChallengeMismatch !in block;
    }
  }

  lemma {:induction false} BlocksCount(v: Verifier, vp: Presentation, qs: seq<Query>, blocks: seq<seq<SubmissionError>>)
    requires |blocks| == |qs| && forall i :: 0 <= i < |qs| ==> QueryBlock(v, vp, qs[i], blocks[i])
    ensures multiset(Concat(blocks))[HolderRequired] == if vp.holder.None? || vp.holder.value == "" then DidAuths(qs) else 0
    ensures multiset(Concat(blocks))[UnknownQueryType] == Unknowns(qs)
    ensures multiset(Concat(blocks))[ChallengeMismatch] == 0
  {
    if qs != [] {
      forall i | 0 <= i < |qs| - 1 ensures QueryBlock(v, vp, qs[1..][i], blocks[1..][i]) {
        assert QueryBlock(v, vp, qs[i + 1], blocks[i + 1]);
      }
      BlocksCount(v, vp, qs[1..], blocks[1..]);
      BlockCounts(v, vp, qs[0], blocks[0]);
    }
  }

  lemma ListedParts(v: Verifier, vp: Presentation, request: VpRequest, errors: seq<SubmissionError>)
    returns (head: seq<SubmissionError>, middle: seq<SubmissionError>, tail: seq<SubmissionError>)
    requires Lists(v, vp, request, errors)
    ensures errors == head + (middle + tail)
    ensures multiset(head)[HolderRequired] == multiset(head)[UnknownQueryType] == multiset(head)[ChallengeMismatch] == 0
    ensures multiset(middle)[HolderRequired] == if vp.holder.None? || vp.holder.value == "" then DidAuths(request.query) else 0
    ensures multiset(middle)[UnknownQueryType] == Unknowns(request.query) && multiset(middle)[ChallengeMismatch] == 0
    ensures tail == if vp.proof.value.challenge == Some(request.challenge) then [] else [ChallengeMismatch]
  {
    var blocks :| ListsInOrder(v, vp, request, errors, blocks);
    var n := |ProofMessages(v, vp, request.challenge)|;
    BlocksCount(v, vp, request.query, blocks);
    ProofErrorsCount(errors[..n]);
    head, middle := errors[..n], Concat(blocks);
    tail := if vp.proof.value.challenge == Some(request.challenge) then [] else [ChallengeMismatch];
    assert errors == errors[..n] + errors[n..];
  }

  /**
   A missing holder is reported once per DIDAuth query and a present one never, an unknown query once each, and a wrong
   challenge once, at the end.
   */
  lemma ErrorCounts(v: Verifier, vp: Presentation, request: VpRequest, errors: seq<SubmissionError>)
    requires Lists(v, vp, request, errors)
    ensures multiset(errors)[HolderRequired] ==
            if vp.holder.None? || vp.holder.value == "" then DidAuths(request.query) else 0
    ensures multiset(errors)[UnknownQueryType] == Unknowns(request.query)
    ensures multiset(errors)[ChallengeMismatch] == if vp.proof.value.challenge == Some(request.challenge) then 0 else 1
    ensures vp.proof.value.challenge != Some(request.challenge) ==>
              errors != [] && errors[|errors| - 1] == ChallengeMismatch
  {
    var head, middle, tail := ListedParts(v, vp, request, errors);
    PartsCount(head, middle, tail, HolderRequired);
    PartsCount(head, middle, tail, UnknownQueryType);
    PartsCount(head, middle, tail, ChallengeMismatch);
  }

  lemma PartsCount(a: seq<SubmissionError>, b: seq<SubmissionError>, c: seq<SubmissionError>, e: SubmissionError)
    ensures multiset(a + (b + c))[e] == multiset(a)[e] + multiset(b)[e] + multiset(c)[e]
    ensures c != [] ==> (a + (b + c))[|a| + |b| + |c| - 1] == c[|c| - 1]
  {
    assert multiset(a + (b + c)) == multiset(a) + (multiset(b) + multiset(c));
  }

  lemma ProofErrorsCount(errors: seq<SubmissionError>)
    requires forall i :: 0 <= i < |errors| ==> errors[i].ProofError?
    ensures multiset(errors)[HolderRequired] == multiset(errors)[UnknownQueryType] == multiset(errors)[ChallengeMismatch] == 0
  {
    assert HolderRequired !in errors && UnknownQueryType !in errors && ChallengeMismatch !in errors;
  }
}
