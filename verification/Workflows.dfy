/** Workflow definitions and the walk their `nextStep` links describe. */
module Workflows {
  import opened Prelude
  import opened Credentials

  datatype VprDefinition = VprDefinition(interactServices: seq<InteractType>, query: seq<Query>)

  /** A step with a presentation request definition is a query step, one without is an issuance step. */
  datatype StepDefinition = StepDefinition(vpr: Option<VprDefinition>, nextStep: Option<string>, callback: seq<string>)

  /** `getNextStep` throws when the current id is not a step; the definition is missing when the link dangles. */
  datatype Successor = UnknownStep | Successor(definition: Option<StepDefinition>, stepId: Option<string>)

  datatype Workflow = Workflow(workflowId: string, steps: map<string, StepDefinition>, initialStep: string) {
    function Lookup(stepId: string): Option<StepDefinition> {
      if stepId in steps then Some(steps[stepId]) else None
    }

    function GetInitialStep(): Option<StepDefinition> {
      Lookup(initialStep)
    }

    function GetNextStep(current: string): Successor {
      if current !in steps then UnknownStep
      else
        var nextStep := steps[current].nextStep;
        Successor(if nextStep.None? || nextStep.value == "" then None else Lookup(nextStep.value), nextStep)
    }
  }

  /** The step that follows, if there is one: no link, an empty link and a dangling link all mean none. */
  function Next(w: Workflow, stepId: string): Option<string> {
    match w.GetNextStep(stepId)
    case Successor(Some(_), Some(id)) => Some(id)
    case _ => None
  }

  /** The definition of `id` names `n` as its next step, and `n` is a step. */
  ghost predicate Linked(w: Workflow, id: string, n: string) {
    id in w.steps && w.steps[id].nextStep == Some(n) && n != "" && n in w.steps
  }

  /** What a lookup of the successor gives, read off the definition: exactly one link is followed, to its own definition. */
  lemma GetNextStepLaw(w: Workflow, id: string)
    ensures w.GetNextStep(id).UnknownStep? <==> id !in w.steps
    ensures id in w.steps ==> w.GetNextStep(id).stepId == w.steps[id].nextStep
    ensures forall n :: Linked(w, id, n) ==> w.GetNextStep(id).definition == Some(w.steps[n])
    ensures id in w.steps && w.GetNextStep(id).definition.Some? ==> exists n :: Linked(w, id, n)
  {
    if id in w.steps && w.GetNextStep(id).definition.Some? {
      assert Linked(w, id, w.steps[id].nextStep.value);
    }
  }

  lemma NextIff(w: Workflow, id: string, n: string)
    ensures Next(w, id) == Some(n) <==> Linked(w, id, n)
  {
    GetNextStepLaw(w, id);
  }

  /** The walk visits the initial step and then exactly the steps that the links name, one link at a time. */
  lemma {:induction false} WalkFollowsLinks(w: Workflow, n: nat, id: string)
    ensures Walk(w, 0) == Some(id) <==> id == w.initialStep && id in w.steps
    ensures Walk(w, n + 1) == Some(id) <==> Walk(w, n).Some? && Linked(w, Walk(w, n).value, id)
  {
    if Walk(w, n).Some? {
      NextIff(w, Walk(w, n).value, id);
    }
  }

  /** The n-th step id of the walk from the initial step; None once the walk has ended. */
  function Walk(w: Workflow, n: nat): Option<string> {
    if n == 0 then (if w.initialStep in w.steps then Some(w.initialStep) else None)
    else match Walk(w, n - 1)
      case None => None
      case Some(id) => Next(w, id)
  }

  function WalkIds(w: Workflow, n: nat): (ids: seq<string>)
    requires n == 0 || Walk(w, n - 1).Some?
    ensures |ids| == n
    ensures forall i :: 0 <= i < n ==> Walk(w, i) == Some(ids[i]) && ids[i] in w.steps
  {
    if n == 0 then []
    else
      WalkKey(w, n - 1);
      WalkIds(w, n - 1) + [Walk(w, n - 1).value]
  }

  lemma WalkKey(w: Workflow, n: nat)
    requires Walk(w, n).Some?
    ensures Walk(w, n).value in w.steps
  {
  }

  lemma {:induction false} WalkPrefix(w: Workflow, m: nat, n: nat)
    requires m <= n && Walk(w, n).Some?
    ensures Walk(w, m).Some?
  {
    if m < n {
      WalkPrefix(w, m, n - 1);
    }
  }

  /** The walk is deterministic: what follows one visit of a step follows every visit of it. */
  lemma {:induction false} WalkShift(w: Workflow, i: nat, j: nat, k: nat)
    requires Walk(w, i) == Walk(w, j)
    ensures Walk(w, i + k) == Walk(w, j + k)
  {
    if k > 0 {
      WalkShift(w, i, j, k - 1);
      assert i + k - 1 == i + (k - 1) && j + k - 1 == j + (k - 1);
    }
  }

  lemma {:induction false} RevisitNeverEnds(w: Workflow, i: nat, j: nat, n: nat)
    requires i < j && Walk(w, i) == Walk(w, j) && Walk(w, j).Some?
    ensures Walk(w, n).Some?
  {
    if n <= j {
      WalkPrefix(w, n, j);
    } else {
      RevisitNeverEnds(w, i, j, n - (j - i));
      WalkShift(w, i, j, n - j);
      assert i + (n - j) == n - (j - i);
    }
  }

  /** A walk that ends visits no step twice. */
  lemma EndingWalkIsDistinct(w: Workflow, n: nat, end: nat)
    requires n == 0 || Walk(w, n - 1).Some?
    requires Walk(w, end).None?
    ensures Distinct(WalkIds(w, n))
  {
    var ids := WalkIds(w, n);
    forall i, j | 0 <= i < j < n ensures ids[i] != ids[j] {
      if ids[i] == ids[j] {
        RevisitNeverEnds(w, i, j, end);
      }
    }
  }

  /** Pigeonhole: a walk that is still going after as many steps as there are definitions never ends. */
  lemma EndsWithinDefinitions(w: Workflow, n: nat)
    requires Walk(w, |w.steps|).Some?
    ensures Walk(w, n).Some?
  {
    if Walk(w, n).None? {
      EndingWalkIsDistinct(w, |w.steps| + 1, n);
      assert |w.steps| == |w.steps.Keys|;
      DistinctFits(WalkIds(w, |w.steps| + 1), w.steps.Keys);
    }
  }

  /** Decidable from the definition alone: there is a first step and the walk from it stops. */
  predicate WalkEnds(w: Workflow) {
    Walk(w, 0).Some? && Walk(w, |w.steps|).None?
  }

  lemma {:induction false} LastPosition(w: Workflow, end: nat) returns (n: nat)
    requires Walk(w, 0).Some? && Walk(w, end).None?
    ensures 0 < n <= end && Walk(w, n - 1).Some? && Walk(w, n).None?
  {
    if Walk(w, end - 1).Some? {
      n := end;
    } else {
      n := LastPosition(w, end - 1);
    }
  }

  ghost predicate Revisits(w: Workflow, i: nat, j: nat) {
    i < j && Walk(w, j).Some? && Walk(w, i) == Walk(w, j)
  }

  /** A walk ends if and only if it never comes back to a step. */
  lemma WalkEndsIffNoRevisit(w: Workflow)
    requires Walk(w, 0).Some?
    ensures WalkEnds(w) <==> forall i: nat, j: nat :: !Revisits(w, i, j)
  {
    if WalkEnds(w) {
      forall i: nat, j: nat | Revisits(w, i, j) ensures false {
        RevisitNeverEnds(w, i, j, |w.steps|);
      }
    } else {
      var ids := WalkIds(w, |w.steps| + 1);
      assert |w.steps| == |w.steps.Keys|;
      if Distinct(ids) {
        DistinctFits(ids, w.steps.Keys);
      }
      var i: nat, j: nat :| i < j < |ids| && ids[i] == ids[j];
      assert Revisits(w, i, j);
    }
  }
}
