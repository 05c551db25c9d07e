/** When exchanges complete, how long they can get, and which step a review or a callback reaches. */
module WfExchangeTheorems {
  import opened Prelude
  import opened Credentials
  import opened SubmissionVerifier
  import opened ExchangeSteps
  import opened Workflows
  import opened WfExchange
  import opened Interleaving
  import opened WfExchangeRuns

  function Ids(steps: seq<Step>): (ids: seq<string>)
    ensures |ids| == |steps|
    ensures forall i :: 0 <= i < |steps| ==> ids[i] == steps[i].stepId
  {
    seq(|steps|, i requires 0 <= i < |steps| => steps[i].stepId)
  }

  // ---- Completion ----

  /** The exchange has gone through the whole walk, which ends and repeats nothing. */
  ghost predicate WholeWalk(w: Workflow, ex: Exchange) {
    var ids := Ids(ex.steps);
    && Distinct(ids)
    && (forall i: nat :: i < |ids| ==> Walk(w, i) == Some(ids[i]))
    && Walk(w, |ids|).None?
    && |ids| <= |w.steps|
    && WalkEnds(w)
  }

  lemma CompletedShape(cfg: Config, w: Workflow, ex: Exchange)
    requires Inv(cfg, w, ex) && ex.state.Completed?
    ensures WholeWalk(w, ex)
  {
    var ids := Ids(ex.steps);
    var n := |ids|;
    assert Walk(w, n - 1) == Some(ids[n - 1]);
    EndingWalkIsDistinct(w, n, n);
    assert WalkIds(w, n) == ids;
    DistinctFits(ids, w.steps.Keys);
    assert |w.steps.Keys| == |w.steps|;
    if Walk(w, |w.steps|).Some? {
      EndsWithinDefinitions(w, n);
    }
    WalkPrefix(w, 0, n - 1);
  }

  /** In every run: completed means that the step list is the entire walk, with no step twice. */
  lemma CompletedIsWholeWalk(cfg: Config, w: Workflow, exchangeId: string, challenge: string, requests: seq<Request>)
    requires Reached(cfg, w, exchangeId, challenge, requests).state.Completed?
    ensures WholeWalk(w, Reached(cfg, w, exchangeId, challenge, requests))
  {
    ReachedInv(cfg, w, exchangeId, challenge, requests);
    CompletedShape(cfg, w, Reached(cfg, w, exchangeId, challenge, requests));
  }

  /** Completion is final when requests come one at a time: no request stores another state or other step ids. */
  lemma CompletedIsFinal(cfg: Config, w: Workflow, exchangeId: string, challenge: string, before: seq<Request>, more: seq<Request>)
    requires Reached(cfg, w, exchangeId, challenge, before).state.Completed?
    ensures Reached(cfg, w, exchangeId, challenge, before + more).state.Completed?
    ensures Ids(Reached(cfg, w, exchangeId, challenge, before + more).steps) ==
            Ids(Reached(cfg, w, exchangeId, challenge, before).steps)
  {
    ReachedInv(cfg, w, exchangeId, challenge, before);
    var ex := Reached(cfg, w, exchangeId, challenge, before);
    RunInv(cfg, w, ex, more);
    SerialAppend(ServerOf(cfg, w), Created(cfg.baseUrl, w, exchangeId, challenge), before, more);
    assert Grows(ex, Run(cfg, w, ex, more));
  }

  /** A walk that comes back to a step keeps every run from completing. */
  lemma RevisitNeverCompletes(cfg: Config, w: Workflow, exchangeId: string, challenge: string, requests: seq<Request>,
                              i: nat, j: nat)
    requires Revisits(w, i, j)
    ensures !Reached(cfg, w, exchangeId, challenge, requests).state.Completed?
  {
    if Reached(cfg, w, exchangeId, challenge, requests).state.Completed? {
      CompletedIsWholeWalk(cfg, w, exchangeId, challenge, requests);
      WalkEndsIffNoRevisit(w);
    }
  }

  // ---- Moving forward ----

  type Wallet = VpRequest -> Presentation

  ghost predicate Answers(cfg: Config, w: Workflow, exchangeId: string, wallet: Wallet, position: nat, challenge: string) {
    Walk(w, position).Some? && Walk(w, position).value in w.steps ==>
      var def := w.steps[Walk(w, position).value];
      def.vpr.Some? ==>
        var request := RequestFor(cfg.baseUrl, w.workflowId, exchangeId, def.vpr.value, challenge);
        Accepts(cfg.verifier, wallet(request), request)
  }

  /** The holder has an acceptable presentation for every request the walk can make, whatever its challenge. */
  ghost predicate Answerable(cfg: Config, w: Workflow, exchangeId: string, wallet: Wallet) {
    forall position: nat, challenge: string :: Answers(cfg, w, exchangeId, wallet, position, challenge)
  }

  /** Not an issuance step whose id occurred before: reviews would go to that earlier occurrence. */
  ghost predicate CanLeave(w: Workflow, p: nat) {
    Walk(w, p).Some? && Walk(w, p).value in w.steps ==>
      w.steps[Walk(w, p).value].vpr.Some? || forall q: nat :: q < p ==> Walk(w, q) != Walk(w, p)
  }

  const NOTHING := Presentation(None, None, [])

  /** Review the current step if it is an issuance step, then submit. */
  function Move(wallet: Wallet, ex: Exchange, challenge: string): seq<Request>
    requires ex.steps != []
  {
    match ex.steps[|ex.steps| - 1]
    case QueryStep(_, _, _, vpRequest, _) => [Submit(wallet(vpRequest), challenge, "")]
    case IssuanceStep(id, _, _, _, _) => [Review(id, Approved, None), Submit(NOTHING, challenge, "")]
  }

  lemma RunTwo(cfg: Config, w: Workflow, ex: Exchange, a: Request, b: Request)
    ensures Run(cfg, w, ex, [a]) == After(cfg, w, ex, a)
    ensures Run(cfg, w, ex, [a, b]) == After(cfg, w, After(cfg, w, ex, a), b)
  {
    var one, two := [a], [a, b];
    assert one[..|one| - 1] == [] && two[..|two| - 1] == one;
    assert Run(cfg, w, ex, []) == ex;
  }

  lemma MoveQuery(cfg: Config, w: Workflow, wallet: Wallet, ex: Exchange, challenge: string) returns (step: Step)
    requires Inv(cfg, w, ex) && ex.steps != [] && !ex.state.Completed?
    requires ex.steps[|ex.steps| - 1].QueryStep?
    requires Answerable(cfg, w, ex.exchangeId, wallet)
    ensures step.stepId == ex.steps[|ex.steps| - 1].stepId && step.IsComplete()
    ensures Run(cfg, w, ex, Move(wallet, ex, challenge)) == MovedOn(cfg, w, ex, step, challenge)
  {
    var last := |ex.steps| - 1;
    var s := ex.steps[last];
    assert StepOk(cfg, w, ex.exchangeId, s);
    assert Walk(w, last) == Some(s.stepId);
    assert Answers(cfg, w, ex.exchangeId, wallet, last, s.vpRequest.challenge);
    assert Accepts(cfg.verifier, wallet(s.vpRequest), s.vpRequest);
    var r := Submit(wallet(s.vpRequest), challenge, "");
    SubmitOutcome(cfg, w, ex, r);
    RunTwo(cfg, w, ex, r, r);
    step := Process(cfg.verifier, s, r.vp).0;
  }

  lemma MoveIssuance(cfg: Config, w: Workflow, wallet: Wallet, ex: Exchange, challenge: string)
    returns (ex1: Exchange, step: Step)
    requires Inv(cfg, w, ex) && ex.steps != [] && !ex.state.Completed?
    requires ex.steps[|ex.steps| - 1].IssuanceStep? && CanLeave(w, |ex.steps| - 1)
    ensures |ex1.steps| == |ex.steps| && ex1.exchangeId == ex.exchangeId
    ensures step.stepId == ex.steps[|ex.steps| - 1].stepId && step.IsComplete()
    ensures Run(cfg, w, ex, Move(wallet, ex, challenge)) == MovedOn(cfg, w, ex1, step, challenge)
  {
    var last := |ex.steps| - 1;
    var s := ex.steps[last];
    assert StepOk(cfg, w, ex.exchangeId, s);
    assert Walk(w, last) == Some(s.stepId);
    forall q: nat | q < last ensures ex.steps[q].stepId != s.stepId {
      assert Walk(w, q) != Walk(w, last);
    }
    assert FirstMatch(ex.steps, s.stepId) == Some(last);
    var a := Review(s.stepId, Approved, None);
    var b := Submit(NOTHING, challenge, "");
    ex1 := After(cfg, w, ex, a);
    assert ex1 == ex.(steps := ex.steps[last := WithVP(s, None)]);
    SubmitOutcome(cfg, w, ex1, b);
    RunTwo(cfg, w, ex, a, b);
    step := ex1.steps[last];
  }

  /** One move takes an exchange that is not completed to the next step of the walk, or completes it at the last. */
  lemma MoveAdvances(cfg: Config, w: Workflow, wallet: Wallet, ex: Exchange, challenge: string)
    requires Inv(cfg, w, ex) && ex.steps != [] && !ex.state.Completed?
    requires CanLeave(w, |ex.steps| - 1) && Answerable(cfg, w, ex.exchangeId, wallet)
    ensures var ex' := Run(cfg, w, ex, Move(wallet, ex, challenge));
            && Inv(cfg, w, ex') && ex'.exchangeId == ex.exchangeId
            && (if Walk(w, |ex.steps|).Some?
                then |ex'.steps| == |ex.steps| + 1 && !ex'.state.Completed?
                else ex'.state.Completed?)
  {
    var n := |ex.steps|;
    RunInv(cfg, w, ex, Move(wallet, ex, challenge));
    assert Walk(w, n - 1) == Some(ex.steps[n - 1].stepId);
    if Walk(w, n).Some? { WalkKey(w, n); }
    if ex.steps[n - 1].QueryStep? {
      var _ := MoveQuery(cfg, w, wallet, ex, challenge);
    } else {
      var _, _ := MoveIssuance(cfg, w, wallet, ex, challenge);
    }
  }

  function Submits(requests: seq<Request>): nat {
    if requests == [] then 0
    else Submits(requests[..|requests| - 1]) + if requests[|requests| - 1].Submit? then 1 else 0
  }

  lemma {:induction false} SubmitsAppend(a: seq<Request>, b: seq<Request>)
    ensures Submits(a + b) == Submits(a) + Submits(b)
  {
    if b == [] {
      assert a + b == a;
    } else {
      assert (a + b)[..|a + b| - 1] == a + b[..|b| - 1];
      SubmitsAppend(a, b[..|b| - 1]);
    }
  }

  lemma MoveSubmitsOnce(wallet: Wallet, ex: Exchange, challenge: string)
    requires ex.steps != []
    ensures Submits(Move(wallet, ex, challenge)) == 1
  {
    var m := Move(wallet, ex, challenge);
    assert Submits(m[..0]) == 0;
    if |m| == 2 {
      assert m[..1][..0] == [];
      assert Submits(m[..1]) == 0;
    }
  }

  /** From any stored exchange, one submission per position takes it to length n as long as no position on the way is stuck. */
  lemma {:induction false} Climb(cfg: Config, w: Workflow, wallet: Wallet, nonce: nat -> string, ex: Exchange, n: nat)
    returns (requests: seq<Request>)
    requires Inv(cfg, w, ex) && !ex.state.Completed? && 0 < |ex.steps| <= n
    requires Walk(w, n - 1).Some? && Answerable(cfg, w, ex.exchangeId, wallet)
    requires forall p: nat :: p < n - 1 ==> CanLeave(w, p)
    ensures var ex' := Run(cfg, w, ex, requests);
            Inv(cfg, w, ex') && ex'.exchangeId == ex.exchangeId && |ex'.steps| == n && !ex'.state.Completed?
    ensures Submits(requests) == n - |ex.steps|
    decreases n - |ex.steps|
  {
    if |ex.steps| == n {
      requests := [];
    } else {
      var m := Move(wallet, ex, nonce(|ex.steps|));
      WalkPrefix(w, |ex.steps|, n - 1);
      MoveAdvances(cfg, w, wallet, ex, nonce(|ex.steps|));
      var rest := Climb(cfg, w, wallet, nonce, Run(cfg, w, ex, m), n);
      requests := m + rest;
      SerialAppend(ServerOf(cfg, w), ex, m, rest);
      SubmitsAppend(m, rest);
      MoveSubmitsOnce(wallet, ex, nonce(|ex.steps|));
    }
  }

  /** Every stored exchange that is not completed can be completed when the walk ends. */
  lemma Finish(cfg: Config, w: Workflow, wallet: Wallet, nonce: nat -> string, ex: Exchange, n: nat)
    returns (requests: seq<Request>)
    requires Inv(cfg, w, ex) && !ex.state.Completed? && 0 < n
    requires Walk(w, n - 1).Some? && Walk(w, n).None? && Answerable(cfg, w, ex.exchangeId, wallet)
    ensures Run(cfg, w, ex, requests).state.Completed?
    ensures 0 < |ex.steps| <= n && Submits(requests) == n - |ex.steps| + 1
  {
    forall p: nat | p < n ensures CanLeave(w, p) {
      forall q: nat | q < p && Walk(w, p).Some? ensures Walk(w, q) != Walk(w, p) {
        if Walk(w, q) == Walk(w, p) { RevisitNeverEnds(w, q, p, n); }
      }
    }
    WalkPrefix(w, 0, n - 1);
    var climb := Climb(cfg, w, wallet, nonce, ex, n);
    var top := Run(cfg, w, ex, climb);
    var m := Move(wallet, top, nonce(n));
    MoveAdvances(cfg, w, wallet, top, nonce(n));
    requests := climb + m;
    SerialAppend(ServerOf(cfg, w), ex, climb, m);
    SubmitsAppend(climb, m);
    MoveSubmitsOnce(wallet, top, nonce(n));
  }

  /** No dead end: whatever requests came before, some further requests complete the exchange. */
  lemma NoDeadEnd(cfg: Config, w: Workflow, wallet: Wallet, nonce: nat -> string, exchangeId: string, challenge: string,
                  requests: seq<Request>)
    requires WalkEnds(w) && Answerable(cfg, w, exchangeId, wallet)
    ensures exists more: seq<Request> :: Reached(cfg, w, exchangeId, challenge, requests + more).state.Completed?
  {
    var created := Created(cfg.baseUrl, w, exchangeId, challenge);
    var ex := Reached(cfg, w, exchangeId, challenge, requests);
    CreatedInv(cfg, w, exchangeId, challenge);
    RunInv(cfg, w, created, requests);
    var more: seq<Request> := [];
    if !ex.state.Completed? {
      var n := LastPosition(w, |w.steps|);
      more := Finish(cfg, w, wallet, nonce, ex, n);
    }
    SerialAppend(ServerOf(cfg, w), created, requests, more);
    assert Reached(cfg, w, exchangeId, challenge, requests + more).state.Completed?;
  }

  /** An exchange can complete if and only if its walk starts and ends, which the definition alone decides. */
  lemma CompletableIff(cfg: Config, w: Workflow, wallet: Wallet, exchangeId: string, challenge: string)
    requires Answerable(cfg, w, exchangeId, wallet)
    ensures (exists requests :: Reached(cfg, w, exchangeId, challenge, requests).state.Completed?) <==> WalkEnds(w)
  {
    if WalkEnds(w) {
      NoDeadEnd(cfg, w, wallet, _ => "", exchangeId, challenge, []);
    }
    forall requests | Reached(cfg, w, exchangeId, challenge, requests).state.Completed? ensures WalkEnds(w) {
      CompletedIsWholeWalk(cfg, w, exchangeId, challenge, requests);
    }
  }

  // ---- How many presentations it takes ----

  /** The presentations that were accepted and saved. */
  function AcceptedCount(cfg: Config, w: Workflow, ex: Exchange, requests: seq<Request>): nat {
    if requests == [] then 0
    else
      var n := |requests| - 1;
      var before := Run(cfg, w, ex, requests[..n]);
      AcceptedCount(cfg, w, ex, requests[..n])
      + if requests[n].Submit? && Serve(cfg, w, before, requests[n]).0.Some? then 1 else 0
  }

  function Progress(ex: Exchange): nat {
    |ex.steps| + if ex.state.Completed? then 1 else 0
  }

  lemma AfterProgress(cfg: Config, w: Workflow, ex: Exchange, r: Request)
    ensures Progress(After(cfg, w, ex, r)) <=
            Progress(ex) + if r.Submit? && Serve(cfg, w, ex, r).0.Some? then 1 else 0
  {
    if r.Submit? {
      SubmitOutcome(cfg, w, ex, r);
    }
  }

  lemma {:induction false} ProgressCosts(cfg: Config, w: Workflow, ex: Exchange, requests: seq<Request>)
    ensures Progress(Run(cfg, w, ex, requests)) <= Progress(ex) + AcceptedCount(cfg, w, ex, requests)
    ensures AcceptedCount(cfg, w, ex, requests) <= Submits(requests)
  {
    if requests != [] {
      var n := |requests| - 1;
      ProgressCosts(cfg, w, ex, requests[..n]);
      AfterProgress(cfg, w, Run(cfg, w, ex, requests[..n]), requests[n]);
    }
  }

  lemma CompletedLength(cfg: Config, w: Workflow, ex: Exchange, n: nat)
    requires Inv(cfg, w, ex) && ex.state.Completed? && 0 < n && Walk(w, n - 1).Some?
    ensures |ex.steps| >= n
  {
    if |ex.steps| < n { WalkPrefix(w, |ex.steps|, n - 1); }
  }

  /** Each accepted presentation moves an exchange on by one position at most, so a walk of n steps takes n of them. */
  lemma CompletionCosts(cfg: Config, w: Workflow, exchangeId: string, challenge: string, requests: seq<Request>, n: nat)
    requires 0 < n && Walk(w, n - 1).Some?
    requires Reached(cfg, w, exchangeId, challenge, requests).state.Completed?
    ensures AcceptedCount(cfg, w, Created(cfg.baseUrl, w, exchangeId, challenge), requests) >= n
  {
    var created := Created(cfg.baseUrl, w, exchangeId, challenge);
    CreatedInv(cfg, w, exchangeId, challenge);
    RunInv(cfg, w, created, requests);
    ProgressCosts(cfg, w, created, requests);
    CompletedLength(cfg, w, Run(cfg, w, created, requests), n);
  }

  /**
   The bound is tight: reviewing each issuance step and then submitting completes with exactly n presentations,
   all of them accepted, and no run completes with fewer accepted ones.
   */
  lemma ShortestCompletion(cfg: Config, w: Workflow, wallet: Wallet, nonce: nat -> string, exchangeId: string,
                           challenge: string, n: nat)
    returns (requests: seq<Request>)
    requires 0 < n && Walk(w, n - 1).Some? && Walk(w, n).None? && Answerable(cfg, w, exchangeId, wallet)
    ensures Reached(cfg, w, exchangeId, challenge, requests).state.Completed?
    ensures Submits(requests) == n == AcceptedCount(cfg, w, Created(cfg.baseUrl, w, exchangeId, challenge), requests)
    ensures forall other :: Reached(cfg, w, exchangeId, challenge, other).state.Completed? ==>
              AcceptedCount(cfg, w, Created(cfg.baseUrl, w, exchangeId, challenge), other) >= n
  {
    var created := Created(cfg.baseUrl, w, exchangeId, challenge);
    CreatedInv(cfg, w, exchangeId, challenge);
    WalkPrefix(w, 0, n - 1);
    requests := Finish(cfg, w, wallet, nonce, created, n);
    assert |created.steps| == 1;
    ProgressCosts(cfg, w, created, requests);
    CompletionCosts(cfg, w, exchangeId, challenge, requests, n);
    forall other | Reached(cfg, w, exchangeId, challenge, other).state.Completed?
      ensures AcceptedCount(cfg, w, created, other) >= n
    {
      CompletionCosts(cfg, w, exchangeId, challenge, other, n);
    }
  }

  // ---- How long a step list can get ----

  /** Every step but the last of a stored exchange was left, so none of them repeats an issuance id. */
  lemma LeftWasLeavable(cfg: Config, w: Workflow, ex: Exchange, p: nat)
    requires Inv(cfg, w, ex) && p < |ex.steps| - 1
    ensures CanLeave(w, p)
  {
    assert StepOk(cfg, w, ex.exchangeId, ex.steps[p]);
    assert Walk(w, p) == Some(ex.steps[p].stepId);
    forall q: nat | q < p && ex.steps[p].IssuanceStep? ensures Walk(w, q) != Walk(w, p) {
      assert Walk(w, q) == Some(ex.steps[q].stepId);
    }
  }

  /** An issuance step that repeats an id is where every run stops, whatever reviews and presentations arrive. */
  lemma RepeatedIssuanceBounds(cfg: Config, w: Workflow, exchangeId: string, challenge: string, requests: seq<Request>, p: nat)
    requires !CanLeave(w, p)
    ensures |Reached(cfg, w, exchangeId, challenge, requests).steps| <= p + 1
    ensures !Reached(cfg, w, exchangeId, challenge, requests).state.Completed?
  {
    ReachedInv(cfg, w, exchangeId, challenge, requests);
    var ex := Reached(cfg, w, exchangeId, challenge, requests);
    if |ex.steps| > p + 1 {
      LeftWasLeavable(cfg, w, ex, p);
    }
    var q: nat :| q < p && Walk(w, q) == Walk(w, p);
    assert Revisits(w, q, p);
    RevisitNeverCompletes(cfg, w, exchangeId, challenge, requests, q, p);
  }

  /** Exactly the lengths a step list can have over all runs. */
  lemma LengthsIff(cfg: Config, w: Workflow, wallet: Wallet, exchangeId: string, challenge: string, n: nat)
    requires 0 < n && Answerable(cfg, w, exchangeId, wallet)
    ensures (exists requests :: |Reached(cfg, w, exchangeId, challenge, requests).steps| == n) <==>
            Walk(w, n - 1).Some? && forall p: nat :: p < n - 1 ==> CanLeave(w, p)
  {
    var created := Created(cfg.baseUrl, w, exchangeId, challenge);
    CreatedInv(cfg, w, exchangeId, challenge);
    if Walk(w, n - 1).Some? && forall p: nat :: p < n - 1 ==> CanLeave(w, p) {
      WalkPrefix(w, 0, n - 1);
      var requests := Climb(cfg, w, wallet, _ => "", created, n);
      assert |Reached(cfg, w, exchangeId, challenge, requests).steps| == n;
    }
    forall requests | |Reached(cfg, w, exchangeId, challenge, requests).steps| == n
      ensures Walk(w, n - 1).Some? && forall p: nat :: p < n - 1 ==> CanLeave(w, p)
    {
      ReachedInv(cfg, w, exchangeId, challenge, requests);
      var ex := Reached(cfg, w, exchangeId, challenge, requests);
      assert Walk(w, n - 1) == Some(ex.steps[n - 1].stepId);
      forall p: nat | p < n - 1 ensures CanLeave(w, p) {
        LeftWasLeavable(cfg, w, ex, p);
      }
    }
  }

  ghost predicate CanExceed(cfg: Config, w: Workflow, exchangeId: string, challenge: string, n: nat) {
    exists requests :: |Reached(cfg, w, exchangeId, challenge, requests).steps| > n
  }

  ghost predicate Passable(w: Workflow, p: nat) {
    Walk(w, p).Some? && CanLeave(w, p)
  }

  /** Step lists grow without bound exactly when the walk never ends and no issuance step on it comes back. */
  lemma UnboundedIff(cfg: Config, w: Workflow, wallet: Wallet, exchangeId: string, challenge: string)
    requires Answerable(cfg, w, exchangeId, wallet)
    ensures (forall n: nat :: CanExceed(cfg, w, exchangeId, challenge, n)) <==>
            forall p: nat :: Passable(w, p)
  {
    if forall p: nat :: Passable(w, p) {
      forall n: nat ensures CanExceed(cfg, w, exchangeId, challenge, n) {
        forall p: nat | p <= n ensures Walk(w, p).Some? && CanLeave(w, p) {
          assert Passable(w, p);
        }
        LengthsIff(cfg, w, wallet, exchangeId, challenge, n + 1);
        var requests :| |Reached(cfg, w, exchangeId, challenge, requests).steps| == n + 1;
      }
    }
    if forall n: nat :: CanExceed(cfg, w, exchangeId, challenge, n) {
      forall p: nat ensures Passable(w, p) {
        assert CanExceed(cfg, w, exchangeId, challenge, p + 1);
        var requests :| |Reached(cfg, w, exchangeId, challenge, requests).steps| > p + 1;
        ReachedInv(cfg, w, exchangeId, challenge, requests);
        var ex := Reached(cfg, w, exchangeId, challenge, requests);
        assert Walk(w, p) == Some(ex.steps[p].stepId);
        LeftWasLeavable(cfg, w, ex, p);
      }
    }
  }

  // ---- Which step a review, a callback or a refusal touches ----

  /** A review reaches the first step with the id, and changes nothing but that issuance step's presentation and completeness. */
  lemma ReviewTargets(cfg: Config, w: Workflow, ex: Exchange, r: Request, p: nat)
    requires r.Review? && p < |ex.steps| && ex.steps[p].stepId == r.stepId && ex.steps[p].IssuanceStep?
    requires Distinct(Ids(ex.steps))
    ensures var ex' := After(cfg, w, ex, r);
            && ex' == ex.(steps := ex'.steps)
            && |ex'.steps| == |ex.steps|
            && (forall i :: 0 <= i < |ex.steps| && i != p ==> ex'.steps[i] == ex.steps[i])
            && ex'.steps[p] == ex.steps[p].(issuedVP := r.issued, state := Complete)
  {
    var k := FirstMatch(ex.steps, r.stepId);
    assert Ids(ex.steps)[p] == r.stepId && Ids(ex.steps)[k.value] == r.stepId;
  }

  /** The step whose data a saved presentation's callbacks carry. */
  function CallbackStep(ex: Exchange, saved: Exchange): Option<nat>
    requires ex.steps != []
  {
    FirstMatch(saved.steps, ex.steps[|ex.steps| - 1].stepId)
  }

  /** The callbacks of a saved presentation carry the first step with the current id, which the entity processed or came before it. */
  lemma CallbackPosts(cfg: Config, w: Workflow, ex: Exchange, r: Request)
    requires r.Submit? && Serve(cfg, w, ex, r).0.Some?
    ensures ex.steps != [] && CallbackStep(ex, After(cfg, w, ex, r)).Some?
    ensures var saved := After(cfg, w, ex, r);
            Serve(cfg, w, ex, r).1.Responded? ==>
              Serve(cfg, w, ex, r).1.posts == PostsOf(saved.steps[CallbackStep(ex, saved).value], r.requestUrl)
    ensures var saved, last := After(cfg, w, ex, r), |ex.steps| - 1;
            && last < |saved.steps|
            && saved.steps[last] == Process(cfg.verifier, ex.steps[last], r.vp).0
            && saved.steps[..last] == ex.steps[..last]
            && saved.steps[last].stepId == ex.steps[last].stepId
  {
    SubmitOutcome(cfg, w, ex, r);
    var saved, last := After(cfg, w, ex, r), |ex.steps| - 1;
    assert saved.steps[..last] == ex.steps[..last];
    assert saved.steps[last].stepId == ex.steps[last].stepId;
  }

  lemma SameVisit(w: Workflow, steps: seq<Step>, p: nat, q: nat)
    requires OnWalk(w, steps) && q < |steps| && p < |steps|
    ensures Walk(w, q) == Walk(w, p) <==> steps[q].stepId == steps[p].stepId
  {
  }

  /** On the walk, an id resolves to a position exactly when that position is the first visit. */
  lemma FirstVisitIff(w: Workflow, steps: seq<Step>, p: nat)
    requires OnWalk(w, steps) && p < |steps|
    ensures var k := FirstMatch(steps, steps[p].stepId);
            k.Some? && k.value <= p && (k == Some(p) <==> forall q: nat :: q < p ==> Walk(w, q) != Walk(w, p))
  {
    var k := FirstMatch(steps, steps[p].stepId).value;
    if k == p {
      forall q: nat | q < p ensures Walk(w, q) != Walk(w, p) {
        SameVisit(w, steps, p, q);
      }
    } else {
      SameVisit(w, steps, p, k);
    }
  }

  /**
   The callback body is built from the step that processed the presentation if and only if the walk had not
   visited that step before; a newly pushed step is never used.
   */
  lemma CallbackTargetIff(cfg: Config, w: Workflow, ex: Exchange, r: Request)
    requires Inv(cfg, w, ex) && r.Submit? && Serve(cfg, w, ex, r).0.Some?
    ensures ex.steps != [] && CallbackStep(ex, After(cfg, w, ex, r)).Some?
    ensures CallbackStep(ex, After(cfg, w, ex, r)).value < |ex.steps|
    ensures var last := |ex.steps| - 1;
            CallbackStep(ex, After(cfg, w, ex, r)) == Some(last) <==> forall q: nat :: q < last ==> Walk(w, q) != Walk(w, last)
  {
    CallbackPosts(cfg, w, ex, r);
    AfterInv(cfg, w, ex, r);
    FirstVisitIff(w, After(cfg, w, ex, r).steps, |ex.steps| - 1);
  }

  /** The response to an accepted presentation is what the stored exchange then answers to an empty body. */
  lemma ResponseIsNextPoll(cfg: Config, w: Workflow, ex: Exchange, r: Request)
    requires r.Submit? && Serve(cfg, w, ex, r).1.Responded?
    ensures PollReply(After(cfg, w, ex, r)) == Responded(Serve(cfg, w, ex, r).1.response, [])
  {
    SubmitOutcome(cfg, w, ex, r);
  }

  /** A refused presentation changes the entity in memory, where it is recorded and the state is active, but not the store. */
  lemma RefusalStaysInMemory(cfg: Config, w: Workflow, ex: Exchange, r: Request, next: Option<StepDefinition>, nextId: Option<string>)
    requires r.Submit? && ex.steps != [] && ex.steps[|ex.steps| - 1].stepId in w.steps
    requires Participate(cfg.verifier, cfg.baseUrl, ex, r.vp, next, nextId, r.challenge).1.Refused?
    ensures var entity := Participate(cfg.verifier, cfg.baseUrl, ex, r.vp, next, nextId, r.challenge).0;
            var last := |ex.steps| - 1;
            && entity.state == Active && |entity.steps| == |ex.steps|
            && entity.steps[last].QueryStep? && entity.steps[last].submission.Some?
            && entity.steps[last].submission.value.presentation == r.vp
            && entity.steps[last].submission.value.result.errors != []
            && entity.steps[last].state == ex.steps[last].state
    ensures After(cfg, w, ex, r) == ex && Serve(cfg, w, ex, r).1.BadRequest?
  {
    SubmitOutcome(cfg, w, ex, r);
  }
}
