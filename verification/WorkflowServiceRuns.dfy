/** What holds of the whole workflow store over any run of the service's operations. */
module WorkflowServiceRuns {
  import opened Prelude
  import opened Credentials
  import opened SubmissionVerifier
  import opened Uuids
  import opened ExchangeSteps
  import opened Workflows
  import opened WfExchange
  import opened WfExchangeRuns
  import opened WfExchangeTheorems
  import opened WfExchangeEvidence
  import opened WorkflowServices

  predicate IsQueryAt(exchanges: map<string, Exchange>, x: string, i: nat) {
    x in exchanges && i < |exchanges[x].steps| && exchanges[x].steps[i].QueryStep?
  }

  function ChallengeAt(exchanges: map<string, Exchange>, x: string, i: nat): string
    requires IsQueryAt(exchanges, x, i)
  {
    exchanges[x].steps[i].vpRequest.challenge
  }

  /** Across all exchanges, no two query steps share a challenge. */
  ghost predicate ChallengesUnique(exchanges: map<string, Exchange>) {
    forall x, i: nat, y, j: nat ::
      IsQueryAt(exchanges, x, i) && IsQueryAt(exchanges, y, j) && ChallengeAt(exchanges, x, i) == ChallengeAt(exchanges, y, j) ==>
      x == y && i == j
  }

  ghost predicate ChallengesDrawn(exchanges: map<string, Exchange>, drawn: set<string>) {
    forall x, i: nat :: IsQueryAt(exchanges, x, i) ==> ChallengeAt(exchanges, x, i) in drawn
  }

  ghost predicate ExchangeOk(su: Setup, st: Store, x: string)
    requires x in st.exchanges
  {
    var ex := st.exchanges[x];
    && ex.exchangeId == x && x in DrawnIds(su.supply, st.drawn)
    && ex.workflowId in st.workflows
    && Inv(su.cfg, st.workflows[ex.workflowId], ex)
  }

  /** Workflows are kept under their own ids, and none of those is a uuid still to be drawn. */
  ghost predicate WorkflowsOk(supply: Supply, workflows: map<string, Workflow>, drawn: nat) {
    && (forall id :: id in workflows ==> workflows[id].workflowId == id)
    && (forall k: nat :: drawn <= k ==> supply(k) !in workflows)
  }

  ghost predicate StoreInv(su: Setup, st: Store) {
    && WorkflowsOk(su.supply, st.workflows, st.drawn)
    && (forall x :: x in st.exchanges ==> ExchangeOk(su, st, x))
    && ChallengesUnique(st.exchanges)
    && ChallengesDrawn(st.exchanges, DrawnIds(su.supply, st.drawn))
  }

  /** A caller cannot have guessed a uuid that the supply has yet to give. */
  ghost predicate GuessesNoUuid(supply: Supply, op: Operation) {
    op.CreateWorkflow? && op.id.Some? ==> forall k: nat :: supply(k) != op.id.value
  }

  lemma PutKeepsChallenges(exchanges: map<string, Exchange>, x: string, ex': Exchange, drawn: set<string>, c: string, drawn': set<string>)
    requires ChallengesUnique(exchanges) && ChallengesDrawn(exchanges, drawn)
    requires AddsChallenge(if x in exchanges then exchanges[x].steps else [], ex'.steps, c)
    requires drawn <= drawn'
    requires (if x in exchanges then |exchanges[x].steps| else 0) < |ex'.steps| ==> c !in drawn && c in drawn'
    ensures ChallengesUnique(exchanges[x := ex']) && ChallengesDrawn(exchanges[x := ex'], drawn')
  {
    var after := exchanges[x := ex'];
    var n := if x in exchanges then |exchanges[x].steps| else 0;
    forall y, i: nat | IsQueryAt(after, y, i)
      ensures if y == x && i == n then ChallengeAt(after, y, i) == c
              else IsQueryAt(exchanges, y, i) && ChallengeAt(after, y, i) == ChallengeAt(exchanges, y, i)
    {
    }
  }

  /** What an operation may do to exchanges and workflows that are already stored. */
  ghost predicate OnlyGrows(st: Store, st': Store) {
    && (forall id :: id in st.workflows ==> id in st'.workflows && st'.workflows[id] == st.workflows[id])
    && (forall x :: x in st.exchanges ==> x in st'.exchanges && Grows(st.exchanges[x], st'.exchanges[x])
                                          && st'.exchanges[x].workflowId == st.exchanges[x].workflowId)
  }

  /** Putting the outcome of one request back keeps the store invariant. */
  lemma PutInv(su: Setup, st: Store, x: string, ex': Exchange, c: string, drawn': nat)
    requires StoreInv(su, st) && st.drawn <= drawn'
    requires x in DrawnIds(su.supply, drawn') && ex'.exchangeId == x && ex'.workflowId in st.workflows
    requires Inv(su.cfg, st.workflows[ex'.workflowId], ex')
    requires AddsChallenge(if x in st.exchanges then st.exchanges[x].steps else [], ex'.steps, c)
    requires (if x in st.exchanges then |st.exchanges[x].steps| else 0) < |ex'.steps| ==>
               c !in DrawnIds(su.supply, st.drawn) && c in DrawnIds(su.supply, drawn')
    ensures StoreInv(su, Store(st.workflows, st.exchanges[x := ex'], drawn'))
  {
    var drawn, more := DrawnIds(su.supply, st.drawn), DrawnIds(su.supply, drawn');
    assert drawn <= more;
    PutKeepsChallenges(st.exchanges, x, ex', drawn, c, more);
    var st' := Store(st.workflows, st.exchanges[x := ex'], drawn');
    forall y | y in st'.exchanges ensures ExchangeOk(su, st', y) {
      if y != x {
        assert ExchangeOk(su, st, y);
      }
    }
  }

  lemma DrawingKeeps(su: Setup, st: Store, workflows: map<string, Workflow>, drawn': nat)
    requires StoreInv(su, st) && st.drawn <= drawn'
    requires forall id :: id in st.workflows ==> id in workflows && workflows[id] == st.workflows[id]
    requires WorkflowsOk(su.supply, workflows, drawn')
    ensures StoreInv(su, Store(workflows, st.exchanges, drawn'))
  {
    assert DrawnIds(su.supply, st.drawn) <= DrawnIds(su.supply, drawn');
    var st' := Store(workflows, st.exchanges, drawn');
    forall x | x in st'.exchanges ensures ExchangeOk(su, st', x) {
      assert ExchangeOk(su, st, x);
    }
  }

  lemma RequestKeeps(su: Setup, st: Store, x: string, r: Request, drawn': nat)
    requires StoreInv(su, st) && NeverRepeats(su.supply) && x in st.exchanges && st.drawn <= drawn'
    requires st.exchanges[x].workflowId in st.workflows
    requires r.Submit? ==> r.challenge == su.supply(st.drawn) && st.drawn < drawn'
    ensures var ex' := After(su.cfg, st.workflows[st.exchanges[x].workflowId], st.exchanges[x], r);
            StoreInv(su, Store(st.workflows, st.exchanges[x := ex'], drawn'))
            && Grows(st.exchanges[x], ex') && ex'.workflowId == st.exchanges[x].workflowId
  {
    assert ExchangeOk(su, st, x);
    var ex := st.exchanges[x];
    var w := st.workflows[ex.workflowId];
    var ex' := After(su.cfg, w, ex, r);
    AfterInv(su.cfg, w, ex, r);
    AfterAddsChallenge(su.cfg, w, ex, r, su.supply(st.drawn));
    if r.Submit? {
      NextIsFresh(su.supply, st.drawn, st.drawn, drawn');
    }
    assert DrawnIds(su.supply, st.drawn) <= DrawnIds(su.supply, drawn');
    PutInv(su, st, x, ex', su.supply(st.drawn), drawn');
  }

  lemma PutOnlyGrows(st: Store, x: string, ex': Exchange, drawn': nat)
    requires x in st.exchanges ==> Grows(st.exchanges[x], ex') && ex'.workflowId == st.exchanges[x].workflowId
    ensures OnlyGrows(st, Store(st.workflows, st.exchanges[x := ex'], drawn'))
  {
    forall y | y in st.exchanges ensures Grows(st.exchanges[y], st.exchanges[y]) {
    }
  }

  lemma CreateWorkflowKeeps(su: Setup, st: Store, op: Operation)
    requires StoreInv(su, st) && NeverRepeats(su.supply) && GuessesNoUuid(su.supply, op) && op.CreateWorkflow?
    ensures StoreInv(su, Perform(su, st, op).0) && OnlyGrows(st, Perform(su, st, op).0)
  {
    var st' := Perform(su, st, op).0;
    if st' != st {
      DrawingKeeps(su, st, st'.workflows, st'.drawn);
    }
    assert st'.exchanges == st.exchanges;
    forall y | y in st.exchanges ensures Grows(st.exchanges[y], st'.exchanges[y]) {
    }
  }

  lemma CreateExchangeKeeps(su: Setup, st: Store, workflowId: string)
    requires StoreInv(su, st) && NeverRepeats(su.supply) && workflowId in st.workflows
    ensures var st' := Perform(su, st, CreateExchange(workflowId)).0;
            StoreInv(su, st') && OnlyGrows(st, st')
  {
    var n := st.drawn;
    var x, c := su.supply(n), su.supply(n + 1);
    NextIsFresh(su.supply, n, n, n + 2);
    NextIsFresh(su.supply, n, n + 1, n + 2);
    forall y | y in st.exchanges ensures y != x {
      assert ExchangeOk(su, st, y);
    }
    var ex := Created(su.cfg.baseUrl, st.workflows[workflowId], x, c);
    CreatedInv(su.cfg, st.workflows[workflowId], x, c);
    assert AddsChallenge([], ex.steps, c);
    PutInv(su, st, x, ex, c, n + 2);
    PutOnlyGrows(st, x, ex, n + 2);
  }

  lemma RequestOnlyGrows(su: Setup, st: Store, x: string, r: Request, drawn': nat)
    requires StoreInv(su, st) && NeverRepeats(su.supply) && x in st.exchanges && st.drawn <= drawn'
    requires r.Submit? ==> r.challenge == su.supply(st.drawn) && st.drawn < drawn'
    ensures st.exchanges[x].workflowId in st.workflows
    ensures var saved := Serve(su.cfg, st.workflows[st.exchanges[x].workflowId], st.exchanges[x], r).0;
            var st' := Put(st, x, saved).(drawn := drawn');
            StoreInv(su, st') && OnlyGrows(st, st')
  {
    assert ExchangeOk(su, st, x);
    var w := st.workflows[st.exchanges[x].workflowId];
    var ex' := After(su.cfg, w, st.exchanges[x], r);
    RequestKeeps(su, st, x, r, drawn');
    PutOnlyGrows(st, x, ex', drawn');
    if Serve(su.cfg, w, st.exchanges[x], r).0.None? {
      assert st.exchanges[x := ex'] == st.exchanges;
    }
  }

  lemma UnchangedGrows(st: Store, st': Store)
    requires st'.workflows == st.workflows && st'.exchanges == st.exchanges
    ensures OnlyGrows(st, st')
  {
    forall y | y in st.exchanges ensures Grows(st.exchanges[y], st.exchanges[y]) {
    }
  }

  lemma ParticipateShape(su: Setup, st: Store, op: Operation)
    requires op.ParticipateIn?
    ensures var st' := Perform(su, st, op).0;
            if st.Find(op.workflowId, op.exchangeId).Some? && op.vp.Some? && op.workflowId in st.workflows
            then
              var r := Submit(op.vp.value, su.supply(st.drawn), op.requestUrl);
              st' == Put(st, op.exchangeId, Serve(su.cfg, st.workflows[op.workflowId], st.exchanges[op.exchangeId], r).0)
                     .(drawn := st.drawn + 1)
            else st' == st
  {
  }

  lemma ParticipateKeeps(su: Setup, st: Store, op: Operation)
    requires StoreInv(su, st) && NeverRepeats(su.supply) && op.ParticipateIn?
    ensures StoreInv(su, Perform(su, st, op).0) && OnlyGrows(st, Perform(su, st, op).0)
  {
    ParticipateShape(su, st, op);
    if st.Find(op.workflowId, op.exchangeId).Some? && op.vp.Some? && op.workflowId in st.workflows {
      RequestOnlyGrows(su, st, op.exchangeId, Submit(op.vp.value, su.supply(st.drawn), op.requestUrl), st.drawn + 1);
    } else {
      UnchangedGrows(st, st);
    }
  }

  lemma ReviewKeeps(su: Setup, st: Store, op: Operation)
    requires StoreInv(su, st) && NeverRepeats(su.supply) && op.AddReview?
    ensures var st' := Perform(su, st, op).0;
            StoreInv(su, st') && OnlyGrows(st, st')
  {
    if st.Find(op.workflowId, op.exchangeId).Some? {
      RequestOnlyGrows(su, st, op.exchangeId, Review(op.stepId, op.result, op.issued), st.drawn);
    } else {
      UnchangedGrows(st, st);
    }
  }

  lemma PerformKeeps(su: Setup, st: Store, op: Operation)
    requires StoreInv(su, st) && NeverRepeats(su.supply) && GuessesNoUuid(su.supply, op)
    ensures StoreInv(su, Perform(su, st, op).0) && OnlyGrows(st, Perform(su, st, op).0)
  {
    match op {
      case CreateWorkflow(_, _, _) =>
        CreateWorkflowKeeps(su, st, op);
      case CreateExchange(workflowId) =>
        if workflowId in st.workflows {
          CreateExchangeKeeps(su, st, workflowId);
        } else {
          UnchangedGrows(st, st);
        }
      case ParticipateIn(_, _, _, _) =>
        ParticipateKeeps(su, st, op);
      case AddReview(_, _, _, _, _) =>
        ReviewKeeps(su, st, op);
    }
  }

  // ---- Whole runs ----

  const EMPTY := Store(map[], map[], 0)

  lemma GrowsTrans(a: Exchange, b: Exchange, c: Exchange)
    requires Grows(a, b) && Grows(b, c)
    ensures Grows(a, c)
  {
    forall i | 0 <= i < |a.steps| ensures SameStep(a.steps[i], c.steps[i]) {
      assert SameStep(a.steps[i], b.steps[i]) && SameStep(b.steps[i], c.steps[i]);
    }
  }

  lemma OnlyGrowsTrans(a: Store, b: Store, c: Store)
    requires OnlyGrows(a, b) && OnlyGrows(b, c)
    ensures OnlyGrows(a, c)
  {
    forall x | x in a.exchanges ensures Grows(a.exchanges[x], c.exchanges[x]) {
      GrowsTrans(a.exchanges[x], b.exchanges[x], c.exchanges[x]);
    }
  }

  /** Over any run: the invariant is kept, workflows never change, and no exchange loses a step, a challenge or its completion. */
  lemma {:induction false} PerformAllKeeps(su: Setup, st: Store, ops: seq<Operation>)
    requires StoreInv(su, st) && NeverRepeats(su.supply)
    requires forall i :: 0 <= i < |ops| ==> GuessesNoUuid(su.supply, ops[i])
    ensures var st' := PerformAll(su, st, ops);
            StoreInv(su, st') && OnlyGrows(st, st')
  {
    if ops == [] {
      UnchangedGrows(st, st);
    } else {
      var before := ops[..|ops| - 1];
      PerformAllKeeps(su, st, before);
      var mid := PerformAll(su, st, before);
      PerformKeeps(su, mid, ops[|ops| - 1]);
      OnlyGrowsTrans(st, mid, Perform(su, mid, ops[|ops| - 1]).0);
    }
  }

  /** No replay across the service: one presentation never completes two query steps, in one exchange or in two. */
  lemma NoReplayAnywhere(su: Setup, ops: seq<Operation>, x: string, i: nat, y: string, j: nat)
    requires NeverRepeats(su.supply)
    requires forall k :: 0 <= k < |ops| ==> GuessesNoUuid(su.supply, ops[k])
    requires (x, i) != (y, j)
    requires var exchanges := PerformAll(su, EMPTY, ops).exchanges;
             && IsQueryAt(exchanges, x, i) && exchanges[x].steps[i].IsComplete()
             && IsQueryAt(exchanges, y, j) && exchanges[y].steps[j].IsComplete()
    ensures var exchanges := PerformAll(su, EMPTY, ops).exchanges;
            var a, b := exchanges[x].steps[i].submission, exchanges[y].steps[j].submission;
            a.Some? && b.Some? && a.value.presentation != b.value.presentation
  {
    PerformAllKeeps(su, EMPTY, ops);
    var st := PerformAll(su, EMPTY, ops);
    assert ExchangeOk(su, st, x) && ExchangeOk(su, st, y);
    CompleteQueryHasEvidence(su.cfg, st.workflows[st.exchanges[x].workflowId], st.exchanges[x], i);
    CompleteQueryHasEvidence(su.cfg, st.workflows[st.exchanges[y].workflowId], st.exchanges[y], j);
    assert ChallengeAt(st.exchanges, x, i) != ChallengeAt(st.exchanges, y, j);
  }

  ghost predicate CompletedIn(st: Store, x: string) {
    && x in st.exchanges && st.exchanges[x].state.Completed?
    && st.exchanges[x].workflowId in st.workflows
    && WholeWalk(st.workflows[st.exchanges[x].workflowId], st.exchanges[x])
  }

  lemma StaysCompleted(su: Setup, st: Store, st': Store, x: string)
    requires StoreInv(su, st') && OnlyGrows(st, st')
    requires x in st.exchanges && st.exchanges[x].state.Completed?
    ensures CompletedIn(st', x)
  {
    assert Grows(st.exchanges[x], st'.exchanges[x]);
    assert ExchangeOk(su, st', x);
    CompletedShape(su.cfg, st'.workflows[st'.exchanges[x].workflowId], st'.exchanges[x]);
  }

  /** Over any run, every completed exchange of the store has gone through the whole walk of its stored workflow, and stays so. */
  lemma CompletedAnywhere(su: Setup, ops: seq<Operation>, more: seq<Operation>, x: string)
    requires NeverRepeats(su.supply)
    requires forall k :: 0 <= k < |ops| ==> GuessesNoUuid(su.supply, ops[k])
    requires forall k :: 0 <= k < |more| ==> GuessesNoUuid(su.supply, more[k])
    requires var st := PerformAll(su, EMPTY, ops); x in st.exchanges && st.exchanges[x].state.Completed?
    ensures CompletedIn(PerformAll(su, PerformAll(su, EMPTY, ops), more), x)
  {
    PerformAllKeeps(su, EMPTY, ops);
    var st := PerformAll(su, EMPTY, ops);
    PerformAllKeeps(su, st, more);
    StaysCompleted(su, st, PerformAll(su, st, more), x);
  }
}
