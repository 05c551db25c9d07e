/** The same exchange under requests whose load and save halves interleave. */
module WfExchangeConcurrency {
  import opened Prelude
  import opened Credentials
  import opened SubmissionVerifier
  import opened ExchangeSteps
  import opened Workflows
  import opened WfExchange
  import opened Interleaving
  import opened WfExchangeRuns
  import opened WfExchangeTheorems
  import opened WfExchangeEvidence

  function Concurrent(cfg: Config, w: Workflow, exchangeId: string, challenge: string, events: seq<Event<Request>>)
    : System<Exchange, Request>
  {
    Interleave(ServerOf(cfg, w), Initial(Created(cfg.baseUrl, w, exchangeId, challenge)), events)
  }

  /** Every stored exchange is the serial outcome of distinct saved requests, taken in the order of their saves. */
  lemma StoredIsSerial(cfg: Config, w: Workflow, exchangeId: string, challenge: string, events: seq<Event<Request>>)
    returns (picks: seq<nat>)
    ensures var y := Concurrent(cfg, w, exchangeId, challenge, events);
            Increasing(picks, |y.log|) && y.stored == Reached(cfg, w, exchangeId, challenge, Picked(y.log, picks))
  {
    var created := Created(cfg.baseUrl, w, exchangeId, challenge);
    InterleavingRefinesSerial(ServerOf(cfg, w), created, events);
    var y := Concurrent(cfg, w, exchangeId, challenge, events);
    picks :| ExplainedBy(ServerOf(cfg, w), created, y.log, picks, y.stored);
  }

  /** Every loaded copy satisfies the invariant as well as the stored exchange. */
  ghost predicate AllInv(cfg: Config, w: Workflow, y: System<Exchange, Request>) {
    && Inv(cfg, w, y.stored)
    && forall t :: t in y.inFlight ==> Inv(cfg, w, y.inFlight[t].copy)
  }

  lemma {:induction false} ConcurrentInv(cfg: Config, w: Workflow, exchangeId: string, challenge: string,
                                         events: seq<Event<Request>>)
    ensures AllInv(cfg, w, Concurrent(cfg, w, exchangeId, challenge, events))
  {
    if events == [] {
      CreatedInv(cfg, w, exchangeId, challenge);
    } else {
      ConcurrentInv(cfg, w, exchangeId, challenge, events[..|events| - 1]);
      var y := Concurrent(cfg, w, exchangeId, challenge, events[..|events| - 1]);
      var e := events[|events| - 1];
      if e.Save? && e.ticket in y.inFlight {
        AfterInv(cfg, w, y.inFlight[e.ticket].copy, y.inFlight[e.ticket].request);
      }
    }
  }

  /** Completed still means the whole walk, and challenges and presentations still never repeat. */
  lemma ConcurrentSafety(cfg: Config, w: Workflow, exchangeId: string, challenge: string, events: seq<Event<Request>>)
    ensures var y := Concurrent(cfg, w, exchangeId, challenge, events);
            && (y.stored.state.Completed? ==> WholeWalk(w, y.stored))
            && (FreshChallenges(challenge, y.log) ==> ChallengesFrom(y.stored.steps, Drawn(challenge, y.log)))
  {
    ConcurrentInv(cfg, w, exchangeId, challenge, events);
    var y := Concurrent(cfg, w, exchangeId, challenge, events);
    if y.stored.state.Completed? {
      CompletedShape(cfg, w, y.stored);
    }
    if FreshChallenges(challenge, y.log) {
      var picks := StoredIsSerial(cfg, w, exchangeId, challenge, events);
      var picked := Picked(y.log, picks);
      RunChallenges(cfg, w, exchangeId, challenge, picked);
      forall c | c in Drawn(challenge, picked) ensures c in Drawn(challenge, y.log) {
        if c != challenge {
          var k :| 0 <= k < |picked| && picked[k].Submit? && picked[k].challenge == c;
          assert y.log[picks[k]].Submit? && y.log[picks[k]].challenge == c;
        }
      }
    }
  }

  // ---- Completion is not final here ----

  /** Whether a request that started from this copy leaves a completed exchange alone or stores a completed one. */
  predicate KeepsCompletion(cfg: Config, w: Workflow, copy: Exchange, r: Request) {
    match r
    case Poll => true
    case Review(id, _, _) =>
      var k := FirstMatch(copy.steps, id);
      k.None? || copy.steps[k.value].QueryStep? || copy.state.Completed?
    case Submit(vp, _, _) =>
      copy.steps == [] ||
      var s := copy.steps[|copy.steps| - 1];
      if s.IssuanceStep? then s.IsComplete() && Next(w, s.stepId).None?
      else !Accepts(cfg.verifier, vp, s.vpRequest) || Next(w, s.stepId).None?
  }

  lemma MovedOnCompletesIff(cfg: Config, w: Workflow, ex: Exchange, step: Step, challenge: string)
    requires ex.steps != []
    ensures MovedOn(cfg, w, ex, step, challenge).state.Completed? <==> step.IsComplete() && Next(w, step.stepId).None?
  {
  }

  lemma SubmitKeepsCompletionIff(cfg: Config, w: Workflow, copy: Exchange, r: Request)
    requires Inv(cfg, w, copy) && r.Submit? && copy.steps != []
    ensures var saved := Serve(cfg, w, copy, r).0;
            (saved.None? || saved.value.state.Completed?) <==> KeepsCompletion(cfg, w, copy, r)
  {
    var s := copy.steps[|copy.steps| - 1];
    assert StepOk(cfg, w, copy.exchangeId, s);
    SubmitOutcome(cfg, w, copy, r);
    MovedOnCompletesIff(cfg, w, copy, Process(cfg.verifier, s, r.vp).0, r.challenge);
  }

  lemma KeepsCompletionIff(cfg: Config, w: Workflow, copy: Exchange, r: Request)
    requires Inv(cfg, w, copy)
    ensures var saved := Serve(cfg, w, copy, r).0;
            (saved.None? || saved.value.state.Completed?) <==> KeepsCompletion(cfg, w, copy, r)
  {
    match r {
      case Poll =>
      case Review(_, _, _) =>
        ReviewAfter(cfg, w, copy, r);
      case Submit(_, _, _) =>
        if copy.steps != [] {
          SubmitKeepsCompletionIff(cfg, w, copy, r);
        }
    }
  }

  /** Over a completed exchange, exactly these saves do not undo the completion: it depends on the copy that was loaded. */
  lemma SaveKeepsCompletedIff(cfg: Config, w: Workflow, exchangeId: string, challenge: string, events: seq<Event<Request>>, t: nat)
    requires var y := Concurrent(cfg, w, exchangeId, challenge, events);
             y.stored.state.Completed? && t in y.inFlight
    ensures var y := Concurrent(cfg, w, exchangeId, challenge, events);
            Advance(ServerOf(cfg, w), y, Save(t)).stored.state.Completed? <==>
            KeepsCompletion(cfg, w, y.inFlight[t].copy, y.inFlight[t].request)
  {
    ConcurrentInv(cfg, w, exchangeId, challenge, events);
    var flight := Concurrent(cfg, w, exchangeId, challenge, events).inFlight[t];
    KeepsCompletionIff(cfg, w, flight.copy, flight.request);
  }

  lemma InterleaveSnoc(cfg: Config, w: Workflow, exchangeId: string, challenge: string, events: seq<Event<Request>>,
                       e: Event<Request>)
    ensures Concurrent(cfg, w, exchangeId, challenge, events + [e]) ==
            Advance(ServerOf(cfg, w), Concurrent(cfg, w, exchangeId, challenge, events), e)
  {
    assert (events + [e])[..|events|] == events;
  }

  /** A submission loaded before a review and saved after the completion puts a completed exchange back to active. */
  lemma CompletionCanBeLost(cfg: Config, exchangeId: string, challenge: string)
    returns (w: Workflow, events: seq<Event<Request>>)
    ensures events != []
    ensures Concurrent(cfg, w, exchangeId, challenge, events[..|events| - 1]).stored.state.Completed?
    ensures Concurrent(cfg, w, exchangeId, challenge, events).stored.state.Active?
    ensures !Concurrent(cfg, w, exchangeId, challenge, events).stored.steps[0].IsComplete()
  {
    w := Workflow("w", map["a" := StepDefinition(None, None, [])], "a");
    var early, review, late := Submit(NOTHING, "", ""), Review("a", Approved, None), Submit(NOTHING, "", "");
    var e0: seq<Event<Request>> := [];
    var e1 := e0 + [Load(0, early)];
    var e2 := e1 + [Load(1, review)];
    var e3 := e2 + [Save(1)];
    var e4 := e3 + [Load(2, late)];
    var e5 := e4 + [Save(2)];
    events := e5 + [Save(0)];
    assert events[..|events| - 1] == e5;
    InterleaveSnoc(cfg, w, exchangeId, challenge, e0, Load(0, early));
    InterleaveSnoc(cfg, w, exchangeId, challenge, e1, Load(1, review));
    InterleaveSnoc(cfg, w, exchangeId, challenge, e2, Save(1));
    InterleaveSnoc(cfg, w, exchangeId, challenge, e3, Load(2, late));
    InterleaveSnoc(cfg, w, exchangeId, challenge, e4, Save(2));
    InterleaveSnoc(cfg, w, exchangeId, challenge, e5, Save(0));
    var created := Created(cfg.baseUrl, w, exchangeId, challenge);
    var reviewed := created.(steps := [WithVP(created.steps[0], None)]);
    assert Next(w, "a") == None;
    assert Serve(cfg, w, created, early).0 == Some(created.(state := Active)) by {
      SubmitOutcome(cfg, w, created, early);
      assert created.steps[0 := created.steps[0]] == created.steps;
    }
    assert Serve(cfg, w, created, review).0 == Some(reviewed) by {
      assert created.steps[0 := reviewed.steps[0]] == reviewed.steps;
    }
    assert Serve(cfg, w, reviewed, late).0 == Some(reviewed.(state := Completed)) by {
      SubmitOutcome(cfg, w, reviewed, late);
      assert reviewed.steps[0 := reviewed.steps[0]] == reviewed.steps;
    }
  }
}
