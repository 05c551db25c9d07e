/** What each operation of the legacy exchange service does, and what a definition means over whole runs. */
module ExchangeServiceLaws {
  import opened Prelude
  import opened Credentials
  import opened SubmissionVerifier
  import opened Uuids
  import opened ExchangeServices
  import opened ExchangeServiceRuns
  import T = Transactions
  import TransactionRuns
  import TransactionLaws

  // ---- The operations ----

  /** The stored exchange is its definition, with a transaction id of its own exactly when it is one-time. */
  ghost predicate Defined(def: ExchangeDefinition, ex: Exchange) {
    && ex.exchangeId == def.exchangeId
    && (ex.oneTimeTransactionId.Some? <==> def.isOneTime)
    && ex.interactServices == def.interactServices && ex.query == def.query && ex.callback == def.callback
  }

  lemma CreateExchangeLaw(su: Setup, st: Store, def: ExchangeDefinition)
    ensures var (st', reply) := Perform(su, st, CreateExchange(def));
            var e := def.exchangeId;
            if e in st.exchanges then st' == st && reply == Conflict
            else
              && reply == Created && st'.transactions == st.transactions
              && e in st'.exchanges && st'.exchanges == st.exchanges[e := st'.exchanges[e]] && Defined(def, st'.exchanges[e])
              && (def.isOneTime ==> st'.exchanges[e].oneTimeTransactionId == Some(su.supply(st.drawn)) && st'.drawn > st.drawn)
  {
  }

  /** A transaction as a start makes it: the exchange's queries, services and callbacks, a fresh challenge, and a pending review if mediated. */
  ghost predicate StartedFrom(su: Setup, st: Store, ex: Exchange, t: T.Transaction) {
    && t.exchangeId == ex.exchangeId
    && t.transactionId == (if ex.oneTimeTransactionId.Some? then ex.oneTimeTransactionId.value else su.supply(st.drawn))
    && t.callback == ex.callback && t.submission == None
    && t.vpRequest.challenge == su.supply(st.drawn + 1) && t.vpRequest.query == ex.query && t.vpRequest.domain == None
    && |t.vpRequest.services| == |ex.interactServices|
    && (forall i :: 0 <= i < |ex.interactServices| ==>
          t.vpRequest.services[i] ==
          InteractService(ex.interactServices[i], su.baseUrl + "/exchanges/" + ex.exchangeId + "/" + t.transactionId))
    && t.review == (if ex.interactServices != [] && ex.interactServices[0] == Mediated
                    then Some(T.PresentationReview(su.supply(st.drawn + 2), T.PendingSubmission, None)) else None)
  }

  /** A start of a known exchange saves its transaction, unless the id is taken, and answers with that transaction's request. */
  lemma StartExchangeLaw(su: Setup, st: Store, e: string) returns (t: T.Transaction)
    ensures var (st', reply) := Perform(su, st, StartExchange(e));
            && st'.exchanges == st.exchanges
            && if e !in st.exchanges then st' == st && reply == Missing
               else
                 && StartedFrom(su, st, st.exchanges[e], t) && st'.drawn == st.drawn + 3
                 && if t.transactionId in st.transactions then reply == SaveFailed && st'.transactions == st.transactions
                    else reply == Started(t.vpRequest) && st'.transactions == st.transactions[t.transactionId := t]
  {
    if e in st.exchanges {
      t := NextTransaction(su, st, e);
    } else {
      t := T.NewTransaction("", "", VpRequest("", [], [], None), [], "");
    }
  }

  ghost predicate Holds(st: Store, id: string) {
    id in st.transactions && st.transactions[id].exchangeId != ""
  }

  /** The stored transaction, the reply and the posted urls are those of the one transaction named; no other changes. */
  ghost predicate Passed(st: Store, id: string, served: T.Served, st': Store, reply: Reply)
    requires Holds(st, id)
  {
    && reply == FromTransaction(served.reply, served.posts)
    && st' == (if served.saved.None? then st else st.(transactions := st.transactions[id := served.saved.value]))
  }

  lemma ContinueExchangeLaw(su: Setup, st: Store, id: string, vp: Presentation) returns (served: T.Served)
    requires StoreInv(su, st)
    ensures var (st', reply) := Perform(su, st, ContinueExchange(id, vp));
            if !Holds(st, id) then st' == st && reply == Missing
            else Passed(st, id, served, st', reply) && TransactionLaws.Continued(su.cfg, st.transactions[id], vp, served)
  {
    served := T.Served(None, T.FailedBeforeSave, []);
    if Holds(st, id) {
      served := T.Serve(su.cfg, st.transactions[id], T.Continue(vp));
      assert TransactionOk(su, st.exchanges, st.drawn, id, st.transactions[id]);
      TransactionLaws.ContinueLaw(su.cfg, st.transactions[id], vp);
    }
  }

  /** A decision is stored with its status, an approval with its presentation; a transaction without a review keeps as it is. */
  lemma AddReviewLaw(su: Setup, st: Store, id: string, d: T.Decision)
    ensures var (st', reply) := Perform(su, st, AddReview(id, d));
            if !Holds(st, id) then st' == st && reply == Missing
            else
              var t := st.transactions[id];
              match t.review
              case None => st' == st && reply == FromTransaction(T.FailedBeforeSave, [])
              case Some(review) =>
                var decided := match d
                  case Approve(vp) => T.PresentationReview(review.reviewId, T.Approved, vp)
                  case Reject => T.PresentationReview(review.reviewId, T.Rejected, review.vp);
                && reply == FromTransaction(T.ReviewAdded, [])
                && st' == st.(transactions := st.transactions[id := t.(review := Some(decided))])
  {
    if Holds(st, id) {
      TransactionLaws.DecideLaw(su.cfg, st.transactions[id], d);
    }
  }

  // ---- Definitions over runs ----

  /** The definition of the first creation under this id. */
  function FirstDefinition(ops: seq<Operation>, e: string): Option<ExchangeDefinition> {
    if ops == [] then None
    else
      var before, op := FirstDefinition(ops[..|ops| - 1], e), ops[|ops| - 1];
      if before.None? && op.CreateExchange? && op.definition.exchangeId == e then Some(op.definition) else before
  }

  /** The starts of an exchange after its first creation, counted in the operations. */
  function StartsAsked(ops: seq<Operation>, e: string): nat {
    if ops == [] then 0
    else
      var n := |ops| - 1;
      StartsAsked(ops[..n], e) + if ops[n] == StartExchange(e) && FirstDefinition(ops[..n], e).Some? then 1 else 0
  }

  lemma ExchangesAfter(su: Setup, st: Store, op: Operation)
    ensures var exchanges := Perform(su, st, op).0.exchanges;
            if op.CreateExchange? && op.definition.exchangeId !in st.exchanges
            then
              var e := op.definition.exchangeId;
              e in exchanges && exchanges == st.exchanges[e := exchanges[e]] && Defined(op.definition, exchanges[e])
            else exchanges == st.exchanges
  {
  }

  /** Over any run, an exchange is its first definition: services, queries, callbacks, and one-time exactly when that says so. */
  lemma {:induction false} FirstDefinitionStays(su: Setup, ops: seq<Operation>, e: string)
    ensures var exchanges := PerformAll(su, EMPTY, ops).exchanges;
            match FirstDefinition(ops, e)
            case None => e !in exchanges
            case Some(def) => e in exchanges && Defined(def, exchanges[e])
  {
    if ops != [] {
      var n := |ops| - 1;
      FirstDefinitionStays(su, ops[..n], e);
      ExchangesAfter(su, PerformAll(su, EMPTY, ops[..n]), ops[n]);
    }
  }

  lemma {:induction false} StartsAreAsked(su: Setup, ops: seq<Operation>, e: string)
    ensures Starts(su, ops, e) == StartsAsked(ops, e)
  {
    if ops != [] {
      StartsAreAsked(su, ops[..|ops| - 1], e);
      FirstDefinitionStays(su, ops[..|ops| - 1], e);
    }
  }

  /**
   The number of transactions of an exchange, from the operations alone: none without a definition, one per start for a
   reusable one, and at most one for a one-time one.
   */
  lemma DefinitionDecidesCount(su: Setup, ops: seq<Operation>, e: string)
    requires NeverRepeats(su.supply)
    ensures var count, starts := |TransactionsOf(PerformAll(su, EMPTY, ops), e)|, StartsAsked(ops, e);
            match FirstDefinition(ops, e)
            case None => count == 0
            case Some(def) => count == if def.isOneTime && starts > 1 then 1 else starts
  {
    FirstDefinitionStays(su, ops, e);
    StartsAreAsked(su, ops, e);
    TransactionsCountStarts(su, ops, e);
  }
}
