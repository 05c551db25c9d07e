/** How many transactions an exchange can have, and where they point, over any run of the service's operations. */
module ExchangeServiceRuns {
  import opened Prelude
  import opened Credentials
  import opened SubmissionVerifier
  import opened Uuids
  import opened ExchangeServices
  import T = Transactions
  import TransactionRuns

  ghost predicate ExchangesOk(exchanges: map<string, Exchange>, drawn: set<string>) {
    && (forall e :: e in exchanges ==> exchanges[e].exchangeId == e)
    && (forall e :: e in exchanges && exchanges[e].oneTimeTransactionId.Some? ==> exchanges[e].oneTimeTransactionId.value in drawn)
    && (forall e, f :: e in exchanges && f in exchanges && e != f && exchanges[e].oneTimeTransactionId.Some? ==>
          exchanges[e].oneTimeTransactionId != exchanges[f].oneTimeTransactionId)
  }

  /** Every interact endpoint ends in the transaction's own exchange and transaction ids. */
  ghost predicate EndpointsOwn(baseUrl: string, t: T.Transaction) {
    forall i :: 0 <= i < |t.vpRequest.services| ==>
      t.vpRequest.services[i].serviceEndpoint == Endpoint(baseUrl, t.exchangeId, t.transactionId)
  }

  /** The id of a transaction of a one-time exchange is the exchange's own; a reusable one takes nobody's. */
  ghost predicate IdOk(exchanges: map<string, Exchange>, id: string, exchangeId: string) {
    && exchangeId in exchanges
    && if exchanges[exchangeId].oneTimeTransactionId.Some?
       then exchanges[exchangeId].oneTimeTransactionId == Some(id)
       else forall f :: f in exchanges ==> exchanges[f].oneTimeTransactionId != Some(id)
  }

  ghost predicate TransactionOk(su: Setup, exchanges: map<string, Exchange>, drawn: nat, id: string, t: T.Transaction) {
    && t.transactionId == id && id in DrawnIds(su.supply, drawn)
    && IdOk(exchanges, id, t.exchangeId)
    && EndpointsOwn(su.baseUrl, t)
    && TransactionRuns.Inv(su.cfg, t)
  }

  ghost predicate StoreInv(su: Setup, st: Store) {
    && ExchangesOk(st.exchanges, DrawnIds(su.supply, st.drawn))
    && forall id :: id in st.transactions ==> TransactionOk(su, st.exchanges, st.drawn, id, st.transactions[id])
  }

  function TransactionsOf(st: Store, exchangeId: string): set<string> {
    set id | id in st.transactions && st.transactions[id].exchangeId == exchangeId
  }

  predicate IsOneTime(st: Store, exchangeId: string) {
    exchangeId in st.exchanges && st.exchanges[exchangeId].oneTimeTransactionId.Some?
  }

  /** At most one transaction for a one-time exchange: whatever is stored for it has its one id. */
  lemma AtMostOneTransaction(su: Setup, st: Store, exchangeId: string)
    requires StoreInv(su, st) && IsOneTime(st, exchangeId)
    ensures TransactionsOf(st, exchangeId) <= {st.exchanges[exchangeId].oneTimeTransactionId.value}
    ensures TransactionsOf(st, exchangeId) == {} <==> st.exchanges[exchangeId].oneTimeTransactionId.value !in st.transactions
  {
    var own := st.exchanges[exchangeId].oneTimeTransactionId.value;
    forall id | id in TransactionsOf(st, exchangeId) ensures id == own {
      assert TransactionOk(su, st.exchanges, st.drawn, id, st.transactions[id]);
    }
    if own in st.transactions {
      assert TransactionOk(su, st.exchanges, st.drawn, own, st.transactions[own]);
      assert own in TransactionsOf(st, exchangeId);
    }
  }

  lemma DrawingKeeps(su: Setup, st: Store, exchanges: map<string, Exchange>, drawn': nat)
    requires StoreInv(su, st) && st.drawn <= drawn' && ExchangesOk(exchanges, DrawnIds(su.supply, drawn'))
    requires forall id, e :: IdOk(st.exchanges, id, e) && id in DrawnIds(su.supply, st.drawn) ==> IdOk(exchanges, id, e)
    ensures StoreInv(su, Store(exchanges, st.transactions, drawn'))
  {
    forall id | id in st.transactions ensures TransactionOk(su, exchanges, drawn', id, st.transactions[id]) {
      assert TransactionOk(su, st.exchanges, st.drawn, id, st.transactions[id]);
    }
  }

  lemma PutKeeps(su: Setup, st: Store, id: string, t: T.Transaction)
    requires StoreInv(su, st) && TransactionOk(su, st.exchanges, st.drawn, id, t)
    requires id in st.transactions ==> st.transactions[id].exchangeId == t.exchangeId
    ensures var st' := st.(transactions := st.transactions[id := t]);
            && StoreInv(su, st')
            && forall e :: TransactionsOf(st', e) == TransactionsOf(st, e) + if e == t.exchangeId then {id} else {}
  {
    var st' := st.(transactions := st.transactions[id := t]);
    forall other | other in st'.transactions
      ensures TransactionOk(su, st.exchanges, st.drawn, other, st'.transactions[other])
    {
      if other != id {
        assert TransactionOk(su, st.exchanges, st.drawn, other, st.transactions[other]);
      }
    }
  }

  lemma CreateKeeps(su: Setup, st: Store, def: ExchangeDefinition)
    requires StoreInv(su, st) && NeverRepeats(su.supply)
    ensures var st' := Perform(su, st, CreateExchange(def)).0;
            StoreInv(su, st') && st'.transactions == st.transactions
  {
    var st' := Perform(su, st, CreateExchange(def)).0;
    if def.exchangeId !in st.exchanges {
      NextIsFresh(su.supply, st.drawn, st.drawn, st.drawn + 1);
      DrawingKeeps(su, st, st'.exchanges, st'.drawn);
    }
  }

  lemma AfterOk(su: Setup, exchanges: map<string, Exchange>, drawn: nat, id: string, t: T.Transaction, r: T.TransactionRequest)
    requires TransactionOk(su, exchanges, drawn, id, t)
    ensures TransactionOk(su, exchanges, drawn, id, T.After(su.cfg, t, r))
    ensures T.After(su.cfg, t, r).exchangeId == t.exchangeId
  {
    TransactionRuns.AfterInv(su.cfg, t, r);
  }

  lemma RequestShape(su: Setup, st: Store, transactionId: string, r: T.TransactionRequest)
    ensures var st' := Request(su, st, transactionId, r).0;
            st' == st || (transactionId in st.transactions &&
                          st' == st.(transactions := st.transactions[transactionId := T.After(su.cfg, st.transactions[transactionId], r)]))
  {
  }

  lemma RequestKeeps(su: Setup, st: Store, transactionId: string, r: T.TransactionRequest)
    requires StoreInv(su, st)
    ensures var st' := Request(su, st, transactionId, r).0;
            && StoreInv(su, st') && st'.exchanges == st.exchanges
            && forall e :: TransactionsOf(st', e) == TransactionsOf(st, e)
  {
    RequestShape(su, st, transactionId, r);
    if transactionId in st.transactions {
      var t := st.transactions[transactionId];
      AfterOk(su, st.exchanges, st.drawn, transactionId, t, r);
      PutKeeps(su, st, transactionId, T.After(su.cfg, t, r));
    }
  }

  /** The transaction a start makes has the exchange's services in order, all pointing at itself. */
  lemma StartShape(ex: Exchange, baseUrl: string, uuid: string, challenge: string, reviewId: string)
    ensures var t := Start(ex, baseUrl, uuid, challenge, reviewId);
            && t.exchangeId == ex.exchangeId && t.transactionId == ex.oneTimeTransactionId.GetOr(uuid)
            && EndpointsOwn(baseUrl, t)
            && |t.vpRequest.services| == |ex.interactServices|
            && (forall i :: 0 <= i < |ex.interactServices| ==> t.vpRequest.services[i].kind == ex.interactServices[i])
            && t.vpRequest.challenge == challenge && t.vpRequest.query == ex.query && TransactionRuns.Fresh(t)
  {
  }

  lemma NewIdOk(su: Setup, st: Store, e: string, uuid: string)
    requires StoreInv(su, st) && e in st.exchanges && uuid !in DrawnIds(su.supply, st.drawn)
    ensures IdOk(st.exchanges, st.exchanges[e].oneTimeTransactionId.GetOr(uuid), e)
    ensures st.exchanges[e].oneTimeTransactionId.None? ==> uuid !in st.transactions
  {
    forall id | id in st.transactions ensures id != uuid {
      assert TransactionOk(su, st.exchanges, st.drawn, id, st.transactions[id]);
    }
  }

  /** Whether a start of this exchange stores a transaction: it exists, and is not a one-time exchange already started. */
  predicate CanStart(st: Store, exchangeId: string) {
    exchangeId in st.exchanges && (IsOneTime(st, exchangeId) ==> TransactionsOf(st, exchangeId) == {})
  }

  lemma StartedIff(su: Setup, st: Store, e: string)
    requires StoreInv(su, st) && NeverRepeats(su.supply)
    ensures Perform(su, st, StartExchange(e)).1.Started? <==> CanStart(st, e)
  {
    if e in st.exchanges {
      NextIsFresh(su.supply, st.drawn, st.drawn, st.drawn + 3);
      NewIdOk(su, st, e, su.supply(st.drawn));
      if IsOneTime(st, e) {
        AtMostOneTransaction(su, st, e);
      }
    }
  }

  lemma NewTransactionOk(su: Setup, st: Store, e: string)
    requires StoreInv(su, st) && NeverRepeats(su.supply) && e in st.exchanges
    ensures var t := NextTransaction(su, st, e);
            TransactionOk(su, st.exchanges, st.drawn + 3, t.transactionId, t) && t.exchangeId == e
  {
    var ex := st.exchanges[e];
    var n := st.drawn;
    NextIsFresh(su.supply, n, n, n + 3);
    StartShape(ex, su.baseUrl, su.supply(n), su.supply(n + 1), su.supply(n + 2));
    NewIdOk(su, st, e, su.supply(n));
    var t := NextTransaction(su, st, e);
    assert ex.exchangeId == e;
    TransactionRuns.NewInv(su.cfg, t.transactionId, t.exchangeId, t.vpRequest, t.callback, su.supply(n + 2));
  }

  lemma StoredStart(su: Setup, st: Store, t: T.Transaction)
    requires StoreInv(su, st) && TransactionOk(su, st.exchanges, st.drawn, t.transactionId, t)
    requires t.transactionId !in st.transactions
    ensures var st' := st.(transactions := st.transactions[t.transactionId := t]);
            && StoreInv(su, st')
            && |TransactionsOf(st', t.exchangeId)| == |TransactionsOf(st, t.exchangeId)| + 1
            && forall f :: f != t.exchangeId ==> TransactionsOf(st', f) == TransactionsOf(st, f)
  {
    PutKeeps(su, st, t.transactionId, t);
    assert t.transactionId !in TransactionsOf(st, t.exchangeId);
  }

  /** A start adds exactly one transaction to its own exchange if it can, and none to any other. */
  lemma StartKeeps(su: Setup, st: Store, e: string)
    requires StoreInv(su, st) && NeverRepeats(su.supply)
    ensures var st' := Perform(su, st, StartExchange(e)).0;
            && StoreInv(su, st') && st'.exchanges == st.exchanges
            && |TransactionsOf(st', e)| == |TransactionsOf(st, e)| + (if CanStart(st, e) then 1 else 0)
            && forall f :: f != e ==> TransactionsOf(st', f) == TransactionsOf(st, f)
  {
    StartedIff(su, st, e);
    if e in st.exchanges {
      var drawn := st.(drawn := st.drawn + 3);
      NextIsFresh(su.supply, st.drawn, st.drawn, st.drawn + 3);
      DrawingKeeps(su, st, st.exchanges, st.drawn + 3);
      assert forall f :: TransactionsOf(drawn, f) == TransactionsOf(st, f);
      NewTransactionOk(su, st, e);
      var t := NextTransaction(su, st, e);
      if t.transactionId !in st.transactions {
        StoredStart(su, drawn, t);
      }
    }
  }

  // ---- Whole runs ----

  const EMPTY := Store(map[], map[], 0)

  lemma PerformKeeps(su: Setup, st: Store, op: Operation)
    requires StoreInv(su, st) && NeverRepeats(su.supply)
    ensures StoreInv(su, Perform(su, st, op).0)
  {
    match op {
      case CreateExchange(def) => CreateKeeps(su, st, def);
      case StartExchange(exchangeId) => StartKeeps(su, st, exchangeId);
      case ContinueExchange(id, vp) => RequestKeeps(su, st, id, T.Continue(vp));
      case AddReview(id, decision) => RequestKeeps(su, st, id, T.Decided(decision));
    }
  }

  lemma {:induction false} RunInv(su: Setup, ops: seq<Operation>)
    requires NeverRepeats(su.supply)
    ensures StoreInv(su, PerformAll(su, EMPTY, ops))
  {
    if ops != [] {
      var n := |ops| - 1;
      RunInv(su, ops[..n]);
      PerformKeeps(su, PerformAll(su, EMPTY, ops[..n]), ops[n]);
    }
  }

  /** The starts of an exchange that came after its creation. */
  function Starts(su: Setup, ops: seq<Operation>, exchangeId: string): nat {
    if ops == [] then 0
    else
      var n := |ops| - 1;
      Starts(su, ops[..n], exchangeId)
      + if ops[n] == StartExchange(exchangeId) && exchangeId in PerformAll(su, EMPTY, ops[..n]).exchanges then 1 else 0
  }

  /** The number of transactions an exchange has after so many starts. */
  function Expected(st: Store, e: string, starts: nat): nat {
    if IsOneTime(st, e) && starts > 1 then 1 else starts
  }

  lemma OneMoreOperation(su: Setup, st: Store, op: Operation, e: string, starts: nat)
    requires StoreInv(su, st) && NeverRepeats(su.supply)
    requires |TransactionsOf(st, e)| == Expected(st, e, starts) && (e !in st.exchanges ==> starts == 0)
    ensures var st' := Perform(su, st, op).0;
            var starts' := starts + if op == StartExchange(e) && e in st.exchanges then 1 else 0;
            |TransactionsOf(st', e)| == Expected(st', e, starts') && (e !in st'.exchanges ==> starts' == 0)
  {
    match op {
      case CreateExchange(def) =>
        CreateKeeps(su, st, def);
        assert TransactionsOf(Perform(su, st, op).0, e) == TransactionsOf(st, e);
      case StartExchange(f) =>
        StartKeeps(su, st, f);
        if IsOneTime(st, e) {
          assert |TransactionsOf(st, e)| == 0 <==> TransactionsOf(st, e) == {};
        }
      case ContinueExchange(id, vp) => RequestKeeps(su, st, id, T.Continue(vp));
      case AddReview(id, decision) => RequestKeeps(su, st, id, T.Decided(decision));
    }
  }

  /**
   Over any run, a reusable exchange has exactly one transaction for each of its starts, and a one-time exchange has
   one as soon as it was started and never a second.
   */
  lemma {:induction false} TransactionsCountStarts(su: Setup, ops: seq<Operation>, e: string)
    requires NeverRepeats(su.supply)
    ensures var st := PerformAll(su, EMPTY, ops);
            && |TransactionsOf(st, e)| == Expected(st, e, Starts(su, ops, e))
            && (e !in st.exchanges ==> Starts(su, ops, e) == 0)
  {
    if ops != [] {
      var n := |ops| - 1;
      TransactionsCountStarts(su, ops[..n], e);
      RunInv(su, ops[..n]);
      OneMoreOperation(su, PerformAll(su, EMPTY, ops[..n]), ops[n], e, Starts(su, ops[..n], e));
    }
  }
}
