/** Legacy exchanges: definitions, the transactions they start, and the service over both repositories. */
module ExchangeServices {
  import opened Prelude
  import opened Credentials
  import opened SubmissionVerifier
  import opened Uuids
  import T = Transactions

  datatype ExchangeDefinition = ExchangeDefinition(exchangeId: string, interactServices: seq<InteractType>, query: seq<Query>,
                                                   isOneTime: bool, callback: seq<string>)

  datatype Exchange = Exchange(exchangeId: string, oneTimeTransactionId: Option<string>, interactServices: seq<InteractType>,
                               query: seq<Query>, callback: seq<string>)

  function NewExchange(def: ExchangeDefinition, uuid: string): Exchange {
    Exchange(def.exchangeId, if def.isOneTime then Some(uuid) else None, def.interactServices, def.query, def.callback)
  }

  function Endpoint(baseUrl: string, exchangeId: string, transactionId: string): string {
    baseUrl + "/exchanges/" + exchangeId + "/" + transactionId
  }

  /** `start`: a one-time exchange always uses its own transaction id. */
  function Start(ex: Exchange, baseUrl: string, uuid: string, challenge: string, reviewId: string): T.Transaction {
    var transactionId := ex.oneTimeTransactionId.GetOr(uuid);
    var endpoint := Endpoint(baseUrl, ex.exchangeId, transactionId);
    var services := seq(|ex.interactServices|, i requires 0 <= i < |ex.interactServices| => InteractService(ex.interactServices[i], endpoint));
    T.NewTransaction(transactionId, ex.exchangeId, VpRequest(challenge, ex.query, services, None), ex.callback, reviewId)
  }

  datatype Setup = Setup(cfg: T.TransactionConfig, baseUrl: string, supply: Supply)

  datatype Store = Store(exchanges: map<string, Exchange>, transactions: map<string, T.Transaction>, drawn: nat) {
    /** `getExchangeTransaction`, which also refuses a transaction without an exchange id. */
    function Find(transactionId: string): Option<T.Transaction> {
      if transactionId in transactions && transactions[transactionId].exchangeId != ""
      then Some(transactions[transactionId]) else None
    }
  }

  datatype Operation =
    | CreateExchange(definition: ExchangeDefinition)
    | StartExchange(exchangeId: string)
    | ContinueExchange(transactionId: string, vp: Presentation)
    | AddReview(transactionId: string, decision: T.Decision)

  datatype Reply =
    | Conflict
    | Missing
    | Created
    | Started(vpRequest: VpRequest)
    | SaveFailed
    | FromTransaction(reply: T.TransactionReply, posts: seq<string>)

  /** The transaction that starting the exchange now would make. */
  function NextTransaction(su: Setup, st: Store, exchangeId: string): T.Transaction
    requires exchangeId in st.exchanges
  {
    Start(st.exchanges[exchangeId], su.baseUrl, su.supply(st.drawn), su.supply(st.drawn + 1), su.supply(st.drawn + 2))
  }

  /** Saving a transaction under an id that is taken fails, which is what makes an exchange one-time. */
  function Perform(su: Setup, st: Store, op: Operation): (Store, Reply) {
    match op
    case CreateExchange(def) =>
      if def.exchangeId in st.exchanges then (st, Conflict)
      else (st.(exchanges := st.exchanges[def.exchangeId := NewExchange(def, su.supply(st.drawn))], drawn := st.drawn + 1), Created)
    case StartExchange(exchangeId) =>
      if exchangeId !in st.exchanges then (st, Missing)
      else
        var t := NextTransaction(su, st, exchangeId);
        var drawn := st.(drawn := st.drawn + 3);
        if t.transactionId in st.transactions then (drawn, SaveFailed)
        else (drawn.(transactions := st.transactions[t.transactionId := t]), Started(t.vpRequest))
    case ContinueExchange(transactionId, vp) =>
      Request(su, st, transactionId, T.Continue(vp))
    case AddReview(transactionId, decision) =>
      Request(su, st, transactionId, T.Decided(decision))
  }

  function Request(su: Setup, st: Store, transactionId: string, r: T.TransactionRequest): (Store, Reply) {
    match st.Find(transactionId)
    case None => (st, Missing)
    case Some(t) =>
      var served := T.Serve(su.cfg, t, r);
      (if served.saved.None? then st else st.(transactions := st.transactions[transactionId := served.saved.value]),
       FromTransaction(served.reply, served.posts))
  }

  function PerformAll(su: Setup, st: Store, ops: seq<Operation>): Store {
    if ops == [] then st else Perform(su, PerformAll(su, st, ops[..|ops| - 1]), ops[|ops| - 1]).0
  }

  class ExchangeService {
    const setup: Setup
    var exchanges: map<string, Exchange>
    var transactions: map<string, T.Transaction>
    var drawn: nat

    function Contents(): Store reads this {
      Store(exchanges, transactions, drawn)
    }

    constructor (setup: Setup)
      ensures this.setup == setup && Contents() == Store(map[], map[], 0)
    {
      this.setup := setup;
      exchanges, transactions, drawn := map[], map[], 0;
    }

    method CreateExchange(definition: ExchangeDefinition) returns (reply: Reply)
      modifies this`exchanges, this`drawn
      ensures (Contents(), reply) == Perform(setup, old(Contents()), Operation.CreateExchange(definition))
    {
      if definition.exchangeId in exchanges {
        return Conflict;
      }
      var exchange := NewExchange(definition, setup.supply(drawn));
      drawn := drawn + 1;
      exchanges := exchanges[exchange.exchangeId := exchange];
      return Created;
    }

    method StartExchange(exchangeId: string) returns (reply: Reply)
      modifies this`transactions, this`drawn
      ensures (Contents(), reply) == Perform(setup, old(Contents()), Operation.StartExchange(exchangeId))
    {
      if exchangeId !in exchanges {
        return Missing;
      }
      var t := Start(exchanges[exchangeId], setup.baseUrl, setup.supply(drawn), setup.supply(drawn + 1), setup.supply(drawn + 2));
      drawn := drawn + 3;
      if t.transactionId in transactions {
        return SaveFailed;
      }
      transactions := transactions[t.transactionId := t];
      return Started(t.vpRequest);
    }

    method ContinueExchange(transactionId: string, vp: Presentation) returns (reply: Reply)
      modifies this`transactions
      ensures (Contents(), reply) == Perform(setup, old(Contents()), Operation.ContinueExchange(transactionId, vp))
    {
      var found := Contents().Find(transactionId);
      if found.None? {
        return Missing;
      }
      var t := new T.TransactionEntity.FromStore(found.value);
      var answer := t.ProcessPresentation(setup.cfg.verifier, vp);
      if answer.HolderForbidden? {
        return FromTransaction(T.Forbidden, []);
      }
      if answer.NoAnswer? {
        return FromTransaction(T.FailedBeforeSave, []);
      }
      if |answer.response.errors| > 0 {
        return FromTransaction(T.SubmissionErrors(answer.response.errors), []);
      }
      transactions := transactions[transactionId := t.Value()];
      if !setup.cfg.validBody(t.Value(), vp) {
        return FromTransaction(T.FailedAfterSave, []);
      }
      var posts: seq<string> := [];
      for i := 0 to |answer.callback|
        invariant posts == answer.callback[..i]
      {
        posts := posts + [answer.callback[i]];
      }
      assert posts == answer.callback;
      return FromTransaction(T.Response(answer.response), posts);
    }

    method AddReview(transactionId: string, decision: T.Decision) returns (reply: Reply)
      modifies this`transactions
      ensures (Contents(), reply) == Perform(setup, old(Contents()), Operation.AddReview(transactionId, decision))
    {
      var found := Contents().Find(transactionId);
      if found.None? {
        return Missing;
      }
      var t := new T.TransactionEntity.FromStore(found.value);
      var threw: bool;
      match decision {
        case Approve(vp) => threw := t.ApprovePresentationSubmission(vp);
        case Reject => threw := t.RejectPresentationSubmission();
      }
      if threw {
        return FromTransaction(T.FailedBeforeSave, []);
      }
      transactions := transactions[transactionId := t.Value()];
      return FromTransaction(T.ReviewAdded, []);
    }
  }
}
