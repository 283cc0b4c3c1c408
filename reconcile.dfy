/**
 * check_payment_confirmations (umpay/app.py): the chain data the indexer returns, which
 * transfers pay an order, and what a reconciliation cycle does to the table and which
 * completion notifications it sends. The specification is a family of functions on
 * values; the cycle itself is the method CheckPaymentConfirmations, proved against it.
 */
module Reconcile {
  import opened Wrappers
  import opened Signature
  import opened Orders
  import opened Callbacks
  import opened Store

  /** The TRC20 contract of USDT on TRON mainnet, from the application's configuration. */
  const USDT_CONTRACT_ADDRESS := "TR7NHqjeKQxGTCi8q8ZY4pL8otSzgjLj6t"

  // ---- What the indexer returns ----

  /** An entry of `raw_data.contract`: its `type` and `parameter.value.amount`, each possibly absent. */
  datatype TrxContract = TrxContract(kind: Option<string>, amount: Option<int>)

  /** An account transaction: `txID`, the `contractRet` of each `ret` entry, and its contracts. */
  datatype TrxTx = TrxTx(txID: string, ret: seq<Option<string>>, contracts: seq<TrxContract>)

  /** A TRC20 transfer: `transaction_id`, `to` and `value`, the last two possibly absent. */
  datatype TokenTransfer = TokenTransfer(transactionId: string, to: Option<string>, value: Option<int>)

  /**
   * The indexer's answers during one cycle, as functions of the query: the `data` of the
   * account-transactions query by address, and of the TRC20-transfers query by address and
   * token contract. A failed query or one without `data` is the empty sequence.
   */
  datatype Indexer = Indexer(
    accountTransactions: string -> seq<TrxTx>,
    trc20Transfers: (string, string) -> seq<TokenTransfer>)

  /** `d.get(key, 0)` on an integer field. */
  function OrZero(v: Option<int>): int {
    if v.Some? then v.value else 0
  }

  /** A raw chain amount in the asset's own unit: TRX (in sun) and this USDT token both count millionths. */
  function Normalize(raw: int): (r: real)
    ensures r * 1000000.0 == raw as real
  {
    raw as real / 1000000.0
  }

  /** The threshold in micro-units: a transfer pays when its raw amount reaches a millionfold the price. */
  lemma NormalizeThreshold(raw: int, expected: real)
    ensures Normalize(raw) >= expected <==> raw as real >= expected * 1000000.0
  {
    var n := Normalize(raw);
    if n >= expected {
      assert n * 1000000.0 >= expected * 1000000.0;
    } else {
      assert n * 1000000.0 < expected * 1000000.0;
    }
  }

  /** `tx.get('ret') and tx['ret'][0].get('contractRet') == 'SUCCESS'`. */
  predicate TxSucceeded(tx: TrxTx) {
    |tx.ret| > 0 && tx.ret[0] == Some("SUCCESS")
  }

  /** A `TransferContract` whose amount reaches the expected amount; its recipient is not looked at. */
  predicate ContractPays(c: TrxContract, expected: real) {
    c.kind == Some("TransferContract") && Normalize(OrZero(c.amount)) >= expected
  }

  /** A successful transaction with at least one paying contract. */
  predicate TxPays(tx: TrxTx, expected: real) {
    TxSucceeded(tx) && exists i :: 0 <= i < |tx.contracts| && ContractPays(tx.contracts[i], expected)
  }

  /** A transfer to the order's address whose value reaches the expected amount. */
  predicate TransferPays(t: TokenTransfer, address: string, expected: real) {
    t.to == Some(address) && Normalize(OrZero(t.value)) >= expected
  }

  // ---- Which transfers complete an order ----

  /**
   * The TRX branch: the `break` leaves only the contract loop, so every paying transaction
   * completes the order again; these are their ids, in the indexer's order.
   */
  function TrxMatches(txs: seq<TrxTx>, expected: real): (r: seq<string>)
    ensures |r| <= |txs|
    ensures r == [] <==> forall i :: 0 <= i < |txs| ==> !TxPays(txs[i], expected)
    ensures forall i :: 0 <= i < |txs| && TxPays(txs[i], expected) ==> txs[i].txID in r
    ensures forall h :: h in r ==> exists i :: 0 <= i < |txs| && TxPays(txs[i], expected) && txs[i].txID == h
  {
    if txs == [] then []
    else
      var rest := TrxMatches(txs[1..], expected);
      assert forall i :: 1 <= i < |txs| ==> txs[i] == txs[1..][i - 1];
      assert forall i :: 0 <= i < |txs[1..]| ==> txs[1..][i] == txs[i + 1];
      if TxPays(txs[0], expected) then [txs[0].txID] + rest else rest
  }

  /** The hash that stays is the last paying transaction's. */
  lemma {:induction false} TrxLastMatch(txs: seq<TrxTx>, expected: real, j: int)
    requires 0 <= j < |txs| && TxPays(txs[j], expected)
    requires forall k :: j < k < |txs| ==> !TxPays(txs[k], expected)
    ensures TrxMatches(txs, expected) != []
    ensures TrxMatches(txs, expected)[|TrxMatches(txs, expected)| - 1] == txs[j].txID
  {
    var rest := TrxMatches(txs[1..], expected);
    if j == 0 {
      assert rest == [] by {
        forall i | 0 <= i < |txs[1..]| ensures !TxPays(txs[1..][i], expected) {
          assert txs[1..][i] == txs[i + 1];
        }
      }
    } else {
      forall k | j - 1 < k < |txs[1..]| ensures !TxPays(txs[1..][k], expected) {
        assert txs[1..][k] == txs[k + 1];
      }
      TrxLastMatch(txs[1..], expected, j - 1);
    }
  }

  /** `transfers[i]` is the first paying transfer. */
  predicate FirstPayingAt(ts: seq<TokenTransfer>, address: string, expected: real, i: int) {
    && 0 <= i < |ts|
    && TransferPays(ts[i], address, expected)
    && forall j :: 0 <= j < i ==> !TransferPays(ts[j], address, expected)
  }

  /** The USDT branch: the `break` leaves the transfer loop, so only the first paying transfer counts. */
  function UsdtMatch(ts: seq<TokenTransfer>, address: string, expected: real): (r: Option<string>)
    ensures r.None? <==> forall i :: 0 <= i < |ts| ==> !TransferPays(ts[i], address, expected)
    ensures r.Some? ==> exists i :: FirstPayingAt(ts, address, expected, i) && ts[i].transactionId == r.value
  {
    if ts == [] then None
    else if TransferPays(ts[0], address, expected) then
      assert FirstPayingAt(ts, address, expected, 0);
      Some(ts[0].transactionId)
    else
      var r := UsdtMatch(ts[1..], address, expected);
      assert forall i :: 1 <= i < |ts| ==> ts[i] == ts[1..][i - 1];
      assert r.Some? ==> exists i :: FirstPayingAt(ts, address, expected, i) && ts[i].transactionId == r.value by {
        if r.Some? {
          var i :| FirstPayingAt(ts[1..], address, expected, i) && ts[1..][i].transactionId == r.value;
          assert FirstPayingAt(ts, address, expected, i + 1) by {
            forall j | 0 <= j < i + 1 ensures !TransferPays(ts[j], address, expected) {
              if j > 0 { assert ts[j] == ts[1..][j - 1]; }
            }
          }
        }
      }
      r
  }

  /** The first paying transfer is the match, whatever follows it. */
  lemma UsdtMatchFirst(ts: seq<TokenTransfer>, address: string, expected: real, i: int)
    requires FirstPayingAt(ts, address, expected, i)
    ensures UsdtMatch(ts, address, expected) == Some(ts[i].transactionId)
  {
    var r := UsdtMatch(ts, address, expected);
    var i' :| FirstPayingAt(ts, address, expected, i') && ts[i'].transactionId == r.value;
    assert i' == i;
  }

  /** The ids an order is completed with in one cycle, in the order the updates happen. */
  function OrderMatches(ix: Indexer, decimal: string -> real, o: Order): (r: seq<string>)
    ensures o.currency == USDT ==> |r| <= 1
  {
    var expected := decimal(o.amount);
    match o.currency
    case TRX => TrxMatches(ix.accountTransactions(o.paymentAddress), expected)
    case USDT =>
      match UsdtMatch(ix.trc20Transfers(o.paymentAddress, USDT_CONTRACT_ADDRESS), o.paymentAddress, expected)
      case None => []
      case Some(h) => [h]
  }

  // ---- What a cycle does ----

  /** The table and the notifications sent so far. */
  datatype Effect = Effect(rows: map<string, Order>, callbacks: seq<Callback>)

  /** One completion: `update_order_status(order_id, 'completed', h)` and `send_callback(order, h)`. */
  function Complete(e: Effect, cfg: Config, o: Order, h: string, now: nat): Effect {
    Effect(UpdateRow(e.rows, o.orderId, Completed, Some(h), now), e.callbacks + SendCallback(cfg, o, h, now))
  }

  /** The completions of one order, one per id in `hs`, in order. */
  function ApplyMatches(e: Effect, cfg: Config, o: Order, hs: seq<string>, now: nat): Effect
    decreases |hs|
  {
    if hs == [] then e else ApplyMatches(Complete(e, cfg, o, hs[0], now), cfg, o, hs[1..], now)
  }

  /** The orders of the snapshot, one after the other. */
  function ReconcileFrom(e: Effect, cfg: Config, ix: Indexer, decimal: string -> real, orders: seq<Order>, now: nat)
    : Effect
    decreases |orders|
  {
    if orders == [] then e
    else ReconcileFrom(ApplyMatches(e, cfg, orders[0], OrderMatches(ix, decimal, orders[0]), now),
      cfg, ix, decimal, orders[1..], now)
  }

  /** A cycle over the snapshot `pending` of the selected rows, starting from `rows`, nothing sent yet. */
  function Reconcile(cfg: Config, ix: Indexer, decimal: string -> real, rows: map<string, Order>,
    pending: seq<Order>, now: nat): Effect
  {
    ReconcileFrom(Effect(rows, []), cfg, ix, decimal, pending, now)
  }

  // ---- Properties of the completions of one order ----

  /**
   * The completions touch only the order's own row; with at least one id it is completed,
   * and the last id, when non-empty, is the hash that stays, confirmed now.
   */
  lemma {:induction false} ApplyMatchesRows(e: Effect, cfg: Config, o: Order, hs: seq<string>, now: nat)
    ensures var r := ApplyMatches(e, cfg, o, hs, now);
      && r.rows.Keys == e.rows.Keys
      && (forall k :: k in e.rows && k != o.orderId ==> r.rows[k] == e.rows[k])
      && (o.orderId in e.rows ==> SameOrder(r.rows[o.orderId], e.rows[o.orderId]))
      && (hs == [] ==> r == e)
      && (hs != [] && o.orderId in e.rows ==> r.rows[o.orderId].status == Completed)
      && (hs != [] && o.orderId in e.rows && hs[|hs| - 1] != "" ==>
            r.rows[o.orderId].transactionHash == Some(hs[|hs| - 1]) && r.rows[o.orderId].confirmedAt == Some(now))
    decreases |hs|
  {
    if hs != [] {
      var e' := Complete(e, cfg, o, hs[0], now);
      ApplyMatchesRows(e', cfg, o, hs[1..], now);
      if hs[1..] == [] {
        assert hs == [hs[0]];
      } else {
        assert hs[1..][|hs[1..]| - 1] == hs[|hs| - 1];
      }
    }
  }

  /**
   * The hash that stays is the last non-empty id, confirmed now; when every id is empty
   * (`if transaction_hash:` fails each time) the hash and confirmation time are kept.
   */
  lemma {:induction false} ApplyMatchesHash(e: Effect, cfg: Config, o: Order, hs: seq<string>, now: nat)
    requires o.orderId in e.rows
    ensures var r := ApplyMatches(e, cfg, o, hs, now);
      && o.orderId in r.rows
      && ((forall i :: 0 <= i < |hs| ==> hs[i] == "") ==>
            r.rows[o.orderId].transactionHash == e.rows[o.orderId].transactionHash
            && r.rows[o.orderId].confirmedAt == e.rows[o.orderId].confirmedAt)
      && (forall i :: 0 <= i < |hs| && hs[i] != "" && (forall j :: i < j < |hs| ==> hs[j] == "") ==>
            r.rows[o.orderId].transactionHash == Some(hs[i]) && r.rows[o.orderId].confirmedAt == Some(now))
    decreases |hs|
  {
    if hs != [] {
      var e' := Complete(e, cfg, o, hs[0], now);
      var tail := hs[1..];
      ApplyMatchesHash(e', cfg, o, tail, now);
      var r := ApplyMatches(e, cfg, o, hs, now);
      assert r == ApplyMatches(e', cfg, o, tail, now);
      assert forall j :: 0 <= j < |tail| ==> tail[j] == hs[j + 1];
      if forall i :: 0 <= i < |hs| ==> hs[i] == "" {
        assert hs[0] == "";
      }
      forall i | 0 <= i < |hs| && hs[i] != "" && (forall j :: i < j < |hs| ==> hs[j] == "")
        ensures r.rows[o.orderId].transactionHash == Some(hs[i]) && r.rows[o.orderId].confirmedAt == Some(now)
      {
        if i > 0 {
          assert tail[i - 1] != "";
        }
      }
    }
  }

  /** The hash and confirmation time are set together or not at all, as before. */
  lemma {:induction false} ApplyMatchesKeepsWellFormed(e: Effect, cfg: Config, o: Order, hs: seq<string>, now: nat)
    requires forall k :: k in e.rows ==> WellFormedRow(k, e.rows[k])
    ensures var r := ApplyMatches(e, cfg, o, hs, now);
      forall k :: k in r.rows ==> WellFormedRow(k, r.rows[k])
    decreases |hs|
  {
    if hs != [] {
      var e' := Complete(e, cfg, o, hs[0], now);
      assert ApplyMatches(e, cfg, o, hs, now) == ApplyMatches(e', cfg, o, hs[1..], now);
      assert forall k :: k in e'.rows ==> WellFormedRow(k, e'.rows[k]) by {
        forall k | k in e'.rows ensures WellFormedRow(k, e'.rows[k]) {
          assert k in e.rows && WellFormedRow(k, e.rows[k]);
        }
      }
      ApplyMatchesKeepsWellFormed(e', cfg, o, hs[1..], now);
    }
  }

  /** The notifications of one order's completions, in order. */
  function Notifications(cfg: Config, o: Order, hs: seq<string>, now: nat): seq<Callback>
    decreases |hs|
  {
    if hs == [] then [] else SendCallback(cfg, o, hs[0], now) + Notifications(cfg, o, hs[1..], now)
  }

  lemma AppendAssoc<T>(a: seq<T>, b: seq<T>, c: seq<T>)
    ensures (a + b) + c == a + (b + c)
  {
  }

  /** The completions of an order append exactly its notifications to those already sent. */
  lemma {:induction false} ApplyMatchesCallbacks(e: Effect, cfg: Config, o: Order, hs: seq<string>, now: nat)
    decreases |hs|
    ensures ApplyMatches(e, cfg, o, hs, now).callbacks == e.callbacks + Notifications(cfg, o, hs, now)
  {
    if hs != [] {
      var e' := Complete(e, cfg, o, hs[0], now);
      ApplyMatchesCallbacks(e', cfg, o, hs[1..], now);
      AppendAssoc(e.callbacks, SendCallback(cfg, o, hs[0], now), Notifications(cfg, o, hs[1..], now));
    } else {
      assert e.callbacks + [] == e.callbacks;
    }
  }

  /** What a merchant accepts as a completion notice: it verifies and says `completed`. */
  predicate Announces(cfg: Config, c: Callback) {
    Receivable(cfg, c) && Lookup(c.payload, "status") == Some("completed")
  }

  /** One notification per completion when the order has a callback URL, none otherwise. */
  lemma {:induction false} NotificationsCount(cfg: Config, o: Order, hs: seq<string>, now: nat)
    decreases |hs|
    ensures |Notifications(cfg, o, hs, now)| == if CallbackEnabled(o) then |hs| else 0
  {
    if hs != [] {
      NotificationsCount(cfg, o, hs[1..], now);
    }
  }

  /** The i-th notification is send_callback's for the i-th id. */
  lemma {:induction false} NotificationsContent(cfg: Config, o: Order, hs: seq<string>, now: nat, i: int)
    requires CallbackEnabled(o) && 0 <= i < |hs|
    decreases |hs|
    ensures i < |Notifications(cfg, o, hs, now)|
    ensures Notifications(cfg, o, hs, now)[i] == SendCallback(cfg, o, hs[i], now)[0]
  {
    NotificationsCount(cfg, o, hs, now);
    var first := SendCallback(cfg, o, hs[0], now);
    var rest := Notifications(cfg, o, hs[1..], now);
    assert Notifications(cfg, o, hs, now) == first + rest;
    if i > 0 {
      NotificationsContent(cfg, o, hs[1..], now, i - 1);
      assert hs[1..][i - 1] == hs[i];
      assert (first + rest)[i] == rest[i - 1];
    } else {
      assert (first + rest)[0] == first[0];
    }
  }

  // ---- Properties of a whole cycle ----

  /**
   * A cycle keeps every row's order data, only ever sets a row to completed, and leaves
   * alone every row no order of the snapshot names.
   */
  lemma {:induction false} ReconcileRows(e: Effect, cfg: Config, ix: Indexer, decimal: string -> real,
    orders: seq<Order>, now: nat)
    ensures var r := ReconcileFrom(e, cfg, ix, decimal, orders, now);
      && r.rows.Keys == e.rows.Keys
      && (forall k :: k in e.rows ==> SameOrder(r.rows[k], e.rows[k]))
      && (forall k :: k in e.rows ==> r.rows[k] == e.rows[k] || r.rows[k].status == Completed)
      && (forall k :: k in e.rows && (forall i :: 0 <= i < |orders| ==> orders[i].orderId != k) ==>
            r.rows[k] == e.rows[k])
    decreases |orders|
  {
    if orders != [] {
      var o := orders[0];
      var e' := ApplyMatches(e, cfg, o, OrderMatches(ix, decimal, o), now);
      ApplyMatchesRows(e, cfg, o, OrderMatches(ix, decimal, o), now);
      ReconcileRows(e', cfg, ix, decimal, orders[1..], now);
      var r := ReconcileFrom(e, cfg, ix, decimal, orders, now);
      forall k | k in e.rows ensures r.rows[k] == e.rows[k] || r.rows[k].status == Completed {
        if r.rows[k] != e'.rows[k] {
        } else if e'.rows[k] != e.rows[k] {
          assert k == o.orderId;
          assert OrderMatches(ix, decimal, o) != [];
        }
      }
      forall k | k in e.rows && (forall i :: 0 <= i < |orders| ==> orders[i].orderId != k)
        ensures r.rows[k] == e.rows[k]
      {
        assert orders[0].orderId != k;
        forall i | 0 <= i < |orders[1..]| ensures orders[1..][i].orderId != k {
          assert orders[1..][i] == orders[i + 1];
        }
      }
    }
  }

  /** Only a completed order carries a hash, before and after a cycle. */
  lemma {:induction false} ReconcileKeepsHashImpliesCompleted(e: Effect, cfg: Config, ix: Indexer,
    decimal: string -> real, orders: seq<Order>, now: nat)
    requires HashImpliesCompleted(e.rows)
    ensures HashImpliesCompleted(ReconcileFrom(e, cfg, ix, decimal, orders, now).rows)
  {
    ReconcileRows(e, cfg, ix, decimal, orders, now);
    var r := ReconcileFrom(e, cfg, ix, decimal, orders, now);
    forall k | k in r.rows && r.rows[k].transactionHash.Some? ensures r.rows[k].status == Completed {
      assert r.rows[k] == e.rows[k] || r.rows[k].status == Completed;
    }
  }

  /** A cycle keeps the notifications already sent, and every one it adds is a completion notice. */
  lemma {:induction false} ReconcileCallbacks(e: Effect, cfg: Config, ix: Indexer, decimal: string -> real,
    orders: seq<Order>, now: nat)
    ensures var r := ReconcileFrom(e, cfg, ix, decimal, orders, now);
      && |e.callbacks| <= |r.callbacks|
      && (forall i :: 0 <= i < |e.callbacks| ==> r.callbacks[i] == e.callbacks[i])
      && (forall i :: |e.callbacks| <= i < |r.callbacks| ==> Announces(cfg, r.callbacks[i]))
    decreases |orders|
  {
    if orders != [] {
      var o := orders[0];
      var hs := OrderMatches(ix, decimal, o);
      var e' := ApplyMatches(e, cfg, o, hs, now);
      ApplyMatchesCallbacks(e, cfg, o, hs, now);
      NotificationsCount(cfg, o, hs, now);
      ReconcileCallbacks(e', cfg, ix, decimal, orders[1..], now);
      var r := ReconcileFrom(e, cfg, ix, decimal, orders, now);
      assert r == ReconcileFrom(e', cfg, ix, decimal, orders[1..], now);
      var n := Notifications(cfg, o, hs, now);
      forall i | |e.callbacks| <= i < |e'.callbacks| ensures Announces(cfg, r.callbacks[i]) {
        var j := i - |e.callbacks|;
        assert e'.callbacks[i] == n[j];
        NotificationsContent(cfg, o, hs, now, j);
        SendCallbackReceivable(cfg, o, hs[j], now);
      }
    }
  }

  /**
   * Only pending, unexpired orders are examined: over the snapshot the query returns, a
   * row that is completed, expired or past its deadline comes out of the cycle unchanged.
   */
  lemma ReconcileOnlySelected(cfg: Config, ix: Indexer, decimal: string -> real, rows: map<string, Order>,
    ids: seq<string>, now: nat)
    requires forall k :: k in rows ==> rows[k].orderId == k
    ensures var r := Reconcile(cfg, ix, decimal, rows, SelectPending(rows, ids, now), now);
      forall k :: k in rows && !Selectable(rows[k], now) ==> k in r.rows && r.rows[k] == rows[k]
  {
    var pending := SelectPending(rows, ids, now);
    ReconcileRows(Effect(rows, []), cfg, ix, decimal, pending, now);
    forall k, i | k in rows && !Selectable(rows[k], now) && 0 <= i < |pending|
      ensures pending[i].orderId != k
    {
      assert pending[i] in pending;
    }
  }

  // ---- The threshold and the two branches on small inputs ----

  /** An amount equal to the expected one pays; one unit less does not. */
  lemma ExactAmountPays(raw: int, id: string, address: string)
    ensures TransferPays(TokenTransfer(id, Some(address), Some(raw)), address, Normalize(raw))
    ensures !TransferPays(TokenTransfer(id, Some(address), Some(raw - 1)), address, Normalize(raw))
    ensures ContractPays(TrxContract(Some("TransferContract"), Some(raw)), Normalize(raw))
    ensures !ContractPays(TrxContract(Some("TransferContract"), Some(raw - 1)), Normalize(raw))
  {
  }

  /**
   * TRX: the order is completed once per paying transaction, with one notification each when
   * it has a callback URL, and the last paying transaction's hash is the one that stays.
   */
  lemma TrxCompletesOnEveryPayment(e: Effect, cfg: Config, o: Order, txs: seq<TrxTx>, expected: real, now: nat, j: int)
    requires 0 <= j < |txs| && TxPays(txs[j], expected) && txs[j].txID != ""
    requires forall k :: j < k < |txs| ==> !TxPays(txs[k], expected)
    requires o.orderId in e.rows
    ensures var r := ApplyMatches(e, cfg, o, TrxMatches(txs, expected), now);
      && |r.callbacks| == |e.callbacks| + (if CallbackEnabled(o) then |TrxMatches(txs, expected)| else 0)
      && o.orderId in r.rows
      && r.rows[o.orderId].status == Completed
      && r.rows[o.orderId].transactionHash == Some(txs[j].txID)
  {
    var hs := TrxMatches(txs, expected);
    TrxLastMatch(txs, expected, j);
    var last := hs[|hs| - 1];
    assert last == txs[j].txID;
    ApplyMatchesRows(e, cfg, o, hs, now);
    var r := ApplyMatches(e, cfg, o, hs, now);
    assert r.rows[o.orderId].transactionHash == Some(last);
    ApplyMatchesCallbacks(e, cfg, o, hs, now);
    NotificationsCount(cfg, o, hs, now);
  }

  /** USDT: an order is completed at most once per cycle and sends at most one notification. */
  lemma UsdtCompletesOnce(e: Effect, cfg: Config, ix: Indexer, decimal: string -> real, o: Order, now: nat)
    requires o.currency == USDT
    ensures |ApplyMatches(e, cfg, o, OrderMatches(ix, decimal, o), now).callbacks| <= |e.callbacks| + 1
  {
    var hs := OrderMatches(ix, decimal, o);
    ApplyMatchesCallbacks(e, cfg, o, hs, now);
    NotificationsCount(cfg, o, hs, now);
  }

  // ---- The cycle, step by step ----

  /**
   * check_payment_confirmations: select the pending, unexpired rows, then for each one scan
   * the indexer's answer for its currency, completing the order and sending its notification
   * on each paying transfer, as the two branches' `break`s allow.
   */
  method CheckPaymentConfirmations(store: OrderStore, cfg: Config, ix: Indexer, decimal: string -> real, now: nat)
    returns (callbacks: seq<Callback>)
    requires store.Valid()
    modifies store
    ensures store.Valid() && store.ids == old(store.ids)
    ensures Effect(store.rows, callbacks) ==
      Reconcile(cfg, ix, decimal, old(store.rows), old(store.PendingOrders(now)), now)
  {
    var pending := store.PendingOrders(now);
    callbacks := [];
    for n := 0 to |pending|
      invariant store.Valid() && store.ids == old(store.ids)
      invariant ReconcileFrom(Effect(store.rows, callbacks), cfg, ix, decimal, pending[n..], now) ==
        Reconcile(cfg, ix, decimal, old(store.rows), pending, now)
    {
      assert pending[n..][1..] == pending[n + 1..];
      callbacks := CheckOrder(store, cfg, ix, decimal, pending[n], now, callbacks);
    }
  }

  /** One transaction of the TRX scan: it completes the order once if it pays, and is then done with. */
  lemma TrxStep(e: Effect, cfg: Config, o: Order, txs: seq<TrxTx>, i: int, expected: real, now: nat)
    requires 0 <= i < |txs|
    ensures ApplyMatches(e, cfg, o, TrxMatches(txs[i..], expected), now) ==
      ApplyMatches(if TxPays(txs[i], expected) then Complete(e, cfg, o, txs[i].txID, now) else e,
        cfg, o, TrxMatches(txs[i + 1..], expected), now)
  {
    assert txs[i..][0] == txs[i] && txs[i..][1..] == txs[i + 1..];
    var rest := TrxMatches(txs[i + 1..], expected);
    if TxPays(txs[i], expected) {
      assert ([txs[i].txID] + rest)[1..] == rest;
    }
  }

  /** The loop body of check_payment_confirmations for one selected order. */
  method CheckOrder(store: OrderStore, cfg: Config, ix: Indexer, decimal: string -> real, o: Order, now: nat,
    sent: seq<Callback>) returns (callbacks: seq<Callback>)
    requires store.Valid()
    modifies store
    ensures store.Valid() && store.ids == old(store.ids)
    ensures Effect(store.rows, callbacks) ==
      ApplyMatches(Effect(old(store.rows), sent), cfg, o, OrderMatches(ix, decimal, o), now)
  {
    var expected := decimal(o.amount);
    if o.currency == TRX {
      callbacks := CheckTrx(store, cfg, o, ix.accountTransactions(o.paymentAddress), expected, now, sent);
    } else {
      callbacks := CheckUsdt(store, cfg, o, ix.trc20Transfers(o.paymentAddress, USDT_CONTRACT_ADDRESS),
        expected, now, sent);
    }
  }

  /** The TRX branch: every paying transaction completes the order; `break` leaves only the contract loop. */
  method CheckTrx(store: OrderStore, cfg: Config, o: Order, txs: seq<TrxTx>, expected: real, now: nat,
    sent: seq<Callback>) returns (callbacks: seq<Callback>)
    requires store.Valid()
    modifies store
    ensures store.Valid() && store.ids == old(store.ids)
    ensures Effect(store.rows, callbacks) ==
      ApplyMatches(Effect(old(store.rows), sent), cfg, o, TrxMatches(txs, expected), now)
  {
    callbacks := sent;
    var i := 0;
    while i < |txs|
      invariant 0 <= i <= |txs|
      invariant store.Valid() && store.ids == old(store.ids)
      invariant ApplyMatches(Effect(store.rows, callbacks), cfg, o, TrxMatches(txs[i..], expected), now) ==
        ApplyMatches(Effect(old(store.rows), sent), cfg, o, TrxMatches(txs, expected), now)
    {
      ghost var before := Effect(store.rows, callbacks);
      callbacks := CheckTrxTx(store, cfg, o, txs[i], expected, now, callbacks);
      TrxStep(before, cfg, o, txs, i, expected, now);
      i := i + 1;
    }
  }

  /** One transaction of the TRX branch: the `SUCCESS` check, then the contract loop up to its `break`. */
  method CheckTrxTx(store: OrderStore, cfg: Config, o: Order, tx: TrxTx, expected: real, now: nat,
    sent: seq<Callback>) returns (callbacks: seq<Callback>)
    requires store.Valid()
    modifies store
    ensures store.Valid() && store.ids == old(store.ids)
    ensures TxPays(tx, expected) ==>
      store.rows == UpdateRow(old(store.rows), o.orderId, Completed, Some(tx.txID), now) &&
      callbacks == sent + SendCallback(cfg, o, tx.txID, now)
    ensures !TxPays(tx, expected) ==> store.rows == old(store.rows) && callbacks == sent
  {
    callbacks := sent;
    if |tx.ret| > 0 && tx.ret[0] == Some("SUCCESS") {
      var j := 0;
      while j < |tx.contracts|
        invariant 0 <= j <= |tx.contracts|
        invariant forall k :: 0 <= k < j ==> !ContractPays(tx.contracts[k], expected)
        invariant store.rows == old(store.rows) && callbacks == sent
        invariant store.Valid() && store.ids == old(store.ids)
      {
        var contract := tx.contracts[j];
        if contract.kind == Some("TransferContract") {
          var amount := Normalize(OrZero(contract.amount));
          if amount >= expected {
            assert ContractPays(tx.contracts[j], expected);
            store.UpdateOrderStatus(o.orderId, Completed, Some(tx.txID), now);
            callbacks := callbacks + SendCallback(cfg, o, tx.txID, now);
            break;
          }
        }
        j := j + 1;
      }
    }
  }

  /** The USDT branch: the first paying transfer completes the order; `break` leaves the transfer loop. */
  method CheckUsdt(store: OrderStore, cfg: Config, o: Order, transfers: seq<TokenTransfer>, expected: real,
    now: nat, sent: seq<Callback>) returns (callbacks: seq<Callback>)
    requires store.Valid()
    modifies store
    ensures store.Valid() && store.ids == old(store.ids)
    ensures Effect(store.rows, callbacks) ==
      match UsdtMatch(transfers, o.paymentAddress, expected)
      case None => Effect(old(store.rows), sent)
      case Some(h) => Complete(Effect(old(store.rows), sent), cfg, o, h, now)
  {
    callbacks := sent;
    var i := 0;
    while i < |transfers|
      invariant 0 <= i <= |transfers|
      invariant forall k :: 0 <= k < i ==> !TransferPays(transfers[k], o.paymentAddress, expected)
      invariant store.rows == old(store.rows) && callbacks == sent
      invariant store.Valid() && store.ids == old(store.ids)
    {
      var transfer := transfers[i];
      if transfer.to == Some(o.paymentAddress) {
        var amount := Normalize(OrZero(transfer.value));
        if amount >= expected {
          UsdtMatchFirst(transfers, o.paymentAddress, expected, i);
          store.UpdateOrderStatus(o.orderId, Completed, Some(transfer.transactionId), now);
          callbacks := callbacks + SendCallback(cfg, o, transfer.transactionId, now);
          break;
        }
      }
      i := i + 1;
    }
  }
}
