/**
 * The `orders` table (umpay/app.py, init_db) as an object that is updated in place,
 * with the two request handlers that touch it (create_order, query_order) and the two
 * UPDATE statements (update_order_status, expire_old_orders).
 */
module Store {
  import opened Wrappers
  import opened Signature
  import opened Orders

  /** The success answer of create_order (the QR-code URL is not modelled). */
  datatype Created = Created(paymentId: string, paymentAddress: string, amount: string, currency: Currency, expiresAt: int)

  /** The success answer of query_order. */
  datatype OrderView = OrderView(
    status: Status,
    transactionHash: Option<string>,
    amount: string,
    currency: Currency,
    createdAt: int,
    confirmedAt: Option<int>)

  function View(o: Order): OrderView {
    OrderView(o.status, o.transactionHash, o.amount, o.currency, o.createdAt, o.confirmedAt)
  }

  class OrderStore {
    /** The rows, by `order_id` (UNIQUE). */
    var rows: map<string, Order>
    /** The `order_id`s in row (insertion) order, the order in which a full scan meets them. */
    var ids: seq<string>

    ghost predicate Valid()
      reads this
    {
      && (forall i, j :: 0 <= i < j < |ids| ==> ids[i] != ids[j])
      && (forall k :: k in rows <==> k in ids)
      && (forall k :: k in rows ==> WellFormedRow(k, rows[k]))
    }

    constructor ()
      ensures Valid() && rows == map[] && ids == []
    {
      rows := map[];
      ids := [];
    }

    /**
     * create_order: the checks in order, each failure returning before the table is
     * touched; then the INSERT, which the UNIQUE constraint on `order_id` refuses for a
     * known id.
     */
    method CreateOrder(cfg: Config, data: Dict, now: int) returns (r: Result<Created, Failure>)
      requires Valid()
      modifies this
      ensures Valid()
      ensures CreateCheck(cfg, data).Err? ==>
        r == Err(CreateCheck(cfg, data).error) && rows == old(rows) && ids == old(ids)
      ensures CreateCheck(cfg, data).Ok? && CreateCheck(cfg, data).value.orderId in old(rows) ==>
        r == Err(DuplicateOrder) && rows == old(rows) && ids == old(ids)
      ensures CreateCheck(cfg, data).Ok? && CreateCheck(cfg, data).value.orderId !in old(rows) ==>
        var n := CreateCheck(cfg, data).value;
        && r == Ok(Created(n.orderId, n.paymentAddress, n.amount, n.currency, now + EXPIRE_SECONDS))
        && rows == old(rows)[n.orderId := NewRow(n, now)]
        && ids == old(ids) + [n.orderId]
    {
      var checked := ValidateCreate(cfg, data);
      if checked.Err? {
        return Err(checked.error);
      }
      var n := checked.value;
      if n.orderId in rows {
        return Err(DuplicateOrder);
      }
      rows := rows[n.orderId := NewRow(n, now)];
      ids := ids + [n.orderId];
      r := Ok(Created(n.orderId, n.paymentAddress, n.amount, n.currency, now + EXPIRE_SECONDS));
    }

    /** query_order: `payment_id`, then the signature's presence, then its value, then the lookup. */
    function QueryOrder(cfg: Config, data: Dict): (r: Result<OrderView, Failure>)
      reads this
      ensures r.Ok? <==>
        && Has(data, "payment_id")
        && Has(data, SIGNATURE_KEY)
        && Verify(cfg.digest, data, Get(data, SIGNATURE_KEY), cfg.secret)
        && Get(data, "payment_id") in rows
      ensures !Has(data, "payment_id") ==> r == Err(MissingField("payment_id"))
      ensures Has(data, "payment_id") && !Has(data, SIGNATURE_KEY) ==> r == Err(MissingSignature)
      ensures (Has(data, "payment_id") && Has(data, SIGNATURE_KEY)
               && !Verify(cfg.digest, data, Get(data, SIGNATURE_KEY), cfg.secret)) ==> r == Err(BadSignature)
      ensures r == Err(OrderNotFound) <==>
        && Has(data, "payment_id") && Has(data, SIGNATURE_KEY)
        && Verify(cfg.digest, data, Get(data, SIGNATURE_KEY), cfg.secret)
        && Get(data, "payment_id") !in rows
      ensures r.Ok? ==> r.value == View(rows[Get(data, "payment_id")])
    {
      match Lookup(data, "payment_id")
      case None => Err(MissingField("payment_id"))
      case Some(_) =>
        match Lookup(data, SIGNATURE_KEY)
        case None => Err(MissingSignature)
        case Some(signature) =>
          var rest := Without(data, SIGNATURE_KEY);
          VerifyAfterPop(cfg.digest, data, signature, cfg.secret);
          LookupWithout(data, SIGNATURE_KEY, "payment_id");
          if !Verify(cfg.digest, rest, signature, cfg.secret) then Err(BadSignature)
          else if Get(rest, "payment_id") !in rows then Err(OrderNotFound)
          else Ok(View(rows[Get(rest, "payment_id")]))
    }

    /** update_order_status: one UPDATE of the row with that `order_id`. */
    method UpdateOrderStatus(orderId: string, status: Status, hash: Option<string>, now: int)
      requires Valid()
      modifies this
      ensures Valid()
      ensures rows == UpdateRow(old(rows), orderId, status, hash, now) && ids == old(ids)
    {
      rows := UpdateRow(rows, orderId, status, hash, now);
    }

    /** expire_old_orders: one UPDATE of every pending row whose deadline has passed. */
    method ExpireOldOrders(now: int)
      requires Valid()
      modifies this
      ensures Valid()
      ensures rows == ExpireRows(old(rows), now) && ids == old(ids)
    {
      rows := ExpireRows(rows, now);
    }

    /** The reconciliation query: pending, unexpired rows in row order. */
    function PendingOrders(now: int): seq<Order>
      reads this
    {
      SelectPending(rows, ids, now)
    }
  }

  /**
   * The part of create_order before the INSERT, step by step: the loop over the
   * required fields, the signature's presence, `pop('signature')` and verification,
   * the currency, and the payment address.
   */
  method ValidateCreate(cfg: Config, data: Dict) returns (r: Result<NewOrder, Failure>)
    ensures r == CreateCheck(cfg, data)
  {
    for i := 0 to |REQUIRED_FIELDS|
      invariant forall j :: 0 <= j < i ==> Has(data, REQUIRED_FIELDS[j])
    {
      if !Has(data, REQUIRED_FIELDS[i]) {
        assert FirstMissingAt(REQUIRED_FIELDS, data, i);
        return Err(MissingField(REQUIRED_FIELDS[i]));
      }
    }
    var signature := Lookup(data, SIGNATURE_KEY);
    if signature.None? {
      return Err(MissingSignature);
    }
    var rest := Without(data, SIGNATURE_KEY);
    VerifyAfterPop(cfg.digest, data, signature.value, cfg.secret);
    if !Verify(cfg.digest, rest, signature.value, cfg.secret) {
      return Err(BadSignature);
    }
    assert Has(data, REQUIRED_FIELDS[0]) && Has(data, REQUIRED_FIELDS[1]);
    assert Has(data, REQUIRED_FIELDS[2]) && Has(data, REQUIRED_FIELDS[3]);
    LookupWithout(data, SIGNATURE_KEY, "merchant_id");
    LookupWithout(data, SIGNATURE_KEY, "order_id");
    LookupWithout(data, SIGNATURE_KEY, "amount");
    LookupWithout(data, SIGNATURE_KEY, "currency");
    LookupWithout(data, SIGNATURE_KEY, "callback_url");
    LookupWithout(data, SIGNATURE_KEY, "return_url");
    var currency := Get(rest, "currency");
    if ParseCurrency(currency).None? {
      return Err(UnsupportedCurrency);
    }
    var address := PaymentAddress(cfg, currency).value;
    r := Ok(NewOrder(Get(rest, "order_id"), Get(rest, "merchant_id"), Get(rest, "amount"),
      ParseCurrency(currency).value, address, Lookup(rest, "callback_url"), Lookup(rest, "return_url")));
  }

  /** Two creates with the same `order_id`: the first inserts, the second is refused with 400. */
  method DuplicateCreateRefused(cfg: Config, first: Dict, second: Dict, now: int)
    returns (r1: Result<Created, Failure>, r2: Result<Created, Failure>)
    requires CreateCheck(cfg, first).Ok? && CreateCheck(cfg, second).Ok?
    requires CreateCheck(cfg, first).value.orderId == CreateCheck(cfg, second).value.orderId
    ensures r1.Ok? && r2 == Err(DuplicateOrder) && StatusCode(r2.error) == 400
  {
    var store := new OrderStore();
    r1 := store.CreateOrder(cfg, first, now);
    r2 := store.CreateOrder(cfg, second, now + 1);
  }
}
