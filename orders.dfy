/**
 * The order record of the `orders` table (umpay/app.py, init_db), the static wallet
 * configuration, the request checks of create_order and the row updates that
 * update_order_status and expire_old_orders perform, as functions on values.
 */
module Orders {
  import opened Wrappers
  import opened Signature

  datatype Currency = USDT | TRX

  datatype Status = Pending | Completed | Expired

  /** ORDER_EXPIRE_MINUTES; the clock of this model counts seconds. */
  const ORDER_EXPIRE_MINUTES := 30
  const EXPIRE_SECONDS := ORDER_EXPIRE_MINUTES * 60

  /** The configuration the engine reads: the shared secret, the two wallets, and the digest (MD5). */
  datatype Config = Config(secret: string, usdtWallet: string, trxWallet: string, digest: Digest)

  /** One row of the `orders` table; `order_id` is its key. */
  datatype Order = Order(
    orderId: string,
    merchantId: string,
    amount: string,
    currency: Currency,
    paymentAddress: string,
    status: Status,
    transactionHash: Option<string>,
    callbackUrl: Option<string>,
    returnUrl: Option<string>,
    createdAt: int,
    expiresAt: int,
    confirmedAt: Option<int>)

  /** Why a request was refused. */
  datatype Failure =
    | MissingField(field: string)
    | MissingSignature
    | BadSignature
    | UnsupportedCurrency
    | DuplicateOrder
    | OrderNotFound

  /** The HTTP status the API answers a refusal with. */
  function StatusCode(f: Failure): int {
    match f
    case BadSignature => 401
    case OrderNotFound => 404
    case _ => 400
  }

  function CurrencyName(c: Currency): string {
    match c
    case USDT => "USDT"
    case TRX => "TRX"
  }

  /** The currency check of create_order: `data['currency'] in ['USDT', 'TRX']`. */
  function ParseCurrency(s: string): (r: Option<Currency>)
    ensures r.Some? ==> CurrencyName(r.value) == s
    ensures r.None? ==> forall c :: CurrencyName(c) != s
  {
    if s == "USDT" then Some(USDT)
    else if s == "TRX" then Some(TRX)
    else None
  }

  function Wallet(cfg: Config, c: Currency): string {
    match c
    case USDT => cfg.usdtWallet
    case TRX => cfg.trxWallet
  }

  /** generate_payment_address: the configured wallet of the currency; `None` where the source raises. */
  function PaymentAddress(cfg: Config, currency: string): (r: Option<string>)
    ensures r.Some? <==> ParseCurrency(currency).Some?
    ensures r.Some? ==> r.value == Wallet(cfg, ParseCurrency(currency).value)
  {
    if currency == "USDT" then Some(cfg.usdtWallet)
    else if currency == "TRX" then Some(cfg.trxWallet)
    else None
  }

  // ---- create_order: the checks before the INSERT ----

  const REQUIRED_FIELDS := ["merchant_id", "order_id", "amount", "currency"]

  /** `fields[i]` is missing from `d` and every field before it is present. */
  predicate FirstMissingAt(fields: seq<string>, d: Dict, i: int) {
    0 <= i < |fields| && !Has(d, fields[i]) && forall j :: 0 <= j < i ==> Has(d, fields[j])
  }

  /** The first of `fields` that `d` lacks, as the loop over the required fields finds it. */
  function FirstMissing(fields: seq<string>, d: Dict): (r: Option<string>)
    ensures r.None? <==> forall i :: 0 <= i < |fields| ==> Has(d, fields[i])
    ensures r.Some? ==> exists i :: FirstMissingAt(fields, d, i) && fields[i] == r.value
  {
    if fields == [] then None
    else if !Has(d, fields[0]) then
      assert FirstMissingAt(fields, d, 0);
      Some(fields[0])
    else
      var r := FirstMissing(fields[1..], d);
      assert r.Some? ==> exists i :: FirstMissingAt(fields, d, i) && fields[i] == r.value by {
        if r.Some? {
          var i :| FirstMissingAt(fields[1..], d, i) && fields[1..][i] == r.value;
          assert FirstMissingAt(fields, d, i + 1) by {
            forall j | 0 <= j < i + 1 ensures Has(d, fields[j]) {
              if j > 0 { assert fields[j] == fields[1..][j - 1]; }
            }
          }
        }
      }
      r
  }

  /** What a successful create_order inserts, before the clock is read. */
  datatype NewOrder = NewOrder(
    orderId: string,
    merchantId: string,
    amount: string,
    currency: Currency,
    paymentAddress: string,
    callbackUrl: Option<string>,
    returnUrl: Option<string>)

  /**
   * The checks of create_order in the source's order: required fields, then the
   * signature's presence, then the signature over the other fields, then the currency.
   */
  function CreateCheck(cfg: Config, data: Dict): (r: Result<NewOrder, Failure>)
    ensures r.Ok? <==>
      && FirstMissing(REQUIRED_FIELDS, data).None?
      && Has(data, SIGNATURE_KEY)
      && Verify(cfg.digest, data, Get(data, SIGNATURE_KEY), cfg.secret)
      && ParseCurrency(Get(data, "currency")).Some?
    ensures FirstMissing(REQUIRED_FIELDS, data).Some? ==>
      r == Err(MissingField(FirstMissing(REQUIRED_FIELDS, data).value))
    ensures FirstMissing(REQUIRED_FIELDS, data).None? && !Has(data, SIGNATURE_KEY) ==> r == Err(MissingSignature)
    ensures (FirstMissing(REQUIRED_FIELDS, data).None? && Has(data, SIGNATURE_KEY)
             && !Verify(cfg.digest, data, Get(data, SIGNATURE_KEY), cfg.secret)) ==> r == Err(BadSignature)
    ensures (FirstMissing(REQUIRED_FIELDS, data).None? && Has(data, SIGNATURE_KEY)
             && Verify(cfg.digest, data, Get(data, SIGNATURE_KEY), cfg.secret)
             && ParseCurrency(Get(data, "currency")).None?) ==> r == Err(UnsupportedCurrency)
    ensures r.Err? ==> StatusCode(r.error) == (if r.error == BadSignature then 401 else 400)
    ensures r.Ok? ==>
      && r.value.orderId == Get(data, "order_id")
      && r.value.merchantId == Get(data, "merchant_id")
      && r.value.amount == Get(data, "amount")
      && CurrencyName(r.value.currency) == Get(data, "currency")
      && r.value.paymentAddress == Wallet(cfg, r.value.currency)
      && r.value.callbackUrl == Lookup(data, "callback_url")
      && r.value.returnUrl == Lookup(data, "return_url")
  {
    match FirstMissing(REQUIRED_FIELDS, data)
    case Some(f) => Err(MissingField(f))
    case None =>
      assert forall i :: 0 <= i < |REQUIRED_FIELDS| ==> Has(data, REQUIRED_FIELDS[i]);
      assert Has(data, REQUIRED_FIELDS[0]) && Has(data, REQUIRED_FIELDS[1]);
      assert Has(data, REQUIRED_FIELDS[2]) && Has(data, REQUIRED_FIELDS[3]);
      match Lookup(data, SIGNATURE_KEY)
      case None => Err(MissingSignature)
      case Some(signature) =>
        var rest := Without(data, SIGNATURE_KEY);
        VerifyAfterPop(cfg.digest, data, signature, cfg.secret);
        if !Verify(cfg.digest, rest, signature, cfg.secret) then Err(BadSignature)
        else
          LookupWithout(data, SIGNATURE_KEY, "merchant_id");
          LookupWithout(data, SIGNATURE_KEY, "order_id");
          LookupWithout(data, SIGNATURE_KEY, "amount");
          LookupWithout(data, SIGNATURE_KEY, "currency");
          LookupWithout(data, SIGNATURE_KEY, "callback_url");
          LookupWithout(data, SIGNATURE_KEY, "return_url");
          var currency := Get(rest, "currency");
          if ParseCurrency(currency).None? then Err(UnsupportedCurrency)
          else
            Ok(NewOrder(
              Get(rest, "order_id"),
              Get(rest, "merchant_id"),
              Get(rest, "amount"),
              ParseCurrency(currency).value,
              PaymentAddress(cfg, currency).value,
              Lookup(rest, "callback_url"),
              Lookup(rest, "return_url")))
  }

  /** The row the INSERT adds: `status` defaults to pending, no hash, expiry 30 minutes on. */
  function NewRow(n: NewOrder, now: int): (o: Order)
    ensures o.orderId == n.orderId && o.status == Pending
    ensures o.transactionHash == None && o.confirmedAt == None
    ensures o.createdAt == now && o.expiresAt == now + EXPIRE_SECONDS
  {
    Order(n.orderId, n.merchantId, n.amount, n.currency, n.paymentAddress,
      Pending, None, n.callbackUrl, n.returnUrl, now, now + EXPIRE_SECONDS, None)
  }

  // ---- Row invariants and updates ----

  /** Two versions of a row that agree on everything but status, hash and confirmation time. */
  predicate SameOrder(a: Order, b: Order) {
    && a.orderId == b.orderId
    && a.merchantId == b.merchantId
    && a.amount == b.amount
    && a.currency == b.currency
    && a.paymentAddress == b.paymentAddress
    && a.callbackUrl == b.callbackUrl
    && a.returnUrl == b.returnUrl
    && a.createdAt == b.createdAt
    && a.expiresAt == b.expiresAt
  }

  /** What every stored row satisfies. */
  predicate WellFormedRow(k: string, o: Order) {
    && o.orderId == k
    && o.expiresAt == o.createdAt + EXPIRE_SECONDS
    && (o.transactionHash.Some? <==> o.confirmedAt.Some?)
  }

  /** Only a completed order carries a transaction hash. */
  predicate HashImpliesCompleted(rows: map<string, Order>) {
    forall k :: k in rows && rows[k].transactionHash.Some? ==> rows[k].status == Completed
  }

  /** Python truthiness of an optional string: present and not empty. */
  predicate Truthy(h: Option<string>) {
    h.Some? && h.value != ""
  }

  /**
   * update_order_status: with a (truthy) hash, set status, hash and confirmation time;
   * without one, set the status only. A missing id changes nothing, and the current
   * status is not checked.
   */
  function UpdateRow(rows: map<string, Order>, id: string, status: Status, hash: Option<string>, now: int)
    : (r: map<string, Order>)
    ensures r.Keys == rows.Keys
    ensures forall k :: k in rows && k != id ==> r[k] == rows[k]
    ensures id in rows ==> SameOrder(r[id], rows[id]) && r[id].status == status
    ensures id in rows && Truthy(hash) ==> r[id].transactionHash == hash && r[id].confirmedAt == Some(now)
    ensures id in rows && !Truthy(hash) ==>
      r[id].transactionHash == rows[id].transactionHash && r[id].confirmedAt == rows[id].confirmedAt
  {
    if id !in rows then rows
    else if Truthy(hash) then rows[id := rows[id].(status := status, transactionHash := hash, confirmedAt := Some(now))]
    else rows[id := rows[id].(status := status)]
  }

  /** expire_old_orders: every pending row whose deadline has passed becomes expired. */
  function ExpireRows(rows: map<string, Order>, now: int): (r: map<string, Order>)
    ensures r.Keys == rows.Keys
    ensures forall k :: k in rows ==>
      SameOrder(r[k], rows[k]) && r[k].transactionHash == rows[k].transactionHash && r[k].confirmedAt == rows[k].confirmedAt
    ensures forall k :: k in rows ==>
      (r[k].status != rows[k].status <==> rows[k].status == Pending && rows[k].expiresAt <= now)
    ensures forall k :: k in rows && r[k].status != rows[k].status ==> r[k].status == Expired
  {
    map k | k in rows :: if rows[k].status == Pending && rows[k].expiresAt <= now then rows[k].(status := Expired) else rows[k]
  }

  /** A second sweep with the same clock changes nothing. */
  lemma ExpireIdempotent(rows: map<string, Order>, now: int)
    ensures ExpireRows(ExpireRows(rows, now), now) == ExpireRows(rows, now)
  {
    var once := ExpireRows(rows, now);
    var twice := ExpireRows(once, now);
    assert forall k :: k in once ==> twice[k] == once[k];
  }

  /** After a sweep no row is both pending and past its deadline, and the hash invariant survives. */
  lemma ExpireSweepsAll(rows: map<string, Order>, now: int)
    ensures forall k :: k in ExpireRows(rows, now) ==>
      !(ExpireRows(rows, now)[k].status == Pending && ExpireRows(rows, now)[k].expiresAt <= now)
    ensures HashImpliesCompleted(rows) ==> HashImpliesCompleted(ExpireRows(rows, now))
  {
  }

  /** The WHERE clause of the reconciliation query: pending and not yet expired. */
  predicate Selectable(o: Order, now: int) {
    o.status == Pending && o.expiresAt > now
  }

  /**
   * A new order is open to reconciliation for exactly 30 minutes, and the expiry sweep
   * takes it at the first clock reading that is not before its deadline.
   */
  lemma NewOrderLifetime(n: NewOrder, now: int, t: int)
    ensures Selectable(NewRow(n, now), t) <==> t < now + EXPIRE_SECONDS
    ensures ExpireRows(map[n.orderId := NewRow(n, now)], t)[n.orderId].status ==
      if t < now + EXPIRE_SECONDS then Pending else Expired
  {
  }

  /** The rows, in row order, that the reconciliation query returns. */
  function SelectPending(rows: map<string, Order>, ids: seq<string>, now: int): (r: seq<Order>)
    ensures forall o :: o in r ==> exists k :: k in ids && k in rows && rows[k] == o && Selectable(o, now)
    ensures forall k :: k in ids && k in rows && Selectable(rows[k], now) ==> rows[k] in r
  {
    if ids == [] then []
    else
      var rest := SelectPending(rows, ids[1..], now);
      assert forall k :: k in ids[1..] ==> k in ids;
      assert forall k :: k in ids ==> k == ids[0] || k in ids[1..];
      if ids[0] in rows && Selectable(rows[ids[0]], now) then [rows[ids[0]]] + rest else rest
  }
}
