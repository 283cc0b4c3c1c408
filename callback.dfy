/**
 * The completion notification of send_callback (umpay/app.py): the payload it builds,
 * signed over its own fields, and the URL it is posted to. The POST itself is I/O and
 * is represented by the emitted `Callback` record.
 */
module Callbacks {
  import opened Wrappers
  import opened Signature
  import opened Orders
  import Text

  datatype Callback = Callback(url: string, payload: Dict)

  /** `if not order['callback_url']: return` skips orders without a (non-empty) URL. */
  predicate CallbackEnabled(o: Order) {
    Truthy(o.callbackUrl)
  }

  /** `callback_data` before its signature is attached; `timestamp` is the clock in seconds. */
  function Payload(o: Order, hash: string, now: nat): Dict {
    [("order_id", o.orderId),
     ("status", "completed"),
     ("transaction_hash", hash),
     ("amount", o.amount),
     ("currency", CurrencyName(o.currency)),
     ("timestamp", Text.NatToString(now))]
  }

  /** What a merchant checks on receipt: pop `signature`, verify the rest against it. */
  predicate Receivable(cfg: Config, c: Callback) {
    Has(c.payload, SIGNATURE_KEY)
    && Verify(cfg.digest, Without(c.payload, SIGNATURE_KEY), Get(c.payload, SIGNATURE_KEY), cfg.secret)
  }

  lemma PayloadUnsigned(o: Order, hash: string, now: nat)
    ensures !Has(Payload(o, hash, now), SIGNATURE_KEY)
  {
    var p := Payload(o, hash, now);
    assert p[1..][1..][1..][1..][1..][1..] == [];
  }

  lemma SignedPayloadFields(cfg: Config, o: Order, hash: string, now: nat)
    ensures var s := Signed(cfg.digest, Payload(o, hash, now), cfg.secret);
      && Lookup(s, "order_id") == Some(o.orderId)
      && Lookup(s, "status") == Some("completed")
      && Lookup(s, "transaction_hash") == Some(hash)
  {
    var s := Signed(cfg.digest, Payload(o, hash, now), cfg.secret);
    PayloadUnsigned(o, hash, now);
    assert s[0] == ("order_id", o.orderId);
    assert s[1..][0] == ("status", "completed");
    assert s[1..][1..][0] == ("transaction_hash", hash);
    assert "status"[0] != "order_id"[0];
    assert "transaction_hash"[0] != "order_id"[0] && "transaction_hash"[0] != "status"[0];
    LookupNext(s, "status");
    LookupNext(s, "transaction_hash");
    LookupNext(s[1..], "transaction_hash");
  }

  /** The last three fields of the payload, whatever single item is appended after them. */
  lemma PayloadRestLookups(o: Order, hash: string, now: nat, q: Pair)
    ensures var s := Payload(o, hash, now) + [q];
      && |s| == 7
      && Lookup(s, "amount") == Some(o.amount)
      && Lookup(s, "currency") == Some(CurrencyName(o.currency))
      && Lookup(s, "timestamp") == Some(Text.NatToString(now))
  {
    var s := Payload(o, hash, now) + [q];
    assert s[0].0 == "order_id" && s[1].0 == "status" && s[2].0 == "transaction_hash";
    assert s[3] == ("amount", o.amount);
    assert s[4] == ("currency", CurrencyName(o.currency));
    assert s[5] == ("timestamp", Text.NatToString(now));
    assert "order_id"[0] == 'o' && "status"[0] == 's' && "transaction_hash"[1] == 'r';
    assert "amount"[0] == 'a' && "currency"[0] == 'c' && "timestamp"[1] == 'i';
    LookupAt(s, 3);
    LookupAt(s, 4);
    LookupAt(s, 5);
  }

  lemma SignedPayloadRest(cfg: Config, o: Order, hash: string, now: nat)
    ensures var s := Signed(cfg.digest, Payload(o, hash, now), cfg.secret);
      && |s| == 7
      && Lookup(s, "amount") == Some(o.amount)
      && Lookup(s, "currency") == Some(CurrencyName(o.currency))
      && Lookup(s, "timestamp") == Some(Text.NatToString(now))
  {
    PayloadRestLookups(o, hash, now, (SIGNATURE_KEY, Sign(cfg.digest, Payload(o, hash, now), cfg.secret)));
  }

  /** send_callback: nothing for an order without callback URL, otherwise one signed notification. */
  function SendCallback(cfg: Config, o: Order, hash: string, now: nat): (r: seq<Callback>)
    ensures |r| == if CallbackEnabled(o) then 1 else 0
    ensures r != [] ==> r[0].url == o.callbackUrl.value
    ensures r != [] ==> Lookup(r[0].payload, "order_id") == Some(o.orderId)
    ensures r != [] ==> Lookup(r[0].payload, "status") == Some("completed")
    ensures r != [] ==> Lookup(r[0].payload, "transaction_hash") == Some(hash)
  {
    if !CallbackEnabled(o) then []
    else
      var p := Payload(o, hash, now);
      SignedPayloadFields(cfg, o, hash, now);
      [Callback(o.callbackUrl.value, Signed(cfg.digest, p, cfg.secret))]
  }

  /**
   * The notification's payload: the six fields of `callback_data` with their values, and
   * one more item, the signature (see SendCallbackReceivable).
   */
  lemma SendCallbackPayload(cfg: Config, o: Order, hash: string, now: nat)
    requires CallbackEnabled(o)
    ensures var c := SendCallback(cfg, o, hash, now)[0];
      && |c.payload| == 7
      && Lookup(c.payload, "order_id") == Some(o.orderId)
      && Lookup(c.payload, "status") == Some("completed")
      && Lookup(c.payload, "transaction_hash") == Some(hash)
      && Lookup(c.payload, "amount") == Some(o.amount)
      && Lookup(c.payload, "currency") == Some(CurrencyName(o.currency))
      && Lookup(c.payload, "timestamp") == Some(Text.NatToString(now))
  {
    SignedPayloadRest(cfg, o, hash, now);
  }

  /** The notification passes the merchant's check: verify round trip for the callback payload. */
  lemma SendCallbackReceivable(cfg: Config, o: Order, hash: string, now: nat)
    requires CallbackEnabled(o)
    ensures Receivable(cfg, SendCallback(cfg, o, hash, now)[0])
  {
    var p := Payload(o, hash, now);
    PayloadUnsigned(o, hash, now);
    SignedVerifies(cfg.digest, p, cfg.secret);
  }
}
