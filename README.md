# umpay payment engine — a Dafny model

umpay is a small TRON payment gateway. A merchant creates a payment order for an amount in
USDT (a TRC20 token) or TRX. The engine hands back the configured wallet address. A periodic
reconciliation cycle then asks a chain indexer for the transfers to that address. It completes
the order when a transfer reaches the expected amount, and it notifies the merchant with a
signed callback. Orders that stay unpaid for 30 minutes are expired by a second periodic sweep.
Merchant requests and callbacks are authenticated by one scheme: an MD5 digest over the sorted
`k=v` pairs of the request and a shared secret.

The model covers `umpay/app.py`, in seven modules:

- `Wrappers` (wrappers.dfy): `Option` and `Result`.
- `Text` (text.dfy): Python's `<` on strings, which `sorted` uses on the items, and the decimal text of the callback `timestamp`.
- `Signature` (signature.dfy): a request dict is its items in insertion order. This module holds the signing string, `generate_signature` and `verify_signature`. The MD5 digest is a function parameter.
- `Orders` (orders.dfy): the row of the `orders` table and the wallet configuration. It also holds the checks of `create_order` in their order and the status codes they answer with. The UPDATE statements of `update_order_status` and `expire_old_orders` are functions on the table here.
- `Callbacks` (callback.dfy): the payload `send_callback` builds and signs, and the URL it goes to.
- `Store` (store.dfy): the table as a class `OrderStore` whose `rows` map is updated in place. Its methods are `create_order` (validation loop, then the INSERT under the UNIQUE key), `query_order`, `update_order_status` and `expire_old_orders`.
- `Reconcile` (reconcile.dfy): `check_payment_confirmations`. The indexer data is input. A specification of a cycle is given as functions on values. The method `CheckPaymentConfirmations` runs the source's nested loops with their two different `break`s against the store, and is proved equal to that specification.

The clock is one integer `now` in seconds, passed in. The indexer's answers are functions from
the query to the sequence of records in `data`. Order amounts arrive already parsed, as a
function `decimal` from the stored amount text to a real number. Raw chain amounts are
integers, divided by 10^6 exactly.

### Behaviour of the code that the model keeps

- The TRX `break` (umpay/app.py:377) leaves only the loop over one transaction's contracts. So **every** successful transaction with a paying `TransferContract` completes the order again and sends another callback, and the last one's hash stays stored. A scan that stops at the first match, with a single callback, is what happens only for USDT, whose `break` (umpay/app.py:391) leaves the transfer loop.
- The TRX branch does not look at a contract's recipient. Any successful `TransferContract` in the wallet's transaction list whose amount is high enough counts, whatever its direction.
- A transaction id is never recorded as claimed. The same transfer can complete two orders with the same address and a lower or equal amount.
- `update_order_status` tests `if transaction_hash:`. An empty id changes the status but not the hash or the confirmation time.
- `created_at` is SQLite's UTC `CURRENT_TIMESTAMP`, but `expires_at` is the local `datetime.now()`. The model uses one clock for both, so it describes a server that runs on UTC.

## Model

| member | source | states |
|---|---|---|
| Signature.Lookup | umpay/app.py:141 | `d.get(k)`: a found value is the value of a `(k, v)` item of the dict |
| Signature.LookupFinds | umpay/app.py:140-141 | `field in data` holds exactly when some item of the dict has that key, so the lookup finds it |
| Signature.Without | umpay/app.py:102 | the filter `k != 'signature'` keeps exactly the items with another key |
| Signature.LookupWithout | umpay/app.py:154 | after `pop('signature')` every other field reads as before |
| Signature.WithoutMultiset | umpay/app.py:102 | the filter keeps each item as often as it occurs and drops every `signature` item |
| Signature.PairOrder | umpay/app.py:102 | the order `sorted` uses on `(key, value)` items is a total order |
| Signature.InsertSorted | umpay/app.py:102 | inserting into a sorted item list keeps it sorted and adds exactly that item |
| Signature.SortSorted | umpay/app.py:102 | the sort yields a sorted permutation of the items |
| Signature.SortedUnique | umpay/app.py:102 | two sorted arrangements of the same items are equal, so the sorted order is canonical |
| Signature.SignStringCanonical | umpay/app.py:102-106 | the signing string is the join of THE sorted arrangement of the `signature`-free items, then `&key=` and the secret |
| Signature.SignStringOrderIndependent | umpay/app.py:102-106 | dicts with the same items in any insertion order give the same signing string |
| Signature.SignStringOfFiltered | umpay/app.py:102-106 | the signing string depends only on the items that are not `signature` |
| Signature.SignStringIgnoresSignature | umpay/app.py:102-106 | a `signature` item anywhere in the dict leaves the signing string unchanged |
| Signature.VerifyAfterPop | umpay/app.py:111-114 | verifying the dict after `pop('signature')` gives the same answer as verifying the whole dict (see also lines 154-155) |
| Signature.VerifySign | umpay/app.py:99-114 | round trip: the signature generated for a dict verifies against it |
| Signature.SignedVerifies | umpay/app.py:438-439 | a dict with its own signature attached under the new key `signature` carries that signature, and verifies once it is popped |
| Text.LessTotal | umpay/app.py:102 | Python's string order ranks any two different keys |
| Text.LessTransitive | umpay/app.py:102 | Python's string order is transitive |
| Text.NatToString | umpay/app.py:435 | the `timestamp` text is a non-empty run of digits that reads back as the clock value, with no leading zero (a single `0` only for zero) |
| Orders.ParseCurrency | umpay/app.py:162-166 | the currency check accepts exactly the texts `USDT` and `TRX`, and names the accepted currency |
| Orders.PaymentAddress | umpay/app.py:116-123 | the address is the configured wallet of the currency; any other currency has none (the source raises) |
| Orders.FirstMissing | umpay/app.py:139-145 | the field reported is the first required field missing; none is reported iff all are present |
| Orders.CreateCheck | umpay/app.py:139-169 | a request is accepted iff all four fields are present, a signature is present and verifies, and the currency is USDT or TRX. Each refusal is pinned in that order: the first missing field (400), a missing signature (400), a bad signature (401), an unsupported currency (400). An accepted request yields the fields, the wallet address and the optional URLs |
| Orders.NewRow | umpay/app.py:172-192 | the inserted row is pending, has no hash and no confirmation time, and expires 30 minutes after it is created (see also the table at lines 62-72) |
| Orders.NewOrderLifetime | umpay/app.py:349-353 | a new order is selectable for reconciliation exactly before its 30 minutes are up, and the expiry sweep turns it to expired from then on (see also lines 172 and 456-461) |
| Orders.UpdateRow | umpay/app.py:404-415 | only the target row changes; its order data is kept; its status is set; with a non-empty hash the hash and confirmation time are set, otherwise they are kept; a missing id changes nothing; the current status is not checked |
| Orders.ExpireRows | umpay/app.py:456-461 | a row's status changes iff it is pending and its deadline has passed, and then it becomes expired; nothing else changes |
| Orders.ExpireIdempotent | umpay/app.py:456-461 | a second sweep with the same clock changes nothing |
| Orders.ExpireSweepsAll | umpay/app.py:456-461 | after a sweep no row is pending past its deadline, and only completed rows still carry a hash |
| Orders.SelectPending | umpay/app.py:349-354 | the reconciliation query returns exactly the stored rows that are pending with a deadline still ahead |
| Callbacks.PayloadUnsigned | umpay/app.py:429-436 | the callback payload has no `signature` field before it is signed |
| Callbacks.SignedPayloadFields | umpay/app.py:429-439 | the signed payload carries the order id, status `completed` and the transaction hash |
| Callbacks.SendCallback | umpay/app.py:426-442 | no notification without a (non-empty) callback URL, else exactly one, to that URL, naming the order, `completed` and the hash |
| Callbacks.SendCallbackPayload | umpay/app.py:429-439 | the notification's payload has seven items: `order_id`, `status` `completed`, `transaction_hash`, `amount`, `currency` and the decimal `timestamp` of the clock, plus the signature |
| Callbacks.SendCallbackReceivable | umpay/app.py:429-439 | the notification passes the merchant's check: pop `signature`, verify the rest against it (see also lines 111-114) |
| Store.OrderStore.constructor | umpay/app.py:59-75 | the table starts empty |
| Store.OrderStore.CreateOrder | umpay/app.py:133-216 | a refused request answers the failure of the checks and leaves the table unchanged; a known `order_id` answers `DuplicateOrder` and leaves it unchanged; otherwise exactly one pending row is added under the new id and the answer repeats the id, address, amount, currency and expiry |
| Store.OrderStore.QueryOrder | umpay/app.py:226-273 | answered iff `payment_id` and a valid signature are present and the id is stored. Refusals come in order: missing `payment_id` 400, missing signature 400, bad signature 401, unknown id 404. The answer is the stored row's status, hash, amount, currency and times |
| Store.OrderStore.UpdateOrderStatus | umpay/app.py:398-415 | the table becomes `UpdateRow` of the old table (see its frame) and stays valid |
| Store.OrderStore.ExpireOldOrders | umpay/app.py:450-461 | the table becomes `ExpireRows` of the old table and stays valid |
| Store.ValidateCreate | umpay/app.py:139-169 | the loop over the required fields, the signature check after `pop` and the currency check compute exactly `CreateCheck` |
| Store.DuplicateCreateRefused | umpay/app.py:194-198 | a second create with an existing `order_id` is refused as a duplicate with status 400 after the first succeeded (see also the UNIQUE key at line 62) |
| Reconcile.Normalize | umpay/app.py:371 | the normalised amount is the raw amount divided by 10^6 exactly (see also line 385) |
| Reconcile.NormalizeThreshold | umpay/app.py:373 | a raw amount pays iff it reaches 10^6 times the expected amount (see also line 387) |
| Reconcile.ExactAmountPays | umpay/app.py:366-373 | an amount equal to the expected one completes the order in both branches; one unit less does not (see also lines 384-387) |
| Reconcile.TrxMatches | umpay/app.py:365-377 | the TRX matches are the ids of every successful transaction with a paying `TransferContract`, and only those; none iff no transaction pays |
| Reconcile.TrxLastMatch | umpay/app.py:365-377 | the last TRX match is the last paying transaction |
| Reconcile.UsdtMatch | umpay/app.py:383-391 | the USDT match is the id of the first transfer to the order's address that pays; none iff no transfer does |
| Reconcile.UsdtMatchFirst | umpay/app.py:383-391 | the first paying transfer is the match whatever follows it |
| Reconcile.OrderMatches | umpay/app.py:356-391 | a USDT order is completed at most once per cycle |
| Reconcile.TrxCompletesOnEveryPayment | umpay/app.py:365-377 | a TRX order is completed once per paying transaction, with one callback each when it has a URL, and the last paying transaction's hash stays stored |
| Reconcile.UsdtCompletesOnce | umpay/app.py:379-391 | a USDT order sends at most one callback per cycle |
| Reconcile.ApplyMatchesRows | umpay/app.py:404-409 | an order's completions touch only its row, keep its order data, set it completed, and, when the last id is non-empty, leave it as the hash, confirmed now (see also the calls at lines 375 and 389) |
| Reconcile.ApplyMatchesHash | umpay/app.py:404-409 | after an order's completions its hash is the last non-empty id, confirmed now; when every id is empty the hash and confirmation time are kept |
| Reconcile.ApplyMatchesKeepsWellFormed | umpay/app.py:404-409 | completions keep every row's hash and confirmation time set together |
| Reconcile.ApplyMatchesCallbacks | umpay/app.py:376 | an order's completions append exactly its notifications to those already sent (see also line 390) |
| Reconcile.NotificationsCount | umpay/app.py:376 | one notification per completion when the order has a callback URL, none otherwise (see also lines 426-427) |
| Reconcile.NotificationsContent | umpay/app.py:429-439 | the i-th notification is `send_callback`'s for the i-th matching id (see also the call at line 376) |
| Reconcile.ReconcileRows | umpay/app.py:356-391 | a cycle keeps the set of rows and each row's order data, only ever sets a row to completed, and leaves alone every row that no selected order names |
| Reconcile.ReconcileKeepsHashImpliesCompleted | umpay/app.py:356-391 | if only completed rows carried a hash before a cycle, the same holds after it (see also lines 404-409) |
| Reconcile.ReconcileCallbacks | umpay/app.py:376 | a cycle keeps the notifications sent before it, and every one it adds verifies and says `completed` (see also lines 390, 429-439) |
| Reconcile.ReconcileOnlySelected | umpay/app.py:349-354 | a row that is not pending, or whose deadline has passed, comes out of a cycle unchanged |
| Reconcile.TrxStep | umpay/app.py:365-377 | one TRX transaction completes the order once if it pays and otherwise does nothing |
| Reconcile.CheckPaymentConfirmations | umpay/app.py:342-391 | the loop over the selected orders leaves the table and the sent notifications exactly as the cycle specification `Reconcile` says |
| Reconcile.CheckOrder | umpay/app.py:356-391 | one selected order: the branch for its currency has exactly the effect of its matches |
| Reconcile.CheckTrx | umpay/app.py:361-377 | the TRX loop over transactions completes the order once for each paying transaction, in order |
| Reconcile.CheckTrxTx | umpay/app.py:366-377 | for one transaction: if it pays, exactly one update and one callback with its id; otherwise nothing changes |
| Reconcile.CheckUsdt | umpay/app.py:379-391 | the USDT loop with `break` has the effect of the first paying transfer only, or none |

## Left out

- Flask plumbing: routing, JSON bodies, CORS, the `index`, `health_check` and placeholder `webhook` routes, and every `500` answer from an exception. Only the outcomes and their status codes are modelled.
- Values in a request are strings. A JSON `null`, number or nested value in a field is not modelled.
- Network: the TronGrid GETs are the `Indexer` input. A failed query, or an answer without `data`, is the empty sequence. The callback POST is the emitted `Callback` record, and its failure (which the source only logs) is not modelled.
- MD5 is the uninterpreted `digest` parameter of the configuration. `hmac.compare_digest` is plain string equality: its constant timing cannot be stated, and the `TypeError` it raises for a signature with non-ASCII characters (a 500 answer in the source) is a 401 `BadSignature` here.
- SQLite mechanics: connections and transactions. The never-written `transactions` table and the `AUTOINCREMENT` row id are not modelled; insertion order stands in for row order.
- Reconcile.CheckPaymentConfirmations: `Decimal(order['amount'])` is the total parameter `decimal`. An amount text that does not parse raises inside the cycle's `try` and ends the cycle early; that path is not modelled. Neither are non-integer raw chain values or the precision of Python's decimal context.
- The QR-code URL of `create_order` is not part of the answer `Created`.
- The scheduler thread, which runs the reconciliation cycle every 30 seconds and the expiry sweep every 5 minutes (umpay/app.py:472-473), is not modelled; each run is one method call with the current clock.
- umpay/index.py and umpay/wsgi.py hold no engine logic and are not part of this model.
- Store.OrderStore.CreateOrder: `created_at` and `expires_at` use one clock here, while the source mixes UTC and local time.
- Reconcile.CheckPaymentConfirmations: the source queries the indexer afresh for each order, so two orders with the same address can see different answers within one cycle. The model's `Indexer` is a function of the query, so one cycle gets the same answer for the same address.
- Reconcile.CheckPaymentConfirmations: the source reads the clock at each update (`datetime('now')`) and each callback (`time.time()`). The model uses the single `now` of the cycle for all of them.
- Reconcile.CheckPaymentConfirmations: an indexer record without `txID` or `transaction_id` raises at the update, and the outer `try` ends the cycle. The `TrxTx` and `TokenTransfer` types always carry an id, so that path is not modelled.
- Store.OrderStore.constructor: it models a fresh database. `CREATE TABLE IF NOT EXISTS` on an existing file keeps its rows, which the model does not capture.
