/**
 * The request-signing scheme of the payment API (umpay/app.py, generate_signature and
 * verify_signature): the parameters other than `signature` are sorted, joined as
 * `k=v` pairs with `&`, the shared secret is appended as `&key=<secret>`, and the
 * result is digested. The digest (upper-case hex MD5 in the source) is a parameter.
 */
module Signature {
  import opened Wrappers
  import Text

  type Pair = (string, string)

  /** The items of a Python dict, in insertion order. */
  type Dict = seq<Pair>

  /** A digest function from the signing string to the signature text. */
  type Digest = string -> string

  const SIGNATURE_KEY := "signature"

  /** `d.get(k)`: the value of the first item with key `k`. */
  function Lookup(d: Dict, k: string): (r: Option<string>)
    ensures r.Some? ==> (k, r.value) in d
  {
    if d == [] then None
    else if d[0].0 == k then Some(d[0].1)
    else Lookup(d[1..], k)
  }

  /** `k in d`: the lookup finds a value exactly when some item has the key. */
  lemma {:induction false} LookupFinds(d: Dict, k: string)
    ensures Lookup(d, k).None? <==> forall p :: p in d ==> p.0 != k
  {
    if d != [] && d[0].0 != k {
      LookupFinds(d[1..], k);
      assert forall p :: p in d ==> p == d[0] || p in d[1..];
    }
  }

  /** The value found is that of the first item with the key. */
  lemma {:induction false} LookupAt(d: Dict, i: int)
    requires 0 <= i < |d|
    requires forall j :: 0 <= j < i ==> d[j].0 != d[i].0
    ensures Lookup(d, d[i].0) == Some(d[i].1)
  {
    if i > 0 {
      forall j | 0 <= j < i - 1 ensures d[1..][j].0 != d[1..][i - 1].0 {
        assert d[1..][j] == d[j + 1];
      }
      LookupAt(d[1..], i - 1);
    }
  }

  lemma LookupNext(d: Dict, k: string)
    requires d != [] && d[0].0 != k
    ensures Lookup(d, k) == Lookup(d[1..], k)
  {
  }

  predicate Has(d: Dict, k: string) {
    Lookup(d, k).Some?
  }

  /** `d[k]`, for a key that is present. */
  function Get(d: Dict, k: string): string
    requires Has(d, k)
  {
    Lookup(d, k).value
  }

  /** The items whose key is not `k`, in their order: `d.pop(k)`, or the filter of a comprehension. */
  function Without(d: Dict, k: string): (r: Dict)
    ensures forall p :: p in r <==> p in d && p.0 != k
  {
    if d == [] then []
    else (if d[0].0 == k then [] else [d[0]]) + Without(d[1..], k)
  }

  lemma {:induction false} LookupWithout(d: Dict, k: string, other: string)
    requires other != k
    ensures Lookup(Without(d, k), other) == Lookup(d, other)
  {
    if d != [] {
      LookupWithout(d[1..], k, other);
      var rest := Without(d[1..], k);
      if d[0].0 == k {
        assert Without(d, k) == rest;
      } else {
        assert Without(d, k) == [d[0]] + rest;
        assert ([d[0]] + rest)[1..] == rest;
      }
    }
  }

  lemma {:induction false} LookupAppend(d: Dict, p: Pair)
    requires !Has(d, p.0)
    ensures Lookup(d + [p], p.0) == Some(p.1)
  {
    if d != [] {
      assert (d + [p])[1..] == d[1..] + [p];
      LookupAppend(d[1..], p);
    }
  }

  lemma {:induction false} WithoutAppend(a: Dict, b: Dict, k: string)
    ensures Without(a + b, k) == Without(a, k) + Without(b, k)
  {
    if a == [] {
      assert a + b == b;
    } else {
      assert (a + b)[1..] == a[1..] + b;
      WithoutAppend(a[1..], b, k);
    }
  }

  lemma {:induction false} WithoutIdempotent(d: Dict, k: string)
    ensures Without(Without(d, k), k) == Without(d, k)
  {
    if d != [] {
      WithoutIdempotent(d[1..], k);
      var rest := Without(d[1..], k);
      if d[0].0 == k {
        assert Without(d, k) == rest;
      } else {
        var w := Without(d, k);
        assert w == [d[0]] + rest;
        assert w[0] == d[0] && w[1..] == rest;
        assert Without(w, k) == [d[0]] + Without(rest, k);
      }
    }
  }

  /** How often each item occurs after the filter depends only on how often it occurs before. */
  lemma {:induction false} WithoutMultiset(d: Dict, k: string)
    ensures forall p :: multiset(Without(d, k))[p] == if p.0 == k then 0 else multiset(d)[p]
  {
    if d != [] {
      WithoutMultiset(d[1..], k);
      assert d == [d[0]] + d[1..];
      assert multiset(d) == multiset{d[0]} + multiset(d[1..]);
    }
  }

  // ---- Sorting the items: Python compares (key, value) tuples lexicographically ----

  predicate PairLess(p: Pair, q: Pair) {
    Text.Less(p.0, q.0) || (p.0 == q.0 && Text.Less(p.1, q.1))
  }

  predicate PairLeq(p: Pair, q: Pair) {
    p == q || PairLess(p, q)
  }

  /** `PairLeq` is a total order. */
  lemma PairOrder()
    ensures forall p, q, r :: PairLeq(p, q) && PairLeq(q, r) ==> PairLeq(p, r)
    ensures forall p, q :: PairLeq(p, q) || PairLeq(q, p)
    ensures forall p, q :: PairLeq(p, q) && PairLeq(q, p) ==> p == q
  {
    forall p: Pair, q: Pair, r: Pair | PairLeq(p, q) && PairLeq(q, r)
      ensures PairLeq(p, r)
    {
      if p != q && q != r {
        if Text.Less(p.0, q.0) && Text.Less(q.0, r.0) {
          Text.LessTransitive(p.0, q.0, r.0);
        } else if p.0 == q.0 && q.0 == r.0 {
          Text.LessTransitive(p.1, q.1, r.1);
        }
      }
    }
    forall p: Pair, q: Pair
      ensures PairLeq(p, q) || PairLeq(q, p)
    {
      if p != q {
        if p.0 != q.0 {
          Text.LessTotal(p.0, q.0);
        } else {
          Text.LessTotal(p.1, q.1);
        }
      }
    }
    forall p: Pair, q: Pair | PairLeq(p, q) && PairLeq(q, p)
      ensures p == q
    {
      if p != q {
        if Text.Less(p.0, q.0) {
          Text.LessAsymmetric(p.0, q.0);
          Text.LessIrreflexive(p.0);
        } else {
          Text.LessAsymmetric(p.1, q.1);
          Text.LessIrreflexive(q.0);
        }
      }
    }
  }

  predicate Sorted(s: seq<Pair>) {
    forall i, j :: 0 <= i < j < |s| ==> PairLeq(s[i], s[j])
  }

  /** Inserts `x` before the first element it does not exceed. */
  function Insert(x: Pair, s: seq<Pair>): seq<Pair> {
    if s == [] then [x]
    else if PairLeq(x, s[0]) then [x] + s
    else [s[0]] + Insert(x, s[1..])
  }

  /** Python's `sorted` on the items (an insertion sort here; the result is the same). */
  function Sort(s: seq<Pair>): seq<Pair> {
    if s == [] then [] else Insert(s[0], Sort(s[1..]))
  }

  lemma {:induction false} InsertSorted(x: Pair, s: seq<Pair>)
    requires Sorted(s)
    ensures Sorted(Insert(x, s))
    ensures multiset(Insert(x, s)) == multiset(s) + multiset{x}
  {
    PairOrder();
    if s != [] && !PairLeq(x, s[0]) {
      assert s == [s[0]] + s[1..];
      InsertSorted(x, s[1..]);
      var t := Insert(x, s[1..]);
      assert Insert(x, s) == [s[0]] + t;
      forall j | 0 <= j < |t| ensures PairLeq(s[0], t[j]) {
        assert t[j] in multiset(t);
        assert t[j] == x || t[j] in multiset(s[1..]);
        if t[j] != x {
          var k :| 0 <= k < |s[1..]| && s[1..][k] == t[j];
          assert s[k + 1] == t[j];
        }
      }
    }
  }

  /** The sort orders the items and keeps every one of them. */
  lemma {:induction false} SortSorted(s: seq<Pair>)
    ensures Sorted(Sort(s))
    ensures multiset(Sort(s)) == multiset(s)
  {
    if s != [] {
      assert s == [s[0]] + s[1..];
      SortSorted(s[1..]);
      InsertSorted(s[0], Sort(s[1..]));
    }
  }

  /** A multiset has exactly one sorted arrangement. */
  lemma {:induction false} SortedUnique(a: seq<Pair>, b: seq<Pair>)
    requires Sorted(a) && Sorted(b)
    requires multiset(a) == multiset(b)
    ensures a == b
  {
    assert |a| == |multiset(a)| == |multiset(b)| == |b|;
    if a != [] {
      PairOrder();
      assert a[0] in multiset(b);
      assert b[0] in multiset(a);
      assert PairLeq(b[0], a[0]);
      assert PairLeq(a[0], b[0]);
      assert a[0] == b[0];
      assert a == [a[0]] + a[1..] && b == [b[0]] + b[1..];
      assert multiset(a) == multiset{a[0]} + multiset(a[1..]);
      assert multiset(b) == multiset{b[0]} + multiset(b[1..]);
      assert multiset(a[1..]) == multiset(a) - multiset{a[0]};
      assert multiset(b[1..]) == multiset(b) - multiset{b[0]};
      SortedUnique(a[1..], b[1..]);
    }
  }

  /** `'&'.join(f"{k}={v}" for k, v in s)`. */
  function Join(s: seq<Pair>): string {
    if s == [] then ""
    else if |s| == 1 then s[0].0 + "=" + s[0].1
    else s[0].0 + "=" + s[0].1 + "&" + Join(s[1..])
  }

  /** The string that is digested: sorted `signature`-free items, then `&key=<secret>`. */
  function SignString(d: Dict, secret: string): string {
    Join(Sort(Without(d, SIGNATURE_KEY))) + "&key=" + secret
  }

  /** generate_signature */
  function Sign(digest: Digest, d: Dict, secret: string): string {
    digest(SignString(d, secret))
  }

  /** verify_signature: recompute and compare (the constant-time comparison is plain equality here). */
  predicate Verify(digest: Digest, d: Dict, signature: string, secret: string) {
    signature == Sign(digest, d, secret)
  }

  /**
   * A dict with its own signature assigned to `signature`, as the callback payload is built;
   * the key is new there, so the assignment appends one item.
   */
  function Signed(digest: Digest, d: Dict, secret: string): Dict {
    d + [(SIGNATURE_KEY, Sign(digest, d, secret))]
  }

  // ---- Properties of the signing string ----

  /** The signing string is the join of THE sorted arrangement of the `signature`-free items. */
  lemma SignStringCanonical(d: Dict, secret: string, p: seq<Pair>)
    requires Sorted(p) && multiset(p) == multiset(Without(d, SIGNATURE_KEY))
    ensures SignString(d, secret) == Join(p) + "&key=" + secret
  {
    SortSorted(Without(d, SIGNATURE_KEY));
    SortedUnique(Sort(Without(d, SIGNATURE_KEY)), p);
  }

  /** Two dicts holding the same items in any insertion order have the same signing string. */
  lemma SignStringOrderIndependent(d1: Dict, d2: Dict, secret: string)
    requires multiset(d1) == multiset(d2)
    ensures SignString(d1, secret) == SignString(d2, secret)
  {
    WithoutMultiset(d1, SIGNATURE_KEY);
    WithoutMultiset(d2, SIGNATURE_KEY);
    var w1, w2 := Without(d1, SIGNATURE_KEY), Without(d2, SIGNATURE_KEY);
    assert multiset(w1) == multiset(w2) by {
      forall p ensures multiset(w1)[p] == multiset(w2)[p] { }
    }
    SortSorted(w1);
    SortSorted(w2);
    SortedUnique(Sort(w1), Sort(w2));
  }

  /** The signing string depends only on the `signature`-free items. */
  lemma SignStringOfFiltered(d1: Dict, d2: Dict, secret: string)
    requires Without(d1, SIGNATURE_KEY) == Without(d2, SIGNATURE_KEY)
    ensures SignString(d1, secret) == SignString(d2, secret)
  {
  }

  lemma WithoutSignatureItem(v: string)
    ensures Without([(SIGNATURE_KEY, v)], SIGNATURE_KEY) == []
  {
    var sig := [(SIGNATURE_KEY, v)];
    assert sig[1..] == [];
    assert Without(sig[1..], SIGNATURE_KEY) == [];
  }

  lemma WithoutSignatureItemAnywhere(a: Dict, b: Dict, v: string)
    ensures Without(a + [(SIGNATURE_KEY, v)] + b, SIGNATURE_KEY) == Without(a + b, SIGNATURE_KEY)
  {
    var sig := [(SIGNATURE_KEY, v)];
    WithoutAppend(a + sig, b, SIGNATURE_KEY);
    WithoutAppend(a, sig, SIGNATURE_KEY);
    WithoutAppend(a, b, SIGNATURE_KEY);
    WithoutSignatureItem(v);
  }

  /** A `signature` item, wherever it stands, does not change the signing string. */
  lemma SignStringIgnoresSignature(a: Dict, b: Dict, v: string, secret: string)
    ensures SignString(a + [(SIGNATURE_KEY, v)] + b, secret) == SignString(a + b, secret)
  {
    WithoutSignatureItemAnywhere(a, b, v);
    SignStringOfFiltered(a + [(SIGNATURE_KEY, v)] + b, a + b, secret);
  }

  /** Verifying after `pop('signature')` is the same as verifying the full dict. */
  lemma VerifyAfterPop(digest: Digest, d: Dict, s: string, secret: string)
    ensures Verify(digest, Without(d, SIGNATURE_KEY), s, secret) == Verify(digest, d, s, secret)
  {
    WithoutIdempotent(d, SIGNATURE_KEY);
  }

  /** Verify round trip: a signature computed over a dict verifies against that dict. */
  lemma VerifySign(digest: Digest, d: Dict, secret: string)
    ensures Verify(digest, d, Sign(digest, d, secret), secret)
  {
  }

  /**
   * A signed dict passes the receiver's check: its `signature` item is the signature,
   * and the dict with that item popped verifies against it.
   */
  lemma SignedVerifies(digest: Digest, d: Dict, secret: string)
    requires !Has(d, SIGNATURE_KEY)
    ensures Lookup(Signed(digest, d, secret), SIGNATURE_KEY) == Some(Sign(digest, d, secret))
    ensures Verify(digest, Without(Signed(digest, d, secret), SIGNATURE_KEY), Sign(digest, d, secret), secret)
  {
    var s := Sign(digest, d, secret);
    LookupAppend(d, (SIGNATURE_KEY, s));
    VerifyAfterPop(digest, Signed(digest, d, secret), s, secret);
    SignStringIgnoresSignature(d, [], s, secret);
    assert d + [(SIGNATURE_KEY, s)] + [] == Signed(digest, d, secret);
    assert d + [] == d;
  }
}
