/** What the dashboard pages share: the fetch error message, the class
    shares of the target distribution, and filters over the entries and keys
    of a fetched object. */
module Dashboard {
  import opened Wrappers
  import opened JsObject
  import opened Text

  /** The axios error code of a request that never reached the server. */
  const NetworkCode := "ERR_NETWORK"
  const NetworkMessage := "Unable to connect to the backend. Make sure the Flask server is running on http://localhost:5000"

  /** The message a page shows when its fetch fails: the connection message
      for a network error, the page's own `fallback` otherwise. */
  function FetchErrorMessage(code: Option<string>, fallback: string): (m: string)
    ensures m == NetworkMessage || m == fallback
  {
    if code == Some(NetworkCode) then NetworkMessage else fallback
  }

  /** With a fallback of its own, the message tells whether the backend was
      unreachable. */
  lemma FetchErrorTellsCause(code: Option<string>, fallback: string)
    requires fallback != NetworkMessage
    ensures FetchErrorMessage(code, fallback) == NetworkMessage <==> code == Some(NetworkCode)
    ensures FetchErrorMessage(code, fallback) == fallback <==> code != Some(NetworkCode)
  {
  }

  /** The two class percentages of a target distribution. */
  datatype Shares = Shares(class0: real, class1: real)

  /** `class_c / (class_0 + class_1) * 100` for both classes; `None` when
      there are no samples, where the page divides 0 by 0 and shows NaN. */
  function ClassShares(class0: nat, class1: nat): (r: Option<Shares>)
    ensures r.Some? <==> class0 + class1 > 0
    ensures r.Some? ==> r.value.class0 * (class0 + class1) as real == class0 as real * 100.0
    ensures r.Some? ==> r.value.class1 * (class0 + class1) as real == class1 as real * 100.0
  {
    var total := (class0 + class1) as real;
    if total == 0.0 then None
    else Some(Shares(class0 as real / total * 100.0, class1 as real / total * 100.0))
  }

  /** The two percentages add up to 100, lie between 0 and 100, and are
      ordered like the counts. */
  lemma ClassSharesSum(class0: nat, class1: nat)
    requires class0 + class1 > 0
    ensures var s := ClassShares(class0, class1).value;
      s.class0 + s.class1 == 100.0 &&
      0.0 <= s.class0 <= 100.0 && 0.0 <= s.class1 <= 100.0 &&
      (s.class0 <= s.class1 <==> class0 <= class1)
  {
    var t := (class0 + class1) as real;
    var s := ClassShares(class0, class1).value;
    SharesOfTotal(class0 as real, class1 as real, t, s.class0, s.class1);
  }

  /** Two shares `p, q` of a positive total `t = a + b`, with `p * t == a * 100`
      and `q * t == b * 100`, add up to 100, lie in [0, 100] and are ordered
      like `a` and `b`. */
  lemma SharesOfTotal(a: real, b: real, t: real, p: real, q: real)
    requires a >= 0.0 && b >= 0.0 && t == a + b && t > 0.0
    requires p * t == a * 100.0 && q * t == b * 100.0
    ensures p + q == 100.0 && 0.0 <= p <= 100.0 && 0.0 <= q <= 100.0
    ensures p <= q <==> a <= b
  {
    assert (p + q) * t == a * 100.0 + b * 100.0 by {
      assert (p + q) * t == p * t + q * t;
    }
    CompareScaled(p + q, 100.0, t, a * 100.0 + b * 100.0, 100.0 * t);
    CompareScaled(0.0, p, t, 0.0, a * 100.0);
    CompareScaled(0.0, q, t, 0.0, b * 100.0);
    CompareScaled(p, 100.0, t, a * 100.0, 100.0 * t);
    CompareScaled(q, 100.0, t, b * 100.0, 100.0 * t);
    CompareScaled(p, q, t, a * 100.0, b * 100.0);
  }

  /** Two numbers compare like their products `x` and `y` with a positive `t`. */
  lemma CompareScaled(p: real, q: real, t: real, x: real, y: real)
    requires t > 0.0 && p * t == x && q * t == y
    ensures p <= q <==> x <= y
    ensures p == q <==> x == y
  {
    ScaleByPositive(p, q, t);
  }

  /** Multiplying by a positive number keeps the order of two numbers. */
  lemma ScaleByPositive(a: real, b: real, t: real)
    requires t > 0.0
    ensures a * t <= b * t <==> a <= b
    ensures a * t == b * t <==> a == b
  {
    assert (b - a) * t == b * t - a * t;
    if a < b {
      assert (b - a) * t > 0.0;
    } else if b < a {
      assert (a - b) * t > 0.0;
    }
  }

  // Filters

  /** `Object.entries(o).filter(keep)`. */
  function Where(o: seq<Entry<real>>, keep: Entry<real> -> bool): (r: seq<Entry<real>>)
    ensures |r| <= |o|
    ensures forall i :: 0 <= i < |r| ==> keep(r[i])
    ensures forall e :: e in r <==> e in o && keep(e)
  {
    if o == [] then []
    else Where(o[..|o| - 1], keep) + (if keep(o[|o| - 1]) then [o[|o| - 1]] else [])
  }

  /** Filtering keeps order: it distributes over concatenation. */
  lemma {:induction false} WhereAppend(a: seq<Entry<real>>, b: seq<Entry<real>>, keep: Entry<real> -> bool)
    ensures Where(a + b, keep) == Where(a, keep) + Where(b, keep)
  {
    if b == [] {
      assert a + b == a;
    } else {
      var b', x := b[..|b| - 1], b[|b| - 1];
      var tail := if keep(x) then [x] else [];
      calc {
        Where(a + b, keep);
      == { assert (a + b)[..|a + b| - 1] == a + b' && (a + b)[|a + b| - 1] == x; }
        Where(a + b', keep) + tail;
      == { WhereAppend(a, b', keep); }
        (Where(a, keep) + Where(b', keep)) + tail;
      ==
        Where(a, keep) + (Where(b', keep) + tail);
      }
    }
  }

  /** Filtering loses nothing the filter keeps: the entries it drops are
      those the filter refuses. */
  lemma {:induction false} WhereCount(o: seq<Entry<real>>, keep: Entry<real> -> bool, drop: Entry<real> -> bool)
    requires forall e :: drop(e) <==> !keep(e)
    ensures |Where(o, keep)| + |Where(o, drop)| == |o|
  {
    if o != [] {
      WhereCount(o[..|o| - 1], keep, drop);
    }
  }

  /** `Object.keys(o).filter(key => key.includes(sub))`. */
  function KeysContaining(keys: seq<string>, sub: string): (r: seq<string>)
    ensures |r| <= |keys|
    ensures forall k :: k in r <==> k in keys && Contains(k, sub)
  {
    if keys == [] then []
    else
      var k := keys[|keys| - 1];
      KeysContaining(keys[..|keys| - 1], sub) + (if Contains(k, sub) then [k] else [])
  }

  /** The filter keeps order and multiplicity: it distributes over
      concatenation. */
  lemma {:induction false} KeysContainingAppend(a: seq<string>, b: seq<string>, sub: string)
    ensures KeysContaining(a + b, sub) == KeysContaining(a, sub) + KeysContaining(b, sub)
  {
    if b == [] {
      assert a + b == a;
    } else {
      var b', k := b[..|b| - 1], b[|b| - 1];
      var tail := if Contains(k, sub) then [k] else [];
      calc {
        KeysContaining(a + b, sub);
      == { assert (a + b)[..|a + b| - 1] == a + b' && (a + b)[|a + b| - 1] == k; }
        KeysContaining(a + b', sub) + tail;
      == { KeysContainingAppend(a, b', sub); }
        (KeysContaining(a, sub) + KeysContaining(b', sub)) + tail;
      ==
        KeysContaining(a, sub) + (KeysContaining(b', sub) + tail);
      }
    }
  }

  /** A single key is kept exactly when it contains `sub`. */
  lemma KeysContainingOne(k: string, sub: string)
    ensures KeysContaining([k], sub) == if Contains(k, sub) then [k] else []
  {
    assert [k][..0] == [];
  }

  /** The number of keys containing `sub`. */
  function CountContaining(keys: seq<string>, sub: string): (n: nat)
    ensures n == |KeysContaining(keys, sub)| && n <= |keys|
    ensures n == 0 <==> forall k :: k in keys ==> !Contains(k, sub)
  {
    var r := KeysContaining(keys, sub);
    if r != [] then assert r[0] in r; |r| else |r|
  }

  /** A string without `sub`'s first character does not contain `sub`. */
  lemma {:induction false} NotContainsFirst(s: string, sub: string)
    requires |sub| > 0 && sub[0] !in s
    ensures !Contains(s, sub)
  {
    if |s| > 0 {
      assert s[0] in s;
      NotContainsFirst(s[1..], sub);
    }
  }
}
