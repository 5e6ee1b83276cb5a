/** Plain JavaScript objects (and Python dicts) as the dashboard uses them:
    an ordered list of own properties with pairwise distinct keys. The order
    is the insertion order that `Object.keys`, `Object.entries` and Python's
    `dict` iteration follow. */
module JsObject {
  import opened Wrappers

  /** One own property: its key and its value. */
  datatype Entry<V> = Entry(key: string, value: V)

  /** The keys of two objects' entries one after the other. */
  lemma KeysAppend<V>(a: seq<Entry<V>>, b: seq<Entry<V>>)
    ensures Keys(a + b) == Keys(a) + Keys(b)
  {
    assert forall i :: 0 <= i < |a + b| ==> Keys(a + b)[i] == (Keys(a) + Keys(b))[i];
  }

  /** `Object.keys(o)`. */
  function Keys<V>(o: seq<Entry<V>>): (ks: seq<string>)
    ensures |ks| == |o|
    ensures forall i :: 0 <= i < |o| ==> ks[i] == o[i].key
  {
    if o == [] then [] else [o[0].key] + Keys(o[1..])
  }

  /** `Object.values(o)`. */
  function Values<V>(o: seq<Entry<V>>): (vs: seq<V>)
    ensures |vs| == |o|
    ensures forall i :: 0 <= i < |o| ==> vs[i] == o[i].value
  {
    if o == [] then [] else [o[0].value] + Values(o[1..])
  }

  /** No key occurs twice: what every object satisfies. */
  predicate DistinctKeys<V>(o: seq<Entry<V>>) {
    forall i, j :: 0 <= i < j < |o| ==> o[i].key != o[j].key
  }

  /** The position of key `k` in `o`, if it has one. */
  function IndexOfKey<V>(o: seq<Entry<V>>, k: string): (r: Option<nat>)
    ensures r.None? <==> k !in Keys(o)
    ensures r.Some? ==> r.value < |o| && o[r.value].key == k
    ensures r.Some? ==> forall j :: 0 <= j < r.value ==> o[j].key != k
  {
    if o == [] then None
    else if o[0].key == k then Some(0)
    else match IndexOfKey(o[1..], k)
      case None => None
      case Some(i) => Some(i + 1)
  }

  /** `o[k]`, with `None` for a key the object does not have. */
  function Lookup<V>(o: seq<Entry<V>>, k: string): (r: Option<V>)
    ensures r.Some? <==> k in Keys(o)
    ensures r.Some? ==> exists i :: 0 <= i < |o| && o[i] == Entry(k, r.value)
  {
    match IndexOfKey(o, k)
    case None => None
    case Some(i) => Some(o[i].value)
  }

  /** In an object the property found under a key is the one stored there. */
  lemma LookupAt<V>(o: seq<Entry<V>>, i: int)
    requires DistinctKeys(o) && 0 <= i < |o|
    ensures Lookup(o, o[i].key) == Some(o[i].value)
  {
    var j := IndexOfKey(o, o[i].key).value;
    assert !(j < i) && !(i < j);
  }

  /** `{...o, [k]: v}`: an existing key keeps its position and takes the new
      value, a new key is appended at the end. */
  function Put<V>(o: seq<Entry<V>>, k: string, v: V): (r: seq<Entry<V>>)
    ensures Keys(r) == if k in Keys(o) then Keys(o) else Keys(o) + [k]
  {
    match IndexOfKey(o, k)
    case Some(i) =>
      var r := o[i := Entry(k, v)];
      assert Keys(r) == Keys(o);
      r
    case None =>
      var r := o + [Entry(k, v)];
      assert Keys(r) == Keys(o) + [k];
      r
  }

  /** The search for a key sees only the keys. */
  lemma IndexOfKeySameKeys<V>(o: seq<Entry<V>>, p: seq<Entry<V>>, k: string)
    requires Keys(o) == Keys(p)
    ensures IndexOfKey(o, k) == IndexOfKey(p, k)
  {
    var a, b := IndexOfKey(o, k), IndexOfKey(p, k);
    assert forall j :: 0 <= j < |o| ==> o[j].key == p[j].key;
    if a.Some? && b.Some? {
      assert !(a.value < b.value) && !(b.value < a.value);
    }
  }

  /** After `Put`, the key holds the new value. */
  lemma PutLookupSame<V>(o: seq<Entry<V>>, k: string, v: V)
    ensures Lookup(Put(o, k, v), k) == Some(v)
  {
    var r := Put(o, k, v);
    match IndexOfKey(o, k)
    case Some(i) =>
      IndexOfKeySameKeys(r, o, k);
    case None =>
      assert r == o + [Entry(k, v)];
      assert IndexOfKey(r, k) == Some(|o|);
  }

  /** Appending a property under another key does not move a key's position. */
  lemma {:induction false} IndexOfKeyAppend<V>(o: seq<Entry<V>>, e: Entry<V>, k: string)
    requires e.key != k
    ensures IndexOfKey(o + [e], k) == IndexOfKey(o, k)
  {
    if o != [] {
      assert (o + [e])[1..] == o[1..] + [e];
      IndexOfKeyAppend(o[1..], e, k);
    }
  }

  /** After `Put`, every other key holds what it held before. */
  lemma PutLookupOther<V>(o: seq<Entry<V>>, k: string, v: V, k': string)
    requires k' != k
    ensures Lookup(Put(o, k, v), k') == Lookup(o, k')
  {
    var r := Put(o, k, v);
    match IndexOfKey(o, k)
    case Some(i) =>
      IndexOfKeySameKeys(r, o, k');
    case None =>
      IndexOfKeyAppend(o, Entry(k, v), k');
      var a := IndexOfKey(o, k');
      assert a.Some? ==> r[a.value] == o[a.value];
  }

  /** `Put` keeps the keys of an object distinct. */
  lemma PutDistinct<V>(o: seq<Entry<V>>, k: string, v: V)
    requires DistinctKeys(o)
    ensures DistinctKeys(Put(o, k, v))
  {
    var r := Put(o, k, v);
    assert forall j :: 0 <= j < |r| ==> r[j].key == Keys(r)[j];
    assert forall j :: 0 <= j < |o| ==> o[j].key == Keys(o)[j];
  }

  /** The number of keys of an object built by storing under each of a list
      of distinct names once. */
  lemma PutNewKeyCount<V>(o: seq<Entry<V>>, k: string, v: V)
    requires k !in Keys(o)
    ensures |Put(o, k, v)| == |o| + 1
  {
    assert |Keys(Put(o, k, v))| == |Keys(o) + [k]|;
  }

  /** `s.slice(0, n)` (and Python's `s[:n]`) for a non-negative `n`. */
  function Take<T>(s: seq<T>, n: nat): (r: seq<T>)
    ensures |r| == if n < |s| then n else |s|
    ensures r <= s
  {
    if n < |s| then s[..n] else s
  }

  /** The sum of a list of numbers, as `reduce((sum, v) => sum + v, 0)`. */
  function Sum(xs: seq<real>): real
  {
    if xs == [] then 0.0 else Sum(xs[..|xs| - 1]) + xs[|xs| - 1]
  }

  /** Sums add up over concatenation. */
  lemma {:induction false} SumAppend(xs: seq<real>, ys: seq<real>)
    ensures Sum(xs + ys) == Sum(xs) + Sum(ys)
    decreases |ys|
  {
    if ys == [] {
      assert xs + ys == xs;
    } else {
      assert (xs + ys)[..|xs + ys| - 1] == xs + ys[..|ys| - 1];
      assert (xs + ys)[|xs + ys| - 1] == ys[|ys| - 1];
      SumAppend(xs, ys[..|ys| - 1]);
    }
  }

  /** A sum of non-negative numbers is non-negative. */
  lemma {:induction false} SumNonNegative(xs: seq<real>)
    requires forall i :: 0 <= i < |xs| ==> xs[i] >= 0.0
    ensures Sum(xs) >= 0.0
    decreases |xs|
  {
    if xs != [] {
      SumNonNegative(xs[..|xs| - 1]);
    }
  }
}
