/** Ranking the entries of an object by value, highest first, the way
    `Object.entries(o).sort((a, b) => b[1] - a[1]).slice(0, k)` and
    `sorted(d.items(), key=lambda x: x[1], reverse=True)[:k]` do. Both sorts
    are stable: entries with equal values keep their original order. */
module Ranking {
  import opened JsObject

  /** Non-increasing by value. */
  predicate SortedDesc(s: seq<Entry<real>>) {
    forall i, j :: 0 <= i < j < |s| ==> s[i].value >= s[j].value
  }

  /** The entries of `s` whose value is `v`, in order. */
  function WithValue(s: seq<Entry<real>>, v: real): (r: seq<Entry<real>>)
    ensures |r| <= |s|
    ensures forall i :: 0 <= i < |r| ==> r[i].value == v
  {
    if s == [] then []
    else WithValue(s[..|s| - 1], v) + (if s[|s| - 1].value == v then [s[|s| - 1]] else [])
  }

  /** Inserts `x` into the sorted `s` after every entry whose value is at
      least `x`'s, so that `x` follows its equals. */
  function Insert(s: seq<Entry<real>>, x: Entry<real>): (r: seq<Entry<real>>)
    ensures |r| == |s| + 1
  {
    if s == [] then [x]
    else if s[|s| - 1].value >= x.value then s + [x]
    else Insert(s[..|s| - 1], x) + [s[|s| - 1]]
  }

  /** A stable sort by value, highest first. */
  function SortDesc(s: seq<Entry<real>>): (r: seq<Entry<real>>)
    ensures |r| == |s|
  {
    if s == [] then [] else Insert(SortDesc(s[..|s| - 1]), s[|s| - 1])
  }

  lemma {:induction false} InsertPermutes(s: seq<Entry<real>>, x: Entry<real>)
    ensures multiset(Insert(s, x)) == multiset(s) + multiset{x}
  {
    if s != [] && s[|s| - 1].value < x.value {
      var t := s[..|s| - 1];
      assert s == t + [s[|s| - 1]];
      InsertPermutes(t, x);
    }
  }

  lemma {:induction false} InsertSorted(s: seq<Entry<real>>, x: Entry<real>)
    requires SortedDesc(s)
    ensures SortedDesc(Insert(s, x))
  {
    if s != [] && s[|s| - 1].value < x.value {
      var t, l := s[..|s| - 1], s[|s| - 1];
      InsertSorted(t, x);
      InsertPermutes(t, x);
      var u := Insert(t, x);
      forall i | 0 <= i < |u|
        ensures u[i].value >= l.value
      {
        assert u[i] in multiset(u);
        assert u[i] == x || u[i] in multiset(t);
        if u[i] != x {
          var k :| 0 <= k < |t| && t[k] == u[i];
          assert s[k] == t[k];
        }
      }
    }
  }

  /** Filtering by value distributes over appending one entry. */
  lemma WithValueSnoc(s: seq<Entry<real>>, e: Entry<real>, v: real)
    ensures WithValue(s + [e], v) == WithValue(s, v) + (if e.value == v then [e] else [])
  {
    assert (s + [e])[..|s|] == s;
  }

  /** Inserting `x` leaves the entries of every value in their order and puts
      `x` after its equals. */
  lemma {:induction false} InsertStable(s: seq<Entry<real>>, x: Entry<real>, v: real)
    ensures WithValue(Insert(s, x), v) == WithValue(s, v) + (if x.value == v then [x] else [])
  {
    if s == [] {
      WithValueSnoc([], x, v);
    } else if s[|s| - 1].value >= x.value {
      WithValueSnoc(s, x, v);
    } else {
      var t, l := s[..|s| - 1], s[|s| - 1];
      var xs, ls := if x.value == v then [x] else [], if l.value == v then [l] else [];
      calc {
        WithValue(Insert(s, x), v);
      ==
        WithValue(Insert(t, x) + [l], v);
      == { WithValueSnoc(Insert(t, x), l, v); }
        WithValue(Insert(t, x), v) + ls;
      == { InsertStable(t, x, v); }
        (WithValue(t, v) + xs) + ls;
      == { assert l.value == v ==> x.value != v; }
        (WithValue(t, v) + ls) + xs;
      == { WithValueSnoc(t, l, v); assert s == t + [l]; }
        WithValue(s, v) + xs;
      }
    }
  }

  /** The sort is a sorted permutation of its input. */
  lemma {:induction false} SortDescCorrect(s: seq<Entry<real>>)
    ensures SortedDesc(SortDesc(s))
    ensures multiset(SortDesc(s)) == multiset(s)
  {
    if s != [] {
      var t := s[..|s| - 1];
      SortDescCorrect(t);
      InsertSorted(SortDesc(t), s[|s| - 1]);
      InsertPermutes(SortDesc(t), s[|s| - 1]);
      assert s == t + [s[|s| - 1]];
    }
  }

  /** The sort is stable: for every value, the entries with that value come
      out in the order they went in. */
  lemma {:induction false} SortDescStable(s: seq<Entry<real>>, v: real)
    ensures WithValue(SortDesc(s), v) == WithValue(s, v)
  {
    if s != [] {
      var t, x := s[..|s| - 1], s[|s| - 1];
      var tail := if x.value == v then [x] else [];
      calc {
        WithValue(SortDesc(s), v);
      ==
        WithValue(Insert(SortDesc(t), x), v);
      == { InsertStable(SortDesc(t), x, v); }
        WithValue(SortDesc(t), v) + tail;
      == { SortDescStable(t, v); }
        WithValue(t, v) + tail;
      == { WithValueSnoc(t, x, v); assert s == t + [x]; }
        WithValue(s, v);
      }
    }
  }

  /** The `k` entries with the highest values, highest first. */
  function TopK(s: seq<Entry<real>>, k: nat): (r: seq<Entry<real>>)
    ensures |r| == if |s| < k then |s| else k
  {
    Take(SortDesc(s), k)
  }

  /** Filtering a prefix gives a prefix of the filtered sequence. */
  lemma {:induction false} WithValuePrefix(s: seq<Entry<real>>, k: nat, v: real)
    requires k <= |s|
    ensures WithValue(s[..k], v) <= WithValue(s, v)
  {
    if k < |s| {
      var t := s[..|s| - 1];
      assert s[..k] == t[..k];
      WithValuePrefix(t, k, v);
    } else {
      assert s[..k] == s;
    }
  }

  /** `TopK` keeps the `k` highest entries, highest first: the entries it
      keeps and the ones it leaves out are together the input, and every
      entry left out is at most every entry kept. */
  lemma TopKCorrect(s: seq<Entry<real>>, k: nat)
    ensures SortedDesc(TopK(s, k))
    ensures var r := SortDesc(s); var n := |TopK(s, k)|;
      multiset(TopK(s, k)) + multiset(r[n..]) == multiset(s) &&
      forall i, j :: 0 <= i < n <= j < |s| ==> r[j].value <= r[i].value
  {
    var r := SortDesc(s);
    SortDescCorrect(s);
    var n := |TopK(s, k)|;
    assert TopK(s, k) == r[..n];
    SortedSplit(r, n);
  }

  /** Cutting a sorted sequence leaves a sorted head that, with the tail,
      makes up the whole, and no tail entry exceeds a head entry. */
  lemma SortedSplit(r: seq<Entry<real>>, n: nat)
    requires SortedDesc(r) && n <= |r|
    ensures SortedDesc(r[..n])
    ensures multiset(r[..n]) + multiset(r[n..]) == multiset(r)
    ensures forall i, j :: 0 <= i < n <= j < |r| ==> r[j].value <= r[i].value
  {
    assert r == r[..n] + r[n..];
  }

  /** Entries of `TopK` with equal values come in their input order. */
  lemma TopKStable(s: seq<Entry<real>>, k: nat, v: real)
    ensures WithValue(TopK(s, k), v) <= WithValue(s, v)
  {
    var r := SortDesc(s);
    SortDescStable(s, v);
    var n := |TopK(s, k)|;
    assert TopK(s, k) == r[..n];
    WithValuePrefix(r, n, v);
  }
}
