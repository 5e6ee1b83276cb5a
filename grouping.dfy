/** The form's `groupedFeatures`: the catalogue regrouped into an object
    from category to the features of that category, for display. */
module Grouping {
  import opened Wrappers
  import opened JsObject
  import opened FeatureCatalogue

  /** The categories of `fs`, each once, in order of first appearance: the
      keys of the grouped object. */
  function Categories(fs: seq<Feature>): seq<string>
  {
    if fs == [] then []
    else
      var cs := Categories(fs[..|fs| - 1]);
      if fs[|fs| - 1].category in cs then cs else cs + [fs[|fs| - 1].category]
  }

  /** The features of category `c`, in declaration order. */
  function OfCategory(fs: seq<Feature>, c: string): seq<Feature>
  {
    if fs == [] then []
    else OfCategory(fs[..|fs| - 1], c) + (if fs[|fs| - 1].category == c then [fs[|fs| - 1]] else [])
  }

  /** The categories are listed once each, and exactly the categories of
      the features are listed. */
  lemma {:induction false} CategoriesSpec(fs: seq<Feature>)
    ensures forall i, j :: 0 <= i < j < |Categories(fs)| ==> Categories(fs)[i] != Categories(fs)[j]
    ensures forall c :: c in Categories(fs) <==> exists f :: f in fs && f.category == c
  {
    if fs != [] {
      var p := fs[..|fs| - 1];
      CategoriesSpec(p);
      assert fs == p + [fs[|fs| - 1]];
    }
  }

  /** A feature is in the list of category `c` exactly when it is declared
      and `c` is its category. */
  lemma {:induction false} OfCategoryMembers(fs: seq<Feature>, c: string, x: Feature)
    ensures x in OfCategory(fs, c) <==> x in fs && x.category == c
  {
    if fs != [] {
      var p := fs[..|fs| - 1];
      OfCategoryMembers(p, c, x);
      assert fs == p + [fs[|fs| - 1]];
    }
  }

  /** Every feature lands in exactly one group, the group of its own
      category, and that category is one of the keys. */
  lemma EachFeatureInItsGroup(fs: seq<Feature>, x: Feature)
    requires x in fs
    ensures x.category in Categories(fs)
    ensures forall c :: x in OfCategory(fs, c) <==> c == x.category
  {
    CategoriesSpec(fs);
    forall c ensures x in OfCategory(fs, c) <==> c == x.category {
      OfCategoryMembers(fs, c, x);
    }
  }

  /** The total size of the groups listed under `cs`. */
  function GroupSizes(cs: seq<string>, fs: seq<Feature>): nat
  {
    if cs == [] then 0 else GroupSizes(cs[..|cs| - 1], fs) + |OfCategory(fs, cs[|cs| - 1])|
  }

  /** Appending one feature grows the groups listed under `cs` by one when
      its category is listed (once), and not at all otherwise. */
  lemma {:induction false} GroupSizesStep(cs: seq<string>, p: seq<Feature>, f: Feature)
    requires forall i, j :: 0 <= i < j < |cs| ==> cs[i] != cs[j]
    ensures GroupSizes(cs, p + [f]) == GroupSizes(cs, p) + (if f.category in cs then 1 else 0)
  {
    var q := p + [f];
    assert q[..|q| - 1] == p;
    if cs != [] {
      var init := cs[..|cs| - 1];
      GroupSizesStep(init, p, f);
      assert f.category in cs <==> f.category in init || f.category == cs[|cs| - 1];
      assert f.category == cs[|cs| - 1] ==> f.category !in init;
    }
  }

  /** Grouping neither loses nor duplicates a feature: the group sizes add up
      to the number of features. */
  lemma {:induction false} GroupingKeepsCount(fs: seq<Feature>)
    ensures GroupSizes(Categories(fs), fs) == |fs|
  {
    if fs != [] {
      var p, f := fs[..|fs| - 1], fs[|fs| - 1];
      assert fs == p + [f];
      GroupingKeepsCount(p);
      CategoriesSpec(p);
      CategoriesSpec(fs);
      GroupSizesStep(Categories(p), p, f);
      if f.category !in Categories(p) {
        var cs := Categories(p) + [f.category];
        assert cs[..|cs| - 1] == Categories(p);
        OfCategoryNew(p, f);
      }
    }
  }

  /** A feature whose category is new forms a group of its own. */
  lemma OfCategoryNew(p: seq<Feature>, f: Feature)
    requires f.category !in Categories(p)
    ensures OfCategory(p + [f], f.category) == [f]
  {
    var q := p + [f];
    assert q[..|q| - 1] == p;
    CategoriesSpec(p);
    if OfCategory(p, f.category) != [] {
      OfCategoryMembers(p, f.category, OfCategory(p, f.category)[0]);
    }
  }

  /** `groups` is an object with keys `ks`, each holding the features of
      that category among `p`. */
  ghost predicate GroupedAs(groups: seq<Entry<seq<Feature>>>, p: seq<Feature>, ks: seq<string>) {
    && Keys(groups) == ks
    && DistinctKeys(groups)
    && forall c :: c in ks ==> Lookup(groups, c) == Some(OfCategory(p, c))
  }

  /** `acc[category] = []` for a category not seen before. */
  lemma OpenGroup(groups: seq<Entry<seq<Feature>>>, p: seq<Feature>, f: Feature)
    requires GroupedAs(groups, p, Categories(p)) && Lookup(groups, f.category).None?
    ensures GroupedAs(Put(groups, f.category, []), p, Categories(p + [f]))
  {
    var q := p + [f];
    assert q[..|q| - 1] == p;
    PutDistinct(groups, f.category, []);
    PutLookupSame(groups, f.category, []);
    forall c | c != f.category ensures Lookup(Put(groups, f.category, []), c) == Lookup(groups, c) {
      PutLookupOther(groups, f.category, [], c);
    }
    CategoriesSpec(p);
    if OfCategory(p, f.category) != [] {
      OfCategoryMembers(p, f.category, OfCategory(p, f.category)[0]);
    }
  }

  /** A category seen before already has its group. */
  lemma KnownGroup(groups: seq<Entry<seq<Feature>>>, p: seq<Feature>, f: Feature)
    requires GroupedAs(groups, p, Categories(p)) && Lookup(groups, f.category).Some?
    ensures GroupedAs(groups, p, Categories(p + [f]))
  {
    var q := p + [f];
    assert q[..|q| - 1] == p;
  }

  /** `acc[category].push(feature)`. */
  lemma PushToGroup(groups: seq<Entry<seq<Feature>>>, p: seq<Feature>, f: Feature)
    requires GroupedAs(groups, p, Categories(p + [f]))
    ensures f.category in Keys(groups)
    ensures GroupedAs(Put(groups, f.category, Lookup(groups, f.category).value + [f]), p + [f], Categories(p + [f]))
  {
    var q := p + [f];
    assert q[..|q| - 1] == p;
    assert f.category in Categories(q);
    var members := Lookup(groups, f.category).value + [f];
    assert members == OfCategory(q, f.category);
    var r := Put(groups, f.category, members);
    PutDistinct(groups, f.category, members);
    PutLookupSame(groups, f.category, members);
    forall c | c in Categories(q) && c != f.category
      ensures Lookup(r, c) == Some(OfCategory(q, c))
    {
      PutLookupOther(groups, f.category, members, c);
      assert OfCategory(q, c) == OfCategory(p, c);
    }
  }

  /** `features.reduce(...)` building an object from category to the array
      of its features, pushing each feature in declaration order. */
  method GroupFeatures(features: seq<Feature>) returns (groups: seq<Entry<seq<Feature>>>)
    ensures Keys(groups) == Categories(features)
    ensures DistinctKeys(groups)
    ensures forall j :: 0 <= j < |groups| ==> groups[j].value == OfCategory(features, groups[j].key)
  {
    groups := [];
    for i := 0 to |features|
      invariant GroupedAs(groups, features[..i], Categories(features[..i]))
    {
      var f := features[i];
      assert features[..i + 1] == features[..i] + [f];
      if Lookup(groups, f.category).None? {
        OpenGroup(groups, features[..i], f);
        groups := Put(groups, f.category, []);
      } else {
        KnownGroup(groups, features[..i], f);
      }
      PushToGroup(groups, features[..i], f);
      groups := Put(groups, f.category, Lookup(groups, f.category).value + [f]);
    }
    assert features[..|features|] == features;
    forall j | 0 <= j < |groups|
      ensures groups[j].value == OfCategory(features, groups[j].key)
    {
      LookupAt(groups, j);
    }
  }
}
