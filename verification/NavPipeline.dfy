/** The Streamlit entrypoint's pipeline: sort by the navigation model, order by declared children,
    merge overrides, and follow a deep link. */
module NavPipeline {
  import opened Text
  import opened Wrappers
  import opened Pages
  import NavBuild
  import Sorting

  // ----- Sorting by the navigation model -----

  datatype SortKey = SortKey(rank: int, slug: string)

  /** The position of the first occurrence of `slug`, if any. */
  function IndexOf(keys: seq<string>, slug: string): Option<nat> {
    if keys == [] then None
    else if keys[0] == slug then Some(0)
    else
      var rest := IndexOf(keys[1..], slug);
      if rest.Some? then Some(rest.value + 1) else None
  }

  function Slugs(order: seq<string>): (r: seq<string>) {
    seq(|order|, i requires 0 <= i < |order| => PageSlug(order[i]))
  }

  function NavigationSortKey(order: seq<string>, rec: PageRecord): SortKey {
    var slug := PageSlug(rec.path);
    if order == [] then SortKey(0, "")
    else
      var at := IndexOf(Slugs(order), slug);
      if at.Some? then SortKey(at.value, slug) else SortKey(|order| + 1, slug)
  }

  predicate KeyLeq(a: SortKey, b: SortKey) {
    a.rank < b.rank || (a.rank == b.rank && StringLeq(a.slug, b.slug))
  }

  function ByModel(order: seq<string>): (PageRecord, PageRecord) -> bool {
    (a, b) => KeyLeq(NavigationSortKey(order, a), NavigationSortKey(order, b))
  }

  lemma ByModelIsPreorder(order: seq<string>)
    ensures Sorting.TotalPreorder(ByModel(order))
  {
    var le := ByModel(order);
    forall x, y ensures le(x, y) || le(y, x) {
      StringLeqTotal(NavigationSortKey(order, x).slug, NavigationSortKey(order, y).slug);
    }
    forall x, y, z | le(x, y) && le(y, z) ensures le(x, z) {
      var a, b, c := NavigationSortKey(order, x), NavigationSortKey(order, y), NavigationSortKey(order, z);
      if a.rank == b.rank == c.rank { StringLeqTransitive(a.slug, b.slug, c.slug); }
    }
  }

  ghost predicate Listed(order: seq<string>, rec: PageRecord) {
    exists i :: 0 <= i < |order| && PageSlug(order[i]) == PageSlug(rec.path)
  }

  ghost predicate FirstAt(keys: seq<string>, slug: string, i: nat) {
    i < |keys| && keys[i] == slug && slug !in keys[..i]
  }

  lemma FirstShifts(keys: seq<string>, slug: string, i: nat)
    requires keys != [] && keys[0] != slug
    ensures FirstAt(keys, slug, i) <==> i > 0 && FirstAt(keys[1..], slug, i - 1)
  {
    if 0 < i <= |keys| { assert keys[..i] == [keys[0]] + keys[1..][..i - 1]; }
  }

  /** `IndexOf` finds the first occurrence. */
  lemma {:induction false} IndexOfIsFirst(keys: seq<string>, slug: string)
    ensures IndexOf(keys, slug).None? <==> slug !in keys
    ensures forall i: nat :: IndexOf(keys, slug) == Some(i) <==> FirstAt(keys, slug, i)
  {
    if keys == [] {
    } else {
      IndexOfIsFirst(keys[1..], slug);
      if keys[0] != slug {
        forall i: nat ensures FirstAt(keys, slug, i) <==> i > 0 && FirstAt(keys[1..], slug, i - 1) {
          FirstShifts(keys, slug, i);
        }
      }
    }
  }

  /** The model puts the pages it lists first, in its order; the others follow by slug, not in
      registration order. */
  lemma SortFollowsModel(order: seq<string>, records: seq<PageRecord>, i: nat, j: nat)
    requires order != [] && i < j < |records|
    ensures |Sorting.Sort(records, ByModel(order))| == |records|
    ensures var a, b := Sorting.Sort(records, ByModel(order))[i], Sorting.Sort(records, ByModel(order))[j];
            && (Listed(order, b) ==> Listed(order, a))
            && (Listed(order, a) && Listed(order, b) ==>
                  exists p, q :: 0 <= p <= q < |order|
                    && PageSlug(order[p]) == PageSlug(a.path) && PageSlug(order[q]) == PageSlug(b.path)
                    && PageSlug(b.path) !in Slugs(order)[..q])
            && (!Listed(order, a) && !Listed(order, b) ==> StringLeq(PageSlug(a.path), PageSlug(b.path)))
  {
    ByModelIsPreorder(order);
    Sorting.SortIsOrderedPermutation(records, ByModel(order));
    var sorted := Sorting.Sort(records, ByModel(order));
    var a, b := sorted[i], sorted[j];
    assert ByModel(order)(a, b);
    RankOf(order, a);
    RankOf(order, b);
    if Listed(order, a) && Listed(order, b) {
      var p, q := NavigationSortKey(order, a).rank, NavigationSortKey(order, b).rank;
      assert 0 <= p <= q < |order|;
    }
  }

  lemma RankOf(order: seq<string>, rec: PageRecord)
    requires order != []
    ensures var key := NavigationSortKey(order, rec);
            && key.slug == PageSlug(rec.path)
            && (Listed(order, rec) ==> 0 <= key.rank < |order| && PageSlug(order[key.rank]) == key.slug
                                       && key.slug !in Slugs(order)[..key.rank])
            && (!Listed(order, rec) ==> key.rank == |order| + 1)
  {
    var keys, slug := Slugs(order), PageSlug(rec.path);
    IndexOfIsFirst(keys, slug);
    if Listed(order, rec) {
      var i :| 0 <= i < |order| && PageSlug(order[i]) == PageSlug(rec.path);
      assert keys[i] == slug;
    }
    if slug in keys {
      var i :| 0 <= i < |keys| && keys[i] == slug;
      assert PageSlug(order[i]) == slug;
    }
  }

  // ----- The pipeline -----

  ghost function Sorted(order: seq<string>, pages: seq<PageRecord>): seq<PageRecord> {
    if order == [] then pages else Sorting.Sort(pages, ByModel(order))
  }

  ghost function Navigation(order: seq<string>, pages: seq<PageRecord>): seq<PageRecord> {
    var ordered := NavBuild.OrderedRecords(Sorted(order, pages));
    NavBuild.OverriddenAll(ordered, NavBuild.AllEntries(ordered))
  }

  method BuildNavigation(order: seq<string>, pages: seq<PageRecord>) returns (records: seq<PageRecord>)
    requires DistinctSlugs(pages)
    ensures records == Navigation(order, pages)
  {
    records := pages;
    SortingPermutes(order, pages);
    if order != [] {
      records := Sorting.Sort(records, ByModel(order));
    }
    var unknown, cyclic;
    records, unknown, cyclic := NavBuild.OrderRecordsWithChildren(records);
    records := NavBuild.ApplyChildrenOverrides(records);
  }

  lemma SortingPermutes(order: seq<string>, pages: seq<PageRecord>)
    ensures multiset(Sorted(order, pages)) == multiset(pages)
    ensures DistinctSlugs(pages) ==> DistinctSlugs(Sorted(order, pages))
  {
    ByModelIsPreorder(order);
    Sorting.SortIsOrderedPermutation(pages, ByModel(order));
    if DistinctSlugs(pages) { PermutationKeepsSlugs(pages, Sorted(order, pages)); }
  }

  /** A record without what overrides may change. */
  function Bare(rec: PageRecord): PageRecord { rec.(title := "", icon := None) }

  function BareAll(records: seq<PageRecord>): seq<PageRecord> {
    seq(|records|, i requires 0 <= i < |records| => Bare(records[i]))
  }

  lemma BareWithout(b: seq<PageRecord>, at: nat)
    requires at < |b|
    ensures multiset(b) == multiset(b[..at] + b[at + 1..]) + multiset{b[at]}
    ensures multiset(BareAll(b)) == multiset(BareAll(b[..at] + b[at + 1..])) + multiset{Bare(b[at])}
  {
    assert b == b[..at] + [b[at]] + b[at + 1..];
    var c := BareAll(b);
    assert c == c[..at] + [c[at]] + c[at + 1..];
    assert BareAll(b[..at] + b[at + 1..]) == c[..at] + c[at + 1..];
  }

  lemma {:induction false} BareOfPermutation(a: seq<PageRecord>, b: seq<PageRecord>)
    requires multiset(a) == multiset(b)
    ensures multiset(BareAll(a)) == multiset(BareAll(b))
    decreases |a|
  {
    if a == [] {
      assert |multiset(b)| == 0;
    } else {
      var x := a[0];
      assert x in multiset(a);
      var at :| 0 <= at < |b| && b[at] == x;
      BareWithout(a, 0);
      BareWithout(b, at);
      var a', b' := a[..0] + a[1..], b[..at] + b[at + 1..];
      SameRest(multiset(a'), multiset(b'), x);
      BareOfPermutation(a', b');
    }
  }

  lemma SameRest(a: multiset<PageRecord>, b: multiset<PageRecord>, x: PageRecord)
    requires a + multiset{x} == b + multiset{x}
    ensures a == b
  {
    assert a == (a + multiset{x}) - multiset{x};
    assert b == (b + multiset{x}) - multiset{x};
  }

  /** From a registry with distinct slugs, the navigation shows the registered pages, each once,
      with only titles and icons changed, and again with distinct slugs. */
  lemma NavigationShowsEachPageOnce(order: seq<string>, pages: seq<PageRecord>)
    requires DistinctSlugs(pages)
    ensures multiset(BareAll(Navigation(order, pages))) == multiset(BareAll(pages))
    ensures DistinctSlugs(Navigation(order, pages))
  {
    var sorted := Sorted(order, pages);
    SortingPermutes(order, pages);
    NavBuild.OrderingPermutes(sorted);
    var ordered := NavBuild.OrderedRecords(sorted);
    OverridesKeepPages(ordered, NavBuild.AllEntries(ordered));
    BareOfPermutation(ordered, pages);
  }

  lemma OverridesKeepPages(records: seq<PageRecord>, entries: seq<Child>)
    ensures BareAll(NavBuild.OverriddenAll(records, entries)) == BareAll(records)
    ensures DistinctSlugs(records) ==> DistinctSlugs(NavBuild.OverriddenAll(records, entries))
  {
    var shown := NavBuild.OverriddenAll(records, entries);
    if DistinctSlugs(records) {
      forall i, j | 0 <= i < j < |shown| ensures PageSlug(shown[i].path) != PageSlug(shown[j].path) {
        assert shown[i].path == records[i].path && shown[j].path == records[j].path;
      }
    }
  }

  // ----- Deep links -----

  predicate Matches(wanted: string, rec: PageRecord) {
    || wanted == rec.title || wanted == rec.path || wanted == PageSlug(rec.path)
    || (Strip(wanted, IsSlash) != "" && Strip(wanted, IsSlash) == Strip(rec.path, IsSlash))
  }

  lemma StripOfStripped(s: string)
    ensures Strip(Strip(s, IsSlash), IsSlash) == Strip(s, IsSlash)
  {
    var before, after := StripMeans(s, IsSlash);
  }

  /** A link matches a page by its title or path, or by its path but for the slashes around it; a page whose
      path is slashes only is called `home`. */
  lemma MatchesIff(wanted: string, rec: PageRecord)
    ensures Matches(wanted, rec)
       <==> || wanted == rec.title || wanted == rec.path
            || if Strip(rec.path, IsSlash) == "" then wanted == "home"
               else Strip(wanted, IsSlash) == Strip(rec.path, IsSlash)
  {
    StripOfStripped(rec.path);
  }

  /** Resolves the value of the `page` query key (`None` when the key is missing). */
  method MatchNavPage(param: Option<string>, pages: seq<PageRecord>) returns (found: Option<(string, string)>)
    ensures var wanted := Strip(param.GetOr(""), IsSpace);
            && (found.None? <==> wanted == "" || forall i | 0 <= i < |pages| :: !Matches(wanted, pages[i]))
            && (found.Some? ==> exists i :: 0 <= i < |pages| && Matches(wanted, pages[i])
                                  && found.value == (pages[i].path, pages[i].title)
                                  && forall k | 0 <= k < i :: !Matches(wanted, pages[k]))
  {
    var wanted := Strip(param.GetOr(""), IsSpace);
    if wanted == "" {
      return None;
    }
    for i := 0 to |pages|
      invariant forall k | 0 <= k < i :: !Matches(wanted, pages[k])
    {
      var rec := pages[i];
      if Matches(wanted, rec) {
        return Some((rec.path, rec.title));
      }
    }
    found := None;
  }

  /** Follows a deep link: `switches` are the pages, by position, that Streamlit is told to switch
      to.  At most one is, and it is the first page the link matches. */
  method FollowDeepLink(param: Option<string>, records: seq<PageRecord>) returns (switches: seq<nat>)
    requires DistinctSlugs(records)
    ensures |switches| <= 1
    ensures var wanted := Strip(param.GetOr(""), IsSpace);
            && (switches == [] <==> wanted == "" || forall i | 0 <= i < |records| :: !Matches(wanted, records[i]))
            && (switches != [] ==> switches[0] < |records| && Matches(wanted, records[switches[0]])
                                   && forall k | 0 <= k < switches[0] :: !Matches(wanted, records[k]))
  {
    switches := [];
    var matched := MatchNavPage(param, records);
    if matched.Some? {
      var wantSlug := PageSlug(matched.value.0);
      ghost var wanted := Strip(param.GetOr(""), IsSpace);
      ghost var first :| 0 <= first < |records| && Matches(wanted, records[first])
                      && matched.value == (records[first].path, records[first].title)
                      && forall k | 0 <= k < first :: !Matches(wanted, records[k]);
      for i := 0 to |records|
        invariant switches == if first < i then [first] else []
      {
        if PageSlug(records[i].path) == wantSlug {
          SlugIsUnique(records, first, i);
          switches := switches + [i];
        }
      }
    }
  }

  lemma SlugIsUnique(records: seq<PageRecord>, i: nat, j: nat)
    requires DistinctSlugs(records) && i < |records| && j < |records|
    requires PageSlug(records[i].path) == PageSlug(records[j].path)
    ensures i == j
  {
    assert !(i < j) && !(j < i);
  }
}
