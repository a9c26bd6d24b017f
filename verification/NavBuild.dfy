/** Navigation building: declared edges, ordering of records, and the merge of child overrides. */
module NavBuild {
  import opened Wrappers
  import opened Pages
  import NavGraph

  // ----- Declared edges -----

  ghost predicate DeclaresAmong(rec: PageRecord, slug: string, k: nat) {
    exists m | 0 <= m < k && m < |ChildrenOf(rec)| :: Target(ChildrenOf(rec)[m]) == Some(slug)
  }

  ghost predicate Declares(rec: PageRecord, slug: string) {
    DeclaresAmong(rec, slug, |ChildrenOf(rec)|)
  }

  /** `(p, c)`: page `p` names the slug of page `c`, another page, among its children. */
  ghost predicate IsEdge(records: seq<PageRecord>, p: nat, c: nat) {
    p < |records| && c < |records| && p != c && Declares(records[p], PageSlug(records[c].path))
  }

  ghost function EdgesOf(records: seq<PageRecord>): NavGraph.Edges {
    set p, c | p in NavGraph.Nodes(|records|) && c in NavGraph.Nodes(|records|) && IsEdge(records, p, c) :: (p, c)
  }

  /** A declared child that is no registered page. */
  ghost predicate IsUnknown(records: seq<PageRecord>, slug: string) {
    !HasSlug(records, slug) && DeclaredBefore(records, |records|, slug)
  }

  ghost predicate DeclaredBefore(records: seq<PageRecord>, i: nat, slug: string) {
    exists p | 0 <= p < i && p < |records| :: Declares(records[p], slug)
  }

  lemma DeclaredByNext(records: seq<PageRecord>, i: nat, slug: string)
    requires i < |records|
    ensures DeclaredBefore(records, i + 1, slug) <==> DeclaredBefore(records, i, slug) || Declares(records[i], slug)
  {
    if DeclaredBefore(records, i + 1, slug) {
      var p :| 0 <= p < i + 1 && p < |records| && Declares(records[p], slug);
      assert p < i || p == i;
    }
  }

  /** `index`: from slug to position. */
  method IndexBySlug(records: seq<PageRecord>) returns (index: map<string, nat>)
    requires DistinctSlugs(records)
    ensures forall i | 0 <= i < |records| :: PageSlug(records[i].path) in index && index[PageSlug(records[i].path)] == i
    ensures forall s | s in index :: index[s] < |records| && PageSlug(records[index[s]].path) == s
  {
    index := map[];
    for i := 0 to |records|
      invariant forall k | 0 <= k < i :: PageSlug(records[k].path) in index && index[PageSlug(records[k].path)] == k
      invariant forall s | s in index :: index[s] < i && PageSlug(records[index[s]].path) == s
    {
      index := index[PageSlug(records[i].path) := i];
    }
  }

  /** `edge_set.add((ps, c))` for every child found. */
  method AddRow(edges: NavGraph.Edges, i: nat, children: set<nat>) returns (edgeSet: NavGraph.Edges)
    ensures forall p: nat, c: nat :: (p, c) in edgeSet <==> (p, c) in edges || (p == i && c in children)
  {
    edgeSet := edges + set c | c in children :: (i, c);
  }

  /** Collects the declared edges, and the slugs a warning is given for. */
  method DeclaredEdges(records: seq<PageRecord>) returns (edgeSet: NavGraph.Edges, unknown: seq<string>)
    requires DistinctSlugs(records)
    ensures edgeSet == EdgesOf(records)
    ensures forall s :: s in unknown <==> IsUnknown(records, s)
  {
    var index := IndexBySlug(records);
    edgeSet, unknown := {}, [];
    for i := 0 to |records|
      invariant forall p: nat, c: nat :: (p, c) in edgeSet <==> p < i && IsEdge(records, p, c)
      invariant forall s :: s in unknown <==> s !in index && DeclaredBefore(records, i, s)
    {
      var children, missing := NamedChildren(records, index, i);
      forall s ensures DeclaredBefore(records, i + 1, s) <==> DeclaredBefore(records, i, s) || Declares(records[i], s) {
        DeclaredByNext(records, i, s);
      }
      edgeSet := AddRow(edgeSet, i, children);
      unknown := unknown + missing;
    }
    AllEdges(records, edgeSet);
    IndexedSlugs(records, index);
  }

  lemma AllEdges(records: seq<PageRecord>, edges: NavGraph.Edges)
    requires forall p: nat, c: nat :: (p, c) in edges <==> p < |records| && IsEdge(records, p, c)
    ensures edges == EdgesOf(records)
  {
    forall e ensures e in edges <==> e in EdgesOf(records) {
      assert (e.0, e.1) in edges <==> IsEdge(records, e.0, e.1);
    }
  }

  lemma IndexedSlugs(records: seq<PageRecord>, index: map<string, nat>)
    requires forall j | 0 <= j < |records| :: PageSlug(records[j].path) in index
    requires forall s | s in index :: index[s] < |records| && PageSlug(records[index[s]].path) == s
    ensures forall s :: s in index <==> HasSlug(records, s)
  {
  }

  /** The children of one page: those that are registered, and the slugs that are not. */
  method NamedChildren(records: seq<PageRecord>, index: map<string, nat>, i: nat)
    returns (children: set<nat>, missing: seq<string>)
    requires DistinctSlugs(records) && i < |records|
    requires forall j | 0 <= j < |records| ::
               PageSlug(records[j].path) in index && index[PageSlug(records[j].path)] == j
    requires forall s | s in index :: index[s] < |records| && PageSlug(records[index[s]].path) == s
    ensures forall c: nat :: c in children <==> IsEdge(records, i, c)
    ensures forall s :: s in missing <==> s !in index && Declares(records[i], s)
  {
    var rec := records[i];
    var own := PageSlug(rec.path);
    var entries := ChildrenOf(rec);
    children, missing := {}, [];
    for k := 0 to |entries|
      invariant forall c | c in children :: c < |records| && c != i
      invariant forall s | s in index && index[s] != i :: index[s] in children <==> DeclaresAmong(rec, s, k)
      invariant forall s :: s in missing <==> s !in index && DeclaresAmong(rec, s, k)
    {
      var target := Target(entries[k]);
      OneMoreEntry(rec, k);
      if target.None? {
        continue;
      }
      var slug := target.value;
      if slug == own {
        continue;
      }
      if slug !in index {
        missing := missing + [slug];
        continue;
      }
      children := children + {index[slug]};
    }
    forall c: nat ensures c in children <==> IsEdge(records, i, c) {
      if c < |records| {
        assert index[PageSlug(records[c].path)] == c;
      }
    }
  }

  lemma OneMoreEntry(rec: PageRecord, k: nat)
    requires k < |ChildrenOf(rec)|
    ensures forall slug :: DeclaresAmong(rec, slug, k + 1)
                      <==> DeclaresAmong(rec, slug, k) || Target(ChildrenOf(rec)[k]) == Some(slug)
  {
    forall slug ensures DeclaresAmong(rec, slug, k + 1)
                   <==> DeclaresAmong(rec, slug, k) || Target(ChildrenOf(rec)[k]) == Some(slug)
    {
      if DeclaresAmong(rec, slug, k + 1) {
        var m :| 0 <= m < k + 1 && m < |ChildrenOf(rec)| && Target(ChildrenOf(rec)[m]) == Some(slug);
        assert m < k || m == k;
      }
    }
  }

  // ----- Ordering records -----

  ghost predicate Inside(n: nat, order: seq<nat>) {
    forall i | 0 <= i < |order| :: order[i] < n
  }

  /** `[by_slug[s] for s in out_slugs]`. */
  function Pick(records: seq<PageRecord>, order: seq<nat>): (r: seq<PageRecord>)
    requires Inside(|records|, order)
    ensures |r| == |order| && forall i | 0 <= i < |r| :: r[i] == records[order[i]]
  {
    seq(|order|, i requires 0 <= i < |order| => records[order[i]])
  }

  lemma PickSplit(records: seq<PageRecord>, order: seq<nat>, at: nat)
    requires Inside(|records|, order) && at < |order|
    ensures Inside(|records|, order[..at] + order[at + 1..])
    ensures multiset(Pick(records, order))
         == multiset(Pick(records, order[..at] + order[at + 1..])) + multiset{records[order[at]]}
  {
    var p := Pick(records, order);
    assert Pick(records, order[..at] + order[at + 1..]) == p[..at] + p[at + 1..];
    assert p == p[..at] + [p[at]] + p[at + 1..];
  }

  /** Picking along a permutation permutes the records. */
  lemma {:induction false} PickPermutes(records: seq<PageRecord>, order: seq<nat>)
    requires NavGraph.IsPermutation(|records|, order)
    ensures Inside(|records|, order)
    ensures multiset(Pick(records, order)) == multiset(records)
    decreases |records|
  {
    assert forall i | 0 <= i < |order| :: order[i] in order;
    if records != [] {
      var last := |records| - 1;
      var at := Position(order, last);
      var shorter := order[..at] + order[at + 1..];
      var rest := records[..last];
      PickSplit(records, order, at);
      ShorterPermutation(order, at);
      PickPermutes(rest, shorter);
      assert Pick(rest, shorter) == Pick(records, shorter);
      assert records == rest + [records[last]];
    }
  }

  lemma Position(order: seq<nat>, v: nat) returns (at: nat)
    requires NavGraph.IsPermutation(|order|, order) && v < |order|
    ensures at < |order| && order[at] == v
  {
    NavGraph.DistinctSize(order);
    if v !in order {
      var e := NavGraph.Elements(order);
      SubsetSize(e, NavGraph.Nodes(|order|) - {v});
      assert false;
    }
    at :| 0 <= at < |order| && order[at] == v;
  }

  lemma ShorterPermutation(order: seq<nat>, at: nat)
    requires NavGraph.IsPermutation(|order|, order) && at < |order| && order[at] == |order| - 1
    ensures NavGraph.IsPermutation(|order| - 1, order[..at] + order[at + 1..])
  {
    NavGraph.RemoveAt(order, at);
    var r := order[..at] + order[at + 1..];
    forall v | v in r ensures v < |order| - 1 {
      assert v in order && v != order[at];
    }
  }

  ghost function OrderOf(records: seq<PageRecord>): (order: seq<nat>)
    ensures |order| == |records| && Inside(|records|, order)
  {
    EdgesAreWellFormed(records);
    NavGraph.OrderIsPermutation(|records|, EdgesOf(records));
    var order := NavGraph.Order(|records|, EdgesOf(records));
    assert forall i | 0 <= i < |order| :: order[i] in order;
    order
  }

  ghost function OrderedRecords(records: seq<PageRecord>): seq<PageRecord> {
    Pick(records, OrderOf(records))
  }

  lemma EdgesAreWellFormed(records: seq<PageRecord>)
    ensures NavGraph.WellFormed(|records|, EdgesOf(records))
  {
  }

  /** Orders pages so that each declared child comes after its declaring parents.  `unknown` are
      the slugs warned about, and `cyclic` tells whether the cycle warning was given. */
  method OrderRecordsWithChildren(records: seq<PageRecord>)
    returns (out: seq<PageRecord>, unknown: seq<string>, cyclic: bool)
    requires DistinctSlugs(records)
    ensures out == OrderedRecords(records)
    ensures forall s :: s in unknown <==> IsUnknown(records, s)
    ensures cyclic <==> NavGraph.HasCycle(EdgesOf(records))
  {
    EdgesAreWellFormed(records);
    if records == [] {
      NoRecordsNoEdges(records);
      return [], [], false;
    }
    var edgeSet;
    edgeSet, unknown := DeclaredEdges(records);
    if edgeSet == {} {
      NavGraph.OrderWithoutEdges(|records|);
      NoEdgesNoCycle();
      return records, unknown, false;
    }
    var order;
    order, cyclic := NavGraph.OrderNodes(|records|, edgeSet);
    assert order == OrderOf(records);
    out := Pick(records, order);
  }

  lemma NoEdgesNoCycle()
    ensures !NavGraph.HasCycle({})
  {
    var none: NavGraph.Edges := {};
    forall w | |w| >= 2 ensures !NavGraph.IsWalk(none, w) {
      assert (w[0], w[0 + 1]) !in none;
    }
  }

  lemma NoRecordsNoEdges(records: seq<PageRecord>)
    requires records == []
    ensures EdgesOf(records) == {} && !NavGraph.HasCycle(EdgesOf(records))
    ensures OrderedRecords(records) == []
    ensures forall s :: !IsUnknown(records, s)
  {
    assert EdgesOf(records) == {};
    NoEdgesNoCycle();
  }

  /** Ordering permutes the pages, so it keeps their slugs distinct. */
  lemma OrderingPermutes(records: seq<PageRecord>)
    ensures multiset(OrderedRecords(records)) == multiset(records)
    ensures DistinctSlugs(records) ==> DistinctSlugs(OrderedRecords(records))
  {
    EdgesAreWellFormed(records);
    NavGraph.OrderIsPermutation(|records|, EdgesOf(records));
    PickPermutes(records, NavGraph.Order(|records|, EdgesOf(records)));
    if DistinctSlugs(records) { PermutationKeepsSlugs(records, OrderedRecords(records)); }
  }

  lemma DeclaredIsEdge(records: seq<PageRecord>, p: nat, c: nat)
    requires p < |records| && c < |records| && p != c && Declares(records[p], PageSlug(records[c].path))
    ensures (p, c) in EdgesOf(records)
  {
    assert IsEdge(records, p, c);
  }

  lemma ParentsPlacedFirst(E: NavGraph.Edges, order: seq<nat>, i: nat, j: nat)
    requires NavGraph.Distinct(order) && NavGraph.ParentsFirst(E, order)
    requires i < |order| && j < |order| && (order[i], order[j]) in E
    ensures i < j
  {
    assert order[i] in order[..j];
  }

  /** Without declared cycles, every page that declares a child comes before that child. */
  lemma ParentsComeFirst(records: seq<PageRecord>, i: nat, j: nat)
    requires DistinctSlugs(records) && !NavGraph.HasCycle(EdgesOf(records))
    requires i < |records| && j < |records| && i != j
    requires Declares(OrderedRecords(records)[i], PageSlug(OrderedRecords(records)[j].path))
    ensures i < j
  {
    var order := OrderOf(records);
    EdgesAreWellFormed(records);
    NavGraph.AcyclicOrderIsLeast(|records|, EdgesOf(records));
    DeclaredIsEdge(records, order[i], order[j]);
    ParentsPlacedFirst(EdgesOf(records), order, i, j);
  }

  // ----- Overrides from children entries -----

  /** All `children` entries of all pages, in the order the pages are scanned. */
  function AllEntries(records: seq<PageRecord>): seq<Child> {
    if records == [] then []
    else AllEntries(records[..|records| - 1]) + ChildrenOf(records[|records| - 1])
  }

  function TitleFor(c: Child, slug: string): Option<string> {
    if Target(c) == Some(slug) then c.title else None
  }

  function IconFor(c: Child, slug: string): Option<string> {
    if Target(c) == Some(slug) then c.icon else None
  }

  /** The last value that some entry gives to `slug`. */
  function Last(entries: seq<Child>, slug: string, value: (Child, string) -> Option<string>): Option<string> {
    if entries == [] then None
    else value(entries[|entries| - 1], slug).OrElse(Last(entries[..|entries| - 1], slug, value))
  }

  /** Entry `k` gives `v` to `slug`, and no entry after it gives anything. */
  ghost predicate GivenLast(entries: seq<Child>, slug: string, value: (Child, string) -> Option<string>, v: string,
                            k: nat)
  {
    k < |entries| && value(entries[k], slug) == Some(v) && forall m | k < m < |entries| :: value(entries[m], slug).None?
  }

  /** `Last` is the value of the last entry that gives one. */
  lemma {:induction false} LastMeansLast(entries: seq<Child>, slug: string, value: (Child, string) -> Option<string>)
    ensures Last(entries, slug, value).None? <==> forall k | 0 <= k < |entries| :: value(entries[k], slug).None?
    ensures forall v ::
              Last(entries, slug, value) == Some(v) <==> exists k: nat :: GivenLast(entries, slug, value, v, k)
  {
    if entries == [] {
    } else {
      var init := entries[..|entries| - 1];
      LastMeansLast(init, slug, value);
      forall v
        ensures Last(entries, slug, value) == Some(v) <==> exists k: nat :: GivenLast(entries, slug, value, v, k)
      {
        OneMoreGiven(init, entries[|init|], slug, value, v);
        assert entries == init + [entries[|init|]];
      }
    }
  }

  lemma OneMoreGiven(init: seq<Child>, last: Child, slug: string, value: (Child, string) -> Option<string>, v: string)
    ensures (exists k: nat :: GivenLast(init + [last], slug, value, v, k))
       <==> || value(last, slug) == Some(v)
            || (value(last, slug).None? && exists k: nat :: GivenLast(init, slug, value, v, k))
  {
    var entries := init + [last];
    assert entries[|init|] == last;
    if value(last, slug) == Some(v) { assert GivenLast(entries, slug, value, v, |init|); }
    if value(last, slug).None? {
      forall k: nat ensures GivenLast(entries, slug, value, v, k) <==> GivenLast(init, slug, value, v, k) {
        assert forall m | 0 <= m < |init| :: entries[m] == init[m];
      }
    }
  }

  function Overridden(rec: PageRecord, entries: seq<Child>): PageRecord {
    var slug := PageSlug(rec.path);
    rec.(title := Last(entries, slug, TitleFor).GetOr(rec.title),
         icon := Last(entries, slug, IconFor).OrElse(rec.icon))
  }

  /** Entry `k` names this slug and gives it a title, or an icon, and no later entry does. */
  ghost predicate TitledLast(entries: seq<Child>, slug: string, k: nat) {
    && k < |entries| && Target(entries[k]) == Some(slug) && entries[k].title.Some?
    && forall m | k < m < |entries| && Target(entries[m]) == Some(slug) :: entries[m].title.None?
  }

  ghost predicate IconedLast(entries: seq<Child>, slug: string, k: nat) {
    && k < |entries| && Target(entries[k]) == Some(slug) && entries[k].icon.Some?
    && forall m | k < m < |entries| && Target(entries[m]) == Some(slug) :: entries[m].icon.None?
  }

  /** A page shows the last title and the last icon that an entry naming its slug gives, and its own where
      none gives any; nothing else about it changes. */
  lemma ShowsLastGiven(rec: PageRecord, entries: seq<Child>)
    ensures var slug, shown := PageSlug(rec.path), Overridden(rec, entries);
            && shown == rec.(title := shown.title, icon := shown.icon)
            && (forall k: nat | TitledLast(entries, slug, k) :: shown.title == entries[k].title.value)
            && (forall k: nat | IconedLast(entries, slug, k) :: shown.icon == entries[k].icon)
            && ((forall k: nat :: !TitledLast(entries, slug, k)) ==> shown.title == rec.title)
            && ((forall k: nat :: !IconedLast(entries, slug, k)) ==> shown.icon == rec.icon)
            && ((forall c | c in entries && Target(c) == Some(slug) :: c.title.None?) ==> shown.title == rec.title)
            && ((forall c | c in entries && Target(c) == Some(slug) :: c.icon.None?) ==> shown.icon == rec.icon)
  {
    var slug := PageSlug(rec.path);
    LastMeansLast(entries, slug, TitleFor);
    LastMeansLast(entries, slug, IconFor);
    forall k: nat | TitledLast(entries, slug, k)
      ensures Last(entries, slug, TitleFor) == entries[k].title
    {
      assert GivenLast(entries, slug, TitleFor, entries[k].title.value, k);
    }
    forall k: nat | IconedLast(entries, slug, k)
      ensures Last(entries, slug, IconFor) == entries[k].icon
    {
      assert GivenLast(entries, slug, IconFor, entries[k].icon.value, k);
    }
    var title, icon := Last(entries, slug, TitleFor), Last(entries, slug, IconFor);
    if title.Some? {
      var k: nat :| GivenLast(entries, slug, TitleFor, title.value, k);
      assert TitledLast(entries, slug, k);
    }
    if icon.Some? {
      var k: nat :| GivenLast(entries, slug, IconFor, icon.value, k);
      assert IconedLast(entries, slug, k);
    }
  }

  function OverriddenAll(records: seq<PageRecord>, entries: seq<Child>): (r: seq<PageRecord>)
    ensures |r| == |records| && forall i | 0 <= i < |r| :: r[i] == Overridden(records[i], entries)
  {
    seq(|records|, i requires 0 <= i < |records| => Overridden(records[i], entries))
  }

  /** What the children entries seen so far say about a slug. */
  datatype Override = Override(title: Option<string>, icon: Option<string>)

  ghost predicate Merged(slugTo: map<string, Override>, entries: seq<Child>) {
    forall s :: (if s in slugTo then slugTo[s] else Override(None, None))
             == Override(Last(entries, s, TitleFor), Last(entries, s, IconFor))
  }

  /** One entry's contribution to `slug_to`. */
  method MergeEntry(raw: Child, slugTo: map<string, Override>, ghost before: seq<Child>)
    returns (merged: map<string, Override>)
    requires Merged(slugTo, before)
    ensures Merged(merged, before + [raw])
  {
    merged := slugTo;
    assert (before + [raw])[..|before|] == before;
    var target := Target(raw);
    if target.Some? {
      var slug := target.value;
      var entry := if slug in merged then merged[slug] else Override(None, None);
      if raw.title.Some? { entry := entry.(title := raw.title); }
      if raw.icon.Some? { entry := entry.(icon := raw.icon); }
      merged := merged[slug := entry];
    }
  }

  /** The first loop: gathers what every children entry says about a slug. */
  method CollectOverrides(records: seq<PageRecord>) returns (slugTo: map<string, Override>)
    ensures Merged(slugTo, AllEntries(records))
  {
    slugTo := map[];
    ghost var seen: seq<Child> := [];
    for i := 0 to |records|
      invariant seen == AllEntries(records[..i]) && Merged(slugTo, seen)
    {
      var children := ChildrenOf(records[i]);
      EntriesOfNext(records, i);
      ghost var before := seen;
      for k := 0 to |children|
        invariant seen == before + children[..k] && Merged(slugTo, seen)
      {
        slugTo := MergeEntry(children[k], slugTo, seen);
        seen := seen + [children[k]];
      }
    }
    assert records[..|records|] == records;
  }

  lemma EntriesOfNext(records: seq<PageRecord>, i: nat)
    requires i < |records|
    ensures AllEntries(records[..i + 1]) == AllEntries(records[..i]) + ChildrenOf(records[i])
  {
    assert records[..i + 1][..i] == records[..i];
  }

  /** The body of the second loop: one page's override, if there is one. */
  method OverrideRecord(rec: PageRecord, slugTo: map<string, Override>, ghost entries: seq<Child>)
    returns (out: PageRecord)
    requires Merged(slugTo, entries)
    ensures out == Overridden(rec, entries)
  {
    var slug := PageSlug(rec.path);
    if slug !in slugTo || slugTo[slug] == Override(None, None) {
      return rec;
    }
    var title, icon := slugTo[slug].title.GetOr(rec.title), slugTo[slug].icon.OrElse(rec.icon);
    out := if title == rec.title && icon == rec.icon then rec else rec.(title := title, icon := icon);
  }

  /** Gives every page the title and icon that the last children entry naming it asks for. */
  method ApplyChildrenOverrides(records: seq<PageRecord>) returns (out: seq<PageRecord>)
    ensures out == OverriddenAll(records, AllEntries(records))
  {
    var slugTo := CollectOverrides(records);
    out := OverrideRecords(records, slugTo, AllEntries(records));
  }

  /** The second loop. */
  method OverrideRecords(records: seq<PageRecord>, slugTo: map<string, Override>, ghost entries: seq<Child>)
    returns (out: seq<PageRecord>)
    requires Merged(slugTo, entries)
    ensures out == OverriddenAll(records, entries)
  {
    out := [];
    for i := 0 to |records|
      invariant |out| == i && forall k | 0 <= k < i :: out[k] == Overridden(records[k], entries)
    {
      var rec := OverrideRecord(records[i], slugTo, entries);
      out := out + [rec];
    }
  }

  lemma {:induction false} SameEntries(a: seq<PageRecord>, b: seq<PageRecord>)
    requires |a| == |b| && forall i | 0 <= i < |a| :: a[i].meta == b[i].meta
    ensures AllEntries(a) == AllEntries(b)
  {
    if a == [] {
    } else {
      SameEntries(a[..|a| - 1], b[..|b| - 1]);
    }
  }

  /** Applying the overrides twice changes nothing more: they only touch titles and icons. */
  lemma OverridingTwice(records: seq<PageRecord>)
    ensures var once := OverriddenAll(records, AllEntries(records));
            OverriddenAll(once, AllEntries(once)) == once
  {
    var once := OverriddenAll(records, AllEntries(records));
    SameEntries(once, records);
  }
}
