/** Page records, their slugs, and the registry that keeps slugs distinct. */
module Pages {
  import opened Text
  import opened Wrappers
  import Sorting

  /** An entry of a page's `children` metadata.  A value is what `str` makes of it; `None` stands
      for an absent key and for a null value alike. */
  datatype Child =
    | NotAMapping
    | Entry(path: Option<string>, urlPath: Option<string>, title: Option<string>, icon: Option<string>)

  datatype PageMeta = PageMeta(pageIcon: Option<string>, children: seq<Child>)

  /** A registered page; `handler` identifies the page function. */
  datatype PageRecord = PageRecord(path: string, title: string, handler: nat, tags: seq<string>, description: string,
                                   icon: Option<string>, meta: Option<PageMeta>)

  function PageSlug(path: string): string {
    var s := Strip(path, IsSlash);
    if s == "" then "home" else s
  }

  /** The slug is the path without the slashes around it, and `home` where nothing else is left. */
  lemma SlugMeans(path: string) returns (before: string, after: string)
    ensures forall c | c in before + after :: c == '/'
    ensures (PageSlug(path) == "home" && path == before + after)
         || (path == before + PageSlug(path) + after && PageSlug(path) != ""
             && PageSlug(path)[0] != '/' && PageSlug(path)[|PageSlug(path)| - 1] != '/')
  {
    before, after := StripMeans(path, IsSlash);
    if Strip(path, IsSlash) == "" { assert before + "" + after == before + after; }
  }

  ghost predicate DistinctSlugs(records: seq<PageRecord>) {
    forall i, j | 0 <= i < j < |records| :: PageSlug(records[i].path) != PageSlug(records[j].path)
  }

  function ChildrenOf(rec: PageRecord): seq<Child> {
    if rec.meta.Some? then rec.meta.value.children else []
  }

  /** The slug a `children` entry names, if it names one: `path` wins over `url_path`. */
  function Target(c: Child): Option<string> {
    if c.NotAMapping? then None
    else if c.path.Some? then Some(PageSlug(c.path.value))
    else if c.urlPath.Some? then Some(PageSlug(c.urlPath.value))
    else None
  }

  /** The children are those of the page's metadata; without any there are none. */
  lemma ChildrenShapes(rec: PageRecord, icon: Option<string>, children: seq<Child>)
    ensures ChildrenOf(rec.(meta := Some(PageMeta(icon, children)))) == children
    ensures ChildrenOf(rec.(meta := None)) == []
  {
  }

  /** A path wins over a `url_path`; titles and icons name nothing. */
  lemma TargetShapes(path: string, urlPath: Option<string>, title: Option<string>, icon: Option<string>)
    ensures Target(Entry(Some(path), urlPath, title, icon)) == Some(PageSlug(path))
    ensures Target(Entry(None, Some(path), title, icon)) == Some(PageSlug(path))
    ensures Target(Entry(None, None, title, icon)) == None && Target(NotAMapping) == None
  {
  }

  // ----- Reordering keeps slugs distinct -----

  lemma {:induction false} TwiceInMultiset<T>(s: seq<T>, x: T) returns (a: nat, b: nat)
    requires multiset(s)[x] >= 2
    ensures a < b < |s| && s[a] == x && s[b] == x
  {
    var last := |s| - 1;
    assert s == s[..last] + [s[last]];
    if multiset(s[..last])[x] >= 2 {
      a, b := TwiceInMultiset(s[..last], x);
    } else {
      assert x in multiset(s[..last]) && s[last] == x;
      b := last;
      a :| 0 <= a < last && s[..last][a] == x;
    }
  }

  lemma PermutationKeepsSlugs(s: seq<PageRecord>, t: seq<PageRecord>)
    requires DistinctSlugs(s) && multiset(s) == multiset(t)
    ensures DistinctSlugs(t)
  {
    forall i, j | 0 <= i < j < |t| ensures PageSlug(t[i].path) != PageSlug(t[j].path) {
      assert t[i] in multiset(t) && t[j] in multiset(t);
      if t[i] == t[j] {
        assert t == t[..j] + [t[j]] + t[j + 1..];
        assert t[i] in t[..j];
        assert multiset(t)[t[i]] >= 2;
        var a, b := TwiceInMultiset(s, t[i]);
        assert false;
      }
      var a :| 0 <= a < |s| && s[a] == t[i];
      var b :| 0 <= b < |s| && s[b] == t[j];
      assert a < b || b < a;
    }
  }

  // ----- String order -----

  /** Python's order on `str`: lexicographic by code point. */
  predicate StringLeq(a: string, b: string) {
    a == "" || (b != "" && (a[0] < b[0] || (a[0] == b[0] && StringLeq(a[1..], b[1..]))))
  }

  /** `a` stands before `b` where they first differ. */
  ghost predicate SmallerAt(a: string, b: string, k: nat) {
    k < |a| && k < |b| && a[..k] == b[..k] && a[k] < b[k]
  }

  /** The order is that of a dictionary: a prefix comes first, and else the first difference decides. */
  lemma {:induction false} StringLeqMeans(a: string, b: string)
    ensures StringLeq(a, b) <==> a <= b || exists k: nat :: SmallerAt(a, b, k)
  {
    if a == "" || b == "" {
    } else if a[0] == b[0] {
      StringLeqMeans(a[1..], b[1..]);
      forall k: nat ensures SmallerAt(a, b, k) <==> k > 0 && SmallerAt(a[1..], b[1..], k - 1) {
        SmallerLater(a, b, k);
      }
      assert a == [a[0]] + a[1..] && b == [b[0]] + b[1..];
      if k: nat :| SmallerAt(a[1..], b[1..], k) { assert SmallerAt(a, b, k + 1); }
    } else {
      forall k: nat ensures SmallerAt(a, b, k) <==> k == 0 && a[0] < b[0] {
        if k > 0 && k < |a| && k < |b| { assert a[..k][0] == a[0] && b[..k][0] == b[0]; }
      }
      assert a[0] < b[0] ==> SmallerAt(a, b, 0);
    }
  }

  lemma SmallerLater(a: string, b: string, k: nat)
    requires a != "" && b != "" && a[0] == b[0]
    ensures SmallerAt(a, b, k) <==> k > 0 && SmallerAt(a[1..], b[1..], k - 1)
  {
    if 0 < k < |a| && k < |b| {
      assert a[..k] == [a[0]] + a[1..][..k - 1] && b[..k] == [b[0]] + b[1..][..k - 1];
      assert a[..k][1..] == a[1..][..k - 1] && b[..k][1..] == b[1..][..k - 1];
    }
  }

  lemma {:induction false} StringLeqTotal(a: string, b: string)
    ensures StringLeq(a, b) || StringLeq(b, a)
    ensures StringLeq(a, b) && StringLeq(b, a) ==> a == b
  {
    if a != "" && b != "" {
      StringLeqTotal(a[1..], b[1..]);
      assert a == [a[0]] + a[1..] && b == [b[0]] + b[1..];
    }
  }

  lemma {:induction false} StringLeqTransitive(a: string, b: string, c: string)
    requires StringLeq(a, b) && StringLeq(b, c)
    ensures StringLeq(a, c)
  {
    if a != "" && a[0] == b[0] == c[0] { StringLeqTransitive(a[1..], b[1..], c[1..]); }
  }

  /** The order of a page registry after discovery: by path, then by title. */
  predicate PathTitleLeq(a: PageRecord, b: PageRecord) {
    if a.path == b.path then StringLeq(a.title, b.title) else StringLeq(a.path, b.path)
  }

  lemma PathTitleLeqIsPreorder()
    ensures Sorting.TotalPreorder(PathTitleLeq)
  {
    forall a, b ensures PathTitleLeq(a, b) || PathTitleLeq(b, a) {
      StringLeqTotal(a.path, b.path);
      StringLeqTotal(a.title, b.title);
    }
    forall a, b, c | PathTitleLeq(a, b) && PathTitleLeq(b, c) ensures PathTitleLeq(a, c) {
      if a.path == b.path == c.path {
        StringLeqTransitive(a.title, b.title, c.title);
      } else if a.path != b.path && b.path != c.path {
        StringLeqTransitive(a.path, b.path, c.path);
        StringLeqTotal(a.path, b.path);
      }
    }
  }

  // ----- The registry -----

  /** What is known of a page function before it is registered: whether strict signatures are asked for
      and violated, and whether a session store is asked for and configured. */
  datatype Handler = Handler(id: nat, defaultTitle: string, description: string,
                             strict: bool, badSignature: bool, wantsStore: bool, storeConfigured: bool)

  datatype RegistrationError =
    | BadSignature
    | StoreMissing
    | DuplicatePath(path: string)
    | SlugTaken(slug: string, owner: string)

  predicate Unfit(handler: Handler) {
    (handler.strict && handler.badSignature) || (handler.wantsStore && !handler.storeConfigured)
  }

  predicate HasPath(pages: seq<PageRecord>, path: string) {
    exists i :: 0 <= i < |pages| && pages[i].path == path
  }

  predicate HasSlug(pages: seq<PageRecord>, slug: string) {
    exists i :: 0 <= i < |pages| && PageSlug(pages[i].path) == slug
  }

  class PageRegistry {
    var pages: seq<PageRecord>

    ghost predicate Valid()
      reads this
    {
      DistinctSlugs(pages)
    }

    constructor ()
      ensures Valid() && pages == []
    {
      pages := [];
    }

    /** Registers one page.  It is refused, with the registry unchanged, exactly when its handler is
        unfit or a registered page has the same slug; the error says which, in that order. */
    method Register(path: string, title: Option<string>, handler: Handler, tags: seq<string>,
                    icon: Option<string>, meta: Option<PageMeta>)
      returns (outcome: Outcome<RegistrationError>)
      requires Valid()
      modifies this
      ensures Valid()
      ensures outcome.Fail? <==> Unfit(handler) || HasSlug(old(pages), PageSlug(path))
      ensures outcome.Fail? ==> pages == old(pages)
      ensures outcome.Fail? ==>
                match outcome.error
                case BadSignature => handler.strict && handler.badSignature
                case StoreMissing =>
                  handler.wantsStore && !handler.storeConfigured && !(handler.strict && handler.badSignature)
                case DuplicatePath(p) => p == path && HasPath(pages, path) && !Unfit(handler)
                case SlugTaken(slug, owner) =>
                  slug == PageSlug(path) == PageSlug(owner)
                  && HasPath(pages, owner) && !HasPath(pages, path) && !Unfit(handler)
      ensures outcome.Pass? ==> pages == old(pages) + [PageRecord(path,
                  if title.Some? && title.value != "" then title.value else handler.defaultTitle,
                  handler.id, tags, handler.description, icon, meta)]
    {
      if handler.strict && handler.badSignature {
        return Fail(BadSignature);
      }
      if !handler.storeConfigured && handler.wantsStore {
        return Fail(StoreMissing);
      }
      if HasPath(pages, path) {
        return Fail(DuplicatePath(path));
      }
      var slug := PageSlug(path);
      for i := 0 to |pages|
        invariant forall k | 0 <= k < i :: PageSlug(pages[k].path) != slug
      {
        if PageSlug(pages[i].path) == slug {
          return Fail(SlugTaken(slug, pages[i].path));
        }
      }
      var shown := if title.Some? && title.value != "" then title.value else handler.defaultTitle;
      pages := pages + [PageRecord(path, shown, handler.id, tags, handler.description, icon, meta)];
      outcome := Pass;
    }

    /** What discovery does once every page module has registered its pages. */
    method SortPages()
      requires Valid()
      modifies this
      ensures Valid()
      ensures multiset(pages) == multiset(old(pages)) && Sorting.SortedBy(pages, PathTitleLeq)
    {
      PathTitleLeqIsPreorder();
      Sorting.SortIsOrderedPermutation(pages, PathTitleLeq);
      PermutationKeepsSlugs(pages, Sorting.Sort(pages, PathTitleLeq));
      pages := Sorting.Sort(pages, PathTitleLeq);
    }
  }
}
