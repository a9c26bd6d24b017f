/** The browser-visible URLs, and whether the gateway takes them where they are meant to lead. */
module PublicUrls {
  import opened Text
  import opened Wrappers
  import opened ClientPaths
  import opened GatewayPaths

  /** An absolute `public_base_url` as it parses: its authority is not empty and holds no slash, its
      path starts with one, and `tail` is whatever parameters, query and fragment follow. */
  datatype PublicBase = PublicBase(scheme: string, netloc: string, path: string, tail: string)

  predicate IsParsed(base: PublicBase) {
    && base.netloc != "" && '/' !in base.netloc
    && IsPlain(base.path) && (base.path == "" || base.path[0] == '/')
    && (base.tail == "" || base.tail[0] == ';' || EndsPath(base.tail[0]))
  }

  lemma PlainBaseIsParsed(host: string)
    requires host != "" && '/' !in host
    ensures IsParsed(PublicBase("https", host, "", "")) && IsParsed(PublicBase("https", host, "/app", "?a#b"))
  {
  }

  /** The origin of the request at hand, or of the configured base when there is one. */
  function Origin(base: Option<PublicBase>, scheme: string, netloc: string): string {
    if base.Some? then base.value.scheme + "://" + base.value.netloc
    else RStrip(scheme + "://" + netloc, IsSlash)
  }

  /** What follows the origin in the base that URLs are built on: when the configured base has a path,
      that path and all that follows it, and else the mount. */
  function BasePath(config: Config, base: Option<PublicBase>): string {
    if base.Some? && RStrip(base.value.path, IsSlash) != "" then RStrip(base.value.path + base.value.tail, IsSlash)
    else NormalizeRootMount(config.mount)
  }

  /** A configured base decides the origin, whatever the request; otherwise the request does. */
  lemma OriginSpelled(base: PublicBase, scheme: string, netloc: string)
    ensures Origin(Some(base), scheme, netloc) == base.scheme + "://" + base.netloc
    ensures netloc != "" && netloc[|netloc| - 1] != '/' ==> Origin(None, scheme, netloc) == scheme + "://" + netloc
  {
    if netloc != "" { assert (scheme + "://" + netloc)[|scheme + "://" + netloc| - 1] == netloc[|netloc| - 1]; }
  }

  // ----- Joining -----

  function JoinedParts(parts: seq<string>): string {
    if parts == [] then ""
    else var last := parts[|parts| - 1];
         JoinedParts(parts[..|parts| - 1]) + if last == "" then "" else WithLeadingSlash(last)
  }

  lemma OneMorePart(start: string, parts: seq<string>, i: nat)
    requires i < |parts|
    ensures start + JoinedParts(parts[..i + 1])
         == start + JoinedParts(parts[..i]) + if parts[i] == "" then "" else WithLeadingSlash(parts[i])
  {
    assert parts[..i + 1][..i] == parts[..i];
  }

  method JoinUrl(base: string, parts: seq<string>) returns (out: string)
    ensures out == RStrip(base, IsSlash) + JoinedParts(parts)
  {
    out := RStrip(base, IsSlash);
    for i := 0 to |parts|
      invariant out == RStrip(base, IsSlash) + JoinedParts(parts[..i])
    {
      OneMorePart(RStrip(base, IsSlash), parts, i);
      var part := parts[i];
      if part == "" { continue; }
      out := out + WithLeadingSlash(part);
    }
    assert parts[..|parts|] == parts;
  }

  lemma JoinedOne(part: string)
    ensures JoinedParts([part]) == if part == "" then "" else WithLeadingSlash(part)
  {
    assert [part][..0] == [];
  }

  lemma RStripOfSum(a: string, b: string, drop: char -> bool)
    ensures RStrip(a + b, drop) == if RStrip(b, drop) == "" then RStrip(a, drop) else a + RStrip(b, drop)
    decreases |b|
  {
    if b == "" {
      assert a + b == a;
    } else {
      assert (a + b)[..|a + b| - 1] == a + b[..|b| - 1];
      if drop(b[|b| - 1]) { RStripOfSum(a, b[..|b| - 1], drop); }
    }
  }

  lemma OriginHasNoTrailingSlash(base: Option<PublicBase>, scheme: string, netloc: string)
    requires base.Some? ==> IsParsed(base.value)
    ensures RStrip(Origin(base, scheme, netloc), IsSlash) == Origin(base, scheme, netloc)
  {
    if base.Some? {
      var origin := Origin(base, scheme, netloc);
      assert origin[|origin| - 1] == base.value.netloc[|base.value.netloc| - 1];
    } else {
      RStripShape(scheme + "://" + netloc, IsSlash);
      RStripShape(RStrip(scheme + "://" + netloc, IsSlash), IsSlash);
    }
  }

  lemma BasePathShape(config: Config, base: Option<PublicBase>)
    requires base.Some? ==> IsParsed(base.value)
    ensures var path := BasePath(config, base);
            path == "" || (path[0] == '/' && !EndsIn(path, IsSlash))
  {
    MountShape(config.mount);
    if base.Some? && RStrip(base.value.path, IsSlash) != "" {
      RStripOfSum(base.value.path, base.value.tail, IsSlash);
      RStripShape(base.value.path, IsSlash);
      RStripShape(base.value.path + base.value.tail, IsSlash);
    }
  }

  method AppBase(config: Config, base: Option<PublicBase>, scheme: string, netloc: string) returns (url: string)
    requires base.Some? ==> IsParsed(base.value)
    ensures url == Origin(base, scheme, netloc) + BasePath(config, base)
  {
    var mount := NormalizeRootMount(config.mount);
    OriginHasNoTrailingSlash(base, scheme, netloc);
    MountShape(config.mount);
    JoinedOne(mount);
    var origin := Origin(base, scheme, netloc);
    if base.Some? && RStrip(base.value.path, IsSlash) != "" {
      var follows := base.value.path + base.value.tail;
      RStripOfSum(base.value.path, base.value.tail, IsSlash);
      RStripOfSum(origin, follows, IsSlash);
      url := RStrip(base.value.scheme + "://" + base.value.netloc + follows, IsSlash);
    } else if mount != "" {
      url := JoinUrl(origin, [mount]);
    } else {
      url := origin;
    }
  }

  lemma AppBaseStripped(config: Config, base: Option<PublicBase>, scheme: string, netloc: string)
    requires base.Some? ==> IsParsed(base.value)
    ensures var app := Origin(base, scheme, netloc) + BasePath(config, base); RStrip(app, IsSlash) == app
  {
    var origin, path := Origin(base, scheme, netloc), BasePath(config, base);
    BasePathShape(config, base);
    OriginHasNoTrailingSlash(base, scheme, netloc);
    RStripShape(path, IsSlash);
    RStripOfSum(origin, path, IsSlash);
    if path == "" { assert origin + path == origin; }
  }

  method ApiBase(config: Config, base: Option<PublicBase>, scheme: string, netloc: string) returns (url: string)
    requires base.Some? ==> IsParsed(base.value)
    ensures url == Origin(base, scheme, netloc) + BasePath(config, base) + config.Prefix()
  {
    var app := AppBase(config, base, scheme, netloc);
    AppBaseStripped(config, base, scheme, netloc);
    ApiMountShape(config.apiMount);
    JoinedOne(config.Prefix());
    url := JoinUrl(app, [config.Prefix()]);
  }

  /** What follows the origin in an API URL. */
  function UrlPath(config: Config, base: Option<PublicBase>, page: string): string {
    BasePath(config, base) + RStrip(config.Prefix(), IsSlash) + page
  }

  /** `health_url` and `ready_url`, for the two pages. */
  method ApiUrl(config: Config, base: Option<PublicBase>, scheme: string, netloc: string, page: string)
    returns (url: string)
    requires base.Some? ==> IsParsed(base.value)
    requires page in {"/healthz", "/readyz"}
    ensures url == Origin(base, scheme, netloc) + UrlPath(config, base, page)
  {
    var api := ApiBase(config, base, scheme, netloc);
    url := JoinUrl(api, [page]);
    PagesAreRooted(page);
    ApiUrlSpelled(config, base, scheme, netloc, page);
  }

  lemma PagesAreRooted(page: string)
    requires page in {"/healthz", "/readyz"}
    ensures page != "" && page[0] == '/'
  {
  }

  lemma ApiUrlSpelled(config: Config, base: Option<PublicBase>, scheme: string, netloc: string, page: string)
    requires base.Some? ==> IsParsed(base.value)
    requires page != "" && page[0] == '/'
    ensures var app := Origin(base, scheme, netloc) + BasePath(config, base);
            RStrip(app + config.Prefix(), IsSlash) + JoinedParts([page])
            == Origin(base, scheme, netloc) + UrlPath(config, base, page)
  {
    ApiBaseStripped(config, base, scheme, netloc);
    JoinedOne(page);
    Regroup(Origin(base, scheme, netloc), BasePath(config, base), RStrip(config.Prefix(), IsSlash), page);
  }

  lemma ApiBaseStripped(config: Config, base: Option<PublicBase>, scheme: string, netloc: string)
    requires base.Some? ==> IsParsed(base.value)
    ensures var app := Origin(base, scheme, netloc) + BasePath(config, base);
            RStrip(app + config.Prefix(), IsSlash) == app + RStrip(config.Prefix(), IsSlash)
  {
    var app := Origin(base, scheme, netloc) + BasePath(config, base);
    AppBaseStripped(config, base, scheme, netloc);
    RStripOfSum(app, config.Prefix(), IsSlash);
    StrippedPrefix(config);
    assert app + "" == app;
  }

  lemma Regroup(a: string, b: string, c: string, d: string)
    ensures ((a + b) + c) + d == a + (b + c + d)
  {
  }

  // ----- Where the URLs lead -----

  /** Is this the path of the page: under the mount that routing goes by, or bare where that is not
      under the mount itself? */
  predicate IsPagePath(config: Config, path: string, page: string) {
    var m, q := config.RoutedMount(), config.Prefix() + page;
    path == m + q || (path == q && (m == "" || !Under(q, m)))
  }

  /** Does a base lead to the page under this prefix, which is clean?  One that a client requests as it
      stands: when the API is not at the root and the base is the mount that routing goes by.  One with
      dot segments: when what remains of it, followed by prefix and page, is the page's path.  One with a
      `?` or `#`: when what is requested of it is. */
  predicate BaseLeads(config: Config, base: string, page: string) {
    if IsClean(base) then config.Prefix() != "/" && base == config.RoutedMount()
    else if IsPlain(base) then
      IsRooted(base) && IsPagePath(config, Resolved(base) + (RStrip(config.Prefix(), IsSlash) + page), page)
    else IsPagePath(config, Requested(base), page)
  }

  /** A health or readiness URL leads to its page, for a client that follows it, exactly when the prefix
      is within Latin-1 and clean and the base leads there. */
  lemma UrlReachesIff(config: Config, base: Option<PublicBase>, page: string)
    requires base.Some? ==> IsParsed(base.value)
    requires page in {"/healthz", "/readyz"}
    ensures Reaches(config, Request(Http, Get, Requested(UrlPath(config, base, page)), ""), page)
       <==> && IsLatin1(config.Prefix()) && IsClean(config.Prefix())
            && BaseLeads(config, BasePath(config, base), page)
  {
    var c := Requested(UrlPath(config, base, page));
    UrlStart(config, base, page);
    assert page in PAGES;
    ReachesIffDispatched(config, Request(Http, Get, c, ""), page);
    if IsClean(config.Prefix()) {
      UrlDispatchedIff(config, base, page);
    } else {
      UncleanPrefixMisses(config, c, page);
    }
  }

  lemma UrlStart(config: Config, base: Option<PublicBase>, page: string)
    requires base.Some? ==> IsParsed(base.value)
    requires page in PAGES
    ensures var c := Requested(UrlPath(config, base, page)); StartsWith(c, "/") && IsClean(c)
  {
    BasePathShape(config, base);
    ApiMountShape(config.apiMount);
    StrippedPrefix(config);
    PagesAreNotDebug(config.Prefix(), page);
    UrlStarts(BasePath(config, base), RStrip(config.Prefix(), IsSlash), page);
  }

  lemma UrlStarts(path: string, stripped: string, page: string)
    requires IsRooted(path) && IsRooted(stripped) && page != "" && page[0] == '/'
    ensures StartsWith(Requested(path + stripped + page), "/") && IsClean(Requested(path + stripped + page))
  {
    Associates(path, stripped, page);
    RequestedStart(path, stripped + page);
  }

  lemma CleanEnd(config: Config, page: string)
    requires page in PAGES && IsClean(config.Prefix())
    ensures IsClean(RStrip(config.Prefix(), IsSlash) + page) && RStrip(config.Prefix(), IsSlash) + page != ""
  {
    PagesAreClean(page);
    StrippedPrefix(config);
    EmptyIsClean();
    ApiMountShape(config.apiMount);
    CleanSum(RStrip(config.Prefix(), IsSlash), page);
    PagesAreNotDebug(config.Prefix(), page);
  }

  lemma EmptyIsClean()
    ensures IsClean("")
  {
  }

  lemma UrlDispatchedIff(config: Config, base: Option<PublicBase>, page: string)
    requires base.Some? ==> IsParsed(base.value)
    requires page in {"/healthz", "/readyz"} && IsClean(config.Prefix())
    ensures SplitGatewayPaths(Requested(UrlPath(config, base, page)), config.GatewayMount()).dispatch
            == config.Prefix() + page
       <==> BaseLeads(config, BasePath(config, base), page)
  {
    var path, follows := BasePath(config, base), RStrip(config.Prefix(), IsSlash) + page;
    BasePathShape(config, base);
    assert page in PAGES;
    CleanEnd(config, page);
    Associates(path, RStrip(config.Prefix(), IsSlash), page);
    if IsClean(path) {
      RequestedBelow(path, follows);
      CleanIsResolved(path);
      WholeUrlDispatchedIff(config, base, page);
    } else if IsPlain(path) {
      RequestedBelow(path, follows);
      UrlStart(config, base, page);
      PagePathIff(config, Resolved(path) + follows, page);
    } else {
      RequestedOfCut(path, follows);
      UrlStart(config, base, page);
      PagePathIff(config, Requested(path), page);
    }
  }

  lemma PagePathIff(config: Config, path: string, page: string)
    requires page in PAGES && StartsWith(path, "/")
    ensures SplitGatewayPaths(path, config.GatewayMount()).dispatch == config.Prefix() + page
       <==> IsPagePath(config, path, page)
  {
    ApiMountShape(config.apiMount);
    PagesAreNotDebug(config.Prefix(), page);
    assert (config.Prefix() + page)[0] == '/' && |config.Prefix() + page| > 1;
    DispatchedAsIff(path, config.GatewayMount(), config.Prefix() + page);
  }

  /** A whole URL path is dispatched as its page exactly when the API is not at the root and the base is
      the mount that routing goes by. */
  lemma WholeUrlDispatchedIff(config: Config, base: Option<PublicBase>, page: string)
    requires base.Some? ==> IsParsed(base.value)
    requires page in {"/healthz", "/readyz"}
    ensures SplitGatewayPaths(UrlPath(config, base, page), config.GatewayMount()).dispatch == config.Prefix() + page
       <==> config.Prefix() != "/" && BasePath(config, base) == config.RoutedMount()
  {
    if config.Prefix() != "/" && BasePath(config, base) == config.RoutedMount() {
      RoutedUrl(config, base, page);
      RoutedUrlSplits(config, page);
    } else {
      StrayUrl(config, base, page);
    }
  }

  lemma RoutedUrl(config: Config, base: Option<PublicBase>, page: string)
    requires config.Prefix() != "/" && BasePath(config, base) == config.RoutedMount()
    ensures UrlPath(config, base, page) == config.RoutedMount() + (config.Prefix() + page)
  {
    StrippedPrefix(config);
    Associates(config.RoutedMount(), config.Prefix(), page);
  }

  lemma Associates(a: string, b: string, c: string)
    ensures a + b + c == a + (b + c)
  {
  }

  lemma RoutedUrlSplits(config: Config, page: string)
    ensures SplitGatewayPaths(config.RoutedMount() + (config.Prefix() + page), config.GatewayMount()).dispatch
         == config.Prefix() + page
  {
    ApiMountShape(config.apiMount);
    assert (config.Prefix() + page)[0] == '/';
    MountedPathSplits(config.Prefix() + page, config.GatewayMount());
  }

  lemma Differs(b: string, m: string, prefix: string, stripped: string, page: string)
    requires prefix != "" && stripped == if prefix == "/" then "" else prefix
    requires !EndsIn(b, IsSlash) && (prefix == "/" || b != m)
    ensures b + stripped + page != m + (prefix + page)
  {
    assert m + (prefix + page) == m + prefix + page;
    SameStart(b + stripped, m + prefix, page);
    if prefix == "/" {
      assert b + stripped == b;
      assert (m + prefix)[|m + prefix| - 1] == '/';
    } else {
      SameStart(b, m, prefix);
    }
  }

  lemma SameStart(a: string, b: string, end: string)
    ensures a + end == b + end ==> a == b
  {
    assert (a + end)[..|a + end| - |end|] == a && (b + end)[..|b + end| - |end|] == b;
  }

  lemma UnmountedBase(config: Config, base: Option<PublicBase>)
    ensures BasePath(config, base) == "" ==> config.RoutedMount() == ""
  {
    assert Strip("", IsSpace) == "";
    if base.Some? { RStripOfSum(base.value.path, base.value.tail, IsSlash); }
  }

  lemma StrayUrl(config: Config, base: Option<PublicBase>, page: string)
    requires base.Some? ==> IsParsed(base.value)
    requires page in {"/healthz", "/readyz"}
    requires config.Prefix() == "/" || BasePath(config, base) != config.RoutedMount()
    ensures SplitGatewayPaths(UrlPath(config, base, page), config.GatewayMount()).dispatch != config.Prefix() + page
  {
    var path, stripped := BasePath(config, base), RStrip(config.Prefix(), IsSlash);
    ApiMountShape(config.apiMount);
    BasePathShape(config, base);
    UnmountedBase(config, base);
    StrippedPrefix(config);
    Differs(path, config.RoutedMount(), config.Prefix(), stripped, page);
    if path != "" || config.Prefix() == "/" { Differs(path, "", config.Prefix(), stripped, page); }
    assert "" + (config.Prefix() + page) == config.Prefix() + page;
    UrlIsRooted(path, config.Prefix(), stripped, page);
    StrayPath(config, path + stripped + page, config.Prefix() + page);
  }

  lemma UrlIsRooted(path: string, prefix: string, stripped: string, page: string)
    requires path == "" || path[0] == '/'
    requires prefix != "" && prefix[0] == '/' && stripped == if prefix == "/" then "" else prefix
    requires page in {"/healthz", "/readyz"}
    ensures StartsWith(path + stripped + page, "/") && |prefix + page| > 1
  {
    assert (path + stripped + page)[0] == '/';
  }

  lemma StrayPath(config: Config, path: string, wanted: string)
    requires StartsWith(path, "/") && |wanted| > 1 && path != config.RoutedMount() + wanted && path != wanted
    ensures SplitGatewayPaths(path, config.GatewayMount()).dispatch != wanted
  {
    DispatchedPart(path, config.GatewayMount());
  }

  lemma StrippedPrefix(config: Config)
    ensures RStrip(config.Prefix(), IsSlash) == if config.Prefix() == "/" then "" else config.Prefix()
  {
    ApiMountShape(config.apiMount);
    RStripShape(config.Prefix(), IsSlash);
    RStripShape("/", IsSlash);
  }

  /** For URLs built from a request the base is the mount: exactly when, besides, a clean mount does not
      end in white space, what remains of one with dot segments completes to the page's path, and what is
      requested of one with a `?` or `#` is the page's bare path. */
  lemma RequestUrlReachesIff(config: Config, page: string)
    requires page in {"/healthz", "/readyz"}
    ensures var m, prefix := NormalizeRootMount(config.mount), config.Prefix();
            Reaches(config, Request(Http, Get, Requested(UrlPath(config, None, page)), ""), page)
            <==> && IsLatin1(prefix) && IsClean(prefix)
                 && if IsClean(m) then prefix != "/" && !EndsIn(m, IsSpace)
                    else if IsPlain(m) then
                      IsRooted(m) && IsPagePath(config, Resolved(m) + (RStrip(prefix, IsSlash) + page), page)
                    else Requested(m) == prefix + page
  {
    var m := NormalizeRootMount(config.mount);
    UrlReachesIff(config, None, page);
    MountIsStableIff(config.mount);
    MountIsStableIff(m);
    if !IsPlain(m) {
      MountShape(config.mount);
      NormalizingKeepsMarks(m);
      MountShape(m);
      NormalizingKeepsMarks(config.GatewayMount());
      CutIsNotUnder(config, m);
      PagePathIff(config, Requested(m), page);
    }
  }

  lemma CutIsNotUnder(config: Config, m: string)
    requires m != "" && m[0] == '/' && !IsPlain(config.RoutedMount())
    ensures SplitGatewayPaths(Requested(m), config.GatewayMount()).dispatch == Requested(m)
    ensures StartsWith(Requested(m), "/")
  {
    RequestedIsClean(m);
    MountShape(config.GatewayMount());
    CleanIsNotUnder(Requested(m), config.RoutedMount());
  }

  lemma RStripKeepsMarks(s: string, drop: char -> bool)
    requires !IsPlain(s) && forall c :: EndsPath(c) ==> !drop(c)
    ensures !IsPlain(RStrip(s, drop))
  {
    RStripIsLongestPrefix(s, drop);
    var i :| 0 <= i < |s| && EndsPath(s[i]);
    assert RStrip(s, drop)[i] == s[i];
  }

  lemma NormalizingKeepsMarks(m: string)
    requires m != "" && m[0] == '/' && !IsPlain(m)
    ensures !IsPlain(NormalizeRootMount(m))
  {
    StripOfSlashPath(m);
    RStripKeepsMarks(m, IsSpace);
    RStripKeepsMarks(RStrip(m, IsSpace), IsSlash);
  }
}
