/** Path prefixes: the public mount, the API prefix, and what the gateway makes of a request path. */
module GatewayPaths {
  import opened Text
  import opened Wrappers
  import opened ClientPaths

  predicate EndsIn(s: string, drop: char -> bool) { s != "" && drop(s[|s| - 1]) }

  // ----- Normal forms -----

  function NormalizeRootMount(raw: string): string {
    var s := Strip(raw, IsSpace);
    if s == "" then "" else RStrip(WithLeadingSlash(s), IsSlash)
  }

  function NormalizeApiMountPath(raw: string): string {
    var p := RStrip(WithLeadingSlash(Strip(if raw == "" then "/api" else raw, IsSpace)), IsSlash);
    if p == "" then "/" else p
  }

  lemma RStripShape(s: string, drop: char -> bool)
    ensures !EndsIn(RStrip(s, drop), drop)
    ensures RStrip(s, drop) == s <==> !EndsIn(s, drop)
    ensures |RStrip(s, drop)| <= |s| && RStrip(s, drop) == s[..|RStrip(s, drop)|]
  {
    RStripIsLongestPrefix(s, drop);
  }

  /** Unset, or a path with a leading slash and no trailing one. */
  lemma MountShape(raw: string)
    ensures var m := NormalizeRootMount(raw);
            m == "" || (|m| > 1 && m[0] == '/' && !EndsIn(m, IsSlash))
  {
    RStripShape(WithLeadingSlash(Strip(raw, IsSpace)), IsSlash);
  }

  lemma ApiMountShape(raw: string)
    ensures var p := NormalizeApiMountPath(raw);
            p == "/" || (|p| > 1 && p[0] == '/' && !EndsIn(p, IsSlash))
  {
    RStripShape(WithLeadingSlash(Strip(if raw == "" then "/api" else raw, IsSpace)), IsSlash);
  }

  lemma StripOfSlashPath(m: string)
    requires m != "" && m[0] == '/'
    ensures Strip(m, IsSpace) == RStrip(m, IsSpace) != ""
    ensures RStrip(m, IsSpace)[0] == '/'
  {
    RStripIsLongestPrefix(m, IsSpace);
  }

  /** Normalizing again changes a mount exactly when it ends in white space, and then shortens it. */
  lemma MountIsStableIff(raw: string)
    ensures var m := NormalizeRootMount(raw);
            if EndsIn(m, IsSpace) then |NormalizeRootMount(m)| < |m| else NormalizeRootMount(m) == m
  {
    var m := NormalizeRootMount(raw);
    MountShape(raw);
    if m != "" {
      StripOfSlashPath(m);
      RStripShape(m, IsSpace);
      RStripShape(RStrip(m, IsSpace), IsSlash);
    }
  }

  /** So it is not idempotent: the first result can end in a space that the second call strips. */
  lemma MountNeedNotBeStable()
    ensures NormalizeRootMount("/a /") == "/a " && NormalizeRootMount("/a ") == "/a"
  {
  }

  /** Blank API prefixes mean the root; only the empty one means `/api`. */
  lemma {:induction false} BlankApiPrefixIsRoot(raw: string)
    requires raw != "" && forall c | c in raw :: IsSpace(c)
    ensures NormalizeApiMountPath(raw) == "/" && NormalizeApiMountPath("") == "/api"
  {
    RStripIsLongestPrefix(raw, IsSpace);
    assert forall i | 0 <= i < |raw| :: IsSpace(raw[i]);
    assert RStrip(raw, IsSpace) == "";
    assert RStrip("/", IsSlash) == "" by { RStripShape("/", IsSlash); }
  }

  // ----- Splitting a request path -----

  /** Is `path` the mount itself or below it? */
  predicate Under(path: string, mount: string) { path == mount || StartsWith(path, mount + "/") }

  /** What dispatch looks at, and what Streamlit is asked for. */
  datatype Split = Split(dispatch: string, streamlit: string)

  function SplitGatewayPaths(path: string, rootMount: string): Split {
    var m := NormalizeRootMount(rootMount);
    var p := WithLeadingSlash(path);
    if m == "" then Split(p, p)
    else if Under(p, m) then
      var rest := if p == m then "/" else p[|m|..];
      Split(WithLeadingSlash(rest), p)
    else Split(p, m + p)
  }

  function LocationUnderMount(mount: string, suffix: string): string {
    var m := NormalizeRootMount(mount);
    if m != "" then m + WithLeadingSlash(suffix) else WithLeadingSlash(suffix)
  }

  lemma BelowMount(m: string, q: string)
    requires m != "" && q != "" && q[0] == '/'
    ensures Under(m + q, m) && m + q != m && (m + q)[|m|..] == q
  {
    assert (m + q)[..|m| + 1] == m + "/";
  }

  /** Under its mount a path dispatches as if the mount were not there. */
  lemma MountedPathSplits(q: string, mount: string)
    requires StartsWith(q, "/")
    ensures var m := NormalizeRootMount(mount); SplitGatewayPaths(m + q, mount) == Split(q, m + q)
  {
    var m := NormalizeRootMount(mount);
    MountShape(mount);
    if m == "" { assert m + q == q; } else { BelowMount(m, q); }
  }

  /** Streamlit is always asked for a path under the mount, whichever shape the proxy sent, and
      splitting that path changes nothing. */
  lemma SplitIsStable(path: string, mount: string)
    ensures var m := NormalizeRootMount(mount);
            var split := SplitGatewayPaths(path, mount);
            && (m == "" || Under(split.streamlit, m))
            && StartsWith(split.dispatch, "/") && StartsWith(split.streamlit, "/")
            && SplitGatewayPaths(split.streamlit, mount) == split
  {
    var m := NormalizeRootMount(mount);
    var p := WithLeadingSlash(path);
    MountShape(mount);
    if m != "" && !Under(p, m) {
      BelowMount(m, p);
      MountedPathSplits(p, mount);
    }
  }

  /** A prefix-stripping proxy and a full-path proxy are told apart only by a path that repeats the
      mount: the two requests split alike exactly when the stripped path is not under the mount. */
  lemma ShapesSplitAlikeIff(q: string, mount: string)
    requires StartsWith(q, "/")
    ensures var m := NormalizeRootMount(mount);
            SplitGatewayPaths(q, mount) == SplitGatewayPaths(m + q, mount) <==> m == "" || !Under(q, m)
  {
    var m := NormalizeRootMount(mount);
    MountShape(mount);
    MountedPathSplits(q, mount);
    if m == "" { assert m + q == q; }
    else if Under(q, m) { assert |SplitGatewayPaths(q, mount).streamlit| < |m + q|; }
  }

  // ----- Dispatch -----

  datatype Kind = Http | WebSocket
  datatype Verb = Get | Head | OtherVerb

  /** A connection scope, as far as routing reads it. */
  datatype Request = Request(kind: Kind, verb: Verb, path: string, rootPath: string)

  const DEBUG_PATH := "/__fluxlit/debug"

  /** The settings: the public mount and the API prefix as configured, the metrics path when metrics
      are enabled, debug mode, and whether a Streamlit upstream is known. */
  datatype Config = Config(mount: string, apiMount: string, metrics: Option<string>, debug: bool, upstream: bool) {

    /** The mount is normalized before it is passed on, and again by `build_gateway`. */
    function GatewayMount(): string { NormalizeRootMount(NormalizeRootMount(mount)) }

    /** The mount that routing goes by: it is normalized once more at each use. */
    function RoutedMount(): string { NormalizeRootMount(GatewayMount()) }

    function Prefix(): string { NormalizeApiMountPath(apiMount) }

    predicate IsApi(path: string) { Under(path, Prefix()) }

    /** Metrics are switched off when their path would fall inside the API. */
    function MetricsPath(): Option<string> {
      if metrics.None? then None
      else var raw := Strip(if metrics.value == "" then "/__fluxlit/metrics" else metrics.value, IsSpace);
           if IsApi(WithLeadingSlash(raw)) then None else Some(WithLeadingSlash(raw))
    }

    predicate DebugOn() { debug && !IsApi(DEBUG_PATH) }
  }

  datatype Answer =
    | Metrics
    | DebugSnapshot
    | NotFound
    | Api(path: string, rootPath: string)
    | UpstreamMissing
    | Redirect(location: string)
    | ProxyHttp(path: string, forwardedPrefix: string)
    | ProxyWebSocket(path: string, forwardedPrefix: string)
    | Raises

  /** What `encode("latin-1")` and `encode("ascii")` accept; on anything else they raise. */
  predicate IsLatin1(s: string) { forall c | c in s :: c as int < 0x100 }

  predicate IsAscii(s: string) { forall c | c in s :: c as int < 0x80 }

  /** `_inject_public_root_path`: the `root_path` that the gateway sees. */
  function InjectRootPath(publicMount: string, rootPath: string): string {
    var mount := NormalizeRootMount(publicMount);
    if mount != "" && Strip(rootPath, IsSpace) == "" then mount else rootPath
  }

  /** The path and `root_path` that `strip_prefix_scope` computes. */
  datatype Scope = Scope(path: string, rootPath: string)

  function Stripped(path: string, rootPath: string, prefix: string): Scope {
    var rest := RemovePrefix(if path == "" then "/" else path, prefix);
    Scope(if rest == "" then "/" else rest, RStrip(rootPath, IsSlash) + RStrip(prefix, IsSlash))
  }

  /** `strip_prefix_scope`, which also encodes the path. */
  function StripPrefix(path: string, rootPath: string, prefix: string): Answer {
    var scope := Stripped(path, rootPath, prefix);
    if IsLatin1(scope.path) then Api(scope.path, scope.rootPath) else Raises
  }

  /** The pages that the gateway leads clients to. */
  const PAGES := {"/docs", "/redoc", "/openapi.json", "/healthz", "/readyz"}

  /** The page that a top-level docs path stands for. */
  function DocsPage(path: string): (page: Option<string>)
    ensures page.Some? ==> page.value in PAGES && |page.value| > 1 && page.value[0] == '/'
  {
    if path == "/docs" || path == "/docs/" then Some("/docs")
    else if path == "/redoc" || path == "/redoc/" then Some("/redoc")
    else if path == "/openapi.json" then Some("/openapi.json")
    else None
  }

  /** `redirect`, which encodes the location. */
  function Redirects(location: string): Answer { if IsAscii(location) then Redirect(location) else Raises }

  function Dispatch(config: Config, kind: Kind, verb: Verb, rootPath: string, split: Split): Answer {
    var path := split.dispatch;
    var get := kind.Http? && verb.Get?;
    if get && Some(path) == config.MetricsPath() then Metrics
    else if get && path == DEBUG_PATH then if config.DebugOn() then DebugSnapshot else NotFound
    else if config.IsApi(path) then if IsLatin1(path) then StripPrefix(path, rootPath, config.Prefix()) else Raises
    else if !config.upstream then UpstreamMissing
    else if kind.WebSocket? then ProxyWebSocket(split.streamlit, config.GatewayMount())
    else if !verb.OtherVerb? && DocsPage(path).Some? then
      Redirects(LocationUnderMount(config.GatewayMount(), config.Prefix() + DocsPage(path).value))
    else ProxyHttp(split.streamlit, config.GatewayMount())
  }

  /** The gateway's answer to a request, as served behind `_inject_public_root_path`. */
  function Route(config: Config, request: Request): Answer {
    Dispatch(config, request.kind, request.verb,
             InjectRootPath(NormalizeRootMount(config.mount), request.rootPath),
             SplitGatewayPaths(request.path, config.GatewayMount()))
  }

  /** The two proxy shapes get the same answer, for every request: the same API path and `root_path`,
      the same redirect, the same path and prefix for Streamlit. */
  lemma ProxyShapesAgree(config: Config, request: Request)
    requires StartsWith(request.path, "/")
    requires config.RoutedMount() == "" || !Under(request.path, config.RoutedMount())
    ensures Route(config, request.(path := config.RoutedMount() + request.path)) == Route(config, request)
  {
    ShapesSplitAlikeIff(request.path, config.GatewayMount());
  }

  lemma Latin1Sum(a: string, b: string)
    ensures IsLatin1(a + b) <==> IsLatin1(a) && IsLatin1(b)
  {
    assert forall c :: c in a + b <==> c in a || c in b;
  }

  lemma AsciiSum(a: string, b: string)
    ensures IsAscii(a + b) <==> IsAscii(a) && IsAscii(b)
  {
    assert forall c :: c in a + b <==> c in a || c in b;
  }

  /** What FastAPI is told spells the path the browser used: its `root_path` and path together are the
      incoming `root_path` and the dispatched path, exactly unless one slash is added (for the prefix
      itself) or lost (for an API at the root).  It is told at all exactly when what follows the prefix
      is within Latin-1. */
  lemma ApiSpellsPathIff(config: Config, path: string, rootPath: string)
    requires config.IsApi(path)
    ensures var api, prior := StripPrefix(path, rootPath, config.Prefix()), RStrip(rootPath, IsSlash);
            && (api.Api? <==> IsLatin1(RemovePrefix(path, config.Prefix())))
            && (api.Api? ==>
                  && StartsWith(api.path, "/")
                  && (api.rootPath + api.path == prior + path
                      <==> (path == config.Prefix() <==> config.Prefix() == "/"))
                  && (path == config.Prefix() != "/" ==> api.rootPath + api.path == prior + path + "/")
                  && (path != config.Prefix() == "/" ==> api.rootPath + "/" + api.path == prior + path))
  {
    ApiMountShape(config.apiMount);
    ScopeSpellsPathIff(config, path, rootPath);
  }

  lemma ScopeSpellsPathIff(config: Config, path: string, rootPath: string)
    requires config.IsApi(path)
    ensures var api, prior := Stripped(path, rootPath, config.Prefix()), RStrip(rootPath, IsSlash);
            && StartsWith(api.path, "/")
            && (api.rootPath + api.path == prior + path <==> (path == config.Prefix() <==> config.Prefix() == "/"))
            && (path == config.Prefix() != "/" ==> api.rootPath + api.path == prior + path + "/")
            && (path != config.Prefix() == "/" ==> api.rootPath + "/" + api.path == prior + path)
  {
    if config.Prefix() == "/" {
      RootApiSpells(path, rootPath);
    } else {
      PrefixedApiSpells(config, path, rootPath);
      Spelling(RStrip(rootPath, IsSlash), config.Prefix(), path, Stripped(path, rootPath, config.Prefix()).path);
    }
  }

  lemma Spelling(prior: string, prefix: string, path: string, rest: string)
    requires prefix + rest == if path == prefix then path + "/" else path
    ensures (prior + prefix) + rest == prior + path <==> path != prefix
    ensures path == prefix ==> (prior + prefix) + rest == prior + path + "/"
  {
    assert (prior + prefix) + rest == prior + (prefix + rest);
    if path == prefix {
      assert prior + (path + "/") == (prior + path) + "/";
      assert |(prior + path) + "/"| != |prior + path|;
    }
  }

  lemma RootApiSpells(path: string, rootPath: string)
    requires Under(path, "/")
    ensures var api := Stripped(path, rootPath, "/");
            var prior := RStrip(rootPath, IsSlash);
            && StartsWith(api.path, "/")
            && (path == "/" ==> api.rootPath + api.path == prior + path)
            && (path != "/" ==>
                  api.rootPath + "/" + api.path == prior + path && api.rootPath + api.path != prior + path)
  {
    RootStripped(path, rootPath);
    if path != "/" { RootSpelling(RStrip(rootPath, IsSlash), path); }
  }

  lemma RootStripped(path: string, rootPath: string)
    requires Under(path, "/")
    ensures Stripped(path, rootPath, "/") == Scope(if path == "/" then "/" else path[1..], RStrip(rootPath, IsSlash))
    ensures path != "/" ==> |path| > 1 && path[0] == '/' && path[1] == '/'
  {
    assert RStrip("/", IsSlash) == "" by { RStripShape("/", IsSlash); }
    assert RStrip(rootPath, IsSlash) + "" == RStrip(rootPath, IsSlash);
    if path != "/" { assert path[..2] == "//"; }
  }

  lemma RootSpelling(prior: string, path: string)
    requires path != "" && path[0] == '/'
    ensures prior + "/" + path[1..] == prior + path && prior + path[1..] != prior + path
  {
    assert |prior + path[1..]| < |prior + path|;
  }

  lemma PrefixedApiSpells(config: Config, path: string, rootPath: string)
    requires config.IsApi(path) && config.Prefix() != "/"
    ensures var api := Stripped(path, rootPath, config.Prefix());
            var prior := RStrip(rootPath, IsSlash);
            && StartsWith(api.path, "/") && api.rootPath == prior + config.Prefix()
            && config.Prefix() + api.path == if path == config.Prefix() then path + "/" else path
  {
    var prefix := config.Prefix();
    ApiMountShape(config.apiMount);
    RStripShape(prefix, IsSlash);
    if path != prefix {
      assert prefix == path[..|prefix|];
      assert path[|prefix|] == '/';
    }
  }

  lemma MetricsAreOutsideTheApi(config: Config, path: string)
    requires config.IsApi(path)
    ensures Some(path) != config.MetricsPath()
  {
  }

  /** The one address under the API prefix that does not reach FastAPI. */
  predicate IsReserved(kind: Kind, verb: Verb, path: string) { path == DEBUG_PATH && kind.Http? && verb.Get? }

  /** A request reaches the API exactly when its path is under the prefix and within Latin-1, but for one
      address that the gateway keeps to itself even when debug mode is off. */
  lemma RoutesToApiIff(config: Config, request: Request)
    ensures var path := SplitGatewayPaths(request.path, config.GatewayMount()).dispatch;
            Route(config, request).Api?
            <==> config.IsApi(path) && !IsReserved(request.kind, request.verb, path) && IsLatin1(path)
  {
    var path := SplitGatewayPaths(request.path, config.GatewayMount()).dispatch;
    if config.IsApi(path) && !IsReserved(request.kind, request.verb, path) { ApiRoute(config, request, path); }
  }

  lemma ApiRoute(config: Config, request: Request, q: string)
    requires SplitGatewayPaths(request.path, config.GatewayMount()).dispatch == q
    requires config.IsApi(q) && !IsReserved(request.kind, request.verb, q)
    ensures var rootPath := InjectRootPath(NormalizeRootMount(config.mount), request.rootPath);
            var scope := Stripped(q, rootPath, config.Prefix());
            Route(config, request) == if IsLatin1(q) then Api(scope.path, scope.rootPath) else Raises
  {
    MetricsAreOutsideTheApi(config, q);
    ApiSplits(config, q);
    Latin1Sum(config.Prefix(), RemovePrefix(q, config.Prefix()));
  }

  /** What is under the prefix is the prefix and what stripping leaves. */
  lemma ApiSplits(config: Config, d: string)
    requires config.IsApi(d)
    ensures d == config.Prefix() + RemovePrefix(d, config.Prefix())
    ensures RemovePrefix(d, config.Prefix()) == "" <==> d == config.Prefix()
  {
    var prefix := config.Prefix();
    if d != prefix { assert d[..|prefix|] == (prefix + "/")[..|prefix|] == prefix; }
  }

  /** An API request under a mount that normalizes once and for all: both proxy shapes reach FastAPI,
      exactly when the path is within Latin-1, with the same path and `root_path`, and together these
      spell the browser's path. */
  lemma BothShapesSpellTheBrowserPath(config: Config, kind: Kind, verb: Verb, q: string)
    requires config.Prefix() != "/" && StartsWith(q, "/") && config.IsApi(q) && !IsReserved(kind, verb, q)
    requires !EndsIn(NormalizeRootMount(config.mount), IsSpace)
    ensures var m := NormalizeRootMount(config.mount);
            var full := Route(config, Request(kind, verb, m + q, ""));
            && (full.Api? <==> IsLatin1(q))
            && (full.Api? ==> full.rootPath + full.path == m + q + (if q == config.Prefix() then "/" else ""))
            && (m == "" || !Under(q, m) ==> Route(config, Request(kind, verb, q, "")) == full)
  {
    var m := NormalizeRootMount(config.mount);
    MountIsStableIff(config.mount);
    MountedPathSplits(q, m);
    ApiRoute(config, Request(kind, verb, m + q, ""), q);
    BlankRootPath(m);
    MountSpelling(config, q, m);
    if m == "" || !Under(q, m) { ProxyShapesAgree(config, Request(kind, verb, q, "")); }
  }

  lemma BlankRootPath(m: string)
    requires NormalizeRootMount(m) == m
    ensures InjectRootPath(m, "") == m
  {
    assert Strip("", IsSpace) == "";
  }

  lemma MountSpelling(config: Config, q: string, m: string)
    requires config.Prefix() != "/" && config.IsApi(q) && NormalizeRootMount(m) == m
    ensures var api := Stripped(q, m, config.Prefix());
            api.rootPath + api.path == m + q + (if q == config.Prefix() then "/" else "")
  {
    MountShape(m);
    RStripShape(m, IsSlash);
    PrefixedApiSpells(config, q, m);
    Spelling(m, config.Prefix(), q, Stripped(q, m, config.Prefix()).path);
  }

  // ----- Reaching a page of the API -----

  lemma PagesAreNotDebug(prefix: string, page: string)
    requires page in PAGES
    ensures |page| > 1 && page[0] == '/' && prefix + page != DEBUG_PATH
  {
    assert (prefix + page)[|prefix + page| - 1] == page[|page| - 1];
    assert DEBUG_PATH[|DEBUG_PATH| - 1] == 'g';
  }

  predicate Reaches(config: Config, request: Request, page: string) {
    var answer := Route(config, request);
    answer.Api? && answer.path == page
  }

  /** A request reaches a page exactly when it is dispatched as the prefix and the page, and the prefix
      is within Latin-1. */
  lemma ReachesIffDispatched(config: Config, request: Request, page: string)
    requires page in PAGES
    ensures Reaches(config, request, page)
       <==> && SplitGatewayPaths(request.path, config.GatewayMount()).dispatch == config.Prefix() + page
            && IsLatin1(config.Prefix())
  {
    if SplitGatewayPaths(request.path, config.GatewayMount()).dispatch == config.Prefix() + page {
      DispatchedReaches(config, request, page);
    } else if Reaches(config, request, page) {
      ReachedIsDispatched(config, request, page);
    }
  }

  lemma PagesAreAscii(page: string)
    requires page in PAGES
    ensures IsAscii(page) && IsLatin1(page)
  {
  }

  lemma DispatchedReaches(config: Config, request: Request, page: string)
    requires page in PAGES
    requires SplitGatewayPaths(request.path, config.GatewayMount()).dispatch == config.Prefix() + page
    ensures Reaches(config, request, page) <==> IsLatin1(config.Prefix())
  {
    PagesAreNotDebug(config.Prefix(), page);
    PagesAreAscii(page);
    Latin1Sum(config.Prefix(), page);
    BelowPrefix(config, page, InjectRootPath(NormalizeRootMount(config.mount), request.rootPath));
    ApiRoute(config, request, config.Prefix() + page);
  }

  lemma ReachedIsDispatched(config: Config, request: Request, page: string)
    requires page in PAGES && Reaches(config, request, page)
    ensures SplitGatewayPaths(request.path, config.GatewayMount()).dispatch == config.Prefix() + page
  {
    var d := SplitGatewayPaths(request.path, config.GatewayMount()).dispatch;
    RoutesToApiIff(config, request);
    ApiRoute(config, request, d);
    PagesAreNotDebug(config.Prefix(), page);
    var rootPath := InjectRootPath(NormalizeRootMount(config.mount), request.rootPath);
    StrippedSplits(config, d, rootPath, page);
  }

  lemma StrippedSplits(config: Config, d: string, rootPath: string, page: string)
    requires config.IsApi(d) && Stripped(d, rootPath, config.Prefix()).path == page && |page| > 1
    ensures d == config.Prefix() + page
  {
    ApiMountShape(config.apiMount);
    ApiSplits(config, d);
  }

  lemma BelowPrefix(config: Config, suffix: string, rootPath: string)
    requires suffix != "" && suffix[0] == '/'
    ensures config.IsApi(config.Prefix() + suffix)
    ensures Stripped(config.Prefix() + suffix, rootPath, config.Prefix())
         == Scope(suffix, RStrip(rootPath, IsSlash) + RStrip(config.Prefix(), IsSlash))
  {
    ApiMountShape(config.apiMount);
    BelowMount(config.Prefix(), suffix);
  }

  // ----- Which paths are dispatched how -----

  /** Dispatch sees the path, less the mount when the path is under it. */
  lemma DispatchedPart(path: string, mount: string)
    requires StartsWith(path, "/")
    ensures var m := NormalizeRootMount(mount);
            var d := SplitGatewayPaths(path, mount).dispatch;
            if m != "" && Under(path, m) then d == "/" || path == m + d else d == path
  {
    var m := NormalizeRootMount(mount);
    if m != "" && Under(path, m) && path != m {
      assert path[..|m|] == (m + "/")[..|m|] == m;
      assert path[|m|] == '/';
      assert path == m + path[|m|..];
    }
  }

  /** Exactly which paths are dispatched as `wanted`: the one under the mount, and the bare one unless
      that is itself under the mount. */
  lemma DispatchedAsIff(path: string, mount: string, wanted: string)
    requires StartsWith(path, "/") && StartsWith(wanted, "/") && |wanted| > 1
    ensures var m := NormalizeRootMount(mount);
            SplitGatewayPaths(path, mount).dispatch == wanted
            <==> path == m + wanted || (path == wanted && (m == "" || !Under(wanted, m)))
  {
    var m := NormalizeRootMount(mount);
    DispatchedPart(path, mount);
    MountedPathSplits(wanted, mount);
    assert "" + wanted == wanted;
  }

  lemma CleanPathsDispatchClean(path: string, mount: string)
    requires StartsWith(path, "/") && IsClean(path)
    ensures IsClean(SplitGatewayPaths(path, mount).dispatch)
  {
    var m, d := NormalizeRootMount(mount), SplitGatewayPaths(path, mount).dispatch;
    MountShape(mount);
    SplitIsStable(path, mount);
    DispatchedPart(path, mount);
    CleanSum(m, d);
    SlashIsClean();
  }

  lemma SlashIsClean()
    ensures IsClean("/")
  {
    SegmentsOfPath([""]);
    assert Path([""]) == "/";
  }

  lemma PagesAreClean(page: string)
    requires page in PAGES
    ensures IsClean(page)
  {
    PagesAreOneSegment(page);
    SegmentsOfPath([page[1..]]);
    assert Path([page[1..]]) == page;
  }

  lemma PagesAreOneSegment(page: string)
    requires page in PAGES
    ensures |page| > 3 && page[0] == '/' && '/' !in page[1..] && IsPlain(page)
  {
  }

  /** A prefix that a client would cut or resolve is never dispatched to by a client. */
  lemma UncleanPrefixMisses(config: Config, path: string, page: string)
    requires StartsWith(path, "/") && IsClean(path) && !IsClean(config.Prefix()) && page in PAGES
    ensures SplitGatewayPaths(path, config.GatewayMount()).dispatch != config.Prefix() + page
  {
    CleanPathsDispatchClean(path, config.GatewayMount());
    ApiMountShape(config.apiMount);
    PagesAreNotDebug(config.Prefix(), page);
    CleanSum(config.Prefix(), page);
  }

  /** Nothing that a client requests is under a mount that it would cut or resolve. */
  lemma CleanIsNotUnder(path: string, m: string)
    requires IsClean(path) && m != "" && m[0] == '/' && !IsClean(m)
    ensures !Under(path, m)
  {
    UnderStarts(path, m);
    if m <= path && IsRooted(path[|m|..]) {
      CleanSum(m, path[|m|..]);
      assert path == m + path[|m|..];
    }
  }

  lemma UnderStarts(path: string, m: string)
    ensures Under(path, m) ==> m <= path && IsRooted(path[|m|..])
  {
    if StartsWith(path, m + "/") { assert path[..|m|] == (m + "/")[..|m|] && path[|m|] == '/'; }
  }

  // ----- Docs redirects -----

  lemma LocationSpelled(mount: string, suffix: string)
    requires suffix != "" && suffix[0] == '/'
    ensures LocationUnderMount(mount, suffix) == NormalizeRootMount(mount) + suffix
  {
    assert "" + suffix == suffix;
  }

  lemma OnlyDocsRedirect(config: Config, kind: Kind, verb: Verb, rootPath: string, split: Split)
    requires Dispatch(config, kind, verb, rootPath, split).Redirect?
    ensures DocsPage(split.dispatch).Some?
    ensures Dispatch(config, kind, verb, rootPath, split)
         == Redirects(LocationUnderMount(config.GatewayMount(), config.Prefix() + DocsPage(split.dispatch).value))
  {
  }

  lemma RedirectLocation(config: Config, request: Request)
    requires Route(config, request).Redirect?
    ensures var page := DocsPage(SplitGatewayPaths(request.path, config.GatewayMount()).dispatch);
            page.Some? && Route(config, request).location == config.RoutedMount() + (config.Prefix() + page.value)
  {
    var split := SplitGatewayPaths(request.path, config.GatewayMount());
    OnlyDocsRedirect(config, request.kind, request.verb,
                     InjectRootPath(NormalizeRootMount(config.mount), request.rootPath), split);
    ApiMountShape(config.apiMount);
    LocationSpelled(config.GatewayMount(), config.Prefix() + DocsPage(split.dispatch).value);
  }

  /** Is this a request for the docs at the top level: one that is neither the API's nor the gateway's
      own, while Streamlit is known? */
  predicate AsksForDocs(config: Config, request: Request) {
    var path := SplitGatewayPaths(request.path, config.GatewayMount()).dispatch;
    && request.kind.Http? && !request.verb.OtherVerb? && config.upstream && DocsPage(path).Some?
    && !config.IsApi(path) && !(request.verb.Get? && Some(path) == config.MetricsPath())
  }

  /** A request for the docs is redirected exactly when mount and prefix are ASCII, and otherwise the
      gateway raises; nothing else is redirected. */
  lemma DocsRequestIsRedirectedIff(config: Config, request: Request)
    ensures Route(config, request).Redirect?
       <==> AsksForDocs(config, request) && IsAscii(config.RoutedMount()) && IsAscii(config.Prefix())
    ensures AsksForDocs(config, request) ==> Route(config, request).Redirect? || Route(config, request).Raises?
  {
    var path := SplitGatewayPaths(request.path, config.GatewayMount()).dispatch;
    if AsksForDocs(config, request) {
      DocsAreNotDebug(path);
      DocsLocationIsAsciiIff(config, DocsPage(path).value);
    }
  }

  lemma DocsLocationIsAsciiIff(config: Config, page: string)
    requires page in PAGES
    ensures IsAscii(LocationUnderMount(config.GatewayMount(), config.Prefix() + page))
       <==> IsAscii(config.RoutedMount()) && IsAscii(config.Prefix())
  {
    ApiMountShape(config.apiMount);
    LocationSpelled(config.GatewayMount(), config.Prefix() + page);
    PagesAreAscii(page);
    AsciiSum(config.Prefix(), page);
    AsciiSum(config.RoutedMount(), config.Prefix() + page);
  }

  lemma DocsAreNotDebug(path: string)
    requires DocsPage(path).Some?
    ensures path != DEBUG_PATH
  {
    assert |DEBUG_PATH| == 16;
  }

  /** Exactly when the gateway raises: an API path beyond Latin-1, or a docs request under settings
      beyond ASCII. */
  lemma RaisesIff(config: Config, request: Request)
    ensures var path := SplitGatewayPaths(request.path, config.GatewayMount()).dispatch;
            Route(config, request).Raises?
            <==> || (config.IsApi(path) && !IsReserved(request.kind, request.verb, path) && !IsLatin1(path))
                 || (AsksForDocs(config, request) && !(IsAscii(config.RoutedMount()) && IsAscii(config.Prefix())))
  {
    var path := SplitGatewayPaths(request.path, config.GatewayMount()).dispatch;
    DocsRequestIsRedirectedIff(config, request);
    if config.IsApi(path) && !IsReserved(request.kind, request.verb, path) { ApiRoute(config, request, path); }
  }

  /** Where a location takes the client that follows it: a location that starts with two slashes names
      another host (a network-path reference, section 4.2 of RFC 3986), and of any other the client
      requests the path. */
  function Followed(config: Config, request: Request, location: string): Option<Answer> {
    if StartsWith(location, "//") then None else Some(Route(config, request.(path := Requested(location))))
  }

  /** Does a location under this mount and prefix name another host? */
  predicate LeavesHost(mount: string, prefix: string) {
    if mount != "" then StartsWith(mount, "//") else prefix == "/" || StartsWith(prefix, "//")
  }

  /** When the location of a docs redirect names another host: exactly when the mount starts with two
      slashes, or there is none and the API is at the root or starts that way. */
  lemma DocsRedirectLeavesHostIff(config: Config, request: Request)
    requires Route(config, request).Redirect?
    ensures Followed(config, request, Route(config, request).location) == None
       <==> LeavesHost(config.RoutedMount(), config.Prefix())
  {
    RedirectLocation(config, request);
    LocationLeavesHostIff(config, DocsPage(SplitGatewayPaths(request.path, config.GatewayMount()).dispatch).value);
  }

  lemma LocationLeavesHostIff(config: Config, page: string)
    requires page != "" && page[0] == '/'
    ensures StartsWith(config.RoutedMount() + (config.Prefix() + page), "//")
       <==> LeavesHost(config.RoutedMount(), config.Prefix())
  {
    ApiMountShape(config.apiMount);
    MountShape(config.GatewayMount());
    TwoSlashes(config.RoutedMount(), config.Prefix(), page);
  }

  /** Does a path under this mount, which is clean itself, survive being requested?  A clean mount does;
      so does one whose segments take each other back, and one that a `?` or `#` cuts down to the path
      itself. */
  predicate Survives(m: string, path: string) {
    IsClean(m) || if IsPlain(m) then IsRooted(m) && Resolved(m) == "" else Requested(m) == path
  }

  /** Following a docs redirect reaches that page of the API, exactly unless the location names another
      host, or the client cuts it short at a `?` or `#` or resolves dot segments in it.  A mount with
      such marks or segments can still survive by chance; a prefix cannot. */
  lemma DocsRedirectReachesDocsIff(config: Config, request: Request)
    requires Route(config, request).Redirect?
    ensures var page := DocsPage(SplitGatewayPaths(request.path, config.GatewayMount()).dispatch);
            var m, prefix := config.RoutedMount(), config.Prefix();
            var answer := Followed(config, request, Route(config, request).location);
            && page.Some?
            && ((answer.Some? && answer.value.Api? && answer.value.path == page.value)
                <==> !LeavesHost(m, prefix) && IsClean(prefix) && Survives(m, prefix + page.value))
  {
    RedirectLocation(config, request);
    DocsRequestIsRedirectedIff(config, request);
    AsciiIsLatin1(config.Prefix());
    var dispatch := SplitGatewayPaths(request.path, config.GatewayMount()).dispatch;
    FollowedReachesIff(config, request, DocsPage(dispatch).value);
  }

  lemma AsciiIsLatin1(s: string)
    ensures IsAscii(s) ==> IsLatin1(s)
  {
  }

  lemma FollowedReachesIff(config: Config, request: Request, page: string)
    requires page in PAGES
    ensures var m, prefix := config.RoutedMount(), config.Prefix();
            var answer := Followed(config, request, m + (prefix + page));
            (answer.Some? && answer.value.Api? && answer.value.path == page)
            <==> !LeavesHost(m, prefix) && IsLatin1(prefix) && IsClean(prefix) && Survives(m, prefix + page)
  {
    PagesAreNotDebug(config.Prefix(), page);
    LocationLeavesHostIff(config, page);
    LocationReachesIff(config, request, page);
    FollowedReaches(config, request, config.RoutedMount() + (config.Prefix() + page), page);
  }

  lemma FollowedReaches(config: Config, request: Request, location: string, page: string)
    ensures var answer := Followed(config, request, location);
            (answer.Some? && answer.value.Api? && answer.value.path == page)
            <==> !StartsWith(location, "//") && Reaches(config, request.(path := Requested(location)), page)
  {
  }

  lemma LocationReachesIff(config: Config, request: Request, page: string)
    requires page in PAGES
    ensures var m, prefix := config.RoutedMount(), config.Prefix();
            Reaches(config, request.(path := Requested(m + (prefix + page))), page)
            <==> IsLatin1(prefix) && IsClean(prefix) && Survives(m, prefix + page)
  {
    var m, prefix := config.RoutedMount(), config.Prefix();
    var c := Requested(m + (prefix + page));
    ApiMountShape(config.apiMount);
    MountShape(config.GatewayMount());
    PagesAreNotDebug(prefix, page);
    RequestedStart(m, prefix + page);
    ReachesIffDispatched(config, request.(path := c), page);
    if !IsClean(prefix) {
      UncleanPrefixMisses(config, c, page);
    } else {
      PagesAreClean(page);
      CleanSum(prefix, page);
      CleanLocationDispatchedIff(config, prefix + page);
    }
  }

  lemma RequestedStart(m: string, q: string)
    requires IsRooted(m) && q != "" && q[0] == '/'
    ensures StartsWith(Requested(m + q), "/") && IsClean(Requested(m + q))
  {
    RequestedIsClean(m + q);
  }

  /** What a client requests of a clean path under the mount is dispatched as that path exactly when it
      survives. */
  lemma CleanLocationDispatchedIff(config: Config, q: string)
    requires q != "" && q[0] == '/' && IsClean(q) && |q| > 1
    ensures var m := config.RoutedMount();
            SplitGatewayPaths(Requested(m + q), config.GatewayMount()).dispatch == q <==> Survives(m, q)
  {
    var m := config.RoutedMount();
    MountShape(config.GatewayMount());
    RequestedStart(m, q);
    if IsClean(m) {
      RequestedBelow(m, q);
      CleanIsResolved(m);
      MountedPathSplits(q, config.GatewayMount());
    } else {
      CleanIsNotUnder(Requested(m + q), m);
      DispatchedPart(Requested(m + q), config.GatewayMount());
      if IsPlain(m) { RequestedBelow(m, q); Shorter(Resolved(m), q); } else { RequestedOfCut(m, q); }
    }
  }

  lemma Shorter(a: string, b: string)
    ensures a + b == b <==> a == ""
  {
    assert |a + b| == |a| + |b|;
  }

  lemma TwoSlashes(m: string, prefix: string, page: string)
    requires m == "" || (|m| > 1 && m[0] == '/')
    requires prefix != "" && prefix[0] == '/' && page != "" && page[0] == '/'
    ensures StartsWith(m + (prefix + page), "//") <==> LeavesHost(m, prefix)
  {
    var location := m + (prefix + page);
    assert location[0] == '/';
    assert location[1] == if m != "" then m[1] else if |prefix| == 1 then page[0] else prefix[1];
    assert StartsWith(location, "//") <==> location[1] == '/';
    assert prefix == "/" <==> |prefix| == 1;
  }

  // ----- Inputs on which the gateway raises -----

  lemma PlainConfig(mount: string, apiMount: string)
    requires |mount| > 1 && mount[0] == '/' && !EndsIn(mount, IsSlash) && !EndsIn(mount, IsSpace)
    requires |apiMount| > 1 && apiMount[0] == '/' && !EndsIn(apiMount, IsSlash) && !EndsIn(apiMount, IsSpace)
    ensures NormalizeRootMount(mount) == mount && NormalizeApiMountPath(apiMount) == apiMount
  {
    StripOfSlashPath(mount);
    RStripShape(mount, IsSpace);
    RStripShape(mount, IsSlash);
    StripOfSlashPath(apiMount);
    RStripShape(apiMount, IsSpace);
    RStripShape(apiMount, IsSlash);
  }

  /** An API path with a code point beyond Latin-1 never reaches FastAPI. */
  lemma EuroSignRaises()
    ensures Route(Config("", "/api", None, false, true), Request(Http, Get, "/api/\U{20AC}", "")) == Raises
  {
    var config, path := Config("", "/api", None, false, true), "/api/\U{20AC}";
    PlainConfig("/app", "/api");
    assert NormalizeRootMount("") == "";
    assert path[5] as int == 0x20AC && path[5] in path && path[..5] == "/api/";
    RaisesIff(config, Request(Http, Get, path, ""));
  }

  /** Up to U+00FF it does. */
  lemma LastLatin1Passes()
    ensures Route(Config("", "/api", None, false, true), Request(Http, Get, "/api/\U{FF}", "")).Api?
  {
    var config, path := Config("", "/api", None, false, true), "/api/\U{FF}";
    PlainConfig("/app", "/api");
    assert NormalizeRootMount("") == "";
    assert path[5] as int == 0xFF && path[..5] == "/api/";
    RoutesToApiIff(config, Request(Http, Get, path, ""));
  }

  lemma NextCodePointRaises()
    ensures Route(Config("", "/api", None, false, true), Request(Http, Get, "/api/\U{100}", "")) == Raises
  {
    var config, path := Config("", "/api", None, false, true), "/api/\U{100}";
    PlainConfig("/app", "/api");
    assert NormalizeRootMount("") == "";
    assert path[5] as int == 0x100 && path[5] in path && path[..5] == "/api/";
    RaisesIff(config, Request(Http, Get, path, ""));
  }

  /** Under a mount beyond ASCII the docs are not redirected to. */
  lemma AccentedMountRaises()
    ensures Route(Config("/caf\U{E9}", "/api", None, false, true), Request(Http, Get, "/docs", "")) == Raises
  {
    var config := Config("/caf\U{E9}", "/api", None, false, true);
    PlainConfig("/caf\U{E9}", "/api");
    assert config.RoutedMount()[4] as int == 0xE9 && config.RoutedMount()[4] in config.RoutedMount();
    RaisesIff(config, Request(Http, Get, "/docs", ""));
  }

  /** Under a prefix beyond Latin-1 no request reaches the API at all. */
  lemma WidePrefixNeverReached(config: Config, request: Request)
    requires !IsLatin1(config.Prefix())
    ensures !Route(config, request).Api?
  {
    var path := SplitGatewayPaths(request.path, config.GatewayMount()).dispatch;
    RoutesToApiIff(config, request);
    if config.IsApi(path) {
      ApiSplits(config, path);
      Latin1Sum(config.Prefix(), RemovePrefix(path, config.Prefix()));
    }
  }
}
