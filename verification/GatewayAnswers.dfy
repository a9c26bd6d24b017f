/** The gateway's answer to every request, told by the request and the settings: for each answer, exactly
    when it is given and with what.  The definitions here do not look at how a request is dispatched. */
module GatewayAnswers {
  import opened Text
  import opened Wrappers
  import opened GatewayPaths

  /** What a request path reads below the mount `m`; bare where it is not under the mount. */
  predicate ReadsBelow(path: string, m: string, d: string) {
    var p := WithLeadingSlash(path);
    && StartsWith(d, "/")
    && if m != "" && (p == m || StartsWith(p, m + "/")) then p == m + d || (p == m && d == "/") else d == p
  }

  /** The path that Streamlit knows: the one requested where that is under the mount, else below it. */
  function StreamlitPath(path: string, m: string): string {
    var p := WithLeadingSlash(path);
    if m == "" || p == m || StartsWith(p, m + "/") then p else m + p
  }

  /** Every path reads exactly one way, and that is what dispatch looks at. */
  lemma ReadsBelowIff(path: string, mount: string, d: string)
    ensures ReadsBelow(path, NormalizeRootMount(mount), d) <==> d == SplitGatewayPaths(path, mount).dispatch
    ensures SplitGatewayPaths(path, mount).streamlit == StreamlitPath(path, NormalizeRootMount(mount))
  {
    var m, p := NormalizeRootMount(mount), WithLeadingSlash(path);
    MountShape(mount);
    SplitIsStable(path, mount);
    DispatchedPart(p, mount);
    if ReadsBelow(path, m, d) && m != "" && Under(p, m) && p != m { assert p[|m|..] == d; }
  }

  /** The address that metrics are served at, unless it falls inside the API. */
  predicate IsMetricsAddress(config: Config, d: string) {
    && config.metrics.Some? && !Under(d, config.Prefix())
    && d == WithLeadingSlash(Strip(if config.metrics.value == "" then "/__fluxlit/metrics" else config.metrics.value,
                                   IsSpace))
  }

  /** The addresses that the gateway answers itself, for GET requests over HTTP. */
  predicate IsOwn(config: Config, request: Request, d: string) {
    request.kind.Http? && request.verb.Get? && (IsMetricsAddress(config, d) || d == "/__fluxlit/debug")
  }

  /** A docs address at the top level leads to the page in the API. */
  predicate LeadsTo(d: string, page: string) {
    || (page == "/docs" && (d == "/docs" || d == "/docs/"))
    || (page == "/redoc" && (d == "/redoc" || d == "/redoc/"))
    || (page == "/openapi.json" && d == "/openapi.json")
  }

  lemma LeadsToIff(d: string, page: string)
    ensures LeadsTo(d, page) <==> DocsPage(d) == Some(page)
  {
    assert |"/docs"| == 5 && |"/docs/"| == 6 && |"/redoc"| == 6 && |"/redoc/"| == 7 && |"/openapi.json"| == 13;
    assert "/docs/"[1] == 'd' && "/redoc"[1] == 'r';
  }

  lemma MetricsPathIff(config: Config, d: string)
    ensures config.MetricsPath() == Some(d) <==> IsMetricsAddress(config, d)
  {
  }

  /** The answer depends on the path only as it reads below the mount and as Streamlit knows it. */
  lemma RouteReads(config: Config, request: Request, d: string)
    requires ReadsBelow(request.path, config.RoutedMount(), d)
    ensures Route(config, request)
         == Dispatch(config, request.kind, request.verb, GivenRootPath(config, request),
                     Split(d, StreamlitPath(request.path, config.RoutedMount())))
    ensures config.MetricsPath() == Some(d) <==> IsMetricsAddress(config, d)
  {
    ReadsBelowIff(request.path, config.GatewayMount(), d);
    MetricsPathIff(config, d);
  }

  /** The `root_path` that the gateway sees: the public mount when the server gave none. */
  function GivenRootPath(config: Config, request: Request): string {
    var mount := NormalizeRootMount(NormalizeRootMount(config.mount));
    if mount != "" && Strip(request.rootPath, IsSpace) == "" then mount else request.rootPath
  }

  // ----- The branches, for any split -----

  /** A GET request for one of the gateway's own addresses. */
  predicate IsOwnGet(config: Config, kind: Kind, verb: Verb, d: string) {
    kind.Http? && verb.Get? && (config.MetricsPath() == Some(d) || d == DEBUG_PATH)
  }

  lemma OwnBranches(config: Config, kind: Kind, verb: Verb, rootPath: string, split: Split)
    ensures var answer, d := Dispatch(config, kind, verb, rootPath, split), split.dispatch;
            var get := kind.Http? && verb.Get?;
            var debugging := get && config.MetricsPath() != Some(d) && d == DEBUG_PATH;
            && (answer == Metrics <==> get && config.MetricsPath() == Some(d))
            && (answer == DebugSnapshot <==> debugging && config.DebugOn())
            && (answer == NotFound <==> debugging && !config.DebugOn())
  {
  }

  lemma StreamlitBranches(config: Config, kind: Kind, verb: Verb, rootPath: string, split: Split)
    ensures var answer, d := Dispatch(config, kind, verb, rootPath, split), split.dispatch;
            var left := !config.IsApi(d) && !IsOwnGet(config, kind, verb, d);
            var docs := !verb.OtherVerb? && DocsPage(d).Some?;
            && (answer == UpstreamMissing <==> left && !config.upstream)
            && (answer.ProxyWebSocket? <==> left && config.upstream && kind.WebSocket?)
            && (answer.ProxyHttp? <==> left && config.upstream && kind.Http? && !docs)
            && (answer.ProxyWebSocket? ==> answer == ProxyWebSocket(split.streamlit, config.GatewayMount()))
            && (answer.ProxyHttp? ==> answer == ProxyHttp(split.streamlit, config.GatewayMount()))
  {
  }

  // ----- The gateway's own addresses -----

  /** The metrics address is answered with the metrics, for GET. */
  lemma MetricsIff(config: Config, request: Request, d: string)
    requires ReadsBelow(request.path, config.RoutedMount(), d)
    ensures Route(config, request) == Metrics
       <==> request.kind.Http? && request.verb.Get? && IsMetricsAddress(config, d)
  {
    RouteReads(config, request, d);
    OwnBranches(config, request.kind, request.verb, GivenRootPath(config, request),
                Split(d, StreamlitPath(request.path, config.RoutedMount())));
  }

  /** The debug address is answered with the snapshot in debug mode, unless it lies inside the API. */
  lemma DebugSnapshotIff(config: Config, request: Request, d: string)
    requires ReadsBelow(request.path, config.RoutedMount(), d)
    ensures Route(config, request) == DebugSnapshot
       <==> && request.kind.Http? && request.verb.Get? && d == "/__fluxlit/debug" && !IsMetricsAddress(config, d)
            && config.debug && !Under(d, config.Prefix())
  {
    RouteReads(config, request, d);
    OwnBranches(config, request.kind, request.verb, GivenRootPath(config, request),
                Split(d, StreamlitPath(request.path, config.RoutedMount())));
  }

  /** Otherwise it is not found; nothing else is. */
  lemma NotFoundIff(config: Config, request: Request, d: string)
    requires ReadsBelow(request.path, config.RoutedMount(), d)
    ensures Route(config, request) == NotFound
       <==> && request.kind.Http? && request.verb.Get? && d == "/__fluxlit/debug" && !IsMetricsAddress(config, d)
            && !(config.debug && !Under(d, config.Prefix()))
  {
    RouteReads(config, request, d);
    OwnBranches(config, request.kind, request.verb, GivenRootPath(config, request),
                Split(d, StreamlitPath(request.path, config.RoutedMount())));
  }

  // ----- FastAPI -----

  /** What FastAPI is told: what follows the prefix, or `/`, and the prefix appended to the public mount
      when the server gave no `root_path`, and else to that. */
  lemma ApiIff(config: Config, request: Request, d: string, path: string, rootPath: string)
    requires ReadsBelow(request.path, config.RoutedMount(), d)
    ensures Route(config, request) == Api(path, rootPath)
       <==> && Under(d, config.Prefix()) && IsLatin1(d)
            && !(request.kind.Http? && request.verb.Get? && d == "/__fluxlit/debug")
            && path == (if d == config.Prefix() then "/" else d[|config.Prefix()|..])
            && rootPath == RStrip(GivenRootPath(config, request), IsSlash) + RStrip(config.Prefix(), IsSlash)
  {
    ReadsBelowIff(request.path, config.GatewayMount(), d);
    RoutesToApiIff(config, request);
    if config.IsApi(d) && !IsReserved(request.kind, request.verb, d) {
      ApiRoute(config, request, d);
      ApiSplits(config, d);
    }
  }

  // ----- Streamlit -----

  /** What is left to Streamlit: neither the API's nor the gateway's own. */
  predicate IsStreamlits(config: Config, request: Request, d: string) {
    !Under(d, config.Prefix()) && !IsOwn(config, request, d)
  }

  /** Without an upstream all of it is answered so. */
  lemma UpstreamMissingIff(config: Config, request: Request, d: string)
    requires ReadsBelow(request.path, config.RoutedMount(), d)
    ensures Route(config, request) == UpstreamMissing <==> IsStreamlits(config, request, d) && !config.upstream
  {
    RouteReads(config, request, d);
    StreamlitBranches(config, request.kind, request.verb, GivenRootPath(config, request),
                      Split(d, StreamlitPath(request.path, config.RoutedMount())));
  }

  /** With one, every WebSocket goes to Streamlit's path, and Streamlit is told the mount. */
  lemma ProxyWebSocketIff(config: Config, request: Request, d: string, path: string, forwardedPrefix: string)
    requires ReadsBelow(request.path, config.RoutedMount(), d)
    ensures Route(config, request) == ProxyWebSocket(path, forwardedPrefix)
       <==> && request.kind.WebSocket? && IsStreamlits(config, request, d) && config.upstream
            && path == StreamlitPath(request.path, config.RoutedMount())
            && forwardedPrefix == NormalizeRootMount(NormalizeRootMount(config.mount))
  {
    RouteReads(config, request, d);
    StreamlitBranches(config, request.kind, request.verb, GivenRootPath(config, request),
                      Split(d, StreamlitPath(request.path, config.RoutedMount())));
  }

  /** So does every HTTP request, but for the docs. */
  lemma ProxyHttpIff(config: Config, request: Request, d: string, path: string, forwardedPrefix: string)
    requires ReadsBelow(request.path, config.RoutedMount(), d)
    ensures Route(config, request) == ProxyHttp(path, forwardedPrefix)
       <==> && request.kind.Http? && IsStreamlits(config, request, d) && config.upstream
            && !(!request.verb.OtherVerb? && exists page | page in PAGES :: LeadsTo(d, page))
            && path == StreamlitPath(request.path, config.RoutedMount())
            && forwardedPrefix == NormalizeRootMount(NormalizeRootMount(config.mount))
  {
    RouteReads(config, request, d);
    StreamlitBranches(config, request.kind, request.verb, GivenRootPath(config, request),
                      Split(d, StreamlitPath(request.path, config.RoutedMount())));
    forall page ensures LeadsTo(d, page) <==> DocsPage(d) == Some(page) { LeadsToIff(d, page); }
  }

  /** Those are redirected to their page in the API, under the mount, where that can be encoded. */
  lemma DocsAreRedirected(config: Config, request: Request, d: string, page: string)
    requires ReadsBelow(request.path, config.RoutedMount(), d) && LeadsTo(d, page)
    requires request.kind.Http? && !request.verb.OtherVerb? && IsStreamlits(config, request, d) && config.upstream
    ensures var location := config.RoutedMount() + (config.Prefix() + page);
            Route(config, request) == if IsAscii(location) then Redirect(location) else Raises
  {
    var split := SplitGatewayPaths(request.path, config.GatewayMount());
    ReadsBelowIff(request.path, config.GatewayMount(), d);
    LeadsToIff(d, page);
    assert d != DEBUG_PATH by { DocsAreNotDebug(d); }
    assert !(request.verb.Get? && Some(d) == config.MetricsPath());
    DocsDispatch(config, request.verb, InjectRootPath(NormalizeRootMount(config.mount), request.rootPath), split);
    ApiMountShape(config.apiMount);
    LocationSpelled(config.GatewayMount(), config.Prefix() + page);
  }

  lemma DocsDispatch(config: Config, verb: Verb, rootPath: string, split: Split)
    requires DocsPage(split.dispatch).Some? && split.dispatch != DEBUG_PATH && !config.IsApi(split.dispatch)
    requires config.upstream && !verb.OtherVerb? && !(verb.Get? && Some(split.dispatch) == config.MetricsPath())
    ensures Dispatch(config, Http, verb, rootPath, split)
         == Redirects(LocationUnderMount(config.GatewayMount(), config.Prefix() + DocsPage(split.dispatch).value))
  {
  }

  /** And nothing else is redirected. */
  lemma OnlyDocsAreRedirected(config: Config, request: Request, d: string)
    requires ReadsBelow(request.path, config.RoutedMount(), d) && Route(config, request).Redirect?
    ensures request.kind.Http? && !request.verb.OtherVerb? && IsStreamlits(config, request, d) && config.upstream
    ensures exists page :: LeadsTo(d, page)
  {
    ReadsBelowIff(request.path, config.GatewayMount(), d);
    DocsRequestIsRedirectedIff(config, request);
    DocsAreNotDebug(d);
    LeadsToIff(d, DocsPage(d).value);
  }
}
