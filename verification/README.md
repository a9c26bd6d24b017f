# FluxLit: a verified model

FluxLit is an ASGI gateway in front of a FastAPI application and a Streamlit subprocess that it
manages. This project models the parts of it that hold an algorithm or a protocol, and proves what
they guarantee. `dafny verify dfyconfig.toml` checks everything.

| files | what they model |
|---|---|
| `NavGraph`, `NavBuild`, `NavPipeline`, `Pages` | the page registry and the navigation pipeline: sort by the navigation model, order by declared children (Kahn's algorithm with a min-queue and a cycle fallback), merge overrides, follow a deep link |
| `SidecarRestart`, `RestartHistory` | the monitor thread and the restart callback of `fluxlit run`, as two program counters that interleave, and the state they reach as told by the actions of a run |
| `LifespanBridge` | the unified ASGI application: lifespan loop, inner task, sidecar handle and upstream box, beside concurrent requests |
| `OidcStore`, `OidcFlow`, `OidcHistory` | the one-time token store, the login, callback and exchange routes over it, and which requests succeed as told by the actions of a run |
| `SessionHistory`, `SessionStore` | the bounded, expiring session store, insertion-ordered and trimmed from the front, and what a history of calls makes readable |
| `GatewayPaths`, `GatewayAnswers`, `PublicUrls`, `ClientPaths` | mounts and prefixes, the routing decision, exactly when each answer is given, docs redirects, the URLs shown to browsers, and what a client that follows them requests |
| `GatewayHeaders`, `HostPort`, `GatewayBody` | the HTTP hop to Streamlit: headers, the port in a host, and the three body readers |
| `WebSocketRelay` | the WebSocket handshake and its two relay tasks |
| `Sorting`, `Text`, `Wrappers` | stable sorting, Python's string operations, option types |

## How it is modelled

Objects that change in place are classes whose methods state the whole new state; loops are loops
with invariants. Each is proved against a specification that does not mention the code: a graph
order, a history of events, a predicate over message sequences. The state machines are also read off
the actions of a run, by definitions that do not look at their transitions. Concurrency is a sequence of steps,
a step being what runs between two awaits, two lock acquisitions or two accesses to a shared
variable; `RunAll` methods and `Run` datatypes range over every interleaving. Clock readings,
random values, process exits, and the answers of other servers are parameters of a step. Random
values are fresh: a minted state or code was never minted before.

## What the code does where its documentation, or a plausible reading, says otherwise

- Pages that the navigation model does not list are sorted by slug, not kept in registration order
  (`NavPipeline.SortFollowsModel`).
- `normalize_root_mount` is not idempotent: exactly the results that end in white space change again
  (`GatewayPaths.MountIsStableIff`). `normalize_api_mount_path` sends a blank value to `/`, and only
  the empty one to `/api` (`GatewayPaths.BlankApiPrefixIsRoot`).
- With the API at `/`, the health and readiness URLs do not reach the API. A `public_base_url` with a
  path is used whether or not that path is the mount; the URL works exactly when it is the mount that
  routing goes by (`PublicUrls.UrlReachesIff`). Without a mount, an API at `/` makes the docs redirect
  name another host; a `?` or `#` in a setting cuts a location short, and a client removes `.` and `..`
  segments from it before it requests the path (`GatewayPaths.DocsRedirectReachesDocsIff`).
- The gateway encodes every API path as Latin-1 and every redirect location as ASCII, and nothing catches
  the error. A request for an API path beyond Latin-1 raises (`GatewayPaths.EuroSignRaises`), so does a
  docs request under a mount or prefix beyond ASCII (`GatewayPaths.AccentedMountRaises`), and nothing
  else does (`GatewayPaths.RaisesIff`). Under a prefix beyond Latin-1 no request reaches the API
  (`GatewayPaths.WidePrefixNeverReached`).
- A `Host` whose port is written with superscript digits, or with more than 4300 digits, makes the HTTP
  hop fail (`HostPort.SuperscriptPortRaises`, `GatewayHeaders.AssembleHeaders`).
- Frames can reach a WebSocket client after the 1011 close, as long as the direction towards it has not
  ended (`WebSocketRelay.FrameFollowsClose`, `WebSocketRelay.RunAll`).
- An inner application that reports a failed startup and ends after the bridge's single yield leaves the
  sidecar running and requests entering until a shutdown comes
  (`LifespanBridge.FailureLeavesSidecarHeld`, `LifespanBridge.RunAll`).
- The debug address is answered with 404 in normal operation even if it lies inside the API
  (`GatewayPaths.RoutesToApiIff`).
- Allowlisting a header can remove lines as well as add them: a repeated header is reduced to its
  last value (`GatewayHeaders.AllowlistChangesNameIff`).
- The monitor can stop a healthy gateway, in the middle of a good restart. Exactly three steps make
  this possible: a restart is announced while the monitor acknowledges the previous one, an
  acknowledgement begins while a restart is being announced, or the wait for it times out before the
  replacement process is in place. After any run without such a step, another step opens the way to a
  wrong stop if and only if it is one of them (`SidecarRestart.GoesWrongIff`,
  `SidecarRestart.DisorderlyMeans`); two runs are written out as examples.
- A value in the OIDC store can vanish before its time to live is over when clock readings reach the
  store out of order (`OidcStore.LateReadingEvicts`); safety does not depend on their order.

## Model

| member | source | states |
|---|---|---|
| NavGraph.BuildGraph | src/fluxlit/streamlit/nav_build.py:88-95 | whatever order the edge set is iterated in, the adjacency lists hold each declared child once and each count is the number of distinct declaring parents |
| NavGraph.HeapPop | src/fluxlit/streamlit/nav_build.py:104 | the abstract min-queue: a least entry is taken out and nothing else |
| NavGraph.InitialHeap | src/fluxlit/streamlit/nav_build.py:97-99 | at the start the heap holds exactly the pages without a parent |
| NavGraph.CountDown | src/fluxlit/streamlit/nav_build.py:109-112 | each child loses one from its count, and exactly those that reach zero enter the heap, once |
| NavGraph.PushChildren | src/fluxlit/streamlit/nav_build.py:107-112 | after a page is placed, the count of every page is again the number of its parents not yet placed, and the heap again holds each page whose parents are all placed, once |
| NavGraph.AppendRemaining | src/fluxlit/streamlit/nav_build.py:122-124 | the pages left over follow in input order |
| NavGraph.OrderNodes | src/fluxlit/streamlit/nav_build.py:85-126 | the heap algorithm computes the order specified by repeatedly taking the least page whose parents are placed; the warning fires iff the edges have a cycle |
| NavGraph.EmittedIffNotBlocked | src/fluxlit/streamlit/nav_build.py:103-112 | the heap phase places exactly the pages that are neither on a cycle nor reachable from one |
| NavGraph.LeftoverIffCycle | src/fluxlit/streamlit/nav_build.py:114-120 | pages are left over iff there is a cycle |
| NavGraph.OrderIsPermutation | src/fluxlit/streamlit/nav_build.py:103-126 | for every edge relation the result is a permutation: unblocked pages first with every edge into them respected, then the blocked ones in input order |
| NavGraph.AcyclicOrderIsLeast | src/fluxlit/streamlit/nav_build.py:85-126 | without cycles the result is the lexicographically least permutation that puts every declaring parent before its children |
| NavGraph.LexLeqMeans | src/fluxlit/streamlit/nav_build.py:97-112 | what least means: equal, or smaller where the two orders first differ |
| NavGraph.EmittedIsGreatestAndLeast | src/fluxlit/streamlit/nav_build.py:103-112 | with or without cycles, no parents-first placement places a page the heap phase leaves out, and none of the same length is smaller |
| NavGraph.OrderWithoutEdges | src/fluxlit/streamlit/nav_build.py:85-86 | the shortcut for no edges returns what the loop would: the input order |
| NavBuild.IndexBySlug | src/fluxlit/streamlit/nav_build.py:58-59 | the index maps exactly the registered slugs to their positions |
| NavBuild.NamedChildren | src/fluxlit/streamlit/nav_build.py:66-83 | of a page's entries, exactly those naming another registered page become edges, and exactly those naming no page are warned about |
| NavBuild.DeclaredEdges | src/fluxlit/streamlit/nav_build.py:60-83 | the edge set is the declared relation between pages; the warnings name exactly the unknown slugs |
| NavBuild.OrderRecordsWithChildren | src/fluxlit/streamlit/nav_build.py:50-126 | records come out in the specified order, with exact unknown-slug and cycle warnings, also for no records and no edges |
| NavBuild.OrderingPermutes | src/fluxlit/streamlit/nav_build.py:122-126 | ordering loses, duplicates and changes no record, and keeps slugs distinct |
| NavBuild.ParentsComeFirst | src/fluxlit/streamlit/nav_build.py:50-55 | without cycles a page that declares a child stands before that child |
| NavBuild.MergeEntry | src/fluxlit/streamlit/nav_build.py:22-32 | one entry extends the merged titles and icons: the last value given to a slug wins, per field |
| NavBuild.CollectOverrides | src/fluxlit/streamlit/nav_build.py:16-32 | the merged table says, for every slug, the last title and icon given to it by any entry of any page |
| NavBuild.OverrideRecord | src/fluxlit/streamlit/nav_build.py:35-46 | a page gets the last title and icon given to its slug, or keeps its own |
| NavBuild.OverrideRecords | src/fluxlit/streamlit/nav_build.py:34-47 | the second loop does so for every page, in order |
| NavBuild.ApplyChildrenOverrides | src/fluxlit/streamlit/nav_build.py:14-47 | every page ends up with the last title and icon that any entry of any page gives to its slug, or its own |
| NavBuild.LastMeansLast | src/fluxlit/streamlit/nav_build.py:29-32 | what "last value" means: given by some entry, and by none after it |
| NavBuild.ShowsLastGiven | src/fluxlit/streamlit/nav_build.py:16-47 | a page shows the last title and the last icon that an entry naming its slug gives, and its own where none does |
| NavBuild.OverridingTwice | src/fluxlit/streamlit/nav_build.py:14-47 | overriding twice is overriding once |
| NavPipeline.IndexOfIsFirst | src/fluxlit/streamlit/nav_order.py:14-16 | a slug's rank is its first occurrence in the model's order |
| NavPipeline.SortFollowsModel | src/fluxlit/streamlit/nav_order.py:9-18 | listed pages come first, in the model's order; unlisted ones follow by slug |
| NavPipeline.SortingPermutes | src/fluxlit/streamlit/main.py:60-66 | sorting by the model permutes the pages and keeps slugs distinct |
| Sorting.SortIsStable | src/fluxlit/streamlit/main.py:63-66 | `sorted` keeps the order of pages with equal keys |
| NavPipeline.BuildNavigation | src/fluxlit/streamlit/main.py:60-67 | the entrypoint composes sort, order and override |
| NavPipeline.NavigationShowsEachPageOnce | src/fluxlit/streamlit/main.py:60-67 | from distinct slugs the navigation shows each registered page exactly once, with only titles and icons changed, and slugs still distinct |
| NavPipeline.MatchNavPage | src/fluxlit/deep_links.py:82-100 | the first page matching by title, path, slug or slash-trimmed path is found, and nothing iff none matches or the key is blank |
| NavPipeline.MatchesIff | src/fluxlit/deep_links.py:93-99 | a key matches a page iff it is its title, its path, or its path but for slashes around it, or `home` for a path of slashes only |
| NavPipeline.FollowDeepLink | src/fluxlit/streamlit/main.py:104-109 | a deep link switches at most once, and to the first page it matches |
| Pages.PageRegistry.Register | src/fluxlit/application/page_registry.py:99-129 | a page is refused, changing nothing, iff its handler is unfit (strict signature, session store) or its slug is taken, with the error the first of these in order; otherwise it is appended; slugs stay distinct |
| Pages.PageRegistry.SortPages | src/fluxlit/application/page_registry.py:58 | discovery's sort permutes the registry by path and title and keeps slugs distinct |
| Pages.StringLeqMeans | src/fluxlit/application/page_registry.py:58 | strings are ordered as in a dictionary: a prefix first, and else by the first difference |
| Pages.SlugMeans | src/fluxlit/pages/slug.py:4-6 | a slug is the path without the slashes around it, or `home` |
| Pages.TargetShapes | src/fluxlit/streamlit/nav_build.py:22-27 | an entry names the slug of its path, or else of its `url_path` |
| SidecarRestart.OrderlyStepKeeps | src/fluxlit/runtime/uvicorn_runner.py:214-270 | every step of either thread keeps the joint invariant, among it: an idle restarter with the flag up has set the event, or the monitor is mid-acknowledgement |
| SidecarRestart.OrderlyRunKeeps | src/fluxlit/runtime/uvicorn_runner.py:214-270 | so it holds after every orderly interleaving |
| SidecarRestart.MonitorStopsForGoodReason | src/fluxlit/runtime/uvicorn_runner.py:220-231 | after any orderly run, the process whose exit makes the monitor stop the gateway was not replaced by a successful restart |
| SidecarRestart.GoesWrongIff | src/fluxlit/runtime/uvicorn_runner.py:214-270 | the exact condition: after any orderly run, while the gateway is not stopping and the sidecar serves, a step lets calm steps alone lead to a stop in the middle of a good restart iff the step is not orderly |
| SidecarRestart.DisorderlyMeans | src/fluxlit/runtime/uvicorn_runner.py:220-224 | which steps these are |
| SidecarRestart.UpstreamNamesTheBox | src/fluxlit/runtime/uvicorn_runner.py:245-267 | whenever no restart runs and the last did not fail, the upstream file names the port of the process in the box |
| SidecarRestart.MonitorReaches | src/fluxlit/runtime/uvicorn_runner.py:215-232 | from any such state with the sidecar gone, every continuation in which no restart begins has stopped the gateway once the monitor has taken a counted number of steps |
| SidecarRestart.RoundsAreBounded | src/fluxlit/runtime/uvicorn_runner.py:215-232 | and the monitor has begun at most one more round of its loop, two if the flag is up |
| SidecarRestart.MonitorIsBlockedIff | src/fluxlit/runtime/uvicorn_runner.py:216-223 | the monitor can always take its next step, except while the process it waits for has not exited |
| SidecarRestart.MonitorStopsWithinTwoRounds | src/fluxlit/runtime/uvicorn_runner.py:214-232 | after any orderly run that leaves the sidecar gone, every continuation in which no restart begins stops the gateway within two rounds and thirteen steps of the monitor, even if an unobserved restart left the flag up |
| SidecarRestart.OverlapStopsTheGateway | src/fluxlit/runtime/uvicorn_runner.py:220-225 | an example: a run with an overlap and nothing else wrong stops the gateway in mid-restart |
| SidecarRestart.EarlyTimeoutStopsTheGateway | src/fluxlit/runtime/uvicorn_runner.py:221-224 | an example: so does one with an early timeout |
| RestartHistory.StopsIff | src/fluxlit/runtime/uvicorn_runner.py:226-264 | over every run, orderly or not: the gateway is to stop iff the server exited, or the monitor stopped it, or a restart whose replacement did not listen in time has given up |
| RestartHistory.EveryTimeoutGivesUp | src/fluxlit/runtime/uvicorn_runner.py:254-265 | the replacements that did not listen are exactly those given up, but for the one whose restart is still at it; an idle restarter owes no stop |
| RestartHistory.IdleAfterTimeoutStops | src/fluxlit/runtime/uvicorn_runner.py:254-265 | so once a restart whose replacement timed out is idle again, the gateway is to stop |
| RestartHistory.GivenUpIsGone | src/fluxlit/runtime/uvicorn_runner.py:256-257 | a replacement given up was terminated, or had exited |
| RestartHistory.RestartGivesUp | src/fluxlit/runtime/uvicorn_runner.py:236-270 | such a run exists, and nothing else in it stops the gateway |
| RestartHistory.FirstExit | src/fluxlit/runtime/uvicorn_runner.py:214-217 | the states that the response and the wrong stop are about are reached by orderly runs |
| RestartHistory.StoppedMonitorReturns | src/fluxlit/runtime/uvicorn_runner.py:215 | once the gateway is to stop, a monitor that begins its loop takes one more step at most, returns, and reads no process again |
| RestartHistory.FlagsFollow | src/fluxlit/runtime/uvicorn_runner.py:218-270 | the flag is up iff a restart was announced and the monitor has not taken it down since; the event is set iff a restart has ended and neither thread has cleared it since |
| RestartHistory.ProcessesFollow | src/fluxlit/runtime/uvicorn_runner.py:216-253 | the box holds the process last assigned, and the monitor watches the one it last took from it |
| RestartHistory.AliveIff | src/fluxlit/runtime/uvicorn_runner.py:252 | a process is alive from its spawning until its exit |
| RestartHistory.SignalsFollow | src/fluxlit/runtime/uvicorn_runner.py:243-257 | the processes terminated are those in the box at a termination, and the replacements given up, that were running then |
| RestartHistory.FailuresFollow | src/fluxlit/runtime/uvicorn_runner.py:243-265 | the failed restarts are those that gave up or did not get to spawn |
| RestartHistory.FileFollows | src/fluxlit/runtime/uvicorn_runner.py:266-267 | the upstream file names the port of the last replacement that was written to it, and is behind iff the last replacement was not |
| RestartHistory.RestarterStepsIff | src/fluxlit/runtime/uvicorn_runner.py:236-270 | a restart can take exactly the steps of its program, whatever the monitor does |
| RestartHistory.MonitorStepsIff | src/fluxlit/runtime/uvicorn_runner.py:214-232 | the monitor can take exactly the step of its place, and waits only for the watched process, the lock, or the event |
| OidcStore.PurgeExpired | src/fluxlit/auth/oidc.py:213-216 | exactly the entries older than the time to live are deleted |
| OidcStore.InMemoryOIDCBFFTokenStore.SavePkceVerifier | src/fluxlit/auth/oidc.py:229-232 | the verifier dictionary remains the replay of its history, extended by the save; the other dictionary is untouched |
| OidcStore.InMemoryOIDCBFFTokenStore.PopPkceVerifier | src/fluxlit/auth/oidc.py:234-238 | a verifier is returned iff its save is the latest, not popped, and in time at every clock reading since; it is used up |
| OidcStore.InMemoryOIDCBFFTokenStore.SaveExchangeToken | src/fluxlit/auth/oidc.py:240-243 | as for verifiers |
| OidcStore.InMemoryOIDCBFFTokenStore.PopExchangeToken | src/fluxlit/auth/oidc.py:245-249 | as for verifiers |
| OidcStore.ReplayHoldsLiveSaves | src/fluxlit/auth/oidc.py:213-249 | the dictionary holds exactly the live saves of its history, for any clock readings |
| OidcStore.PopReturnsLiveSave | src/fluxlit/auth/oidc.py:234-249 | a pop returns a value iff the history specification makes it available |
| OidcStore.PopIsAlwaysSafe | src/fluxlit/auth/oidc.py:234-249 | for any clock readings, a popped value was the latest save, not popped before, and in time |
| OidcStore.PopWithOrderedClock | src/fluxlit/auth/oidc.py:234-249 | with nondecreasing readings that is also sufficient |
| OidcStore.LateReadingEvicts | src/fluxlit/auth/oidc.py:213-216 | without them it is not: a concrete value vanishes early |
| OidcStore.EachSavePopsOnce | src/fluxlit/auth/oidc.py:234-249 | two successful pops of one key are separated by a save |
| OidcFlow.StepKeeps | src/fluxlit/auth/oidc.py:284-342 | every step of every handler keeps the flow's invariant over store, handlers and record |
| OidcFlow.RunKeeps | src/fluxlit/auth/oidc.py:284-342 | so it holds after every interleaving, with any clock readings |
| OidcFlow.StateIsCalledOnceWithItsVerifier | src/fluxlit/auth/oidc.py:300-314 | each state reaches the provider's token call at most once, with the verifier of the login that minted it |
| OidcFlow.CodeIsRedeemedOnceForItsToken | src/fluxlit/auth/oidc.py:326-342 | each one-time code is redeemed at most once, for the token it was minted with |
| OidcFlow.NothingFromNothing | src/fluxlit/auth/oidc.py:284-342 | redeemed codes <= minted codes <= states called <= states used up <= logins |
| OidcHistory.PkceFollows | src/fluxlit/auth/oidc.py:284-305 | over every interleaving the verifiers stored are what the saves of the logins and the pops of the callbacks, read off the run, make of an empty store |
| OidcHistory.ExchangeFollows | src/fluxlit/auth/oidc.py:322-342 | the same for the tokens: the saves of the callbacks and the pops of the exchanges |
| OidcHistory.CallbackGoesOnIff | src/fluxlit/auth/oidc.py:304-309 | a callback calls the provider with a verifier iff a login saved that verifier under its state, it was not popped since, and every clock reading since was in time |
| OidcHistory.ExchangeHandsOutIff | src/fluxlit/auth/oidc.py:335-342 | an exchange hands out a token iff a callback saved that token under its code, it was not popped since, and every clock reading since was in time |
| OidcHistory.CallbacksFollow | src/fluxlit/auth/oidc.py:300-306 | a callback is under way iff it arrived with a code and a state and has not popped yet |
| OidcHistory.ExchangesFollow | src/fluxlit/auth/oidc.py:252-253 | an exchange is, iff it arrived with at least eight characters and has not popped yet |
| OidcHistory.AnswerMintsIff | src/fluxlit/auth/oidc.py:308-328 | the provider is called with the code and the verifier; an answer with an access token always mints a code for it, another one never does |
| OidcHistory.LoginReachesProvider | src/fluxlit/auth/oidc.py:284-314 | after any run, a login whose callback comes back in time reaches the provider with its verifier |
| OidcHistory.TokenReachesBrowser | src/fluxlit/auth/oidc.py:308-342 | and the token its answer leads to is handed out to an exchange that comes in time |
| SessionStore.HistoriesAreInOrder | src/fluxlit/url_session.py:92-95 | entries always stand in the order their ids were last newly inserted; overwriting keeps the place |
| SessionStore.SizeIsBounded | src/fluxlit/url_session.py:92-129 | after any history the store holds at most `max_entries` entries |
| SessionStore.WriteIsRetained | src/fluxlit/url_session.py:108-129 | the entry just written survives its own trimming |
| SessionStore.TrimsIff | src/fluxlit/url_session.py:92-95 | exactly which entry trimming removes: the one first inserted of the unexpired entries, when these fill the store and the id written is not among them |
| SessionStore.PushesOutIff | src/fluxlit/url_session.py:92-95 | the same as the history says it, without the dictionary |
| SessionStore.HeldIsBounded | src/fluxlit/url_session.py:92-129 | the writes a history leaves held are never more than `max_entries` |
| SessionHistory.OneIsLive | src/fluxlit/url_session.py:128 | at most one write of an id is live |
| SessionStore.PushedOutOnlyByNewcomers | src/fluxlit/url_session.py:92-95 | an id is pushed out only after `max_entries` other ids were newly inserted since it came in |
| SessionStore.ReplayFollowsHistory | src/fluxlit/url_session.py:86-132 | the dictionary holds exactly the writes that the history leaves live: not overwritten, deleted, expired or pushed out since |
| SessionStore.GetReturnsLiveWrite | src/fluxlit/url_session.py:97-106 | `get` returns a payload iff its write is live in the history and in time at both clock readings |
| SessionStore.OwnTimeToLive | src/fluxlit/url_session.py:124-127 | a write with a positive time to live is read back iff both clock readings are before the write plus that time, whatever the default |
| SessionStore.NoTimeToLive | src/fluxlit/url_session.py:118-127 | one with a time to live that is not positive is read back at any time, even under a default |
| SessionStore.DefaultTimeToLive | src/fluxlit/url_session.py:124-127 | one without a time to live is read back as long as a positive default allows, and else at any time |
| SessionStore.InMemorySessionStore.constructor | src/fluxlit/url_session.py:75-84 | an empty store, whose capacity is at least one |
| SessionStore.InMemorySessionStore.EvictExpired | src/fluxlit/url_session.py:86-90 | popping expired keys one by one keeps exactly the entries before their deadline, in order |
| SessionStore.InMemorySessionStore.TrimSize | src/fluxlit/url_session.py:92-95 | popping first keys leaves the last `max_entries` entries |
| SessionStore.InMemorySessionStore.Get | src/fluxlit/url_session.py:97-106 | a new dictionary with the readable payload, or nothing iff none is readable |
| SessionStore.InMemorySessionStore.Set | src/fluxlit/url_session.py:108-129 | the write is recorded, and retained until the given time to live, or else the default, has passed since it was written; the size bound holds |
| SessionStore.InMemorySessionStore.Remove | src/fluxlit/url_session.py:131-132 | the id is gone, and the history says so |
| LifespanBridge.Bridge.constructor | src/fluxlit/runtime/lifespan_bridge.py:39 | no handle is held, the box is empty, and the invariant holds |
| LifespanBridge.Bridge.BeginLifespan | src/fluxlit/runtime/lifespan_bridge.py:44-62 | a new lifespan waits for its first message with an empty queue; what is held, and what happened before, stays |
| LifespanBridge.Bridge.ReceiveStartup | src/fluxlit/runtime/lifespan_bridge.py:68-103 | the four outcomes of a startup, each with where the coroutine waits next, what it logs, what is held and whether the inner application runs; at most one process is spawned |
| LifespanBridge.Bridge.Launches | src/fluxlit/runtime/lifespan_bridge.py:85-103 | a process that listens is held, the box set once, and the inner application started |
| LifespanBridge.Bridge.FailsToLaunch | src/fluxlit/runtime/lifespan_bridge.py:92-98 | a process that never listens is terminated and dropped before the failure is reported; the box was never set |
| LifespanBridge.Bridge.Acknowledges | src/fluxlit/runtime/lifespan_bridge.py:69-71 | a repeated startup is acknowledged and changes nothing else |
| LifespanBridge.Bridge.Refuses | src/fluxlit/runtime/lifespan_bridge.py:72-75 | several workers are refused before anything is spawned |
| LifespanBridge.Bridge.ReceiveShutdown | src/fluxlit/runtime/lifespan_bridge.py:123-129 | shutdown goes to the inner task, or is answered at once when there is none |
| LifespanBridge.Bridge.ReleaseSidecar | src/fluxlit/runtime/lifespan_bridge.py:130-134 | box and handle are emptied together, and a held process is terminated |
| LifespanBridge.Bridge.Resume | src/fluxlit/runtime/lifespan_bridge.py:97-141 | what each wait leads to: a put forwards its message, the yield goes on to the next message iff the inner application still runs, and otherwise reports a failure with the sidecar terminated; after the shutdown nothing is held; the inner application is left alone |
| LifespanBridge.Bridge.AfterYield | src/fluxlit/runtime/lifespan_bridge.py:104-121 | the bridge reports a failed startup, with the sidecar terminated and dropped, iff the inner application is already over at the yield; otherwise nothing changes |
| LifespanBridge.Bridge.Forwards | src/fluxlit/runtime/lifespan_bridge.py:103-127 | startup and shutdown enter the queue, once each and in that order |
| LifespanBridge.Bridge.AfterShutdown | src/fluxlit/runtime/lifespan_bridge.py:130-140 | after shutdown nothing is held, and a held process was terminated |
| LifespanBridge.Bridge.InnerReceives | src/fluxlit/runtime/lifespan_bridge.py:58-59 | what the inner application has received, with what is queued, is always what the bridge forwarded, in order; it finds nothing iff it has received everything |
| LifespanBridge.Bridge.InnerFinishes | src/fluxlit/runtime/lifespan_bridge.py:100-102 | the inner application may end at any time without touching box or handle; what the coroutine was waiting for is recorded |
| LifespanBridge.Bridge.Request | src/fluxlit/runtime/lifespan_bridge.py:150-181 | the gateway is entered iff a held handle polls alive; otherwise box and handle are empty, a handle dropped only because its process was seen to have exited |
| LifespanBridge.Bridge.SidecarExits | src/fluxlit/runtime/lifespan_bridge.py:152 | a process may exit at any time; box and handle do not know yet |
| LifespanBridge.RunAll | src/fluxlit/runtime/lifespan_bridge.py:41-181 | after any interleaving: the box is set iff a handle is held; every process spawned is held, terminated or seen dead; in a lifespan the box goes empty, set, empty and one process is spawned, at most; the inner application has received at most startup, then shutdown; and each request entered the gateway iff the handle held was alive, and with that process; once the inner application was started, nothing is held iff the bridge reported that it ended during startup, or it has ended after a shutdown, or a request saw the process exited, whatever it replied; after the yield the bridge has reported a failed startup iff the inner application had ended before the yield was over |
| LifespanBridge.FailsLate | src/fluxlit/runtime/lifespan_bridge.py:97-105 | whenever the inner application runs it may report a failed startup and end, which changes neither box nor handle |
| LifespanBridge.FailureLeavesSidecarHeld | src/fluxlit/runtime/lifespan_bridge.py:104-121 | a run in which it does so after the yield: the only reply is the failure, the sidecar is still held, and a request enters |
| WebSocketRelay.Relay.First | src/fluxlit/gateway/websocket_proxy.py:31-34 | anything but a connect is answered with 1002 and nothing else |
| WebSocketRelay.Relay.UpstreamConnects | src/fluxlit/gateway/websocket_proxy.py:83-94 | the client is accepted, with the upstream subprotocol iff it offered it, or closed with 1011 |
| WebSocketRelay.Relay.TryCloseClient | src/fluxlit/gateway/websocket_proxy.py:98-112 | the shared flag lets one direction at most send the 1011 close, and what may follow the close depends on which it was |
| WebSocketRelay.Relay.ClientDelivers | src/fluxlit/gateway/websocket_proxy.py:117-130 | bytes win over text, an empty frame is a frame, and a disconnect closes upstream |
| WebSocketRelay.Relay.UpstreamSends | src/fluxlit/gateway/websocket_proxy.py:122-125 | the frame received is the frame sent, in order |
| WebSocketRelay.Relay.UpstreamTaskStops | src/fluxlit/gateway/websocket_proxy.py:126-132 | the loop ends, cancelling the group, with at most its frame in flight lost |
| WebSocketRelay.Relay.UpstreamTaskFails | src/fluxlit/gateway/websocket_proxy.py:133-140 | an error closes the client unless the other direction has |
| WebSocketRelay.Relay.UpstreamDelivers | src/fluxlit/gateway/websocket_proxy.py:143-149 | a frame from upstream is taken up for the client |
| WebSocketRelay.Relay.ClientReceives | src/fluxlit/gateway/websocket_proxy.py:146-149 | and reaches it unchanged, in order |
| WebSocketRelay.Relay.ClientTaskStops | src/fluxlit/gateway/websocket_proxy.py:150-151 | as for the other direction |
| WebSocketRelay.Relay.ClientTaskFails | src/fluxlit/gateway/websocket_proxy.py:152-159 | as for the other direction |
| WebSocketRelay.Relay.TasksEnd | src/fluxlit/gateway/websocket_proxy.py:114-162 | the relay is over once both loops are |
| WebSocketRelay.RunAll | src/fluxlit/gateway/websocket_proxy.py:31-171 | after any interleaving each direction has forwarded a prefix of the frames it received, all but at most one; accept precedes data; at most one 1011 close is sent; what follows that close is frames only, and nothing unless the direction towards upstream sent it; no frame is sent once the direction towards the client is over |
| WebSocketRelay.FrameReachesUpstream | src/fluxlit/gateway/websocket_proxy.py:121-125 | a message from the client reaches upstream as its bytes if it has any, even none at all, and else as its text |
| WebSocketRelay.FrameStillFollows | src/fluxlit/gateway/websocket_proxy.py:143-149 | until then one more frame can always reach the client, before or after the close |
| WebSocketRelay.FrameFollowsClose | src/fluxlit/gateway/websocket_proxy.py:98-149 | a run in which one does, after the close |
| GatewayBody.JudgeMeans | src/fluxlit/gateway/http_proxy.py:137-206 | the verdict common to all readers: too large iff some message takes the body over the limit before anything ends it, disconnected or complete iff the message that ends it says so |
| GatewayBody.Drain | src/fluxlit/gateway/http_proxy.py:161-181 | draining reaches that verdict and reads no message after the one that decides it |
| GatewayBody.Collect | src/fluxlit/gateway/http_proxy.py:183-206 | collecting reaches the same verdict, never buffers more than the limit, and an accepted body is the concatenation of the chunks |
| GatewayBody.Stream | src/fluxlit/gateway/http_proxy.py:137-160 | streaming reaches the same verdict, yields the non-empty chunks in order up to there, and an accepted body is their concatenation |
| GatewayBody.ChunksJoin | src/fluxlit/gateway/http_proxy.py:148-154 | the chunks yielded concatenate to the body, empty ones left out |
| GatewayBody.SameBody | src/fluxlit/gateway/http_proxy.py:137-206 | readers that accept the same messages have read the same body |
| GatewayBody.Proxy | src/fluxlit/gateway/http_proxy.py:208-252 | a drained or collected request contacts upstream iff the whole body was accepted, with exactly that body; a streamed one offers the chunks in order, cut short only by a failing upstream; each outcome has its one response |
| GatewayBody.WholeOutcomes | src/fluxlit/gateway/http_proxy.py:208-252 | by the messages: over the limit is answered with 413, a disconnect with 499, and a completed body is sent upstream whole and answered with its status, or with 502 |
| GatewayBody.StreamOutcomes | src/fluxlit/gateway/http_proxy.py:137-252 | a completed streamed body is offered whole, chunk by chunk, and a disconnect is answered with 499 |
| GatewayBody.AnsweredStatuses | src/fluxlit/gateway/http_proxy.py:231-252 | upstream's status is passed on, and its failure answered with 502 |
| GatewayHeaders.SetItemGivesOneValue | src/fluxlit/gateway/http_proxy.py:121-133 | assigning a header leaves that name one value and other names theirs |
| GatewayHeaders.SetItemLeavesOthers | src/fluxlit/gateway/http_proxy.py:121-133 | lines of other names keep spelling, value and order |
| GatewayHeaders.LastAssignmentWins | src/fluxlit/gateway/http_proxy.py:122-133 | after a run of assignments a name has the last value assigned, or its old ones |
| GatewayHeaders.AssignAll | src/fluxlit/gateway/http_proxy.py:124-127 | assigning the pairs one by one is assigning them in order |
| GatewayHeaders.FilterRequestHeaders | src/fluxlit/gateway/header_filter.py:6-33 | exactly the lines that are not hop-by-hop, forwarding or host survive, in order |
| GatewayHeaders.DropRequestId | src/fluxlit/gateway/http_proxy.py:116-120 | the client's request ids are dropped and nothing else |
| GatewayHeaders.PublicHostFromScope | src/fluxlit/gateway/upstream_http.py:25-30 | the first host line decides, stripped, with the upstream host for a blank or missing one |
| GatewayHeaders.PublicHostMeans | src/fluxlit/gateway/upstream_http.py:25-30 | whatever follows it, the first line called host decides |
| GatewayHeaders.NoPublicHost | src/fluxlit/gateway/upstream_http.py:30 | without one the upstream host is used |
| HostPort.PlainPortMeans | src/fluxlit/gateway/upstream_http.py:40-44 | a host names a port, or makes the reading raise, iff the text after a colon says so: a numeral of at most 4300 digits, or any other text of digits and superscripts |
| HostPort.BracketedPortMeans | src/fluxlit/gateway/upstream_http.py:35-39 | a bracketed address does, iff the text after its first `]:` says so |
| HostPort.DigitsArePort | src/fluxlit/gateway/upstream_http.py:40-43 | digits after the last colon are the port, up to 4300 of them; more make the reading raise |
| HostPort.OtherTextIsNoPort | src/fluxlit/gateway/upstream_http.py:40-44 | any other text there names no port |
| HostPort.SuperscriptPortRaises | src/fluxlit/gateway/upstream_http.py:40-43 | concrete hosts on which reading the port raises |
| HostPort.DecimalRoundTrip | src/fluxlit/gateway/upstream_http.py:61-63 | a number written in decimal reads back as itself |
| HostPort.NoLeadingZero | src/fluxlit/gateway/upstream_http.py:61-63 | and is written without leading zeros |
| GatewayHeaders.PortTextNamesThePort | src/fluxlit/gateway/upstream_http.py:61-63 | the forwarded port is a numeral for the port of the public host, present iff the host names one |
| GatewayHeaders.ForwardedUpstreamHeaderPairs | src/fluxlit/gateway/upstream_http.py:47-67 | the pairs are built iff reading the port of the public host does not raise |
| GatewayHeaders.ForwardedPairsSayOwn | src/fluxlit/gateway/upstream_http.py:47-67 | the gateway says one thing at most under each forwarding name, the port among them, and nothing under any other |
| GatewayHeaders.NormalizeAllowlist | src/fluxlit/gateway/forward_headers.py:36-46 | the allowlist holds exactly the lower-cased names asked for that are valid and not on the block list |
| GatewayHeaders.HeaderNameShapes | src/fluxlit/gateway/forward_headers.py:33 | a name is valid iff it has at most 64 letters, digits and hyphens and does not start with a hyphen |
| GatewayHeaders.MergeAllowlistedBrowserHeaders | src/fluxlit/gateway/forward_headers.py:69-90 | exactly the allowlisted, unblocked client lines are assigned, in order |
| GatewayHeaders.AssembleHeaders | src/fluxlit/gateway/http_proxy.py:113-133 | the hop fails iff reading the port of the public host raises; otherwise, for every name, exactly what the hop carries: one host, one request id, the gateway's own forwarding values, the last value of an allowlisted name, nothing hop-by-hop, and all client values otherwise; untouched lines keep spelling and order |
| GatewayHeaders.HopByHopLines | src/fluxlit/gateway/header_filter.py:7-16 | six of the hop-by-hop names never go upstream; two do iff the allowlist lets them in |
| GatewayHeaders.BlockedLines | src/fluxlit/gateway/forward_headers.py:11-31 | credentials and lengths go upstream as the client sent them, whatever the allowlist |
| GatewayHeaders.OwnLines | src/fluxlit/gateway/upstream_http.py:54-67 | the gateway's own values: a blank scheme is http, an empty prefix or client is not told |
| GatewayHeaders.AllowlistChangesNameIff | src/fluxlit/gateway/forward_headers.py:69-90 | an allowlist changes the lines assembled under a name iff the name is let back in from the hop-by-hop list or is repeated |
| GatewayPaths.MountShape | src/fluxlit/gateway/paths.py:8-19 | a mount is empty, or a path with a leading and no trailing slash |
| GatewayPaths.ApiMountShape | src/fluxlit/api_mount.py:4-13 | a prefix is `/`, or a path with a leading and no trailing slash |
| GatewayPaths.MountIsStableIff | src/fluxlit/gateway/paths.py:8-19 | normalizing again changes a mount iff it ends in white space, and then shortens it |
| GatewayPaths.MountNeedNotBeStable | src/fluxlit/gateway/paths.py:8-19 | a concrete mount that changes twice |
| GatewayPaths.BlankApiPrefixIsRoot | src/fluxlit/api_mount.py:4-13 | a blank prefix is the root, the empty one `/api` |
| GatewayPaths.MountedPathSplits | src/fluxlit/gateway/paths.py:34-43 | under its mount a path dispatches as if the mount were not there |
| GatewayPaths.SplitIsStable | src/fluxlit/gateway/paths.py:22-43 | Streamlit's path is always under the mount, and splitting it again changes nothing |
| GatewayPaths.ShapesSplitAlikeIff | src/fluxlit/gateway/paths.py:22-43 | stripped and full paths split alike iff the stripped one does not repeat the mount |
| GatewayPaths.ProxyShapesAgree | src/fluxlit/gateway/dispatch.py:66-218 | then the gateway's whole answer is the same for both proxy shapes, for every kind of request; what it is, the next rows say |
| GatewayAnswers.ReadsBelowIff | src/fluxlit/gateway/paths.py:34-43 | every path reads exactly one way below the mount, and Streamlit knows it as the path itself if that is under the mount, and else as the mount followed by it |
| GatewayAnswers.MetricsIff | src/fluxlit/gateway/dispatch.py:77-103 | metrics are answered iff the path is the metrics address, outside the API, for GET |
| GatewayAnswers.DebugSnapshotIff | src/fluxlit/gateway/dispatch.py:104-126 | the debug snapshot iff it is the debug address, in debug mode and outside the API, for GET |
| GatewayAnswers.NotFoundIff | src/fluxlit/gateway/dispatch.py:104-112 | not found iff it is the debug address otherwise |
| GatewayAnswers.ApiIff | src/fluxlit/gateway/dispatch.py:166-172 | exactly which requests reach FastAPI, and with which path and `root_path` |
| GatewayAnswers.UpstreamMissingIff | src/fluxlit/gateway/dispatch.py:173-180 | a missing upstream is answered iff the request is neither the API's nor the gateway's own and there is none |
| GatewayAnswers.ProxyWebSocketIff | src/fluxlit/gateway/dispatch.py:181-192 | a WebSocket goes to Streamlit iff it is neither and there is one, with Streamlit's path and the mount |
| GatewayAnswers.ProxyHttpIff | src/fluxlit/gateway/dispatch.py:193-218 | an HTTP request does iff it is neither and asks for no docs, with Streamlit's path and the mount |
| GatewayAnswers.DocsAreRedirected | src/fluxlit/gateway/dispatch.py:193-205 | a docs request is redirected to the page of that name under mount and prefix, or raises if that is beyond ASCII |
| GatewayAnswers.OnlyDocsAreRedirected | src/fluxlit/gateway/dispatch.py:193-205 | and no other request is |
| GatewayPaths.RoutesToApiIff | src/fluxlit/gateway/dispatch.py:69-172 | a request goes to FastAPI iff its path is under the prefix and within Latin-1 and is not the debug address |
| GatewayPaths.ReachesIffDispatched | src/fluxlit/gateway/dispatch.py:166-172 | a request reaches a page of the API iff it is dispatched as the prefix and the page, and the prefix is within Latin-1 |
| GatewayPaths.DispatchedAsIff | src/fluxlit/gateway/paths.py:34-43 | a path is dispatched as another iff it is that one under the mount, or is that one and is not itself under the mount |
| GatewayPaths.WidePrefixNeverReached | src/fluxlit/gateway/dispatch.py:166-172 | under a prefix beyond Latin-1 no request reaches the API |
| GatewayPaths.ApiSpellsPathIff | src/fluxlit/gateway/paths.py:53-70 | stripping the prefix raises iff the stripped path is beyond Latin-1; otherwise `root_path` and path spell the incoming path, exactly unless it is the prefix itself or the API is at the root; then by exactly one slash |
| GatewayPaths.BothShapesSpellTheBrowserPath | src/fluxlit/runtime/public_mount.py:21-33 | with a stable mount a request for the API reaches FastAPI iff its path is within Latin-1, and then both proxy shapes give it the same path and `root_path`, which spell the browser's path |
| GatewayPaths.DocsRedirectReachesDocsIff | src/fluxlit/gateway/dispatch.py:193-205 | a client that follows a docs redirect reaches that page of the API iff the location does not name another host, the prefix holds no `?`, `#` or dot segment, and the mount survives being requested: it holds none either, or its dot segments leave nothing of it, or what precedes its `?` or `#` is the page's own path |
| GatewayPaths.DocsRequestIsRedirectedIff | src/fluxlit/gateway/dispatch.py:193-205 | a request is redirected iff it asks for the docs at the top level and mount and prefix are ASCII; if they are not, such a request raises |
| GatewayPaths.RaisesIff | src/fluxlit/gateway/dispatch.py:166-205 | the gateway raises iff the path goes to the API and is beyond Latin-1, or the request asks for the docs under settings beyond ASCII |
| GatewayPaths.EuroSignRaises | src/fluxlit/gateway/dispatch.py:166-172 | a concrete API path on which it raises |
| GatewayPaths.LastLatin1Passes | src/fluxlit/gateway/dispatch.py:166-172 | U+00FF is still accepted |
| GatewayPaths.NextCodePointRaises | src/fluxlit/gateway/dispatch.py:166-172 | U+0100 is not |
| GatewayPaths.AccentedMountRaises | src/fluxlit/gateway/responses.py:24-36 | a concrete mount under which a docs request raises |
| GatewayPaths.DocsRedirectLeavesHostIff | src/fluxlit/gateway/paths.py:46-50 | the location names another host iff the mount starts with two slashes, or there is none and the API is at the root or starts that way |
| PublicUrls.JoinUrl | src/fluxlit/application/public_urls.py:24-31 | the base without trailing slashes, then each non-empty part with one leading slash added if missing |
| PublicUrls.OriginHasNoTrailingSlash | src/fluxlit/application/public_urls.py:19-21 | an origin survives being stripped of slashes |
| PublicUrls.OriginSpelled | src/fluxlit/application/public_urls.py:54-63 | a configured base decides the origin, whatever the request, and else the request does |
| PublicUrls.AppBase | src/fluxlit/application/public_urls.py:54-70 | origin and base, whichever of the three branches is taken, for any parsed base URL with any query or fragment |
| PublicUrls.ApiBase | src/fluxlit/application/public_urls.py:72-75 | the same, followed by the prefix |
| PublicUrls.ApiUrl | src/fluxlit/application/public_urls.py:98-104 | the health and readiness URLs, also for an API at the root |
| PublicUrls.UrlReachesIff | src/fluxlit/application/public_urls.py:54-104 | a client that follows such a URL reaches its page iff the prefix is within Latin-1 and holds no `?`, `#` or dot segment, and the base leads there: a base without them iff the API is not at the root and the base is the mount that routing goes by, another iff what the client makes of it is the page's path |
| PublicUrls.RequestUrlReachesIff | src/fluxlit/application/public_urls.py:54-104 | built from a request: iff the prefix is so, and a mount without such marks does not end in white space, with the API not at the root; a mount with them must leave the page's path |

## Left out

- The restart watcher's own debounce, worker joins and the reload supervisor; a restart is a step sequence that may begin whenever the previous one has ended.
- How long the operating system takes to schedule the monitor: response is counted in its own steps. A restart that fails after terminating the old process does let the monitor stop the gateway, as in the code.
- Pages are named by their position; the one-to-one map between slugs and positions is `NavBuild.IndexBySlug`, which needs distinct slugs, as the registry keeps them.
- The array layout of `heapq`; the heap is what a min-queue promises.
- The inspection of a page function's signature, its docstring and its name: their outcomes are given with the handler.
- Streamlit's own reaction to a page switch, and the page icons passed to it.
- PKCE hashing, JWT signatures, discovery and redirect URLs; the provider's answer is an arbitrary access token or a failure. A token store shared by several replicas.
- SessionStore.InMemorySessionStore.Get: the copy is shallow in the code; nested lists and dictionaries are values here, so sharing below the first level is not captured.
- Hydrating and persisting Streamlit session state through the URL.
- Several lifespans at a time and cancellation of the lifespan coroutine; an inner task that raises counts as finished; scope types other than lifespan, HTTP and WebSocket. The replies that the inner application itself sends are not restricted.
- WebSocket handshake headers, message size limits and pings; an accept that fails with an uncaught exception; errors raised while closing the upstream connection.
- Response headers and bodies of the HTTP hop, and the concurrency limit.
- Header names and values are ASCII text, but for the digits of a port: the encoding errors of the HTTP client and the lower-casing of other alphabets.
- Metrics and debug bodies, access logs and tracing; percent-encoding of paths, and what a client makes of characters that RFC 3986 does not allow in them.
- `urlparse` itself (a parsed base is a parameter), page URLs and the docs links.
- The command line, settings parsing, dependency injection, import machinery, log redaction and process control.
