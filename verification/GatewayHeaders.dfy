/** The headers of the HTTP hop to Streamlit: what the client sent, what the gateway sets, and what
    an operator lets through. */
module GatewayHeaders {
  import opened Text
  import opened Wrappers
  import HostPort

  datatype Header = Header(name: string, value: string)

  function LowerChar(c: char): char {
    if 'A' <= c <= 'Z' then c + 32 as char else c
  }

  function Lower(s: string): string {
    seq(|s|, i requires 0 <= i < |s| => LowerChar(s[i]))
  }

  // ----- Header lists -----

  /** The lines whose lower-case name satisfies `keep`. */
  function Where(lines: seq<Header>, keep: string -> bool): seq<Header> {
    if lines == [] then []
    else var last := lines[|lines| - 1];
         Where(lines[..|lines| - 1], keep) + if keep(Lower(last.name)) then [last] else []
  }

  /** The values of the header called `name`, in order. */
  function Values(lines: seq<Header>, name: string): seq<string> {
    if lines == [] then []
    else var last := lines[|lines| - 1];
         Values(lines[..|lines| - 1], name) + if Lower(last.name) == name then [last.value] else []
  }

  /** Assigning a header as an `httpx.Headers` object does: the first line of that name is replaced,
      later ones are dropped, and a new name goes to the end. */
  function SetItem(lines: seq<Header>, header: Header): seq<Header> {
    if lines == [] then [header]
    else if Lower(lines[0].name) == Lower(header.name) then
      [header] + Where(lines[1..], n => n != Lower(header.name))
    else [lines[0]] + SetItem(lines[1..], header)
  }

  function SetAll(lines: seq<Header>, headers: seq<Header>): seq<Header> {
    if headers == [] then lines
    else SetItem(SetAll(lines, headers[..|headers| - 1]), headers[|headers| - 1])
  }

  lemma {:induction false} ValuesAppend(a: seq<Header>, b: seq<Header>, name: string)
    ensures Values(a + b, name) == Values(a, name) + Values(b, name)
  {
    if b == [] {
      assert a + b == a;
    } else {
      assert (a + b)[..|a + b| - 1] == a + b[..|b| - 1];
      ValuesAppend(a, b[..|b| - 1], name);
    }
  }

  lemma {:induction false} WhereAppend(a: seq<Header>, b: seq<Header>, keep: string -> bool)
    ensures Where(a + b, keep) == Where(a, keep) + Where(b, keep)
  {
    if b == [] {
      assert a + b == a;
    } else {
      assert (a + b)[..|a + b| - 1] == a + b[..|b| - 1];
      WhereAppend(a, b[..|b| - 1], keep);
    }
  }

  lemma {:induction false} ValuesWhere(lines: seq<Header>, keep: string -> bool, name: string)
    ensures Values(Where(lines, keep), name) == if keep(name) then Values(lines, name) else []
  {
    if lines == [] {
    } else {
      var front, last := lines[..|lines| - 1], lines[|lines| - 1];
      ValuesWhere(front, keep, name);
      ValuesAppend(Where(front, keep), [last], name);
      assert Where(lines, keep) == if keep(Lower(last.name)) then Where(front, keep) + [last] else Where(front, keep);
      assert [last][..0] == [];
    }
  }

  lemma {:induction false} WhereWhere(lines: seq<Header>, outer: string -> bool, inner: string -> bool)
    requires forall n :: inner(n) ==> outer(n)
    ensures Where(Where(lines, outer), inner) == Where(lines, inner)
  {
    if lines == [] {
    } else {
      var front, last := lines[..|lines| - 1], lines[|lines| - 1];
      WhereWhere(front, outer, inner);
      WhereAppend(Where(front, outer), [last], inner);
      assert Where(lines, outer)
          == if outer(Lower(last.name)) then Where(front, outer) + [last] else Where(front, outer);
      assert [last][..0] == [];
    }
  }

  lemma FirstThenRest(lines: seq<Header>, name: string)
    requires lines != []
    ensures Values(lines, name)
         == (if Lower(lines[0].name) == name then [lines[0].value] else []) + Values(lines[1..], name)
  {
    assert lines == [lines[0]] + lines[1..];
    ValuesAppend([lines[0]], lines[1..], name);
    ValuesOfOne(lines[0], name);
  }

  lemma ValuesOfOne(header: Header, name: string)
    ensures Values([header], name) == if Lower(header.name) == name then [header.value] else []
  {
    assert [header][..0] == [];
  }

  lemma ReplacedHasOneValue(rest: seq<Header>, header: Header, name: string)
    ensures Values([header] + Where(rest, n => n != Lower(header.name)), name)
         == if name == Lower(header.name) then [header.value] else Values(rest, name)
  {
    var others := n => n != Lower(header.name);
    ValuesAppend([header], Where(rest, others), name);
    ValuesOfOne(header, name);
    ValuesWhere(rest, others, name);
  }

  /** An assigned header has that one value, and no other name is affected. */
  lemma {:induction false} SetItemGivesOneValue(lines: seq<Header>, header: Header, name: string)
    ensures Values(SetItem(lines, header), name)
         == if name == Lower(header.name) then [header.value] else Values(lines, name)
  {
    if lines == [] {
      ValuesOfOne(header, name);
    } else {
      FirstThenRest(lines, name);
      if Lower(lines[0].name) == Lower(header.name) {
        ReplacedHasOneValue(lines[1..], header, name);
      } else {
        ValuesAppend([lines[0]], SetItem(lines[1..], header), name);
        ValuesOfOne(lines[0], name);
        SetItemGivesOneValue(lines[1..], header, name);
      }
    }
  }

  /** The lines of other names keep their values, their spelling and their order. */
  lemma {:induction false} SetItemLeavesOthers(lines: seq<Header>, header: Header, keep: string -> bool)
    requires !keep(Lower(header.name))
    ensures Where(SetItem(lines, header), keep) == Where(lines, keep)
  {
    if lines == [] {
    } else {
      assert lines == [lines[0]] + lines[1..];
      WhereAppend([lines[0]], lines[1..], keep);
      if Lower(lines[0].name) == Lower(header.name) {
        var others := n => n != Lower(header.name);
        WhereAppend([header], Where(lines[1..], others), keep);
        WhereWhere(lines[1..], others, keep);
      } else {
        WhereAppend([lines[0]], SetItem(lines[1..], header), keep);
        SetItemLeavesOthers(lines[1..], header, keep);
      }
    }
  }

  /** After a run of assignments a name has the last value assigned to it, or its old ones. */
  lemma {:induction false} LastAssignmentWins(lines: seq<Header>, headers: seq<Header>, name: string)
    ensures Values(SetAll(lines, headers), name)
         == if Values(headers, name) == [] then Values(lines, name)
            else [Values(headers, name)[|Values(headers, name)| - 1]]
  {
    if headers == [] {
    } else {
      var front := headers[..|headers| - 1];
      LastAssignmentWins(lines, front, name);
      SetItemGivesOneValue(SetAll(lines, front), headers[|headers| - 1], name);
    }
  }

  lemma {:induction false} AssignmentsLeaveOthers(lines: seq<Header>, headers: seq<Header>, keep: string -> bool)
    requires Where(headers, keep) == []
    ensures Where(SetAll(lines, headers), keep) == Where(lines, keep)
  {
    if headers == [] {
    } else {
      var front := headers[..|headers| - 1];
      AssignmentsLeaveOthers(lines, front, keep);
      SetItemLeavesOthers(SetAll(lines, front), headers[|headers| - 1], keep);
    }
  }

  lemma {:induction false} SetAllAppend(lines: seq<Header>, a: seq<Header>, b: seq<Header>)
    ensures SetAll(lines, a + b) == SetAll(SetAll(lines, a), b)
  {
    if b == [] {
      assert a + b == a;
    } else {
      assert (a + b)[..|a + b| - 1] == a + b[..|b| - 1];
      SetAllAppend(lines, a, b[..|b| - 1]);
    }
  }

  // ----- Which names -----

  const HOP_BY_HOP := {"connection", "keep-alive", "proxy-authenticate", "proxy-authorization",
                       "te", "trailers", "transfer-encoding", "upgrade"}

  const FORWARDED := {"x-forwarded-for", "x-forwarded-host", "x-forwarded-proto",
                      "x-forwarded-port", "x-forwarded-prefix"}

  /** Names that no allowlist lets through. */
  const BLOCKLIST := FORWARDED + {"authorization", "cookie", "set-cookie", "proxy-authorization",
                                  "host", "connection", "content-length", "transfer-encoding",
                                  "te", "upgrade", "keep-alive", "proxy-connection"}

  const REQUEST_ID := "x-request-id"

  predicate IsStripped(name: string) { name in HOP_BY_HOP || name in FORWARDED || name == "host" }

  /** Does a client header of this name get merged? */
  predicate Merges(allowlist: set<string>, name: string) { name in allowlist && name !in BLOCKLIST }

  /** Names whose client lines go upstream as they came. */
  predicate PassesThrough(allowlist: set<string>, name: string) {
    !IsStripped(name) && name != REQUEST_ID && !Merges(allowlist, name)
  }

  /** They are those that no step of the hop is about. */
  lemma PassesThroughMeans(allowlist: set<string>, name: string)
    requires name !in HOP_BY_HOP && name !in BLOCKLIST && name !in allowlist
    ensures PassesThrough(allowlist, name) <==> name != "x-request-id"
  {
  }

  predicate IsNameStart(c: char) { 'a' <= c <= 'z' || '0' <= c <= '9' }

  predicate IsHeaderName(name: string) {
    0 < |name| <= 64 && IsNameStart(name[0]) && forall c | c in name :: IsNameStart(c) || c == '-'
  }

  /** Names of up to 64 letters, digits and hyphens are valid, unless they start with a hyphen. */
  lemma HeaderNameShapes(first: char, rest: string)
    ensures ('a' <= first <= 'z' || '0' <= first <= '9') && |rest| <= 63
            && (forall c | c in rest :: 'a' <= c <= 'z' || '0' <= c <= '9' || c == '-')
            <==> IsHeaderName([first] + rest)
    ensures !IsHeaderName("")
  {
    var name := [first] + rest;
    assert name[0] == first && name[1..] == rest;
    assert forall c :: c in name <==> c == first || c in rest;
  }

  // ----- The gateway's own headers -----

  /** What the gateway knows of the connection. */
  datatype Hop = Hop(scheme: string, prefix: Option<string>, client: Option<string>, upstreamHost: string,
                     requestId: string)

  function Say(name: string, value: Option<string>): seq<Header> {
    if value.Some? then [Header(name, value.value)] else []
  }

  function NonEmpty(value: Option<string>): Option<string> {
    if value == Some("") then None else value
  }

  /** The port that the public host names, written without leading zeros. */
  function PortText(publicHost: string): Option<string> {
    var port := HostPort.PortFromHostHeader(publicHost);
    if port.Port? then Some(HostPort.Decimal(port.number)) else None
  }

  /** The port sent upstream is a numeral for the port that the public host names, and there is one
      exactly when the host names one. */
  lemma PortTextNamesThePort(publicHost: string)
    ensures PortText(publicHost).Some? <==> HostPort.PortFromHostHeader(publicHost).Port?
    ensures PortText(publicHost).Some? ==>
              && HostPort.IsDigits(PortText(publicHost).value)
              && HostPort.ToNat(PortText(publicHost).value) == HostPort.PortFromHostHeader(publicHost).number
  {
    var port := HostPort.PortFromHostHeader(publicHost);
    if port.Port? { HostPort.DecimalRoundTrip(port.number); }
  }

  /** `forwarded_upstream_header_pairs` */
  function ForwardedPairs(hop: Hop, publicHost: string): seq<Header> {
    Say("X-Forwarded-Host", Some(publicHost))
    + Say("X-Forwarded-Proto", Some(NonEmpty(Some(hop.scheme)).GetOr("http")))
    + Say("X-Forwarded-Port", PortText(publicHost))
    + Say("X-Forwarded-Prefix", NonEmpty(hop.prefix))
    + Say("X-Forwarded-For", NonEmpty(hop.client))
  }

  function AsSeq(value: Option<string>): seq<string> {
    if value.Some? then [value.value] else []
  }

  /** What the gateway itself says under a forwarding name. */
  function OwnForwarded(hop: Hop, publicHost: string, name: string): (own: seq<string>)
    ensures |own| <= 1
  {
    if name == "x-forwarded-host" then [publicHost]
    else if name == "x-forwarded-proto" then [NonEmpty(Some(hop.scheme)).GetOr("http")]
    else if name == "x-forwarded-port" then AsSeq(PortText(publicHost))
    else if name == "x-forwarded-prefix" then AsSeq(NonEmpty(hop.prefix))
    else if name == "x-forwarded-for" then AsSeq(NonEmpty(hop.client))
    else []
  }

  lemma LowerRequired()
    ensures Lower("X-Forwarded-Host") == "x-forwarded-host"
    ensures Lower("X-Forwarded-Proto") == "x-forwarded-proto"
  {
  }

  lemma LowerOptional()
    ensures Lower("X-Forwarded-Port") == "x-forwarded-port"
    ensures Lower("X-Forwarded-Prefix") == "x-forwarded-prefix"
    ensures Lower("X-Forwarded-For") == "x-forwarded-for"
  {
  }

  lemma LowerOwn()
    ensures Lower("host") == "host" && Lower(REQUEST_ID) == REQUEST_ID
  {
  }

  lemma ValuesSaid(name: string, lower: string, value: Option<string>, wanted: string)
    requires Lower(name) == lower
    ensures Values(Say(name, value), wanted) == Under(lower, wanted, value)
  {
    if value.Some? { ValuesOfOne(Header(name, value.value), wanted); }
  }

  lemma ValuesOfFive(a: seq<Header>, b: seq<Header>, c: seq<Header>, d: seq<Header>, e: seq<Header>, name: string)
    ensures Values(a + b + c + d + e, name)
         == Values(a, name) + Values(b, name) + Values(c, name) + Values(d, name) + Values(e, name)
  {
    ValuesAppend(a + b + c + d, e, name);
    ValuesAppend(a + b + c, d, name);
    ValuesAppend(a + b, c, name);
    ValuesAppend(a, b, name);
  }

  lemma PortIsNotHost()
    ensures "x-forwarded-host" != "x-forwarded-port"
  {
    assert "x-forwarded-host"[12] != "x-forwarded-port"[12];
  }

  /** `value` if `name` is `wanted`. */
  function Under(name: string, wanted: string, value: Option<string>): seq<string> {
    if wanted == name then AsSeq(value) else []
  }

  lemma ForwardedPairsSum(hop: Hop, publicHost: string, name: string)
    ensures Values(ForwardedPairs(hop, publicHost), name)
         == Under("x-forwarded-host", name, Some(publicHost))
            + Under("x-forwarded-proto", name, Some(NonEmpty(Some(hop.scheme)).GetOr("http")))
            + Under("x-forwarded-port", name, PortText(publicHost))
            + Under("x-forwarded-prefix", name, NonEmpty(hop.prefix))
            + Under("x-forwarded-for", name, NonEmpty(hop.client))
  {
    LowerRequired();
    LowerOptional();
    var scheme := NonEmpty(Some(hop.scheme)).GetOr("http");
    ValuesOfFive(Say("X-Forwarded-Host", Some(publicHost)), Say("X-Forwarded-Proto", Some(scheme)),
                 Say("X-Forwarded-Port", PortText(publicHost)), Say("X-Forwarded-Prefix", NonEmpty(hop.prefix)),
                 Say("X-Forwarded-For", NonEmpty(hop.client)), name);
    ValuesSaid("X-Forwarded-Host", "x-forwarded-host", Some(publicHost), name);
    ValuesSaid("X-Forwarded-Proto", "x-forwarded-proto", Some(scheme), name);
    ValuesSaid("X-Forwarded-Port", "x-forwarded-port", PortText(publicHost), name);
    ValuesSaid("X-Forwarded-Prefix", "x-forwarded-prefix", NonEmpty(hop.prefix), name);
    ValuesSaid("X-Forwarded-For", "x-forwarded-for", NonEmpty(hop.client), name);
  }

  /** The gateway's pairs say one thing under each name. */
  lemma ForwardedPairsSayOwn(hop: Hop, publicHost: string, name: string)
    ensures Values(ForwardedPairs(hop, publicHost), name) == OwnForwarded(hop, publicHost, name)
  {
    PortIsNotHost();
    ForwardedPairsSum(hop, publicHost, name);
  }

  // ----- The steps -----

  predicate Survives(name: string) { !IsStripped(name) }

  predicate IsNotRequestId(name: string) { name != REQUEST_ID }

  function MergesIn(allowlist: set<string>): string -> bool { n => Merges(allowlist, n) }

  function PassesIn(allowlist: set<string>): string -> bool { n => PassesThrough(allowlist, n) }

  method FilterRequestHeaders(raw: seq<Header>) returns (out: seq<Header>)
    ensures out == Where(raw, Survives)
  {
    out := [];
    for i := 0 to |raw|
      invariant out == Where(raw[..i], Survives)
    {
      assert raw[..i + 1][..i] == raw[..i];
      var name := Lower(raw[i].name);
      if name in HOP_BY_HOP || name in FORWARDED { continue; }
      if name == "host" { continue; }
      out := out + [raw[i]];
    }
    assert raw[..|raw|] == raw;
  }

  /** The first `Host` the browser sent decides, even when another one follows it. */
  function PublicHost(raw: seq<Header>, upstreamHost: string): string {
    var hosts := Values(raw, "host");
    if hosts == [] || Strip(hosts[0], IsSpace) == "" then upstreamHost else Strip(hosts[0], IsSpace)
  }

  /** So: the line before which there is no other. */
  lemma PublicHostMeans(before: seq<Header>, line: Header, after: seq<Header>, upstreamHost: string)
    requires Lower(line.name) == "host" && forall h | h in before :: Lower(h.name) != "host"
    ensures var host := Strip(line.value, IsSpace);
            PublicHost(before + [line] + after, upstreamHost) == if host == "" then upstreamHost else host
  {
    ValuesAppend(before + [line], after, "host");
    ValuesAppend(before, [line], "host");
    ValuesOfOne(line, "host");
    NoValues(before, "host");
  }

  lemma NoPublicHost(raw: seq<Header>, upstreamHost: string)
    requires forall h | h in raw :: Lower(h.name) != "host"
    ensures PublicHost(raw, upstreamHost) == upstreamHost
  {
    NoValues(raw, "host");
  }

  lemma {:induction false} NoValues(lines: seq<Header>, name: string)
    requires forall h | h in lines :: Lower(h.name) != name
    ensures Values(lines, name) == []
  {
    if lines == [] {
    } else {
      NoValues(lines[..|lines| - 1], name);
    }
  }

  method PublicHostFromScope(raw: seq<Header>, upstreamHost: string) returns (host: string)
    ensures host == PublicHost(raw, upstreamHost)
  {
    for i := 0 to |raw|
      invariant Values(raw[..i], "host") == []
    {
      assert raw[..i + 1][..i] == raw[..i];
      if Lower(raw[i].name) == "host" {
        ValuesAppend(raw[..i + 1], raw[i + 1..], "host");
        assert raw == raw[..i + 1] + raw[i + 1..];
        var value := Strip(raw[i].value, IsSpace);
        return if value != "" then value else upstreamHost;
      }
    }
    assert raw[..|raw|] == raw;
    host := upstreamHost;
  }

  /** Only valid names outside the block list are ever let through. */
  method NormalizeAllowlist(names: seq<string>) returns (allowlist: set<string>)
    ensures forall n :: n in allowlist <==> IsHeaderName(n) && n !in BLOCKLIST
                                            && exists raw :: raw in names && n == Lower(Strip(raw, IsSpace))
  {
    allowlist := {};
    for i := 0 to |names|
      invariant forall n :: n in allowlist <==> IsHeaderName(n) && n !in BLOCKLIST
                                                && exists raw :: raw in names[..i] && n == Lower(Strip(raw, IsSpace))
    {
      var n := Lower(Strip(names[i], IsSpace));
      assert names[..i + 1] == names[..i] + [names[i]];
      if n == "" || n in BLOCKLIST { continue; }
      if !IsHeaderName(n) { continue; }
      allowlist := allowlist + {n};
    }
    assert names[..|names|] == names;
  }

  class Headers {
    var lines: seq<Header>

    constructor (pairs: seq<Header>)
      ensures lines == pairs
    {
      lines := pairs;
    }

    method Assign(header: Header)
      modifies this
      ensures lines == SetItem(old(lines), header)
    {
      lines := SetItem(lines, header);
    }
  }

  lemma {:induction false} NothingMerges(raw: seq<Header>)
    ensures Where(raw, MergesIn({})) == []
  {
    if raw == [] {
    } else {
      NothingMerges(raw[..|raw| - 1]);
    }
  }

  lemma OneMoreMerged(lines: seq<Header>, raw: seq<Header>, i: nat, allowlist: set<string>)
    requires i < |raw| && Merges(allowlist, Lower(raw[i].name))
    ensures SetAll(lines, Where(raw[..i + 1], MergesIn(allowlist)))
         == SetItem(SetAll(lines, Where(raw[..i], MergesIn(allowlist))), raw[i])
  {
    var merged := Where(raw[..i], MergesIn(allowlist));
    assert raw[..i + 1][..i] == raw[..i];
    assert Where(raw[..i + 1], MergesIn(allowlist)) == merged + [raw[i]];
    assert (merged + [raw[i]])[..|merged|] == merged;
  }

  lemma NotMerged(raw: seq<Header>, i: nat, allowlist: set<string>)
    requires i < |raw| && !Merges(allowlist, Lower(raw[i].name))
    ensures Where(raw[..i + 1], MergesIn(allowlist)) == Where(raw[..i], MergesIn(allowlist))
  {
    assert raw[..i + 1][..i] == raw[..i];
  }

  method MergeAllowlistedBrowserHeaders(headers: Headers, raw: seq<Header>, allowlist: set<string>)
    modifies headers
    ensures headers.lines == SetAll(old(headers.lines), Where(raw, MergesIn(allowlist)))
  {
    if allowlist == {} {
      NothingMerges(raw);
      return;
    }
    for i := 0 to |raw|
      invariant headers.lines == SetAll(old(headers.lines), Where(raw[..i], MergesIn(allowlist)))
    {
      var name := Lower(raw[i].name);
      if !Merges(allowlist, name) { NotMerged(raw, i, allowlist); }
      if name !in allowlist { continue; }
      if name in BLOCKLIST { continue; }
      OneMoreMerged(old(headers.lines), raw, i, allowlist);
      headers.Assign(raw[i]);
    }
    assert raw[..|raw|] == raw;
  }

  // ----- The assembled headers -----

  function LastOf(values: seq<string>): seq<string> {
    if values == [] then [] else [values[|values| - 1]]
  }

  /** What the hop must carry under each name. */
  function Expected(raw: seq<Header>, allowlist: set<string>, hop: Hop, name: string): seq<string> {
    if name == REQUEST_ID then [hop.requestId]
    else if name == "host" then [PublicHost(raw, hop.upstreamHost)]
    else if name in FORWARDED then OwnForwarded(hop, PublicHost(raw, hop.upstreamHost), name)
    else if Merges(allowlist, name) then LastOf(Values(raw, name))
    else if name in HOP_BY_HOP then []
    else Values(raw, name)
  }

  /** Connection headers never go upstream, whatever the allowlist says; two of the hop-by-hop names do when
      it lets them in. */
  lemma HopByHopLines(raw: seq<Header>, allowlist: set<string>, hop: Hop, name: string)
    ensures name in {"connection", "keep-alive", "proxy-authorization", "te", "transfer-encoding", "upgrade"} ==>
              Expected(raw, allowlist, hop, name) == []
    ensures name in {"proxy-authenticate", "trailers"} ==>
              Expected(raw, allowlist, hop, name) == if name in allowlist then LastOf(Values(raw, name)) else []
  {
    if name in HOP_BY_HOP { FarNames(name); }
  }

  lemma FarNames(name: string)
    requires name in HOP_BY_HOP
    ensures name != REQUEST_ID && name != "host" && name !in FORWARDED
    ensures name in BLOCKLIST <==> name !in {"proxy-authenticate", "trailers"}
  {
    assert REQUEST_ID[0] == 'x' && "host"[0] == 'h';
    assert forall f | f in FORWARDED :: f[0] == 'x';
  }

  /** Credentials and lengths go upstream as the client sent them: the block list only keeps the allowlist
      from touching them. */
  lemma BlockedLines(raw: seq<Header>, allowlist: set<string>, hop: Hop, name: string)
    requires name in {"authorization", "cookie", "set-cookie", "content-length", "proxy-connection"}
    ensures Expected(raw, allowlist, hop, name) == Values(raw, name)
  {
    BlockedNames(name);
    BlockedStay(name);
  }

  lemma BlockedNames(name: string)
    requires name in {"authorization", "cookie", "set-cookie", "content-length", "proxy-connection"}
    ensures name in BLOCKLIST && name != REQUEST_ID && name != "host" && name !in FORWARDED
  {
    assert REQUEST_ID[0] == 'x' && "host"[0] == 'h' && name[0] != 'x' && name[0] != 'h';
    assert forall f | f in FORWARDED :: f[0] == 'x';
  }

  lemma BlockedStay(name: string)
    requires name in {"authorization", "cookie", "set-cookie", "content-length", "proxy-connection"}
    ensures name !in HOP_BY_HOP
  {
    assert |name| == 10 ==> name[0] == 's';
    assert |name| in {6, 10, 13, 14, 16};
    assert forall h | h in HOP_BY_HOP :: |h| !in {6, 13, 14, 16} && (|h| == 10 ==> h[0] != 's');
  }

  /** The gateway's own forwarding values: a blank scheme is `http`, and an empty prefix or client is not
      told at all. */
  lemma OwnLines(raw: seq<Header>, allowlist: set<string>, hop: Hop)
    ensures var host := PublicHost(raw, hop.upstreamHost);
            && Expected(raw, allowlist, hop, "x-forwarded-host") == [host] == Expected(raw, allowlist, hop, "host")
            && Expected(raw, allowlist, hop, "x-forwarded-proto") == [if hop.scheme == "" then "http" else hop.scheme]
    ensures Expected(raw, allowlist, hop, "x-forwarded-prefix")
         == if hop.prefix.Some? && hop.prefix.value != "" then [hop.prefix.value] else []
    ensures Expected(raw, allowlist, hop, "x-forwarded-for")
         == if hop.client.Some? && hop.client.value != "" then [hop.client.value] else []
    ensures Expected(raw, allowlist, hop, "x-request-id") == [hop.requestId]
  {
    IdIsNotSpecial();
  }

  /** Everything assigned over the filtered client headers, in order. */
  function Assignments(raw: seq<Header>, allowlist: set<string>, hop: Hop): seq<Header> {
    var publicHost := PublicHost(raw, hop.upstreamHost);
    [Header("host", publicHost)] + ForwardedPairs(hop, publicHost)
    + Where(raw, MergesIn(allowlist)) + [Header(REQUEST_ID, hop.requestId)]
  }

  function Kept(raw: seq<Header>): seq<Header> {
    Where(Where(raw, Survives), IsNotRequestId)
  }

  /** The lines of the hop. */
  function Assembled(raw: seq<Header>, allowlist: set<string>, hop: Hop): seq<Header> {
    SetAll(Kept(raw), Assignments(raw, allowlist, hop))
  }

  lemma AssignedValues(raw: seq<Header>, allowlist: set<string>, hop: Hop, name: string)
    ensures Values(Assignments(raw, allowlist, hop), name)
         == (if name == "host" then [PublicHost(raw, hop.upstreamHost)] else [])
            + OwnForwarded(hop, PublicHost(raw, hop.upstreamHost), name)
            + (if Merges(allowlist, name) then Values(raw, name) else [])
            + (if name == REQUEST_ID then [hop.requestId] else [])
  {
    var publicHost := PublicHost(raw, hop.upstreamHost);
    var host, pairs := [Header("host", publicHost)], ForwardedPairs(hop, publicHost);
    var merged, id := Where(raw, MergesIn(allowlist)), [Header(REQUEST_ID, hop.requestId)];
    ValuesAppend(host + pairs + merged, id, name);
    ValuesAppend(host + pairs, merged, name);
    ValuesAppend(host, pairs, name);
    LowerOwn();
    ValuesOfOne(host[0], name);
    ValuesOfOne(id[0], name);
    ForwardedPairsSayOwn(hop, publicHost, name);
    ValuesWhere(raw, MergesIn(allowlist), name);
  }

  lemma IdIsNotSpecial()
    ensures REQUEST_ID != "host" && REQUEST_ID !in FORWARDED
  {
    assert |REQUEST_ID| == 12;
  }

  lemma HostIsNotForwarded()
    ensures "host" !in FORWARDED && "host" in BLOCKLIST
  {
    assert |"host"| == 4;
  }

  lemma OnlyForwardedNamesAreSaid(hop: Hop, publicHost: string, name: string)
    requires name !in FORWARDED
    ensures OwnForwarded(hop, publicHost, name) == []
  {
  }

  lemma KeptValues(raw: seq<Header>, name: string)
    ensures Values(Kept(raw), name) == if IsStripped(name) || name == REQUEST_ID then [] else Values(raw, name)
  {
    ValuesWhere(Where(raw, Survives), IsNotRequestId, name);
    ValuesWhere(raw, Survives, name);
  }

  lemma SettingsForId(raw: seq<Header>, allowlist: set<string>, hop: Hop)
    ensures var values := Values(Assignments(raw, allowlist, hop), REQUEST_ID);
            values != [] && values[|values| - 1] == hop.requestId
  {
    AssignedValues(raw, allowlist, hop, REQUEST_ID);
  }

  lemma SettingsForHost(raw: seq<Header>, allowlist: set<string>, hop: Hop)
    ensures Values(Assignments(raw, allowlist, hop), "host") == [PublicHost(raw, hop.upstreamHost)]
  {
    AssignedValues(raw, allowlist, hop, "host");
    IdIsNotSpecial();
    HostIsNotForwarded();
    OnlyForwardedNamesAreSaid(hop, PublicHost(raw, hop.upstreamHost), "host");
  }

  lemma SettingsForForwarded(raw: seq<Header>, allowlist: set<string>, hop: Hop, name: string)
    requires name in FORWARDED
    ensures Values(Assignments(raw, allowlist, hop), name) == OwnForwarded(hop, PublicHost(raw, hop.upstreamHost), name)
  {
    AssignedValues(raw, allowlist, hop, name);
    IdIsNotSpecial();
    HostIsNotForwarded();
    assert name in BLOCKLIST;
  }

  lemma SettingsForOthers(raw: seq<Header>, allowlist: set<string>, hop: Hop, name: string)
    requires name != REQUEST_ID && name != "host" && name !in FORWARDED
    ensures Values(Assignments(raw, allowlist, hop), name) == if Merges(allowlist, name) then Values(raw, name) else []
  {
    AssignedValues(raw, allowlist, hop, name);
    OnlyForwardedNamesAreSaid(hop, PublicHost(raw, hop.upstreamHost), name);
  }

  lemma LastIs(lines: seq<Header>, headers: seq<Header>, name: string, value: string)
    requires Values(headers, name) != [] && Values(headers, name)[|Values(headers, name)| - 1] == value
    ensures Values(SetAll(lines, headers), name) == [value]
  {
    LastAssignmentWins(lines, headers, name);
  }

  lemma AssembledId(raw: seq<Header>, allowlist: set<string>, hop: Hop)
    ensures Values(Assembled(raw, allowlist, hop), REQUEST_ID) == [hop.requestId]
  {
    SettingsForId(raw, allowlist, hop);
    LastIs(Kept(raw), Assignments(raw, allowlist, hop), REQUEST_ID, hop.requestId);
  }

  lemma OneOrNone(lines: seq<Header>, headers: seq<Header>, name: string, values: seq<string>)
    requires Values(headers, name) == values && |values| <= 1
    requires values == [] ==> Values(lines, name) == []
    ensures Values(SetAll(lines, headers), name) == values
  {
    LastAssignmentWins(lines, headers, name);
  }

  lemma AssembledForwarded(raw: seq<Header>, allowlist: set<string>, hop: Hop, name: string)
    requires name in FORWARDED
    ensures Values(Assembled(raw, allowlist, hop), name)
         == OwnForwarded(hop, PublicHost(raw, hop.upstreamHost), name)
  {
    SettingsForForwarded(raw, allowlist, hop, name);
    KeptValues(raw, name);
    var own := OwnForwarded(hop, PublicHost(raw, hop.upstreamHost), name);
    OneOrNone(Kept(raw), Assignments(raw, allowlist, hop), name, own);
  }

  lemma LastOrKept(lines: seq<Header>, headers: seq<Header>, name: string, values: seq<string>, kept: seq<string>)
    requires Values(headers, name) == values && Values(lines, name) == kept
    ensures Values(SetAll(lines, headers), name) == if values == [] then kept else LastOf(values)
  {
    LastAssignmentWins(lines, headers, name);
  }

  lemma KeptOther(raw: seq<Header>, name: string)
    requires name != REQUEST_ID && name != "host" && name !in FORWARDED
    ensures Values(Kept(raw), name) == if name in HOP_BY_HOP then [] else Values(raw, name)
  {
    KeptValues(raw, name);
  }

  lemma AssembledOther(raw: seq<Header>, allowlist: set<string>, hop: Hop, name: string)
    requires name != REQUEST_ID && name != "host" && name !in FORWARDED
    ensures Values(Assembled(raw, allowlist, hop), name)
         == if Merges(allowlist, name) then LastOf(Values(raw, name))
            else if name in HOP_BY_HOP then [] else Values(raw, name)
  {
    var values := if Merges(allowlist, name) then Values(raw, name) else [];
    var kept := if name in HOP_BY_HOP then [] else Values(raw, name);
    KeptOther(raw, name);
    SettingsForOthers(raw, allowlist, hop, name);
    LastOrKept(Kept(raw), Assignments(raw, allowlist, hop), name, values, kept);
  }

  lemma AssembledValues(raw: seq<Header>, allowlist: set<string>, hop: Hop, name: string)
    ensures Values(Assembled(raw, allowlist, hop), name) == Expected(raw, allowlist, hop, name)
  {
    if name == REQUEST_ID {
      AssembledId(raw, allowlist, hop);
    } else if name == "host" {
      SettingsForHost(raw, allowlist, hop);
      OneOrNone(Kept(raw), Assignments(raw, allowlist, hop), name, [PublicHost(raw, hop.upstreamHost)]);
    } else if name in FORWARDED {
      AssembledForwarded(raw, allowlist, hop, name);
    } else {
      AssembledOther(raw, allowlist, hop, name);
    }
  }

  lemma ForwardedPairsDoNotPass(hop: Hop, publicHost: string, keep: string -> bool)
    requires forall n :: keep(n) ==> n !in FORWARDED
    ensures Where(ForwardedPairs(hop, publicHost), keep) == []
  {
    LowerRequired();
    LowerOptional();
    var scheme := NonEmpty(Some(hop.scheme)).GetOr("http");
    var a, b := Say("X-Forwarded-Host", Some(publicHost)), Say("X-Forwarded-Proto", Some(scheme));
    var c, d := Say("X-Forwarded-Port", PortText(publicHost)), Say("X-Forwarded-Prefix", NonEmpty(hop.prefix));
    var e := Say("X-Forwarded-For", NonEmpty(hop.client));
    WhereAppend(a + b + c + d, e, keep);
    WhereAppend(a + b + c, d, keep);
    WhereAppend(a + b, c, keep);
    WhereAppend(a, b, keep);
  }

  lemma {:induction false} WhereNever(lines: seq<Header>, one: string -> bool, other: string -> bool)
    requires forall n :: one(n) ==> !other(n)
    ensures Where(Where(lines, one), other) == []
  {
    if lines == [] {
    } else {
      var front, last := lines[..|lines| - 1], lines[|lines| - 1];
      WhereNever(front, one, other);
      WhereAppend(Where(front, one), [last], other);
      assert Where(lines, one) == if one(Lower(last.name)) then Where(front, one) + [last] else Where(front, one);
      assert [last][..0] == [];
    }
  }

  lemma AssignmentsDoNotPass(raw: seq<Header>, allowlist: set<string>, hop: Hop)
    ensures Where(Assignments(raw, allowlist, hop), PassesIn(allowlist)) == []
  {
    var publicHost := PublicHost(raw, hop.upstreamHost);
    var host, pairs := [Header("host", publicHost)], ForwardedPairs(hop, publicHost);
    var merged, id := Where(raw, MergesIn(allowlist)), [Header(REQUEST_ID, hop.requestId)];
    WhereAppend(host + pairs + merged, id, PassesIn(allowlist));
    WhereAppend(host + pairs, merged, PassesIn(allowlist));
    WhereAppend(host, pairs, PassesIn(allowlist));
    LowerOwn();
    ForwardedPairsDoNotPass(hop, publicHost, PassesIn(allowlist));
    WhereNever(raw, MergesIn(allowlist), PassesIn(allowlist));
  }

  lemma AssembledPasses(raw: seq<Header>, allowlist: set<string>, hop: Hop)
    ensures Where(Assembled(raw, allowlist, hop), PassesIn(allowlist)) == Where(raw, PassesIn(allowlist))
  {
    AssignmentsDoNotPass(raw, allowlist, hop);
    AssignmentsLeaveOthers(Kept(raw), Assignments(raw, allowlist, hop), PassesIn(allowlist));
    WhereWhere(Where(raw, Survives), IsNotRequestId, PassesIn(allowlist));
    WhereWhere(raw, Survives, PassesIn(allowlist));
  }

  method DropRequestId(lines: seq<Header>) returns (pairs: seq<Header>)
    ensures pairs == Where(lines, IsNotRequestId)
  {
    pairs := [];
    for i := 0 to |lines|
      invariant pairs == Where(lines[..i], IsNotRequestId)
    {
      assert lines[..i + 1][..i] == lines[..i];
      if Lower(lines[i].name) == REQUEST_ID { continue; }
      pairs := pairs + [lines[i]];
    }
    assert lines[..|lines|] == lines;
  }

  method AssignAll(headers: Headers, pairs: seq<Header>)
    modifies headers
    ensures headers.lines == SetAll(old(headers.lines), pairs)
  {
    for i := 0 to |pairs|
      invariant headers.lines == SetAll(old(headers.lines), pairs[..i])
    {
      assert pairs[..i + 1][..i] == pairs[..i];
      headers.Assign(pairs[i]);
    }
    assert pairs[..|pairs|] == pairs;
  }

  /** `forwarded_upstream_header_pairs`, which raises exactly when reading the host's port does. */
  method ForwardedUpstreamHeaderPairs(hop: Hop, publicHost: string) returns (pairs: Option<seq<Header>>)
    ensures pairs.None? <==> HostPort.PortFromHostHeader(publicHost).Raises?
    ensures pairs.Some? ==> pairs.value == ForwardedPairs(hop, publicHost)
  {
    pairs := if HostPort.PortFromHostHeader(publicHost).Raises? then None else Some(ForwardedPairs(hop, publicHost));
  }

  /** The header part of `proxy_http_inner`.  It fails exactly when reading the port of the public host
      raises.  Otherwise the hop carries under each name what `Expected` says, and all other client lines
      arrive with their spelling, values and order. */
  method AssembleHeaders(raw: seq<Header>, allowlist: set<string>, hop: Hop) returns (lines: Option<seq<Header>>)
    ensures lines.None? <==> HostPort.PortFromHostHeader(PublicHost(raw, hop.upstreamHost)).Raises?
    ensures lines.Some? ==> forall n :: Values(lines.value, n) == Expected(raw, allowlist, hop, n)
    ensures lines.Some? ==> Where(lines.value, PassesIn(allowlist)) == Where(raw, PassesIn(allowlist))
    ensures lines.Some? ==> lines.value == Assembled(raw, allowlist, hop)
  {
    var filtered := FilterRequestHeaders(raw);
    var pairs := DropRequestId(filtered);
    var headers := new Headers(pairs);
    var publicHost := PublicHostFromScope(raw, hop.upstreamHost);
    headers.Assign(Header("host", publicHost));
    var own := ForwardedUpstreamHeaderPairs(hop, publicHost);
    if own.None? {
      return None;
    }
    AssignAll(headers, own.value);
    MergeAllowlistedBrowserHeaders(headers, raw, allowlist);
    headers.Assign(Header(REQUEST_ID, hop.requestId));
    SettingsInOrder(raw, allowlist, hop);
    forall n ensures Values(headers.lines, n) == Expected(raw, allowlist, hop, n) {
      AssembledValues(raw, allowlist, hop, n);
    }
    AssembledPasses(raw, allowlist, hop);
    lines := Some(headers.lines);
  }

  lemma SetAllOfOne(lines: seq<Header>, header: Header)
    ensures SetAll(lines, [header]) == SetItem(lines, header)
  {
    assert [header][..0] == [];
  }

  lemma SettingsInOrder(raw: seq<Header>, allowlist: set<string>, hop: Hop)
    ensures var publicHost := PublicHost(raw, hop.upstreamHost);
            SetAll(Kept(raw), Assignments(raw, allowlist, hop))
            == SetItem(SetAll(SetAll(SetItem(Kept(raw), Header("host", publicHost)), ForwardedPairs(hop, publicHost)),
                              Where(raw, MergesIn(allowlist))),
                       Header(REQUEST_ID, hop.requestId))
  {
    var publicHost := PublicHost(raw, hop.upstreamHost);
    var host, pairs := [Header("host", publicHost)], ForwardedPairs(hop, publicHost);
    var merged, id := Where(raw, MergesIn(allowlist)), [Header(REQUEST_ID, hop.requestId)];
    SetAllAppend(Kept(raw), host + pairs + merged, id);
    SetAllAppend(Kept(raw), host + pairs, merged);
    SetAllAppend(Kept(raw), host, pairs);
    SetAllOfOne(Kept(raw), host[0]);
    SetAllOfOne(SetAll(Kept(raw), host + pairs + merged), id[0]);
  }

  /** What an allowlist does to the lines of the hop, exactly: it lets a stripped hop-by-hop name back
      in, and it reduces a repeated header to its last value.  Every other name goes upstream as it
      would without one. */
  lemma AllowlistChangesNameIff(raw: seq<Header>, allowlist: set<string>, hop: Hop, name: string)
    ensures Values(Assembled(raw, allowlist, hop), name) != Values(Assembled(raw, {}, hop), name)
            <==> name != REQUEST_ID && Merges(allowlist, name) && Values(raw, name) != []
                 && (name in {"proxy-authenticate", "trailers"} || |Values(raw, name)| > 1)
  {
    AssembledValues(raw, allowlist, hop, name);
    AssembledValues(raw, {}, hop, name);
    ExpectedChangesIff(raw, allowlist, hop, name);
  }

  lemma ExpectedChangesIff(raw: seq<Header>, allowlist: set<string>, hop: Hop, name: string)
    ensures Expected(raw, allowlist, hop, name) != Expected(raw, {}, hop, name)
            <==> name != REQUEST_ID && Merges(allowlist, name) && Values(raw, name) != []
                 && (name in {"proxy-authenticate", "trailers"} || |Values(raw, name)| > 1)
  {
    if name == REQUEST_ID || !Merges(allowlist, name) {
    } else if Values(raw, name) == [] {
      NeitherHostNorForwarded(name);
    } else {
      NeitherHostNorForwarded(name);
      HopByHopOutsideBlocklist(name);
      var values := Values(raw, name);
      if |values| == 1 { assert LastOf(values) == values; }
    }
  }

  lemma NeitherHostNorForwarded(name: string)
    requires name !in BLOCKLIST
    ensures name != "host" && name !in FORWARDED
  {
  }

  lemma HopByHopOutsideBlocklist(name: string)
    requires name !in BLOCKLIST
    ensures name in HOP_BY_HOP <==> name in {"proxy-authenticate", "trailers"}
  {
  }
}
