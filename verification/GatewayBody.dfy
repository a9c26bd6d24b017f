/** The request-body readers of the HTTP proxy, and when upstream is contacted. */
module GatewayBody {
  import opened Wrappers

  datatype Message = Request(body: Bytes, more: bool) | Disconnect | Other

  /** `Waiting`: the client has not sent enough yet. */
  datatype Verdict = Ok | TooLarge | Disconnected | Waiting

  // ----- What a message sequence amounts to -----

  /** How many body bytes the messages carry. */
  function Total(messages: seq<Message>): nat {
    if messages == [] then 0
    else var last := messages[|messages| - 1];
         Total(messages[..|messages| - 1]) + if last.Request? then |last.body| else 0
  }

  /** The chunks of the messages, one after the other. */
  function Joined(messages: seq<Message>): Bytes {
    if messages == [] then []
    else var last := messages[|messages| - 1];
         Joined(messages[..|messages| - 1]) + if last.Request? then last.body else []
  }

  /** The first `k` messages all announce more. */
  ghost predicate Continues(messages: seq<Message>, k: nat) {
    k <= |messages| && forall i | 0 <= i < k :: messages[i].Request? && messages[i].more
  }

  /** Message `k` ends the body. */
  ghost predicate EndsAt(messages: seq<Message>, k: nat) {
    k < |messages| && Continues(messages, k) && !(messages[k].Request? && messages[k].more)
  }

  /** The limit, where 0 means none. */
  predicate Within(total: nat, limit: nat) { limit == 0 || total <= limit }

  /** Message `k` is the first to take the body over the limit. */
  ghost predicate ExceedsAt(messages: seq<Message>, limit: nat, k: nat) {
    k < |messages| && Continues(messages, k) && messages[k].Request?
    && Within(Total(messages[..k]), limit) && !Within(Total(messages[..k + 1]), limit)
  }

  /** Message `k` is the client's disconnect, with nothing over the limit before it. */
  ghost predicate DisconnectsAt(messages: seq<Message>, limit: nat, k: nat) {
    EndsAt(messages, k) && messages[k].Disconnect? && Within(Total(messages[..k]), limit)
  }

  /** Message `k` ends a body that stays within the limit. */
  ghost predicate CompletesAt(messages: seq<Message>, limit: nat, k: nat) {
    EndsAt(messages, k) && !messages[k].Disconnect? && Within(Total(messages[..k + 1]), limit)
  }

  /** The first `read` messages are a whole body. */
  ghost predicate WholeBody(messages: seq<Message>, read: nat) {
    0 < read <= |messages| && EndsAt(messages, read - 1)
  }

  ghost function Judge(messages: seq<Message>, limit: nat, k: nat): Verdict
    requires k <= |messages|
    decreases |messages| - k
  {
    if k == |messages| then Waiting
    else match messages[k]
      case Disconnect => Disconnected
      case Other => Ok
      case Request(_, more) =>
        if !Within(Total(messages[..k + 1]), limit) then TooLarge
        else if !more then Ok
        else Judge(messages, limit, k + 1)
  }

  lemma {:induction false} TotalGrows(messages: seq<Message>, i: nat, j: nat)
    requires i <= j <= |messages|
    ensures Total(messages[..i]) <= Total(messages[..j])
    decreases j - i
  {
    if i >= j {
    } else {
      TotalGrows(messages, i, j - 1);
      assert messages[..j][..j - 1] == messages[..j - 1];
    }
  }

  /** Each verdict says exactly how the body ended: too large when some message takes it over the
      limit before anything ends it; otherwise by the message that ends it. */
  lemma {:induction false} JudgeMeans(messages: seq<Message>, limit: nat, k: nat)
    requires Continues(messages, k) && Within(Total(messages[..k]), limit)
    ensures Judge(messages, limit, k).TooLarge? <==> exists j: nat :: k <= j && ExceedsAt(messages, limit, j)
    ensures Judge(messages, limit, k).Disconnected? <==> exists j: nat :: DisconnectsAt(messages, limit, j)
    ensures Judge(messages, limit, k).Ok? <==> exists j: nat :: CompletesAt(messages, limit, j)
    decreases |messages| - k
  {
    if k < |messages| {
      assert messages[..k + 1][..k] == messages[..k];
      var m := messages[k];
      if m.Request? && m.more && Within(Total(messages[..k + 1]), limit) {
        JudgeMeans(messages, limit, k + 1);
        assert !ExceedsAt(messages, limit, k);
      } else if m.Request? && !Within(Total(messages[..k + 1]), limit) {
        assert ExceedsAt(messages, limit, k);
        forall j: nat ensures !DisconnectsAt(messages, limit, j) && !CompletesAt(messages, limit, j) {
          if EndsAt(messages, j) { PastLimit(messages, limit, k, j); }
        }
      } else {
        assert EndsAt(messages, k);
        forall j: nat | EndsAt(messages, j) ensures j == k { OnlyEnd(messages, k, j); }
        if m.Disconnect? {
          assert DisconnectsAt(messages, limit, k);
        } else {
          assert Total(messages[..k + 1]) == Total(messages[..k]) + if m.Request? then |m.body| else 0;
          assert CompletesAt(messages, limit, k);
        }
      }
    }
  }

  lemma PastLimit(messages: seq<Message>, limit: nat, k: nat, j: nat)
    requires ExceedsAt(messages, limit, k) && EndsAt(messages, j)
    ensures !DisconnectsAt(messages, limit, j) && !CompletesAt(messages, limit, j)
  {
    OnlyEnd(messages, k, j);
    TotalGrows(messages, k + 1, j + 1);
    if messages[j].Disconnect? { TotalGrows(messages, k + 1, j); }
  }

  lemma OnlyEnd(messages: seq<Message>, k: nat, j: nat)
    requires Continues(messages, k) && EndsAt(messages, j)
    ensures j >= k && (k < |messages| && EndsAt(messages, k) ==> j == k)
  {
  }

  // ----- The readers -----

  /** `drain_incoming_request_body`; `read` is how many messages it took. */
  method Drain(messages: seq<Message>, limit: nat) returns (verdict: Verdict, read: nat)
    ensures verdict == Judge(messages, limit, 0)
    ensures read <= |messages| && Continues(messages, if read > 0 then read - 1 else 0)
  {
    var total := 0;
    read := 0;
    while read < |messages|
      invariant read <= |messages| && Continues(messages, read) && total == Total(messages[..read])
      invariant Judge(messages, limit, read) == Judge(messages, limit, 0)
    {
      var message := messages[read];
      assert messages[..read + 1][..read] == messages[..read];
      read := read + 1;
      if !message.Request? {
        if message.Disconnect? { return Disconnected, read; }
        return Ok, read;
      }
      total := total + |message.body|;
      if limit != 0 && total > limit { return TooLarge, read; }
      if !message.more { return Ok, read; }
    }
    verdict := Waiting;
  }

  /** `collect_limited_request_body`: the buffer never outgrows the limit, and an accepted body is
      the concatenation of the chunks read. */
  method Collect(messages: seq<Message>, limit: nat) returns (verdict: Verdict, body: Bytes, read: nat)
    requires limit > 0
    ensures verdict == Judge(messages, limit, 0)
    ensures |body| <= limit
    ensures read <= |messages| && (verdict.Ok? ==> body == Joined(messages[..read]) && WholeBody(messages, read))
  {
    var total := 0;
    body, read := [], 0;
    while read < |messages|
      invariant read <= |messages| && Continues(messages, read)
      invariant total == |body| == Total(messages[..read]) && total <= limit && body == Joined(messages[..read])
      invariant Judge(messages, limit, read) == Judge(messages, limit, 0)
    {
      var message := messages[read];
      assert messages[..read + 1][..read] == messages[..read];
      read := read + 1;
      if !message.Request? {
        if message.Disconnect? { return Disconnected, body, read; }
        return Ok, body, read;
      }
      if message.body != [] {
        total := total + |message.body|;
        if total > limit { return TooLarge, body, read; }
        body := body + message.body;
      }
      if !message.more { return Ok, body, read; }
    }
    verdict := Waiting;
  }

  function Concat(chunks: seq<Bytes>): Bytes {
    if chunks == [] then [] else Concat(chunks[..|chunks| - 1]) + chunks[|chunks| - 1]
  }

  /** The non-empty chunks of the messages. */
  function ChunksOf(messages: seq<Message>): seq<Bytes> {
    if messages == [] then []
    else var last := messages[|messages| - 1];
         ChunksOf(messages[..|messages| - 1]) + if last.Request? && last.body != [] then [last.body] else []
  }

  lemma {:induction false} ChunksJoin(messages: seq<Message>)
    ensures Concat(ChunksOf(messages)) == Joined(messages)
  {
    if messages == [] {
    } else {
      var front, last := messages[..|messages| - 1], messages[|messages| - 1];
      ChunksJoin(front);
      if last.Request? && last.body != [] {
        assert (ChunksOf(front) + [last.body])[..|ChunksOf(front)|] == ChunksOf(front);
      } else {
        assert ChunksOf(messages) == ChunksOf(front) && Joined(messages) == Joined(front);
      }
    }
  }

  /** How many messages a reader without a limit takes. */
  function ReadTo(messages: seq<Message>, k: nat): (read: nat)
    requires k <= |messages|
    ensures k <= read <= |messages|
    decreases |messages| - k
  {
    if k == |messages| then k
    else if messages[k].Request? && messages[k].more then ReadTo(messages, k + 1)
    else k + 1
  }

  /** `request_body`, as its consumer sees it: the non-empty chunks yielded, one per message. */
  method Stream(messages: seq<Message>, limit: nat) returns (verdict: Verdict, chunks: seq<Bytes>, read: nat)
    ensures verdict == Judge(messages, limit, 0)
    ensures forall c | c in chunks :: c != []
    ensures read <= |messages|
    ensures !verdict.TooLarge? ==> chunks == ChunksOf(messages[..read]) && read == ReadTo(messages, 0)
    ensures verdict.TooLarge? ==> read > 0 && chunks == ChunksOf(messages[..read - 1])
    ensures verdict.Ok? ==> Concat(chunks) == Joined(messages[..read]) && WholeBody(messages, read)
  {
    var total := 0;
    chunks, read := [], 0;
    while read < |messages|
      invariant read <= |messages| && Continues(messages, read) && ReadTo(messages, read) == ReadTo(messages, 0)
      invariant forall c | c in chunks :: c != []
      invariant total == Total(messages[..read]) && Within(total, limit) && chunks == ChunksOf(messages[..read])
      invariant Judge(messages, limit, read) == Judge(messages, limit, 0)
    {
      var message := messages[read];
      assert messages[..read + 1][..read] == messages[..read];
      ChunksJoin(messages[..read + 1]);
      read := read + 1;
      if message.Disconnect? { return Disconnected, chunks, read; }
      if message.Other? { return Ok, chunks, read; }
      if message.body != [] {
        total := total + |message.body|;
        if limit != 0 && total > limit { return TooLarge, chunks, read; }
        chunks := chunks + [message.body];
      }
      if !message.more { return Ok, chunks, read; }
    }
    verdict := Waiting;
  }

  /** Two readers that accept the same messages have read the same body. */
  lemma SameBody(messages: seq<Message>, i: nat, j: nat)
    requires WholeBody(messages, i) && WholeBody(messages, j)
    ensures Joined(messages[..i]) == Joined(messages[..j])
  {
    OnlyEnd(messages, i - 1, j - 1);
    OnlyEnd(messages, j - 1, i - 1);
  }

  // ----- When upstream is contacted -----

  /** Upstream answers, or fails: for a streamed body once it has taken that many chunks, or at the end
      of a shorter body. */
  datatype Upstream = Answers(status: nat) | Fails(after: nat)

  datatype Action = Contact(body: Option<Bytes>) | ContactStreaming(chunks: seq<Bytes>) | Respond(status: nat)

  /** What a streamed body offers upstream. */
  function Offered(messages: seq<Message>): seq<Bytes> { ChunksOf(messages[..ReadTo(messages, 0)]) }

  function Answered(upstream: Upstream): Action {
    Respond(if upstream.Fails? then 502 else upstream.status)
  }

  /** An answer's status is passed on, and a failure is a bad gateway. */
  lemma AnsweredStatuses(status: nat, after: nat)
    ensures Answered(Answers(status)) == Respond(status) && Answered(Fails(after)) == Respond(502)
  {
  }

  ghost predicate IsWholeBody(messages: seq<Message>, body: Bytes) {
    exists k: nat :: WholeBody(messages, k) && body == Joined(messages[..k])
  }

  /** What a request with a buffered or drained body leads to: upstream is contacted exactly when the
      whole body has been accepted, and then with exactly that body. */
  ghost predicate ProxiesWhole(getOrHead: bool, limit: nat, messages: seq<Message>, upstream: Upstream,
                               actions: seq<Action>)
  {
    match Judge(messages, limit, 0)
    case TooLarge => actions == [Respond(413)]
    case Disconnected => actions == [Respond(499)]
    case Waiting => actions == []
    case Ok =>
      && |actions| == 2 && actions[0].Contact? && actions[1] == Answered(upstream)
      && if getOrHead then actions[0].body == None
         else actions[0].body.Some? && IsWholeBody(messages, actions[0].body.value)
  }

  /** By the messages: which one decides, and what it leads to. */
  lemma WholeOutcomes(getOrHead: bool, limit: nat, messages: seq<Message>, upstream: Upstream, actions: seq<Action>)
    requires ProxiesWhole(getOrHead, limit, messages, upstream, actions)
    ensures (exists j: nat :: ExceedsAt(messages, limit, j)) ==> actions == [Respond(413)]
    ensures (exists j: nat :: DisconnectsAt(messages, limit, j)) ==> actions == [Respond(499)]
    ensures forall j: nat | CompletesAt(messages, limit, j) ::
              && |actions| == 2
              && actions[0] == Contact(if getOrHead then None else Some(Joined(messages[..j + 1])))
              && actions[1] == Respond(if upstream.Fails? then 502 else upstream.status)
    ensures (forall j: nat :: !ExceedsAt(messages, limit, j) && !DisconnectsAt(messages, limit, j)
                              && !CompletesAt(messages, limit, j)) ==> actions == []
  {
    JudgeMeans(messages, limit, 0);
    forall j: nat | CompletesAt(messages, limit, j) && !getOrHead
      ensures actions[0].body == Some(Joined(messages[..j + 1]))
    {
      var k: nat :| WholeBody(messages, k) && actions[0].body.value == Joined(messages[..k]);
      SameBody(messages, k, j + 1);
    }
  }

  /** What a request with a streamed body leads to: upstream is offered the chunks in order, all of
      them unless it fails before. */
  ghost predicate ProxiesStream(messages: seq<Message>, upstream: Upstream, actions: seq<Action>) {
    var offered := Offered(messages);
    if messages == [] then actions == []
    else if messages[0].Disconnect? then actions == [Respond(499)]
    else if upstream.Fails? && upstream.after <= |offered| then
      actions == [ContactStreaming(offered[..upstream.after]), Respond(502)]
    else
      match Judge(messages, 0, 0)
      case Disconnected => actions == [ContactStreaming(offered), Respond(499)]
      case Waiting => actions == [ContactStreaming(offered)]
      case Ok => actions == [ContactStreaming(offered), Answered(upstream)] && IsWholeBody(messages, Concat(offered))
      case TooLarge => false
  }

  /** By the messages, when upstream answers: a completed body is streamed whole, and a disconnect ends it. */
  lemma StreamOutcomes(messages: seq<Message>, status: nat, actions: seq<Action>)
    requires ProxiesStream(messages, Answers(status), actions)
    ensures forall j: nat | CompletesAt(messages, 0, j) ::
              && |actions| == 2 && actions[0].ContactStreaming? && actions[1] == Respond(status)
              && Concat(actions[0].chunks) == Joined(messages[..j + 1])
    ensures (exists j: nat :: DisconnectsAt(messages, 0, j)) ==>
              actions != [] && actions[|actions| - 1] == Respond(499)
  {
    JudgeMeans(messages, 0, 0);
    forall j: nat | CompletesAt(messages, 0, j)
      ensures |actions| == 2 && actions[0].ContactStreaming? && Concat(actions[0].chunks) == Joined(messages[..j + 1])
    {
      var k: nat :| WholeBody(messages, k) && Concat(Offered(messages)) == Joined(messages[..k]);
      SameBody(messages, k, j + 1);
    }
  }

  /** The body part of `proxy_http_inner`: GET and HEAD drain, a limit collects, and otherwise the
      body is streamed. */
  method Proxy(getOrHead: bool, limit: nat, messages: seq<Message>, upstream: Upstream) returns (actions: seq<Action>)
    ensures getOrHead || limit > 0 ==> ProxiesWhole(getOrHead, limit, messages, upstream, actions)
    ensures !getOrHead && limit == 0 ==> ProxiesStream(messages, upstream, actions)
  {
    if !getOrHead && limit == 0 {
      actions := ProxyStreaming(messages, upstream);
      return;
    }
    var verdict, body, read;
    if getOrHead {
      verdict, read := Drain(messages, limit);
      body := None;
    } else {
      var collected;
      verdict, collected, read := Collect(messages, limit);
      body := Some(collected);
    }
    match verdict
    case TooLarge => return [Respond(413)];
    case Disconnected => return [Respond(499)];
    case Waiting => return [];
    case Ok => return [Contact(body), Answered(upstream)];
  }

  method ProxyStreaming(messages: seq<Message>, upstream: Upstream) returns (actions: seq<Action>)
    ensures ProxiesStream(messages, upstream, actions)
  {
    if messages == [] { return []; }
    if messages[0].Disconnect? { return [Respond(499)]; }
    var verdict, chunks, read := Stream(messages, 0);
    NeverTooLarge(messages, 0);
    if upstream.Fails? && upstream.after <= |chunks| {
      return [ContactStreaming(chunks[..upstream.after]), Respond(502)];
    }
    match verdict
    case Disconnected => return [ContactStreaming(chunks), Respond(499)];
    case Waiting => return [ContactStreaming(chunks)];
    case Ok => return [ContactStreaming(chunks), Answered(upstream)];
    case TooLarge => assert false;
  }

  lemma {:induction false} NeverTooLarge(messages: seq<Message>, k: nat)
    requires k <= |messages|
    ensures !Judge(messages, 0, k).TooLarge?
    decreases |messages| - k
  {
    if k < |messages| { NeverTooLarge(messages, k + 1); }
  }
}
