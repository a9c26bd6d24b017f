/** The WebSocket proxy: the handshake, then two relay tasks that share one flag.  Every method is
    what runs between two awaits of one task, so a run is any sequence of calls. */
module WebSocketRelay {
  import opened Wrappers

  datatype Frame = Binary(data: Bytes) | Text(text: string)

  datatype ClientMessage =
    | Connect
    | Receive(data: Option<Bytes>, text: Option<string>)
    | Disconnect
    | Unknown

  /** What the client is sent. */
  datatype ClientEvent = Accept(subprotocol: Option<string>) | Data(frame: Frame) | Close(code: nat)

  /** The frame a message carries; bytes win over text, and an empty frame is a frame. */
  function FrameOf(m: ClientMessage): Option<Frame> {
    if !m.Receive? then None
    else if m.data.Some? then Some(Binary(m.data.value))
    else if m.text.Some? then Some(Text(m.text.value))
    else None
  }

  function Frames(messages: seq<ClientMessage>): seq<Frame> {
    if messages == [] then []
    else
      var last := FrameOf(messages[|messages| - 1]);
      Frames(messages[..|messages| - 1]) + if last.Some? then [last.value] else []
  }

  function DataOf(events: seq<ClientEvent>): seq<Frame> {
    if events == [] then []
    else
      var last := events[|events| - 1];
      DataOf(events[..|events| - 1]) + if last.Data? then [last.frame] else []
  }

  /** How many events close the connection with code 1011. */
  function ErrorCloses(events: seq<ClientEvent>): nat {
    if events == [] then 0
    else ErrorCloses(events[..|events| - 1]) + if events[|events| - 1] == Close(1011) then 1 else 0
  }

  /** The subprotocol that upstream chose, if the client offered it. */
  function Chosen(subprotocol: Option<string>, offered: seq<string>): (chosen: Option<string>)
    ensures chosen == subprotocol || chosen == None
    ensures chosen.Some? <==> subprotocol.Some? && subprotocol.value != "" && subprotocol.value in offered
  {
    if subprotocol.Some? && subprotocol.value != "" && subprotocol.value in offered then subprotocol else None
  }

  /** What follows the first 1011 close, if there is one. */
  function AfterClose(events: seq<ClientEvent>): Option<seq<ClientEvent>> {
    if events == [] then None
    else
      var before, last := AfterClose(events[..|events| - 1]), events[|events| - 1];
      if before.Some? then Some(before.value + [last]) else if last == Close(1011) then Some([]) else None
  }

  lemma OneMoreEvent(events: seq<ClientEvent>, e: ClientEvent)
    ensures AfterClose(events + [e])
         == if AfterClose(events).Some? then Some(AfterClose(events).value + [e])
            else if e == Close(1011) then Some([]) else None
    ensures DataOf(events + [e]) == DataOf(events) + if e.Data? then [e.frame] else []
    ensures ErrorCloses(events + [e]) == ErrorCloses(events) + if e == Close(1011) then 1 else 0
  {
    assert (events + [e])[..|events|] == events;
  }

  lemma OneMoreMessage(messages: seq<ClientMessage>, m: ClientMessage)
    ensures Frames(messages + [m]) == Frames(messages) + if FrameOf(m).Some? then [FrameOf(m).value] else []
  {
    assert (messages + [m])[..|messages|] == messages;
  }

  datatype Phase = Opening | Connecting | Relaying | Closed

  /** Where a relay task is suspended. */
  datatype Task = Receiving | Sending(frame: Frame) | ClosingUpstream | ClosingClient | Ended

  /** A task that forwards no more frames. */
  predicate IsOver(t: Task) { t == ClosingClient || t.Ended? }

  datatype Direction = ToUpstream | ToClient

  /** What may follow the 1011 close: nothing when it came from the direction towards the client, and
      only frames when it came from the other one. */
  ghost predicate ClosedBy(phase: Phase, closer: Option<Direction>, relayCloseSent: bool,
                           sentClient: seq<ClientEvent>)
  {
    match closer
    case None => !relayCloseSent && (!phase.Closed? ==> AfterClose(sentClient).None?)
    case Some(ToClient) => relayCloseSent && AfterClose(sentClient) == Some([])
    case Some(ToUpstream) =>
      relayCloseSent && AfterClose(sentClient).Some? && forall e | e in AfterClose(sentClient).value :: e.Data?
  }

  /** How the awaited operation of a task ends. */
  datatype Outcome = Done | ConnectionClosed | Error | Cancelled

  class Relay {
    const offered: seq<string>     // the client's subprotocols
    var phase: Phase
    var toUpstream: Task           // client_to_upstream
    var toClient: Task             // upstream_to_client
    var cancelled: bool            // the cancel scope both relays run in
    var relayCloseSent: bool
    // what happened; `closer` is the direction whose error closed the client
    ghost var closer: Option<Direction>
    ghost var fromClient: seq<ClientMessage>
    ghost var sentUpstream: seq<Frame>
    ghost var fromUpstream: seq<Frame>
    ghost var sentClient: seq<ClientEvent>
    ghost var lostUp: seq<Frame>
    ghost var lostDown: seq<Frame>

    ghost function InFlight(t: Task): seq<Frame> { if t.Sending? then [t.frame] else [] }

    /** client_to_upstream has forwarded, unchanged and in order, every frame it received, up to the
        one being sent or, once the relay is over, the one whose sending failed. */
    ghost predicate UpInOrder()
      reads this`fromClient, this`sentUpstream, this`lostUp, this`toUpstream
    {
      && Frames(fromClient) == sentUpstream + (lostUp + InFlight(toUpstream))
      && |lostUp| <= 1
      && (toUpstream.Receiving? || toUpstream.Sending? || toUpstream == ClosingUpstream ==> lostUp == [])
    }

    /** So has upstream_to_client, towards the client. */
    ghost predicate DownInOrder()
      reads this`fromUpstream, this`sentClient, this`lostDown, this`toClient
    {
      && fromUpstream == DataOf(sentClient) + (lostDown + InFlight(toClient))
      && |lostDown| <= 1
      && (toClient.Receiving? || toClient.Sending? ==> lostDown == [])
      && toClient != ClosingUpstream
    }

    /** The client is accepted first, once, and closed with 1011 at most once. */
    ghost predicate AcceptsFirstClosesOnce()
      reads this`phase, this`sentClient, this`relayCloseSent
    {
      match phase
      case Opening => sentClient == [] && !relayCloseSent
      case Connecting => sentClient == [] && !relayCloseSent
      case Relaying =>
        && sentClient != [] && sentClient[0].Accept? && (forall i | 1 <= i < |sentClient| :: !sentClient[i].Accept?)
        && ErrorCloses(sentClient) == if relayCloseSent then 1 else 0
      case Closed =>
        && (forall i | 1 <= i < |sentClient| :: !sentClient[i].Accept?)
        && ((exists i | 0 <= i < |sentClient| :: sentClient[i].Data?) ==> sentClient[0].Accept?)
        && ErrorCloses(sentClient) <= 1
    }

    ghost predicate Settled()
      reads this
    {
      && UpInOrder() && DownInOrder() && AcceptsFirstClosesOnce()
      && ClosedBy(phase, closer, relayCloseSent, sentClient)
    }

    ghost predicate Valid()
      reads this
    {
      Settled() && (closer == Some(ToClient) ==> IsOver(toClient))
    }

    constructor (offered: seq<string>)
      ensures Valid() && phase.Opening? && sentClient == []
      ensures toUpstream.Receiving? && toClient.Receiving? && !relayCloseSent
    {
      this.offered := offered;
      phase, toUpstream, toClient, cancelled, relayCloseSent := Opening, Receiving, Receiving, false, false;
      fromClient, sentUpstream, fromUpstream, sentClient, lostUp, lostDown := [], [], [], [], [], [];
      closer := None;
    }

    // ----- The handshake -----

    method SendClient(e: ClientEvent)
      modifies this`sentClient
      ensures sentClient == old(sentClient) + [e]
      ensures DataOf(sentClient) == DataOf(old(sentClient)) + if e.Data? then [e.frame] else []
      ensures ErrorCloses(sentClient) == ErrorCloses(old(sentClient)) + if e == Close(1011) then 1 else 0
      ensures var before := AfterClose(old(sentClient));
              AfterClose(sentClient) == if before.Some? then Some(before.value + [e])
                                        else if e == Close(1011) then Some([]) else None
    {
      OneMoreEvent(sentClient, e);
      sentClient := sentClient + [e];
    }

    method First(message: ClientMessage)
      requires Valid() && phase.Opening?
      modifies this`phase, this`sentClient
      ensures Valid()
      ensures if message.Connect? then phase.Connecting? && sentClient == []
              else phase.Closed? && sentClient == [Close(1002)]
    {
      if message.Connect? {
        phase := Connecting;
      } else {
        SendClient(Close(1002));
        phase := Closed;
      }
    }

    /** The upstream connection opens with this subprotocol, or fails; `accepts` tells whether the
        accept message can be delivered.  Both failures are answered with 1011. */
    method UpstreamConnects(opens: bool, subprotocol: Option<string>, accepts: bool)
      requires Valid() && phase.Connecting?
      modifies this`phase, this`sentClient
      ensures Valid()
      ensures opens && accepts ==> phase.Relaying? && sentClient == [Accept(Chosen(subprotocol, offered))]
      ensures !(opens && accepts) ==> phase.Closed? && sentClient == [Close(1011)]
    {
      if opens && accepts {
        SendClient(Accept(Chosen(subprotocol, offered)));
        phase := Relaying;
      } else {
        SendClient(Close(1011));
        phase := Closed;
      }
    }

    // ----- The relay tasks -----

    /** `_try_close_client_after_relay_error`, up to its await; `waits` tells whether it awaits. */
    method TryCloseClient(ghost direction: Direction) returns (waits: bool)
      requires phase.Relaying? && AcceptsFirstClosesOnce() && DownInOrder()
      requires ClosedBy(phase, closer, relayCloseSent, sentClient)
      modifies this`relayCloseSent, this`sentClient, this`closer
      ensures AcceptsFirstClosesOnce() && DownInOrder() && relayCloseSent
      ensures ClosedBy(phase, closer, relayCloseSent, sentClient)
      ensures waits == !old(relayCloseSent)
      ensures sentClient == if waits then old(sentClient) + [Close(1011)] else old(sentClient)
      ensures closer == if waits then Some(direction) else old(closer)
    {
      if relayCloseSent {
        return false;
      }
      relayCloseSent := true;
      SendClient(Close(1011));
      closer := Some(direction);
      waits := true;
    }

    /** A message from the client reaches client_to_upstream. */
    method ClientDelivers(message: ClientMessage)
      requires Valid() && phase.Relaying? && toUpstream.Receiving?
      modifies this`fromClient, this`toUpstream
      ensures Valid()
      ensures fromClient == old(fromClient) + [message]
      ensures toUpstream == if FrameOf(message).Some? then Sending(FrameOf(message).value)
                            else if message.Disconnect? then ClosingUpstream else Receiving
    {
      OneMoreMessage(fromClient, message);
      assert Frames(fromClient) == sentUpstream;
      fromClient := fromClient + [message];
      if FrameOf(message).Some? {
        toUpstream := Sending(FrameOf(message).value);
      } else if message.Disconnect? {
        toUpstream := ClosingUpstream;
      }
    }

    /** client_to_upstream's send completes. */
    method UpstreamSends()
      requires Valid() && phase.Relaying? && toUpstream.Sending?
      modifies this`toUpstream, this`sentUpstream
      ensures Valid() && toUpstream.Receiving? && sentUpstream == old(sentUpstream) + [old(toUpstream).frame]
    {
      sentUpstream := sentUpstream + [toUpstream.frame];
      toUpstream := Receiving;
    }

    /** client_to_upstream ends: the upstream close completes, or the connection turns out closed, or
        the relay is cancelled, or its attempt to close the client is over. */
    method UpstreamTaskStops()
      requires Valid() && phase.Relaying? && !toUpstream.Ended?
      modifies this`toUpstream, this`lostUp, this`cancelled
      ensures Valid() && toUpstream.Ended? && cancelled
    {
      LeaveUpstream(Ended);
      cancelled := true;
    }

    /** An error is raised in client_to_upstream: it closes the client, unless the other task has. */
    method UpstreamTaskFails()
      requires Valid() && phase.Relaying? && !toUpstream.Ended? && toUpstream != ClosingClient
      modifies this`toUpstream, this`lostUp, this`cancelled, this`relayCloseSent, this`sentClient, this`closer
      ensures Valid()
      ensures sentClient == if old(relayCloseSent) then old(sentClient) else old(sentClient) + [Close(1011)]
      ensures if old(relayCloseSent) then toUpstream.Ended? && cancelled else toUpstream == ClosingClient
    {
      var waits := TryCloseClient(ToUpstream);
      AfterUpstreamError(waits);
    }

    method AfterUpstreamError(waits: bool)
      requires Valid()
      modifies this`toUpstream, this`lostUp, this`cancelled
      ensures Valid()
      ensures if waits then toUpstream == ClosingClient else toUpstream.Ended? && cancelled
    {
      if waits {
        LeaveUpstream(ClosingClient);
      } else {
        LeaveUpstream(Ended);
        cancelled := true;
      }
    }

    method LeaveUpstream(next: Task)
      requires UpInOrder() && (next.Ended? || next == ClosingClient)
      modifies this`toUpstream, this`lostUp
      ensures UpInOrder() && toUpstream == next
    {
      lostUp, toUpstream := lostUp + InFlight(toUpstream), next;
    }

    /** A frame from upstream reaches upstream_to_client. */
    method UpstreamDelivers(frame: Frame)
      requires Valid() && phase.Relaying? && toClient.Receiving?
      modifies this`fromUpstream, this`toClient
      ensures Valid()
      ensures fromUpstream == old(fromUpstream) + [frame] && toClient == Sending(frame)
    {
      fromUpstream := fromUpstream + [frame];
      toClient := Sending(frame);
    }

    /** upstream_to_client's send completes. */
    method ClientReceives()
      requires Valid() && phase.Relaying? && toClient.Sending?
      modifies this`toClient, this`sentClient
      ensures Valid() && toClient.Receiving? && sentClient == old(sentClient) + [Data(old(toClient).frame)]
    {
      SendClient(Data(toClient.frame));
      toClient := Receiving;
    }

    /** upstream_to_client ends. */
    method ClientTaskStops()
      requires Valid() && phase.Relaying? && !toClient.Ended?
      modifies this`toClient, this`lostDown, this`cancelled
      ensures Valid() && toClient.Ended? && cancelled
    {
      LeaveClient(Ended);
      cancelled := true;
    }

    /** An error is raised in upstream_to_client. */
    method ClientTaskFails()
      requires Valid() && phase.Relaying? && !toClient.Ended? && toClient != ClosingClient
      modifies this`toClient, this`lostDown, this`cancelled, this`relayCloseSent, this`sentClient, this`closer
      ensures Valid()
      ensures sentClient == if old(relayCloseSent) then old(sentClient) else old(sentClient) + [Close(1011)]
      ensures if old(relayCloseSent) then toClient.Ended? && cancelled else toClient == ClosingClient
    {
      var waits := TryCloseClient(ToClient);
      AfterClientError(waits);
    }

    method AfterClientError(waits: bool)
      requires Settled()
      modifies this`toClient, this`lostDown, this`cancelled
      ensures Valid()
      ensures if waits then toClient == ClosingClient else toClient.Ended? && cancelled
    {
      if waits {
        LeaveClient(ClosingClient);
      } else {
        LeaveClient(Ended);
        cancelled := true;
      }
    }

    method LeaveClient(next: Task)
      requires DownInOrder() && (next.Ended? || next == ClosingClient)
      modifies this`toClient, this`lostDown
      ensures DownInOrder() && toClient == next
    {
      lostDown, toClient := lostDown + InFlight(toClient), next;
    }

    /** The task group ends once both tasks have. */
    method TasksEnd()
      requires Valid() && phase.Relaying? && toUpstream.Ended? && toClient.Ended?
      modifies this`phase
      ensures Valid() && phase.Closed?
    {
      phase := Closed;
    }
  }

  // ----- Every run -----

  datatype Choice =
    | FirstMessage(message: ClientMessage) | Connects(opens: bool, subprotocol: Option<string>, accepts: bool)
    | FromClient(message: ClientMessage) | UpstreamStep(outcome: Outcome)
    | FromUpstream(frame: Frame) | ClientStep(outcome: Outcome) | Ends

  /** A task is cancelled only once its group is, and a wait for a message ends with the message. */
  predicate CanContinue(task: Task, outcome: Outcome, cancelled: bool) {
    !task.Ended? && (outcome.Cancelled? ==> cancelled) && (outcome.Done? ==> !task.Receiving?)
  }

  /** A send can succeed, a task that has not ended can fail or be told of a closed connection, and only a
      cancelled group cancels. */
  lemma WhatCanContinue(task: Task, frame: Frame, cancelled: bool)
    ensures CanContinue(Sending(frame), Done, cancelled) && CanContinue(ClosingUpstream, Done, cancelled)
    ensures CanContinue(ClosingClient, Done, cancelled) && !CanContinue(Receiving, Done, cancelled)
    ensures !task.Ended? ==> CanContinue(task, Error, cancelled) && CanContinue(task, ConnectionClosed, cancelled)
    ensures CanContinue(task, Cancelled, cancelled) <==> !task.Ended? && cancelled
  {
  }

  /** Makes one choice, or skips it when it is not possible.  Once upstream_to_client is over, the client
      is sent no frame any more. */
  method Choose(relay: Relay, choice: Choice)
    requires relay.Valid()
    modifies relay
    ensures relay.Valid() && (IsOver(old(relay.toClient)) ==> IsOver(relay.toClient))
    ensures old(relay.phase) == Closed ==> relay.phase.Closed? && relay.sentClient == old(relay.sentClient)
    ensures old(relay.phase) == Relaying ==> relay.phase.Relaying? || relay.phase.Closed?
    ensures old(relay.phase) == Relaying && IsOver(old(relay.toClient)) ==>
              DataOf(relay.sentClient) == DataOf(old(relay.sentClient))
  {
    match choice {
      case FirstMessage(message) => if relay.phase.Opening? { relay.First(message); }
      case Connects(opens, subprotocol, accepts) =>
        if relay.phase.Connecting? { relay.UpstreamConnects(opens, subprotocol, accepts); }
      case Ends =>
        if relay.phase.Relaying? && relay.toUpstream.Ended? && relay.toClient.Ended? { relay.TasksEnd(); }
      case _ => if relay.phase.Relaying? { Relays(relay, choice); }
    }
  }

  /** A choice of the relay tasks. */
  method Relays(relay: Relay, choice: Choice)
    requires relay.Valid() && relay.phase.Relaying?
    modifies relay
    ensures relay.Valid() && relay.phase.Relaying? && (IsOver(old(relay.toClient)) ==> IsOver(relay.toClient))
    ensures IsOver(old(relay.toClient)) ==> DataOf(relay.sentClient) == DataOf(old(relay.sentClient))
  {
    match choice {
      case FromClient(message) =>
        if relay.toUpstream.Receiving? { relay.ClientDelivers(message); }
      case UpstreamStep(outcome) =>
        if CanContinue(relay.toUpstream, outcome, relay.cancelled) {
          UpstreamContinues(relay, outcome);
        }
      case FromUpstream(frame) =>
        if relay.toClient.Receiving? { relay.UpstreamDelivers(frame); }
      case ClientStep(outcome) =>
        if CanContinue(relay.toClient, outcome, relay.cancelled) {
          ClientContinues(relay, outcome);
        }
      case _ =>
    }
  }

  method UpstreamContinues(relay: Relay, outcome: Outcome)
    requires relay.Valid() && relay.phase.Relaying? && CanContinue(relay.toUpstream, outcome, relay.cancelled)
    modifies relay
    ensures relay.Valid() && relay.phase.Relaying? && relay.toClient == old(relay.toClient)
    ensures DataOf(relay.sentClient) == DataOf(old(relay.sentClient))
    ensures outcome.Done? && old(relay.toUpstream).Sending? ==>
              relay.sentUpstream == old(relay.sentUpstream) + [old(relay.toUpstream).frame]
  {
    OneMoreEvent(relay.sentClient, Close(1011));
    if relay.toUpstream.Sending? && outcome.Done? { relay.UpstreamSends(); }
    else if outcome.Error? && relay.toUpstream != ClosingClient { relay.UpstreamTaskFails(); }
    else { relay.UpstreamTaskStops(); }
  }

  method ClientContinues(relay: Relay, outcome: Outcome)
    requires relay.Valid() && relay.phase.Relaying? && CanContinue(relay.toClient, outcome, relay.cancelled)
    modifies relay
    ensures relay.Valid() && relay.phase.Relaying? && (IsOver(old(relay.toClient)) ==> IsOver(relay.toClient))
    ensures IsOver(old(relay.toClient)) ==> DataOf(relay.sentClient) == DataOf(old(relay.sentClient))
    ensures outcome.Done? && old(relay.toClient).Sending? ==>
              relay.sentClient == old(relay.sentClient) + [Data(old(relay.toClient).frame)]
  {
    OneMoreEvent(relay.sentClient, Close(1011));
    if relay.toClient.Sending? && outcome.Done? { relay.ClientReceives(); }
    else if outcome.Error? && relay.toClient != ClosingClient { relay.ClientTaskFails(); }
    else { relay.ClientTaskStops(); }
  }

  /** Runs an arbitrary interleaving.  Afterwards, as at every step: what each direction forwarded is a
      prefix of the frames it received, data follows the accept, at most one 1011 close was sent, and
      only frames follow it, if the direction towards upstream sent it.  No frame is sent once
      upstream_to_client is over. */
  method RunAll(relay: Relay, schedule: seq<Choice>)
    requires relay.Valid()
    modifies relay
    ensures relay.Valid()
    ensures relay.sentUpstream <= Frames(relay.fromClient) && DataOf(relay.sentClient) <= relay.fromUpstream
    ensures |Frames(relay.fromClient)| <= |relay.sentUpstream| + 1
    ensures |relay.fromUpstream| <= |DataOf(relay.sentClient)| + 1
    ensures forall i | 0 <= i < |relay.sentClient| && relay.sentClient[i].Data? :: i > 0 && relay.sentClient[0].Accept?
    ensures ErrorCloses(relay.sentClient) <= 1
    ensures relay.relayCloseSent ==>
              && AfterClose(relay.sentClient).Some? && (forall e | e in AfterClose(relay.sentClient).value :: e.Data?)
              && (AfterClose(relay.sentClient) == Some([]) || relay.closer == Some(ToUpstream))
    ensures (old(relay.phase) == Relaying || old(relay.phase) == Closed) && IsOver(old(relay.toClient)) ==>
              DataOf(relay.sentClient) == DataOf(old(relay.sentClient))
  {
    ghost var sealed := (relay.phase.Relaying? || relay.phase.Closed?) && IsOver(relay.toClient);
    ghost var before := DataOf(relay.sentClient);
    for i := 0 to |schedule|
      invariant relay.Valid()
      invariant sealed ==> (relay.phase.Relaying? || relay.phase.Closed?) && IsOver(relay.toClient)
      invariant sealed ==> DataOf(relay.sentClient) == before
    {
      Choose(relay, schedule[i]);
    }
    assert forall i | 0 <= i < |relay.sentClient| && relay.sentClient[i].Data? :: relay.sentClient[0].Accept?;
  }

  // ----- One frame, end to end -----

  /** What the client sends reaches upstream as it is: its bytes if it has any, even none at all, and else
      its text. */
  method FrameReachesUpstream(relay: Relay, data: Option<Bytes>, text: Option<string>)
    requires relay.Valid() && relay.phase.Relaying? && relay.toUpstream.Receiving? && (data.Some? || text.Some?)
    modifies relay`fromClient, relay`toUpstream, relay`sentUpstream
    ensures relay.Valid() && relay.toUpstream.Receiving?
    ensures relay.sentUpstream
         == old(relay.sentUpstream) + [if data.Some? then Binary(data.value) else Text(text.value)]
  {
    relay.ClientDelivers(Receive(data, text));
    relay.UpstreamSends();
  }

  /** A message without either, or of another type, is skipped, but for a disconnect. */
  method OtherMessagesAreSkipped(relay: Relay, message: ClientMessage)
    requires relay.Valid() && relay.phase.Relaying? && relay.toUpstream.Receiving?
    requires message == Receive(None, None) || message.Connect? || message.Unknown?
    modifies relay`fromClient, relay`toUpstream
    ensures relay.Valid() && relay.toUpstream.Receiving?
  {
    relay.ClientDelivers(message);
  }

  // ----- Frames after the close -----

  /** While upstream_to_client is not over, one more frame can reach the client, whether or not the 1011
      close has been sent: this is exactly when, by `RunAll`. */
  method FrameStillFollows(relay: Relay, frame: Frame) returns (sent: Frame)
    requires relay.Valid() && relay.phase.Relaying? && !IsOver(relay.toClient)
    modifies relay
    ensures relay.Valid() && relay.sentClient == old(relay.sentClient) + [Data(sent)]
    ensures relay.relayCloseSent == old(relay.relayCloseSent)
  {
    if relay.toClient.Receiving? { relay.UpstreamDelivers(frame); }
    sent := relay.toClient.frame;
    relay.ClientReceives();
  }

  /** A relay both of whose tasks wait for a frame. */
  method StartedRelay() returns (relay: Relay)
    ensures fresh(relay) && relay.Valid() && relay.phase.Relaying? && relay.sentClient == [Accept(None)]
    ensures relay.toUpstream.Receiving? && relay.toClient.Receiving? && !relay.relayCloseSent
  {
    relay := new Relay([]);
    relay.First(Connect);
    relay.UpstreamConnects(true, None, true);
  }

  /** An error towards upstream closes the client while a frame is on its way there, which still arrives. */
  method FrameArrivesAfterClose(relay: Relay, frame: Frame)
    requires relay.Valid() && relay.phase.Relaying? && !relay.relayCloseSent
    requires relay.toUpstream.Sending? && relay.toClient == Sending(frame)
    modifies relay
    ensures relay.Valid() && relay.sentClient == old(relay.sentClient) + [Close(1011)] + [Data(frame)]
  {
    relay.UpstreamTaskFails();
    relay.ClientReceives();
  }

  /** Both tasks have a frame on its way. */
  method BothSend(relay: Relay, frame: Frame, other: Bytes)
    requires relay.Valid() && relay.phase.Relaying? && relay.toUpstream.Receiving? && relay.toClient.Receiving?
    modifies relay`fromUpstream, relay`toClient, relay`fromClient, relay`toUpstream
    ensures relay.Valid() && relay.toUpstream == Sending(Binary(other)) && relay.toClient == Sending(frame)
  {
    relay.UpstreamDelivers(frame);
    relay.ClientDelivers(Receive(Some(other), None));
  }

  /** A whole run in which a frame follows the close. */
  method FrameFollowsClose(frame: Frame, other: Bytes) returns (relay: Relay)
    ensures fresh(relay) && relay.Valid() && relay.sentClient == [Accept(None), Close(1011), Data(frame)]
  {
    relay := StartedRelay();
    BothSend(relay, frame, other);
    FrameArrivesAfterClose(relay, frame);
  }
}
