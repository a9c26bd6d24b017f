/** The unified ASGI application: the lifespan loop that owns the Streamlit sidecar and bridges the
    inner application's lifespan, beside the guard that HTTP and WebSocket requests pass.  Every
    method is what runs between two awaits, so a run is any sequence of calls. */
module LifespanBridge {
  import opened Wrappers

  /** What the lifespan coroutine waits for. */
  datatype Waiting =
    | NoLifespan
    | ForMessage             // the server's next message
    | ForReply(last: bool)   // a reply to go out; `last` when the coroutine then returns
    | ForStartupPut          // the startup message to enter the inner queue
    | ForYield               // its turn, having let the inner task run
    | ForShutdownPut         // the shutdown message to enter the inner queue
    | ForInner               // the inner task to finish
    | ForShutdownReply       // the shutdown reply to go out, without an inner task
    | ForHook                // the shutdown hook to finish

  datatype InnerTask = NotStarted | Running | Finished

  datatype Message = Startup | Shutdown | Other

  datatype Reply = StartupComplete | StartupFailed | ShutdownComplete

  /** How the startup attempt goes. */
  datatype Launch = TooManyWorkers | PopenRaises | NeverListens | Listens

  datatype Admission = Refused | Entered(p: nat)

  /** A request, with the handle held and the processes alive when it arrived. */
  datatype Visit = Visit(admission: Admission, held: Option<nat>, alive: set<nat>)

  /** The history of a flag, extended when the flag has changed. */
  function Logged(log: seq<bool>, flag: bool): seq<bool> {
    if log != [] && log[|log| - 1] == flag then log else log + [flag]
  }

  /** What happened: the processes terminated and those seen to have exited, and the requests; and, in
      the current lifespan, the processes spawned before it, the box, what the inner application was
      sent and has received, all replies, and those that are not the inner application's. */
  datatype Log = Log(
    terminated: set<nat>, seenDead: set<nat>, visits: seq<Visit>, spawnedBefore: nat, boxLog: seq<bool>,
    forwarded: seq<Message>, received: seq<Message>, replies: seq<Reply>, own: seq<Reply>)

  /** What one of the bridge's own replies adds. */
  function Said(log: Log, reply: Reply): Log { log.(replies := log.replies + [reply], own := log.own + [reply]) }

  /** What letting go of a terminated sidecar adds. */
  function Released(log: Log, held: Option<nat>): Log {
    if held.Some? then log.(terminated := log.terminated + {held.value}, boxLog := log.boxLog + [false]) else log
  }

  /** A step of the lifespan logs what it does to the box, and only adds to the rest. */
  ghost predicate Extends(before: Log, after: Log, boxSet: bool) {
    && after.boxLog == Logged(before.boxLog, boxSet)
    && after.visits == before.visits && after.spawnedBefore == before.spawnedBefore && after.seenDead == before.seenDead
    && before.forwarded <= after.forwarded && after.received == before.received
    && before.replies <= after.replies && before.own <= after.own && before.terminated <= after.terminated
  }

  // ----- What every step keeps -----

  /** The box names the sidecar exactly while a handle is held. */
  ghost predicate BoxFollowsHandle(url: string, upstreamUrl: string, streamlitProc: Option<nat>) {
    url != "" && upstreamUrl == if streamlitProc.Some? then url else ""
  }

  /** Every process spawned so far is held, or was terminated, or was seen to have exited. */
  ghost predicate NothingLeaks(spawned: nat, streamlitProc: Option<nat>, terminated: set<nat>, seenDead: set<nat>,
                               alive: set<nat>)
  {
    && (forall p: nat | p < spawned :: streamlitProc == Some(p) || p in terminated || p in seenDead)
    && (streamlitProc.Some? ==>
          && streamlitProc.value < spawned
          && streamlitProc.value !in terminated && streamlitProc.value !in seenDead)
    && (forall p | p in terminated || p in seenDead || p in alive :: p < spawned)
    && seenDead !! alive
  }

  /** Within one lifespan the box goes empty, set, empty, and no further. */
  ghost predicate BoxSetAtMostOnce(boxLog: seq<bool>, streamlitProc: Option<nat>, innerTask: InnerTask, at: Waiting) {
    && boxLog <= [false, true, false]
    && boxLog != [] && boxLog[|boxLog| - 1] == streamlitProc.Some?
    && (innerTask.NotStarted? ==> boxLog == [false])
    && (LetsGo(at) ==> streamlitProc.None?)
  }

  /** A lifespan spawns at most one sidecar. */
  ghost predicate SpawnsAtMostOnce(spawnedBefore: nat, spawned: nat, at: Waiting, innerTask: InnerTask) {
    && spawnedBefore <= spawned <= spawnedBefore + 1
    && (at.ForMessage? && innerTask.NotStarted? ==> spawned == spawnedBefore)
  }

  /** The bridge has reported a failed startup itself. */
  ghost predicate SaysFailed(own: seq<Reply>) { own != [] && own[|own| - 1] == StartupFailed }

  /** The lifespan has let go of the sidecar it launched. */
  predicate LetsGo(at: Waiting) { at.NoLifespan? || at == ForReply(true) || at.ForHook? }

  /** Once the inner application was started, the sidecar is held until the lifespan lets go of it or a
      request sees its exit, whatever the inner application does. */
  ghost predicate HeldUntilLetGo(spawnedBefore: nat, spawned: nat, streamlitProc: Option<nat>, at: Waiting,
                                 innerTask: InnerTask, seenDead: set<nat>)
  {
    !innerTask.NotStarted? ==>
      && spawned == spawnedBefore + 1
      && streamlitProc == if LetsGo(at) || spawnedBefore in seenDead then None else Some(spawnedBefore)
  }

  /** The lifespan lets go of it with the bridge's own report of a failed startup, or after the shutdown. */
  ghost predicate LetsGoAtTheEnd(at: Waiting, innerTask: InnerTask, own: seq<Reply>, forwarded: seq<Message>) {
    !innerTask.NotStarted? ==>
      (LetsGo(at) <==> SaysFailed(own) || (forwarded == [Startup, Shutdown] && !at.ForInner?))
  }

  /** After the yield the bridge has reported a failed startup exactly if the inner application had ended
      by then. */
  ghost predicate FailsIffEndedEarly(at: Waiting, innerTask: InnerTask, own: seq<Reply>, ended: Option<Waiting>) {
    && (innerTask.Finished? <==> ended.Some?)
    && (at.ForStartupPut? || at.ForYield? ==> ended in {None, Some(ForStartupPut), Some(ForYield)})
    && (!innerTask.NotStarted? && !at.ForStartupPut? && !at.ForYield? ==>
          (SaysFailed(own) <==> ended == Some(ForStartupPut) || ended == Some(ForYield)))
  }

  /** The inner application is sent startup once, then shutdown once. */
  ghost predicate ForwardsInOrder(at: Waiting, innerTask: InnerTask, forwarded: seq<Message>) {
    match at
    case NoLifespan => forwarded <= [Startup, Shutdown]
    case ForMessage => forwarded == if innerTask.NotStarted? then [] else [Startup]
    case ForReply(last) => if last then forwarded <= [Startup] else !innerTask.NotStarted? && forwarded == [Startup]
    case ForStartupPut => !innerTask.NotStarted? && forwarded == []
    case ForYield => !innerTask.NotStarted? && forwarded == [Startup]
    case ForShutdownPut => !innerTask.NotStarted? && forwarded == [Startup]
    case ForInner => !innerTask.NotStarted? && forwarded == [Startup, Shutdown]
    case ForShutdownReply => innerTask.NotStarted? && forwarded == []
    case ForHook => forwarded <= [Startup, Shutdown]
  }

  /** What was sent to it has been received, or waits in the queue, in order. */
  ghost predicate DeliversInOrder(received: seq<Message>, queue: seq<Message>, forwarded: seq<Message>) {
    received + queue == forwarded
  }

  /** The lifespan coroutine never leaves a running inner application behind. */
  ghost predicate InnerIsAwaited(at: Waiting, innerTask: InnerTask) {
    LetsGo(at) ==> !innerTask.Running?
  }

  /** The bridge's own last word, a failure or the end of the shutdown, is said at most once. */
  ghost predicate LastWordOnce(own: seq<Reply>, at: Waiting) {
    && (forall i | 0 <= i < |own| - 1 :: own[i].StartupComplete?)
    && (own != [] && !own[|own| - 1].StartupComplete? ==>
          at == ForReply(true) || at.ForShutdownReply? || at.ForHook? || at.NoLifespan?)
  }

  /** Letting go of a terminated sidecar keeps both. */
  lemma ReleaseKeeps(log: Log, held: Option<nat>, spawned: nat, alive: set<nat>, innerTask: InnerTask, at: Waiting,
                     next: Waiting)
    requires NothingLeaks(spawned, held, log.terminated, log.seenDead, alive)
    requires BoxSetAtMostOnce(log.boxLog, held, innerTask, at)
    ensures var after := Released(log, held);
            && NothingLeaks(spawned, None, after.terminated, after.seenDead, alive)
            && BoxSetAtMostOnce(after.boxLog, None, innerTask, next)
            && Extends(log, after, false)
  {
  }

  /** So does dropping a handle whose process has exited. */
  lemma SeenDeadKeeps(log: Log, p: nat, spawned: nat, alive: set<nat>, innerTask: InnerTask, at: Waiting)
    requires NothingLeaks(spawned, Some(p), log.terminated, log.seenDead, alive) && p !in alive
    requires BoxSetAtMostOnce(log.boxLog, Some(p), innerTask, at)
    requires HeldUntilLetGo(log.spawnedBefore, spawned, Some(p), at, innerTask, log.seenDead)
    ensures NothingLeaks(spawned, None, log.terminated, log.seenDead + {p}, alive)
    ensures BoxSetAtMostOnce(log.boxLog + [false], None, innerTask, at)
    ensures HeldUntilLetGo(log.spawnedBefore, spawned, None, at, innerTask, log.seenDead + {p})
  {
  }

  /** Forwarding a message in its turn keeps the order. */
  lemma ForwardKeeps(log: Log, queue: seq<Message>, at: Waiting, innerTask: InnerTask, message: Message, boxSet: bool)
    requires (at.ForStartupPut? && message.Startup?) || (at.ForShutdownPut? && message.Shutdown?)
    requires ForwardsInOrder(at, innerTask, log.forwarded) && DeliversInOrder(log.received, queue, log.forwarded)
    requires log.boxLog != [] && log.boxLog[|log.boxLog| - 1] == boxSet
    ensures var after := log.(forwarded := log.forwarded + [message]);
            && ForwardsInOrder(if message.Startup? then ForYield else ForInner, innerTask, after.forwarded)
            && DeliversInOrder(after.received, queue + [message], after.forwarded)
            && Extends(log, after, boxSet)
  {
    assert log.received + (queue + [message]) == (log.received + queue) + [message];
  }

  /** What a wait of the lifespan coroutine leads to: where it waits next, what is logged, held and queued. */
  ghost predicate LeadsTo(innerTask: InnerTask, before: Waiting, after: Waiting, log: Log, log': Log,
                          held: Option<nat>, held': Option<nat>, queue: seq<Message>, queue': seq<Message>)
  {
    match before
    case ForReply(last) =>
      after == (if last then NoLifespan else ForMessage) && log' == log && held' == held && queue' == queue
    case ForStartupPut =>
      after == ForYield && log' == log.(forwarded := log.forwarded + [Startup]) && held' == held
      && queue' == queue + [Startup]
    case ForYield =>
      if innerTask.Finished? then
        after == ForReply(true) && log' == Said(Released(log, held), StartupFailed) && held' == None && queue' == queue
      else
        after == ForMessage && log' == log && held' == held && queue' == queue
    case ForShutdownPut =>
      after == ForInner && log' == log.(forwarded := log.forwarded + [Shutdown]) && held' == held
      && queue' == queue + [Shutdown]
    case ForInner => after == ForHook && log' == Released(log, held) && held' == None && queue' == queue
    case ForShutdownReply => after == ForHook && log' == Released(log, held) && held' == None && queue' == queue
    case ForHook => after == NoLifespan && log' == log && held' == held && queue' == queue
    case _ => false
  }

  /** A request may enter exactly when a handle is held whose process is alive. */
  function Guard(held: Option<nat>, alive: set<nat>): Admission {
    if held.Some? && held.value in alive then Entered(held.value) else Refused
  }

  /** Requests have entered the gateway exactly when the handle held was alive. */
  ghost predicate AdmitsOnlyLive(visits: seq<Visit>) {
    forall v | v in visits :: v.admission == Guard(v.held, v.alive)
  }

  class Bridge {
    const url: string
    // the closure's shared variables
    var streamlitProc: Option<nat>
    var upstreamUrl: string
    // the lifespan coroutine and its inner task
    var at: Waiting
    var innerTask: InnerTask
    var queue: seq<Message>
    // the operating system: processes are numbered as they are spawned
    var spawned: nat
    var alive: set<nat>
    ghost var log: Log
    ghost var ended: Option<Waiting>   // what the coroutine waited for when the inner task ended

    ghost predicate Valid()
      reads this
    {
      && BoxFollowsHandle(url, upstreamUrl, streamlitProc)
      && NothingLeaks(spawned, streamlitProc, log.terminated, log.seenDead, alive)
      && BoxSetAtMostOnce(log.boxLog, streamlitProc, innerTask, at)
      && SpawnsAtMostOnce(log.spawnedBefore, spawned, at, innerTask)
      && HeldUntilLetGo(log.spawnedBefore, spawned, streamlitProc, at, innerTask, log.seenDead)
      && LetsGoAtTheEnd(at, innerTask, log.own, log.forwarded)
      && FailsIffEndedEarly(at, innerTask, log.own, ended)
      && ForwardsInOrder(at, innerTask, log.forwarded)
      && DeliversInOrder(log.received, queue, log.forwarded)
      && InnerIsAwaited(at, innerTask)
      && LastWordOnce(log.own, at)
      && AdmitsOnlyLive(log.visits)
    }

    constructor (url: string)
      requires url != ""
      ensures Valid() && at.NoLifespan? && streamlitProc.None? && spawned == 0 && alive == {} && log.visits == []
    {
      this.url := url;
      streamlitProc, upstreamUrl := None, "";
      at, innerTask, queue := NoLifespan, NotStarted, [];
      spawned, alive := 0, {};
      log, ended := Log({}, {}, [], 0, [false], [], [], [], []), None;
    }

    // ----- The lifespan coroutine -----

    method BeginLifespan()
      requires Valid() && at.NoLifespan?
      modifies this`at, this`innerTask, this`queue, this`log, this`ended
      ensures Valid() && at.ForMessage? && innerTask.NotStarted? && queue == []
      ensures log == Log(old(log).terminated, old(log).seenDead, old(log).visits, spawned, [false], [], [], [], [])
    {
      at, innerTask, queue := ForMessage, NotStarted, [];
      log, ended := Log(log.terminated, log.seenDead, log.visits, spawned, [false], [], [], [], []), None;
    }

    /** Empties the box and lets go of the sidecar after terminating it. */
    method ReleaseSidecar()
      modifies this`upstreamUrl, this`streamlitProc, this`log
      ensures upstreamUrl == "" && streamlitProc.None? && log == Released(old(log), old(streamlitProc))
    {
      upstreamUrl := "";
      if streamlitProc.Some? {
        log := Released(log, streamlitProc);
        streamlitProc := None;
      }
    }

    method ReceiveStartup(launch: Launch)
      requires Valid() && at.ForMessage?
      modifies this`streamlitProc, this`alive, this`spawned, this`upstreamUrl, this`log, this`innerTask, this`at
      ensures Valid() && Extends(old(log), log, upstreamUrl != "")
      ensures !old(innerTask).NotStarted? ==>
                && at == ForReply(false) && log == Said(old(log), StartupComplete)
                && streamlitProc == old(streamlitProc) && spawned == old(spawned) && innerTask == old(innerTask)
      ensures old(innerTask).NotStarted? && !launch.Listens? ==>
                && at == ForReply(true) && log.replies == old(log.replies) + [StartupFailed]
                && streamlitProc.None? && log.boxLog == [false] && innerTask.NotStarted?
                && spawned == old(spawned) + if launch.NeverListens? then 1 else 0
      ensures old(innerTask).NotStarted? && launch.Listens? ==>
                && at.ForStartupPut? && innerTask.Running? && spawned == old(spawned) + 1
                && streamlitProc == Some(old(spawned)) && log == old(log).(boxLog := [false, true])
    {
      if !innerTask.NotStarted? {
        Acknowledges();
      } else if launch.TooManyWorkers? {
        Refuses();
      } else if launch.Listens? {
        Launches();
      } else {
        FailsToLaunch(launch);
      }
    }

    /** A repeated startup is acknowledged. */
    method Acknowledges()
      requires Valid() && at.ForMessage? && !innerTask.NotStarted?
      modifies this`at, this`log
      ensures Valid() && at == ForReply(false) && log == Said(old(log), StartupComplete)
    {
      Say(StartupComplete, false);
    }

    /** Several workers cannot share one sidecar. */
    method Refuses()
      requires Valid() && at.ForMessage? && innerTask.NotStarted?
      modifies this`at, this`log
      ensures Valid() && at == ForReply(true) && log == Said(old(log), StartupFailed)
    {
      Say(StartupFailed, true);
    }

    method Spawns()
      modifies this`streamlitProc, this`alive, this`spawned
      ensures streamlitProc == Some(old(spawned)) && alive == old(alive) + {old(spawned)} && spawned == old(spawned) + 1
    {
      streamlitProc, alive, spawned := Some(spawned), alive + {spawned}, spawned + 1;
    }

    /** The process is spawned and listens: the box is set and the inner application started. */
    method Launches()
      requires Valid() && at.ForMessage? && innerTask.NotStarted?
      modifies this`streamlitProc, this`alive, this`spawned, this`upstreamUrl, this`log, this`innerTask, this`at
      ensures Valid() && Extends(old(log), log, upstreamUrl != "")
      ensures at.ForStartupPut? && streamlitProc == Some(old(spawned)) && innerTask.Running?
      ensures alive == old(alive) + {old(spawned)}
      ensures log == old(log).(boxLog := [false, true]) && spawned == old(spawned) + 1
    {
      Spawns();
      upstreamUrl := url;
      assert log.boxLog + [true] == [false, true];
      log := log.(boxLog := log.boxLog + [true]);
      innerTask := Running;
      at := ForStartupPut;
    }

    /** The except branch: a process that was spawned is terminated, and the box was never set. */
    method FailsToLaunch(launch: Launch)
      requires Valid() && at.ForMessage? && innerTask.NotStarted? && (launch.PopenRaises? || launch.NeverListens?)
      modifies this`streamlitProc, this`alive, this`spawned, this`upstreamUrl, this`log, this`at
      ensures Valid() && Extends(old(log), log, upstreamUrl != "")
      ensures at == ForReply(true) && log.replies == old(log.replies) + [StartupFailed]
      ensures streamlitProc.None? && log.boxLog == [false]
      ensures if launch.PopenRaises? then spawned == old(spawned) && log.terminated == old(log.terminated)
              else spawned == old(spawned) + 1 && log.terminated == old(log.terminated) + {old(spawned)}
    {
      if launch.NeverListens? { Spawns(); }
      if streamlitProc.Some? {
        log := log.(terminated := log.terminated + {streamlitProc.value});
        streamlitProc := None;
      }
      upstreamUrl := "";
      Say(StartupFailed, true);
    }

    /** One of the bridge's own replies. */
    method Say(reply: Reply, last: bool)
      modifies this`at, this`log
      ensures at == ForReply(last) && log == Said(old(log), reply)
    {
      log := Said(log, reply);
      at := ForReply(last);
    }

    method ReceiveShutdown()
      requires Valid() && at.ForMessage?
      modifies this`at, this`log
      ensures Valid() && Extends(old(log), log, upstreamUrl != "") && streamlitProc == old(streamlitProc)
      ensures if innerTask.NotStarted? then at.ForShutdownReply? && log == Said(old(log), ShutdownComplete)
              else at.ForShutdownPut? && log == old(log)
    {
      if innerTask.NotStarted? {
        Say(ShutdownComplete, true);
        at := ForShutdownReply;
      } else {
        at := ForShutdownPut;
      }
    }

    /** The coroutine goes on from wherever it waits, other than for a message; from waiting for the
        inner task only once that task has finished.  The inner task is left alone. */
    method Resume()
      requires Valid() && !at.NoLifespan? && !at.ForMessage? && (at.ForInner? ==> innerTask.Finished?)
      modifies this`at, this`queue, this`log, this`upstreamUrl, this`streamlitProc
      ensures Valid() && Extends(old(log), log, upstreamUrl != "")
      ensures LeadsTo(innerTask, old(at), at, old(log), log, old(streamlitProc), streamlitProc, old(queue), queue)
    {
      match at
      case ForReply(last) => GoesOn(if last then NoLifespan else ForMessage);
      case ForStartupPut => Forwards(Startup);
      case ForYield => AfterYield();
      case ForShutdownPut => Forwards(Shutdown);
      case ForInner => AfterShutdown();
      case ForShutdownReply => AfterShutdown();
      case ForHook => GoesOn(NoLifespan);
    }

    method GoesOn(next: Waiting)
      requires Valid() && (at.ForHook? || at.ForReply?)
      requires next == if at == ForReply(false) then ForMessage else NoLifespan
      modifies this`at
      ensures Valid() && at == next && Extends(log, log, upstreamUrl != "")
    {
      at := next;
    }

    method Forwards(message: Message)
      requires Valid() && ((at.ForStartupPut? && message.Startup?) || (at.ForShutdownPut? && message.Shutdown?))
      modifies this`queue, this`log, this`at
      ensures Valid() && Extends(old(log), log, upstreamUrl != "")
      ensures log == old(log).(forwarded := old(log).forwarded + [message]) && queue == old(queue) + [message]
      ensures at == if message.Startup? then ForYield else ForInner
    {
      ForwardKeeps(log, queue, at, innerTask, message, upstreamUrl != "");
      queue, log := queue + [message], log.(forwarded := log.forwarded + [message]);
      at := if message.Startup? then ForYield else ForInner;
    }

    /** Whether the inner application survived its startup. */
    method AfterYield()
      requires Valid() && at.ForYield?
      modifies this`upstreamUrl, this`streamlitProc, this`log, this`at
      ensures Valid() && Extends(old(log), log, upstreamUrl != "") && spawned == old(spawned)
      ensures innerTask == old(innerTask) && (SaysFailed(log.own) <==> innerTask.Finished?)
      ensures if innerTask.Finished?
              then at == ForReply(true) && streamlitProc.None?
                   && log == Said(Released(old(log), old(streamlitProc)), StartupFailed)
              else at.ForMessage? && streamlitProc == old(streamlitProc) && log == old(log)
    {
      if innerTask.Finished? {
        ReleaseKeeps(log, streamlitProc, spawned, alive, innerTask, at, ForReply(true));
        ReleaseSidecar();
        Say(StartupFailed, true);
      } else {
        at := ForMessage;
      }
    }

    /** The `finally` block of the shutdown. */
    method AfterShutdown()
      requires Valid() && ((at.ForInner? && innerTask.Finished?) || at.ForShutdownReply?)
      modifies this`upstreamUrl, this`streamlitProc, this`log, this`at
      ensures Valid() && Extends(old(log), log, upstreamUrl != "") && spawned == old(spawned)
      ensures at.ForHook? && streamlitProc.None? && log == Released(old(log), old(streamlitProc))
    {
      ReleaseKeeps(log, streamlitProc, spawned, alive, innerTask, at, ForHook);
      ReleaseSidecar();
      at := ForHook;
    }

    // ----- The inner application -----

    /** The inner application takes the next message, if there is one: overall, it receives what the
        bridge forwards, in order. */
    method InnerReceives() returns (message: Option<Message>)
      requires Valid() && innerTask.Running?
      modifies this`queue, this`log
      ensures Valid() && log.received <= log.forwarded
      ensures message.None? <==> old(log.received) == log.forwarded
      ensures queue == if old(queue) == [] then [] else old(queue)[1..]
      ensures log == old(log).(received := old(log.received) + if message.Some? then [message.value] else [])
    {
      message := None;
      if queue != [] {
        message, queue := Some(queue[0]), queue[1..];
        log := log.(received := log.received + [message.value]);
      }
    }

    /** Its replies pass through; they are not the bridge's own. */
    method InnerSends(reply: Reply)
      requires Valid() && innerTask.Running?
      modifies this`log
      ensures Valid() && log == old(log).(replies := old(log.replies) + [reply])
    {
      log := log.(replies := log.replies + [reply]);
    }

    method InnerFinishes()
      requires Valid() && innerTask.Running?
      modifies this`innerTask, this`ended
      ensures Valid() && innerTask.Finished? && ended == Some(at)
    {
      innerTask, ended := Finished, Some(at);
    }

    // ----- Requests and the sidecar -----

    /** The guard of an HTTP or WebSocket request.  The gateway is entered exactly when a handle is
        held and polled alive; otherwise box and handle are dropped, a handle only because its
        process was seen to have exited. */
    method Request() returns (admission: Admission)
      requires Valid()
      modifies this`upstreamUrl, this`streamlitProc, this`log
      ensures Valid()
      ensures admission == Guard(old(streamlitProc), alive)
      ensures admission.Entered? ==> streamlitProc == old(streamlitProc)
      ensures admission.Refused? ==> streamlitProc.None? && upstreamUrl == ""
      ensures admission.Refused? && old(streamlitProc).Some? ==>
                old(streamlitProc).value !in alive && log.seenDead == old(log.seenDead) + {old(streamlitProc).value}
      ensures log.visits == old(log.visits) + [Visit(admission, old(streamlitProc), alive)]
      ensures log.boxLog == Logged(old(log.boxLog), upstreamUrl != "")
      ensures log == old(log).(visits := log.visits, boxLog := log.boxLog, seenDead := log.seenDead)
    {
      var u := upstreamUrl;
      log := log.(visits := log.visits + [Visit(Guard(streamlitProc, alive), streamlitProc, alive)]);
      if u == "" || (streamlitProc.Some? && streamlitProc.value !in alive) {
        upstreamUrl := "";
        if streamlitProc.Some? {
          SeenDeadKeeps(log, streamlitProc.value, spawned, alive, innerTask, at);
          log := log.(seenDead := log.seenDead + {streamlitProc.value}, boxLog := log.boxLog + [false]);
        }
        streamlitProc := None;
        return Refused;
      }
      admission := Entered(streamlitProc.value);
    }

    method SidecarExits(p: nat)
      requires Valid()
      modifies this`alive
      ensures Valid() && alive == old(alive) - {p}
    {
      alive := alive - {p};
    }
  }

  // ----- Every run -----

  datatype Choice =
    | LifespanStarts | MessageArrives(message: Message, launch: Launch) | CoroutineResumes
    | InnerTakes | InnerReplies(reply: Reply) | InnerEnds
    | RequestArrives | ProcessExits(p: nat)

  /** Makes one choice, or skips it when it is not possible; a request has an outcome. */
  method Choose(bridge: Bridge, choice: Choice) returns (outcome: Option<Admission>)
    requires bridge.Valid()
    modifies bridge
    ensures bridge.Valid() && (outcome.Some? <==> choice.RequestArrives?)
    ensures |bridge.log.visits| == |old(bridge.log.visits)| + if outcome.Some? then 1 else 0
    ensures old(bridge.log.visits) <= bridge.log.visits
    ensures outcome.Some? ==> bridge.log.visits[|bridge.log.visits| - 1].admission == outcome.value
    ensures choice.InnerEnds? && old(bridge.innerTask).Running? ==> bridge.ended == Some(old(bridge.at))
    ensures !choice.InnerEnds? && !choice.LifespanStarts? ==> bridge.ended == old(bridge.ended)
  {
    outcome := None;
    match choice {
      case RequestArrives =>
        var a := bridge.Request();
        outcome := Some(a);
      case ProcessExits(p) => bridge.SidecarExits(p);
      case InnerTakes => InnerChooses(bridge, choice);
      case InnerReplies(_) => InnerChooses(bridge, choice);
      case InnerEnds => InnerChooses(bridge, choice);
      case _ => LifespanChooses(bridge, choice);
    }
  }

  method LifespanChooses(bridge: Bridge, choice: Choice)
    requires bridge.Valid() && (choice.LifespanStarts? || choice.MessageArrives? || choice.CoroutineResumes?)
    modifies bridge
    ensures bridge.Valid() && bridge.log.visits == old(bridge.log.visits)
    ensures old(bridge.at).NoLifespan? && choice.LifespanStarts? ==> bridge.at.ForMessage?
    ensures old(bridge.at).ForMessage? && choice.MessageArrives? && !choice.message.Other? ==> !bridge.at.ForMessage?
    ensures !choice.LifespanStarts? ==> bridge.ended == old(bridge.ended)
    ensures choice.CoroutineResumes? && !old(bridge.at).NoLifespan? && !old(bridge.at).ForMessage? ==>
              bridge.at != old(bridge.at) || (bridge.at.ForInner? && !bridge.innerTask.Finished?)
  {
    match choice {
      case LifespanStarts => if bridge.at.NoLifespan? { bridge.BeginLifespan(); }
      case MessageArrives(message, launch) => if bridge.at.ForMessage? { Receives(bridge, message, launch); }
      case CoroutineResumes =>
        if !bridge.at.NoLifespan? && !bridge.at.ForMessage? && (bridge.at.ForInner? ==> bridge.innerTask.Finished?) {
          Resumes(bridge);
        }
    }
  }

  method Receives(bridge: Bridge, message: Message, launch: Launch)
    requires bridge.Valid() && bridge.at.ForMessage?
    modifies bridge
    ensures bridge.Valid() && bridge.log.visits == old(bridge.log.visits) && bridge.ended == old(bridge.ended)
    ensures !message.Other? ==> !bridge.at.ForMessage?
  {
    if message.Startup? { bridge.ReceiveStartup(launch); }
    else if message.Shutdown? { bridge.ReceiveShutdown(); }
  }

  method Resumes(bridge: Bridge)
    requires bridge.Valid() && !bridge.at.NoLifespan? && !bridge.at.ForMessage?
    requires bridge.at.ForInner? ==> bridge.innerTask.Finished?
    modifies bridge
    ensures bridge.Valid() && bridge.log.visits == old(bridge.log.visits) && bridge.ended == old(bridge.ended)
    ensures bridge.at != old(bridge.at)
  {
    bridge.Resume();
  }

  method InnerChooses(bridge: Bridge, choice: Choice)
    requires bridge.Valid() && (choice.InnerTakes? || choice.InnerReplies? || choice.InnerEnds?)
    modifies bridge`innerTask, bridge`queue, bridge`log, bridge`ended
    ensures bridge.Valid() && bridge.log.visits == old(bridge.log.visits)
    ensures choice.InnerTakes? && bridge.innerTask.Running? && old(bridge.queue) != [] ==>
              bridge.queue == old(bridge.queue)[1..]
    ensures choice.InnerReplies? && bridge.innerTask.Running? ==>
              bridge.log.replies == old(bridge.log.replies) + [choice.reply]
    ensures choice.InnerEnds? && old(bridge.innerTask).Running? ==> bridge.ended == Some(old(bridge.at))
    ensures !choice.InnerEnds? ==> bridge.ended == old(bridge.ended)
  {
    if bridge.innerTask.Running? {
      match choice {
        case InnerTakes => var _ := bridge.InnerReceives();
        case InnerReplies(reply) => bridge.InnerSends(reply);
        case InnerEnds => bridge.InnerFinishes();
      }
    }
  }

  /** Runs an arbitrary interleaving.  `admissions` are the outcomes of the requests: each entered the
      gateway exactly when the handle held was alive, and entered with that process.  The rest holds at
      every moment: the box is set iff a handle is held; every process spawned is held, was terminated
      or was seen dead; within the lifespan the box went empty, set, empty at most, one process was
      spawned at most, and the inner application received startup, then shutdown, at most.  Once the
      inner application was started, nothing is held exactly if the bridge reported that it ended during
      startup, or it has ended after a shutdown, or a request saw the process exited: its own replies,
      and how it ends, do not matter.  A lifespan that is over leaves no inner application running. */
  method RunAll(bridge: Bridge, schedule: seq<Choice>) returns (admissions: seq<Admission>)
    requires bridge.Valid()
    modifies bridge
    ensures bridge.Valid()
    ensures |bridge.log.visits| == |old(bridge.log.visits)| + |admissions|
    ensures old(bridge.log.visits) <= bridge.log.visits
    ensures forall i | 0 <= i < |admissions| ::
              var v := bridge.log.visits[|old(bridge.log.visits)| + i];
              admissions[i] == v.admission == Guard(v.held, v.alive)
    ensures bridge.upstreamUrl != "" <==> bridge.streamlitProc.Some?
    ensures forall p: nat | p < bridge.spawned ::
              bridge.streamlitProc == Some(p) || p in bridge.log.terminated || p in bridge.log.seenDead
    ensures bridge.log.boxLog <= [false, true, false] && bridge.spawned - bridge.log.spawnedBefore <= 1
    ensures bridge.log.received <= [Startup, Shutdown]
    ensures LetsGo(bridge.at) ==> !bridge.innerTask.Running?
    ensures bridge.innerTask.NotStarted? ==> bridge.streamlitProc.None?
    ensures !bridge.innerTask.NotStarted? ==>
              (bridge.streamlitProc.None? <==>
                 || SaysFailed(bridge.log.own)
                 || (bridge.log.forwarded == [Startup, Shutdown] && !bridge.at.ForInner?)
                 || bridge.log.spawnedBefore in bridge.log.seenDead)
    ensures !bridge.innerTask.NotStarted? && !bridge.at.ForStartupPut? && !bridge.at.ForYield? ==>
              (SaysFailed(bridge.log.own) <==>
                 bridge.ended == Some(ForStartupPut) || bridge.ended == Some(ForYield))
  {
    admissions := [];
    ghost var before := bridge.log.visits;
    for i := 0 to |schedule|
      invariant bridge.Valid() && before <= bridge.log.visits && |bridge.log.visits| == |before| + |admissions|
      invariant forall k | 0 <= k < |admissions| :: admissions[k] == bridge.log.visits[|before| + k].admission
    {
      var outcome := Choose(bridge, schedule[i]);
      if outcome.Some? { admissions := admissions + [outcome.value]; }
    }
    ReceivedAreForwarded(bridge.log.received, bridge.queue, bridge.log.forwarded, bridge.at, bridge.innerTask);
  }

  lemma ReceivedAreForwarded(received: seq<Message>, queue: seq<Message>, forwarded: seq<Message>,
                             at: Waiting, innerTask: InnerTask)
    requires ForwardsInOrder(at, innerTask, forwarded) && DeliversInOrder(received, queue, forwarded)
    ensures received <= [Startup, Shutdown]
  {
    assert received <= forwarded <= [Startup, Shutdown];
  }

  // ----- A startup failure after the yield -----

  /** A launched sidecar, and an inner application that has not received its startup yet. */
  method LaunchedBridge(url: string) returns (bridge: Bridge)
    requires url != ""
    ensures fresh(bridge) && bridge.Valid() && bridge.at.ForStartupPut? && bridge.innerTask.Running?
    ensures bridge.streamlitProc == Some(0) && bridge.alive == {0} && bridge.log.replies == []
  {
    bridge := new Bridge(url);
    bridge.BeginLifespan();
    bridge.Launches();
  }

  /** The inner application is still running at the yield: the lifespan waits for the next message. */
  method SurvivesYield(bridge: Bridge)
    requires bridge.Valid() && bridge.at.ForStartupPut? && bridge.innerTask.Running?
    modifies bridge`queue, bridge`log, bridge`at, bridge`upstreamUrl, bridge`streamlitProc
    ensures bridge.Valid() && bridge.at.ForMessage? && bridge.log.replies == old(bridge.log.replies)
    ensures bridge.streamlitProc == old(bridge.streamlitProc)
  {
    bridge.Forwards(Startup);
    bridge.AfterYield();
  }

  /** Then it reports a failed startup, and ends. */
  method FailsLate(bridge: Bridge)
    requires bridge.Valid() && bridge.innerTask.Running?
    modifies bridge`log, bridge`innerTask, bridge`ended
    ensures bridge.Valid() && bridge.innerTask.Finished?
    ensures bridge.log.replies == old(bridge.log.replies) + [StartupFailed]
  {
    bridge.InnerSends(StartupFailed);
    bridge.InnerFinishes();
  }

  method FailedBridge(url: string) returns (bridge: Bridge)
    requires url != ""
    ensures fresh(bridge) && bridge.Valid() && bridge.at.ForMessage? && bridge.innerTask.Finished?
    ensures bridge.log.replies == [StartupFailed] && bridge.streamlitProc == Some(0) && bridge.alive == {0}
  {
    bridge := LaunchedBridge(url);
    SurvivesYield(bridge);
    FailsLate(bridge);
  }

  /** Box and handle are then still set, and requests enter. */
  method FailureLeavesSidecarHeld(url: string) returns (bridge: Bridge, admission: Admission)
    requires url != ""
    ensures fresh(bridge) && bridge.Valid() && bridge.at.ForMessage? && bridge.innerTask.Finished?
    ensures bridge.log.replies == [StartupFailed]
    ensures admission == Entered(0) && bridge.streamlitProc == Some(0) && bridge.upstreamUrl != ""
  {
    bridge := FailedBridge(url);
    admission := bridge.Request();
  }
}
