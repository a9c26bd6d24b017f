/** The monitor thread and the restart callback of `run_unified`, as two program counters whose
    steps interleave.  A step is one access to a shared variable; a step that takes the lock is
    enabled only while the other thread does not hold it. */
module SidecarRestart {

  /** What the monitor does next. */
  datatype MonitorAt =
    | MTest      // look whether the gateway is stopping
    | MRead      // take the process from the box
    | MWait      // wait for that process to exit
    | MFlag      // read the flag, under the lock
    | MDone      // wait for the event, for a limited time
    | MClear     // clear the event
    | MReset     // take the flag down, under the lock
    | MCheck     // look again whether the gateway is stopping
    | MStop      // stop the gateway
    | MReturned

  /** What the restart callback does next. */
  datatype RestarterAt =
    | RIdle
    | RClear     // clear the event, still holding the lock under which the flag was raised
    | RTerminate // terminate the process in the box
    | RSpawn     // find a port and spawn the replacement
    | RAssign    // put the replacement into the box
    | RListen    // wait for the replacement to listen
    | RGiveUp    // terminate the replacement
    | RSetExit   // stop the gateway
    | RWrite     // update the upstream file
    | RFinally   // set the event, under the lock

  /** Processes are numbered in the order they are spawned.  `signalled` holds those a restart
      terminated while they were running, `failed` those whose terminating restart then failed;
      `stale` records that the last restart left the upstream file behind. */
  datatype State = State(
    mon: MonitorAt, watched: nat,
    rst: RestarterAt, spawned: nat,
    box: nat, ports: seq<nat>, alive: set<nat>, signalled: set<nat>, failed: set<nat>,
    intentional: bool, done: bool, shouldExit: bool,
    upstream: nat, stale: bool)

  datatype Action =
    | MonTest | MonRead | MonWake | MonFlag | MonAck | MonTimeout | MonClear | MonReset | MonCheck | MonStop
    | RstBegin | RstClear | RstTerminate | RstSpawn(port: nat) | RstAssign | RstListens | RstTimesOut
    | RstGiveUp | RstSetExit | RstWrite | RstRaises | RstFinish
    | Exit(p: nat) | ServerExits

  function Init(port: nat): State {
    State(MTest, 0, RIdle, 0, 0, [port], {0}, {}, {}, false, false, false, port, false)
  }

  predicate LockFree(s: State) { s.rst != RClear }

  predicate Enabled(s: State, a: Action) {
    match a
    case MonTest => s.mon == MTest
    case MonRead => s.mon == MRead
    case MonWake => s.mon == MWait && s.watched !in s.alive
    case MonFlag => s.mon == MFlag && LockFree(s)
    case MonAck => s.mon == MDone && s.done
    case MonTimeout => s.mon == MDone && !s.done
    case MonClear => s.mon == MClear
    case MonReset => s.mon == MReset && LockFree(s)
    case MonCheck => s.mon == MCheck
    case MonStop => s.mon == MStop
    case RstBegin => s.rst == RIdle
    case RstClear => s.rst == RClear
    case RstTerminate => s.rst == RTerminate
    case RstSpawn(_) => s.rst == RSpawn
    case RstAssign => s.rst == RAssign
    case RstListens => s.rst == RListen
    case RstTimesOut => s.rst == RListen
    case RstGiveUp => s.rst == RGiveUp
    case RstSetExit => s.rst == RSetExit
    case RstWrite => s.rst == RWrite
    case RstRaises => s.rst == RSpawn || s.rst == RListen || s.rst == RWrite
    case RstFinish => s.rst == RFinally
    case Exit(p) => p in s.alive
    case ServerExits => true
  }

  /** `_terminate_process`: a process that has exited already is left alone; one that runs is
      signalled, and exits at some later step. */
  function Terminate(s: State, p: nat): State {
    if p in s.alive then s.(signalled := s.signalled + {p}) else s
  }

  function Next(s: State, a: Action): State {
    match a
    case MonTest => s.(mon := if s.shouldExit then MReturned else MRead)
    case MonRead => s.(mon := MWait, watched := s.box)
    case MonWake => s.(mon := MFlag)
    case MonFlag => s.(mon := if s.intentional then MDone else MCheck)
    case MonAck => s.(mon := MClear)
    case MonTimeout => s.(mon := MReset)
    case MonClear => s.(mon := MReset, done := false)
    case MonReset => s.(mon := MTest, intentional := false)
    case MonCheck => s.(mon := if s.shouldExit then MReturned else MStop)
    case MonStop => s.(mon := MReturned, shouldExit := true)
    case RstBegin => s.(rst := RClear, intentional := true)
    case RstClear => s.(rst := RTerminate, done := false)
    case RstTerminate => Terminate(s, s.box).(rst := RSpawn)
    case RstSpawn(port) =>
      s.(rst := RAssign, spawned := |s.ports|, ports := s.ports + [port], alive := s.alive + {|s.ports|})
    case RstAssign => s.(rst := RListen, box := s.spawned)
    case RstListens => s.(rst := RWrite)
    case RstTimesOut => s.(rst := RGiveUp, stale := true)
    case RstGiveUp => Terminate(s, s.spawned).(rst := RSetExit, failed := s.failed + {s.spawned})
    case RstSetExit => s.(rst := RFinally, shouldExit := true)
    case RstWrite =>
      s.(rst := RFinally, upstream := if s.spawned < |s.ports| then s.ports[s.spawned] else 0, stale := false)
    case RstRaises => if s.rst == RSpawn then s.(rst := RFinally, failed := s.failed + {s.box})
                      else s.(rst := RFinally, stale := true)
    case RstFinish => s.(rst := RIdle, done := true)
    case Exit(p) => s.(alive := s.alive - {p})
    case ServerExits => s.(shouldExit := true)
  }

  // ----- The two hypotheses on an interleaving -----

  /** The restart has been announced but its replacement is not in the box yet. */
  predicate BeforeReplacement(r: RestarterAt) {
    r == RClear || r == RTerminate || r == RSpawn || r == RAssign
  }

  /** Between the return of `done.wait` and the reset of the flag. */
  predicate Acknowledging(m: MonitorAt) { m == MClear || m == MReset }

  /** A restart is not announced while the monitor acknowledges the previous one, and vice versa. */
  predicate AnnouncementsApart(s: State, a: Action) {
    && ((a.RstBegin? || a.RstClear?) ==> !Acknowledging(s.mon))
    && ((a.MonAck? || a.MonTimeout?) ==> s.rst != RClear)
  }

  /** `done.wait` does not time out before the replacement is in the box. */
  predicate Patient(s: State, a: Action) {
    a.MonTimeout? ==> !BeforeReplacement(s.rst)
  }

  predicate OrderlyStep(s: State, a: Action) { AnnouncementsApart(s, a) && Patient(s, a) }

  // ----- Runs -----

  /** An interleaving: the actions of both threads and of the processes, in order. */
  datatype Run = Start(port: nat) | Then(before: Run, action: Action) {
    function Last(): State {
      match this
      case Start(port) => Init(port)
      case Then(before, action) => Next(before.Last(), action)
    }

    ghost predicate Valid() {
      Start? || (before.Valid() && Enabled(before.Last(), action))
    }

    ghost predicate Apart() {
      Start? || (before.Apart() && AnnouncementsApart(before.Last(), action))
    }

    ghost predicate NeverHasty() {
      Start? || (before.NeverHasty() && Patient(before.Last(), action))
    }

    ghost predicate Orderly() { Valid() && Apart() && NeverHasty() }
  }

  // ----- What every orderly step keeps -----

  /** A restart replaces the process: it terminated it and did not fail. */
  ghost predicate Replaced(s: State, p: nat) { p in s.signalled && p !in s.failed }

  /** Every process mentioned has been spawned. */
  ghost predicate Known(s: State) {
    && s.box < |s.ports| && s.spawned < |s.ports| && s.watched < |s.ports|
    && (forall p | p in s.alive :: p < |s.ports|)
    && (forall p | p in s.signalled :: p < |s.ports|)
  }

  ghost predicate FlagAndEvent(s: State) {
    // an announced restart keeps the flag up until its replacement is in the box
    && (BeforeReplacement(s.rst) ==> s.intentional)
    && (s.rst != RIdle && s.rst != RClear ==> !s.done)
    // an idle restarter that left the flag up has set the event, or is being acknowledged
    && (s.rst == RIdle && s.intentional ==> s.done || s.mon == MReset)
    && (s.mon == MDone || Acknowledging(s.mon) ==> s.intentional)
    && (Acknowledging(s.mon) ==> !BeforeReplacement(s.rst))
  }

  ghost predicate BoxIsCurrent(s: State)
    requires Known(s)
  {
    && (s.rst == RListen || s.rst == RGiveUp || s.rst == RWrite ==> s.box == s.spawned)
    && (s.rst == RAssign ==> s.spawned !in s.signalled)
    && (Replaced(s, s.box) ==> s.rst == RSpawn || s.rst == RAssign)
    && (s.rst != RListen && s.rst != RGiveUp && s.rst != RSetExit && s.rst != RWrite && !s.stale ==>
          s.upstream == s.ports[s.box])
    && (s.rst == RGiveUp || s.rst == RSetExit ==> s.stale)
  }

  ghost predicate WatchedIsExplained(s: State) {
    && (s.mon == MFlag || s.mon == MCheck || s.mon == MStop ==> s.watched !in s.alive)
    // while the monitor waits for a process that a restart replaces, the flag says so
    && ((s.mon == MWait || s.mon == MFlag) && Replaced(s, s.watched) ==> s.intentional)
    && (s.mon == MCheck || s.mon == MStop ==> !Replaced(s, s.watched))
  }

  ghost predicate Invariant(s: State) {
    Known(s) && FlagAndEvent(s) && BoxIsCurrent(s) && WatchedIsExplained(s)
  }

  lemma StepKeepsKnown(s: State, a: Action)
    requires Known(s) && Enabled(s, a)
    ensures Known(Next(s, a))
  {
    match a
    case RstTerminate => TerminateKeepsKnown(s, s.box);
    case RstGiveUp => TerminateKeepsKnown(s, s.spawned);
    case RstSpawn(port) => assert forall p | p in s.alive || p in s.signalled :: p < |s.ports| + 1;
    case _ =>
  }

  lemma TerminateKeepsKnown(s: State, p: nat)
    requires Known(s) && p < |s.ports|
    ensures Known(Terminate(s, p))
  {
  }

  lemma StepKeepsFlagAndEvent(s: State, a: Action)
    requires FlagAndEvent(s) && Enabled(s, a) && OrderlyStep(s, a)
    ensures FlagAndEvent(Next(s, a))
  {
    match a
    case MonAck => assert s.done;
    case _ =>
  }

  lemma StepKeepsBoxIsCurrent(s: State, a: Action)
    requires Known(s) && BoxIsCurrent(s) && Enabled(s, a)
    ensures BoxIsCurrent(Next(s, a))
  {
    if a.RstSpawn? { SpawnKeepsBoxIsCurrent(s, a.port); }
  }

  lemma SpawnKeepsBoxIsCurrent(s: State, port: nat)
    requires Known(s) && BoxIsCurrent(s) && s.rst == RSpawn
    ensures BoxIsCurrent(Next(s, RstSpawn(port)))
  {
    assert |s.ports| !in s.signalled;
  }

  lemma StepKeepsWatchedIsExplained(s: State, a: Action)
    requires Known(s) && FlagAndEvent(s) && BoxIsCurrent(s) && WatchedIsExplained(s) && Enabled(s, a)
    ensures WatchedIsExplained(Next(s, a))
  {
    match a
    case MonRead => assert Replaced(s, s.box) ==> s.intentional;
    case RstTerminate => assert s.intentional;
    case _ =>
  }

  lemma OrderlyStepKeeps(s: State, a: Action)
    requires Invariant(s) && Enabled(s, a) && OrderlyStep(s, a)
    ensures Invariant(Next(s, a))
  {
    StepKeepsKnown(s, a);
    StepKeepsFlagAndEvent(s, a);
    StepKeepsBoxIsCurrent(s, a);
    StepKeepsWatchedIsExplained(s, a);
  }

  lemma {:induction false} OrderlyRunKeeps(run: Run)
    requires run.Orderly()
    ensures Invariant(run.Last())
  {
    if run.Start? {
    } else {
      OrderlyRunKeeps(run.before);
      OrderlyStepKeeps(run.before.Last(), run.action);
    }
  }

  // ----- Safety -----

  /** Along every orderly run, when the monitor stops the gateway, the process it waited for has
      exited, and no restart replaced it: it exited on its own, or the restart that terminated it
      failed. */
  lemma MonitorStopsForGoodReason(run: Run)
    requires run.Orderly() && Enabled(run.Last(), MonStop)
    ensures var s := run.Last();
            s.watched !in s.alive && (s.watched in s.signalled ==> s.watched in s.failed)
    ensures Then(run, MonStop).Last().shouldExit
  {
    OrderlyRunKeeps(run);
  }

  /** Along every orderly run, whenever the restarter is idle and its last restart did not fail,
      the upstream file names the port of the process in the box, and no restart has replaced
      that process. */
  lemma UpstreamNamesTheBox(run: Run)
    requires run.Orderly() && run.Last().rst == RIdle && !run.Last().stale
    ensures var s := run.Last();
            s.box < |s.ports| && s.upstream == s.ports[s.box] && !Replaced(s, s.box)
  {
    OrderlyRunKeeps(run);
  }

  // ----- Continuations -----

  function After(s: State, actions: seq<Action>): State
    decreases actions
  {
    if actions == [] then s else After(Next(s, actions[0]), actions[1..])
  }

  /** Each action is possible when its turn comes. */
  predicate Possible(s: State, actions: seq<Action>)
    decreases actions
  {
    actions == [] || (Enabled(s, actions[0]) && Possible(Next(s, actions[0]), actions[1..]))
  }

  // ----- Bounded response -----

  predicate IsMonitors(a: Action) {
    a.MonTest? || a.MonRead? || a.MonWake? || a.MonFlag? || a.MonAck? || a.MonTimeout? || a.MonClear? || a.MonReset?
    || a.MonCheck? || a.MonStop?
  }

  function MonitorSteps(actions: seq<Action>): nat {
    if actions == [] then 0 else (if IsMonitors(actions[0]) then 1 else 0) + MonitorSteps(actions[1..])
  }

  /** How many rounds of its loop the monitor begins before the gateway is told to stop. */
  function Rounds(s: State, actions: seq<Action>): nat
    decreases actions
  {
    if actions == [] then 0
    else (if actions[0].MonTest? && !s.shouldExit then 1 else 0) + Rounds(Next(s, actions[0]), actions[1..])
  }

  predicate NoRestartBegins(actions: seq<Action>) { forall i | 0 <= i < |actions| :: !actions[i].RstBegin? }

  /** The sidecar is gone, no restart is under way, and the monitor runs. */
  predicate SidecarGone(s: State) {
    s.rst == RIdle && s.box !in s.alive && !s.shouldExit && s.mon != MReturned
  }

  function StepsToStop(s: State): nat {
    match s.mon
    case MTest => if s.intentional then 13 else 6
    case MRead => if s.intentional then 12 else 5
    case MWait => if s.intentional then 11 else 4
    case MFlag => if s.intentional then 10 else 3
    case MDone => 9
    case MClear => 8
    case MReset => 7
    case MCheck => 2
    case MStop => 1
    case MReturned => 0
  }

  function RoundsLeft(s: State): nat {
    (if s.mon == MTest then 1 else 0) + (if s.intentional then 1 else 0)
  }

  /** A step that starts no restart either stops the gateway, or brings the monitor closer to it, or
      is not the monitor's. */
  lemma GoneStepsCloser(s: State, a: Action)
    requires Invariant(s) && SidecarGone(s) && Enabled(s, a) && !a.RstBegin?
    ensures var t := Next(s, a);
            && Invariant(t) && !a.MonTimeout?
            && (t.shouldExit || (SidecarGone(t) && StepsToStop(t) == StepsToStop(s) - if IsMonitors(a) then 1 else 0))
            && (!t.shouldExit ==> RoundsLeft(t) + (if a.MonTest? then 1 else 0) <= RoundsLeft(s))
            && (a.MonTest? ==> !t.shouldExit)
  {
    OrderlyStepKeeps(s, a);
  }

  lemma {:induction false} StopIsForever(s: State, actions: seq<Action>)
    requires s.shouldExit
    ensures After(s, actions).shouldExit && Rounds(s, actions) == 0
    decreases actions
  {
    if actions == [] {
    } else {
      StopIsForever(Next(s, actions[0]), actions[1..]);
    }
  }

  lemma BeginsLater(actions: seq<Action>)
    requires actions != [] && NoRestartBegins(actions)
    ensures !actions[0].RstBegin? && NoRestartBegins(actions[1..])
  {
    assert forall i | 0 <= i < |actions| - 1 :: actions[1..][i] == actions[i + 1];
  }

  /** From any such state, every continuation in which no restart begins stops the gateway by the time
      the monitor has taken that many steps, whatever processes exit in between. */
  lemma {:induction false} MonitorReaches(s: State, actions: seq<Action>)
    requires Invariant(s) && SidecarGone(s) && Possible(s, actions) && NoRestartBegins(actions)
    requires MonitorSteps(actions) >= StepsToStop(s)
    ensures StepsToStop(s) > 0 && After(s, actions).shouldExit
    decreases actions
  {
    if actions == [] {
    } else {
      BeginsLater(actions);
      GoneStepsCloser(s, actions[0]);
      if Next(s, actions[0]).shouldExit {
        StopIsForever(Next(s, actions[0]), actions[1..]);
      } else {
        MonitorReaches(Next(s, actions[0]), actions[1..]);
      }
    }
  }

  lemma {:induction false} RoundsAreBounded(s: State, actions: seq<Action>)
    requires Invariant(s) && SidecarGone(s) && Possible(s, actions) && NoRestartBegins(actions)
    ensures Rounds(s, actions) <= RoundsLeft(s)
    decreases actions
  {
    if actions == [] {
    } else {
      BeginsLater(actions);
      GoneStepsCloser(s, actions[0]);
      if Next(s, actions[0]).shouldExit {
        StopIsForever(Next(s, actions[0]), actions[1..]);
      } else {
        RoundsAreBounded(Next(s, actions[0]), actions[1..]);
      }
    }
  }

  /** If the sidecar has exited while no restart runs and none begins, the gateway is stopped within
      two rounds and thirteen steps of the monitor, whatever else happens meanwhile, and even when a
      restart the monitor never saw left the flag up. */
  lemma MonitorStopsWithinTwoRounds(run: Run, actions: seq<Action>)
    requires run.Orderly() && SidecarGone(run.Last())
    requires Possible(run.Last(), actions) && NoRestartBegins(actions)
    ensures MonitorSteps(actions) >= 13 ==> After(run.Last(), actions).shouldExit
    ensures Rounds(run.Last(), actions) <= 2
  {
    OrderlyRunKeeps(run);
    assert StepsToStop(run.Last()) <= 13;
    if MonitorSteps(actions) >= 13 { MonitorReaches(run.Last(), actions); }
    RoundsAreBounded(run.Last(), actions);
  }

  /** The monitor's next step. */
  function MonitorStep(s: State): Action {
    match s.mon
    case MTest => MonTest
    case MRead => MonRead
    case MWait => MonWake
    case MFlag => MonFlag
    case MDone => if s.done then MonAck else MonTimeout
    case MClear => MonClear
    case MReset => MonReset
    case MCheck => MonCheck
    case MStop => MonStop
    case MReturned => MonTest
  }

  /** And it can always take one, except while the process it waits for has not exited yet. */
  lemma MonitorIsBlockedIff(s: State)
    requires Invariant(s) && SidecarGone(s)
    ensures !Enabled(s, MonitorStep(s)) <==> s.mon == MWait && s.watched in s.alive
  {
  }

  // ----- Exactly the steps that the hypotheses forbid can end in a wrong stop -----

  /** The monitor is about to stop the gateway although a restart is replacing the process. */
  ghost predicate WrongStop(s: State) {
    s.mon == MStop && Replaced(s, s.watched) && BeforeReplacement(s.rst)
  }

  /** No restart is announced, and no wait for the event ends. */
  predicate IsCalm(a: Action) { !a.RstBegin? && !a.MonAck? && !a.MonTimeout? }

  predicate Calm(actions: seq<Action>) { forall i | 0 <= i < |actions| :: IsCalm(actions[i]) }

  /** Calm steps alone can lead from here to a wrong stop. */
  ghost predicate GoesWrong(s: State) {
    exists actions :: Calm(actions) && Possible(s, actions) && WrongStop(After(s, actions))
  }

  /** The sidecar is live, or a restart has just terminated it. */
  predicate SidecarServes(s: State) {
    if s.rst == RSpawn || s.rst == RAssign then s.box in s.signalled && s.box !in s.failed
    else s.box in s.alive && s.box !in s.failed
  }

  lemma {:induction false} CalmKeeps(s: State, actions: seq<Action>)
    requires Invariant(s) && Calm(actions) && Possible(s, actions)
    ensures !WrongStop(After(s, actions))
    decreases actions
  {
    if actions == [] {
    } else {
      var rest := actions[1..];
      assert forall i | 0 <= i < |rest| :: rest[i] == actions[i + 1];
      assert IsCalm(actions[0]);
      OrderlyStepKeeps(s, actions[0]);
      CalmKeeps(Next(s, actions[0]), rest);
    }
  }

  /** On course for a wrong stop: the restart under way has terminated, or will terminate, the process
      that the monitor waits for or will wait for, and the flag is down or about to be taken down. */
  predicate OnCourse(s: State) {
    && BeforeReplacement(s.rst) && !s.shouldExit
    && match s.mon
       case MClear => SidecarServes(s)
       case MReset => SidecarServes(s)
       case MTest => SidecarServes(s) && s.rst != RClear && s.rst != RTerminate && !s.intentional
       case MRead => SidecarServes(s) && s.rst != RClear && s.rst != RTerminate && !s.intentional
       case MWait => s.watched in s.signalled && s.watched !in s.failed && LockFree(s) && !s.intentional
       case MFlag => s.watched in s.signalled && s.watched !in s.failed && LockFree(s) && !s.intentional
       case MCheck => s.watched in s.signalled && s.watched !in s.failed
       case MStop => s.watched in s.signalled && s.watched !in s.failed
       case _ => false
  }

  /** The next step of that course: the restart terminates its process, then the monitor goes on. */
  function CourseStep(s: State): Action {
    if s.rst == RClear then RstClear
    else if s.rst == RTerminate then RstTerminate
    else if s.mon == MWait && s.watched in s.alive then Exit(s.watched)
    else MonitorStep(s)
  }

  function Distance(s: State): nat {
    (match s.rst case RClear => 2 case RTerminate => 1 case _ => 0)
    + match s.mon
      case MClear => 8
      case MReset => 7
      case MTest => 6
      case MRead => 5
      case MWait => if s.watched in s.alive then 4 else 3
      case MFlag => 2
      case MCheck => 1
      case _ => 0
  }

  lemma CourseIsKept(s: State)
    requires OnCourse(s) && !(s.mon == MStop && LockFree(s) && s.rst != RTerminate)
    ensures Enabled(s, CourseStep(s)) && IsCalm(CourseStep(s))
    ensures OnCourse(Next(s, CourseStep(s))) && Distance(Next(s, CourseStep(s))) < Distance(s)
  {
  }

  lemma StepBack(s: State, a: Action)
    requires Enabled(s, a) && IsCalm(a) && GoesWrong(Next(s, a))
    ensures GoesWrong(s)
  {
    var rest :| Calm(rest) && Possible(Next(s, a), rest) && WrongStop(After(Next(s, a), rest));
    var actions := [a] + rest;
    assert actions[1..] == rest;
    assert Calm(actions) && Possible(s, actions) && WrongStop(After(s, actions));
  }

  lemma {:induction false} CourseGoesWrong(s: State)
    requires OnCourse(s)
    ensures GoesWrong(s)
    decreases Distance(s)
  {
    if s.mon == MStop && LockFree(s) && s.rst != RTerminate {
      assert Calm([]) && Possible(s, []) && WrongStop(After(s, []));
    } else {
      CourseIsKept(s);
      CourseGoesWrong(Next(s, CourseStep(s)));
      StepBack(s, CourseStep(s));
    }
  }

  /** After any orderly run, while the gateway is not stopping and the sidecar serves, a step makes a
      wrong stop possible, with calm steps alone, exactly when it is not orderly. */
  lemma GoesWrongIff(run: Run, a: Action)
    requires run.Orderly() && Enabled(run.Last(), a) && !run.Last().shouldExit && SidecarServes(run.Last())
    ensures GoesWrong(Next(run.Last(), a)) <==> !OrderlyStep(run.Last(), a)
  {
    OrderlyRunKeeps(run);
    var s := run.Last();
    if OrderlyStep(s, a) {
      OrderlyStepKeeps(s, a);
      forall actions | Calm(actions) && Possible(Next(s, a), actions) ensures !WrongStop(After(Next(s, a), actions)) {
        CalmKeeps(Next(s, a), actions);
      }
    } else {
      DisorderlyIsOnCourse(s, a);
      CourseGoesWrong(Next(s, a));
    }
  }

  lemma DisorderlyIsOnCourse(s: State, a: Action)
    requires Invariant(s) && Enabled(s, a) && !s.shouldExit && SidecarServes(s) && !OrderlyStep(s, a)
    ensures OnCourse(Next(s, a))
  {
  }

  /** Which steps those are: a restart announced during an acknowledgement, an acknowledgement that
      begins while a restart is being announced, and a wait that times out early. */
  lemma DisorderlyMeans(run: Run, a: Action)
    requires run.Orderly() && Enabled(run.Last(), a)
    ensures !OrderlyStep(run.Last(), a)
       <==> || (a.RstBegin? && Acknowledging(run.Last().mon))
            || (a.MonAck? && run.Last().rst == RClear)
            || (a.MonTimeout? && BeforeReplacement(run.Last().rst))
  {
    OrderlyRunKeeps(run);
  }

  lemma Extend(run: Run, a: Action) returns (longer: Run)
    requires run.Valid() && Enabled(run.Last(), a)
    ensures longer.Valid() && longer.Last() == Next(run.Last(), a)
    ensures longer.Apart() <==> run.Apart() && AnnouncementsApart(run.Last(), a)
    ensures longer.NeverHasty() <==> run.NeverHasty() && Patient(run.Last(), a)
  {
    longer := Then(run, a);
  }

  /** A restart gets as far as terminating the process in the box. */
  lemma Announce(run: Run) returns (longer: Run)
    requires run.Valid() && run.Last().rst == RIdle && run.Last().box in run.Last().alive
    ensures longer.Valid() && longer.NeverHasty() == run.NeverHasty()
    ensures longer.Apart() <==> run.Apart() && !Acknowledging(run.Last().mon)
    ensures var s := run.Last();
            longer.Last() == s.(rst := RSpawn, intentional := true, done := false, signalled := s.signalled + {s.box})
  {
    longer := Extend(run, RstBegin);
    longer := Extend(longer, RstClear);
    longer := Extend(longer, RstTerminate);
  }

  lemma Replace(run: Run, port: nat) returns (longer: Run)
    requires run.Valid() && run.Last().rst == RSpawn
    ensures longer.Valid() && longer.NeverHasty() == run.NeverHasty() && longer.Apart() == run.Apart()
    ensures var s := run.Last();
            longer.Last() == s.(rst := RListen, spawned := |s.ports|, box := |s.ports|, ports := s.ports + [port],
                                alive := s.alive + {|s.ports|})
  {
    longer := Extend(run, RstSpawn(port));
    longer := Extend(longer, RstAssign);
  }

  /** It then completes. */
  lemma Complete(run: Run, port: nat) returns (longer: Run)
    requires run.Valid() && run.Last().rst == RSpawn
    ensures longer.Valid() && longer.NeverHasty() == run.NeverHasty() && longer.Apart() == run.Apart()
    ensures var s := run.Last();
            longer.Last() == s.(rst := RIdle, spawned := |s.ports|, box := |s.ports|, ports := s.ports + [port],
                                alive := s.alive + {|s.ports|}, upstream := port, stale := false, done := true)
  {
    longer := Replace(run, port);
    longer := Extend(longer, RstListens);
    longer := Extend(longer, RstWrite);
    longer := Extend(longer, RstFinish);
  }

  /** The monitor starts a round and waits for the process in the box. */
  lemma Watch(run: Run) returns (longer: Run)
    requires run.Valid() && run.Last().mon == MTest && !run.Last().shouldExit
    ensures longer.Valid() && longer.NeverHasty() == run.NeverHasty() && longer.Apart() == run.Apart()
    ensures longer.Last() == run.Last().(mon := MWait, watched := run.Last().box)
  {
    longer := Extend(run, MonTest);
    longer := Extend(longer, MonRead);
  }

  /** The process it waits for exits, and the monitor looks at the flag. */
  lemma Wake(run: Run) returns (longer: Run)
    requires run.Valid() && run.Last().mon == MWait && LockFree(run.Last())
    ensures longer.Valid() && longer.NeverHasty() == run.NeverHasty() && longer.Apart() == run.Apart()
    ensures var s := run.Last();
            longer.Last() == s.(mon := if s.intentional then MDone else MCheck, alive := s.alive - {s.watched})
  {
    longer := run;
    if run.Last().watched in run.Last().alive {
      longer := Extend(longer, Exit(run.Last().watched));
    }
    assert longer.Last() == run.Last().(alive := run.Last().alive - {run.Last().watched});
    longer := Extend(longer, MonWake);
    longer := Extend(longer, MonFlag);
  }

  /** The monitor takes no restart for under way, and is about to stop the gateway. */
  lemma WatchAndGiveUp(run: Run) returns (longer: Run)
    requires run.Valid() && LockFree(run.Last())
    requires run.Last().mon == MTest && !run.Last().shouldExit && !run.Last().intentional
    ensures longer.Valid() && longer.NeverHasty() == run.NeverHasty() && longer.Apart() == run.Apart()
    ensures var s := run.Last();
            longer.Last() == s.(mon := MStop, watched := s.box, alive := s.alive - {s.box})
  {
    longer := Watch(run);
    longer := Wake(longer);
    longer := Extend(longer, MonCheck);
  }

  /** The first process is being replaced: the monitor has seen it exit, and the flag is up. */
  lemma FirstRestart() returns (run: Run)
    ensures run.Valid() && run.NeverHasty() && run.Apart()
    ensures run.Last() == State(MDone, 0, RSpawn, 0, 0, [10], {}, {0}, {}, true, false, false, 10, false)
  {
    run := Watch(Start(10));
    run := Announce(run);
    run := Wake(run);
    assert {0} - {0} == {};
  }

  /** A second restart is announced after the monitor saw the event of the first. */
  lemma SecondRestart() returns (run: Run)
    ensures run.Valid() && run.NeverHasty() && !run.Apart()
    ensures var s := run.Last();
            && s.mon == MReset && s.rst == RSpawn && s.box == 1 && s.alive == {1} && s.signalled == {0, 1}
            && s.failed == {} && s.intentional && !s.shouldExit
  {
    run := FirstRestart();
    run := Complete(run, 11);
    run := Extend(run, MonAck);
    run := Extend(run, MonClear);
    run := Announce(run);
  }

  /** A second restart announced while the monitor acknowledges the first makes the monitor stop
      the gateway in the middle of a good restart, with no timeout involved. */
  lemma OverlapStopsTheGateway()
    ensures exists run: Run :: run.Valid() && run.NeverHasty() && !run.Apart() && WrongStop(run.Last())
  {
    var run := SecondRestart();
    run := Extend(run, MonReset);
    run := WatchAndGiveUp(run);
    assert WrongStop(run.Last());
  }

  /** So does a wait for the event that times out before the replacement is in the box. */
  lemma EarlyTimeoutStopsTheGateway()
    ensures exists run: Run :: run.Valid() && run.Apart() && !run.NeverHasty() && WrongStop(run.Last())
  {
    var run := FirstRestart();
    run := Extend(run, MonTimeout);
    run := Extend(run, MonReset);
    run := WatchAndGiveUp(run);
    assert WrongStop(run.Last());
  }
}
