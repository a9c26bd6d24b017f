/** The joint state of monitor and restarter, read off the actions of a run: which past actions decide
    the value of every variable, and so which action is possible next.  The definitions here look only
    at actions; the lemmas compare them with the state that the run reaches, orderly or not. */
module RestartHistory {
  import opened SidecarRestart

  // ----- Reading a run -----

  ghost predicate Occurs(run: Run, a: Action) { run.Then? && (run.action == a || Occurs(run.before, a)) }

  /** An `up` action happened, and no `down` action since. */
  ghost predicate Since(run: Run, up: Action -> bool, down: Action -> bool) {
    run.Then? && (up(run.action) || (!down(run.action) && Since(run.before, up, down)))
  }

  /** The ports chosen so far; process `p` was given the one at `p`. */
  ghost function Ports(run: Run): (ports: seq<nat>)
    ensures ports != []
  {
    match run
    case Start(port) => [port]
    case Then(before, action) => Ports(before) + if action.RstSpawn? then [action.port] else []
  }

  ghost function Youngest(run: Run): nat { |Ports(run)| - 1 }

  /** The process last put into the box. */
  ghost function InBox(run: Run): nat {
    if run.Start? then 0 else if run.action.RstAssign? then Youngest(run.before) else InBox(run.before)
  }

  /** The process that the monitor last took from the box. */
  ghost function Taken(run: Run): nat {
    if run.Start? then 0 else if run.action.MonRead? then InBox(run.before) else Taken(run.before)
  }

  ghost predicate IsAlive(run: Run, p: nat) { p <= Youngest(run) && !Occurs(run, Exit(p)) }

  /** The port last written to the upstream file. */
  ghost function Written(run: Run): nat {
    match run
    case Start(port) => port
    case Then(before, action) => if action.RstWrite? then Ports(before)[Youngest(before)] else Written(before)
  }

  predicate IsRestarters(a: Action) { !IsMonitors(a) && !a.Exit? && !a.ServerExits? }

  /** The restarter's last step; before the first restart it is as idle as after one. */
  ghost function LastOfRestarter(run: Run): Action {
    if run.Start? then RstFinish else if IsRestarters(run.action) then run.action else LastOfRestarter(run.before)
  }

  /** The flag is up: a restart was announced, and the monitor has not taken it down since. */
  ghost predicate Announced(run: Run) { Since(run, (a: Action) => a.RstBegin?, (a: Action) => a.MonReset?) }

  /** The event is set: a restart has ended, and neither thread has cleared it since. */
  ghost predicate EventSet(run: Run) {
    Since(run, (a: Action) => a.RstFinish?, (a: Action) => a.RstClear? || a.MonClear?)
  }

  /** A replacement did not listen in time, and its restart has not got past stopping the gateway. */
  ghost predicate TimedOut(run: Run) {
    Since(run, (a: Action) => a.RstTimesOut?, (a: Action) => a.RstSetExit? || a.RstFinish?)
  }

  /** The replacements that did not listen in time and whose restarts have got past stopping the gateway. */
  ghost function GivenUp(run: Run): set<nat> {
    if run.Start? then {}
    else GivenUp(run.before)
         + if (run.action.RstSetExit? || run.action.RstFinish?) && TimedOut(run.before) then {Youngest(run.before)}
           else {}
  }

  /** The gateway was told to stop: by the server itself, by the monitor, or by a restart whose
      replacement never listened. */
  ghost predicate ToldToStop(run: Run) { Occurs(run, ServerExits) || Occurs(run, MonStop) || GivenUp(run) != {} }

  /** The processes that a restart terminated while they were running. */
  ghost function Terminated(run: Run): set<nat> {
    if run.Start? then {}
    else Terminated(run.before)
         + if run.action.RstTerminate? && IsAlive(run.before, InBox(run.before)) then {InBox(run.before)}
           else if run.action.RstGiveUp? && IsAlive(run.before, Youngest(run.before)) then {Youngest(run.before)}
           else {}
  }

  /** The replacements given up, and the processes that were to be replaced when the spawning failed. */
  ghost function NotReplaced(run: Run): set<nat> {
    if run.Start? then {}
    else NotReplaced(run.before)
         + if run.action.RstGiveUp? then {Youngest(run.before)}
           else if run.action.RstRaises? && LastOfRestarter(run.before).RstTerminate? then {InBox(run.before)}
           else {}
  }

  /** The last replacement put into the box has not made it into the upstream file, and its restart
      has failed. */
  ghost predicate LeftBehind(run: Run) {
    && run.Then?
    && (run.action.RstTimesOut? || (run.action.RstRaises? && !LastOfRestarter(run.before).RstTerminate?)
        || (!run.action.RstWrite? && LeftBehind(run.before)))
  }

  // ----- Flags -----

  lemma FlagStep(s: State, a: Action)
    requires Enabled(s, a)
    ensures Next(s, a).intentional <==> a.RstBegin? || (!a.MonReset? && s.intentional)
    ensures Next(s, a).done <==> a.RstFinish? || (!a.RstClear? && !a.MonClear? && s.done)
  {
  }

  /** The flag and the event are what the actions make them. */
  lemma {:induction false} FlagsFollow(run: Run)
    requires run.Valid()
    ensures run.Last().intentional <==> Announced(run)
    ensures run.Last().done <==> EventSet(run)
  {
    if run.Start? {
    } else {
      FlagsFollow(run.before);
      FlagStep(run.before.Last(), run.action);
    }
  }

  // ----- Processes -----

  lemma SpawnStep(s: State, a: Action)
    requires Enabled(s, a)
    ensures a.RstSpawn? ==> Next(s, a).ports == s.ports + [a.port] && Next(s, a).spawned == |s.ports|
    ensures !a.RstSpawn? ==> Next(s, a).ports == s.ports && Next(s, a).spawned == s.spawned
  {
  }

  lemma BoxStep(s: State, a: Action)
    requires Enabled(s, a)
    ensures Next(s, a).box == if a.RstAssign? then s.spawned else s.box
    ensures Next(s, a).watched == if a.MonRead? then s.box else s.watched
  {
  }

  lemma AliveStep(s: State, a: Action)
    requires Enabled(s, a)
    ensures a.RstSpawn? ==> Next(s, a).alive == s.alive + {|s.ports|}
    ensures a.Exit? ==> Next(s, a).alive == s.alive - {a.p} && a.p in s.alive
    ensures !a.RstSpawn? && !a.Exit? ==> Next(s, a).alive == s.alive
  {
  }

  /** Ports, box and the process that the monitor watches. */
  lemma {:induction false} ProcessesFollow(run: Run)
    requires run.Valid()
    ensures run.Last().ports == Ports(run) && run.Last().spawned == Youngest(run)
    ensures run.Last().box == InBox(run) && run.Last().watched == Taken(run)
  {
    if run.Start? {
    } else {
      ProcessesFollow(run.before);
      SpawnStep(run.before.Last(), run.action);
      BoxStep(run.before.Last(), run.action);
    }
  }

  /** A process is alive from its spawning to its exit. */
  lemma {:induction false} AliveIff(run: Run, p: nat)
    requires run.Valid()
    ensures p in run.Last().alive <==> IsAlive(run, p)
  {
    if run.Start? {
    } else {
      AliveIff(run.before, p);
      ProcessesFollow(run.before);
      AliveStep(run.before.Last(), run.action);
      if run.action.RstSpawn? && p == Youngest(run) { NotYetExited(run.before, p); }
    }
  }

  lemma {:induction false} NotYetExited(run: Run, p: nat)
    requires run.Valid() && p > Youngest(run)
    ensures !Occurs(run, Exit(p))
  {
    if run.Start? {
    } else {
      NotYetExited(run.before, p);
      AliveIff(run.before, p);
    }
  }

  lemma SignalStep(s: State, a: Action)
    requires Enabled(s, a)
    ensures a.RstTerminate? ==> Next(s, a).signalled == s.signalled + if s.box in s.alive then {s.box} else {}
    ensures a.RstGiveUp? ==> Next(s, a).signalled == s.signalled + if s.spawned in s.alive then {s.spawned} else {}
    ensures !a.RstTerminate? && !a.RstGiveUp? ==> Next(s, a).signalled == s.signalled
  {
  }

  lemma FailureStep(s: State, a: Action)
    requires Enabled(s, a)
    ensures a.RstGiveUp? ==> Next(s, a).failed == s.failed + {s.spawned}
    ensures a.RstRaises? ==> Next(s, a).failed == s.failed + if s.rst == RSpawn then {s.box} else {}
    ensures !a.RstGiveUp? && !a.RstRaises? ==> Next(s, a).failed == s.failed
  {
  }

  lemma FileStep(s: State, a: Action)
    requires Enabled(s, a) && s.spawned < |s.ports|
    ensures Next(s, a).upstream == if a.RstWrite? then s.ports[s.spawned] else s.upstream
  {
  }

  lemma StaleStep(s: State, a: Action)
    requires Enabled(s, a)
    ensures Next(s, a).stale <==> a.RstTimesOut? || (a.RstRaises? && s.rst != RSpawn) || (!a.RstWrite? && s.stale)
  {
  }

  /** Which processes were terminated while they ran. */
  lemma {:induction false} SignalsFollow(run: Run)
    requires run.Valid()
    ensures run.Last().signalled == Terminated(run)
  {
    if run.Start? {
    } else {
      SignalsFollow(run.before);
      ProcessesFollow(run.before);
      AliveIff(run.before, InBox(run.before));
      AliveIff(run.before, Youngest(run.before));
      SignalStep(run.before.Last(), run.action);
    }
  }

  /** Which processes were not replaced after all. */
  lemma {:induction false} FailuresFollow(run: Run)
    requires run.Valid()
    ensures run.Last().failed == NotReplaced(run)
  {
    if run.Start? {
    } else {
      FailuresFollow(run.before);
      ProcessesFollow(run.before);
      RestarterFollows(run.before);
      FailureStep(run.before.Last(), run.action);
    }
  }

  /** What the upstream file says, and whether it is behind. */
  lemma {:induction false} FileFollows(run: Run)
    requires run.Valid()
    ensures run.Last().upstream == Written(run) && (run.Last().stale <==> LeftBehind(run))
  {
    if run.Start? {
    } else {
      FileFollows(run.before);
      ProcessesFollow(run.before);
      RestarterFollows(run.before);
      FileStep(run.before.Last(), run.action);
      StaleStep(run.before.Last(), run.action);
    }
  }

  // ----- Program counters -----

  /** Where the restart callback stands after each of its steps. */
  function PlaceAfter(a: Action): RestarterAt {
    match a
    case RstBegin => RClear
    case RstClear => RTerminate
    case RstTerminate => RSpawn
    case RstSpawn(_) => RAssign
    case RstAssign => RListen
    case RstListens => RWrite
    case RstTimesOut => RGiveUp
    case RstGiveUp => RSetExit
    case RstSetExit => RFinally
    case RstWrite => RFinally
    case RstRaises => RFinally
    case _ => RIdle
  }

  lemma RestarterStep(s: State, a: Action)
    requires Enabled(s, a)
    ensures Next(s, a).rst == if IsRestarters(a) then PlaceAfter(a) else s.rst
  {
  }

  lemma {:induction false} RestarterFollows(run: Run)
    requires run.Valid()
    ensures run.Last().rst == PlaceAfter(LastOfRestarter(run)) && IsRestarters(LastOfRestarter(run))
  {
    if run.Start? {
    } else {
      RestarterFollows(run.before);
      RestarterStep(run.before.Last(), run.action);
    }
  }

  /** Where the monitor stands: after its last step, and by what it read in it. */
  ghost function MonitorPlace(run: Run): MonitorAt {
    if run.Start? then MTest
    else match run.action
      case MonTest => if ToldToStop(run.before) then MReturned else MRead
      case MonRead => MWait
      case MonWake => MFlag
      case MonFlag => if Announced(run.before) then MDone else MCheck
      case MonAck => MClear
      case MonTimeout => MReset
      case MonClear => MReset
      case MonReset => MTest
      case MonCheck => if ToldToStop(run.before) then MReturned else MStop
      case MonStop => MReturned
      case _ => MonitorPlace(run.before)
  }

  lemma MonitorStepMeans(s: State, a: Action)
    requires Enabled(s, a)
    ensures !IsMonitors(a) ==> Next(s, a).mon == s.mon
    ensures a.MonTest? ==> Next(s, a).mon == if s.shouldExit then MReturned else MRead
    ensures a.MonRead? ==> Next(s, a).mon == MWait
    ensures a.MonWake? ==> Next(s, a).mon == MFlag
    ensures a.MonFlag? ==> Next(s, a).mon == if s.intentional then MDone else MCheck
    ensures a.MonAck? ==> Next(s, a).mon == MClear
    ensures a.MonTimeout? || a.MonClear? ==> Next(s, a).mon == MReset
    ensures a.MonReset? ==> Next(s, a).mon == MTest
    ensures a.MonCheck? ==> Next(s, a).mon == if s.shouldExit then MReturned else MStop
    ensures a.MonStop? ==> Next(s, a).mon == MReturned
  {
  }

  lemma {:induction false} MonitorFollows(run: Run)
    requires run.Valid()
    ensures run.Last().mon == MonitorPlace(run)
  {
    if run.Start? {
    } else {
      MonitorFollows(run.before);
      StopsIff(run.before);
      FlagsFollow(run.before);
      MonitorStepMeans(run.before.Last(), run.action);
    }
  }

  // ----- When the gateway is stopped -----

  ghost predicate IsFailing(r: RestarterAt) { r == RGiveUp || r == RSetExit }

  lemma FailingStep(s: State, a: Action)
    requires Enabled(s, a)
    ensures IsFailing(Next(s, a).rst) <==> a.RstTimesOut? || (IsFailing(s.rst) && !a.RstSetExit? && !a.RstFinish?)
  {
  }

  lemma {:induction false} TimedOutIff(run: Run)
    requires run.Valid()
    ensures TimedOut(run) <==> IsFailing(run.Last().rst)
  {
    if run.Start? {
    } else {
      TimedOutIff(run.before);
      FailingStep(run.before.Last(), run.action);
    }
  }

  lemma StopStep(s: State, a: Action)
    requires Enabled(s, a)
    ensures Next(s, a).shouldExit <==> s.shouldExit || a.ServerExits? || a.MonStop? || a.RstSetExit?
    ensures a.RstSetExit? ==> IsFailing(s.rst)
    ensures a.RstFinish? ==> !IsFailing(s.rst)
  {
  }

  lemma OneMoreGivenUp(run: Run)
    requires run.Then?
    ensures GivenUp(run) != {} <==>
              GivenUp(run.before) != {} || ((run.action.RstSetExit? || run.action.RstFinish?) && TimedOut(run.before))
  {
    assert TimedOut(run.before) && (run.action.RstSetExit? || run.action.RstFinish?) ==>
        Youngest(run.before) in GivenUp(run);
  }

  /** Over every run, orderly or not: the gateway is to stop exactly when the server exited, or the
      monitor stopped it, or a restart has given up on its replacement. */
  lemma {:induction false} StopsIff(run: Run)
    requires run.Valid()
    ensures run.Last().shouldExit <==> ToldToStop(run)
  {
    if run.Start? {
    } else {
      StopsIff(run.before);
      TimedOutIff(run.before);
      OneMoreGivenUp(run);
      StopStep(run.before.Last(), run.action);
    }
  }

  /** The replacements that did not listen in time. */
  ghost function Timeouts(run: Run): set<nat> {
    if run.Start? then {}
    else Timeouts(run.before) + if run.action.RstTimesOut? then {Youngest(run.before)} else {}
  }

  /** Every restart whose replacement does not listen gives up on it before it ends: an idle restarter
      owes no stop. */
  lemma {:induction false} EveryTimeoutGivesUp(run: Run)
    requires run.Valid()
    ensures Timeouts(run) == GivenUp(run) + if TimedOut(run) then {Youngest(run)} else {}
    ensures run.Last().rst == RIdle ==> !TimedOut(run)
  {
    if run.Start? {
    } else {
      EveryTimeoutGivesUp(run.before);
      TimedOutIff(run.before);
      TimedOutIff(run);
      RestarterFollows(run.before);
      PendingStep(run.before.Last(), run.action);
    }
  }

  lemma PendingStep(s: State, a: Action)
    requires Enabled(s, a)
    ensures a.RstTimesOut? || a.RstSpawn? ==> !IsFailing(s.rst)
    ensures a.RstFinish? ==> !IsFailing(s.rst)
  {
  }

  /** So a run that holds a timeout and has come back to idle stops the gateway. */
  lemma IdleAfterTimeoutStops(run: Run)
    requires run.Valid() && run.Last().rst == RIdle && Timeouts(run) != {}
    ensures run.Last().shouldExit
  {
    EveryTimeoutGivesUp(run);
    StopsIff(run);
  }

  lemma {:induction false} GiveUpTerminates(run: Run)
    requires LastOfRestarter(run).RstGiveUp?
    ensures Youngest(run) in Terminated(run) || !IsAlive(run, Youngest(run))
  {
    if run.Then? && !run.action.RstGiveUp? { GiveUpTerminates(run.before); }
  }

  /** A replacement given up was terminated, or had exited; and its restart counts as failed. */
  lemma {:induction false} GivenUpIsGone(run: Run, p: nat)
    requires run.Valid() && p in GivenUp(run)
    ensures p in run.Last().signalled || p !in run.Last().alive
  {
    SignalsFollow(run);
    AliveIff(run, p);
    GivenUpIsTerminated(run, p);
  }

  lemma {:induction false} GivenUpIsTerminated(run: Run, p: nat)
    requires run.Valid() && p in GivenUp(run)
    ensures p <= Youngest(run) && (p in Terminated(run) || !IsAlive(run, p))
  {
    if p in GivenUp(run.before) {
      GivenUpIsTerminated(run.before, p);
    } else {
      TimedOutIff(run.before);
      RestarterFollows(run.before);
      StopStep(run.before.Last(), run.action);
      GiveUpTerminates(run.before);
    }
  }

  // ----- After the stop -----

  /** Once the gateway is to stop, the monitor that looks returns, and reads no process any more. */
  lemma {:induction false} StoppedMonitorReturns(s: State, actions: seq<Action>)
    requires s.shouldExit && (s.mon == MTest || s.mon == MReturned) && Possible(s, actions)
    ensures MonitorSteps(actions) <= if s.mon == MTest then 1 else 0
    ensures After(s, actions).mon == if MonitorSteps(actions) == 0 then s.mon else MReturned
    decreases actions
  {
    if actions == [] {
    } else {
      MonitorStepMeans(s, actions[0]);
      StopStep(s, actions[0]);
      StoppedMonitorReturns(Next(s, actions[0]), actions[1..]);
    }
  }

  /** Before any restart the sidecar serves, and its exit leaves it gone: both are states of orderly runs. */
  lemma FirstExit(port: nat)
    ensures SidecarServes(Start(port).Last()) && Start(port).Orderly()
    ensures Then(Start(port), Exit(0)).Orderly() && SidecarGone(Then(Start(port), Exit(0)).Last())
  {
    assert Enabled(Start(port).Last(), Exit(0));
  }

  // ----- Which step can come next -----

  /** The restart callback's program: `a` comes next after `last`. */
  predicate Precedes(last: Action, a: Action) {
    match a
    case RstBegin => last.RstFinish?
    case RstClear => last.RstBegin?
    case RstTerminate => last.RstClear?
    case RstSpawn(_) => last.RstTerminate?
    case RstAssign => last.RstSpawn?
    case RstListens => last.RstAssign?
    case RstTimesOut => last.RstAssign?
    case RstGiveUp => last.RstTimesOut?
    case RstSetExit => last.RstGiveUp?
    case RstWrite => last.RstListens?
    case RstRaises => last.RstTerminate? || last.RstAssign? || last.RstListens?
    case RstFinish => last.RstSetExit? || last.RstWrite? || last.RstRaises?
    case _ => false
  }

  /** A restart takes any step that its program allows, whatever the monitor does. */
  lemma RestarterStepsIff(run: Run, a: Action)
    requires run.Valid() && IsRestarters(a)
    ensures Enabled(run.Last(), a) <==> Precedes(LastOfRestarter(run), a)
  {
    RestarterFollows(run);
  }

  /** What the monitor's next step needs besides its turn: the watched process gone, the lock free, or
      the event one way or the other. */
  ghost predicate Ready(run: Run, a: Action) {
    match a
    case MonWake => !IsAlive(run, Taken(run))
    case MonFlag => !LastOfRestarter(run).RstBegin?
    case MonReset => !LastOfRestarter(run).RstBegin?
    case MonAck => EventSet(run)
    case MonTimeout => !EventSet(run)
    case _ => true
  }

  /** Where the monitor takes this step. */
  function PlaceOf(a: Action): MonitorAt {
    match a
    case MonTest => MTest
    case MonRead => MRead
    case MonWake => MWait
    case MonFlag => MFlag
    case MonAck => MDone
    case MonTimeout => MDone
    case MonClear => MClear
    case MonReset => MReset
    case MonCheck => MCheck
    case MonStop => MStop
    case _ => MReturned
  }

  lemma MonitorStepsIff(run: Run, a: Action)
    requires run.Valid() && IsMonitors(a)
    ensures Enabled(run.Last(), a) <==> MonitorPlace(run) == PlaceOf(a) && Ready(run, a)
  {
    MonitorFollows(run);
    FlagsFollow(run);
    ProcessesFollow(run);
    RestarterFollows(run);
    AliveIff(run, Taken(run));
  }

  /** A run whose only steps are the restarter's. */
  ghost predicate OnlyRestarts(run: Run) { run.Start? || (IsRestarters(run.action) && OnlyRestarts(run.before)) }

  /** A restart can take every step of its program. */
  lemma RestarterGoesOn(run: Run, a: Action) returns (longer: Run)
    requires run.Orderly() && OnlyRestarts(run) && Precedes(LastOfRestarter(run), a)
    ensures longer == Then(run, a) && longer.Orderly() && OnlyRestarts(longer) && LastOfRestarter(longer) == a
    ensures Timeouts(run) <= Timeouts(longer)
  {
    RestarterStepsIff(run, a);
    MonitorFollows(run);
    OnlyRestartsMeans(run);
    longer := Then(run, a);
  }

  lemma {:induction false} OnlyRestartsMeans(run: Run)
    requires OnlyRestarts(run)
    ensures MonitorPlace(run) == MTest && !Occurs(run, ServerExits) && !Occurs(run, MonStop)
  {
    if run.Then? { OnlyRestartsMeans(run.before); }
  }

  lemma ReplacementSpawned(port: nat, next: nat) returns (run: Run)
    ensures run.Orderly() && OnlyRestarts(run) && LastOfRestarter(run).RstSpawn?
  {
    run := RestarterGoesOn(Start(port), RstBegin);
    run := RestarterGoesOn(run, RstClear);
    run := RestarterGoesOn(run, RstTerminate);
    run := RestarterGoesOn(run, RstSpawn(next));
  }

  lemma ReplacementTimesOut(port: nat, next: nat) returns (run: Run)
    ensures run.Orderly() && OnlyRestarts(run) && LastOfRestarter(run).RstTimesOut? && Timeouts(run) != {}
  {
    run := ReplacementSpawned(port, next);
    run := RestarterGoesOn(run, RstAssign);
    run := RestarterGoesOn(run, RstTimesOut);
    assert Youngest(run.before) in Timeouts(run);
  }

  /** A restart that ends by giving up: such a run exists, and nothing else in it stops the gateway. */
  lemma RestartGivesUp(port: nat, next: nat) returns (run: Run)
    ensures run.Orderly() && run.Last().rst == RIdle && run.Last().shouldExit
    ensures Timeouts(run) != {} && !Occurs(run, ServerExits) && !Occurs(run, MonStop)
  {
    run := ReplacementTimesOut(port, next);
    run := RestarterGoesOn(run, RstGiveUp);
    run := RestarterGoesOn(run, RstSetExit);
    run := RestarterGoesOn(run, RstFinish);
    RestarterFollows(run);
    OnlyRestartsMeans(run);
    IdleAfterTimeoutStops(run);
  }
}
