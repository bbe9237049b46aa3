/**
 The process-wide step variable (`current_step`): the assignments the start
 and stop routines make, the interrupt handler, the loop guards of the
 worker threads, the five-try advertisement registration and the outer
 retry loop of the connection-monitor modes.
 */
module ProgramSteps {
  import opened Wrappers
  import opened DBusTypes
  import opened DeviceDirectory
  import opened RoleArbitration

  datatype ProgramState =
    | StepInit
    | StepDiscoveryStart
    | StepDiscoveryRunning
    | StepDiscoveryDone
    | StepAdvertisingStart
    | StepAdvertisingActive
    | StepAdvertisingDone
    | StepDiscoverAdvertiseStart
    | StepDiscoverAdvertiseActive
    | StepDiscoverAdvertiseDone
    | StepConnectionStart
    | StepConnectionActive
    | StepConnectionDone
    | StepKillProgram

  /** The four phases, each with a start routine and a stop routine. */
  datatype Phase = Discovery | Advertising | DiscoverAdvertise | ConnectionMonitor

  /** The step a start routine sets on entry. */
  function StartStep(p: Phase): ProgramState {
    match p
    case Discovery => StepDiscoveryStart
    case Advertising => StepAdvertisingStart
    case DiscoverAdvertise => StepDiscoverAdvertiseStart
    case ConnectionMonitor => StepConnectionStart
  }

  /** The step a start routine sets just before it runs the main loop. */
  function ActiveStep(p: Phase): ProgramState {
    match p
    case Discovery => StepDiscoveryRunning
    case Advertising => StepAdvertisingActive
    case DiscoverAdvertise => StepDiscoverAdvertiseActive
    case ConnectionMonitor => StepConnectionActive
  }

  /** The step a stop routine sets as its last statement. */
  function DoneStep(p: Phase): ProgramState {
    match p
    case Discovery => StepDiscoveryDone
    case Advertising => StepAdvertisingDone
    case DiscoverAdvertise => StepDiscoverAdvertiseDone
    case ConnectionMonitor => StepConnectionDone
  }

  /** A phase is running: its start or active step is current. */
  predicate Running(s: ProgramState, p: Phase) {
    s == StartStep(p) || s == ActiveStep(p)
  }

  /** What changes the step variable. */
  datatype StepEvent =
    | Enter(phase: Phase)          // start routine, first assignment
    | Activate(phase: Phase)       // start routine, just before `mainloop.run()`
    | Stop(phase: Phase)           // stop routine
    | AdvertisingTimeout           // end of `thread_timeout_advertisement`
    | DiscoverAdvertiseTimeout     // end of `thread_timeout_discover_and_advertise`

  /**
   The step after one event. Stop routines assign their DONE step whatever
   the current step is; the advertising watchdog, after stopping a running
   advertisement, leaves the step at DISCOVERY_DONE.
   */
  function Apply(s: ProgramState, e: StepEvent): (r: ProgramState)
    ensures e.Enter? ==> Running(r, e.phase) && r != ActiveStep(e.phase)
    ensures e.Activate? ==> Running(r, e.phase) && r != StartStep(e.phase)
    ensures e.Stop? ==> r == DoneStep(e.phase) && !Running(r, e.phase) && r != StepKillProgram
    ensures e.AdvertisingTimeout? && Running(s, Advertising) ==> r == StepDiscoveryDone
    ensures e.DiscoverAdvertiseTimeout? && Running(s, DiscoverAdvertise) ==> r == StepDiscoverAdvertiseDone
    ensures e.AdvertisingTimeout? ==> (r != s <==> Running(s, Advertising))
    ensures e.DiscoverAdvertiseTimeout? ==> (r != s <==> Running(s, DiscoverAdvertise))
    ensures e.AdvertisingTimeout? || e.DiscoverAdvertiseTimeout? ==> s == StepKillProgram ==> r == s
  {
    match e
    case Enter(p) => StartStep(p)
    case Activate(p) => ActiveStep(p)
    case Stop(p) => DoneStep(p)
    case AdvertisingTimeout =>
      // `advertising_stop` writes ADVERTISING_DONE, which the watchdog then overwrites
      if Running(s, Advertising) then DoneStep(Discovery) else s
    case DiscoverAdvertiseTimeout =>
      if Running(s, DiscoverAdvertise) then DoneStep(DiscoverAdvertise) else s
  }

  /** Every stop routine ends its own phase: the step it leaves belongs to no running phase. */
  lemma StopEndsEveryPhase(s: ProgramState, p: Phase, q: Phase)
    ensures !Running(Apply(s, Stop(p)), q)
  {
  }

  /** A stop routine that runs after the interrupt overwrites KILL_PROGRAM with its DONE step. */
  lemma StopAfterKill(p: Phase)
    ensures Apply(StepKillProgram, Stop(p)) != StepKillProgram
  {
  }

  /** The advertising watchdog ends a running advertisement with the discovery phase's DONE step. */
  lemma AdvertisingTimeoutLeavesDiscoveryDone(s: ProgramState)
    requires Running(s, Advertising)
    ensures Apply(s, AdvertisingTimeout) == StepDiscoveryDone
  {
  }

  /** Loop guard of `thread_check_seen_devices`. */
  function SeenWorkerRuns(s: ProgramState): (r: bool)
    ensures r ==> s != StepKillProgram
    ensures s == StepDiscoveryDone ==> !r
    ensures Running(s, Discovery) ==> r
  {
    s != StepKillProgram && s != StepDiscoveryDone
  }

  /** Whatever the step was, `discovery_stop` ends the liveness worker at its next test. */
  lemma DiscoveryStopEndsSeenWorker(s: ProgramState)
    ensures !SeenWorkerRuns(Apply(s, Stop(Discovery)))
  {
  }

  /** Loop guard of `thread_connect_discover_and_advertise`; the KILL test is subsumed by the phase test. */
  function ConnectWorkerRuns(s: ProgramState): (r: bool)
    ensures r <==> Running(s, DiscoverAdvertise)
  {
    s != StepKillProgram && (s == StepDiscoverAdvertiseStart || s == StepDiscoverAdvertiseActive)
  }

  /**
   Loop guard of `thread_check_connected_devices`, with Python's precedence
   (`and` before `or`); it still means "the monitor phase is running".
   */
  function MonitorWorkerRuns(s: ProgramState): (r: bool)
    ensures r <==> Running(s, ConnectionMonitor)
  {
    (s != StepKillProgram && s == StepConnectionStart) || s == StepConnectionActive
  }

  /**
   After a round of the outbound worker: reaching the goal runs the
   combined phase's stop routine and ends the worker; otherwise the step is
   untouched and the worker sleeps again.
   */
  function AfterProbeRound(s: ProgramState, connectedCount: nat, goal: nat): (r: (ProgramState, bool))
    ensures r.1 <==> connectedCount >= goal
    ensures r.1 ==> r.0 == StepDiscoverAdvertiseDone
    ensures !r.1 ==> r.0 == s
  {
    if connectedCount >= goal then (Apply(s, Stop(DiscoverAdvertise)), true) else (s, false)
  }

  /** The configured connection goal. */
  const DevicesConnectTo: nat := 1

  /**
   What `handler_signal_interrupt` does: the stop routines it runs, the final
   state, the peers disconnected, and the exit status (`None` when an
   exception escapes the handler before `sys.exit`).
   */
  datatype InterruptOutcome = InterruptOutcome(stopped: seq<Phase>, step: ProgramState, node: Node,
                                               disconnected: set<Path>, exit: Option<int>)

  /** The discovery or advertisement stop the handler runs first, if any. */
  function FirstStops(s: ProgramState): (r: seq<Phase>)
    ensures Discovery in r <==> Running(s, Discovery)
    ensures Advertising in r <==> Running(s, Advertising)
    ensures DiscoverAdvertise !in r && ConnectionMonitor !in r
  {
    if Running(s, Discovery) then [Discovery]
    else if Running(s, Advertising) then [Advertising]
    else []
  }

  /**
   `handler_signal_interrupt` with `disconnect_from_all_devices` unable to
   fail: stops a running discovery or advertisement, stops the connection
   monitor (disconnecting every peer) when any peer is connected, sets
   KILL_PROGRAM and exits with status 0. A running combined
   discover-and-advertise phase is not stopped by it.
   */
  function Interrupt(s: ProgramState, n: Node): (r: InterruptOutcome)
    ensures r.step == StepKillProgram && r.exit == Some(0)
    ensures Discovery in r.stopped <==> Running(s, Discovery)
    ensures Advertising in r.stopped <==> Running(s, Advertising)
    ensures DiscoverAdvertise !in r.stopped
    ensures ConnectionMonitor in r.stopped <==> |n.connected| > 0
    ensures r.node.connected == map[] && r.disconnected == n.connected.Keys
    ensures r.node.roles == n.roles && r.node.found == n.found
  {
    var first := FirstStops(s);
    if |n.connected| > 0 then
      var (n', gone) := DisconnectAll(n);
      InterruptOutcome(first + [ConnectionMonitor], StepKillProgram, n', gone, Some(0))
    else
      InterruptOutcome(first, StepKillProgram, n, {}, Some(0))
  }

  /**
   `handler_signal_interrupt` as written, the connected peers iterated in
   `order`: when `disconnect_from_all_devices` raises, the exception leaves
   `connection_monitor_stop` and the handler before KILL_PROGRAM is set and
   before `sys.exit(0)`, so the step is whatever the first stop routine left.
   */
  function InterruptAsWritten(s: ProgramState, n: Node, order: seq<Path>): (r: InterruptOutcome)
    requires forall p :: p in n.connected <==> p in order
    ensures r.exit.None? <==> exists p :: p in n.connected && !HasInfoName(n.found, p)
    ensures r.exit.None? ==> ConnectionMonitor in r.stopped && (r.step == StepKillProgram <==> s == StepKillProgram)
    ensures r.exit.None? ==> exists p :: p in r.node.connected && !HasInfoName(n.found, p)
    ensures r.exit.Some? ==> r == Interrupt(s, n)
  {
    var first := FirstStops(s);
    var afterFirst := if |first| == 0 then s else Apply(s, Stop(first[0]));
    if |n.connected| > 0 then
      var d := DisconnectAllAsWritten(n, order);
      if d.raised then InterruptOutcome(first + [ConnectionMonitor], afterFirst, d.node, d.gone, None)
      else InterruptOutcome(first + [ConnectionMonitor], StepKillProgram, d.node, d.gone, Some(0))
    else
      InterruptOutcome(first, StepKillProgram, n, {}, Some(0))
  }

  /** An interrupt in the monitor phase with an inbound peer the directory does not know neither sets KILL_PROGRAM nor exits. */
  lemma InterruptAbortedByUnknownPeer()
    ensures var peer := "/org/bluez/hci0/dev_00_11_22_33_44_55";
            var r := InterruptAsWritten(StepConnectionActive, Node(map[], map[], map[peer := map[]]), [peer]);
            r.exit.None? && r.step == StepConnectionActive && peer in r.node.connected
  {
    var peer := "/org/bluez/hci0/dev_00_11_22_33_44_55";
    assert !HasInfoName(map[], peer);
    UnknownPeerBlocksDisconnect();
  }

  /** D-Bus error name BlueZ uses when the advertisement is already registered. */
  const AlreadyExistsError: string := "org.bluez.Error.AlreadyExists"

  const MaxRegisterTries: nat := 5

  /** The reply to one `RegisterAdvertisement` call. */
  datatype RegisterReply = RegisterOk | RegisterFailed(errorName: string)

  /** The loop stops on this reply: success, or the advertisement is already registered. */
  predicate EndsRegistration(reply: RegisterReply) {
    reply.RegisterOk? || reply.errorName == AlreadyExistsError
  }

  /** `advertising_initiate` either proceeds after some number of calls or ends the process. */
  datatype RegisterOutcome = Initiated(attempts: nat) | ExitProcess(status: int)

  /**
   The retry loop of `advertising_initiate`: `replies[k]` is what the
   (k+1)-th call would get. The loop stops at the first success or
   `AlreadyExists`; any other error on the fifth call ends the process with
   status 1.
   */
  method RegisterAdvertisement(replies: seq<RegisterReply>) returns (r: RegisterOutcome)
    requires |replies| == MaxRegisterTries
    ensures r.Initiated? ==> 1 <= r.attempts <= MaxRegisterTries && EndsRegistration(replies[r.attempts - 1])
    ensures r.Initiated? ==> forall k :: 0 <= k < r.attempts - 1 ==> !EndsRegistration(replies[k])
    ensures r.ExitProcess? <==> forall k :: 0 <= k < MaxRegisterTries ==> !EndsRegistration(replies[k])
    ensures r.ExitProcess? ==> r.status == 1
    ensures replies[0] == RegisterFailed(AlreadyExistsError) ==> r == Initiated(1)
  {
    var tries := 0;
    while true
      invariant 0 <= tries < MaxRegisterTries
      invariant forall k :: 0 <= k < tries ==> !EndsRegistration(replies[k])
      decreases MaxRegisterTries - tries
    {
      if EndsRegistration(replies[tries]) {
        return Initiated(tries + 1);
      }
      if tries >= MaxRegisterTries - 1 {
        return ExitProcess(1);
      }
      tries := tries + 1;
    }
  }

  /** Where the outer loop of a connection-monitor mode stands after the phase attempts it was given. */
  datatype RetryOutcome = Monitoring(attempts: nat) | StillRetrying

  /**
   The outer loop of `run_connection_monitor_mode_*`: while no peer is
   connected, the phase is run again. `initial` is the connected-set size
   before the loop and `after[k]` its size after the (k+1)-th phase run.
   Monitoring begins after the first run that leaves a peer connected.
   */
  method OuterRetry(initial: nat, after: seq<nat>) returns (r: RetryOutcome)
    ensures r.Monitoring? ==> r.attempts <= |after|
    ensures r.Monitoring? && r.attempts == 0 <==> initial > 0
    ensures r.Monitoring? && r.attempts > 0 ==> after[r.attempts - 1] > 0
    ensures r.Monitoring? ==> forall k :: 0 <= k < r.attempts - 1 ==> after[k] == 0
    ensures r.StillRetrying? <==> initial == 0 && forall k :: 0 <= k < |after| ==> after[k] == 0
  {
    var count := initial;
    var runs := 0;
    while count == 0 && runs < |after|
      invariant 0 <= runs <= |after|
      invariant runs == 0 ==> count == initial
      invariant runs > 0 ==> count == after[runs - 1] && initial == 0
      invariant forall k :: 0 <= k < runs - 1 ==> after[k] == 0
      invariant count == 0 ==> forall k :: 0 <= k < runs ==> after[k] == 0
    {
      count := after[runs];
      runs := runs + 1;
    }
    if count == 0 {
      r := StillRetrying;
    } else {
      r := Monitoring(runs);
    }
  }
}
