/**
 The bus state under every interleaving of the owner thread, the realtime loop
 and the service loop. Every read and every write of the atomic `state_` is an
 action of its own, so a check and the write that relies on it can be separated
 by any actions of the other threads.
 */
module Lifecycle {
  import opened BusStates

  // Inside shutdown(): one label per atomic access of the bus state.
  datatype ShutdownPc =
    | ReadShutdown | ReadPreInit | ReadInitialized
    | ReadConfigured | ReadActivated | ReadOperational
    | WriteShuttingDown | PreShutdown | WriteShutdown
    | Returned | ThrewInvalidState

  datatype OwnerPc =
    | Idle
    | InitCheck | InitWork | InitWrite
    | StartupCheck | StartupWork | StartupWrite
    | ActivateCheck | ActivateWork | ActivateWrite
    | StopRt | JoinRt | StopService | JoinService
    | OwnerShutdown(sd: ShutdownPc, fromStop: bool)

  datatype RtPc = RtNotStarted | RtHead | RtCheckActivated | RtCheckOperational | RtCycle | RtFinished

  datatype ServicePc =
    | SvNotStarted | SvHead
    | SvCheckPreInit | SvCheckShutdown | SvCheckShuttingDown   // update_service
    | SvReadActivated                                          // internal_service_update
    | SvDeciding | SvRefresh | SvWriteOperational              // bus was seen Activated
    | ServiceShutdown(sd: ShutdownPc)                          // activation timeout
    | SvFinished

  datatype World = World(
    bus: BusState,
    owner: OwnerPc, rt: RtPc, service: ServicePc,
    rtStop: bool, serviceStop: bool, spinning: bool)

  const START := World(PreInit, Idle, RtNotStarted, SvNotStarted, false, false, false)

  // ---- actions ---------------------------------------------------------------------------------

  // The label after `sd`, and the bus state, when the bus state read or overwritten is `bus`.
  function ShutdownNext(sd: ShutdownPc, bus: BusState): (ShutdownPc, BusState) {
    match sd
    case ReadShutdown => (if bus == Shutdown then Returned else ReadPreInit, bus)
    case ReadPreInit => (if bus == PreInit then WriteShutdown else ReadInitialized, bus)
    case ReadInitialized => (if bus == Initialized then WriteShutdown else ReadConfigured, bus)
    case ReadConfigured => (if bus == Configured then WriteShuttingDown else ReadActivated, bus)
    case ReadActivated => (if bus == Activated then WriteShuttingDown else ReadOperational, bus)
    case ReadOperational => (if bus == Operational then WriteShuttingDown else ThrewInvalidState, bus)
    case WriteShuttingDown => (PreShutdown, ShuttingDown)
    case PreShutdown => (WriteShutdown, bus)
    case WriteShutdown => (Returned, Shutdown)
    case Returned => (Returned, bus)
    case ThrewInvalidState => (ThrewInvalidState, bus)
  }

  predicate Ended(sd: ShutdownPc) { sd.Returned? || sd.ThrewInvalidState? }

  predicate Threw(w: World) {
    || (w.owner.OwnerShutdown? && w.owner.sd.ThrewInvalidState?)
    || (w.service.ServiceShutdown? && w.service.sd.ThrewInvalidState?)
  }

  // The owner makes its calls one after the other, in any order: initialize, startup,
  // activate, spin, stop, and shutdown while not spinning.
  ghost predicate OwnerAct(w: World, w': World) {
    match w.owner
    case Idle =>
      || w' == w.(owner := InitCheck) || w' == w.(owner := StartupCheck) || w' == w.(owner := ActivateCheck)
      || (!w.spinning && w' == w.(owner := OwnerShutdown(ReadShutdown, false)))
      || (!w.spinning
          && w' == w.(spinning := true, rt := RtHead, service := SvHead, rtStop := false, serviceStop := false))
      || (w.spinning && w' == w.(owner := StopRt))
    case InitCheck => w' == w.(owner := if w.bus == PreInit then InitWork else Idle)
    case InitWork => w' == w.(owner := Idle) || w' == w.(owner := InitWrite)
    case InitWrite => w' == w.(owner := Idle, bus := Initialized)
    case StartupCheck => w' == w.(owner := if w.bus == Initialized then StartupWork else Idle)
    case StartupWork => w' == w.(owner := OwnerShutdown(ReadShutdown, false)) || w' == w.(owner := StartupWrite)
    case StartupWrite => w' == w.(owner := Idle, bus := Configured)
    case ActivateCheck => w' == w.(owner := if w.bus == Configured then ActivateWork else Idle)
    case ActivateWork => w' == w.(owner := OwnerShutdown(ReadShutdown, false)) || w' == w.(owner := ActivateWrite)
    case ActivateWrite => w' == w.(owner := Idle, bus := Activated)
    case StopRt => w' == w.(owner := JoinRt, rtStop := true)
    case JoinRt => w.rt == RtFinished && w' == w.(owner := StopService)
    case StopService => w' == w.(owner := JoinService, serviceStop := true)
    case JoinService =>
      w.service == SvFinished && w' == w.(owner := OwnerShutdown(ReadShutdown, true), spinning := false)
    case OwnerShutdown(sd, fromStop) =>
      if Ended(sd) then w' == w.(owner := Idle)
      else var (sd', bus') := ShutdownNext(sd, w.bus); w' == w.(owner := OwnerShutdown(sd', fromStop), bus := bus')
  }

  ghost predicate RtAct(w: World, w': World) {
    match w.rt
    case RtNotStarted => false
    case RtHead => w' == w.(rt := if w.rtStop then RtFinished else RtCheckActivated)
    case RtCheckActivated => w' == w.(rt := if w.bus == Activated then RtCycle else RtCheckOperational)
    case RtCheckOperational => w' == w.(rt := if w.bus == Operational then RtCycle else RtFinished)
    case RtCycle => w' == w.(rt := RtHead) || w' == w.(rt := RtFinished)
    case RtFinished => false
  }

  ghost predicate ServiceAct(w: World, w': World) {
    match w.service
    case SvNotStarted => false
    case SvHead => w' == w.(service := if w.serviceStop then SvFinished else SvCheckPreInit)
    case SvCheckPreInit => w' == w.(service := if w.bus == PreInit then SvFinished else SvCheckShutdown)
    case SvCheckShutdown => w' == w.(service := if w.bus == Shutdown then SvFinished else SvCheckShuttingDown)
    case SvCheckShuttingDown => w' == w.(service := if w.bus == ShuttingDown then SvFinished else SvReadActivated)
    case SvReadActivated =>
      if w.bus == Activated then w' == w.(service := SvDeciding)
      else w' == w.(service := SvHead) || w' == w.(service := SvFinished)
    case SvDeciding => w' == w.(service := ServiceShutdown(ReadShutdown)) || w' == w.(service := SvRefresh)
    case SvRefresh => w' == w.(service := SvHead) || w' == w.(service := SvWriteOperational)
    case SvWriteOperational => w' == w.(service := SvHead, bus := Operational)
    case ServiceShutdown(sd) =>
      if Ended(sd) then w' == w.(service := SvFinished)
      else var (sd', bus') := ShutdownNext(sd, w.bus); w' == w.(service := ServiceShutdown(sd'), bus := bus')
    case SvFinished => false
  }

  ghost predicate Act(w: World, w': World) {
    OwnerAct(w, w') || RtAct(w, w') || ServiceAct(w, w')
  }

  // ---- invariant ------------------------------------------------------------------------------

  // What a thread inside shutdown() may rely on: the bus state its earlier reads saw is still there.
  predicate ShutdownInv(sd: ShutdownPc, bus: BusState) {
    match sd
    case ReadShutdown => bus != ShuttingDown
    case ReadPreInit => Rank(bus) < Rank(ShuttingDown)
    case ReadInitialized => Rank(Initialized) <= Rank(bus) < Rank(ShuttingDown)
    case ReadConfigured => Rank(Configured) <= Rank(bus) < Rank(ShuttingDown)
    case ReadActivated => Rank(Activated) <= Rank(bus) < Rank(ShuttingDown)
    case ReadOperational => bus == Operational
    case WriteShuttingDown => Rank(Configured) <= Rank(bus) < Rank(ShuttingDown)
    case PreShutdown => bus == ShuttingDown
    case WriteShutdown => bus == PreInit || bus == Initialized || bus == ShuttingDown
    case Returned => bus == Shutdown
    case ThrewInvalidState => false
  }

  predicate ServiceRuns(w: World) { !w.service.SvNotStarted? && !w.service.SvFinished? }

  // The service thread has seen Activated and may write the bus state.
  predicate ServiceWrites(w: World) {
    w.service.SvDeciding? || w.service.SvRefresh? || w.service.SvWriteOperational? || w.service.ServiceShutdown?
  }

  // The writes each thread is about to make are still justified, and only one thread makes them.
  predicate WritersInv(w: World) {
    && (w.owner.InitWork? || w.owner.InitWrite? ==> w.bus == PreInit)
    && (w.owner.StartupWork? || w.owner.StartupWrite? ==> w.bus == Initialized)
    && (w.owner.ActivateWork? || w.owner.ActivateWrite? ==> w.bus == Configured)
    && (w.owner.OwnerShutdown? ==> ShutdownInv(w.owner.sd, w.bus) && !ServiceWrites(w))
    && (w.owner.OwnerShutdown? && ServiceRuns(w) ==> w.bus != Activated && w.bus != Operational)
    && (w.service.SvDeciding? || w.service.SvRefresh? || w.service.SvWriteOperational? ==> w.bus == Activated)
    && (w.service.ServiceShutdown? ==> ShutdownInv(w.service.sd, w.bus) && Rank(w.bus) >= Rank(Activated))
  }

  predicate Announced(sd: ShutdownPc) { sd.PreShutdown? || sd.WriteShutdown? }

  // ShuttingDown is visible only while some thread is inside shutdown().
  predicate ShuttingDownInv(w: World) {
    w.bus == ShuttingDown ==>
      || (w.owner.OwnerShutdown? && Announced(w.owner.sd))
      || (w.service.ServiceShutdown? && Announced(w.service.sd))
  }

  predicate StopsRt(o: OwnerPc) { o.StopService? || o.JoinService? }

  // The two loops exist only while spinning, and stop() has joined what it says it has.
  predicate ThreadsInv(w: World) {
    && (!w.spinning ==> !ServiceRuns(w) && (w.rt.RtNotStarted? || w.rt.RtFinished?))
    && (w.spinning ==> !w.rt.RtNotStarted? && !w.service.SvNotStarted?)
    && (Stopping(w.owner) ==> w.spinning)
    && (StopsRt(w.owner) ==> w.rt.RtFinished?)
    && (w.owner.OwnerShutdown? && w.owner.fromStop ==> !w.spinning && w.rt.RtFinished? && w.service.SvFinished?)
  }

  predicate Inv(w: World) { WritersInv(w) && ShuttingDownInv(w) && ThreadsInv(w) }

  // One step inside shutdown() keeps what the thread relies on; its write goes up.
  lemma ShutdownStep(sd: ShutdownPc, bus: BusState)
    requires ShutdownInv(sd, bus)
    ensures var (sd', bus') := ShutdownNext(sd, bus);
            && ShutdownInv(sd', bus') && Rank(bus) <= Rank(bus')
            && (bus' == bus || bus' == ShuttingDown || bus' == Shutdown)
            && (bus' == ShuttingDown ==> Announced(sd'))
  {
  }

  lemma OwnerShutdownKeepsInv(w: World, w': World)
    requires Inv(w) && w.owner.OwnerShutdown? && OwnerAct(w, w')
    ensures Inv(w') && Rank(w.bus) <= Rank(w'.bus)
  {
    var (sd', bus') := ShutdownNext(w.owner.sd, w.bus);
    ShutdownStep(w.owner.sd, w.bus);
    if !Ended(w.owner.sd) {
      assert w' == w.(owner := OwnerShutdown(sd', w.owner.fromStop), bus := bus');
    }
  }

  lemma OwnerCallKeepsInv(w: World, w': World)
    requires Inv(w) && w.owner.Idle? && OwnerAct(w, w')
    ensures Inv(w') && w.bus == w'.bus
  {
  }

  predicate Stopping(o: OwnerPc) { o.StopRt? || o.JoinRt? || StopsRt(o) }

  lemma OwnerStopKeepsInv(w: World, w': World)
    requires Inv(w) && Stopping(w.owner) && OwnerAct(w, w')
    ensures Inv(w') && w.bus == w'.bus
  {
  }

  predicate Initializing(o: OwnerPc) { o.InitCheck? || o.InitWork? || o.InitWrite? }

  predicate StartingUp(o: OwnerPc) { o.StartupCheck? || o.StartupWork? || o.StartupWrite? }

  predicate Activating(o: OwnerPc) { o.ActivateCheck? || o.ActivateWork? || o.ActivateWrite? }

  lemma OwnerInitializeKeepsInv(w: World, w': World)
    requires Inv(w) && Initializing(w.owner) && OwnerAct(w, w')
    ensures Inv(w') && Rank(w.bus) <= Rank(w'.bus)
  {
  }

  lemma OwnerStartupKeepsInv(w: World, w': World)
    requires Inv(w) && StartingUp(w.owner) && OwnerAct(w, w')
    ensures Inv(w') && Rank(w.bus) <= Rank(w'.bus)
  {
  }

  lemma OwnerActivateKeepsInv(w: World, w': World)
    requires Inv(w) && Activating(w.owner) && OwnerAct(w, w')
    ensures Inv(w') && Rank(w.bus) <= Rank(w'.bus)
  {
  }

  lemma RtKeepsInv(w: World, w': World)
    requires Inv(w) && RtAct(w, w')
    ensures Inv(w') && w.bus == w'.bus
  {
  }

  lemma ServiceShutdownKeepsInv(w: World, w': World)
    requires Inv(w) && w.service.ServiceShutdown? && ServiceAct(w, w')
    ensures Inv(w') && Rank(w.bus) <= Rank(w'.bus)
  {
  }

  lemma ServiceReadsKeepInv(w: World, w': World)
    requires Inv(w) && !ServiceWrites(w) && ServiceAct(w, w')
    ensures Inv(w') && Rank(w.bus) <= Rank(w'.bus)
  {
  }

  lemma ServiceWritesKeepInv(w: World, w': World)
    requires Inv(w) && ServiceWrites(w) && !w.service.ServiceShutdown? && ServiceAct(w, w')
    ensures Inv(w') && Rank(w.bus) <= Rank(w'.bus)
  {
  }

  lemma ActKeepsInv(w: World, w': World)
    requires Inv(w) && Act(w, w')
    ensures Inv(w') && Rank(w.bus) <= Rank(w'.bus)
  {
    if RtAct(w, w') { RtKeepsInv(w, w'); }
    else if ServiceAct(w, w') && w.service.ServiceShutdown? { ServiceShutdownKeepsInv(w, w'); }
    else if ServiceAct(w, w') && ServiceWrites(w) { ServiceWritesKeepInv(w, w'); }
    else if ServiceAct(w, w') { ServiceReadsKeepInv(w, w'); }
    else if w.owner.OwnerShutdown? { OwnerShutdownKeepsInv(w, w'); }
    else if w.owner.Idle? { OwnerCallKeepsInv(w, w'); }
    else if Stopping(w.owner) { OwnerStopKeepsInv(w, w'); }
    else if Initializing(w.owner) { OwnerInitializeKeepsInv(w, w'); }
    else if StartingUp(w.owner) { OwnerStartupKeepsInv(w, w'); }
    else { OwnerActivateKeepsInv(w, w'); }
  }

  // Only the realtime thread itself enters a cycle, on reading Activated or Operational.
  lemma CycleEntry(w: World, w': World)
    requires Act(w, w') && !w.rt.RtCycle? && w'.rt.RtCycle?
    ensures w.bus == Activated || w.bus == Operational
  {
    if OwnerAct(w, w') { OwnerLeavesRt(w, w'); }
  }

  lemma OwnerLeavesRt(w: World, w': World)
    requires OwnerAct(w, w')
    ensures w'.rt == w.rt || w'.rt == RtHead
  {
  }

  // ---- whole runs -------------------------------------------------------------------------------

  ghost predicate StepAt(run: seq<World>, i: nat)
    requires i + 1 < |run|
  {
    Act(run[i], run[i + 1])
  }

  ghost predicate IsRun(run: seq<World>) {
    && run != [] && run[0] == START
    && forall i: nat | i + 1 < |run| :: StepAt(run, i)
  }

  lemma {:induction false} RunInv(run: seq<World>, n: nat)
    requires IsRun(run) && n < |run|
    ensures Inv(run[n])
    decreases n
  {
    if n > 0 {
      RunInv(run, n - 1);
      assert StepAt(run, n - 1);
      ActKeepsInv(run[n - 1], run[n]);
    }
  }

  // The rank of the bus state never decreases; Shutdown is absorbing.
  lemma {:induction false} LifecycleMonotone(run: seq<World>, i: nat, j: nat)
    requires IsRun(run) && i <= j < |run|
    ensures Rank(run[i].bus) <= Rank(run[j].bus)
    ensures run[i].bus == Shutdown ==> run[j].bus == Shutdown
    decreases j
  {
    if i < j {
      LifecycleMonotone(run, i, j - 1);
      RunInv(run, j - 1);
      assert StepAt(run, j - 1);
      ActKeepsInv(run[j - 1], run[j]);
    }
  }

  // Once shutdown has begun, no realtime cycle passes its state check any more.
  lemma NoCycleStartsAfterShutdown(run: seq<World>, i: nat, j: nat)
    requires IsRun(run) && i <= j && j + 1 < |run|
    ensures Rank(run[i].bus) >= Rank(ShuttingDown) && run[j + 1].rt.RtCycle? ==> run[j].rt.RtCycle?
  {
    LifecycleMonotone(run, i, j);
    assert StepAt(run, j);
    if !run[j].rt.RtCycle? && run[j + 1].rt.RtCycle? { CycleEntry(run[j], run[j + 1]); }
  }

  // The "invalid state" branch of shutdown is unreachable in documented use.
  lemma ShutdownNeverThrows(run: seq<World>, n: nat)
    requires IsRun(run) && n < |run|
    ensures !Threw(run[n])
  {
    RunInv(run, n);
  }

  lemma StopReturns(w: World, w': World)
    requires Inv(w) && w.owner.OwnerShutdown? && w.owner.fromStop && Act(w, w') && w'.owner.Idle?
    ensures w'.bus == Shutdown && w'.rt.RtFinished? && w'.service.SvFinished?
  {
    assert w.rt.RtFinished? && w.service.SvFinished?;
    assert OwnerAct(w, w');
  }

  // When stop() returns, both loops have ended and the bus is shut down, for good.
  lemma StopEndsInShutdown(run: seq<World>, n: nat, m: nat)
    requires IsRun(run) && n < m < |run|
    ensures run[n].owner.OwnerShutdown? && run[n].owner.fromStop && run[n + 1].owner.Idle? ==>
              run[n + 1].rt.RtFinished? && run[n + 1].service.SvFinished? && run[m].bus == Shutdown
  {
    RunInv(run, n);
    assert StepAt(run, n);
    LifecycleMonotone(run, n + 1, m);
    if run[n].owner.OwnerShutdown? && run[n].owner.fromStop && run[n + 1].owner.Idle? {
      StopReturns(run[n], run[n + 1]);
    }
  }

  // ---- the whole lifecycle is possible ----------------------------------------------------------

  ghost predicate Piece(run: seq<World>) { forall i: nat | i + 1 < |run| :: StepAt(run, i) }

  function Owning(bus: BusState, owner: OwnerPc): World {
    World(bus, owner, RtNotStarted, SvNotStarted, false, false, false)
  }

  function Spinning(bus: BusState, rt: RtPc, service: ServicePc): World {
    World(bus, Idle, rt, service, false, false, true)
  }

  function Stopped(bus: BusState, owner: OwnerPc): World {
    World(bus, owner, RtFinished, SvFinished, true, true, false)
  }

  lemma BringUp() returns (run: seq<World>)
    ensures Piece(run) && run != [] && run[0] == START && run[|run| - 1] == Owning(Activated, Idle)
  {
    run := [
      Owning(PreInit, Idle), Owning(PreInit, InitCheck), Owning(PreInit, InitWork), Owning(PreInit, InitWrite),
      Owning(Initialized, Idle), Owning(Initialized, StartupCheck), Owning(Initialized, StartupWork),
      Owning(Initialized, StartupWrite), Owning(Configured, Idle), Owning(Configured, ActivateCheck),
      Owning(Configured, ActivateWork), Owning(Configured, ActivateWrite), Owning(Activated, Idle)];
    forall i: nat | i + 1 < |run| ensures StepAt(run, i) { assert OwnerAct(run[i], run[i + 1]); }
  }

  // The service loop brings the bus to Operational, and the realtime loop enters a cycle.
  lemma SpinUp() returns (run: seq<World>)
    ensures Piece(run) && |run| > 1 && run[0] == Spinning(Activated, RtHead, SvHead)
    ensures run[|run| - 1] == Spinning(Operational, RtCycle, SvHead)
  {
    run := [
      Spinning(Activated, RtHead, SvHead), Spinning(Activated, RtHead, SvCheckPreInit),
      Spinning(Activated, RtHead, SvCheckShutdown), Spinning(Activated, RtHead, SvCheckShuttingDown),
      Spinning(Activated, RtHead, SvReadActivated), Spinning(Activated, RtHead, SvDeciding),
      Spinning(Activated, RtHead, SvRefresh), Spinning(Activated, RtHead, SvWriteOperational),
      Spinning(Operational, RtHead, SvHead), Spinning(Operational, RtCheckActivated, SvHead),
      Spinning(Operational, RtCheckOperational, SvHead), Spinning(Operational, RtCycle, SvHead)];
    forall i: nat | i + 1 < |run| ensures StepAt(run, i) {
      assert RtAct(run[i], run[i + 1]) || ServiceAct(run[i], run[i + 1]);
    }
  }

  // stop() while a cycle is running: it finishes, both loops end.
  lemma StopLoops() returns (run: seq<World>)
    ensures Piece(run) && |run| > 1 && run[0] == World(Operational, StopRt, RtCycle, SvHead, false, false, true)
    ensures run[|run| - 1] == World(Operational, JoinService, RtFinished, SvFinished, true, true, true)
  {
    run := [
      World(Operational, StopRt, RtCycle, SvHead, false, false, true),
      World(Operational, JoinRt, RtCycle, SvHead, true, false, true),
      World(Operational, JoinRt, RtHead, SvHead, true, false, true),
      World(Operational, JoinRt, RtFinished, SvHead, true, false, true),
      World(Operational, StopService, RtFinished, SvHead, true, false, true),
      World(Operational, JoinService, RtFinished, SvHead, true, true, true),
      World(Operational, JoinService, RtFinished, SvFinished, true, true, true)];
    forall i: nat | i + 1 < |run| ensures StepAt(run, i) {
      assert OwnerAct(run[i], run[i + 1]) || RtAct(run[i], run[i + 1]) || ServiceAct(run[i], run[i + 1]);
    }
  }

  lemma ShutDown() returns (run: seq<World>)
    ensures Piece(run) && |run| > 1 && run[0] == Stopped(Operational, OwnerShutdown(ReadShutdown, true))
    ensures run[|run| - 1] == Stopped(Shutdown, Idle)
  {
    var at := (bus: BusState, sd: ShutdownPc) => Stopped(bus, OwnerShutdown(sd, true));
    run := [
      at(Operational, ReadShutdown), at(Operational, ReadPreInit), at(Operational, ReadInitialized),
      at(Operational, ReadConfigured), at(Operational, ReadActivated), at(Operational, ReadOperational),
      at(Operational, WriteShuttingDown), at(ShuttingDown, PreShutdown), at(ShuttingDown, WriteShutdown),
      at(Shutdown, Returned), Stopped(Shutdown, Idle)];
    forall i: nat | i + 1 < |run| ensures StepAt(run, i) { assert OwnerAct(run[i], run[i + 1]); }
  }

  // Two pieces whose ends fit.
  lemma Joined(a: seq<World>, b: seq<World>)
    requires a != [] && b != [] && Piece(a) && Piece(b) && Act(a[|a| - 1], b[0])
    ensures Piece(a + b)
  {
    forall i: nat | i + 1 < |a + b| ensures StepAt(a + b, i) {
      assert i + 1 < |a| ==> StepAt(a, i);
      assert i >= |a| ==> StepAt(b, i - |a|);
    }
  }

  // A run in which the bus is started, becomes Operational, is cycled, stopped during a cycle, and ends
  // in Shutdown.
  lemma FullLifecycle() returns (run: seq<World>, k: nat)
    ensures IsRun(run) && k < |run| && run[k].bus == Operational && run[k].rt.RtCycle?
    ensures run[|run| - 1] == Stopped(Shutdown, Idle)
  {
    var up := BringUp();
    var spin := SpinUp();
    var stop := StopLoops();
    var down := ShutDown();
    assert OwnerAct(up[|up| - 1], spin[0]);
    Joined(up, spin);
    assert OwnerAct(spin[|spin| - 1], stop[0]);
    Joined(up + spin, stop);
    assert OwnerAct(stop[|stop| - 1], down[0]);
    Joined(up + spin + stop, down);
    run := up + spin + stop + down;
    k := |up| + |spin| - 1;
    assert run[k] == spin[|spin| - 1];
  }
}
