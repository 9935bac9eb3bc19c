/**
 The backend's lifecycle and cyclic process data exchange, as one thread at a time
 performs it, with user hooks that neither throw nor re-enter the bus.
 */
module Backend {
  import opened Options
  import opened BusStates
  import opened Division
  import opened DcSync
  import opened PdoRegions
  import opened Devices

  datatype Status = Ok | Failed

  datatype Parameters = Parameters(
    pdoBufferSize: nat, timeout: int,                       // timeout of activation; 0 disables it
    dcEnabled: bool, dcCycleTime: int, masterSendOffset: int,
    pdoDiagnostics: bool, mailboxDiagnostics: bool, escDiagnostics: bool, escPortDiagnostics: bool)

  // What ecx_config_map_group did: the IO map size it needs, and each slave's regions in it.
  datatype Mapping = Mapping(size: nat, outputs: seq<Region>, inputs: seq<Region>)

  // SOEM's regions of n slaves do not overlap, and the size it reports is where the last one ends.
  ghost predicate WellMapped(m: Mapping, n: nat) {
    && |m.outputs| == |m.inputs| == n && MapLayout(m.outputs, m.inputs, m.size)
    && (m.size == Extent(m.outputs) || m.size == Extent(m.inputs))
  }

  lemma MappedInside(m: Mapping, n: nat, size: nat)
    requires WellMapped(m, n)
    ensures m.size <= size ==> MapLayout(m.outputs, m.inputs, size)
    ensures m.size > size ==> !(AllInside(m.outputs, size) && AllInside(m.inputs, size))
  {
    ExtentFits(m.outputs, size);
    ExtentFits(m.inputs, size);
    ExtentFits(m.outputs, m.size);
    ExtentFits(m.inputs, m.size);
  }

  // ---- hook phases -----------------------------------------------------------------------------

  // Phase h for devices 0 .. n-1, in order.
  function Phase(h: Hook, n: nat): seq<(Hook, nat)> { seq(n, i => (h, i)) }

  function PhaseLog(phases: seq<Hook>, n: nat): seq<(Hook, nat)> {
    if phases == [] then [] else PhaseLog(phases[..|phases| - 1], n) + Phase(phases[|phases| - 1], n)
  }

  lemma PhaseNext(h: Hook, i: nat)
    ensures Phase(h, i + 1) == Phase(h, i) + [(h, i)]
  {
  }

  lemma PhaseLogNext(phases: seq<Hook>, h: Hook, n: nat)
    ensures PhaseLog(phases + [h], n) == PhaseLog(phases, n) + Phase(h, n)
  {
    assert (phases + [h])[..|phases|] == phases;
  }

  // What every device has been through when no public call is in progress.
  predicate PhasesOk(state: BusState, phases: seq<Hook>) {
    match state
    case PreInit | Initialized => phases == []
    case Configured => phases == [OnStartup, OnPdoConfigured]
    case Activated | Operational => phases == [OnStartup, OnPdoConfigured, OnPreActivate, OnPostActivate]
    case ShuttingDown => false
    case Shutdown => phases == [] || phases == [OnStartup] || ShutDownPhases(phases)
  }

  predicate ShutDownPhases(phases: seq<Hook>) {
    || phases == [OnStartup, OnPdoConfigured, OnPreShutdown, OnPostShutdown]
    || phases == [OnStartup, OnPdoConfigured, OnPreActivate, OnPreShutdown, OnPostShutdown]
    || phases == [OnStartup, OnPdoConfigured, OnPreActivate, OnPostActivate, OnPreShutdown, OnPostShutdown]
  }

  const BEFORE_ACTIVATION: seq<Hook> := [OnStartup, OnPdoConfigured, OnPreActivate]

  // ---- activation timeout ----------------------------------------------------------------------

  // One call of update_service in state Activated: its two clock readings, and the device states
  // the refresh showed (true: OPERATIONAL).
  datatype ServiceCall = ServiceCall(first: int, check: int, operational: seq<bool>)

  predicate AllOperational(states: seq<bool>) { forall b | b in states :: b }

  function ServiceNext(state: BusState, start: Option<int>, timeout: int, c: ServiceCall): (BusState, Option<int>) {
    if state != Activated then (state, start)
    else
      var begin := if start.Some? then start.value else c.first;
      if timeout > 0 && c.check - begin > timeout then (Shutdown, Some(begin))
      else (if AllOperational(c.operational) then Operational else Activated, Some(begin))
  }

  // ---- frame counters --------------------------------------------------------------------------

  datatype FrameCounters = FrameCounters(sent: nat, lost: nat, mismatches: nat)

  // update_diagnostics_fast: a negative working counter is a lost frame, an unexpected one a mismatch.
  function Counted(c: FrameCounters, wkc: int, expected: int): FrameCounters {
    FrameCounters(c.sent + 1,
                  c.lost + (if wkc < 0 then 1 else 0),
                  c.mismatches + (if wkc >= 0 && wkc != expected then 1 else 0))
  }

  function CountedAll(c: FrameCounters, wkcs: seq<(int, int)>): FrameCounters {
    if wkcs == [] then c
    else Counted(CountedAll(c, wkcs[..|wkcs| - 1]), wkcs[|wkcs| - 1].0, wkcs[|wkcs| - 1].1)
  }

  function HowMany(wkcs: seq<(int, int)>, p: ((int, int)) -> bool): nat {
    if wkcs == [] then 0 else HowMany(wkcs[..|wkcs| - 1], p) + if p(wkcs[|wkcs| - 1]) then 1 else 0
  }

  // Over any cycles: every frame is counted as sent; the lost ones are those nobody answered, the
  // mismatches those answered with another working counter than expected; the rest came back complete.
  lemma {:induction false} FramesAddUp(c: FrameCounters, wkcs: seq<(int, int)>)
    ensures var r := CountedAll(c, wkcs);
            && r.sent == c.sent + |wkcs|
            && r.lost == c.lost + HowMany(wkcs, (w: (int, int)) => w.0 < 0)
            && r.mismatches == c.mismatches + HowMany(wkcs, (w: (int, int)) => 0 <= w.0 != w.1)
            && r.sent - c.sent == (r.lost - c.lost) + (r.mismatches - c.mismatches)
                                  + HowMany(wkcs, (w: (int, int)) => 0 <= w.0 == w.1)
  {
    if wkcs != [] { FramesAddUp(c, wkcs[..|wkcs| - 1]); }
  }

  // One realtime cycle as the bus answers it: the process data received, the reference clock if a
  // slave has one, and the working counters.
  datatype Frame = Frame(now: int, received: seq<Bytes>, dcTime: Option<int>, wkc: int, expected: int)

  ghost predicate BuffersFit(d: EthercatDevice, rxSize: nat, txSize: nat)
    reads d`pdoInitialized, d`rxPdo, d`txPdo
  {
    d.pdoInitialized && |d.rxPdo| == rxSize && |d.txPdo| == txSize
  }

  // ---- the backend -----------------------------------------------------------------------------

  class BackendImpl {
    const params: Parameters
    const dcSync: DCSyncController
    var state: BusState
    var slaveCount: nat
    var devices: seq<EthercatDevice>
    var ioMap: array<bv8>
    var outputs: seq<Region>             // where SOEM keeps slave i+1's process data; empty before mapping
    var inputs: seq<Region>
    var activationStart: Option<int>
    var frames: FrameCounters
    ghost var mappedSize: nat                  // what ecx_config_map_group reported; 0 before
    ghost var managed: seq<EthercatDevice>     // every device ever created by this bus
    ghost var phases: seq<Hook>                // completed phases
    ghost var log: seq<(Hook, nat)>            // lifecycle calls on all devices, in order

    predicate Mapped()
      reads `state
    {
      state == Configured || state == Activated || state == Operational
    }

    // The DC controller runs with the configured cycle and offset and the default gains.
    ghost predicate DcConfigured() {
      && dcSync.cycleTime == params.dcCycleTime && dcSync.syncOffset == params.masterSendOffset
      && dcSync.pGain == P_GAIN && dcSync.iGain == I_GAIN
      && (params.dcEnabled ==> params.dcCycleTime > 0)
    }

    ghost predicate SlaveListValid()
      reads `outputs, `inputs, `slaveCount
    {
      |outputs| == |inputs| == slaveCount
    }

    // All process data regions lie in the IO map.
    ghost predicate RegionsInside()
      reads `outputs, `inputs, `ioMap
    {
      AllInside(outputs, ioMap.Length) && AllInside(inputs, ioMap.Length)
    }

    // The regions lie in the IO map, without overlapping, exactly when the size reported by SOEM did
    // not exceed the configured buffer.
    ghost predicate MapOk()
      reads `outputs, `inputs, `slaveCount, `ioMap, `mappedSize
    {
      SlaveListValid() &&
      if mappedSize <= params.pdoBufferSize then MapLayout(outputs, inputs, ioMap.Length) else !RegionsInside()
    }

    ghost predicate IdsValid()
      reads `managed
    {
      forall i | 0 <= i < |managed| :: managed[i].id == i + 1
    }

    ghost predicate PdoValid()
      reads `outputs, `inputs, `managed, managed`pdoInitialized, managed`rxPdo, managed`txPdo
    {
      && |outputs| == |inputs| == |managed|
      && forall i | 0 <= i < |managed| :: BuffersFit(managed[i], outputs[i].len, inputs[i].len)
    }

    ghost predicate DevicesValid()
      reads `managed
    {
      && (forall i, j | 0 <= i < j < |managed| :: managed[i] != managed[j])
      && IdsValid()
    }

    ghost predicate HooksValid()
      reads `managed, `phases, `log
    {
      log == PhaseLog(phases, |managed|)
    }

    // Holds whenever shutdown() may be called, also from inside startup() and activate().
    ghost predicate Core()
      reads `state, `devices, `managed, `phases, `log, `slaveCount, `outputs, `inputs, `ioMap, `mappedSize
      reads managed`pdoInitialized, managed`rxPdo, managed`txPdo
    {
      && DevicesValid() && HooksValid() && MapOk()
      && DcConfigured()
      && (state == PreInit ==> managed == devices == [] && phases == [])
      && (phases == [] ==> mappedSize == 0) && (|phases| > 1 ==> mappedSize <= params.pdoBufferSize)
      && (state == BusState.Shutdown ==> devices == [])
      && (state != PreInit && state != BusState.Shutdown ==> devices == managed && |managed| == slaveCount)
      && (Mapped() ==> mappedSize <= params.pdoBufferSize && PdoValid())
    }

    // Holds between public calls.
    ghost predicate Valid()
      reads `state, `devices, `managed, `phases, `log, `slaveCount, `outputs, `inputs, `ioMap, `mappedSize
      reads managed`pdoInitialized, managed`rxPdo, managed`txPdo
    {
      Core() && PhasesOk(state, phases)
    }

    // The DC controller divides by the cycle time.
    constructor (params: Parameters)
      requires params.dcEnabled ==> params.dcCycleTime > 0
      ensures Valid() && state == PreInit && managed == [] && this.params == params
      ensures fresh(ioMap) && fresh(dcSync) && dcSync.Value() == Controller(0, 0)
      ensures dcSync.cycleTime == params.dcCycleTime && dcSync.syncOffset == params.masterSendOffset
      ensures dcSync.pGain == P_GAIN && dcSync.iGain == I_GAIN
    {
      this.params := params;
      dcSync := new DCSyncController(params.dcCycleTime, params.masterSendOffset, P_GAIN, I_GAIN);
      state, slaveCount, devices := PreInit, 0, [];
      ioMap := new bv8[0];
      outputs, inputs, activationStart, frames := [], [], None, FrameCounters(0, 0, 0);
      mappedSize, managed, phases, log := 0, [], [], [];
    }

    predicate OnBus(id: nat)
      reads `slaveCount
    {
      0 < id <= slaveCount
    }

    // initResult and deviceCount are what ecx_init and ecx_config_init return.
    method Initialize(initResult: int, deviceCount: int) returns (r: Status)
      requires Valid()
      modifies this
      ensures Valid() && ioMap == old(ioMap)
      ensures r == Ok <==> old(state) == PreInit && initResult > 0 && deviceCount > 0
      ensures r == Ok ==> state == Initialized && |managed| == slaveCount == deviceCount && fresh(managed)
      ensures r == Failed ==> state == old(state) && managed == old(managed)
    {
      if state != PreInit || initResult <= 0 || deviceCount <= 0 {
        return Failed;
      }
      var created := CreateDevices(deviceCount);
      Adopt(created);
      return Ok;
    }

    // The slave list and the device list after ecx_config_init.
    method Adopt(created: seq<EthercatDevice>)
      requires state == PreInit && log == [] && phases == [] && mappedSize == 0 && created != []
      requires DcConfigured()
      requires forall i | 0 <= i < |created| :: created[i].id == i + 1
      requires forall i, j | 0 <= i < j < |created| :: created[i] != created[j]
      modifies `slaveCount, `outputs, `inputs, `state, `devices, `managed
      ensures Core() && state == Initialized && managed == created && slaveCount == |created|
    {
      slaveCount := |created|;
      outputs, inputs := seq(|created|, i => Region(0, 0)), seq(|created|, i => Region(0, 0));
      state := Initialized;
      devices, managed := created, created;
      assert HooksValid();
    }

    // The devices found, with ids from 1 on.
    method CreateDevices(n: nat) returns (created: seq<EthercatDevice>)
      ensures |created| == n && fresh(created) && forall i | 0 <= i < n :: created[i].id == i + 1
      ensures forall i, j | 0 <= i < j < n :: created[i] != created[j]
    {
      created := [];
      for i := 0 to n
        invariant |created| == i && fresh(created) && forall k | 0 <= k < i :: created[k].id == k + 1
        invariant forall k, l | 0 <= k < l < i :: created[k] != created[l]
      {
        var d := new EthercatDevice(i + 1);
        created := created + [d];
      }
    }

    // `for (auto& device : devices_) device->on_...()`
    method CallAll(h: Hook)
      requires HooksValid() && devices == managed
      modifies `phases, `log
      ensures HooksValid() && phases == old(phases) + [h]
    {
      for i := 0 to |devices|
        invariant phases == old(phases) && log == old(log) + Phase(h, i)
      {
        log := log + [(h, i)];   // the call on devices[i]
        PhaseNext(h, i);
      }
      PhaseLogNext(phases, h, |managed|);
      phases := phases + [h];
    }

    method Shutdown() returns (r: Status)
      requires Core()
      modifies `state, `phases, `log, `devices
      ensures Core() && (old(PhasesOk(state, phases)) ==> PhasesOk(state, phases))   // so Valid() is kept
      ensures r == Failed <==> old(state) == ShuttingDown
      ensures r == Ok ==> state == BusState.Shutdown && devices == []
      ensures r == Ok ==> phases == old(phases) + (if old(Mapped()) then [OnPreShutdown, OnPostShutdown] else [])
      ensures r == Failed ==> state == old(state) && phases == old(phases)
    {
      if state == BusState.Shutdown {
        return Ok;
      }
      if state == PreInit || state == Initialized {
        CloseUnmapped();
        return Ok;
      }
      if state != Configured && state != Activated && state != Operational {
        return Failed;
      }
      ShutdownMapped();
      return Ok;
    }

    // The part of shutdown() for a bus without process data: no hook runs.
    method CloseUnmapped()
      requires Core() && (state == PreInit || state == Initialized)
      modifies `state, `devices
      ensures Core() && state == BusState.Shutdown && devices == []
    {
      if state == Initialized {
        devices := [];
      }
      state := BusState.Shutdown;
    }

    // The part of shutdown() for a bus with process data.
    method ShutdownMapped()
      requires Core() && Mapped()
      modifies `state, `phases, `log, `devices
      ensures Core() && state == BusState.Shutdown && devices == []
      ensures phases == old(phases) + [OnPreShutdown, OnPostShutdown]
    {
      RunShutdownHooks();
    }

    method RunShutdownHooks()
      requires HooksValid() && devices == managed
      modifies `state, `phases, `log, `devices
      ensures HooksValid() && state == BusState.Shutdown && devices == []
      ensures phases == old(phases) + [OnPreShutdown, OnPostShutdown]
    {
      state := ShuttingDown;
      CallAll(OnPreShutdown);
      state := BusState.Shutdown;
      CallAll(OnPostShutdown);
      devices := [];
      assert phases == old(phases) + [OnPreShutdown] + [OnPostShutdown];
    }

    method AcquireDevice(id: nat) returns (r: Option<EthercatDevice>)
      requires Valid()
      ensures r.Some? <==> state == Initialized && OnBus(id)
      ensures r.Some? ==> r.value == managed[id - 1]
    {
      if state != Initialized || !OnBus(id) {
        return None;
      }
      return Some(devices[id - 1]);
    }

    // dcFound: ecx_configdc found a device with a distributed clock.
    method Startup(mapping: Mapping, dcFound: bool, now: int) returns (r: Status)
      requires Valid() && (state == Initialized ==> WellMapped(mapping, slaveCount))
      modifies this, managed
      ensures Valid() && managed == old(managed) && (ioMap == old(ioMap) || fresh(ioMap))
      ensures old(state) != Initialized ==> r == Failed && state == old(state) && phases == old(phases)
      ensures r == Ok <==> old(state) == Initialized && mapping.size <= params.pdoBufferSize
                           && (dcFound || !params.dcEnabled)
      ensures r == Ok ==> state == Configured
      ensures r == Failed && old(state) == Initialized ==> state == BusState.Shutdown && phases == [OnStartup]
      ensures old(state) == Initialized ==>
                outputs == mapping.outputs && inputs == mapping.inputs && mappedSize == mapping.size
    {
      if state != Initialized {
        return Failed;
      }
      CallAll(OnStartup);
      assert phases == [OnStartup];
      r := ConfigureProcessData(mapping, dcFound, now);
    }

    // startup(), after the on_startup calls.
    method ConfigureProcessData(mapping: Mapping, dcFound: bool, now: int) returns (r: Status)
      requires DevicesValid() && HooksValid() && phases == [OnStartup] && WellMapped(mapping, slaveCount)
      requires state == Initialized && devices == managed && |managed| == slaveCount
      requires DcConfigured()
      modifies `state, `phases, `log, `devices, `ioMap, `outputs, `inputs, `mappedSize, managed
      ensures Valid() && fresh(ioMap)
      ensures outputs == mapping.outputs && inputs == mapping.inputs && mappedSize == mapping.size
      ensures r == Ok <==> mapping.size <= params.pdoBufferSize && (dcFound || !params.dcEnabled)
      ensures r == Ok ==> state == Configured
      ensures r == Failed ==> state == BusState.Shutdown && phases == [OnStartup]
    {
      MapProcessData(mapping);
      r := FinishStartup(mapping.size, dcFound, now);
    }

    method MapProcessData(mapping: Mapping)
      requires WellMapped(mapping, slaveCount)
      modifies `ioMap, `outputs, `inputs, `mappedSize
      ensures MapOk() && fresh(ioMap) && mappedSize == mapping.size
      ensures outputs == mapping.outputs && inputs == mapping.inputs
    {
      MappedInside(mapping, slaveCount, params.pdoBufferSize);
      ioMap := new bv8[params.pdoBufferSize](i => 0);
      outputs, inputs, mappedSize := mapping.outputs, mapping.inputs, mapping.size;
    }

    // startup(), after ecx_config_map_group.
    method FinishStartup(mapSize: nat, dcFound: bool, now: int) returns (r: Status)
      requires mapSize == mappedSize && Core() && state == Initialized && phases == [OnStartup]
      modifies `state, `phases, `log, `devices, managed
      ensures Valid()
      ensures r == Ok <==> mappedSize <= params.pdoBufferSize && (dcFound || !params.dcEnabled)
      ensures r == Ok ==> state == Configured
      ensures r == Failed ==> state == BusState.Shutdown && phases == [OnStartup]
    {
      if mapSize > params.pdoBufferSize || (!dcFound && params.dcEnabled) {
        var _ := Shutdown();
        return Failed;
      }
      state := Configured;
      ConfigureAll(now);
      assert phases == [OnStartup, OnPdoConfigured];
      return Ok;
    }

    // Notify all devices that the PDOs have been configured.
    method ConfigureAll(now: int)
      requires DevicesValid() && HooksValid() && devices == managed && |outputs| == |inputs| == |managed|
      modifies `phases, `log, managed
      ensures HooksValid() && PdoValid() && phases == old(phases) + [OnPdoConfigured]
    {
      for i := 0 to |devices|
        invariant forall k | 0 <= k < i :: BuffersFit(devices[k], outputs[k].len, inputs[k].len)
        invariant phases == old(phases) && log == old(log) + Phase(OnPdoConfigured, i)
      {
        devices[i].PdoConfigured(outputs[i].len, inputs[i].len, now);
        log := log + [(OnPdoConfigured, i)];
        PhaseNext(OnPdoConfigured, i);
      }
      PhaseLogNext(phases, OnPdoConfigured, |managed|);
      phases := phases + [OnPdoConfigured];
    }

    // requested and reached: whether SAFE_OP could be requested from, and was reached by, each device.
    method Activate(requested: seq<bool>, reached: seq<bool>) returns (r: Status)
      requires Valid() && |requested| == |reached| == |devices|
      modifies `state, `phases, `log, `devices, `activationStart
      ensures Valid()
      ensures old(state) != Configured ==> r == Failed && state == old(state) && phases == old(phases)
      ensures r == Ok <==> old(state) == Configured && AllOperational(requested) && AllOperational(reached)
      ensures r == Ok ==> state == Activated && activationStart == None
      ensures r == Failed && old(state) == Configured ==>
                && state == BusState.Shutdown
                && phases == BEFORE_ACTIVATION + [OnPreShutdown, OnPostShutdown]
    {
      if state != Configured {
        return Failed;
      }
      CallAll(OnPreActivate);
      assert phases == BEFORE_ACTIVATION;
      activationStart := None;
      r := BringToSafeOp(requested, reached);
    }

    // Requests SAFE_OP from every device, waits for it, and shuts down if any device fails.
    method BringToSafeOp(requested: seq<bool>, reached: seq<bool>) returns (r: Status)
      requires Core() && state == Configured && phases == BEFORE_ACTIVATION
      requires |requested| == |reached| == |devices|
      modifies `state, `phases, `log, `devices
      ensures Core()
      ensures r == Ok <==> AllOperational(requested) && AllOperational(reached)
      ensures r == Ok ==> state == Activated && phases == BEFORE_ACTIVATION + [OnPostActivate]
      ensures r == Failed ==>
                state == BusState.Shutdown && phases == BEFORE_ACTIVATION + [OnPreShutdown, OnPostShutdown]
    {
      var safe := AwaitAll(requested);
      if safe {
        safe := AwaitAll(reached);
      }
      if !safe {
        var _ := Shutdown();
        return Failed;
      }
      state := Activated;
      CallAll(OnPostActivate);
      return Ok;
    }

    // Asks the devices one by one and gives up at the first that refuses.
    method AwaitAll(answers: seq<bool>) returns (all: bool)
      requires |answers| == |devices|
      ensures all <==> AllOperational(answers)
    {
      for i := 0 to |devices|
        invariant AllOperational(answers[..i])
      {
        if !answers[i] {
          assert answers[i] in answers;
          return false;
        }
        assert answers[..i + 1] == answers[..i] + [answers[i]];
      }
      assert answers[..|devices|] == answers;
      return true;
    }

    // ---- process data --------------------------------------------------------------------------

    // The checks of write_rx_pdo and read_tx_pdo, for a region and a buffer of the given size.
    predicate Accepts(id: nat, regions: seq<Region>, size: nat)
      requires |regions| == slaveCount
      reads `state, `slaveCount
    {
      state != PreInit && state != Initialized && OnBus(id) && size == regions[id - 1].len
    }

    // An accepted access copies the whole region; if that is not inside the IO map, the source's memcpy
    // is undefined and no claim is made.
    method WriteRxPdo(id: nat, data: Bytes) returns (r: PdoStatus)
      requires SlaveListValid()
      modifies ioMap
      ensures r == PdoOk || r == PdoOutsideMap <==> Accepts(id, outputs, |data|)
      ensures r == PdoOk ==> Inside(outputs[id - 1], ioMap.Length)
                             && ioMap[..] == Overwritten(old(ioMap[..]), outputs[id - 1], data)
      ensures r == PdoOutsideMap ==> !Inside(outputs[id - 1], ioMap.Length)
      ensures r != PdoOk && r != PdoOutsideMap ==> ioMap[..] == old(ioMap[..])
    {
      if state == PreInit || state == Initialized {
        return PdoNotConfigured;
      }
      if !OnBus(id) {
        return NotOnBus;
      }
      if |data| != outputs[id - 1].len {
        return PdoSizeMismatch;
      }
      if outputs[id - 1].off + outputs[id - 1].len > ioMap.Length {
        return PdoOutsideMap;
      }
      CopyInto(ioMap, outputs[id - 1], data);
      return PdoOk;
    }

    method ReadTxPdo(id: nat, size: nat) returns (r: PdoStatus, data: Bytes)
      requires SlaveListValid()
      ensures r == PdoOk || r == PdoOutsideMap <==> Accepts(id, inputs, size)
      ensures r == PdoOk ==> Inside(inputs[id - 1], ioMap.Length) && data == At(ioMap[..], inputs[id - 1])
      ensures r == PdoOutsideMap ==> !Inside(inputs[id - 1], ioMap.Length)
    {
      if state == PreInit || state == Initialized {
        return PdoNotConfigured, [];
      }
      if !OnBus(id) {
        return NotOnBus, [];
      }
      if size != inputs[id - 1].len {
        return PdoSizeMismatch, [];
      }
      if inputs[id - 1].off + size > ioMap.Length {
        return PdoOutsideMap, [];
      }
      return PdoOk, ioMap[inputs[id - 1].off..inputs[id - 1].off + size];
    }

    // values are the devices' current rx buffers.
    ghost predicate RxAre(values: seq<Bytes>)
      reads `managed, managed`rxPdo
    {
      |values| == |managed| && forall i | 0 <= i < |managed| :: managed[i].rxPdo == values[i]
    }

    ghost predicate Cyclic()
      reads `state, `devices, `managed, `phases, `log, `slaveCount, `outputs, `inputs, `ioMap, `mappedSize
      reads managed`pdoInitialized, managed`rxPdo, managed`txPdo
    {
      Core() && (state == Activated || state == Operational)
    }

    // EthercatDevice::update_write
    method UpdateWrite(d: EthercatDevice, now: int)
      requires Mapped() && SlaveListValid() && OnBus(d.id) && |d.rxPdo| == outputs[d.id - 1].len
      requires Inside(outputs[d.id - 1], ioMap.Length)
      modifies ioMap, d`rxLastWrite
      ensures ioMap[..] == Overwritten(old(ioMap[..]), outputs[d.id - 1], d.rxPdo) && d.rxLastWrite == now
    {
      var status := WriteRxPdo(d.id, d.rxPdo);
      assert status == PdoOk;
      d.rxLastWrite := now;
    }

    // The write dispatch: every device's rx value goes to its output region, in device order.
    method WriteAll(now: int, ghost values: seq<Bytes>)
      requires Mapped() && SlaveListValid() && Layout(outputs, ioMap.Length)
      requires IdsValid() && devices == managed && |managed| == slaveCount
      requires RxAre(values) && Fit(outputs, values)
      modifies ioMap, managed`rxLastWrite
      ensures ioMap[..] == Filled(old(ioMap[..]), outputs, values, |outputs|)
      ensures forall d | d in managed :: d.rxLastWrite == now
    {
      ghost var before, rs := ioMap[..], outputs;
      for i := 0 to |devices|
        invariant ioMap[..] == Filled(before, rs, values, i)
        invariant forall k | 0 <= k < i :: devices[k].rxLastWrite == now
      {
        FilledNext(before, rs, values, i);
        WriteOne(i, now, values[i]);
      }
    }

    method WriteOne(i: nat, now: int, ghost value: Bytes)
      requires Mapped() && SlaveListValid() && IdsValid() && devices == managed && i < |managed| == slaveCount
      requires Inside(outputs[i], ioMap.Length) && managed[i].rxPdo == value && |value| == outputs[i].len
      modifies ioMap, managed`rxLastWrite
      ensures ioMap[..] == Overwritten(old(ioMap[..]), outputs[i], value)
      ensures forall k | 0 <= k < |managed| ::
                managed[k].rxLastWrite == if managed[k] == managed[i] then now else old(managed[k].rxLastWrite)
    {
      assert devices[i].id == i + 1;
      UpdateWrite(devices[i], now);
    }

    // ecx_send_processdata: the frame carries the output regions.
    method Send(ghost values: seq<Bytes>) returns (sent: seq<Bytes>)
      requires AllInside(outputs, ioMap.Length) && Fit(outputs, values)
      requires forall i | 0 <= i < |outputs| :: At(ioMap[..], outputs[i]) == values[i]
      ensures sent == values
    {
      sent := [];
      for i := 0 to |outputs|
        invariant sent == values[..i]
      {
        assert At(ioMap[..], outputs[i]) == ioMap[outputs[i].off..outputs[i].off + outputs[i].len];
        sent := sent + [ioMap[outputs[i].off..outputs[i].off + outputs[i].len]];
      }
    }

    // ecx_receive_processdata: the frame overwrites the input regions.
    method Receive(received: seq<Bytes>)
      requires Layout(inputs, ioMap.Length) && Fit(inputs, received)
      modifies ioMap
      ensures ioMap[..] == Filled(old(ioMap[..]), inputs, received, |inputs|)
    {
      for i := 0 to |inputs|
        invariant ioMap[..] == Filled(old(ioMap[..]), inputs, received, i)
      {
        CopyInto(ioMap, inputs[i], received[i]);
      }
    }

    // EthercatDevice::update_read
    method UpdateRead(d: EthercatDevice, now: int)
      requires Mapped() && SlaveListValid() && OnBus(d.id) && |d.txPdo| == inputs[d.id - 1].len
      requires Inside(inputs[d.id - 1], ioMap.Length)
      modifies d`txPdo, d`txLastRead
      ensures d.txPdo == At(ioMap[..], inputs[d.id - 1]) && d.txLastRead == now
    {
      var status, data := ReadTxPdo(d.id, |d.txPdo|);
      assert status == PdoOk;
      d.txPdo := data;
      d.txLastRead := now;
    }

    // The read dispatch.
    method ReadAll(now: int)
      requires Mapped() && SlaveListValid() && AllInside(inputs, ioMap.Length)
      requires PdoValid() && DevicesValid() && devices == managed
      modifies managed`txPdo, managed`txLastRead
      ensures PdoValid()
      ensures forall i | 0 <= i < |managed| ::
                managed[i].txPdo == At(ioMap[..], inputs[i]) && managed[i].txLastRead == now
    {
      for i := 0 to |devices|
        invariant PdoValid()
        invariant forall k | 0 <= k < i :: devices[k].txPdo == At(ioMap[..], inputs[k]) && devices[k].txLastRead == now
      {
        assert BuffersFit(devices[i], outputs[i].len, inputs[i].len);
        UpdateRead(devices[i], now);
      }
    }

    // Write dispatch and process data exchange: the frame sent carries every device's value; every output
    // region now holds it, every input region what was received, and all other bytes are as before.
    method Exchange(now: int, received: seq<Bytes>, ghost values: seq<Bytes>) returns (sent: seq<Bytes>)
      requires Mapped() && SlaveListValid() && MapLayout(outputs, inputs, ioMap.Length)
      requires DevicesValid() && devices == managed && |managed| == slaveCount
      requires RxAre(values) && Fit(outputs, values) && Fit(inputs, received)
      modifies ioMap, managed`rxLastWrite
      ensures sent == values
      ensures forall i | 0 <= i < |outputs| :: At(ioMap[..], outputs[i]) == values[i]
      ensures forall i | 0 <= i < |inputs| :: At(ioMap[..], inputs[i]) == received[i]
      ensures forall j | 0 <= j < ioMap.Length && !Used(outputs, j) && !Used(inputs, j) :: ioMap[j] == old(ioMap[j])
    {
      ghost var before := ioMap[..];
      WriteAll(now, values);
      ghost var written := ioMap[..];
      FilledRegions(before, outputs, values, |outputs|);
      sent := Send(values);
      Receive(received);
      CycleMap(before, written, ioMap[..], outputs, values, inputs, received);
    }

    // Runs the DC controller if it is enabled and some slave has a clock.
    method DcCorrection(dcTime: Option<int>) returns (correction: Option<int>)
      requires DcConfigured()
      modifies dcSync
      ensures DcStep(old(dcSync.Value()), dcTime, dcSync.Value(), correction)
    {
      if params.dcEnabled && dcTime.Some? {
        var offset := dcSync.Update(dcTime.value);
        return Some(offset);
      }
      return None;
    }

    // The controller after a cycle, and the correction handed to the executor.
    ghost predicate DcStep(before: Controller, dcTime: Option<int>, after: Controller, correction: Option<int>) {
      if params.dcEnabled && dcTime.Some? then
        && params.dcCycleTime > 0
        && after == Updated(before, params.dcCycleTime, params.masterSendOffset, dcTime.value)
        && correction == Some(Correction(after, P_GAIN, I_GAIN))
      else after == before && correction == None
    }

    // What a realtime cycle leaves behind: each output region holds its device's value, each input
    // region and tx buffer what was received, and all bytes outside the regions are as before.
    ghost predicate Exchanged(before: Bytes, received: seq<Bytes>)
      reads `outputs, `inputs, `ioMap, ioMap, `managed, managed`rxPdo, managed`txPdo
    {
      && |outputs| == |inputs| == |managed| == |received| && |before| == ioMap.Length
      && MapLayout(outputs, inputs, ioMap.Length)
      && (forall i | 0 <= i < |managed| :: At(ioMap[..], outputs[i]) == managed[i].rxPdo)
      && (forall i | 0 <= i < |managed| :: At(ioMap[..], inputs[i]) == received[i] == managed[i].txPdo)
      && (forall j | 0 <= j < ioMap.Length && !Used(outputs, j) && !Used(inputs, j) :: ioMap[j] == before[j])
    }

    // internal_pdo_update: no device access can fail, and every tx buffer ends up with its input region.
    method PdoUpdate(f: Frame, ghost values: seq<Bytes>) returns (sent: seq<Bytes>, correction: Option<int>)
      requires Cyclic() && Fit(inputs, f.received) && RxAre(values)
      modifies ioMap, dcSync, managed`rxLastWrite, managed`txPdo, managed`txLastRead
      ensures PdoValid() && Exchanged(old(ioMap[..]), f.received) && RxAre(sent)
      ensures DcStep(old(dcSync.Value()), f.dcTime, dcSync.Value(), correction)
    {
      sent := Exchange(f.now, f.received, values);
      correction := DcCorrection(f.dcTime);
      ReadAll(f.now);
    }

    // update_rt: the correction for the executor's next deadline, if any, and what the frame sent carried.
    method UpdateRt(f: Frame) returns (r: Status, correction: Option<int>, sent: seq<Bytes>)
      requires Valid() && (state == Activated || state == Operational ==> Fit(inputs, f.received))
      modifies `frames, ioMap, dcSync, managed`rxLastWrite, managed`txPdo, managed`txLastRead
      ensures Valid()
      ensures r == Ok <==> state == Activated || state == Operational
      ensures r == Failed ==> ioMap[..] == old(ioMap[..]) && forall d | d in managed :: d.txPdo == old(d.txPdo)
      ensures r == Failed ==> correction == None && dcSync.Value() == old(dcSync.Value()) && frames == old(frames)
      ensures r == Ok ==> Exchanged(old(ioMap[..]), f.received)
      ensures r == Ok ==> RxAre(sent)
      ensures r == Ok ==> DcStep(old(dcSync.Value()), f.dcTime, dcSync.Value(), correction)
      ensures r == Ok ==>
                frames == if params.pdoDiagnostics then Counted(old(frames), f.wkc, f.expected) else old(frames)
    {
      if state != Activated && state != Operational {
        return Failed, None, [];
      }
      sent, correction := RunCycle(f);
      r := Ok;
    }

    // internal_pdo_update with its diagnostics, on a bus that may run cycles.
    method RunCycle(f: Frame) returns (sent: seq<Bytes>, correction: Option<int>)
      requires Cyclic() && Fit(inputs, f.received)
      modifies `frames, ioMap, dcSync, managed`rxLastWrite, managed`txPdo, managed`txLastRead
      ensures PdoValid() && Exchanged(old(ioMap[..]), f.received) && RxAre(sent)
      ensures DcStep(old(dcSync.Value()), f.dcTime, dcSync.Value(), correction)
      ensures frames == if params.pdoDiagnostics then Counted(old(frames), f.wkc, f.expected) else old(frames)
    {
      ghost var ds := managed;
      ghost var values := seq(|ds|, i requires 0 <= i < |ds| => old(ds[i].rxPdo));
      sent, correction := PdoUpdate(f, values);
      if params.pdoDiagnostics {
        UpdateDiagnosticsFast(f.wkc, f.expected);
      }
    }

    method UpdateDiagnosticsFast(wkc: int, expected: int)
      modifies `frames
      ensures frames == Counted(old(frames), wkc, expected)
    {
      if wkc >= 0 && wkc != expected {
        frames := frames.(mismatches := frames.mismatches + 1);
      }
      if wkc < 0 {
        frames := frames.(lost := frames.lost + 1);
      }
      frames := frames.(sent := frames.sent + 1);
    }

    // ---- service -------------------------------------------------------------------------------

    // One update_service call; what it does to mailbox and diagnostics is modelled elsewhere. `again`:
    // whether the service loop should go on.
    method UpdateService(c: ServiceCall) returns (r: Status, again: bool)
      requires Valid() && |c.operational| == |devices|
      modifies `state, `phases, `log, `devices, `activationStart
      ensures Valid()
      ensures (state, activationStart) == ServiceNext(old(state), old(activationStart), params.timeout, c)
      ensures r == Failed <==> old(state) == PreInit || state == BusState.Shutdown
      ensures r == Ok ==> (again <==> old(state) == Activated || BackgroundDiagnostics())
    {
      if state == PreInit || state == BusState.Shutdown || state == ShuttingDown {
        return Failed, false;
      }
      if state == Activated {
        r := BringToOperational(c);
        again := true;
      } else {
        r, again := Ok, BackgroundDiagnostics();
      }
    }

    predicate BackgroundDiagnostics() {
      params.mailboxDiagnostics || params.escDiagnostics || params.escPortDiagnostics
    }

    // The branch of internal_service_update for a bus that is Activated.
    method BringToOperational(c: ServiceCall) returns (r: Status)
      requires Core() && state == Activated && PhasesOk(state, phases) && |c.operational| == |devices|
      modifies `state, `phases, `log, `devices, `activationStart
      ensures Core() && PhasesOk(state, phases)
      ensures (state, activationStart) == ServiceNext(old(state), old(activationStart), params.timeout, c)
      ensures r == Failed <==> state == BusState.Shutdown
      ensures var begin := if old(activationStart).Some? then old(activationStart).value else c.first;
              && (state == BusState.Shutdown <==> params.timeout > 0 && c.check - begin > params.timeout)
              && (state == Operational <==> state != BusState.Shutdown && AllOperational(c.operational))
              && activationStart == Some(begin)
    {
      if activationStart.None? {
        activationStart := Some(c.first);
      }
      if params.timeout > 0 && c.check - activationStart.value > params.timeout {
        ShutdownMapped();
        return Failed;
      }
      var all := AwaitAll(c.operational);
      if all {
        EnterOperational();
      }
      return Ok;
    }

    method EnterOperational()
      requires Core() && state == Activated
      modifies `state
      ensures Core() && state == Operational
    {
      state := Operational;
    }
  }

  // A user setting the next value to send, at any moment between public calls, cannot upset the bus.
  method SetRxPdo(b: BackendImpl, d: EthercatDevice, rx: Bytes) returns (r: PdoStatus)
    requires b.Valid() && d in b.managed
    modifies d`rxPdo
    ensures b.Valid() && d.rxPdo == if r == PdoOk then rx else old(d.rxPdo)
    ensures b.Mapped() ==> (r == PdoOk <==> |rx| == b.outputs[d.id - 1].len)
  {
    assert b.Mapped() ==> BuffersFit(d, b.outputs[d.id - 1].len, b.inputs[d.id - 1].len);
    r := d.SetGenericRxPdo(rx);
    assert forall i | 0 <= i < |b.managed| && b.Mapped() :: BuffersFit(b.managed[i], b.outputs[i].len, b.inputs[i].len);
  }

  // Accepted direct accesses all stay inside the IO map exactly when the mapping did not exceed the
  // configured buffer: then startup() may have succeeded, otherwise it has refused and shut down.
  lemma DirectAccessInsideIff(b: BackendImpl)
    requires b.Valid()
    ensures b.RegionsInside() <==> b.mappedSize <= b.params.pdoBufferSize
    ensures !b.RegionsInside() ==> b.state == BusState.Shutdown && b.phases == [OnStartup]
  {
  }

  // ---- hook traces -------------------------------------------------------------------------------

  // The lifecycle calls device d has seen.
  function TraceOf(log: seq<(Hook, nat)>, d: nat): seq<Hook> {
    if log == [] then []
    else TraceOf(log[..|log| - 1], d) + if log[|log| - 1].1 == d then [log[|log| - 1].0] else []
  }

  lemma {:induction false} TraceOfAppend(a: seq<(Hook, nat)>, b: seq<(Hook, nat)>, d: nat)
    ensures TraceOf(a + b, d) == TraceOf(a, d) + TraceOf(b, d)
  {
    if b == [] {
      assert a + b == a;
    } else {
      var n := |b| - 1;
      TraceOfAppend(a, b[..n], d);
      assert (a + b)[..|a + b| - 1] == a + b[..n];
    }
  }

  lemma {:induction false} TraceOfPhase(h: Hook, n: nat, d: nat)
    ensures TraceOf(Phase(h, n), d) == if d < n then [h] else []
  {
    if n > 0 {
      TraceOfPhase(h, n - 1, d);
      assert Phase(h, n)[..n - 1] == Phase(h, n - 1);
    }
  }

  // Every device sees exactly the completed phases.
  lemma {:induction false} TraceIsPhases(phases: seq<Hook>, n: nat, d: nat)
    requires d < n
    ensures TraceOf(PhaseLog(phases, n), d) == phases
  {
    if phases != [] {
      var k := |phases| - 1;
      TraceIsPhases(phases[..k], n, d);
      TraceOfAppend(PhaseLog(phases[..k], n), Phase(phases[k], n), d);
      TraceOfPhase(phases[k], n, d);
    }
  }

  // No device enters a phase before all devices have finished the previous one.
  lemma {:induction false} PhasesDoNotOverlap(phases: seq<Hook>, n: nat, j: nat)
    requires j < |PhaseLog(phases, n)|
    ensures |PhaseLog(phases, n)| == |phases| * n && n > 0 && j / n < |phases|
    ensures PhaseLog(phases, n)[j] == (phases[j / n], j % n)
  {
    var k := |phases| - 1;
    LogLength(phases, n);
    LogLength(phases[..k], n);
    if j < k * n {
      PhasesDoNotOverlap(phases[..k], n, j);
    } else {
      DivisionIs(j, n, k, j - k * n);
    }
  }

  lemma {:induction false} LogLength(phases: seq<Hook>, n: nat)
    ensures |PhaseLog(phases, n)| == |phases| * n
  {
    if phases != [] {
      LogLength(phases[..|phases| - 1], n);
      OneMoreTime(|phases| - 1, n);
    }
  }

  function Order(h: Hook): nat {
    match h
    case OnStartup => 0
    case OnPdoConfigured => 1
    case OnPreActivate => 2
    case OnPostActivate => 3
    case OnPreShutdown => 4
    case OnPostShutdown => 5
  }

  // Each hook after the ones that precede it in the lifecycle, so none twice.
  predicate InOrder(phases: seq<Hook>) { forall i, j | 0 <= i < j < |phases| :: Order(phases[i]) < Order(phases[j]) }

  // The hooks that come in pairs, or presuppose another.
  predicate Complete(phases: seq<Hook>) {
    && (phases != [] ==> phases[0] == OnStartup)
    && (OnPreActivate in phases ==> OnPdoConfigured in phases)
    && (OnPostActivate in phases ==> OnPreActivate in phases)
    && (OnPreShutdown in phases ==> OnPdoConfigured in phases)
    && (OnPreShutdown in phases <==> OnPostShutdown in phases)
  }

  // What the documented phases of each bus state have in common.
  lemma PhasesMeaning(state: BusState, trace: seq<Hook>)
    requires PhasesOk(state, trace)
    ensures InOrder(trace) && Complete(trace)
    ensures OnPdoConfigured in trace ==> (OnPostShutdown in trace <==> state == Shutdown)
    ensures state == Activated || state == Operational ==> OnPostActivate in trace
    ensures state == Configured ==> OnPdoConfigured in trace && OnPreActivate !in trace
  {
  }

  // Between public calls every device's trace is one of the documented ones: in lifecycle order, no hook
  // twice, pairs complete, and on a bus that has been configured the shutdown hooks have run exactly if
  // it has been shut down.
  lemma HookTraces(b: BackendImpl, d: nat)
    requires b.Valid() && d < |b.managed|
    ensures var trace := TraceOf(b.log, d);
            && PhasesOk(b.state, trace) && InOrder(trace) && Complete(trace)
            && (OnPdoConfigured in trace ==> (OnPostShutdown in trace <==> b.state == Shutdown))
            && (b.state == Activated || b.state == Operational ==> OnPostActivate in trace)
            && (b.state == Configured ==> OnPdoConfigured in trace && OnPreActivate !in trace)
  {
    TraceIsPhases(b.phases, |b.managed|, d);
    PhasesMeaning(b.state, b.phases);
  }

  // ---- bounded activation ------------------------------------------------------------------------

  function ServiceRun(timeout: int, calls: seq<ServiceCall>): (BusState, Option<int>) {
    if calls == [] then (Activated, None)
    else
      var (state, start) := ServiceRun(timeout, calls[..|calls| - 1]);
      ServiceNext(state, start, timeout, calls[|calls| - 1])
  }

  lemma {:induction false} StartRecorded(timeout: int, calls: seq<ServiceCall>)
    ensures calls != [] ==> ServiceRun(timeout, calls).1 == Some(calls[0].first)
    ensures calls == [] ==> ServiceRun(timeout, calls) == (Activated, None)
  {
    if calls != [] { StartRecorded(timeout, calls[..|calls| - 1]); }
  }

  // What a service call does to a bus that is still Activated: it shuts down exactly if the timeout is
  // enabled and has passed since the first call; otherwise it goes to Operational exactly if all devices
  // are operational; otherwise it waits on.
  lemma CallDecides(timeout: int, calls: seq<ServiceCall>)
    requires calls != []
    ensures var c := calls[|calls| - 1];
            var late := timeout > 0 && c.check - calls[0].first > timeout;
            var state := ServiceRun(timeout, calls).0;
            ServiceRun(timeout, calls[..|calls| - 1]).0 == Activated ==>
              && (state == Shutdown <==> late)
              && (state == Operational <==> !late && forall k | 0 <= k < |c.operational| :: c.operational[k])
              && (state == Activated <==> !late && exists k :: 0 <= k < |c.operational| && !c.operational[k])
  {
    var n := |calls| - 1;
    StartRecorded(timeout, calls[..n]);
    if AllOperational(calls[n].operational) {
      forall k | 0 <= k < |calls[n].operational| ensures calls[n].operational[k] {
        assert calls[n].operational[k] in calls[n].operational;
      }
    }
  }

  // A bus whose devices become operational before the timeout goes to Operational, and stays there.
  lemma {:induction false} HealthyBusBecomesOperational(timeout: int, calls: seq<ServiceCall>, k: nat)
    requires k < |calls| && forall b | b in calls[k].operational :: b
    requires forall i | 0 <= i <= k :: timeout <= 0 || calls[i].check - calls[0].first <= timeout
    ensures ServiceRun(timeout, calls).0 == Operational
  {
    var n := |calls| - 1;
    StartRecorded(timeout, calls[..n]);
    if k < n {
      HealthyBusBecomesOperational(timeout, calls[..n], k);
    } else {
      NeverTimedOut(timeout, calls[..n], calls[0].first);
    }
  }

  lemma {:induction false} NeverTimedOut(timeout: int, calls: seq<ServiceCall>, start: int)
    requires calls != [] ==> calls[0].first == start
    requires forall i | 0 <= i < |calls| :: timeout <= 0 || calls[i].check - start <= timeout
    ensures ServiceRun(timeout, calls).0 == Activated || ServiceRun(timeout, calls).0 == Operational
  {
    if calls != [] {
      StartRecorded(timeout, calls[..|calls| - 1]);
      NeverTimedOut(timeout, calls[..|calls| - 1], start);
    }
  }

  // Clock readings do not go back, and consecutive timeout checks are at most `gap` apart.
  predicate Spaced(calls: seq<ServiceCall>, gap: int) {
    && (forall i | 0 <= i < |calls| :: calls[i].first <= calls[i].check)
    && (calls != [] ==> calls[0].check - calls[0].first <= gap)
    && (forall i {:trigger calls[i]} | 0 < i < |calls| ::
          calls[i - 1].check <= calls[i].check <= calls[i - 1].check + gap)
  }

  lemma {:induction false} StillActivated(timeout: int, gap: int, calls: seq<ServiceCall>)
    requires timeout > 0 && Spaced(calls, gap) && calls != [] && ServiceRun(timeout, calls).0 == Activated
    ensures ServiceRun(timeout, calls).1 == Some(calls[0].first)
    ensures calls[|calls| - 1].check - calls[0].first <= timeout
  {
    var n := |calls| - 1;
    if n > 0 {
      assert Spaced(calls[..n], gap);
      StillActivated(timeout, gap, calls[..n]);
    }
  }

  // The call that ended activation came within timeout + gap of the first one.
  lemma {:induction false} FirstLeave(timeout: int, gap: int, calls: seq<ServiceCall>) returns (k: nat)
    requires timeout > 0 && gap >= 0 && Spaced(calls, gap) && ServiceRun(timeout, calls).0 != Activated
    ensures k < |calls| && calls[k].check - calls[0].first <= timeout + gap
    ensures ServiceRun(timeout, calls[..k]).0 == Activated && ServiceRun(timeout, calls[..k + 1]).0 != Activated
  {
    var n := |calls| - 1;
    assert Spaced(calls[..n], gap);
    if ServiceRun(timeout, calls[..n]).0 == Activated {
      k := n;
      assert calls[..n + 1] == calls;
      if n > 0 { StillActivated(timeout, gap, calls[..n]); }
    } else {
      k := FirstLeave(timeout, gap, calls[..n]);
      assert calls[..n][..k] == calls[..k] && calls[..n][..k + 1] == calls[..k + 1];
    }
  }

  // Bounded activation: service calls that go on for longer than the timeout include one, within
  // timeout + gap of the first, that ends in Operational exactly if all devices were operational at that
  // moment and the timeout had not passed, and in Shutdown exactly if it had.
  lemma LeavesActivatedInTime(timeout: int, gap: int, calls: seq<ServiceCall>) returns (k: nat)
    requires timeout > 0 && gap >= 0 && Spaced(calls, gap) && calls != []
    requires calls[|calls| - 1].check - calls[0].first > timeout
    ensures k < |calls| && calls[k].check - calls[0].first <= timeout + gap
    ensures ServiceRun(timeout, calls[..k]).0 == Activated
    ensures var late := calls[k].check - calls[0].first > timeout;
            && ServiceRun(timeout, calls[..k + 1]).0 == (if late then Shutdown else Operational)
            && (!late ==> AllOperational(calls[k].operational))
  {
    if ServiceRun(timeout, calls).0 == Activated { StillActivated(timeout, gap, calls); }
    k := FirstLeave(timeout, gap, calls);
    assert calls[..k + 1][..k] == calls[..k];
    CallDecides(timeout, calls[..k + 1]);
  }
}
