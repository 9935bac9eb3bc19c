/** Whole sessions with the bus: any sequence of public calls, whatever SOEM answers. */
module BusSessions {
  import opened Backend
  import opened Devices
  import opened Options
  import opened PdoRegions

  // A public call, with the environment's answers for however many devices there are.
  datatype Call =
    | InitializeCall(initResult: int, deviceCount: int)
    | StartupCall(mapping: nat -> Mapping, dcFound: bool, now: int)
    | ActivateCall(requested: nat -> bool, reached: nat -> bool)
    | SetRxCall(device: nat, rx: Bytes)
    | UpdateRtCall(frame: Frame, received: nat -> Bytes)
    | UpdateServiceCall(first: int, check: int, operational: nat -> bool)
    | WriteCall(id: nat, data: Bytes)
    | ReadCall(id: nat, size: nat)
    | ShutdownCall

  ghost predicate Answers(c: Call) { c.StartupCall? ==> forall n :: WellMapped(c.mapping(n), n) }

  method Perform(b: BackendImpl, c: Call)
    requires b.Valid() && Answers(c)
    modifies b, b.ioMap, b.dcSync, b.managed
    ensures b.Valid() && (b.ioMap == old(b.ioMap) || fresh(b.ioMap))
    ensures b.managed == old(b.managed) || fresh(b.managed)
  {
    match c {
      case InitializeCall(initResult, deviceCount) =>
        var _ := b.Initialize(initResult, deviceCount);
      case StartupCall(mapping, dcFound, now) =>
        var _ := b.Startup(mapping(b.slaveCount), dcFound, now);
      case ActivateCall(requested, reached) =>
        var _ := b.Activate(seq(|b.devices|, requested), seq(|b.devices|, reached));
      case ShutdownCall =>
        var _ := b.Shutdown();
      case _ =>
        PerformWhileUp(b, c);
    }
  }

  // Calls that create neither devices nor an IO map.
  method PerformWhileUp(b: BackendImpl, c: Call)
    requires b.Valid()
    modifies b`state, b`phases, b`log, b`devices, b`activationStart, b`frames, b.ioMap, b.dcSync, b.managed
    ensures b.Valid()
  {
    match c {
      case SetRxCall(device, rx) =>
        if device < |b.devices| {
          var _ := SetRxPdo(b, b.devices[device], rx);
        }
      case UpdateRtCall(frame, received) =>
        PerformUpdateRt(b, frame, received);
      case UpdateServiceCall(first, check, operational) =>
        var _, _ := b.UpdateService(ServiceCall(first, check, seq(|b.devices|, operational)));
      case WriteCall(id, data) =>
        var _ := b.WriteRxPdo(id, data);
      case ReadCall(id, size) =>
        var _, _ := b.ReadTxPdo(id, size);
      case _ =>
    }
  }

  method PerformUpdateRt(b: BackendImpl, frame: Frame, received: nat -> Bytes)
    requires b.Valid()
    modifies b`frames, b.ioMap, b.dcSync, b.managed`rxLastWrite, b.managed`txPdo, b.managed`txLastRead
    ensures b.Valid()
  {
    var rs := b.inputs;
    var data := seq(|rs|, i requires 0 <= i < |rs| => Resized(received(i), rs[i].len));
    forall i | 0 <= i < |rs| ensures |data[i]| == rs[i].len { assert data[i] == Resized(received(i), rs[i].len); }
    var _, _, _ := b.UpdateRt(frame.(received := data));
  }

  // After any session the bus is in a valid state: every device's hook trace is one of the documented
  // ones, no hook has fired twice, the buffers fit the mapped regions, and the regions lie in the IO map
  // exactly if what SOEM reported fitted.
  method RunSession(params: Parameters, calls: seq<Call>) returns (b: BackendImpl)
    requires params.dcEnabled ==> params.dcCycleTime > 0
    requires forall c | c in calls :: Answers(c)
    ensures b.Valid() && b.params == params
    ensures forall d | 0 <= d < |b.managed| :: PhasesOk(b.state, TraceOf(b.log, d)) && InOrder(TraceOf(b.log, d))
    ensures b.Mapped() ==> b.PdoValid()
    ensures b.RegionsInside() <==> b.mappedSize <= params.pdoBufferSize
  {
    b := new BackendImpl(params);
    for n := 0 to |calls|
      invariant b.Valid() && b.params == params
      invariant fresh(b) && fresh(b.ioMap) && fresh(b.dcSync) && fresh(b.managed)
    {
      Perform(b, calls[n]);
    }
    forall d | 0 <= d < |b.managed|
      ensures PhasesOk(b.state, TraceOf(b.log, d)) && InOrder(TraceOf(b.log, d))
    {
      HookTraces(b, d);
    }
  }

  // A startup refused because the mapping is larger than the buffer leaves a bus on which a direct
  // write is accepted although its region is not inside the IO map.
  method WriteAfterOversizedMapping() returns (startup: Status, write: PdoStatus)
    ensures startup == Failed && write == PdoOutsideMap
  {
    var b := new BackendImpl(Parameters(4, 0, false, 0, 0, false, false, false, false));
    var _ := b.Initialize(1, 1);
    var m := Mapping(8, [Region(0, 8)], [Region(0, 0)]);
    assert m.outputs[..0] == [] && Extent(m.outputs) == 8;
    startup := b.Startup(m, false, 0);
    assert b.outputs == m.outputs;
    write := b.WriteRxPdo(1, seq(8, i => 0));
  }
}
