/**
 The realtime thread of the executor: update_rt, then the deadline moved by the correction it
 returned. Its iterations are the cycles of the closed loop whose stability is proved.
 */
module RealtimeLoop {
  import opened Backend
  import opened BusStates
  import opened ClosedLoop
  import opened DcSync
  import opened Options
  import opened PdoRegions
  import opened UpdateRates

  predicate MayRun(b: BackendImpl)
    reads b`state
  {
    b.state == Activated || b.state == Operational
  }

  // `dc_correction_offset.value_or(0)`
  function OffsetOf(correction: Option<int>): int { if correction.Some? then correction.value else 0 }

  // `update_rate_.step(...)`
  method Advance(rate: PrecisionUpdateRate, clock: MonotonicClock, correction: Option<int>) returns (ghost now: int)
    requires rate.Valid() && clock.Valid()
    modifies rate, clock
    ensures rate.Valid() && now == clock.reading(old(clock.next)).Ns()
    ensures rate.Value() == Stepped(old(rate.Value()), rate.timeStepNs, OffsetOf(correction), now)
  {
    now := clock.reading(clock.next).Ns();
    var _ := rate.Step(OffsetOf(correction), clock);
  }

  // `bus_->update_rt()`, as far as the schedule is concerned.
  method Update(b: BackendImpl, f: Frame) returns (ok: bool, correction: Option<int>)
    requires b.Valid() && (MayRun(b) ==> Fit(b.inputs, f.received))
    modifies b`frames, b.ioMap, b.dcSync, b.managed`rxLastWrite, b.managed`txPdo, b.managed`txLastRead
    ensures b.Valid() && (ok <==> MayRun(b))
    ensures if ok then b.DcStep(old(b.dcSync.Value()), f.dcTime, b.dcSync.Value(), correction)
            else b.dcSync.Value() == old(b.dcSync.Value())
  {
    var r, c, _ := b.UpdateRt(f);
    return r == Ok, c;
  }

  // One turn of the loop on a bus that may run; on any other Update refuses and the thread ends.
  method Iterate(b: BackendImpl, rate: PrecisionUpdateRate, clock: MonotonicClock, f: Frame)
    returns (correction: Option<int>, ghost now: int)
    requires b.Valid() && MayRun(b) && Fit(b.inputs, f.received) && rate.Valid() && clock.Valid()
    modifies b`frames, b.ioMap, b.dcSync, b.managed`rxLastWrite, b.managed`txPdo, b.managed`txLastRead, rate, clock
    ensures b.Valid() && rate.Valid()
    ensures b.DcStep(old(b.dcSync.Value()), f.dcTime, b.dcSync.Value(), correction)
    ensures rate.Value() == Stepped(old(rate.Value()), rate.timeStepNs, OffsetOf(correction), now)
  {
    var _, c := Update(b, f);
    correction := c;
    now := Advance(rate, clock, correction);
  }

  // l': the next turn's state, after its own controller update.
  ghost predicate Continues(params: Parameters, l: Loop, l': Loop) {
    && params.dcCycleTime > 0 && Scheduled(params, l, l'.keeper)
    && l'.controller == Updated(l.controller, params.dcCycleTime, params.masterSendOffset, l'.dcTime)
  }

  // The deadline that follows state l.
  ghost predicate Scheduled(params: Parameters, l: Loop, k: Keeper) {
    exists now :: k == Stepped(l.keeper, params.dcCycleTime, CorrectionOf(l), now)
  }

  ghost predicate IsSpin(params: Parameters, run: seq<Loop>) {
    forall i: nat | i + 1 < |run| :: Continues(params, run[i], run[i + 1])
  }

  lemma SpinNext(params: Parameters, run: seq<Loop>, l: Loop)
    requires IsSpin(params, run) && (run != [] ==> Continues(params, run[|run| - 1], l))
    ensures IsSpin(params, run + [l])
  {
  }

  // One turn with a DC sample, after the given one.
  method Turn(b: BackendImpl, rate: PrecisionUpdateRate, clock: MonotonicClock, f: Frame, ghost last: Option<Loop>)
    returns (ghost l: Loop)
    requires b.Valid() && MayRun(b) && Fit(b.inputs, f.received) && rate.Valid() && clock.Valid()
    requires b.params.dcEnabled && f.dcTime.Some? && rate.timeStepNs == b.params.dcCycleTime
    requires last.Some? ==> Scheduled(b.params, last.value, rate.Value()) && last.value.controller == b.dcSync.Value()
    modifies b`frames, b.ioMap, b.dcSync, b.managed`rxLastWrite, b.managed`txPdo, b.managed`txLastRead, rate, clock
    ensures b.Valid() && rate.Valid() && f.dcTime == Some(l.dcTime)
    ensures Scheduled(b.params, l, rate.Value()) && l.controller == b.dcSync.Value()
    ensures last.Some? ==> Continues(b.params, last.value, l)
  {
    ghost var keeper := rate.Value();
    var correction, now := Iterate(b, rate, clock, f);
    l := Loop(keeper, b.dcSync.Value(), f.dcTime.value);
    assert rate.Value() == Stepped(l.keeper, b.params.dcCycleTime, CorrectionOf(l), now);
  }

  // Every frame has a DC sample and fits the input regions.
  ghost predicate FramesFit(inputs: seq<Region>, frames: seq<Frame>) {
    forall i | 0 <= i < |frames| :: frames[i].dcTime.Some? && Fit(inputs, frames[i].received)
  }

  // The samples the run was made from.
  predicate SampledFrom(run: seq<Loop>, frames: seq<Frame>) {
    |run| <= |frames| && forall i | 0 <= i < |run| :: frames[i].dcTime == Some(run[i].dcTime)
  }

  function Last(run: seq<Loop>): Option<Loop> { if run == [] then None else Some(run[|run| - 1]) }

  // The loop on a bus that stays up: each turn continues the last.
  method Spin(b: BackendImpl, rate: PrecisionUpdateRate, clock: MonotonicClock, frames: seq<Frame>)
    returns (ghost run: seq<Loop>)
    requires b.Valid() && rate.Valid() && clock.Valid() && rate.timeStepNs == b.params.dcCycleTime
    requires MayRun(b) && b.params.dcEnabled && FramesFit(b.inputs, frames)
    modifies b`frames, b.ioMap, b.dcSync, b.managed`rxLastWrite, b.managed`txPdo, b.managed`txLastRead, rate, clock
    ensures b.Valid() && rate.Valid()
    ensures |run| == |frames| && SampledFrom(run, frames) && IsSpin(b.params, run)
    ensures run != [] ==> Scheduled(b.params, run[|run| - 1], rate.Value())
  {
    run := [];
    for i := 0 to |frames|
      invariant b.Valid() && rate.Valid()
      invariant |run| == i && SampledFrom(run, frames) && IsSpin(b.params, run)
      invariant i > 0 ==> Scheduled(b.params, run[i - 1], rate.Value()) && run[i - 1].controller == b.dcSync.Value()
    {
      ghost var l := Turn(b, rate, clock, frames[i], Last(run));
      SpinNext(b.params, run, l);
      run := run + [l];
    }
  }

  // If each sample is taken as much later as the deadline has moved, and no overrun is reported, then
  // that run is a run of the closed loop: what is proved there holds of the executor and this backend.
  lemma SpinIsLockedRun(params: Parameters, run: seq<Loop>, m: real)
    requires params.dcCycleTime > 0 && run != []
    requires InLock(run[0], params.dcCycleTime, params.masterSendOffset, m)
    requires IsSpin(params, run)
    requires forall i: nat | i + 1 < |run| :: SampledWithDeadline(run[i], run[i + 1])
    ensures IsLockedRun(run, params.dcCycleTime, params.masterSendOffset, m)
  {
    forall i: nat | i + 1 < |run| ensures CycleAt(run, i, params.dcCycleTime, params.masterSendOffset) {
      assert Continues(params, run[i], run[i + 1]) && SampledWithDeadline(run[i], run[i + 1]);
      var now :| run[i + 1].keeper == Stepped(run[i].keeper, params.dcCycleTime, CorrectionOf(run[i]), now);
      assert OnTime(run[i], params.dcCycleTime, now)
             && run[i + 1] == Cycle(run[i], params.dcCycleTime, params.masterSendOffset, now);
    }
  }

  predicate SampledWithDeadline(l: Loop, l': Loop) {
    && l'.dcTime - l.dcTime == l'.keeper.deadline - l.keeper.deadline
    && l'.keeper.overruns == l.keeper.overruns
  }
}
