/** The distributed-clock PI controller. */
module DcSync {
  import opened Division
  import opened TimeSpecs

  // The default gains.
  const P_GAIN: real := 0.01
  const I_GAIN: real := 0.00002

  // static_cast<int64_t>(double): rounds towards zero.
  function TruncReal(x: real): int { if x >= 0.0 then x.Floor else -((-x).Floor) }

  // The controller's variables; the integral is a sum of whole nanoseconds, kept exactly.
  datatype Controller = Controller(integral: int, error: int)

  function Residue(offsetTime: int, cycle: int): int
    requires cycle > 0
  {
    var delta := TruncMod(offsetTime, cycle);
    if delta > TruncDiv(cycle, 2) then delta - cycle else delta
  }

  function Updated(c: Controller, cycle: int, syncOffset: int, dcTime: int): Controller
    requires cycle > 0
  {
    var error := -Residue(dcTime - syncOffset, cycle);
    Controller(c.integral + error, error)
  }

  function Demand(c: Controller, p: real, i: real): real { c.error as real * p + c.integral as real * i }

  function Correction(c: Controller, p: real, i: real): int { TruncReal(Demand(c, p, i)) }

  class DCSyncController {
    const cycleTime: int
    const syncOffset: int
    const pGain: real
    const iGain: real
    var integral: int
    var lastTimeError: int

    function Value(): Controller
      reads this
    {
      Controller(integral, lastTimeError)
    }

    constructor (cycleTime: int, syncOffset: int, pGain: real, iGain: real)
      ensures this.cycleTime == cycleTime && this.syncOffset == syncOffset
      ensures this.pGain == pGain && this.iGain == iGain && Value() == Controller(0, 0)
    {
      this.cycleTime, this.syncOffset, this.pGain, this.iGain := cycleTime, syncOffset, pGain, iGain;
      integral, lastTimeError := 0, 0;
    }

    // The correction to apply to the master's next deadline. A zero cycle time divides by zero.
    method Update(dcTime: int) returns (offset: int)
      requires cycleTime > 0
      modifies this
      ensures Value() == Updated(old(Value()), cycleTime, syncOffset, dcTime)
      ensures offset == Correction(Value(), pGain, iGain)
    {
      ghost var next := Updated(Value(), cycleTime, syncOffset, dcTime);
      var delta := TruncMod(dcTime - syncOffset, cycleTime);
      if delta > TruncDiv(cycleTime, 2) {
        delta := delta - cycleTime;
      }
      assert next == Controller(integral - delta, -delta);
      lastTimeError := -delta;
      integral := integral + lastTimeError;
      var demand := lastTimeError as real * pGain + integral as real * iGain;
      assert demand == Demand(Value(), pGain, iGain);
      offset := TruncReal(demand);
    }

    method Reset()
      modifies this
      ensures Value() == Controller(0, 0)
    {
      integral := 0;
      lastTimeError := 0;
    }
  }

  function Abs(x: int): nat { if x >= 0 then x else -x }
  function AbsR(x: real): real { if x >= 0.0 then x else -x }

  // ---- the residue ---------------------------------------------------------------------------

  // The residue always differs from the input by whole cycles.
  lemma ResidueCongruent(t: int, cycle: int) returns (k: int)
    requires cycle > 0
    ensures t == k * cycle + Residue(t, cycle)
  {
    k := if t >= 0 then t / cycle else -(-t / cycle);
    if t < 0 { assert -t == (-t / cycle) * cycle + (-t % cycle); }
    if TruncMod(t, cycle) > TruncDiv(cycle, 2) { k := k + 1; }
  }

  // From the sync offset on it is the residue of least magnitude.
  lemma ResidueLeast(t: int, cycle: int, j: int)
    requires cycle > 0 && t >= 0
    ensures 2 * Abs(Residue(t, cycle)) <= cycle
    ensures Abs(Residue(t, cycle)) <= Abs(t - j * cycle)
  {
    var r := Residue(t, cycle);
    var k := ResidueCongruent(t, cycle);
    assert 2 * Abs(r) <= cycle;
    assert t - j * cycle == r + (k - j) * cycle;
    assert k - j >= 1 ==> (k - j) * cycle >= cycle;
    assert k - j <= -1 ==> (k - j) * cycle <= -cycle;
  }

  // Before the sync offset the truncating `%` keeps the sign, so the half-cycle bound holds exactly
  // when the distance to the offset, modulo the cycle, is at most half a cycle.
  lemma ResidueHalfCycleIff(t: int, cycle: int)
    requires cycle > 0
    ensures 2 * Abs(Residue(t, cycle)) <= cycle <==> t >= 0 || 2 * (-t % cycle) <= cycle
  {
    if t >= 0 { ResidueLeast(t, cycle, 0); }
  }

  // A caller's input: one nanosecond after a multiple of the cycle, but before the offset, the error
  // is reported as nearly a whole cycle.
  lemma ErrorBeforeOffset(c: Controller)
    ensures Updated(c, 1000, 5000, 4001).error == 999
    ensures Updated(c, 1000, 5000, 6001).error == -1
  {
  }

  // A point less than half a cycle from a multiple of the cycle is reduced to its distance from it.
  lemma ResidueOf(n: int, z: int, cycle: int)
    requires cycle > 0 && 2 * Abs(z) < cycle && n * cycle + z >= 0
    ensures Residue(n * cycle + z, cycle) == z
  {
    if z >= 0 {
      DivisionIs(n * cycle + z, cycle, n, z);
    } else {
      OneMoreTime(n - 1, cycle);
      DivisionIs(n * cycle + z, cycle, n - 1, cycle + z);
    }
  }

  // ---- truncation and windup ------------------------------------------------------------------

  lemma TruncationBelowOne(x: real)
    ensures AbsR(x - TruncReal(x) as real) < 1.0
    ensures AbsR(TruncReal(x) as real) <= AbsR(x)
  {
  }

  function Controlled(c: Controller, cycle: int, syncOffset: int, dcTimes: seq<int>): Controller
    requires cycle > 0
  {
    if dcTimes == [] then c
    else Updated(Controlled(c, cycle, syncOffset, dcTimes[..|dcTimes| - 1]), cycle, syncOffset, dcTimes[|dcTimes| - 1])
  }

  lemma UpdateBound(c: Controller, cycle: int, syncOffset: int, dcTime: int, n: nat)
    requires cycle > 0 && dcTime >= syncOffset && 2 * Abs(c.integral) <= n * cycle
    ensures var c' := Updated(c, cycle, syncOffset, dcTime);
            2 * Abs(c'.error) <= cycle && 2 * Abs(c'.integral) <= (n + 1) * cycle
  {
    ResidueLeast(dcTime - syncOffset, cycle, 0);
    assert (n + 1) * cycle == n * cycle + cycle;
  }

  // After n updates |integral| <= n * cycle / 2.
  lemma {:induction false} IntegralBound(cycle: int, syncOffset: int, dcTimes: seq<int>)
    requires cycle > 0 && forall t | t in dcTimes :: t >= syncOffset
    ensures var c := Controlled(Controller(0, 0), cycle, syncOffset, dcTimes);
            2 * Abs(c.error) <= cycle && 2 * Abs(c.integral) <= |dcTimes| * cycle
  {
    if dcTimes != [] {
      var n := |dcTimes| - 1;
      assert forall t | t in dcTimes[..n] :: t in dcTimes;
      IntegralBound(cycle, syncOffset, dcTimes[..n]);
      assert dcTimes[n] in dcTimes;
      var before := Controlled(Controller(0, 0), cycle, syncOffset, dcTimes[..n]);
      UpdateBound(before, cycle, syncOffset, dcTimes[n], n);
    }
  }

  lemma ScaleBound(g: real, x: real, b: real)
    requires g >= 0.0 && AbsR(x) <= b
    ensures AbsR(x * g) <= b * g
  {
    if x >= 0.0 { assert (b - x) * g >= 0.0; } else { assert (b + x) * g >= 0.0 && x * g <= 0.0; }
  }

  lemma DemandBound(e: real, integral: real, p: real, i: real, n: real, half: real)
    requires p >= 0.0 && i >= 0.0 && AbsR(e) <= half && AbsR(integral) <= n * half
    ensures AbsR(e * p + integral * i) <= (p + i * n) * half
  {
    ScaleBound(p, e, half);
    ScaleBound(i, integral, n * half);
    assert half * p + (n * half) * i == (p + i * n) * half;
  }

  lemma BelowWholeCycle(g: real, half: real, correction: int, cycle: int)
    requires 2.0 * half == cycle as real && half > 0.0 && AbsR(correction as real) <= g * half
    ensures g / 2.0 < 1.0 ==> cycle + correction > 0
  {
    assert g < 2.0 ==> (2.0 - g) * half > 0.0;
  }

  lemma HalfCycles(x: int, n: nat, cycle: int)
    requires 2 * Abs(x) <= n * cycle
    ensures AbsR(x as real) <= n as real * (cycle as real / 2.0)
  {
    assert (n * cycle) as real == n as real * cycle as real;
    assert n as real * (cycle as real / 2.0) == (n as real * cycle as real) / 2.0;
  }

  // The gain after n updates, and half a cycle.
  function WindupGain(p: real, i: real, n: nat): real { p + i * (n as real) }

  function Half(cycle: int): real { cycle as real / 2.0 }

  predicate CorrectionBounded(correction: int, gain: real, cycle: int) {
    && AbsR(correction as real) <= gain * Half(cycle)
    && (gain / 2.0 < 1.0 ==> cycle + correction > 0)
  }

  lemma TruncatedBound(x: real, gain: real, cycle: int)
    requires cycle > 0 && AbsR(x) <= gain * Half(cycle)
    ensures CorrectionBounded(TruncReal(x), gain, cycle)
  {
    TruncationBelowOne(x);
    BelowWholeCycle(gain, Half(cycle), TruncReal(x), cycle);
  }

  lemma BoundedStateBoundsCorrection(c: Controller, n: nat, cycle: int, p: real, i: real)
    requires cycle > 0 && p >= 0.0 && i >= 0.0 && 2 * Abs(c.error) <= cycle && 2 * Abs(c.integral) <= n * cycle
    ensures CorrectionBounded(Correction(c, p, i), WindupGain(p, i, n), cycle)
  {
    assert AbsR(c.integral as real) <= n as real * Half(cycle) by { HalfCycles(c.integral, n, cycle); }
    assert AbsR(Demand(c, p, i)) <= WindupGain(p, i, n) * Half(cycle) by {
      DemandBound(c.error as real, c.integral as real, p, i, n as real, Half(cycle));
    }
    TruncatedBound(Demand(c, p, i), WindupGain(p, i, n), cycle);
  }

  // Hence |correction| <= (p + i * n) * cycle / 2, and while (p + i * n) / 2 < 1 every deadline given
  // to the keeper is later than the one before.
  lemma CorrectionBound(cycle: int, syncOffset: int, dcTimes: seq<int>, p: real, i: real)
    requires cycle > 0 && p >= 0.0 && i >= 0.0 && forall t | t in dcTimes :: t >= syncOffset
    ensures CorrectionBounded(Correction(Controlled(Controller(0, 0), cycle, syncOffset, dcTimes), p, i),
                              WindupGain(p, i, |dcTimes|), cycle)
  {
    IntegralBound(cycle, syncOffset, dcTimes);
    BoundedStateBoundsCorrection(Controlled(Controller(0, 0), cycle, syncOffset, dcTimes), |dcTimes|, cycle, p, i);
  }
}
