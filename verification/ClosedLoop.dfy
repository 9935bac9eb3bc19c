/**
 The realtime loop closed: each DC sample is turned into a correction, the correction
 moves the next deadline, and the deadline decides when the next sample is taken. Both
 clocks run at the same rate and no deadline is missed.
 */
module ClosedLoop {
  import opened TimeSpecs
  import opened UpdateRates
  import opened DcSync

  // The Lyapunov function, over the controller's state after an update.
  function V(e: real, integral: real): real { e * e + I_GAIN * (integral * integral) }

  // ---- one cycle, algebraically ---------------------------------------------------------------

  // With next error y = e - demand + d (d: what rounding did to the correction), V changes by a
  // negative definite form plus a disturbance term.
  lemma Descent(e: real, integral: real, y: real, d: real)
    requires y == e - (e * P_GAIN + integral * I_GAIN) + d
    ensures V(y, integral + y) - V(e, integral)
            == 2.0 * d * y - (e - 0.99 * y) * (e - 0.99 * y) - 0.01988 * (y * y)
  {
    var s := integral * I_GAIN;
    assert s == 0.99 * e - y + d;
    assert I_GAIN * ((integral + y) * (integral + y))
        == I_GAIN * (integral * integral) + 2.0 * s * y + I_GAIN * (y * y);
    assert s * y == 0.99 * (e * y) - y * y + d * y;
    assert (e - 0.99 * y) * (e - 0.99 * y) == e * e - 1.98 * (e * y) + 0.9801 * (y * y);
  }

  // Without rounding V contracts geometrically.
  lemma Contraction(e: real, integral: real, y: real)
    requires y == e - (e * P_GAIN + integral * I_GAIN)
    ensures V(y, integral + y) <= 0.99999 * V(e, integral)
  {
    Descent(e, integral, y, 0.0);
    var u := e - 0.99 * y;
    var s := integral * I_GAIN;
    assert s == 0.99 * u - 0.0199 * y;
    assert I_GAIN * (integral * integral) == 50000.0 * (s * s);
    TwoSquares(u, 0.99 * y);
    TwoSquares(0.99 * u, -0.0199 * y);
    assert (0.99 * y) * (0.99 * y) == 0.9801 * (y * y) && (0.99 * u) * (0.99 * u) == 0.9801 * (u * u);
    assert (-0.0199 * y) * (-0.0199 * y) == 0.00039601 * (y * y);
    assert u * u >= 0.0 && y * y >= 0.0;
  }

  lemma TwoSquares(a: real, b: real)
    ensures (a + b) * (a + b) <= 2.0 * (a * a) + 2.0 * (b * b)
  {
    assert (a - b) * (a - b) >= 0.0;
  }

  // The largest value V can grow to because of rounding (an error of about 2.3 microseconds).
  const FLOOR_V: real := 5_100_000.0

  // With a rounding disturbance below 1 ns V still decreases, by a fixed amount, while the error is
  // 101 ns or more, and never grows beyond FLOOR_V.
  lemma RoundedDescent(e: real, integral: real, y: real, d: real)
    requires y == e - (e * P_GAIN + integral * I_GAIN) + d && AbsR(d) < 1.0
    ensures AbsR(y) >= 101.0 ==> V(y, integral + y) <= V(e, integral) - 0.79
    ensures V(y, integral + y) <= V(e, integral) || V(y, integral + y) <= FLOOR_V
  {
    var u := e - 0.99 * y;
    Descent(e, integral, y, d);
    RoundedChange(u, y, d);
    if V(y, integral + y) > V(e, integral) {
      GrowthIsSmall(u, y);
      StateWhenGrowing(u, y, d, integral + y);
      assert (integral + y) * I_GAIN == 0.99 * u - 0.01988 * y + d;
    }
  }

  // The change of V is at most 2 |y| - 0.01988 y * y, which is below -0.79 from 101 ns on.
  lemma RoundedChange(u: real, y: real, d: real)
    requires AbsR(d) < 1.0
    ensures 2.0 * d * y - u * u - 0.01988 * (y * y) <= 2.0 * AbsR(y) - u * u - 0.01988 * (y * y)
    ensures AbsR(y) >= 101.0 ==> 2.0 * d * y - u * u - 0.01988 * (y * y) <= -0.79
  {
    ScaleBound(AbsR(y), d, 1.0);
    assert u * u >= 0.0 && d * y <= AbsR(y) && y * y == AbsR(y) * AbsR(y);
    assert AbsR(y) >= 101.0 ==> (AbsR(y) - 101.0) * AbsR(y) >= 0.0;
  }

  lemma GrowthIsSmall(u: real, y: real)
    requires u * u + 0.01988 * (y * y) < 2.0 * AbsR(y)
    ensures AbsR(y) < 100.7 && AbsR(u) < 7.1
  {
    var m := AbsR(y);
    assert y * y == m * m && u * u == AbsR(u) * AbsR(u);
    assert m >= 100.7 ==> m * m >= 100.7 * m;
    assert (m - 50.3) * (m - 50.3) >= 0.0;
    assert AbsR(u) >= 7.1 ==> AbsR(u) * AbsR(u) >= 7.1 * 7.1;
  }

  lemma StateWhenGrowing(u: real, y: real, d: real, integral: real)
    requires AbsR(y) < 100.7 && AbsR(u) < 7.1 && AbsR(d) < 1.0
    ensures integral * I_GAIN == 0.99 * u - 0.01988 * y + d ==> V(y, integral) <= FLOOR_V
  {
    var s := integral * I_GAIN;
    if s == 0.99 * u - 0.01988 * y + d {
      assert AbsR(s) <= 10.04;
      SquareBelow(s, 10.04);
      SquareBelow(y, 100.7);
      assert I_GAIN * (integral * integral) == 50000.0 * (s * s);
    }
  }

  lemma SquareBelow(x: real, b: real)
    requires AbsR(x) <= b
    ensures x * x <= b * b
  {
    assert (b - AbsR(x)) * (b + AbsR(x)) >= 0.0;
    assert x * x == AbsR(x) * AbsR(x);
  }

  lemma BelowSquare(x: real, b: real)
    requires b > 0.0 && x * x < b * b
    ensures AbsR(x) < b
  {
    assert x * x == AbsR(x) * AbsR(x);
    assert AbsR(x) >= b ==> AbsR(x) * AbsR(x) >= b * b;
  }

  // ---- the loop in exact integer arithmetic ---------------------------------------------------

  datatype Loop = Loop(keeper: Keeper, controller: Controller, dcTime: int)

  function CorrectionOf(l: Loop): int { Correction(l.controller, P_GAIN, I_GAIN) }

  // The deadline moves by the correction; the next sample is taken that much later.
  function Cycle(l: Loop, cycle: int, syncOffset: int, now: int): Loop
    requires cycle > 0
  {
    var keeper := Stepped(l.keeper, cycle, CorrectionOf(l), now);
    var dcTime := l.dcTime + (keeper.deadline - l.keeper.deadline);
    Loop(keeper, Updated(l.controller, cycle, syncOffset, dcTime), dcTime)
  }

  predicate OnTime(l: Loop, cycle: int, now: int) { now <= l.keeper.deadline + cycle + CorrectionOf(l) }

  function LoopV(l: Loop): real { V(l.controller.error as real, l.controller.integral as real) }

  // In lock below level m: the error is the phase of the last sample, and no level reachable from m
  // comes near half a cycle.
  ghost predicate InLock(l: Loop, cycle: int, syncOffset: int, m: real) {
    && l.dcTime >= syncOffset && FLOOR_V <= m && LoopV(l) <= m && m < Half(cycle) * Half(cycle)
    && exists n :: l.dcTime - syncOffset == n * cycle - l.controller.error
  }

  // The first update after a reset brings the loop into lock when the phase error it measures is below m.
  lemma FirstUpdateLocks(keeper: Keeper, cycle: int, syncOffset: int, dcTime: int, m: real)
    requires cycle > 0 && dcTime >= syncOffset && FLOOR_V <= m < Half(cycle) * Half(cycle)
    requires var e := Residue(dcTime - syncOffset, cycle) as real; 1.00002 * (e * e) <= m
    ensures InLock(Loop(keeper, Updated(Controller(0, 0), cycle, syncOffset, dcTime), dcTime), cycle, syncOffset, m)
  {
    var k := ResidueCongruent(dcTime - syncOffset, cycle);
    var r := Residue(dcTime - syncOffset, cycle);
    assert (-r) as real == -(r as real);
    assert V(-r as real, -r as real) == 1.00002 * (r as real * r as real);
  }

  lemma SmallError(e: int, integral: int, m: real, cycle: int)
    requires V(e as real, integral as real) <= m < Half(cycle) * Half(cycle) && cycle > 0
    ensures 2 * Abs(e) < cycle
  {
    assert integral as real * integral as real >= 0.0;
    BelowSquare(e as real, Half(cycle));
  }

  lemma NextSample(l: Loop, cycle: int, syncOffset: int, now: int, n: int, y: int)
    requires cycle > 0 && l.dcTime >= syncOffset && OnTime(l, cycle, now)
    requires l.dcTime - syncOffset == n * cycle - l.controller.error && y == l.controller.error - CorrectionOf(l)
    requires 2 * Abs(l.controller.error) < cycle && 2 * Abs(y) < cycle
    ensures var l' := Cycle(l, cycle, syncOffset, now);
            && l'.controller == Controller(l.controller.integral + y, y)
            && l'.dcTime >= syncOffset && l'.dcTime - syncOffset == (n + 1) * cycle - y
            && l'.keeper.deadline > l.keeper.deadline && l'.keeper.overruns == l.keeper.overruns
  {
    assert (n + 1) * cycle == n * cycle + cycle;
    ResidueOf(n + 1, -y, cycle);
  }

  // One cycle whose deadline is not missed.
  ghost predicate OnTimeCycle(l: Loop, l': Loop, cycle: int, syncOffset: int)
    requires cycle > 0
  {
    exists now :: OnTime(l, cycle, now) && l' == Cycle(l, cycle, syncOffset, now)
  }

  ghost predicate CycleAt(run: seq<Loop>, i: nat, cycle: int, syncOffset: int)
    requires cycle > 0 && i + 1 < |run|
  {
    OnTimeCycle(run[i], run[i + 1], cycle, syncOffset)
  }

  // Consecutive on-time cycles, starting from any state in lock.
  ghost predicate IsLockedRun(run: seq<Loop>, cycle: int, syncOffset: int, m: real) {
    && cycle > 0 && run != [] && InLock(run[0], cycle, syncOffset, m)
    && forall i: nat | i + 1 < |run| :: CycleAt(run, i, cycle, syncOffset)
  }

  // One cycle of the exact loop: no wrap, the deadline moves on, no overrun, V as in RoundedDescent.
  lemma CycleStaysInLock(run: seq<Loop>, cycle: int, syncOffset: int, m: real, n: nat)
    requires IsLockedRun(run, cycle, syncOffset, m) && n + 1 < |run| && InLock(run[n], cycle, syncOffset, m)
    ensures InLock(run[n + 1], cycle, syncOffset, m)
    // the residue reduction did not wrap
    ensures run[n + 1].controller.error == run[n].controller.error - CorrectionOf(run[n])
    ensures run[n + 1].controller.integral == run[n].controller.integral + run[n + 1].controller.error
    ensures Abs(run[n + 1].controller.error) >= 101 ==> LoopV(run[n + 1]) <= LoopV(run[n]) - 0.79
    ensures run[n + 1].keeper.deadline > run[n].keeper.deadline
    ensures run[n + 1].keeper.overruns == run[n].keeper.overruns
  {
    assert CycleAt(run, n, cycle, syncOffset);
    var l := run[n];
    var now :| OnTime(l, cycle, now) && run[n + 1] == Cycle(l, cycle, syncOffset, now);
    var (e, integral) := (l.controller.error, l.controller.integral);
    var y := e - CorrectionOf(l);
    var phase :| l.dcTime - syncOffset == phase * cycle - e;
    var demand := Demand(l.controller, P_GAIN, I_GAIN);
    TruncationBelowOne(demand);
    var d := demand - CorrectionOf(l) as real;
    assert (integral + y) as real == integral as real + y as real;
    RoundedDescent(e as real, integral as real, y as real, d);
    SmallError(e, integral, m, cycle);
    SmallError(y, integral + y, m, cycle);
    NextSample(l, cycle, syncOffset, now, phase, y);
  }

  // Over any number of cycles the rounded loop stays in lock: the error stays below half a cycle, so
  // the reduction never wraps, and V stays below its starting level or the rounding floor.
  lemma {:induction false} LoopStaysInLock(run: seq<Loop>, cycle: int, syncOffset: int, m: real, n: nat)
    requires IsLockedRun(run, cycle, syncOffset, m) && n < |run|
    ensures InLock(run[n], cycle, syncOffset, m) && 2 * Abs(run[n].controller.error) < cycle
    decreases n
  {
    if n > 0 {
      LoopStaysInLock(run, cycle, syncOffset, m, n - 1);
      CycleStaysInLock(run, cycle, syncOffset, m, n - 1);
    }
    SmallError(run[n].controller.error, run[n].controller.integral, m, cycle);
  }

  // While the error has been 101 ns or more after every cycle so far, V has lost 0.79 each time.
  lemma {:induction false} LargeErrorsCost(run: seq<Loop>, cycle: int, syncOffset: int, m: real, n: nat)
    requires IsLockedRun(run, cycle, syncOffset, m) && n < |run|
    requires forall k | 0 < k <= n :: Abs(run[k].controller.error) >= 101
    ensures LoopV(run[n]) <= m - 0.79 * n as real
    decreases n
  {
    if n > 0 {
      LargeErrorsCost(run, cycle, syncOffset, m, n - 1);
      LoopStaysInLock(run, cycle, syncOffset, m, n - 1);
      CycleStaysInLock(run, cycle, syncOffset, m, n - 1);
    }
  }

  lemma VNotNegative(e: real, integral: real)
    ensures V(e, integral) >= 0.0
  {
    assert e * e >= 0.0 && integral * integral >= 0.0;
  }

  // Recovery: among more than m / 0.79 consecutive on-time cycles in lock at level m, one ends with an
  // error below 101 ns.
  lemma LoopRecovers(run: seq<Loop>, cycle: int, syncOffset: int, m: real) returns (k: nat)
    requires IsLockedRun(run, cycle, syncOffset, m) && 0.79 * (|run| - 1) as real > m
    ensures 0 < k < |run| && Abs(run[k].controller.error) < 101
  {
    var n := |run| - 1;
    if j :| 0 < j <= n && Abs(run[j].controller.error) < 101 {
      k := j;
    } else {
      LargeErrorsCost(run, cycle, syncOffset, m, n);
      VNotNegative(run[n].controller.error as real, run[n].controller.integral as real);
      assert false;
    }
  }

  // ---- the loop in real arithmetic ------------------------------------------------------------

  // Time since the sync offset, and the controller's state.
  datatype Ideal = Ideal(time: real, error: real, integral: real)

  function WholeCycles(t: real, cycle: real): nat
    requires cycle > 0.0 && t >= 0.0
  {
    (t / cycle).Floor
  }

  lemma OneCycleLess(t: real, cycle: real)
    requires cycle > 0.0 && t >= cycle
    ensures WholeCycles(t, cycle) == WholeCycles(t - cycle, cycle) + 1
  {
    var q, p := t / cycle, (t - cycle) / cycle;
    assert q * cycle == t && p * cycle == t - cycle;
    var d := q - 1.0 - p;
    assert d * cycle == 0.0;
    assert d > 0.0 ==> d * cycle > 0.0;
    assert d < 0.0 ==> d * cycle < 0.0;
    assert t / cycle >= 1.0 by { assert (q - 1.0) * cycle >= 0.0; assert q < 1.0 ==> (1.0 - q) * cycle > 0.0; }
  }

  // What is left of t after taking away whole cycles.
  function Remainder(t: real, cycle: real): (r: real)
    requires cycle > 0.0 && t >= 0.0
    ensures 0.0 <= r < cycle
    decreases WholeCycles(t, cycle)
  {
    if t < cycle then t
    else
      OneCycleLess(t, cycle);
      Remainder(t - cycle, cycle)
  }

  lemma {:induction false} RemainderIs(t: real, cycle: real)
    requires cycle > 0.0 && t >= 0.0
    ensures Remainder(t, cycle) == t - cycle * WholeCycles(t, cycle) as real
    decreases WholeCycles(t, cycle)
  {
    if t < cycle {
      QuotientBelowOne(t, cycle);
    } else {
      OneCycleLess(t, cycle);
      RemainderIs(t - cycle, cycle);
    }
  }

  lemma QuotientBelowOne(t: real, cycle: real)
    requires 0.0 <= t < cycle
    ensures WholeCycles(t, cycle) == 0
  {
    var q := t / cycle;
    assert q * cycle == t;
    assert q >= 1.0 ==> (q - 1.0) * cycle >= 0.0;
  }

  // The source's `%`, which keeps the sign of its left operand, and the folding of its upper half.
  function RealMod(t: real, cycle: real): real
    requires cycle > 0.0
  {
    if t >= 0.0 then Remainder(t, cycle) else -Remainder(-t, cycle)
  }

  function RealResidue(t: real, cycle: real): real
    requires cycle > 0.0
  {
    if RealMod(t, cycle) > cycle / 2.0 then RealMod(t, cycle) - cycle else RealMod(t, cycle)
  }

  function IdealDemand(s: Ideal): real { s.error * P_GAIN + s.integral * I_GAIN }

  function IdealCycle(s: Ideal, cycle: real): Ideal
    requires cycle > 0.0
  {
    var time := s.time + cycle + IdealDemand(s);
    var error := -RealResidue(time, cycle);
    Ideal(time, error, s.integral + error)
  }

  function IdealV(s: Ideal): real { V(s.error, s.integral) }

  // Not before the sync offset, the last sample taken `error` before a multiple of the cycle, and V
  // below the square of half a cycle.
  predicate IdealLock(s: Ideal, cycle: real)
    requires cycle > 0.0
  {
    s.time >= 0.0 && RealMod(s.time + s.error, cycle) == 0.0 && IdealV(s) < (cycle / 2.0) * (cycle / 2.0)
  }

  lemma {:induction false} RemainderPlus(m: real, d: real, cycle: real)
    requires cycle > 0.0 && m >= 0.0 && Remainder(m, cycle) == 0.0 && 0.0 <= d < cycle
    ensures Remainder(m + d, cycle) == d
    decreases WholeCycles(m, cycle)
  {
    if m >= cycle {
      OneCycleLess(m, cycle);
      RemainderPlus(m - cycle, d, cycle);
      assert m + d - cycle == m - cycle + d;
    }
  }

  // A point less than half a cycle from a multiple of the cycle is reduced to its distance from it.
  lemma RealResidueOf(t: real, z: real, cycle: real)
    requires cycle > 0.0 && AbsR(z) < cycle / 2.0 && t >= 0.0 && RealMod(t - z, cycle) == 0.0
    ensures RealResidue(t, cycle) == z
  {
    var m := t - z;
    assert m >= 0.0;
    if z >= 0.0 {
      RemainderPlus(m, z, cycle);
    } else {
      assert m >= cycle;
      RemainderPlus(m - cycle, cycle + z, cycle);
      assert m - cycle + (cycle + z) == t;
    }
  }

  ghost predicate IdealCycleAt(run: seq<Ideal>, i: nat, cycle: real)
    requires cycle > 0.0 && i + 1 < |run|
  {
    run[i + 1] == IdealCycle(run[i], cycle)
  }

  // Consecutive cycles, starting from any state in lock.
  ghost predicate IsIdealRun(run: seq<Ideal>, cycle: real) {
    && cycle > 0.0 && run != [] && IdealLock(run[0], cycle)
    && forall i: nat | i + 1 < |run| :: IdealCycleAt(run, i, cycle)
  }

  // Lock is kept, the residue of the next sample is exactly the error minus the correction, and V
  // contracts.
  lemma IdealCycleContracts(run: seq<Ideal>, cycle: real, n: nat)
    requires IsIdealRun(run, cycle) && n + 1 < |run| && IdealLock(run[n], cycle)
    ensures IdealLock(run[n + 1], cycle) && IdealV(run[n + 1]) <= 0.99999 * IdealV(run[n])
    ensures run[n + 1].error == run[n].error - IdealDemand(run[n])
  {
    assert IdealCycleAt(run, n, cycle);
    var y := run[n].error - IdealDemand(run[n]);
    ErrorsContract(run[n].error, run[n].integral, y, cycle / 2.0);
    IdealSample(run[n], cycle, y);
  }

  lemma ErrorsContract(e: real, integral: real, y: real, half: real)
    requires half > 0.0 && V(e, integral) < half * half && y == e - (e * P_GAIN + integral * I_GAIN)
    ensures V(y, integral + y) <= 0.99999 * V(e, integral) && V(y, integral + y) < half * half
    ensures AbsR(e) < half && AbsR(y) < half
  {
    Contraction(e, integral, y);
    VBounds(e, integral);
    VBounds(y, integral + y);
    VNotNegative(e, integral);
    BelowSquare(e, half);
    BelowSquare(y, half);
  }

  lemma IdealSample(s: Ideal, cycle: real, y: real)
    requires cycle > 0.0 && s.time >= 0.0 && RealMod(s.time + s.error, cycle) == 0.0
    requires AbsR(s.error) < cycle / 2.0 && y == s.error - IdealDemand(s) && AbsR(y) < cycle / 2.0
    ensures IdealCycle(s, cycle) == Ideal(s.time + s.error + cycle - y, y, s.integral + y)
    ensures IdealCycle(s, cycle).time >= 0.0 && RealMod(IdealCycle(s, cycle).time + y, cycle) == 0.0
  {
    var m := s.time + s.error;
    var time := s.time + cycle + IdealDemand(s);
    assert m >= 0.0;
    assert time + y == m + cycle && m + cycle - cycle == m;
    assert Remainder(m + cycle, cycle) == Remainder(m, cycle);
    RealResidueOf(time, -y, cycle);
  }

  lemma PositiveProduct(x: real, y: real) returns (a: real)
    requires x > 0.0 && y > 0.0
    ensures a == x * y && a > 0.0
  {
    a := x * y;
  }

  lemma Square(x: real) returns (a: real)
    ensures a == x * x && a >= 0.0 && (a == 0.0 <==> x == 0.0)
  {
    if x > 0.0 { a := PositiveProduct(x, x); }
    else if x < 0.0 { a := PositiveProduct(-x, -x); }
    else { a := 0.0; }
  }

  lemma VBounds(e: real, integral: real)
    ensures e * e <= V(e, integral)
    ensures e != 0.0 || integral != 0.0 ==> V(e, integral) > 0.0
  {
    var a := Square(e);
    var b := Square(integral);
    assert V(e, integral) == a + I_GAIN * b;
  }

  // v reduced k times by one part in 100000.
  function Decay(v: real, k: nat): real { if k == 0 then v else 0.99999 * Decay(v, k - 1) }

  // Exponential stability, for any cycle time: V shrinks by at least one part in 100000 every cycle
  // and the reduction never wraps.
  lemma {:induction false} IdealLoopConverges(run: seq<Ideal>, cycle: real, n: nat)
    requires IsIdealRun(run, cycle) && n < |run|
    ensures IdealLock(run[n], cycle) && IdealV(run[n]) <= Decay(IdealV(run[0]), n)
    ensures n > 0 ==> run[n].error == run[n - 1].error - IdealDemand(run[n - 1])
    decreases n
  {
    if n > 0 {
      IdealLoopConverges(run, cycle, n - 1);
      IdealCycleContracts(run, cycle, n - 1);
    }
  }

  // V strictly decreases until the error and the integral are both zero.
  lemma IdealStrictDecrease(run: seq<Ideal>, cycle: real, n: nat)
    requires IsIdealRun(run, cycle) && n + 1 < |run|
    ensures IdealV(run[n + 1]) < IdealV(run[n]) || (run[n].error == 0.0 && run[n].integral == 0.0)
  {
    IdealLoopConverges(run, cycle, n);
    IdealCycleContracts(run, cycle, n);
    VBounds(run[n].error, run[n].integral);
  }
}
