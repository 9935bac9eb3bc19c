/** timespec values and the arithmetic on them, with C++'s truncating division. */
module TimeSpecs {
  const BILLION: int := 1_000_000_000

  // C++ `/` and `%` round towards zero (b > 0).
  function TruncDiv(a: int, b: int): int
    requires b > 0
  {
    if a >= 0 then a / b else -(-a / b)
  }

  function TruncMod(a: int, b: int): int
    requires b > 0
  {
    if a >= 0 then a % b else -(-a % b)
  }

  datatype TimeSpec = TimeSpec(sec: int, nsec: int) {
    predicate Normalised() { 0 <= nsec < BILLION }

    // The point in time denoted, in nanoseconds.
    function Ns(): int { sec * BILLION + nsec }

    predicate SmallerThan(other: TimeSpec) { sec < other.sec || (sec == other.sec && nsec < other.nsec) }

    function DiffNs(other: TimeSpec): int { (sec - other.sec) * BILLION + (nsec - other.nsec) }

    function AddNs(ns: int): TimeSpec {
      var s := sec + TruncDiv(ns, BILLION);
      var n := nsec + TruncMod(ns, BILLION);
      if n >= BILLION then TimeSpec(s + 1, n - BILLION)
      else if n < 0 then TimeSpec(s - 1, n + BILLION)
      else TimeSpec(s, n)
    }
  }

  // Normalised values and points in time correspond one to one.
  lemma NsInjective(a: TimeSpec, b: TimeSpec)
    requires a.Normalised() && b.Normalised()
    ensures a == b <==> a.Ns() == b.Ns()
    ensures a.SmallerThan(b) <==> a.Ns() < b.Ns()
    ensures a.SmallerThan(b) <==> a.DiffNs(b) < 0
    ensures a.DiffNs(b) == a.Ns() - b.Ns()
  {
  }

  // One correction after the truncated division restores the normal form, for either sign of ns.
  lemma AddIsExact(t: TimeSpec, ns: int)
    requires t.Normalised()
    ensures t.AddNs(ns).Normalised() && t.AddNs(ns).Ns() == t.Ns() + ns
  {
    if ns < 0 { assert -ns == (-ns / BILLION) * BILLION + (-ns % BILLION); }
  }

  lemma AddDiffInverse(a: TimeSpec, b: TimeSpec, ns: int)
    requires a.Normalised() && b.Normalised()
    ensures a.AddNs(ns).DiffNs(a) == ns
    ensures b.AddNs(a.DiffNs(b)) == a
  {
    AddIsExact(a, ns);
    NsInjective(a.AddNs(ns), a);
    AddIsExact(b, a.DiffNs(b));
    NsInjective(a, b);
    NsInjective(b.AddNs(a.DiffNs(b)), a);
  }

  lemma AddAssociates(t: TimeSpec, m: int, n: int)
    requires t.Normalised()
    ensures t.AddNs(m).AddNs(n) == t.AddNs(m + n)
  {
    AddIsExact(t, m);
    AddIsExact(t.AddNs(m), n);
    AddIsExact(t, m + n);
    NsInjective(t.AddNs(m).AddNs(n), t.AddNs(m + n));
  }
}

/** The periodic deadline keeper of the realtime loop. */
module UpdateRates {
  import opened TimeSpecs

  // CLOCK_MONOTONIC: any sequence of readings that never goes back and passes every point in time.
  class MonotonicClock {
    const reading: nat -> TimeSpec
    var next: nat

    ghost predicate Valid() {
      && (forall i: nat :: reading(i).Normalised())
      && (forall i: nat, j: nat :: i <= j ==> reading(i).Ns() <= reading(j).Ns())
      && (forall t: int :: Passes(t))
    }

    ghost predicate Passes(t: int) { exists i: nat :: reading(i).Ns() >= t }

    constructor (reading: nat -> TimeSpec)
      ensures this.reading == reading && next == 0
    {
      this.reading := reading;
      next := 0;
    }

    method Now() returns (t: TimeSpec)
      modifies this
      ensures t == reading(old(next)) && next == old(next) + 1
    {
      t := reading(next);
      next := next + 1;
    }
  }

  lemma TooEarly(clock: MonotonicClock, k: nat, last: nat, ts: TimeSpec)
    requires clock.Valid() && ts.Normalised()
    requires clock.reading(last).Ns() >= ts.Ns() && clock.reading(k).SmallerThan(ts)
    ensures k < last
  {
    NsInjective(clock.reading(k), ts);
    assert clock.reading(k).Ns() < clock.reading(last).Ns();
  }

  // Busy-waits until the absolute time ts; the coarse sleep before it only skips readings.
  method HighPrecisionSleep(clock: MonotonicClock, ts: TimeSpec) returns (now: TimeSpec)
    requires clock.Valid() && ts.Normalised()
    modifies clock
    ensures clock.next > old(clock.next) && now == clock.reading(clock.next - 1) && !now.SmallerThan(ts)
    ensures forall i | old(clock.next) <= i < clock.next - 1 :: clock.reading(i).SmallerThan(ts)
  {
    assert clock.Passes(ts.Ns());
    ghost var last: nat :| clock.reading(last).Ns() >= ts.Ns();
    now := clock.Now();
    while now.SmallerThan(ts)
      invariant old(clock.next) < clock.next && now == clock.reading(clock.next - 1)
      invariant forall i | old(clock.next) <= i < clock.next - 1 :: clock.reading(i).SmallerThan(ts)
      decreases last + 1 - clock.next
    {
      TooEarly(clock, clock.next - 1, last, ts);
      now := clock.Now();
    }
  }

  // The keeper's state in plain nanoseconds.
  datatype Keeper = Keeper(deadline: int, overruns: nat, lastDelay: int, accumulated: int)

  function Stepped(k: Keeper, step: int, offset: int, now: int): Keeper {
    var due := k.deadline + step + offset;
    if due < now then Keeper(now + step, k.overruns + 1, now - due, k.accumulated + (now - due))
    else Keeper(due, k.overruns, 0, k.accumulated)
  }

  class PrecisionUpdateRate {
    const timeStepNs: int
    var accumulatedDelayNs: int
    var lastDelayNs: int
    var overrunCount: nat
    var sleepEnd: TimeSpec

    predicate Valid()
      reads this
    {
      sleepEnd.Normalised()
    }

    function Value(): Keeper
      reads this
    {
      Keeper(sleepEnd.Ns(), overrunCount, lastDelayNs, accumulatedDelayNs)
    }

    constructor (timeStepNs: int, clock: MonotonicClock)
      requires clock.Valid()
      modifies clock
      ensures Valid() && this.timeStepNs == timeStepNs && clock.next == old(clock.next) + 1
      ensures Value() == Keeper(clock.reading(old(clock.next)).Ns(), 0, 0, 0)
    {
      this.timeStepNs := timeStepNs;
      sleepEnd := TimeSpec(0, 0);
      new;
      Reset(clock);
    }

    method Reset(clock: MonotonicClock)
      requires clock.Valid()
      modifies this, clock
      ensures Valid() && clock.next == old(clock.next) + 1
      ensures Value() == Keeper(clock.reading(old(clock.next)).Ns(), 0, 0, 0)
    {
      sleepEnd := clock.Now();
      lastDelayNs := 0;
      accumulatedDelayNs := 0;
      overrunCount := 0;
    }

    // Advances the deadline and sleeps until it; true if the deadline had been missed.
    method Step(syncOffset: int, clock: MonotonicClock) returns (overrun: bool)
      requires Valid() && clock.Valid()
      modifies this, clock
      ensures Valid()
      ensures var now := clock.reading(old(clock.next)).Ns();
              && Value() == Stepped(old(Value()), timeStepNs, syncOffset, now)
              && (overrun <==> old(sleepEnd.Ns()) + timeStepNs + syncOffset < now)
      // late: the delay is how late, and the schedule resumes one step from now; else it goes on
      ensures var (due, now) := (old(sleepEnd.Ns()) + timeStepNs + syncOffset, clock.reading(old(clock.next)).Ns());
              && lastDelayNs == (if due < now then now - due else 0)
              && sleepEnd.Ns() == (if due < now then now + timeStepNs else due)
              && accumulatedDelayNs == old(accumulatedDelayNs) + lastDelayNs
              && overrunCount == old(overrunCount) + if due < now then 1 else 0
      // the clock has reached the deadline when the call returns
      ensures clock.next > old(clock.next) && clock.reading(clock.next - 1).Ns() >= sleepEnd.Ns()
    {
      AddIsExact(sleepEnd, timeStepNs + syncOffset);
      sleepEnd := sleepEnd.AddNs(timeStepNs + syncOffset);
      lastDelayNs := 0;
      var now := clock.Now();
      overrun := false;
      NsInjective(sleepEnd, now);
      if sleepEnd.SmallerThan(now) {
        overrun := true;
        overrunCount := overrunCount + 1;
        NsInjective(now, sleepEnd);
        lastDelayNs := now.DiffNs(sleepEnd);
        accumulatedDelayNs := accumulatedDelayNs + lastDelayNs;
        sleepEnd := now;
        AddIsExact(sleepEnd, timeStepNs);
        sleepEnd := sleepEnd.AddNs(timeStepNs);
      }
      var reached := HighPrecisionSleep(clock, sleepEnd);
      NsInjective(reached, sleepEnd);
    }
  }

  // ---- whole runs ---------------------------------------------------------------------------

  // One call of step: its offset, and the clock reading it compares with.
  datatype Call = Call(offset: int, now: int)

  function Run(k: Keeper, step: int, calls: seq<Call>): Keeper {
    if calls == [] then k
    else var c := calls[|calls| - 1]; Stepped(Run(k, step, calls[..|calls| - 1]), step, c.offset, c.now)
  }

  function SumOffsets(calls: seq<Call>): int {
    if calls == [] then 0 else SumOffsets(calls[..|calls| - 1]) + calls[|calls| - 1].offset
  }

  // The delays reported after each call (0 where there was no overrun), summed.
  function SumDelays(k: Keeper, step: int, calls: seq<Call>): int {
    if calls == [] then 0 else SumDelays(k, step, calls[..|calls| - 1]) + Run(k, step, calls).lastDelay
  }

  function OverrunsIn(k: Keeper, step: int, calls: seq<Call>): nat {
    if calls == [] then 0
    else OverrunsIn(k, step, calls[..|calls| - 1]) + if Run(k, step, calls).lastDelay > 0 then 1 else 0
  }

  // The ledger: every nanosecond of the deadline is accounted for.
  lemma {:induction false} DeadlineLedger(start: int, step: int, calls: seq<Call>)
    ensures var k := Run(Keeper(start, 0, 0, 0), step, calls);
            && k.deadline == start + |calls| * step + SumOffsets(calls) + k.accumulated + k.overruns * step
            && k.accumulated == SumDelays(Keeper(start, 0, 0, 0), step, calls)
            && k.overruns == OverrunsIn(Keeper(start, 0, 0, 0), step, calls)
            && k.lastDelay >= 0 && k.accumulated >= k.lastDelay
  {
    if calls != [] {
      DeadlineLedger(start, step, calls[..|calls| - 1]);
      var k := Run(Keeper(start, 0, 0, 0), step, calls[..|calls| - 1]);
      assert (k.overruns + 1) * step == k.overruns * step + step;
      assert |calls| * step == (|calls| - 1) * step + step;
    }
  }

  // The update rate is a floor: n calls take at least n steps plus the offsets asked for, and
  // without overruns the n-th deadline is exactly that (no drift).
  lemma RateFloor(start: int, step: int, calls: seq<Call>)
    requires step >= 0
    ensures var k := Run(Keeper(start, 0, 0, 0), step, calls);
            && k.deadline >= start + |calls| * step + SumOffsets(calls)
            && (k.overruns == 0 ==> k.deadline == start + |calls| * step + SumOffsets(calls))
  {
    DeadlineLedger(start, step, calls);
    NoOverrunNoDelay(start, step, calls);
    var k := Run(Keeper(start, 0, 0, 0), step, calls);
    assert k.overruns * step >= 0;
  }

  // Each overrun is reported with its full delay and resynchronises: the next deadline is one step from
  // the reading that showed it, however many deadlines had passed. Otherwise the schedule is kept.
  lemma OverrunResynchronises(k: Keeper, step: int, calls: seq<Call>)
    requires calls != []
    ensures var before := Run(k, step, calls[..|calls| - 1]);
            var after := Run(k, step, calls);
            var c := calls[|calls| - 1];
            var due := before.deadline + step + c.offset;
            if due < c.now then
              after.deadline == c.now + step && after.lastDelay == c.now - due && after.overruns == before.overruns + 1
            else
              after.deadline == due && after.lastDelay == 0 && after.overruns == before.overruns
  {
  }

  // With steady calls the delay of an overrun does not carry over: a cycle that starts in time after
  // one is not late.
  lemma OnTimeAfterOverrun(k: Keeper, step: int, calls: seq<Call>, next: Call)
    requires calls != [] && Run(k, step, calls).lastDelay > 0
    requires next.now <= calls[|calls| - 1].now + 2 * step + next.offset
    ensures Run(k, step, calls + [next]).lastDelay == 0
    ensures Run(k, step, calls + [next]).deadline == calls[|calls| - 1].now + 2 * step + next.offset
  {
    assert (calls + [next])[..|calls|] == calls;
    OverrunResynchronises(k, step, calls);
    OverrunResynchronises(k, step, calls + [next]);
  }

  lemma {:induction false} NoOverrunNoDelay(start: int, step: int, calls: seq<Call>)
    ensures var k := Run(Keeper(start, 0, 0, 0), step, calls); k.overruns == 0 <==> k.accumulated == 0
    ensures Run(Keeper(start, 0, 0, 0), step, calls).accumulated >= 0
  {
    if calls != [] {
      NoOverrunNoDelay(start, step, calls[..|calls| - 1]);
    }
  }
}
