/** Port diagnostics: one slave per refresh, round robin. */
module PortDiagnostics {
  import opened Division

  datatype SlavePorts = SlavePorts(health: seq<int>, updated: int)

  // ---- the cursor --------------------------------------------------------------------------------

  // The slave a refresh that finds the cursor at c works on.
  function Selected(n: nat, c: nat): (s: nat)
    requires n > 0
    ensures s < n
  {
    if c >= n then 0 else c
  }

  // The cursor after m refreshes.
  function CursorAfter(n: nat, c: nat, m: nat): nat
    requires n > 0
  {
    if m == 0 then c else Selected(n, CursorAfter(n, c, m - 1)) + 1
  }

  // How many of the m refreshes that start with the cursor at c work on slave s.
  function Refreshes(n: nat, c: nat, m: nat, s: nat): nat
    requires n > 0
  {
    if m == 0 then 0
    else Refreshes(n, c, m - 1, s) + if Selected(n, CursorAfter(n, c, m - 1)) == s then 1 else 0
  }

  lemma PlusN(a: int, n: int)
    requires n > 0
    ensures (a + n) / n == a / n + 1
  {
    var q, r := a / n, a % n;
    OneMoreTime(q, n);
    DivisionIs(a + n, n, q + 1, r);
  }

  lemma OneMore(a: nat, n: nat)
    requires n > 0
    ensures (a + 1) % n == if a % n == n - 1 then 0 else a % n + 1
    ensures (a + 1) / n == a / n + if a % n == n - 1 then 1 else 0
  {
    var q, r := a / n, a % n;
    OneMoreTime(q, n);
    if r == n - 1 { DivisionIs(a + 1, n, q + 1, 0); } else { DivisionIs(a + 1, n, q, r + 1); }
  }

  // The cursor runs around the slaves.
  lemma {:induction false} SelectedAfter(n: nat, c: nat, m: nat)
    requires n > 0 && c <= n
    ensures CursorAfter(n, c, m) <= n && Selected(n, CursorAfter(n, c, m)) == (c + m) % n
  {
    if m == 0 {
      if c == n { DivisionIs(c, n, 1, 0); } else { DivisionIs(c, n, 0, c); }
    } else {
      SelectedAfter(n, c, m - 1);
      OneMore(c + m - 1, n);
    }
  }

  // The numbers below x that leave remainder s.
  function UpTo(x: nat, n: nat, s: nat): nat
    requires s < n
  {
    (x + (n - 1 - s)) / n
  }

  lemma UpToNext(x: nat, n: nat, s: nat)
    requires s < n
    ensures UpTo(x + 1, n, s) == UpTo(x, n, s) + if x % n == s then 1 else 0
  {
    OneMore(x + (n - 1 - s), n);
    RemainderOfSum(x, n - 1 - s, n);
  }

  lemma RemainderOfSum(x: nat, e: nat, n: nat)
    requires e < n
    ensures (x + e) % n == if x % n + e < n then x % n + e else x % n + e - n
  {
    var q, r := x / n, x % n;
    OneMoreTime(q, n);
    if r + e < n { DivisionIs(x + e, n, q, r + e); } else { DivisionIs(x + e, n, q + 1, r + e - n); }
  }

  lemma {:induction false} RefreshesAre(n: nat, c: nat, m: nat, s: nat)
    requires s < n && c <= n
    ensures Refreshes(n, c, m, s) == UpTo(c + m, n, s) - UpTo(c, n, s)
  {
    if m > 0 {
      RefreshesAre(n, c, m - 1, s);
      SelectedAfter(n, c, m - 1);
      UpToNext(c + m - 1, n, s);
    }
  }

  // Any n consecutive refreshes, from any moment on, work on every slave exactly once.
  lemma EachSlaveOnce(n: nat, c: nat, m: nat, s: nat)
    requires s < n && c <= n
    ensures Refreshes(n, c, m + n, s) == Refreshes(n, c, m, s) + 1
  {
    RefreshesAre(n, c, m, s);
    RefreshesAre(n, c, m + n, s);
    PlusN(c + m + (n - 1 - s), n);
    assert c + (m + n) + (n - 1 - s) == c + m + (n - 1 - s) + n;
  }

  lemma {:induction false} RefreshesGrow(n: nat, c: nat, m: nat, k: nat, s: nat)
    requires n > 0 && m <= k
    ensures Refreshes(n, c, m, s) <= Refreshes(n, c, k, s)
    decreases k
  {
    if m < k { RefreshesGrow(n, c, m, k - 1, s); }
  }

  // Every slave has had its share of the refreshes, rounded down or up.
  lemma FairShare(n: nat, c: nat, m: nat, s: nat)
    requires s < n && c <= n
    ensures m / n <= Refreshes(n, c, m, s) <= m / n + 1
  {
    var q, r := m / n, m % n;
    Rounds(n, c, m, q, r, s);
  }

  // After q whole rounds and r more refreshes.
  lemma {:induction false} Rounds(n: nat, c: nat, m: nat, q: nat, r: nat, s: nat)
    requires s < n && c <= n && r < n && m == q * n + r
    ensures q <= Refreshes(n, c, m, s) <= q + 1
    decreases q
  {
    if q == 0 {
      EachSlaveOnce(n, c, 0, s);
      RefreshesGrow(n, c, r, n, s);
    } else {
      OneMoreTime(q - 1, n);
      assert (q - 1) * n >= 0;
      Rounds(n, c, m - n, q - 1, r, s);
      EachSlaveOnce(n, c, m - n, s);
    }
  }

  // So no two slaves' counts differ by more than one.
  lemma Balanced(n: nat, c: nat, m: nat, s: nat, t: nat)
    requires s < n && t < n && c <= n
    ensures Refreshes(n, c, m, s) <= Refreshes(n, c, m, t) + 1
  {
    FairShare(n, c, m, s);
    FairShare(n, c, m, t);
  }

  // ---- the refresh -------------------------------------------------------------------------------

  class Diagnostics {
    var slaves: array<SlavePorts>     // latest_diagnostics_.slaves
    var current: nat                  // current_selected_diagnostics_slave_
    ghost var done: nat               // refreshes so far

    ghost predicate Valid()
      reads this
    {
      slaves.Length > 0 && current == CursorAfter(slaves.Length, 0, done) <= slaves.Length
    }

    constructor (slaveCount: nat)
      requires slaveCount > 0
      ensures Valid() && done == 0 && slaves.Length == slaveCount && fresh(slaves)
    {
      slaves := new SlavePorts[slaveCount](i => SlavePorts([], 0));
      current, done := 0, 0;
    }

    // update_diagnostics_slow; read(i) is what the registers of slave i say.
    method UpdateSlow(read: nat -> seq<int>, now: int) returns (s: nat)
      requires Valid()
      modifies `current, `done, slaves
      ensures Valid() && done == old(done) + 1
      ensures s == old(done) % slaves.Length
      ensures slaves[..] == old(slaves[..])[s := SlavePorts(read(s), now)]
    {
      SelectedAfter(slaves.Length, 0, done);
      SelectedAfter(slaves.Length, 0, done + 1);
      if current >= slaves.Length {
        current := 0;
      }
      s := current;
      slaves[current] := SlavePorts(read(current), now);
      current := current + 1;
      done := done + 1;
    }
  }
}
