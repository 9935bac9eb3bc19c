/** Quotients and remainders, for the proofs that need them with a variable divisor. */
module Division {

  lemma DivisionIs(a: int, n: int, q: int, r: int)
    requires 0 <= r < n && a == q * n + r
    ensures a / n == q && a % n == r
  {
    var d := a / n - q;
    assert d * n == r - a % n;
    assert d >= 1 ==> d * n >= n;
    assert d <= -1 ==> d * n <= -n;
  }

  lemma OneMoreTime(q: int, n: int)
    ensures (q + 1) * n == q * n + n
  {
  }
}
