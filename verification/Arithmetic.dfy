/** Facts about multiplication and remainders that the solver does not find by itself. */
module Arithmetic {
  lemma Distribute(k: nat, n: nat)
    ensures (k + 1) * n == k * n + n && k * n >= 0
    ensures -(k + 1) * n == -(k * n) - n
  {
  }

  /** A non-zero multiple of `n` is at least `n` away from zero. */
  lemma MultipleIsFar(k: int, n: int)
    requires k != 0 && n >= 0
    ensures k * n >= n || k * n <= -n
  {
    if k > 0 {
      Distribute(k - 1, n);
    } else {
      Distribute(-k - 1, n);
    }
  }

  lemma {:induction false} MultiplyMonotone(a: nat, b: nat, n: nat)
    requires a <= b
    ensures a * n <= b * n
    decreases b
  {
    if a < b {
      MultiplyMonotone(a, b - 1, n);
      Distribute(b - 1, n);
    }
  }

  lemma DivisionUnique(x: nat, n: nat, q: nat, r: nat)
    requires n > 0 && x == n * q + r && r < n
    ensures x % n == r && x / n == q
  {
    var q', r' := x / n, x % n;
    assert x == n * q' + r';
    assert (q - q') * n == r' - r;
    if q != q' {
      MultipleIsFar(q - q', n);
    }
  }

  lemma MultipleAligned(k: nat, n: nat)
    requires n > 0
    ensures (n * k) % n == 0
  {
    DivisionUnique(n * k, n, k, 0);
  }
}
