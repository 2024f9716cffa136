/** Facts about the remainder `%` on naturals, which wrap-around indices are built from. */
module Modular {

  /** A positive multiple of `n` is at least `n`. */
  lemma {:induction false} MulAtLeast(a: nat, n: nat)
    requires a >= 1
    ensures a * n >= n
  {
    if a > 1 {
      MulAtLeast(a - 1, n);
      assert a * n == (a - 1) * n + n;
    }
  }

  /** The remainder is determined by any quotient/remainder split of `x`. */
  lemma ModUnique(x: nat, n: nat, q: nat, r: nat)
    requires r < n && x == q * n + r
    ensures x % n == r
  {
    var q', r' := x / n, x % n;
    assert x == q' * n + r';
    if q > q' {
      MulAtLeast(q - q', n);
    } else if q < q' {
      MulAtLeast(q' - q, n);
    }
  }

  /** Taking the successor commutes with the remainder. */
  lemma ModSucc(m: nat, n: nat)
    requires n > 0
    ensures (m % n + 1) % n == (m + 1) % n
  {
    var q, r := m / n, m % n;
    assert m == q * n + r;
    if r + 1 < n {
      ModUnique(r + 1, n, 0, r + 1);
      ModUnique(m + 1, n, q, r + 1);
    } else {
      ModUnique(r + 1, n, 1, 0);
      assert m + 1 == (q + 1) * n;
      ModUnique(m + 1, n, q + 1, 0);
    }
  }
}
