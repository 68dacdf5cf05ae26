/** Facts about the remainder operator used by the autoplay counter. */
module ModArith {

  /** A positive multiple of `n` is at least `n`. */
  lemma MulAtLeast(d: int, n: int)
    requires d >= 1 && n >= 1
    ensures d * n >= n
  {
  }

  /** The remainder is the unique `r` in [0, n) with `x == q * n + r`. */
  lemma ModUnique(x: int, n: int, q: int, r: int)
    requires n >= 1 && x == q * n + r && 0 <= r < n
    ensures x % n == r
  {
    var q', r' := x / n, x % n;
    assert x == q' * n + r';
    assert (q - q') * n == q * n - q' * n;
    assert (q' - q) * n == q' * n - q * n;
    if q > q' {
      MulAtLeast(q - q', n);
    } else if q < q' {
      MulAtLeast(q' - q, n);
    }
  }

  /** Adding the modulus to a remainder gives the same remainder. */
  lemma ModPlusModulus(a: nat, n: nat)
    requires a < n
    ensures (a + n) % n == a
  {
  }

  /** Stepping to the successor and back to 0 after the last index is
      adding one modulo `n`. */
  lemma WrapIsMod(x: nat, n: nat)
    requires x < n
    ensures (if x + 1 == n then 0 else x + 1) == (x + 1) % n
  {
  }

  /** Taking the remainder before adding one does not change the result. */
  lemma ModSuccessor(a: nat, k: nat, n: nat)
    requires n >= 1
    ensures ((a + k) % n + 1) % n == (a + k + 1) % n
  {
    var m, q := (a + k) % n, (a + k) / n;
    assert a + k == q * n + m;
    if m + 1 < n {
      ModUnique(a + k + 1, n, q, m + 1);
      ModUnique(m + 1, n, 0, m + 1);
    } else {
      assert a + k + 1 == (q + 1) * n;
      ModUnique(a + k + 1, n, q + 1, 0);
      ModUnique(m + 1, n, 1, 0);
    }
  }

  /** One more wrapping step of a counter that stood at `a + k - 1`
      modulo `n` leaves it at `a + k` modulo `n`. */
  lemma CounterStep(a: nat, k: nat, n: nat, x: nat, y: nat)
    requires k >= 1 && n >= 1 && x < n
    requires x == (a + (k - 1)) % n
    requires y == if x + 1 == n then 0 else x + 1
    ensures y == (a + k) % n
  {
    WrapIsMod(x, n);
    ModSuccessor(a, k - 1, n);
  }
}
