/**
 * Facts about `%` on natural numbers used by the two ring buffers: the
 * stereo scope buffer of the audio host and the mono capture buffer of the
 * shader demo both index a fixed array with `(offset + i) % capacity`.
 */
module Modular {

  /** A multiple of `n` is zero or at least `n` away from zero. */
  lemma MultipleGap(k: int, n: nat)
    requires 0 < n
    ensures k * n == 0 || k * n >= n || k * n + n <= 0
  {
    if k >= 1 {
      assert k * n == (k - 1) * n + n;
    } else if k <= -1 {
      assert k * n == (k + 1) * n - n;
    }
  }

  /** Quotient and remainder are determined by any decomposition with an in-range remainder. */
  lemma DivModUnique(a: nat, n: nat, q: int, r: int)
    requires 0 < n && 0 <= r < n
    requires a == q * n + r
    ensures a % n == r
    ensures a / n == q
  {
    var q', r' := a / n, a % n;
    assert a == q' * n + r';
    MultipleGap(q - q', n);
    assert (q - q') * n == q * n - q' * n;
    assert (q - q') * n == 0;
  }

  /** Two positions less than `n` apart fall into different slots. */
  lemma DistinctSlots(a: nat, b: nat, n: nat)
    requires 0 < n
    requires b < a < b + n
    ensures a % n != b % n
  {
    var qa, qb := a / n, b / n;
    assert a == qa * n + a % n;
    assert b == qb * n + b % n;
    MultipleGap(qa - qb, n);
    assert (qa - qb) * n == qa * n - qb * n;
  }

  /** Reducing modulo an even capacity keeps parity. */
  lemma ModEvenKeepsParity(a: nat, n: nat)
    requires 0 < n && n % 2 == 0
    ensures (a % n) % 2 == a % 2
  {
    var q := a / n;
    assert a == q * n + a % n;
    var h := n / 2;
    assert q * n == 2 * (q * h);
  }

  /** With an even capacity, the slot after an even slot is one further on. */
  lemma NextSlotOfEven(a: nat, n: nat)
    requires 0 < n && n % 2 == 0
    requires a % 2 == 0
    ensures (a + 1) % n == a % n + 1
  {
    ModEvenKeepsParity(a, n);
    var q, r := a / n, a % n;
    assert a == q * n + r;
    assert r + 1 < n;
    DivModUnique(a + 1, n, q, r + 1);
  }
}
