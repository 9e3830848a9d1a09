/**
 * The two approach laws of the audio host: `approachExp` moves a value a
 * fixed fraction of the way toward a target, `approachLinear` moves it by at
 * most a fixed step. Values are reals; IEEE rounding is not modelled.
 *
 * Every step that multiplies two unknowns goes through one of the small
 * lemmas `ProductSign`, `ScaleEq` and `NegProduct`, so that the remaining
 * reasoning is linear.
 */
module Approach {

  function Abs(x: real): real
  {
    if x < 0.0 then -x else x
  }

  /** `r` lies on the closed segment between `a` and `b`. */
  predicate Between(a: real, b: real, r: real)
  {
    (a <= r <= b) || (b <= r <= a)
  }

  lemma ProductSign(x: real, y: real)
    requires 0.0 <= x && 0.0 <= y
    ensures 0.0 <= x * y
  {
  }

  /** A fraction below 1 of a positive quantity is less than the quantity. */
  lemma FractionBelow(f: real, z: real)
    requires f < 1.0 && 0.0 < z
    ensures f * z < z
  {
    assert 0.0 < (1.0 - f) * z;
  }

  lemma ScaleEq(x: real, y: real, z: real)
    requires y == z
    ensures x * y == x * z
  {
  }

  /** A fraction of a non-negative quantity is at most the quantity. */
  lemma FractionAtMost(f: real, z: real)
    requires 0.0 <= f <= 1.0 && 0.0 <= z
    ensures 0.0 <= f * z
    ensures f * z <= z
  {
    ProductSign(f, z);
    ProductSign(1.0 - f, z);
  }

  /** `approachExp(a, b, ratio)`: `a + (b - a) * ratio`. */
  function ApproachExp(a: real, b: real, ratio: real): (r: real)
    ensures r - b == (1.0 - ratio) * (a - b)
    ensures ratio == 0.0 ==> r == a
    ensures ratio == 1.0 ==> r == b
  {
    a + (b - a) * ratio
  }

  /**
   * A step with a ratio in `[0, 1]` lands between start and target, and its
   * distance to the target is `1 - ratio` times the old distance.
   */
  lemma ApproachExpBetween(a: real, b: real, ratio: real)
    requires 0.0 <= ratio <= 1.0
    ensures Between(a, b, ApproachExp(a, b, ratio))
    ensures Abs(ApproachExp(a, b, ratio) - b) == (1.0 - ratio) * Abs(a - b)
  {
    GapDistance(a, b, ApproachExp(a, b, ratio), 1.0 - ratio);
  }

  /** `approachLinear(a, b, max)`: step toward `b` by `max`, landing on `b` when closer than that. */
  function ApproachLinear(a: real, b: real, max: real): (r: real)
    ensures max >= 0.0 ==> Between(a, b, r)
    ensures Abs(a - b) < max ==> r == b
    ensures max >= 0.0 && Abs(a - b) >= max ==> Abs(r - a) == max && Abs(r - b) == Abs(a - b) - max
  {
    if a > b then
      (if a - b < max then b else a - max)
    else
      (if b - a < max then b else a + max)
  }

  /** `ratio` applied `k` times in a row with a fixed target. */
  function IterateExp(a: real, b: real, ratio: real, k: nat): real
  {
    if k == 0 then a else ApproachExp(IterateExp(a, b, ratio, k - 1), b, ratio)
  }

  function Pow(x: real, k: nat): real
  {
    if k == 0 then 1.0 else x * Pow(x, k - 1)
  }

  lemma {:induction false} PowUnit(x: real, k: nat)
    requires 0.0 <= x <= 1.0
    ensures 0.0 <= Pow(x, k) <= 1.0
  {
    if k > 0 {
      PowUnit(x, k - 1);
      FractionAtMost(x, Pow(x, k - 1));
    }
  }

  /** One more factor `q` on both sides of `g == p * d`. */
  lemma GapStep(q: real, g: real, p: real, d: real, pq: real)
    requires g == p * d && pq == q * p
    ensures q * g == pq * d
  {
    ScaleEq(q, g, p * d);
    ScaleEq(d, pq, q * p);
  }

  /** A gap scaled by a factor in `[0, 1]` keeps its sign and does not grow. */
  lemma ShrunkGap(g: real, p: real, d: real)
    requires 0.0 <= p <= 1.0 && g == p * d
    ensures Abs(g) == p * Abs(d)
    ensures Abs(g) <= Abs(d)
    ensures (0.0 <= g <= d) || (d <= g <= 0.0)
  {
    if d >= 0.0 {
      FractionAtMost(p, d);
      assert 0.0 <= g <= d;
      assert Abs(g) == g;
      assert Abs(d) == d;
      ScaleEq(p, Abs(d), d);
    } else {
      var e := -d;
      FractionAtMost(p, e);
      ScaleEq(p, Abs(d), e);
      NegProduct(p, d, e);
      assert d <= g <= 0.0;
      assert Abs(g) == -g;
      assert Abs(d) == e;
    }
  }

  /** `c` is `p` of the way from `b` back toward `a`, for `p` in `[0, 1]`. */
  lemma GapDistance(a: real, b: real, c: real, p: real)
    requires 0.0 <= p <= 1.0 && c - b == p * (a - b)
    ensures Abs(c - b) == p * Abs(a - b)
    ensures Abs(c - b) <= Abs(a - b)
    ensures Between(a, b, c)
  {
    ShrunkGap(c - b, p, a - b);
    assert (0.0 <= c - b <= a - b) || (a - b <= c - b <= 0.0);
  }

  lemma NegProduct(p: real, d: real, e: real)
    requires e == -d
    ensures p * e == -(p * d)
  {
  }

  /** With a fixed target the gap to the target shrinks by the factor `1 - ratio` per step. */
  lemma {:induction false} IterateExpGap(a: real, b: real, ratio: real, k: nat)
    ensures IterateExp(a, b, ratio, k) - b == Pow(1.0 - ratio, k) * (a - b)
  {
    if k > 0 {
      IterateExpGap(a, b, ratio, k - 1);
      var c := IterateExp(a, b, ratio, k - 1);
      GapStep(1.0 - ratio, c - b, Pow(1.0 - ratio, k - 1), a - b, Pow(1.0 - ratio, k));
    }
  }

  /**
   * Repeated smoothing toward a fixed target never overshoots: every iterate
   * lies between the start and the target, and its distance to the target is
   * exactly `(1 - ratio)^k` times the starting distance, a factor in `[0, 1]`.
   */
  lemma {:induction false} IterateExpDistance(a: real, b: real, ratio: real, k: nat)
    requires 0.0 <= ratio <= 1.0
    ensures Between(a, b, IterateExp(a, b, ratio, k))
    ensures Abs(IterateExp(a, b, ratio, k) - b) == Pow(1.0 - ratio, k) * Abs(a - b)
    ensures Abs(IterateExp(a, b, ratio, k) - b) <= Abs(a - b)
  {
    var c, p := IterateExp(a, b, ratio, k), Pow(1.0 - ratio, k);
    IterateExpGap(a, b, ratio, k);
    PowUnit(1.0 - ratio, k);
    GapDistance(a, b, c, p);
  }
}
