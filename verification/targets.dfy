/**
 * Target editing in the host's control loop: the per-frame pass over the
 * parameter rows (pointer drag, scroll-wheel nudge, clamp) and the
 * randomise-all command. Only `target` fields change; live values are
 * left to the automation pass of the audio callback.
 */
module TargetEdit {
  import opened ParamTable
  import Approach

  /**
   * Pointer and modifier state read once per frame. `wheel` is
   * `GetMouseWheelMove()`; `ctrl` and `shift` are the left Control and Shift
   * keys held down.
   */
  datatype Pointer = Pointer(x: real, y: real, leftDown: bool, wheel: real, ctrl: bool, shift: bool)

  /** Width of a parameter row, and its pitch and height on screen. */
  const RowWidth: real := 400.0
  const RowPitch: real := 20.0
  const RowHeight: real := 18.0

  /**
   * Row `i` is the rectangle `{0, 20 i, 400, 18}`; raylib's
   * `CheckCollisionPointRec` treats rectangles as half-open.
   */
  predicate Selected(i: nat, m: Pointer)
  {
    0.0 <= m.x < RowWidth && RowPitch * (i as real) <= m.y < RowPitch * (i as real) + RowHeight
  }

  /** Rows are 20 apart and 18 high, so the pointer selects at most one row. */
  lemma RowsDisjoint(i: nat, j: nat, m: Pointer)
    requires Selected(i, m) && Selected(j, m)
    ensures i == j
  {
  }

  /** The clamp at the end of a row's edit: first against `max`, then against `min`. */
  function Clamp(p: Param): (r: Param)
    ensures r.name == p.name && r.min == p.min && r.max == p.max && r.value == p.value
    ensures p.min <= p.max ==> p.min <= r.target <= p.max
    ensures p.min <= p.target <= p.max ==> r.target == p.target
  {
    var t1 := if p.target > p.max then p.max else p.target;
    var t2 := if t1 < p.min then p.min else t1;
    p.(target := t2)
  }

  /** Clamping picks the point of `[min, max]` nearest to the old target. */
  lemma ClampIsNearest(p: Param, z: real)
    requires p.min <= z <= p.max
    ensures Approach.Abs(Clamp(p).target - p.target) <= Approach.Abs(z - p.target)
  {
  }

  /** `lo + f * (hi - lo)`: the point a fraction `f` of the way from `lo` to `hi`. */
  function Lerp(lo: real, hi: real, f: real): (r: real)
    ensures 0.0 <= f <= 1.0 && lo <= hi ==> lo <= r <= hi
    ensures f == 0.0 ==> r == lo
    ensures f == 1.0 ==> r == hi
  {
    FractionOfRange(f, lo, hi);
    lo + f * (hi - lo)
  }

  lemma FractionOfRange(f: real, lo: real, hi: real)
    ensures 0.0 <= f <= 1.0 && lo <= hi ==> 0.0 <= f * (hi - lo) <= hi - lo
  {
    if 0.0 <= f <= 1.0 && lo <= hi {
      Approach.ProductSign(f, hi - lo);
      Approach.ProductSign(1.0 - f, hi - lo);
    }
  }

  /** A fraction below 1 stops short of `hi`. */
  lemma LerpBelow(lo: real, hi: real, f: real)
    ensures f < 1.0 && lo < hi ==> Lerp(lo, hi, f) < hi
  {
    if f < 1.0 && lo < hi {
      var d := hi - lo;
      Approach.FractionBelow(f, d);
      assert Lerp(lo, hi, f) == lo + f * d;
    }
  }

  /**
   * The target a drag sets: the pointer's horizontal position across the
   * row, as a fraction of the row width, placed on `[min, max]`.
   */
  function DragTarget(p: Param, m: Pointer): (r: real)
    ensures 0.0 <= m.x <= RowWidth && p.min <= p.max ==> p.min <= r <= p.max
    ensures m.x == 0.0 ==> r == p.min
    ensures m.x == RowWidth ==> r == p.max
    ensures 0.0 <= m.x < RowWidth && p.min < p.max ==> r < p.max
  {
    LerpBelow(p.min, p.max, m.x / RowWidth);
    Lerp(p.min, p.max, m.x / RowWidth)
  }

  /**
   * The drag is affine in the pointer: moving the pointer by `dx` pixels moves
   * the target by `dx / 400` of the range, wherever the pointer starts.
   */
  lemma DragIsLinear(p: Param, m1: Pointer, m2: Pointer)
    ensures DragTarget(p, m1) - DragTarget(p, m2) == ((m1.x - m2.x) / RowWidth) * (p.max - p.min)
  {
    var f1, f2, d := m1.x / RowWidth, m2.x / RowWidth, p.max - p.min;
    assert (m1.x - m2.x) / RowWidth == f1 - f2;
    assert (f1 - f2) * d == f1 * d - f2 * d;
  }

  /** The unmodified scroll step: a ten-thousandth of the range per wheel notch. */
  function WheelStep(p: Param, m: Pointer): real
  {
    m.wheel * (p.max - p.min) / 10000.0
  }

  /**
   * The scroll step of one frame: the wheel step, ten times larger with Ctrl
   * held, ten times smaller with Shift held, and unchanged with both.
   */
  function ScrollStep(p: Param, m: Pointer): (s: real)
    ensures !m.ctrl && !m.shift ==> s == WheelStep(p, m)
    ensures m.ctrl && !m.shift ==> s == 10.0 * WheelStep(p, m)
    ensures !m.ctrl && m.shift ==> 10.0 * s == WheelStep(p, m)
    ensures m.ctrl && m.shift ==> s == WheelStep(p, m)
    ensures m.wheel == 0.0 || p.min == p.max ==> s == 0.0
  {
    var base := WheelStep(p, m);
    var withCtrl := if m.ctrl then base * 10.0 else base;
    if m.shift then withCtrl / 10.0 else withCtrl
  }

  /** The edit of row `i` in one frame: drag, then scroll, then clamp. */
  function EditParam(p: Param, i: nat, m: Pointer): (r: Param)
    ensures r.name == p.name && r.min == p.min && r.max == p.max && r.value == p.value
    ensures p.min <= p.max ==> p.min <= r.target <= p.max
    ensures !Selected(i, m) ==> r == Clamp(p)
    ensures Selected(i, m) && !m.leftDown ==> r == Clamp(p.(target := p.target + ScrollStep(p, m)))
    ensures Selected(i, m) && m.leftDown ==> r == Clamp(p.(target := DragTarget(p, m) + ScrollStep(p, m)))
  {
    var sel := Selected(i, m);
    var dragged := if m.leftDown && sel then p.(target := DragTarget(p, m)) else p;
    var scrolled := if sel then dragged.(target := dragged.target + ScrollStep(p, m)) else dragged;
    Clamp(scrolled)
  }

  /** A press without scrolling on a selected row sets exactly the dragged target. */
  lemma DragWithoutScroll(p: Param, i: nat, m: Pointer)
    requires Selected(i, m) && m.leftDown && m.wheel == 0.0
    requires p.min <= p.max
    ensures EditParam(p, i, m).target == DragTarget(p, m)
  {
    assert ScrollStep(p, m) == 0.0;
  }

  /** The per-frame pass over the live rows, up to the sentinel. */
  function EditTargets(t: Table, m: Pointer): (r: Table)
    requires Terminated(t)
    ensures OnlyTargetsChanged(t, r)
    ensures Terminated(r) && NParams(r) == NParams(t)
    ensures Bounded(t) ==> TargetsInRange(r)
    ensures forall j :: 0 <= j < NParams(t) && !Selected(j, m) ==> r[j] == Clamp(t[j])
  {
    var n := NParams(t);
    var r := seq(|t|, j requires 0 <= j < |t| => if j < n then EditParam(t[j], j, m) else t[j]);
    OnlyTargetsKeepsShape(t, r);
    r
  }

  /** Every row except the selected one is only clamped, so one frame moves at most one target beyond its clamp. */
  lemma AtMostOneRowMoved(t: Table, m: Pointer, i: nat, j: nat)
    requires Terminated(t)
    requires i < NParams(t) && j < NParams(t) && i != j
    ensures EditTargets(t, m)[i] == Clamp(t[i]) || EditTargets(t, m)[j] == Clamp(t[j])
  {
    if Selected(i, m) && Selected(j, m) {
      RowsDisjoint(i, j, m);
    }
  }

  /** Largest value `GetRandomValue(0, 10000)` returns. */
  const RandomSpan: int := 10000

  /** A value of `GetRandomValue(0, 10000)`. */
  type Draw = k: int | 0 <= k <= RandomSpan

  /**
   * The randomised target `min + k * range / 10000` for a draw `k`; it is
   * the point `k / 10000` of the way across the range.
   */
  function RandomTarget(p: Param, k: int): (r: real)
    ensures r == Lerp(p.min, p.max, (k as real) / 10000.0)
    ensures 0 <= k <= RandomSpan && p.min <= p.max ==> p.min <= r <= p.max
    ensures k == 0 ==> r == p.min
    ensures k == RandomSpan ==> r == p.max
  {
    p.min + (k as real) * (p.max - p.min) / 10000.0
  }

  /** The randomise-all command: one draw per live entry, in table order. */
  function Randomise(t: Table, draws: seq<Draw>): (r: Table)
    requires Terminated(t)
    requires |draws| == NParams(t)
    ensures OnlyTargetsChanged(t, r)
    ensures Terminated(r) && NParams(r) == NParams(t)
    ensures Bounded(t) ==> TargetsInRange(r)
    ensures forall j :: 0 <= j < NParams(t) ==> r[j].target == Lerp(t[j].min, t[j].max, (draws[j] as real) / 10000.0)
  {
    var n := NParams(t);
    var r := seq(|t|, j requires 0 <= j < |t| => if j < n then t[j].(target := RandomTarget(t[j], draws[j])) else t[j]);
    OnlyTargetsKeepsShape(t, r);
    r
  }
}
