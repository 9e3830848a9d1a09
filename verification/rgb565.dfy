/**
 * The colours of the RGB565 automaton. A cell is a 16-bit word viewed as the
 * bit-field struct `{ r : 5; g : 6; b : 5 }`; the model lays the fields out
 * from the low bit up, as the usual little-endian compilers do. A screen
 * colour is raylib's `Color`, four bytes.
 */
module Rgb565 {

  /** `union color_rgb565`, seen through its bit fields. */
  datatype Cell = Cell(r: bv5, g: bv6, b: bv5)

  /** raylib's `Color`. */
  datatype Color = Color(r: bv8, g: bv8, b: bv8, a: bv8)

  /** The all-zero cell, the `.color == 0` of an empty square. */
  const Empty: Cell := Cell(0, 0, 0)

  /** The `.color` view of a cell: `r` in bits 0-4, `g` in bits 5-10, `b` in bits 11-15. */
  function Word(c: Cell): (w: bv16)
    ensures w == 0 <==> c == Empty
    ensures FromWord(w) == c
  {
    (c.r as bv16) | ((c.g as bv16) << 5) | ((c.b as bv16) << 11)
  }

  /** The bit-field view of a `.color` word. */
  function FromWord(w: bv16): (c: Cell)
  {
    Cell((w & 0x1F) as bv5, ((w >> 5) & 0x3F) as bv6, (w >> 11) as bv5)
  }

  /** Every word is the `.color` of exactly one cell: the two views of the union agree. */
  lemma WordRoundTrip(w: bv16)
    ensures Word(FromWord(w)) == w
  {
  }

  /** Two cells have the same `.color` exactly when their fields agree. */
  lemma WordInjective(c: Cell, d: Cell)
    ensures Word(c) == Word(d) <==> c == d
  {
    assert FromWord(Word(c)) == c && FromWord(Word(d)) == d;
  }

  /** `color_565rgb`: each field shifted into the top of its byte, opaque. */
  function ToColor(c: Cell): (v: Color)
    ensures v.a == 255
    ensures v.r & 0x07 == 0 && v.g & 0x03 == 0 && v.b & 0x07 == 0
  {
    Color((c.r as bv8) << 3, (c.g as bv8) << 2, (c.b as bv8) << 3, 255)
  }

  /** `color_rgb565`: the top bits of each byte; alpha is dropped. */
  function FromColor(v: Color): (c: Cell)
    ensures ToColor(c) == Color(v.r & 0xF8, v.g & 0xFC, v.b & 0xF8, 255)
  {
    Cell((v.r >> 3) as bv5, (v.g >> 2) as bv6, (v.b >> 3) as bv5)
  }

  /** Unpacking a cell to a colour and packing it again gives the cell back. */
  lemma CellRoundTrip(c: Cell)
    ensures FromColor(ToColor(c)) == c
  {
  }

  /** A channel's drift modulo its width: `to - from`, wrapped. */
  function Drift5(from: bv5, to: bv5): bv5
  {
    to - from
  }

  function Drift6(from: bv6, to: bv6): bv6
  {
    to - from
  }

  /**
   * `mutate_color`: `d` is the first `rand() & 0xFFFF`, read through the bit
   * fields and shifted so that each of its fields is in 0..3; `rolls` are
   * the three `rand() % 100` tests, each passing with a value below 20. A
   * passing channel moves by its field of `d` minus 1 (minus 2 for green),
   * wrapping within the field's width.
   */
  function Mutate(c: Cell, d: bv16, rollR: nat, rollG: nat, rollB: nat): (m: Cell)
    ensures Drift5(c.r, m.r) in {31, 0, 1, 2}
    ensures Drift6(c.g, m.g) in {62, 63, 0, 1}
    ensures Drift5(c.b, m.b) in {31, 0, 1, 2}
    ensures rollR % 100 >= 20 ==> m.r == c.r
    ensures rollG % 100 >= 20 ==> m.g == c.g
    ensures rollB % 100 >= 20 ==> m.b == c.b
  {
    var f := FromWord(d);
    var dr, dg, db := f.r >> 3, f.g >> 4, f.b >> 3;
    Cell(
      if rollR % 100 < 20 then c.r + dr - 1 else c.r,
      if rollG % 100 < 20 then c.g + dg - 2 else c.g,
      if rollB % 100 < 20 then c.b + db - 1 else c.b)
  }

  /** The random word that gives red, green and blue the shifted fields `kr`, `kg`, `kb`. */
  function DeltaWord(kr: bv5, kg: bv6, kb: bv5): (d: bv16)
    requires kr < 4 && kg < 4 && kb < 4
    ensures FromWord(d).r >> 3 == kr && FromWord(d).g >> 4 == kg && FromWord(d).b >> 3 == kb
  {
    Word(Cell(kr << 3, kg << 4, kb << 3))
  }

  /** Every drift the contract of `Mutate` allows does occur, for some random word. */
  lemma MutateReachesEveryDrift(c: Cell, kr: bv5, kg: bv6, kb: bv5)
    requires kr < 4 && kg < 4 && kb < 4
    ensures Mutate(c, DeltaWord(kr, kg, kb), 0, 0, 0) == Cell(c.r + kr - 1, c.g + kg - 2, c.b + kb - 1)
  {
  }
}
