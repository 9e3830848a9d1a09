/**
 * The RGB565 automaton's world: a 1366 x 768 grid of cells stored row by
 * row, the bounds-checked accessors `W_GET`/`W_SET`, one iteration of the
 * spreading loop of `world_update`, and the main loop's redraw of the cells
 * that changed since the last frame.
 *
 * `rand()` is a stream `rng` read from a cursor `pos`; every call of
 * `rand()` consumes one value, in program order.
 */
module World {
  import opened Rgb565
  import Modular

  const Width: nat := 1366
  const Height: nat := 768

  /** Cells in the grid, `WORLD_WIDTH * WORLD_HEIGHT`. */
  const Cells: nat := Width * Height

  /** The `curr` (or `prev`) array, row by row. */
  type Grid = seq<Cell>

  /** The stream of `rand()` results; `rand()` is never negative. */
  type Rand = nat -> nat

  predicate InGrid(x: int, y: int)
  {
    0 <= x < Width && 0 <= y < Height
  }

  /** `x + y * WORLD_WIDTH`, the array index of an in-grid cell. */
  function Index(x: int, y: int): (i: nat)
    requires InGrid(x, y)
    ensures i < Cells
  {
    assert y * Width <= (Height - 1) * Width;
    x + y * Width
  }

  /** `i % WORLD_WIDTH`, the column of array index `i`. */
  function Column(i: nat): int
  {
    i % Width
  }

  /** `i / WORLD_WIDTH`, the row of array index `i`. */
  function Row(i: nat): int
  {
    i / Width
  }

  /** Coordinates to index and back is the identity on the grid. */
  lemma CoordsOfIndex(x: int, y: int)
    requires InGrid(x, y)
    ensures Column(Index(x, y)) == x && Row(Index(x, y)) == y
  {
    Modular.DivModUnique(Index(x, y), Width, y, x);
  }

  /** Index to coordinates and back is the identity on the array. */
  lemma IndexOfCoords(i: nat)
    requires i < Cells
    ensures InGrid(Column(i), Row(i))
    ensures Index(Column(i), Row(i)) == i
  {
    var q, r := i / Width, i % Width;
    assert i == q * Width + r;
  }

  /** Distinct in-grid coordinates occupy distinct cells. */
  lemma IndexInjective(x: int, y: int, x': int, y': int)
    requires InGrid(x, y) && InGrid(x', y')
    ensures Index(x, y) == Index(x', y') <==> x == x' && y == y'
  {
    CoordsOfIndex(x, y);
    CoordsOfIndex(x', y');
  }

  /** `W_GET`: the stored cell on the grid, the empty cell off it. */
  function Get(g: Grid, x: int, y: int): (c: Cell)
    requires |g| == Cells
    ensures !InGrid(x, y) ==> c == Empty
    ensures InGrid(x, y) ==> c == g[Index(x, y)]
  {
    if x < 0 || y < 0 || x >= Width || y >= Height then Empty else g[x + y * Width]
  }

  /** `W_SET`: writes one cell on the grid and nothing off it. */
  function Set(g: Grid, x: int, y: int, v: Cell): (r: Grid)
    requires |g| == Cells
    ensures |r| == Cells
    ensures !InGrid(x, y) ==> r == g
    ensures InGrid(x, y) ==> r[Index(x, y)] == v
    ensures forall k :: 0 <= k < Cells && !(InGrid(x, y) && k == Index(x, y)) ==> r[k] == g[k]
  {
    if x >= 0 && y >= 0 && x < Width && y < Height then g[x + y * Width := v] else g
  }

  /** Reading after writing: the written cell reads back, every other position reads as before. */
  lemma GetSet(g: Grid, x: int, y: int, v: Cell, x': int, y': int)
    requires |g| == Cells
    ensures Get(Set(g, x, y, v), x', y') ==
      if InGrid(x, y) && x' == x && y' == y then v else Get(g, x', y')
  {
    if InGrid(x, y) && InGrid(x', y') {
      IndexInjective(x, y, x', y');
    }
  }

  /** The eight neighbour offsets in the order of the `ox`/`oy` loops. */
  const Offsets: seq<(int, int)> := [(-1, -1), (-1, 0), (-1, 1), (0, -1), (0, 1), (1, -1), (1, 0), (1, 1)]

  /** An offset to one of the eight neighbours. */
  predicate Unit(o: (int, int))
  {
    -1 <= o.0 <= 1 && -1 <= o.1 <= 1 && o != (0, 0)
  }

  /** Array index `k` is one of the eight neighbours of `(x, y)`. */
  predicate Near(x: int, y: int, k: nat)
  {
    k < Cells && Unit((Column(k) - x, Row(k) - y))
  }

  /** `mutate_color(&c)` with its four `rand()` calls read from `pos`. */
  function MutateAt(c: Cell, rng: Rand, pos: nat): Cell
  {
    Mutate(c, (rng(pos) % 0x1_0000) as bv16, rng(pos + 1), rng(pos + 2), rng(pos + 3))
  }

  /** Where a spread leaves the grid, the colour it carries and the `rand()` cursor. */
  datatype SpreadOut = SpreadOut(grid: Grid, cell: Cell, pos: nat)

  /**
   * The neighbour loop of `world_update` over the offsets `offs`: a
   * neighbour that reads non-empty is skipped; otherwise the colour mutates
   * and is written there. A neighbour off the grid reads empty, so the colour
   * still mutates, but the write is dropped.
   */
  function Spread(g: Grid, x: int, y: int, c: Cell, offs: seq<(int, int)>, rng: Rand, pos: nat): (r: SpreadOut)
    requires |g| == Cells
    requires forall j :: 0 <= j < |offs| ==> Unit(offs[j])
    ensures |r.grid| == Cells
    ensures r.pos >= pos
    ensures forall k :: 0 <= k < Cells && g[k] != Empty ==> r.grid[k] == g[k]
    ensures forall k :: 0 <= k < Cells && r.grid[k] != g[k] ==> Near(x, y, k)
    decreases |offs|
  {
    if |offs| == 0 then SpreadOut(g, c, pos)
    else
      var nx, ny := x + offs[0].0, y + offs[0].1;
      if Word(Get(g, nx, ny)) != 0 then Spread(g, x, y, c, offs[1..], rng, pos)
      else
        var c' := MutateAt(c, rng, pos);
        var g' := Set(g, nx, ny, c');
        SetNear(g, x, y, offs[0], c');
        var r := Spread(g', x, y, c', offs[1..], rng, pos + 4);
        r
  }

  /** Writing at an empty neighbour keeps every non-empty cell and changes only that neighbour. */
  lemma SetNear(g: Grid, x: int, y: int, o: (int, int), v: Cell)
    requires |g| == Cells && Unit(o)
    requires Get(g, x + o.0, y + o.1) == Empty
    ensures forall k :: 0 <= k < Cells && g[k] != Empty ==> Set(g, x + o.0, y + o.1, v)[k] == g[k]
    ensures forall k :: 0 <= k < Cells && Set(g, x + o.0, y + o.1, v)[k] != g[k] ==> Near(x, y, k)
  {
    if InGrid(x + o.0, y + o.1) {
      CoordsOfIndex(x + o.0, y + o.1);
    }
  }

  /** Where one iteration leaves the grid and the `rand()` cursor. */
  datatype StepOut = StepOut(grid: Grid, pos: nat)

  /** The cell one iteration picks: `rand() % (WORLD_WIDTH * WORLD_HEIGHT)`. */
  function Pick(rng: Rand, pos: nat): (i: nat)
    ensures i < Cells
  {
    rng(pos) % Cells
  }

  /**
   * One iteration of the `j` loop of `world_update`: pick a cell; if it is
   * non-empty, spread its colour to the empty neighbours, then mutate the
   * carried colour once more (the result is not stored, but the four
   * `rand()` calls are consumed).
   */
  function WorldStep(g: Grid, rng: Rand, pos: nat): (r: StepOut)
    requires |g| == Cells
    ensures |r.grid| == Cells
    ensures r.pos > pos
    ensures g[Pick(rng, pos)] == Empty ==> r.grid == g
    ensures forall k :: 0 <= k < Cells && g[k] != Empty ==> r.grid[k] == g[k]
    ensures forall k :: 0 <= k < Cells && r.grid[k] != g[k] ==>
      g[k] == Empty && Near(Column(Pick(rng, pos)), Row(Pick(rng, pos)), k)
  {
    var i := Pick(rng, pos);
    var x, y := Column(i), Row(i);
    var c := g[i];
    if Word(c) == 0 then StepOut(g, pos + 1)
    else
      var s := Spread(g, x, y, c, Offsets, rng, pos + 1);
      StepOut(s.grid, s.pos + 4)
  }

  /** The cell the iteration picked is never changed by it: it is not its own neighbour. */
  lemma PickedCellKept(g: Grid, rng: Rand, pos: nat)
    requires |g| == Cells
    ensures WorldStep(g, rng, pos).grid[Pick(rng, pos)] == g[Pick(rng, pos)]
  {
    var i := Pick(rng, pos);
    assert !Unit((Column(i) - Column(i), Row(i) - Row(i)));
  }

  /** Iterations of `world_update` between two unlocks of the world. */
  const Batch: nat := 1000

  /**
   * One locked pass of `world_update`: a thousand iterations. A cell that
   * is non-empty at the start keeps its colour throughout, and the cursor
   * ends where the iterations, run one after another, leave it.
   */
  method WorldUpdate(g: Grid, rng: Rand, pos: nat) returns (g': Grid, pos': nat)
    requires |g| == Cells
    ensures |g'| == Cells
    ensures pos' >= pos + Batch
    ensures forall k :: 0 <= k < Cells && g[k] != Empty ==> g'[k] == g[k]
    ensures StepOut(g', pos') == Steps(g, rng, pos, Batch)
  {
    g', pos' := g, pos;
    var j := 0;
    while j < Batch
      invariant 0 <= j <= Batch
      invariant |g'| == Cells
      invariant StepOut(g', pos') == Steps(g, rng, pos, j)
    {
      var s := WorldStep(g', rng, pos');
      assert s == Steps(g, rng, pos, j + 1);
      g', pos' := s.grid, s.pos;
      j := j + 1;
    }
  }

  /** `n` iterations run one after another, the reference for `WorldUpdate`. */
  function Steps(g: Grid, rng: Rand, pos: nat, n: nat): (r: StepOut)
    requires |g| == Cells
    ensures |r.grid| == Cells
    ensures r.pos >= pos + n
    ensures forall k :: 0 <= k < Cells && g[k] != Empty ==> r.grid[k] == g[k]
  {
    if n == 0 then StepOut(g, pos)
    else
      var prev := Steps(g, rng, pos, n - 1);
      WorldStep(prev.grid, rng, prev.pos)
  }

  /** A redraw: `DrawPixel(x, y, color)`. */
  datatype Pixel = Pixel(x: int, y: int, color: Color)

  /**
   * The pixels drawn so far are exactly the changed cells with index below
   * `k`, each once, in increasing index order, in the cell's screen colour.
   */
  predicate DrawnBefore(prev: Grid, curr: Grid, drawn: seq<Pixel>, k: nat)
    requires |prev| == Cells && |curr| == Cells
  {
    && k <= Cells
    && (forall n :: 0 <= n < |drawn| ==>
         && InGrid(drawn[n].x, drawn[n].y)
         && Index(drawn[n].x, drawn[n].y) < k
         && curr[Index(drawn[n].x, drawn[n].y)] != prev[Index(drawn[n].x, drawn[n].y)]
         && drawn[n].color == ToColor(curr[Index(drawn[n].x, drawn[n].y)]))
    && (forall i :: 0 <= i < k && curr[i] != prev[i] ==> Pixel(Column(i), Row(i), ToColor(curr[i])) in drawn)
    && (forall n, m :: 0 <= n < m < |drawn| ==> Index(drawn[n].x, drawn[n].y) < Index(drawn[m].x, drawn[m].y))
  }

  /** The redraw of one cell: draw it when its colour word changed. */
  method RedrawCell(prev: Grid, curr: Grid, drawn: seq<Pixel>, x: int, y: int) returns (drawn': seq<Pixel>)
    requires |prev| == Cells && |curr| == Cells && InGrid(x, y)
    requires DrawnBefore(prev, curr, drawn, Index(x, y))
    ensures DrawnBefore(prev, curr, drawn', Index(x, y) + 1)
  {
    var i := x + y * Width;
    assert i == Index(x, y);
    if Word(curr[i]) != Word(prev[i]) {
      CoordsOfIndex(x, y);
      drawn' := drawn + [Pixel(x, y, ToColor(curr[i]))];
    } else {
      WordInjective(curr[i], prev[i]);
      drawn' := drawn;
    }
  }

  /**
   * The redraw of the main loop: walk the grid row by row, draw every cell
   * whose `.color` differs from the last frame's, then copy `curr` over
   * `prev`. The pixels drawn are exactly the changed cells, each once, in
   * row-major order, in the cell's screen colour.
   */
  method Redraw(prev: Grid, curr: Grid) returns (drawn: seq<Pixel>, prev': Grid)
    requires |prev| == Cells && |curr| == Cells
    ensures prev' == curr
    ensures forall n :: 0 <= n < |drawn| ==>
      && InGrid(drawn[n].x, drawn[n].y)
      && curr[Index(drawn[n].x, drawn[n].y)] != prev[Index(drawn[n].x, drawn[n].y)]
      && drawn[n].color == ToColor(curr[Index(drawn[n].x, drawn[n].y)])
    ensures forall i :: 0 <= i < Cells && curr[i] != prev[i] ==> Pixel(Column(i), Row(i), ToColor(curr[i])) in drawn
    ensures forall n, m :: 0 <= n < m < |drawn| ==> Index(drawn[n].x, drawn[n].y) < Index(drawn[m].x, drawn[m].y)
  {
    drawn := [];
    var y := 0;
    while y < Height
      invariant 0 <= y <= Height
      invariant DrawnBefore(prev, curr, drawn, y * Width)
    {
      var x := 0;
      while x < Width
        invariant 0 <= x <= Width
        invariant DrawnBefore(prev, curr, drawn, y * Width + x)
      {
        drawn := RedrawCell(prev, curr, drawn, x, y);
        x := x + 1;
      }
      y := y + 1;
    }
    prev' := curr;
  }
}
