/**
 * The grid of the Game of Life as a value: a dense height x width matrix of
 * integer cells indexed [row][column], the toroidal neighbour count obtained by
 * convolving the grid with a 3x3 kernel whose centre is zero, the B3/S23 rule,
 * one synchronous generation, and the square brush edit.
 */
module Life {

  type Grid = seq<seq<int>>

  /** `g` has `h` rows of `w` cells each. */
  predicate IsGrid(g: Grid, h: nat, w: nat)
  {
    |g| == h && forall i :: 0 <= i < h ==> |g[i]| == w
  }

  /** `(r, c)` names a cell of the `h` x `w` grid `g`. */
  predicate InGrid(g: Grid, h: nat, w: nat, r: int, c: int)
  {
    IsGrid(g, h, w) && 0 <= r < h && 0 <= c < w
  }

  /** Every cell is dead (0) or alive (1). */
  predicate Binary(g: Grid)
  {
    forall i, j :: 0 <= i < |g| && 0 <= j < |g[i]| ==> g[i][j] == 0 || g[i][j] == 1
  }

  /** Every cell holds `v`. */
  predicate Uniform(g: Grid, v: int)
  {
    forall i, j :: 0 <= i < |g| && 0 <= j < |g[i]| ==> g[i][j] == v
  }

  /** The grid of zeros, as `np.zeros` and `fill(0)` leave it. */
  function Zero(h: nat, w: nat): (z: Grid)
    ensures IsGrid(z, h, w) && Uniform(z, 0) && Binary(z)
  {
    seq(h, _ => seq(w, _ => 0))
  }

  /** Two grids of the same shape that agree on every cell are equal. */
  lemma SameCells(a: Grid, b: Grid, h: nat, w: nat)
    requires IsGrid(a, h, w) && IsGrid(b, h, w)
    requires forall r, c :: 0 <= r < h && 0 <= c < w ==> a[r][c] == b[r][c]
    ensures a == b
  {
    forall r | 0 <= r < h
      ensures a[r] == b[r]
    {
      assert forall c :: 0 <= c < w ==> a[r][c] == b[r][c];
    }
  }

  // ---------------------------------------------------------------------------
  // Toroidal indexing

  /** Reduces an index that may lie one step outside the grid onto the torus. */
  function Wrap(i: int, n: nat): (k: int)
    requires n > 0
    ensures 0 <= k < n
    ensures 0 <= i < n ==> k == i
    ensures i < 0 && 0 <= i + n ==> k == i + n
    ensures n <= i < 2 * n ==> k == i - n
  {
    i % n
  }

  /** The cell `r` rows down and `c` columns right, both taken modulo the grid's size. */
  function At(g: Grid, h: nat, w: nat, r: int, c: int): int
    requires IsGrid(g, h, w) && h > 0 && w > 0
  {
    g[Wrap(r, h)][Wrap(c, w)]
  }

  // ---------------------------------------------------------------------------
  // Neighbour count as the convolution of the grid with the kernel

  /** The neighbour-counting kernel: 1 on the eight neighbours, 0 at the centre. */
  const Kernel: seq<seq<int>> := [[1, 1, 1],
                                  [1, 0, 1],
                                  [1, 1, 1]]

  /**
   * One term of the convolution at `(r, c)`: kernel entry `(i, j)` weighs the
   * input cell at offset `(1 - i, 1 - j)` (a convolution mirrors the kernel),
   * with out-of-range indices wrapping around.
   */
  function Tap(g: Grid, h: nat, w: nat, r: int, c: int, i: nat, j: nat): int
    requires InGrid(g, h, w, r, c) && i < 3 && j < 3
  {
    Kernel[i][j] * At(g, h, w, r + 1 - i, c + 1 - j)
  }

  /** The first `n` terms of kernel row `i`. */
  function RowTaps(g: Grid, h: nat, w: nat, r: int, c: int, i: nat, n: nat): int
    requires InGrid(g, h, w, r, c) && i < 3 && n <= 3
  {
    if n == 0 then 0 else RowTaps(g, h, w, r, c, i, n - 1) + Tap(g, h, w, r, c, i, n - 1)
  }

  /** The terms of the first `m` kernel rows. */
  function Taps(g: Grid, h: nat, w: nat, r: int, c: int, m: nat): int
    requires InGrid(g, h, w, r, c) && m <= 3
  {
    if m == 0 then 0 else Taps(g, h, w, r, c, m - 1) + RowTaps(g, h, w, r, c, m - 1, 3)
  }

  /** `convolve(grid, kernel, mode='wrap')` at cell `(r, c)`. */
  function Convolve(g: Grid, h: nat, w: nat, r: int, c: int): int
    requires InGrid(g, h, w, r, c)
  {
    Taps(g, h, w, r, c, 3)
  }

  /** The whole map of neighbour counts. */
  function Counts(g: Grid, h: nat, w: nat): (n: Grid)
    requires IsGrid(g, h, w)
    ensures IsGrid(n, h, w)
    ensures forall r, c :: 0 <= r < h && 0 <= c < w ==> n[r][c] == Convolve(g, h, w, r, c)
  {
    seq(h, r requires 0 <= r < h => seq(w, c requires 0 <= c < w => Convolve(g, h, w, r, c)))
  }

  // ---------------------------------------------------------------------------
  // The eight-neighbour sum, an independent reference for the convolution

  /** The eight `(row, column)` offsets of the Moore neighbourhood. */
  const Neighbourhood: seq<(int, int)> :=
    [(-1, -1), (-1, 0), (-1, 1), (0, -1), (0, 1), (1, -1), (1, 0), (1, 1)]

  /** Sum of the wrapped cells at the offsets `offsets[k..]` from `(r, c)`. */
  function SumFrom(g: Grid, h: nat, w: nat, r: int, c: int, offsets: seq<(int, int)>, k: nat): int
    requires InGrid(g, h, w, r, c)
    decreases |offsets| - k
  {
    if k >= |offsets| then 0
    else At(g, h, w, r + offsets[k].0, c + offsets[k].1) + SumFrom(g, h, w, r, c, offsets, k + 1)
  }

  /** Number of live neighbours of `(r, c)` on the torus. */
  function NeighbourSum(g: Grid, h: nat, w: nat, r: int, c: int): int
    requires InGrid(g, h, w, r, c)
  {
    SumFrom(g, h, w, r, c, Neighbourhood, 0)
  }

  /** The convolution with the kernel is exactly the toroidal eight-neighbour sum. */
  lemma ConvolveIsNeighbourSum(g: Grid, h: nat, w: nat, r: int, c: int)
    requires InGrid(g, h, w, r, c)
    ensures Convolve(g, h, w, r, c) == NeighbourSum(g, h, w, r, c)
  {
    assert Kernel[0] == [1, 1, 1] && Kernel[1] == [1, 0, 1] && Kernel[2] == [1, 1, 1];
    KernelRow(g, h, w, r, c, 0);
    KernelRow(g, h, w, r, c, 1);
    KernelRow(g, h, w, r, c, 2);
    NeighbourSumUnrolled(g, h, w, r, c);
    assert Taps(g, h, w, r, c, 1) == RowTaps(g, h, w, r, c, 0, 3);
    assert Taps(g, h, w, r, c, 2) == RowTaps(g, h, w, r, c, 0, 3) + RowTaps(g, h, w, r, c, 1, 3);
  }

  /** Kernel row `i` weighs the three cells of grid row `r + 1 - i`, columns mirrored. */
  lemma KernelRow(g: Grid, h: nat, w: nat, r: int, c: int, i: nat)
    requires InGrid(g, h, w, r, c) && i < 3
    ensures RowTaps(g, h, w, r, c, i, 3)
      == Kernel[i][0] * At(g, h, w, r + 1 - i, c + 1)
       + Kernel[i][1] * At(g, h, w, r + 1 - i, c)
       + Kernel[i][2] * At(g, h, w, r + 1 - i, c - 1)
  {
    assert RowTaps(g, h, w, r, c, i, 1) == Tap(g, h, w, r, c, i, 0);
    assert RowTaps(g, h, w, r, c, i, 2) == Tap(g, h, w, r, c, i, 0) + Tap(g, h, w, r, c, i, 1);
  }

  /** The eight-neighbour sum written out term by term. */
  lemma NeighbourSumUnrolled(g: Grid, h: nat, w: nat, r: int, c: int)
    requires InGrid(g, h, w, r, c)
    ensures NeighbourSum(g, h, w, r, c)
      == At(g, h, w, r - 1, c - 1) + At(g, h, w, r - 1, c) + At(g, h, w, r - 1, c + 1)
       + At(g, h, w, r, c - 1) + At(g, h, w, r, c + 1)
       + At(g, h, w, r + 1, c - 1) + At(g, h, w, r + 1, c) + At(g, h, w, r + 1, c + 1)
  {
    var N := Neighbourhood;
    assert SumFrom(g, h, w, r, c, N, 8) == 0;
    assert SumFrom(g, h, w, r, c, N, 6) == At(g, h, w, r + 1, c) + At(g, h, w, r + 1, c + 1);
    assert SumFrom(g, h, w, r, c, N, 4) == At(g, h, w, r, c + 1) + At(g, h, w, r + 1, c - 1)
      + SumFrom(g, h, w, r, c, N, 6);
    assert SumFrom(g, h, w, r, c, N, 2) == At(g, h, w, r - 1, c + 1) + At(g, h, w, r, c - 1)
      + SumFrom(g, h, w, r, c, N, 4);
  }

  /** On a 0/1 grid a sum over `offsets[k..]` lies between 0 and the number of those offsets. */
  lemma {:induction false} SumFromBounds(g: Grid, h: nat, w: nat, r: int, c: int, offsets: seq<(int, int)>, k: nat)
    requires InGrid(g, h, w, r, c) && Binary(g) && k <= |offsets|
    ensures 0 <= SumFrom(g, h, w, r, c, offsets, k) <= |offsets| - k
    decreases |offsets| - k
  {
    if k < |offsets| {
      SumFromBounds(g, h, w, r, c, offsets, k + 1);
    }
  }

  /** On a grid whose cells all hold `v`, a sum over `offsets[k..]` is `v` per offset. */
  lemma {:induction false} SumFromUniform(g: Grid, h: nat, w: nat, r: int, c: int, offsets: seq<(int, int)>, k: nat, v: int)
    requires InGrid(g, h, w, r, c) && Uniform(g, v) && k <= |offsets|
    ensures SumFrom(g, h, w, r, c, offsets, k) == v * (|offsets| - k)
    decreases |offsets| - k
  {
    if k < |offsets| {
      SumFromUniform(g, h, w, r, c, offsets, k + 1, v);
    }
  }

  /** Every neighbour count of a 0/1 grid is between 0 and 8. */
  lemma CountBounds(g: Grid, h: nat, w: nat, r: int, c: int)
    requires InGrid(g, h, w, r, c) && Binary(g)
    ensures 0 <= Convolve(g, h, w, r, c) <= 8
  {
    ConvolveIsNeighbourSum(g, h, w, r, c);
    SumFromBounds(g, h, w, r, c, Neighbourhood, 0);
  }

  /** On an all-alive grid every cell, edges and corners included, has 8 live neighbours. */
  lemma AllAliveCountsEight(g: Grid, h: nat, w: nat, r: int, c: int)
    requires InGrid(g, h, w, r, c) && Uniform(g, 1)
    ensures Convolve(g, h, w, r, c) == 8
  {
    ConvolveIsNeighbourSum(g, h, w, r, c);
    SumFromUniform(g, h, w, r, c, Neighbourhood, 0, 1);
  }

  // ---------------------------------------------------------------------------
  // The B3/S23 rule and one generation

  /** `(cell == 1) & ((n == 2) | (n == 3)) | (cell == 0) & (n == 3)`, cast to 0/1. */
  function Rule(cell: int, n: int): (v: int)
    ensures v == 0 || v == 1
  {
    if (cell == 1 && (n == 2 || n == 3)) || (cell == 0 && n == 3) then 1 else 0
  }

  /** The rule applied cell by cell to a grid and a count map of the same shape. */
  function ApplyRule(g: Grid, n: Grid, h: nat, w: nat): (next: Grid)
    requires IsGrid(g, h, w) && IsGrid(n, h, w)
    ensures IsGrid(next, h, w) && Binary(next)
    ensures forall r, c :: 0 <= r < h && 0 <= c < w ==> next[r][c] == Rule(g[r][c], n[r][c])
  {
    seq(h, r requires 0 <= r < h => seq(w, c requires 0 <= c < w => Rule(g[r][c], n[r][c])))
  }

  /**
   * One generation: the counts are all taken from the old grid before the rule
   * produces the new one, so every cell changes at once.
   */
  function Step(g: Grid, h: nat, w: nat): (next: Grid)
    requires IsGrid(g, h, w)
    ensures IsGrid(next, h, w) && Binary(next)
  {
    ApplyRule(g, Counts(g, h, w), h, w)
  }

  /** Survival, birth and death of one cell, stated with the eight-neighbour sum. */
  lemma StepCell(g: Grid, h: nat, w: nat, r: int, c: int)
    requires InGrid(g, h, w, r, c)
    ensures g[r][c] == 1 ==>
      (Step(g, h, w)[r][c] == 1 <==> NeighbourSum(g, h, w, r, c) == 2 || NeighbourSum(g, h, w, r, c) == 3)
    ensures g[r][c] == 0 ==>
      (Step(g, h, w)[r][c] == 1 <==> NeighbourSum(g, h, w, r, c) == 3)
    ensures g[r][c] != 0 && g[r][c] != 1 ==> Step(g, h, w)[r][c] == 0
  {
    ConvolveIsNeighbourSum(g, h, w, r, c);
  }

  /** The empty grid stays empty. */
  lemma ZeroIsFixedPoint(h: nat, w: nat)
    ensures Step(Zero(h, w), h, w) == Zero(h, w)
  {
    var z := Zero(h, w);
    forall r | 0 <= r < h
      ensures Step(z, h, w)[r] == z[r]
    {
      forall c | 0 <= c < w
        ensures Step(z, h, w)[r][c] == 0
      {
        ConvolveIsNeighbourSum(z, h, w, r, c);
        SumFromUniform(z, h, w, r, c, Neighbourhood, 0, 0);
      }
    }
  }

  // ---------------------------------------------------------------------------
  // The brush

  /** Python's `a // b` for a positive divisor. */
  function FloorDiv(a: int, b: int): (q: int)
    requires b > 0
    ensures b * q <= a < b * q + b
  {
    a / b
  }

  const BrushSize: int := 3
  /** `-brush_size//2`: the minus binds first, so this is `(-3) // 2`. */
  const BrushLo: int := FloorDiv(-BrushSize, 2)
  /** `brush_size//2 + 1`, the exclusive end of `range`. */
  const BrushHi: int := FloorDiv(BrushSize, 2) + 1

  /** Cell `(r, c)` lies under the brush centred at screen position `(mx, my)`. */
  predicate UnderBrush(mx: int, my: int, r: int, c: int)
  {
    BrushLo <= c - mx < BrushHi && BrushLo <= r - my < BrushHi
  }

  /** The brush covers offsets -2..1 on each axis: a 4 x 4 block. */
  lemma BrushBlock(mx: int, my: int, r: int, c: int)
    ensures UnderBrush(mx, my, r, c) <==> my - 2 <= r <= my + 1 && mx - 2 <= c <= mx + 1
  {
  }

  /** The grid after the brush: 1 on the in-bounds cells under the brush when pressed. */
  function Brush(g: Grid, h: nat, w: nat, pressed: bool, mx: int, my: int): (b: Grid)
    requires IsGrid(g, h, w)
    ensures IsGrid(b, h, w)
  {
    if !pressed then g
    else
      seq(h, r requires 0 <= r < h =>
        seq(w, c requires 0 <= c < w => if UnderBrush(mx, my, r, c) then 1 else g[r][c]))
  }

  /**
   * The brush writes only 1s, only under the brush, and only when pressed;
   * every other cell keeps its value.
   */
  lemma BrushEffect(g: Grid, h: nat, w: nat, pressed: bool, mx: int, my: int, r: int, c: int)
    requires InGrid(g, h, w, r, c)
    ensures Brush(g, h, w, pressed, mx, my)[r][c] != g[r][c] ==>
      pressed && UnderBrush(mx, my, r, c) && Brush(g, h, w, pressed, mx, my)[r][c] == 1
    ensures pressed && UnderBrush(mx, my, r, c) ==> Brush(g, h, w, pressed, mx, my)[r][c] == 1
  {
  }

  /** Painting twice at the same position is painting once. */
  lemma BrushIdempotent(g: Grid, h: nat, w: nat, pressed: bool, mx: int, my: int)
    requires IsGrid(g, h, w)
    ensures Brush(Brush(g, h, w, pressed, mx, my), h, w, pressed, mx, my) == Brush(g, h, w, pressed, mx, my)
  {
    var once := Brush(g, h, w, pressed, mx, my);
    var twice := Brush(once, h, w, pressed, mx, my);
    forall r | 0 <= r < h
      ensures twice[r] == once[r]
    {
    }
  }

  /** The brush keeps a 0/1 grid a 0/1 grid. */
  lemma BrushKeepsBinary(g: Grid, h: nat, w: nat, pressed: bool, mx: int, my: int)
    requires IsGrid(g, h, w)
    ensures Binary(g) ==> Binary(Brush(g, h, w, pressed, mx, my))
  {
  }
}
