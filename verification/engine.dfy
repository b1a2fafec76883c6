/**
 * The simulator object: a `height` x `width` array of 0/1 cells that the
 * generation step replaces, that the brush and the clear command edit in place,
 * and the main loop that drives them frame by frame.
 */
module Engine {
  import opened Life
  import opened Controls

  /** The contents of a two-dimensional array as a grid value. */
  ghost function Cells(a: array2<int>): (g: Grid)
    reads a
    ensures IsGrid(g, a.Length0, a.Length1)
    ensures forall r, c :: 0 <= r < a.Length0 && 0 <= c < a.Length1 ==> g[r][c] == a[r, c]
  {
    seq(a.Length0, r requires 0 <= r < a.Length0 reads a =>
      seq(a.Length1, c requires 0 <= c < a.Length1 reads a => a[r, c]))
  }

  /**
   * The convolution of `g` with the kernel at cell `(r, c)`, summed kernel row by
   * kernel row with wrapped reads of `g`.
   */
  method KernelSumAt(g: array2<int>, r: int, c: int) returns (s: int)
    requires 0 <= r < g.Length0 && 0 <= c < g.Length1
    ensures s == Convolve(Cells(g), g.Length0, g.Length1, r, c)
  {
    var h, w := g.Length0, g.Length1;
    ghost var G := Cells(g);
    s := 0;
    for i := 0 to 3
      invariant s == Taps(G, h, w, r, c, i)
    {
      for j := 0 to 3
        invariant s == Taps(G, h, w, r, c, i) + RowTaps(G, h, w, r, c, i, j)
      {
        s := s + Kernel[i][j] * g[Wrap(r + 1 - i, h), Wrap(c + 1 - j, w)];
      }
    }
  }

  /** `convolve(grid, kernel, mode='wrap')`: the neighbour count of every cell, in a new array. */
  method Neighbours(g: array2<int>) returns (n: array2<int>)
    ensures n.Length0 == g.Length0 && n.Length1 == g.Length1
    ensures Cells(n) == Counts(Cells(g), g.Length0, g.Length1)
  {
    var h, w := g.Length0, g.Length1;
    ghost var N := Counts(Cells(g), h, w);
    n := new int[h, w];
    for r := 0 to h
      invariant forall i, j :: 0 <= i < r && 0 <= j < w ==> n[i, j] == N[i][j]
    {
      for c := 0 to w
        invariant forall i, j :: 0 <= i < r && 0 <= j < w ==> n[i, j] == N[i][j]
        invariant forall j :: 0 <= j < c ==> n[r, j] == N[r][j]
      {
        n[r, c] := KernelSumAt(g, r, c);
      }
    }
    SameCells(Cells(n), N, h, w);
  }

  /**
   * The vectorised rule `(g == 1) & ((n == 2) | (n == 3)) | (g == 0) & (n == 3)`:
   * a new array holding the rule's value for every cell of `g` and its count in `n`.
   */
  method RuleArray(g: array2<int>, n: array2<int>) returns (next: array2<int>)
    requires n.Length0 == g.Length0 && n.Length1 == g.Length1
    ensures fresh(next) && next.Length0 == g.Length0 && next.Length1 == g.Length1
    ensures Cells(next) == ApplyRule(Cells(g), Cells(n), g.Length0, g.Length1)
  {
    var h, w := g.Length0, g.Length1;
    ghost var A := ApplyRule(Cells(g), Cells(n), h, w);
    next := new int[h, w];
    for r := 0 to h
      invariant forall i, j :: 0 <= i < r && 0 <= j < w ==> next[i, j] == A[i][j]
    {
      for c := 0 to w
        invariant forall i, j :: 0 <= i < r && 0 <= j < w ==> next[i, j] == A[i][j]
        invariant forall j :: 0 <= j < c ==> next[r, j] == A[r][j]
      {
        next[r, c] := Rule(g[r, c], n[r, c]);
      }
    }
    SameCells(Cells(next), A, h, w);
  }

  class GameOfLife {
    const width: nat
    const height: nat
    var grid: array2<int>

    /** The grid has the object's shape and holds only dead (0) and live (1) cells. */
    ghost predicate Valid()
      reads this, grid
    {
      grid.Length0 == height && grid.Length1 == width && Binary(Cells(grid))
    }

    /** A `height` x `width` grid of dead cells. */
    constructor (width: nat, height: nat)
      ensures Valid() && this.width == width && this.height == height
      ensures fresh(grid) && Cells(grid) == Zero(height, width)
    {
      this.width := width;
      this.height := height;
      grid := new int[height, width]((_, _) => 0);
      new;
      SameCells(Cells(grid), Zero(height, width), height, width);
    }

    /** `randomize_grid`: the grid becomes a new array holding the random draw `draw`. */
    method RandomizeGrid(draw: Grid)
      requires IsGrid(draw, height, width) && Binary(draw)
      modifies this
      ensures Valid() && fresh(grid) && Cells(grid) == draw
    {
      var next := new int[height, width];
      forall r, c | 0 <= r < height && 0 <= c < width {
        next[r, c] := draw[r][c];
      }
      grid := next;
      SameCells(Cells(grid), draw, height, width);
    }

    /**
     * `update_grid`: every count is taken from the current grid into a separate
     * array, and the rule writes a further new array that replaces the grid.
     */
    method UpdateGrid()
      requires Valid()
      modifies this
      ensures Valid() && fresh(grid)
      ensures Cells(grid) == Step(old(Cells(grid)), height, width)
    {
      var neighbors := Neighbours(grid);
      grid := RuleArray(grid, neighbors);
    }

    /**
     * `handle_mouse`: with the left button pressed, every in-bounds cell at
     * offsets `range(-3//2, 3//2 + 1)` from the mouse position becomes alive.
     */
    method HandleMouse(pressed: bool, mouseX: int, mouseY: int)
      requires Valid()
      modifies grid
      ensures Valid()
      ensures Cells(grid) == Brush(old(Cells(grid)), height, width, pressed, mouseX, mouseY)
    {
      ghost var g := Cells(grid);
      if pressed {
        for dx := BrushLo to BrushHi
          invariant forall r, c :: 0 <= r < height && 0 <= c < width ==>
            grid[r, c] == if BrushLo <= c - mouseX < dx && BrushLo <= r - mouseY < BrushHi then 1 else g[r][c]
        {
          for dy := BrushLo to BrushHi
            invariant forall r, c :: 0 <= r < height && 0 <= c < width ==>
              grid[r, c] == if (BrushLo <= c - mouseX < dx && BrushLo <= r - mouseY < BrushHi)
                               || (c - mouseX == dx && BrushLo <= r - mouseY < dy) then 1 else g[r][c]
          {
            var nx, ny := mouseX + dx, mouseY + dy;
            if 0 <= nx < width && 0 <= ny < height {
              grid[ny, nx] := 1;
            }
          }
        }
      }
      SameCells(Cells(grid), Brush(g, height, width, pressed, mouseX, mouseY), height, width);
      BrushKeepsBinary(g, height, width, pressed, mouseX, mouseY);
    }

    /** `grid.fill(0)`: every cell of the same array becomes dead. */
    method Clear()
      requires Valid()
      modifies grid
      ensures Valid() && Cells(grid) == Zero(height, width)
    {
      forall r, c | 0 <= r < height && 0 <= c < width {
        grid[r, c] := 0;
      }
      SameCells(Cells(grid), Zero(height, width), height, width);
    }

    /** The body of the event loop in `run`: one event against the loop's flags. */
    method HandleEvent(e: Event, running: bool, paused: bool) returns (running': bool, paused': bool)
      requires Valid() && EventFits(e, height, width)
      modifies this, grid
      ensures Valid() && (grid == old(grid) || fresh(grid))
      ensures World(Cells(grid), running', paused')
        == OnEvent(World(old(Cells(grid)), running, paused), e, height, width)
    {
      running', paused' := running, paused;
      match e {
        case Quit =>
          running' := false;
        case KeyDown(key) =>
          match key {
            case Space => paused' := !paused;
            case R(draw) => RandomizeGrid(draw);
            case C => Clear();
            case Escape => running' := false;
            case OtherKey =>
          }
        case OtherEvent =>
      }
    }

    /** One pass of the `while running` loop: the events, then the brush, then a generation unless paused. */
    method RunFrame(f: FrameInput, running: bool, paused: bool) returns (running': bool, paused': bool)
      requires Valid() && EventsFit(f.events, height, width)
      modifies this, grid
      ensures Valid() && (grid == old(grid) || fresh(grid))
      ensures World(Cells(grid), running', paused')
        == Frame(World(old(Cells(grid)), running, paused), f, height, width)
    {
      ghost var start := World(Cells(grid), running, paused);
      running', paused' := running, paused;
      for i := 0 to |f.events|
        invariant Valid() && (grid == old(grid) || fresh(grid))
        invariant World(Cells(grid), running', paused') == OnEvents(start, f.events[..i], height, width)
      {
        assert f.events[..i + 1][..i] == f.events[..i];
        running', paused' := HandleEvent(f.events[i], running', paused');
      }
      assert f.events[..|f.events|] == f.events;
      HandleMouse(f.pressed, f.mouseX, f.mouseY);
      if !paused' {
        UpdateGrid();
      }
    }

    /**
     * `run`: draws the starting grid, then repeats frames while `running`.
     * The frames given bound the loop; the source loops until QUIT or ESC.
     */
    method Run(initial: Grid, frames: seq<FrameInput>) returns (running: bool, paused: bool)
      requires IsGrid(initial, height, width) && Binary(initial)
      requires FramesFit(frames, height, width)
      modifies this
      ensures Valid()
      ensures World(Cells(grid), running, paused)
        == RunFrames(World(initial, true, false), frames, height, width)
    {
      running, paused := true, false;
      RandomizeGrid(initial);
      var k := 0;
      while running && k < |frames|
        invariant 0 <= k <= |frames|
        invariant Valid() && fresh(grid)
        invariant FramesFit(frames[k..], height, width)
        invariant RunFrames(World(Cells(grid), running, paused), frames[k..], height, width)
          == RunFrames(World(initial, true, false), frames, height, width)
      {
        RunFramesFrom(World(Cells(grid), running, paused), frames, k, height, width);
        running, paused := RunFrame(frames[k], running, paused);
        k := k + 1;
      }
    }
  }
}
