# Game of Life pixel simulator — verified model

This project models the simulation engine of `Pixel_sim.py`, a Conway's Game of
Life on a dense `height x width` grid of 0/1 cells. The grid wraps around at the
edges, so it is a torus. Four things are modelled:

- **One generation** (`update_grid`). Every cell's neighbour count is the
  convolution of the grid with the 3x3 kernel `[[1,1,1],[1,0,1],[1,1,1]]` in
  `mode='wrap'`. The B3/S23 rule is then applied to every cell at once.
- **The brush** (`handle_mouse`). While the left button is pressed it writes 1
  into a block of cells around the mouse position. Cells outside the grid are
  skipped; the brush does not wrap.
- **Clear** (`grid.fill(0)`), done in place.
- **The main loop** (`run`). In each frame the events come first (SPACE toggles
  `paused`; R randomizes; C clears; QUIT and ESC set `running` to false). Then
  the brush runs, then one generation unless paused.

Layout:

- `life.dfy`, module `Life`: the grid as a value (`seq<seq<int>>`). It holds the
  wrapped indexing, the kernel convolution `Convolve`, an independent
  eight-neighbour sum `NeighbourSum`, the rule, `Step` and the brush `Brush`.
- `controls.dfy`, module `Controls`: the event and frame state machine as pure
  functions (`OnEvent`, `OnEvents`, `Frame`, `RunFrames`) and lemmas about
  them.
- `engine.dfy`, module `Engine`: the class `GameOfLife`. Its `grid` field is an
  `array2<int>`. Its methods are proved against the functions above. The
  module also has the loop methods that compute the neighbour counts
  (`KernelSumAt`, `Neighbours`) and the rule (`RuleArray`), each into a fresh
  array.

Notes on how the code is read:

- `update_grid` builds `neighbors` from the old grid before it reassigns
  `self.grid`. So the model computes the counts into one new array and the
  rule into another. The new grid is exactly `Step` of the old one.
- Brush offsets: `-brush_size//2` is `(-3)//2 = -2`, because unary minus binds
  before Python's floor division. `brush_size//2 + 1` is 2. So both loops run
  over `range(-2, 2)`, which covers offsets -2..1: a 4x4 block that is not
  centred on the cursor. The comment on line 56 and the help text on line 106
  say "3x3", but the model follows the code (`Life.BrushBlock`).
- QUIT and ESC do not break out of the event loop. The frame still handles its
  remaining events, runs the brush and (unless paused) a generation. Only then
  does `while running` stop (`Controls.StopEndsRun`).
- Dafny's `/` is Euclidean. For the positive divisor 2 it gives the same
  result as Python's `//`, and `Life.FloorDiv` states that floor property.
  Likewise `%` with a positive modulus gives the wrap-around index that `mode='wrap'`
  uses.
- Any `nat` dimensions are accepted, including 0. Brush cells outside the grid
  are skipped, not clamped.

## Model

| member | source | states |
|---|---|---|
| `Life.Zero` | Pixel_sim.py:18 | the initial grid has `height` rows of `width` cells and every cell is 0 |
| `Life.Wrap` | Pixel_sim.py:35 | a wrapped index is in `[0, n)`; it is unchanged inside the grid and shifted by `n` one step outside it, as `mode='wrap'` reads across the edges |
| `Life.Counts` | Pixel_sim.py:35 | the count map has the grid's shape, and entry `(r, c)` is the wrapped convolution with the kernel at `(r, c)` |
| `Life.ConvolveIsNeighbourSum` | Pixel_sim.py:24-26 | convolving with the kernel (zero centre, mirrored indices, wrapped reads) equals the sum of the eight toroidal neighbours `grid[(r+dy) mod H][(c+dx) mod W]`, `(dy,dx) != (0,0)` |
| `Life.CountBounds` | Pixel_sim.py:35 | on a 0/1 grid every neighbour count is between 0 and 8, so the `uint8` counts cannot overflow |
| `Life.AllAliveCountsEight` | Pixel_sim.py:24-26 | on an all-1 grid every cell has count 8, edges and corners included |
| `Life.Rule` | Pixel_sim.py:39-40 | the vectorised rule always yields 0 or 1 |
| `Life.ApplyRule` | Pixel_sim.py:39-40 | the rule applied to a grid and a count map gives a 0/1 grid of the same shape, with the rule's value at each cell |
| `Life.Step` | Pixel_sim.py:32-40 | a generation keeps the `height x width` shape and every resulting cell is 0 or 1 |
| `Life.StepCell` | Pixel_sim.py:38-40 | a live cell is live after the step iff its eight-neighbour sum is 2 or 3; a dead cell becomes live iff the sum is exactly 3; any other value becomes 0 |
| `Life.ZeroIsFixedPoint` | Pixel_sim.py:39-40 | the all-0 grid is a fixed point of the step |
| `Life.FloorDiv` | Pixel_sim.py:58 | `a // b` for `b > 0` is the floor quotient: `b*q <= a < b*q + b` |
| `Life.BrushBlock` | Pixel_sim.py:58-59 | the brush covers exactly rows `my-2..my+1` and columns `mx-2..mx+1`, a 4x4 block |
| `Life.Brush` | Pixel_sim.py:52-62 | the brushed grid keeps the grid's shape, so no write lands outside `[0,height) x [0,width)` |
| `Life.BrushEffect` | Pixel_sim.py:54-62 | a cell the brush changes was under the brush while the button was pressed, and it now holds 1; every cell under a pressed brush holds 1; with the button up nothing changes |
| `Life.BrushIdempotent` | Pixel_sim.py:58-62 | brushing twice at the same position equals brushing once |
| `Life.BrushKeepsBinary` | Pixel_sim.py:62 | the brush keeps a 0/1 grid a 0/1 grid |
| `Controls.OnEvent` | Pixel_sim.py:73-84 | handling one event keeps the grid's shape and its 0/1 cells |
| `Controls.OnEvents` | Pixel_sim.py:73-84 | handling a frame's events in order keeps the grid's shape and its 0/1 cells |
| `Controls.Frame` | Pixel_sim.py:72-91 | a frame (events, then brush, then step unless paused) keeps the grid's shape and its 0/1 cells |
| `Controls.RunFrames` | Pixel_sim.py:72-91 | the `while running` loop over the frames keeps the grid's shape and its 0/1 cells |
| `Controls.PauseParity` | Pixel_sim.py:77-78 | after a frame's events, `paused` has flipped once per SPACE press (old value XOR odd count) |
| `Controls.RunningUnlessStopped` | Pixel_sim.py:73-84 | after the events, `running` holds iff it held before and no QUIT or ESC arrived |
| `Controls.ClearIdempotent` | Pixel_sim.py:81-82 | C sets every cell to 0, and a second C changes nothing more |
| `Controls.EventsKeepGrid` | Pixel_sim.py:79-82 | events other than R and C leave the grid unchanged |
| `Controls.PausedFrameKeepsGrid` | Pixel_sim.py:86-91 | a paused frame with no SPACE, R or C and no mouse press leaves every cell unchanged and stays paused |
| `Controls.PausedFrameOnlyBrushes` | Pixel_sim.py:86-91 | a paused frame with no SPACE, R or C still runs the brush (the mouse is handled every frame) but computes no generation: the grid becomes `Brush(grid)` and stays paused |
| `Controls.UnpausedFrameBrushesThenSteps` | Pixel_sim.py:86-91 | an unpaused frame with no SPACE, R or C yields `Step(Brush(grid))`: the brush edit comes before the generation |
| `Controls.StopEndsRun` | Pixel_sim.py:72-91 | a frame that receives QUIT or ESC still runs to its end (brush and step included), and it is the last frame |
| `Controls.PausedRunKeepsGrid` | Pixel_sim.py:72-91 | while paused and idle, any number of frames leaves the grid unchanged |
| `Engine.KernelSumAt` | Pixel_sim.py:35 | the kernel-weighted sum, computed by loops over the kernel with wrapped reads of the array, equals the convolution at that cell |
| `Engine.Neighbours` | Pixel_sim.py:35 | an array of the grid's shape whose contents are the count map `Counts` of the grid's contents |
| `Engine.RuleArray` | Pixel_sim.py:39-40 | a fresh array of the same shape holding the rule applied cell by cell to the grid and the count array |
| `Engine.GameOfLife.constructor` | Pixel_sim.py:15-18 | stores `width` and `height`; the grid is a fresh `height x width` array of zeros |
| `Engine.GameOfLife.RandomizeGrid` | Pixel_sim.py:28-30 | the grid becomes a fresh array holding the given 0/1 draw of the grid's shape |
| `Engine.GameOfLife.UpdateGrid` | Pixel_sim.py:32-40 | the grid becomes a fresh array equal to `Step` of the old contents: counts come from the old grid, and the new grid is separate |
| `Engine.GameOfLife.HandleMouse` | Pixel_sim.py:52-62 | the same array now holds `Brush` of its old contents; the grid stays 0/1 |
| `Engine.GameOfLife.Clear` | Pixel_sim.py:81-82 | the same array now holds only 0s; the result does not depend on the old contents, so clearing twice equals clearing once |
| `Engine.GameOfLife.HandleEvent` | Pixel_sim.py:73-84 | one pass of the event loop changes the grid and the flags exactly as `OnEvent` does |
| `Engine.GameOfLife.RunFrame` | Pixel_sim.py:72-91 | one pass of `while running` changes the grid and the flags exactly as `Frame` does |
| `Engine.GameOfLife.Run` | Pixel_sim.py:64-95 | after the initial random draw and the frames, the grid and the flags equal `RunFrames` from the drawn grid, `running = True` and `paused = False` |

## Left out

- Rendering (`draw`, lines 42-50), the window and caption setup, the frame clock
  (`clock.tick`) and `pygame.quit`: these are display calls with no effect on the grid.
- Event polling and mouse reads (`pygame.event.get`, `pygame.mouse.get_pressed`,
  `pygame.mouse.get_pos`). They are inputs instead: each frame is a
  `FrameInput` holding the event queue, the left-button flag and the position.
- Random draws: `np.random.choice` with the densities 0.2 (start of `run`) and
  0.3 (R key) is not modelled. Each draw is an input, any 0/1 grid of the right
  shape: the `initial` argument of `Run`, or the grid carried by an `R` event.
  The model says nothing about the probabilities.
- `scipy.ndimage.convolve` itself: only its result for this symmetric 3x3 kernel
  in `mode='wrap'` is modelled (`Convolve`, `KernelSumAt`).
- `uint8` arithmetic: cells and counts are unbounded integers. On the 0/1 grids
  that every operation keeps, counts stay between 0 and 8 (`Life.CountBounds`),
  so no wrap-around can occur.
- Engine.GameOfLife.Run: the source loops until QUIT or ESC. The model runs
  over a finite sequence of frames and stops early when `running` becomes
  false. An endless run is not modelled.
- The `__main__` block (lines 99-107) prints the controls and starts the
  game. It has no logic of its own.
