# Game of Life background engine, modelled in Dafny

This project models the engine in `js/game-of-life.js`: a `GameOfLife`
object that sizes a grid of cells to fit a canvas, fills it at random,
and on every animation frame decides whether enough time has passed to
paint the current generation and advance to the next one under Conway's
B3/S23 rule on a torus.

The model has four modules:

- `Universe` (`grid.dfy`) is the grid and the rule, as pure functions.
  It covers the single-step coordinate wrap (`getWrappedCoordinates`),
  the toroidal cell read (`getCellState`) and the neighbour count, a left
  fold over the eight offsets (`getNumAliveNeighbours`). It also has the
  per-cell rule and the whole-grid step that the nested `map` of
  `iterateGrid` computes.
- `Layout` (`layout.dfy`) is the arithmetic of `calculateSettings` and the
  rectangles that `draw` paints, as a list of `fillRect` arguments.
- `Throttle` (`throttle.dfy`) is the update decision at the top of `tick`.
  Timestamps are whole milliseconds. JavaScript's `null` and `undefined`
  are kept apart because the code subtracts them differently: `t - null`
  is `t`, while `t - undefined` is NaN.
- `Engine` (`engine.dfy`) is the mutable object: the class `GameOfLife`
  with fields `grid`, `lastTimestamp` and `gridSettings`. Its methods
  `RandomiseGrid` (nested loops), `IterateGrid` (build the next generation,
  then swap it in) and `Tick` (one frame) change those fields.

Cells are integers, as in the source. The rule tests `cell === 1`, and
drawing tests truthiness (`cell != 0`). On the 0/1 grids the engine builds
the two tests agree.

Three behaviours of the code are easy to misread; the model follows the
code:

- A delta of exactly 0 updates, because `!0` is true (`RepeatedTimestampUpdates`).
  A timestamp of 0 updates for the same reason.
- With the initial `null` baseline, a truthy timestamp is measured from 0
  (`NullBaselineCountsFromZero`). The first frame after setup updates
  only because setup calls `tick()` with no argument. That call leaves the
  baseline `undefined`, and the next delta is NaN, which also updates. The
  constructor's contract and `ClockGatingScenario` follow this flow.
- There is no dimension error. A canvas smaller than one cell gives 0 rows
  or 0 columns. The grid is then empty or made of empty rows, and the
  generation step and the drawing handle it without reading a cell.

## Model

| member | source | states |
|---|---|---|
| `Universe.Wrap` | js/game-of-life.js:125-128 | for a last index max >= 0 every input lands in [0, max]; in-range values are kept, negatives go to max, values above max go to 0 |
| `Universe.WrapIsModuloNearRange` | js/game-of-life.js:122-128 | on [-1, max+1] the single-step wrap equals (v + n) mod n with n = max + 1 |
| `Universe.WrapIsNotModuloFarOut` | js/game-of-life.js:125-128 | two steps out the wrap is not modular: -2 on a 3-wide axis gives 2, where modular arithmetic gives 1 |
| `Universe.WrappedCoordinates` | js/game-of-life.js:122-134 | reads only the first row's length; the result is inside the grid, and in-range coordinates are unchanged |
| `Universe.CellState` | js/game-of-life.js:117-120 | inside the grid the toroidal read is the plain cell grid[y][x] |
| `Universe.CellStateAtWrappedCoordinates` | js/game-of-life.js:117-120 | the cell read is the grid entry at the wrapped coordinates |
| `Universe.CellStateIsToroidal` | js/game-of-life.js:117-128 | one step outside the grid, the read is grid[(y+R) mod R][(x+C) mod C], the cell across the torus |
| `Universe.CellStateIsBinary` | js/game-of-life.js:117-120 | on a 0/1 grid every read, at any coordinates, gives 0 or 1 |
| `Universe.NeighbourOffsetsAreTheEightNeighbours` | js/game-of-life.js:10-19 | the offset list has 8 distinct entries, exactly the cells at Chebyshev distance 1 |
| `Universe.SumCellStates` | js/game-of-life.js:112-114 | the reduce as a left fold over the offsets; it has no contract of its own: SumCellStatesBounds, SumCellStatesAllDead and SumDependsOnOffsetCells state its properties |
| `Universe.SumOfEight` | js/game-of-life.js:112-114 | the reduce over any eight offsets is the initial value plus the eight cell reads |
| `Universe.NumAliveNeighbours` | js/game-of-life.js:111-115 | the fold over the eight offsets from 0; its contract is stated by NeighbourCountIsSum (the sum of the eight neighbour reads) and NeighbourCountBounds (within [0, 8]) |
| `Universe.NeighbourCountIsSum` | js/game-of-life.js:111-115 | the neighbour count is the sum of the reads at (x±1, y±1), (x, y±1) and (x±1, y) |
| `Universe.SumCellStatesBounds` | js/game-of-life.js:112-114 | on a 0/1 grid each fold step adds 0 or 1, so the fold lies between acc and acc + number of offsets |
| `Universe.NeighbourCountBounds` | js/game-of-life.js:111-115 | on a 0/1 grid the neighbour count lies in [0, 8] |
| `Universe.SumCellStatesAllDead` | js/game-of-life.js:112-114 | on an all-zero grid the fold adds nothing |
| `Universe.CornerNeighbourCount` | js/game-of-life.js:111-128 | the count at (0,0) includes the cells (R-1, C-1), (R-1, 0) and (0, C-1), across both edges at once |
| `Universe.SumDependsOnOffsetCells` | js/game-of-life.js:112-114 | two grids that agree at the offset cells give the same fold |
| `Universe.NextCell` | js/game-of-life.js:97-104 | B3/S23: a cell holding 1 lives on iff it has 2 or 3 alive neighbours, any other cell becomes alive iff it has exactly 3; the result is 0 or 1 |
| `Universe.NextRow` | js/game-of-life.js:96-105 | the new row has the old row's length, and each entry is the rule applied to the old cell and its count in the old grid |
| `Universe.NextGeneration` | js/game-of-life.js:95-106 | the new grid has the same number of rows and the same length for every row; each cell is the rule applied to the old grid only |
| `Universe.NextCellDependsOnNeighbourhoodOnly` | js/game-of-life.js:95-108 | two grids that agree on a cell and its eight toroidal neighbours give the same next state for that cell |
| `Universe.AllDeadStaysDead` | js/game-of-life.js:95-108 | an all-zero grid stays all-zero |
| `Universe.LoneCellNeighbourCount` | js/game-of-life.js:111-119 | on the 3x3 torus with only the centre alive, the centre has 0 alive neighbours and every other cell has 1 |
| `Universe.LoneCellDies` | js/game-of-life.js:95-106 | that grid's next generation is 3x3 and all dead: the lone cell dies and nothing is born |
| `Layout.CalculateSettings` | js/game-of-life.js:46-64 | cols and rows are the floors of width and height over the cell size; each offset is half the leftover pixels, rounded down, so 2·offset + cells·size <= canvas size |
| `Layout.CenteringExample` | js/game-of-life.js:49-52 | a 105x47 canvas with 10 px cells gives 10 columns, 4 rows and offsets (2, 3) |
| `Layout.CellRect` | js/game-of-life.js:140-147 | the fillRect arguments of one cell; CellRectInCanvas states that it lies inside the canvas |
| `Layout.RowRects` | js/game-of-life.js:142-149 | the squares painted for a row are exactly those of its non-zero cells, at x = col·size + offsetX; their order is stated by RowRectsInColumnOrder |
| `Layout.RowRectsInColumnOrder` | js/game-of-life.js:142-149 | a row's squares run strictly left to right, so each non-zero cell's square appears once |
| `Layout.GridRects` | js/game-of-life.js:139-150 | the squares painted are exactly those of the non-zero cells, at (col·size + offsetX, row·size + offsetY) |
| `Layout.GridRectsInRowMajorOrder` | js/game-of-life.js:139-150 | the squares come row by row, top to bottom, and left to right within a row, as the nested forEach visits the cells |
| `Layout.Draw` | js/game-of-life.js:136-151 | all squares one frame paints; GridRects states which they are, DrawInRowMajorOrder their order and DrawInCanvas that they fit |
| `Layout.DrawInRowMajorOrder` | js/game-of-life.js:136-151 | a frame paints its squares in row-major order, and no square twice |
| `Layout.FitsOnAxis` | js/game-of-life.js:140-143 | on one axis, cell i of n cells plus a margin lies inside the canvas when the cells and both margins fit |
| `Layout.CellRectInCanvas` | js/game-of-life.js:140-143 | the square of any cell inside the computed shape lies inside the canvas |
| `Layout.DrawInCanvas` | js/game-of-life.js:139-150 | for a grid of the computed shape, every painted square lies inside the canvas |
| `Throttle.ComputeDelta` | js/game-of-life.js:155 | no delta without a truthy timestamp; NaN against an undefined baseline; otherwise the time since the baseline, with null counting as 0 |
| `Throttle.ShouldUpdate` | js/game-of-life.js:156 | a frame updates when the delta is falsy (none, NaN or 0) or at least speed; its meaning over timestamps is stated by UpdateDecision |
| `Throttle.UpdateDecision` | js/game-of-life.js:155-156 | a frame updates iff the timestamp is absent or 0, or the baseline is undefined, or the timestamp equals the baseline, or at least speed ms have passed |
| `Throttle.UpdatesAreSpacedBySpeed` | js/game-of-life.js:156 | against a recorded baseline at a different instant, a frame updates iff at least speed ms have passed |
| `Throttle.NullBaselineCountsFromZero` | js/game-of-life.js:155-156 | with a null baseline a truthy timestamp t updates iff t >= speed |
| `Throttle.RepeatedTimestampUpdates` | js/game-of-life.js:156 | a timestamp equal to the baseline always updates |
| `Engine.GameOfLife.constructor` | js/game-of-life.js:38-44 | after setup the settings come from the canvas size, the grid has their shape with 0/1 cells, and the baseline is undefined because of the first tick() |
| `Engine.GameOfLife.RandomiseGrid` | js/game-of-life.js:77-92 | the new grid has exactly rows rows of exactly cols entries, each 0 or 1 |
| `Engine.GameOfLife.IterateGrid` | js/game-of-life.js:94-109 | the grid becomes the next generation of the grid before the call |
| `Engine.GameOfLife.Tick` | js/game-of-life.js:153-164 | the frame paints iff the throttle says update; then lastTimestamp becomes the timestamp, the painted squares are the old generation's and lie in the canvas, and the grid advances one generation; otherwise grid and lastTimestamp are unchanged and nothing is painted; the object invariant is kept |
| `Engine.NextGenerationKeepsShape` | js/game-of-life.js:95-106 | a generation step keeps rows x cols and yields 0/1 cells |
| `Engine.ClockGatingScenario` | js/game-of-life.js:153-164 | with the default speed of 200 ms, frames at 0, 50, 150, 200 and 260 ms after setup update, skip, skip, update, skip |

## Left out

- Canvas and DOM work is not modelled: creating and attaching the canvas, resizing it, reading `clientWidth`/`clientHeight`, and setting `fillStyle`. The canvas size is a constructor parameter. Clearing and painting appear only as the `Frame` that `Tick` returns.
- Rescheduling through `window.requestAnimationFrame` is left out. It is an unbounded loop driven by the host, so the model has one `Tick` step, and `ClockGatingScenario` calls it a few times.
- The randomness of `Math.round(Math.random())` is left out. Each cell is an arbitrary choice of 0 or 1, and the distribution is not modelled.
- Timestamps are whole milliseconds, not floating-point numbers. JavaScript coercions beyond `null`, `undefined`, 0 and NaN are not modelled.
- Option merging and the colour options are left out. The cell size and the speed are constructor parameters. `DefaultCellSize` (10) and `DefaultSpeed` (200) are the source's defaults. The cell size must be at least 1, because a cell size of 0 divides by zero in floating point.
- The neighbour functions require at least one row and one column, because `getWrappedCoordinates` reads `grid[0]`. The generation step needs only a rectangular grid, because it reads cells only where they exist.
- Determinism of the generation step is not stated as a lemma. `NextGeneration` is a function of the old grid, so it holds by construction.
