// The GameOfLife object of js/game-of-life.js without its canvas: the
// mutable grid, the timestamp of the last update, and the frame step that
// ties the throttle, the drawing and the generation step together.

module Engine {
  import opened Universe
  import opened Layout
  import opened Throttle

  /** The option defaults of the source. */
  const DefaultCellSize: nat := 10
  const DefaultSpeed: int := 200

  /** What one frame does to the canvas: nothing, or clear it and paint these squares. */
  datatype Frame = Skipped | Painted(alive: seq<Rect>)

  class GameOfLife {
    const width: nat
    const height: nat
    const cellSize: nat
    const speed: int
    var gridSettings: GridSettings
    var grid: Grid
    var lastTimestamp: Stamp

    /** The settings come from the canvas size and the grid has their shape, with 0/1 cells. */
    ghost predicate Valid()
      reads this
    {
      && cellSize >= 1
      && gridSettings == CalculateSettings(width, height, cellSize)
      && Shaped(grid, gridSettings.rows, gridSettings.cols)
      && Binary(grid)
    }

    /**
     * Sets up the universe for a canvas of the given size: settings, a
     * random grid, and the first frame, which is always an update.
     */
    constructor (width: nat, height: nat, cellSize: nat, speed: int)
      requires cellSize >= 1
      ensures Valid()
      ensures this.width == width && this.height == height
      ensures this.cellSize == cellSize && this.speed == speed
      ensures lastTimestamp == Undefined
    {
      this.width := width;
      this.height := height;
      this.cellSize := cellSize;
      this.speed := speed;
      gridSettings := CalculateSettings(width, height, cellSize);
      grid := [];
      lastTimestamp := Null;
      new;
      RandomiseGrid();
      var first := Tick(Undefined);
    }

    /**
     * A fresh grid of `rows` rows of `cols` cells, each 0 or 1; once the
     * settings are those of the canvas this establishes the object invariant.
     */
    method RandomiseGrid()
      modifies this`grid
      ensures Shaped(grid, gridSettings.rows, gridSettings.cols)
      ensures Binary(grid)
      ensures cellSize >= 1 && gridSettings == CalculateSettings(width, height, cellSize) ==> Valid()
    {
      var newGrid: Grid := [];
      for row := 0 to gridSettings.rows
        invariant Shaped(newGrid, row, gridSettings.cols)
        invariant Binary(newGrid)
      {
        var rowCells: seq<int> := [];
        for col := 0 to gridSettings.cols
          invariant |rowCells| == col
          invariant forall x :: 0 <= x < col ==> rowCells[x] == 0 || rowCells[x] == 1
        {
          var cell :| cell == 0 || cell == 1;
          rowCells := rowCells + [cell];
        }
        newGrid := newGrid + [rowCells];
      }
      grid := newGrid;
    }

    /** Replaces the grid by its next generation, computed from the old grid only; the invariant is kept. */
    method IterateGrid()
      requires Rectangular(grid)
      modifies this`grid
      ensures grid == NextGeneration(old(grid))
      ensures old(Valid()) ==> Valid()
    {
      if Valid() {
        NextGenerationKeepsShape(grid, gridSettings.rows, gridSettings.cols);
      }
      var newGrid := NextGeneration(grid);
      grid := newGrid;
    }

    /**
     * One animation frame at `timestamp`. On an update it records the
     * timestamp, clears the canvas, paints the current generation and then
     * advances the grid by one generation; otherwise it changes nothing and
     * paints nothing.
     */
    method Tick(timestamp: Stamp) returns (frame: Frame)
      requires Valid()
      modifies this`grid, this`lastTimestamp
      ensures Valid()
      ensures frame.Painted? <==> ShouldUpdate(ComputeDelta(timestamp, old(lastTimestamp)), speed)
      ensures frame.Painted? ==>
        && lastTimestamp == timestamp
        && frame.alive == Draw(old(grid), gridSettings, cellSize)
        && grid == NextGeneration(old(grid))
      ensures frame.Skipped? ==> lastTimestamp == old(lastTimestamp) && grid == old(grid)
      ensures frame.Painted? ==> forall r :: r in frame.alive ==> InCanvas(r, width, height)
    {
      var delta := ComputeDelta(timestamp, lastTimestamp);
      var shouldUpdate := ShouldUpdate(delta, speed);
      if shouldUpdate {
        lastTimestamp := timestamp;
        DrawInCanvas(grid, width, height, cellSize);
        frame := Painted(Draw(grid, gridSettings, cellSize));
        ShapedIsRectangular(grid, gridSettings.rows, gridSettings.cols);
        IterateGrid();
      } else {
        frame := Skipped;
      }
    }
  }

  lemma ShapedIsRectangular(g: Grid, rows: nat, cols: nat)
    requires Shaped(g, rows, cols)
    ensures Rectangular(g)
  {
  }

  /** A generation step keeps the number of rows and the length of every row, and yields 0/1 cells. */
  lemma NextGenerationKeepsShape(g: Grid, rows: nat, cols: nat)
    requires Shaped(g, rows, cols)
    ensures Rectangular(g)
    ensures Shaped(NextGeneration(g), rows, cols)
    ensures Binary(NextGeneration(g))
  {
    var ng := NextGeneration(g);
    forall y, x | 0 <= y < |ng| && 0 <= x < |ng[y]| ensures ng[y][x] == 0 || ng[y][x] == 1 {
      assert x < |g[y]|;
    }
  }

  /**
   * The timing example: with the default speed of 200 ms, frames at 0, 50,
   * 150, 200 and 260 ms after setup update, skip, skip, update, skip.
   */
  method ClockGatingScenario(width: nat, height: nat) returns (updates: seq<bool>)
    ensures updates == [true, false, false, true, false]
  {
    var life := new GameOfLife(width, height, DefaultCellSize, DefaultSpeed);
    var f0 := life.Tick(At(0));
    var f1 := life.Tick(At(50));
    var f2 := life.Tick(At(150));
    var f3 := life.Tick(At(200));
    var f4 := life.Tick(At(260));
    updates := [f0.Painted?, f1.Painted?, f2.Painted?, f3.Painted?, f4.Painted?];
  }
}
