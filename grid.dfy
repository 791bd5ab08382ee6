// The toroidal grid of the Game of Life engine and its transition rule
// (the pure part of the GameOfLife class in js/game-of-life.js).
//
// A grid is a sequence of rows, each a sequence of cell values indexed
// [row][col]; the source stores the numbers 0 (dead) and 1 (alive).
// Coordinates follow the source: x is the column, y is the row.

module Universe {

  type Grid = seq<seq<int>>

  /** Every row has as many entries as the first one. */
  ghost predicate Rectangular(g: Grid) {
    forall y :: 0 <= y < |g| ==> |g[y]| == |g[0]|
  }

  /** `rows` rows of exactly `cols` entries each. */
  ghost predicate Shaped(g: Grid, rows: nat, cols: nat) {
    |g| == rows && forall y :: 0 <= y < |g| ==> |g[y]| == cols
  }

  /** A grid the neighbour functions accept: rectangular, at least one row and one column. */
  ghost predicate NonEmptyGrid(g: Grid) {
    Rectangular(g) && |g| >= 1 && |g[0]| >= 1
  }

  /** Every cell is 0 or 1. */
  ghost predicate Binary(g: Grid) {
    forall y, x :: 0 <= y < |g| && 0 <= x < |g[y]| ==> g[y][x] == 0 || g[y][x] == 1
  }

  /** Every cell is 0. */
  ghost predicate AllDead(g: Grid) {
    forall y, x :: 0 <= y < |g| && 0 <= x < |g[y]| ==> g[y][x] == 0
  }

  /**
   * Single-step wrap of one coordinate onto [0, max]: a negative value
   * becomes max, a value above max becomes 0, anything else is kept.
   */
  function Wrap(v: int, max: int): (r: int)
    ensures max >= 0 ==> 0 <= r <= max
    ensures 0 <= v <= max ==> r == v
    ensures max >= 0 && v < 0 ==> r == max
    ensures 0 <= max < v ==> r == 0
  {
    var v1 := if v < 0 then max else v;
    if v1 > max then 0 else v1
  }

  datatype Point = Point(x: int, y: int)

  /** Both coordinates wrapped around the grid's last column and last row. */
  function WrappedCoordinates(g: Grid, x: int, y: int): (p: Point)
    requires |g| >= 1
    ensures |g[0]| >= 1 ==> 0 <= p.x < |g[0]|
    ensures 0 <= p.y < |g|
    ensures 0 <= x < |g[0]| ==> p.x == x
    ensures 0 <= y < |g| ==> p.y == y
  {
    var maxX := |g[0]| - 1;
    var maxY := |g| - 1;
    Point(Wrap(x, maxX), Wrap(y, maxY))
  }

  /**
   * The cell at the wrapped coordinates. The two Wrap calls of
   * WrappedCoordinates are inlined here rather than called, which keeps the
   * proofs about the neighbour count cheap; CellStateAtWrappedCoordinates
   * shows the two agree.
   */
  function CellState(g: Grid, x: int, y: int): (c: int)
    requires NonEmptyGrid(g)
    ensures 0 <= y < |g| && 0 <= x < |g[0]| ==> c == g[y][x]
  {
    g[Wrap(y, |g| - 1)][Wrap(x, |g[0]| - 1)]
  }

  datatype Offset = Offset(dx: int, dy: int)

  /** The eight neighbour offsets, in the order the source lists them. */
  const NeighbourOffsets: seq<Offset> := [
    Offset(-1, -1), Offset(0, -1), Offset(1, -1),
    Offset(-1, 0), Offset(1, 0),
    Offset(-1, 1), Offset(0, 1), Offset(1, 1)
  ]

  /**
   * Left fold over `offsets`, adding the state of each offset cell to the
   * running total, as the source's reduce does.
   */
  function SumCellStates(g: Grid, x: int, y: int, offsets: seq<Offset>, acc: int): (n: int)
    requires NonEmptyGrid(g)
    decreases |offsets|
  {
    if offsets == [] then acc
    else SumCellStates(g, x, y, offsets[1..], acc + CellState(g, x + offsets[0].dx, y + offsets[0].dy))
  }

  /** Number of alive cells around (x, y) on the torus. */
  function NumAliveNeighbours(g: Grid, x: int, y: int): int
    requires NonEmptyGrid(g)
  {
    SumCellStates(g, x, y, NeighbourOffsets, 0)
  }

  /**
   * The B3/S23 rule for one cell: a cell holding 1 survives with 2 or 3
   * alive neighbours, any other cell is born with exactly 3; the result is
   * always 0 or 1.
   */
  function NextCell(cell: int, n: int): (r: int)
    ensures r == 0 || r == 1
    ensures cell == 1 ==> (r == 1 <==> n == 2 || n == 3)
    ensures cell != 1 ==> (r == 1 <==> n == 3)
  {
    if cell == 1 then (if n == 2 || n == 3 then 1 else 0)
    else (if n == 3 then 1 else 0)
  }

  /**
   * One generation: a fresh grid of the same shape whose every cell is the
   * rule applied to the cell and its neighbour count in `g`.
   */
  function NextGeneration(g: Grid): (ng: Grid)
    requires Rectangular(g)
    ensures |ng| == |g|
    ensures forall y :: 0 <= y < |g| ==> |ng[y]| == |g[y]|
    ensures forall y, x :: 0 <= y < |g| && 0 <= x < |g[y]| ==>
      ng[y][x] == NextCell(g[y][x], NumAliveNeighbours(g, x, y))
  {
    seq(|g|, y requires 0 <= y < |g| => NextRow(g, y))
  }

  /** Row `y` of the next generation (the inner map of the source). */
  function NextRow(g: Grid, y: int): (row: seq<int>)
    requires Rectangular(g) && 0 <= y < |g|
    ensures |row| == |g[y]|
    ensures forall x :: 0 <= x < |g[y]| ==> row[x] == NextCell(g[y][x], NumAliveNeighbours(g, x, y))
  {
    seq(|g[y]|, x requires 0 <= x < |g[y]| => NextCell(g[y][x], NumAliveNeighbours(g, x, y)))
  }

  // ---------------------------------------------------------------------
  // Properties of the toroidal wrap

  /** CellState reads the grid where WrappedCoordinates points. */
  lemma CellStateAtWrappedCoordinates(g: Grid, x: int, y: int)
    requires NonEmptyGrid(g)
    ensures var p := WrappedCoordinates(g, x, y); CellState(g, x, y) == g[p.y][p.x]
  {
  }

  /** On [-1, max+1] the single-step wrap agrees with modular arithmetic. */
  lemma WrapIsModuloNearRange(v: int, max: int)
    requires max >= 0 && -1 <= v <= max + 1
    ensures Wrap(v, max) == (v + max + 1) % (max + 1)
  {
  }

  /** Further away the wrap is not modular: -2 lands on the last index, not the one before it. */
  lemma WrapIsNotModuloFarOut()
    ensures Wrap(-2, 2) == 2 && (-2 + 3) % 3 == 1
  {
  }

  /** The cell read at a coordinate pair one step outside the grid is the cell across the torus. */
  lemma CellStateIsToroidal(g: Grid, x: int, y: int)
    requires NonEmptyGrid(g)
    requires -1 <= x <= |g[0]| && -1 <= y <= |g|
    ensures CellState(g, x, y) == g[(y + |g|) % |g|][(x + |g[0]|) % |g[0]|]
  {
    WrapIsModuloNearRange(x, |g[0]| - 1);
    WrapIsModuloNearRange(y, |g| - 1);
  }

  // ---------------------------------------------------------------------
  // Properties of the neighbour count

  /** The offsets are exactly the eight cells at Chebyshev distance 1, each listed once. */
  lemma NeighbourOffsetsAreTheEightNeighbours()
    ensures |NeighbourOffsets| == 8
    ensures forall i, j :: 0 <= i < j < 8 ==> NeighbourOffsets[i] != NeighbourOffsets[j]
    ensures forall o: Offset :: o in NeighbourOffsets <==>
      (-1 <= o.dx <= 1 && -1 <= o.dy <= 1 && !(o.dx == 0 && o.dy == 0))
  {
  }

  /** A cell read through the wrap is one of the grid's cells, so it is 0 or 1 on a 0/1 grid. */
  lemma CellStateIsBinary(g: Grid, x: int, y: int)
    requires NonEmptyGrid(g) && Binary(g)
    ensures CellState(g, x, y) == 0 || CellState(g, x, y) == 1
  {
    var p := WrappedCoordinates(g, x, y);
    assert p.x < |g[p.y]|;
  }

  /** Each step of the fold adds 0 or 1 on a 0/1 grid. */
  lemma {:induction false} SumCellStatesBounds(g: Grid, x: int, y: int, offsets: seq<Offset>, acc: int)
    requires NonEmptyGrid(g) && Binary(g)
    ensures acc <= SumCellStates(g, x, y, offsets, acc) <= acc + |offsets|
    decreases |offsets|
  {
    if offsets != [] {
      CellStateIsBinary(g, x + offsets[0].dx, y + offsets[0].dy);
      SumCellStatesBounds(g, x, y, offsets[1..], acc + CellState(g, x + offsets[0].dx, y + offsets[0].dy));
    }
  }

  /** On a 0/1 grid the neighbour count lies in [0, 8]. */
  lemma NeighbourCountBounds(g: Grid, x: int, y: int)
    requires NonEmptyGrid(g) && Binary(g)
    ensures 0 <= NumAliveNeighbours(g, x, y) <= 8
  {
    SumCellStatesBounds(g, x, y, NeighbourOffsets, 0);
  }

  /** On an all-dead grid the fold adds nothing. */
  lemma {:induction false} SumCellStatesAllDead(g: Grid, x: int, y: int, offsets: seq<Offset>, acc: int)
    requires NonEmptyGrid(g) && AllDead(g)
    ensures SumCellStates(g, x, y, offsets, acc) == acc
    decreases |offsets|
  {
    if offsets != [] {
      var p := WrappedCoordinates(g, x + offsets[0].dx, y + offsets[0].dy);
      assert p.x < |g[p.y]|;
      SumCellStatesAllDead(g, x, y, offsets[1..], acc + CellState(g, x + offsets[0].dx, y + offsets[0].dy));
    }
  }

  /** Unrolling the fold over any eight offsets. */
  lemma SumOfEight(g: Grid, x: int, y: int, o: seq<Offset>, acc: int)
    requires NonEmptyGrid(g) && |o| == 8
    ensures SumCellStates(g, x, y, o, acc) == acc +
      CellState(g, x + o[0].dx, y + o[0].dy) + CellState(g, x + o[1].dx, y + o[1].dy) +
      CellState(g, x + o[2].dx, y + o[2].dy) + CellState(g, x + o[3].dx, y + o[3].dy) +
      CellState(g, x + o[4].dx, y + o[4].dy) + CellState(g, x + o[5].dx, y + o[5].dy) +
      CellState(g, x + o[6].dx, y + o[6].dy) + CellState(g, x + o[7].dx, y + o[7].dy)
  {
    var a0 := acc + CellState(g, x + o[0].dx, y + o[0].dy);
    var a1 := a0 + CellState(g, x + o[1].dx, y + o[1].dy);
    var a2 := a1 + CellState(g, x + o[2].dx, y + o[2].dy);
    var a3 := a2 + CellState(g, x + o[3].dx, y + o[3].dy);
    var a4 := a3 + CellState(g, x + o[4].dx, y + o[4].dy);
    var a5 := a4 + CellState(g, x + o[5].dx, y + o[5].dy);
    var a6 := a5 + CellState(g, x + o[6].dx, y + o[6].dy);
    var a7 := a6 + CellState(g, x + o[7].dx, y + o[7].dy);
    SumStep(g, x, y, o, acc);
    SumStep(g, x, y, o[1..], a0);
    SumStep(g, x, y, o[2..], a1);
    SumStep(g, x, y, o[3..], a2);
    SumStep(g, x, y, o[4..], a3);
    SumStep(g, x, y, o[5..], a4);
    SumStep(g, x, y, o[6..], a5);
    SumStep(g, x, y, o[7..], a6);
    assert o[8..] == [];
  }

  /** One step of the fold: the head offset is added and the rest folded. */
  lemma SumStep(g: Grid, x: int, y: int, offsets: seq<Offset>, acc: int)
    requires NonEmptyGrid(g) && offsets != []
    ensures SumCellStates(g, x, y, offsets, acc) ==
      SumCellStates(g, x, y, offsets[1..], acc + CellState(g, x + offsets[0].dx, y + offsets[0].dy))
  {
  }

  /** The fold is the plain sum of the eight cells around (x, y). */
  lemma NeighbourCountIsSum(g: Grid, x: int, y: int)
    requires NonEmptyGrid(g)
    ensures NumAliveNeighbours(g, x, y) ==
      CellState(g, x - 1, y - 1) + CellState(g, x, y - 1) + CellState(g, x + 1, y - 1) +
      CellState(g, x - 1, y) + CellState(g, x + 1, y) +
      CellState(g, x - 1, y + 1) + CellState(g, x, y + 1) + CellState(g, x + 1, y + 1)
  {
    var o := NeighbourOffsets;
    assert CellState(g, x + o[0].dx, y + o[0].dy) == CellState(g, x - 1, y - 1) by { assert o[0] == Offset(-1, -1); }
    assert CellState(g, x + o[1].dx, y + o[1].dy) == CellState(g, x, y - 1) by { assert o[1] == Offset(0, -1); }
    assert CellState(g, x + o[2].dx, y + o[2].dy) == CellState(g, x + 1, y - 1) by { assert o[2] == Offset(1, -1); }
    assert CellState(g, x + o[3].dx, y + o[3].dy) == CellState(g, x - 1, y) by { assert o[3] == Offset(-1, 0); }
    assert CellState(g, x + o[4].dx, y + o[4].dy) == CellState(g, x + 1, y) by { assert o[4] == Offset(1, 0); }
    assert CellState(g, x + o[5].dx, y + o[5].dy) == CellState(g, x - 1, y + 1) by { assert o[5] == Offset(-1, 1); }
    assert CellState(g, x + o[6].dx, y + o[6].dy) == CellState(g, x, y + 1) by { assert o[6] == Offset(0, 1); }
    assert CellState(g, x + o[7].dx, y + o[7].dy) == CellState(g, x + 1, y + 1) by { assert o[7] == Offset(1, 1); }
    SumOfEight(g, x, y, o, 0);
  }

  /**
   * The count at the corner (0, 0) reaches across both edges: it includes
   * (rows-1, cols-1), (rows-1, 0) and (0, cols-1).
   */
  lemma CornerNeighbourCount(g: Grid)
    requires NonEmptyGrid(g)
    ensures var r, c := |g| - 1, |g[0]| - 1;
      var y1, x1 := (if r >= 1 then 1 else 0), (if c >= 1 then 1 else 0);
      NumAliveNeighbours(g, 0, 0) ==
        g[r][c] + g[r][0] + g[r][x1] +
        g[0][c] + g[0][x1] +
        g[y1][c] + g[y1][0] + g[y1][x1]
  {
    NeighbourCountIsSum(g, 0, 0);
  }

  /** The count depends on the eight offset cells only. */
  lemma {:induction false} SumDependsOnOffsetCells(g1: Grid, g2: Grid, x: int, y: int, offsets: seq<Offset>, acc: int)
    requires NonEmptyGrid(g1) && NonEmptyGrid(g2)
    requires forall o :: o in offsets ==> CellState(g1, x + o.dx, y + o.dy) == CellState(g2, x + o.dx, y + o.dy)
    ensures SumCellStates(g1, x, y, offsets, acc) == SumCellStates(g2, x, y, offsets, acc)
    decreases |offsets|
  {
    if offsets != [] {
      assert offsets[0] in offsets;
      var acc' := acc + CellState(g1, x + offsets[0].dx, y + offsets[0].dy);
      forall o | o in offsets[1..]
        ensures CellState(g1, x + o.dx, y + o.dy) == CellState(g2, x + o.dx, y + o.dy)
      {
        assert o in offsets;
      }
      SumDependsOnOffsetCells(g1, g2, x, y, offsets[1..], acc');
    }
  }

  // ---------------------------------------------------------------------
  // Properties of one generation

  /**
   * Locality: a cell's next state is decided by the cell and its eight
   * toroidal neighbours in the current generation, and by nothing else.
   */
  lemma NextCellDependsOnNeighbourhoodOnly(g1: Grid, g2: Grid, x: int, y: int)
    requires NonEmptyGrid(g1) && NonEmptyGrid(g2)
    requires 0 <= y < |g1| && 0 <= y < |g2| && 0 <= x < |g1[0]| && 0 <= x < |g2[0]|
    requires g1[y][x] == g2[y][x]
    requires forall o :: o in NeighbourOffsets ==> CellState(g1, x + o.dx, y + o.dy) == CellState(g2, x + o.dx, y + o.dy)
    ensures NextGeneration(g1)[y][x] == NextGeneration(g2)[y][x]
  {
    SumDependsOnOffsetCells(g1, g2, x, y, NeighbourOffsets, 0);
    assert x < |g1[y]| && x < |g2[y]|;
  }

  /** An empty universe stays empty. */
  lemma AllDeadStaysDead(g: Grid)
    requires Rectangular(g) && AllDead(g)
    ensures AllDead(NextGeneration(g))
  {
    var ng := NextGeneration(g);
    forall y, x | 0 <= y < |ng| && 0 <= x < |ng[y]| ensures ng[y][x] == 0 {
      assert x < |g[y]|;
      SumCellStatesAllDead(g, x, y, NeighbourOffsets, 0);
    }
  }

  /** The 3x3 universe with only its centre alive. */
  const LoneCell: Grid := [[0, 0, 0], [0, 1, 0], [0, 0, 0]]

  /** On the 3x3 torus every other cell is a neighbour of the centre, and the centre has none alive. */
  lemma LoneCellNeighbourCount(x: int, y: int)
    requires 0 <= x < 3 && 0 <= y < 3
    ensures NumAliveNeighbours(LoneCell, x, y) == if x == 1 && y == 1 then 0 else 1
  {
    var c0 := CellState(LoneCell, x - 1, y - 1);
    var c1 := CellState(LoneCell, x, y - 1);
    var c2 := CellState(LoneCell, x + 1, y - 1);
    var c3 := CellState(LoneCell, x - 1, y);
    var c4 := CellState(LoneCell, x + 1, y);
    var c5 := CellState(LoneCell, x - 1, y + 1);
    var c6 := CellState(LoneCell, x, y + 1);
    var c7 := CellState(LoneCell, x + 1, y + 1);
    assert NumAliveNeighbours(LoneCell, x, y) == c0 + c1 + c2 + c3 + c4 + c5 + c6 + c7 by {
      NeighbourCountIsSum(LoneCell, x, y);
    }
    assert c0 == if x - 1 == 1 && y - 1 == 1 then 1 else 0 by { LoneCellState(x - 1, y - 1); }
    assert c1 == if x == 1 && y - 1 == 1 then 1 else 0 by { LoneCellState(x, y - 1); }
    assert c2 == if x + 1 == 1 && y - 1 == 1 then 1 else 0 by { LoneCellState(x + 1, y - 1); }
    assert c3 == if x - 1 == 1 && y == 1 then 1 else 0 by { LoneCellState(x - 1, y); }
    assert c4 == if x + 1 == 1 && y == 1 then 1 else 0 by { LoneCellState(x + 1, y); }
    assert c5 == if x - 1 == 1 && y + 1 == 1 then 1 else 0 by { LoneCellState(x - 1, y + 1); }
    assert c6 == if x == 1 && y + 1 == 1 then 1 else 0 by { LoneCellState(x, y + 1); }
    assert c7 == if x + 1 == 1 && y + 1 == 1 then 1 else 0 by { LoneCellState(x + 1, y + 1); }
  }

  /** Reading LoneCell one step around the grid finds the centre at (1, 1) only. */
  lemma LoneCellState(x: int, y: int)
    requires -1 <= x <= 3 && -1 <= y <= 3
    ensures CellState(LoneCell, x, y) == if x == 1 && y == 1 then 1 else 0
  {
    var wx, wy := Wrap(x, 2), Wrap(y, 2);
    assert wx == 1 <==> x == 1;
    assert wy == 1 <==> y == 1;
    assert LoneCell[wy][wx] == if wx == 1 && wy == 1 then 1 else 0;
  }

  /** A lone alive cell dies and nothing is born. */
  lemma LoneCellDies()
    ensures Shaped(NextGeneration(LoneCell), 3, 3) && AllDead(NextGeneration(LoneCell))
  {
    assert Rectangular(LoneCell);
    var ng := NextGeneration(LoneCell);
    forall y, x | 0 <= y < |ng| && 0 <= x < |ng[y]| ensures ng[y][x] == 0 {
      LoneCellNeighbourCount(x, y);
    }
  }
}
