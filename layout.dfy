// Layout arithmetic of the Game of Life engine: how many cells fit in the
// canvas, how the grid is centred, and where each alive cell is painted
// (calculateSettings and the coordinates of draw in js/game-of-life.js).

module Layout {
  import opened Universe

  /** The grid settings the engine derives from the canvas size. */
  datatype GridSettings = GridSettings(cols: nat, rows: nat, offsetX: nat, offsetY: nat)

  /** A filled rectangle: top-left corner, width and height, in pixels. */
  datatype Rect = Rect(x: int, y: int, w: int, h: int)

  /**
   * As many whole cells as fit on each axis, and the leftover pixels split
   * into two margins, the left (top) one rounded down.
   */
  function CalculateSettings(width: nat, height: nat, cellSize: nat): (s: GridSettings)
    requires cellSize >= 1
    ensures s.cols * cellSize <= width < (s.cols + 1) * cellSize
    ensures s.rows * cellSize <= height < (s.rows + 1) * cellSize
    ensures 2 * s.offsetX <= width - s.cols * cellSize <= 2 * s.offsetX + 1
    ensures 2 * s.offsetY <= height - s.rows * cellSize <= 2 * s.offsetY + 1
  {
    var cols := width / cellSize;
    var rows := height / cellSize;
    GridSettings(cols, rows, (width - cols * cellSize) / 2, (height - rows * cellSize) / 2)
  }

  /** The square painted for the cell in column `col` of row `row`. */
  function CellRect(col: int, row: int, s: GridSettings, cellSize: nat): Rect {
    Rect(col * cellSize + s.offsetX, row * cellSize + s.offsetY, cellSize, cellSize)
  }

  /** The squares painted for the first `n` cells of one row: one per non-zero cell. */
  function RowRects(cells: seq<int>, row: int, s: GridSettings, cellSize: nat, n: nat): (rs: seq<Rect>)
    requires n <= |cells|
    ensures forall r :: r in rs ==> exists c :: 0 <= c < n && cells[c] != 0 && r == CellRect(c, row, s, cellSize)
    ensures forall c {:trigger CellRect(c, row, s, cellSize) in rs} ::
      0 <= c < n && cells[c] != 0 ==> CellRect(c, row, s, cellSize) in rs
    decreases n
  {
    if n == 0 then []
    else
      RowRects(cells, row, s, cellSize, n - 1) +
      (if cells[n - 1] != 0 then [CellRect(n - 1, row, s, cellSize)] else [])
  }

  /** The squares painted for the first `m` rows. */
  function GridRects(g: Grid, s: GridSettings, cellSize: nat, m: nat): (rs: seq<Rect>)
    requires m <= |g|
    ensures forall r :: r in rs ==>
      exists y, c :: 0 <= y < m && 0 <= c < |g[y]| && g[y][c] != 0 && r == CellRect(c, y, s, cellSize)
    ensures forall y, c {:trigger CellRect(c, y, s, cellSize) in rs} ::
      0 <= y < m && 0 <= c < |g[y]| && g[y][c] != 0 ==> CellRect(c, y, s, cellSize) in rs
    decreases m
  {
    if m == 0 then []
    else GridRects(g, s, cellSize, m - 1) + RowRects(g[m - 1], m - 1, s, cellSize, |g[m - 1]|)
  }

  /** Everything one frame paints in the alive colour, row by row. */
  function Draw(g: Grid, s: GridSettings, cellSize: nat): seq<Rect> {
    GridRects(g, s, cellSize, |g|)
  }

  /** The squares run strictly left to right. */
  ghost predicate LeftToRight(rs: seq<Rect>) {
    forall i, j :: 0 <= i < j < |rs| ==> rs[i].x < rs[j].x
  }

  /** The squares run row by row, top to bottom, and left to right within a row. */
  ghost predicate RowMajor(rs: seq<Rect>) {
    forall i, j :: 0 <= i < j < |rs| ==> rs[i].y < rs[j].y || (rs[i].y == rs[j].y && rs[i].x < rs[j].x)
  }

  /** Multiplying by a positive cell size keeps a strict order. */
  lemma ScaleIsStrict(a: int, b: int, cs: nat)
    requires a < b && cs >= 1
    ensures a * cs < b * cs
  {
    assert b * cs - a * cs == (b - a) * cs;
  }

  /** Every square of the first `n` cells of a row lies left of column `n`, on the row's line. */
  lemma RowRectsLeftOf(cells: seq<int>, row: int, s: GridSettings, cellSize: nat, n: nat, r: Rect)
    requires n <= |cells| && cellSize >= 1
    requires r in RowRects(cells, row, s, cellSize, n)
    ensures r.x < n * cellSize + s.offsetX
    ensures r.y == row * cellSize + s.offsetY
  {
    var c :| 0 <= c < n && cells[c] != 0 && r == CellRect(c, row, s, cellSize);
    ScaleIsStrict(c, n, cellSize);
  }

  /** Every square of the first `m` rows lies above row `m`. */
  lemma GridRectsAbove(g: Grid, s: GridSettings, cellSize: nat, m: nat, r: Rect)
    requires m <= |g| && cellSize >= 1
    requires r in GridRects(g, s, cellSize, m)
    ensures r.y < m * cellSize + s.offsetY
  {
    var y, c :| 0 <= y < m && 0 <= c < |g[y]| && g[y][c] != 0 && r == CellRect(c, y, s, cellSize);
    ScaleIsStrict(y, m, cellSize);
  }

  /** All squares of the first `m` rows lie above row `m`. */
  lemma GridRectsAllAbove(g: Grid, s: GridSettings, cellSize: nat, m: nat)
    requires m <= |g| && cellSize >= 1
    ensures forall k :: 0 <= k < |GridRects(g, s, cellSize, m)| ==>
      GridRects(g, s, cellSize, m)[k].y < m * cellSize + s.offsetY
  {
    var p := GridRects(g, s, cellSize, m);
    forall k | 0 <= k < |p| ensures p[k].y < m * cellSize + s.offsetY {
      GridRectsAbove(g, s, cellSize, m, p[k]);
    }
  }

  /** All squares of one row lie on that row's line. */
  lemma RowRectsOnLine(cells: seq<int>, row: int, s: GridSettings, cellSize: nat, n: nat)
    requires n <= |cells| && cellSize >= 1
    ensures forall k :: 0 <= k < |RowRects(cells, row, s, cellSize, n)| ==>
      RowRects(cells, row, s, cellSize, n)[k].y == row * cellSize + s.offsetY
  {
    var q := RowRects(cells, row, s, cellSize, n);
    forall k | 0 <= k < |q| ensures q[k].y == row * cellSize + s.offsetY {
      RowRectsLeftOf(cells, row, s, cellSize, n, q[k]);
    }
  }

  /** Appending squares that all lie right of `bound` to squares left of it keeps the order. */
  lemma AppendLeftToRight(p: seq<Rect>, q: seq<Rect>, bound: int)
    requires LeftToRight(p) && LeftToRight(q)
    requires forall k :: 0 <= k < |p| ==> p[k].x < bound
    requires forall k :: 0 <= k < |q| ==> bound <= q[k].x
    ensures LeftToRight(p + q)
  {
  }

  /** Appending one left-to-right row at line `bound` to squares above it keeps row-major order. */
  lemma AppendRow(p: seq<Rect>, q: seq<Rect>, bound: int)
    requires RowMajor(p) && LeftToRight(q)
    requires forall k :: 0 <= k < |p| ==> p[k].y < bound
    requires forall k :: 0 <= k < |q| ==> q[k].y == bound
    ensures RowMajor(p + q)
  {
  }

  /**
   * Within a row the squares come left to right, one column after another,
   * as the inner forEach of draw visits them; so no square is painted twice.
   */
  lemma {:induction false} RowRectsInColumnOrder(cells: seq<int>, row: int, s: GridSettings, cellSize: nat, n: nat)
    requires n <= |cells| && cellSize >= 1
    ensures LeftToRight(RowRects(cells, row, s, cellSize, n))
    decreases n
  {
    if n > 0 {
      RowRectsInColumnOrder(cells, row, s, cellSize, n - 1);
      var p := RowRects(cells, row, s, cellSize, n - 1);
      forall k | 0 <= k < |p| ensures p[k].x < (n - 1) * cellSize + s.offsetX {
        RowRectsLeftOf(cells, row, s, cellSize, n - 1, p[k]);
      }
      AppendLeftToRight(p, if cells[n - 1] != 0 then [CellRect(n - 1, row, s, cellSize)] else [],
        (n - 1) * cellSize + s.offsetX);
    }
  }

  /**
   * The squares of a frame come row by row and, within a row, left to
   * right, as the nested forEach of draw visits them; so no square is
   * painted twice.
   */
  lemma {:induction false} GridRectsInRowMajorOrder(g: Grid, s: GridSettings, cellSize: nat, m: nat)
    requires m <= |g| && cellSize >= 1
    ensures RowMajor(GridRects(g, s, cellSize, m))
    decreases m
  {
    if m > 0 {
      GridRectsInRowMajorOrder(g, s, cellSize, m - 1);
      RowRectsInColumnOrder(g[m - 1], m - 1, s, cellSize, |g[m - 1]|);
      var p := GridRects(g, s, cellSize, m - 1);
      var q := RowRects(g[m - 1], m - 1, s, cellSize, |g[m - 1]|);
      var bound := (m - 1) * cellSize + s.offsetY;
      GridRectsAllAbove(g, s, cellSize, m - 1);
      RowRectsOnLine(g[m - 1], m - 1, s, cellSize, |g[m - 1]|);
      AppendRow(p, q, bound);
    }
  }

  /** Each frame paints every square once, in the order draw visits the cells. */
  lemma DrawInRowMajorOrder(g: Grid, s: GridSettings, cellSize: nat)
    requires cellSize >= 1
    ensures RowMajor(Draw(g, s, cellSize))
    ensures forall i, j :: 0 <= i < j < |Draw(g, s, cellSize)| ==> Draw(g, s, cellSize)[i] != Draw(g, s, cellSize)[j]
  {
    GridRectsInRowMajorOrder(g, s, cellSize, |g|);
  }

  /** A rectangle lies inside the canvas. */
  ghost predicate InCanvas(r: Rect, width: nat, height: nat) {
    0 <= r.x && r.x + r.w <= width && 0 <= r.y && r.y + r.h <= height
  }

  /** Cell `i` of `n` cells of size `cs`, shifted by a margin `off`, fits in `size` if both margins do. */
  lemma FitsOnAxis(i: int, n: int, off: nat, cs: nat, size: nat)
    requires 0 <= i < n && n * cs + 2 * off <= size
    ensures 0 <= i * cs + off && i * cs + off + cs <= size
  {
    assert (i + 1) * cs <= n * cs;
  }

  /** The square of any cell of a grid of the computed shape fits in the canvas. */
  lemma CellRectInCanvas(col: int, row: int, width: nat, height: nat, cellSize: nat)
    requires cellSize >= 1
    requires 0 <= col < CalculateSettings(width, height, cellSize).cols
    requires 0 <= row < CalculateSettings(width, height, cellSize).rows
    ensures InCanvas(CellRect(col, row, CalculateSettings(width, height, cellSize), cellSize), width, height)
  {
    var s := CalculateSettings(width, height, cellSize);
    FitsOnAxis(col, s.cols, s.offsetX, cellSize, width);
    FitsOnAxis(row, s.rows, s.offsetY, cellSize, height);
  }

  /** Every square a frame paints lies inside the canvas. */
  lemma DrawInCanvas(g: Grid, width: nat, height: nat, cellSize: nat)
    requires cellSize >= 1
    requires Shaped(g, CalculateSettings(width, height, cellSize).rows, CalculateSettings(width, height, cellSize).cols)
    ensures forall r :: r in Draw(g, CalculateSettings(width, height, cellSize), cellSize) ==> InCanvas(r, width, height)
  {
    var s := CalculateSettings(width, height, cellSize);
    forall r | r in Draw(g, s, cellSize) ensures InCanvas(r, width, height) {
      var y, c :| 0 <= y < |g| && 0 <= c < |g[y]| && g[y][c] != 0 && r == CellRect(c, y, s, cellSize);
      CellRectInCanvas(c, y, width, height, cellSize);
    }
  }

  /** A 105 by 47 pixel canvas with 10 pixel cells holds 10 by 4 cells, offset by (2, 3). */
  lemma CenteringExample()
    ensures CalculateSettings(105, 47, 10) == GridSettings(10, 4, 2, 3)
  {
  }
}
