/**
 Pixel layout of the board on screen. The area left..left+width by
 top..top+height is cut into rows x cols cells by separator bars of
 thickness lineWidth: rows + 1 horizontal bars and cols + 1 vertical bars,
 the last of each pinned to the far edge. Arithmetic is exact (`real`).
 */
module Layout {

  /** An axis-aligned rectangle: its top-left corner and its size. */
  datatype Rect = Rect(left: real, top: real, width: real, height: real)

  /** The layout: its area, its counts, the bar thickness, the cell spans and the bars. */
  datatype Grid = Grid(
    left: real, top: real, width: real, height: real,
    rows: int, cols: int, lineWidth: real,
    rowCellPixels: real, colCellPixels: real,
    rowBars: seq<Rect>, colBars: seq<Rect>)

  /**
   The span of one cell along an axis of length `extent` holding `count`
   cells and `count + 1` bars: cells and bars together fill the extent exactly.
   */
  function CellSpan(extent: real, count: int, lineWidth: real): (span: real)
    requires count > 0
    ensures count as real * span + (count + 1) as real * lineWidth == extent
  {
    (extent - (count + 1) as real * lineWidth) / count as real
  }

  /** Where bar k starts along an axis beginning at `origin`, spaced by cells of `span`. */
  function BarStart(origin: real, k: int, span: real, lineWidth: real): real {
    origin + k as real * (span + lineWidth)
  }

  /**
   The horizontal bars: one above each row, spanning the full width, and a
   last one pinned to the bottom edge.
   */
  function RowBars(left: real, top: real, width: real, height: real, rows: nat, span: real, lineWidth: real)
    : (bars: seq<Rect>)
    ensures |bars| == rows + 1
    ensures forall k | 0 <= k < rows ::
              bars[k] == Rect(left, BarStart(top, k, span, lineWidth), width, lineWidth)
    ensures bars[rows] == Rect(left, top + height - lineWidth, width, lineWidth)
  {
    seq(rows, y requires 0 <= y < rows => Rect(left, y as real * span + y as real * lineWidth + top, width, lineWidth))
    + [Rect(left, height - lineWidth + top, width, lineWidth)]
  }

  /**
   The vertical bars: one left of each column, spanning the full height, and
   a last one pinned to the right edge.
   */
  function ColBars(left: real, top: real, width: real, height: real, cols: nat, span: real, lineWidth: real)
    : (bars: seq<Rect>)
    ensures |bars| == cols + 1
    ensures forall k | 0 <= k < cols ::
              bars[k] == Rect(BarStart(left, k, span, lineWidth), top, lineWidth, height)
    ensures bars[cols] == Rect(left + width - lineWidth, top, lineWidth, height)
  {
    seq(cols, x requires 0 <= x < cols => Rect(x as real * span + x as real * lineWidth + left, top, lineWidth, height))
    + [Rect(width - lineWidth + left, top, lineWidth, height)]
  }

  /**
   Builds the layout. In exact arithmetic the pinned last bar sits exactly
   where regular spacing would put it, so every bar k, the last included,
   starts at k whole cell-plus-bar steps from the origin.
   */
  function NewGrid(left: real, top: real, width: real, height: real, rows: int, cols: int, lineWidth: real)
    : (g: Grid)
    requires rows > 0 && cols > 0
    ensures g.rows == rows && g.cols == cols && g.lineWidth == lineWidth
    ensures rows as real * g.rowCellPixels + (rows + 1) as real * lineWidth == height
    ensures cols as real * g.colCellPixels + (cols + 1) as real * lineWidth == width
    ensures |g.rowBars| == rows + 1 && |g.colBars| == cols + 1
    ensures forall k | 0 <= k <= rows ::
              g.rowBars[k] == Rect(left, BarStart(top, k, g.rowCellPixels, lineWidth), width, lineWidth)
    ensures forall k | 0 <= k <= cols ::
              g.colBars[k] == Rect(BarStart(left, k, g.colCellPixels, lineWidth), top, lineWidth, height)
  {
    var rowSpan := CellSpan(height, rows, lineWidth);
    var colSpan := CellSpan(width, cols, lineWidth);
    PinnedBarIsRegular(top, height, rows, rowSpan, lineWidth);
    PinnedBarIsRegular(left, width, cols, colSpan, lineWidth);
    Grid(left, top, width, height, rows, cols, lineWidth, rowSpan, colSpan,
         RowBars(left, top, width, height, rows, rowSpan, lineWidth),
         ColBars(left, top, width, height, cols, colSpan, lineWidth))
  }

  /**
   When `count` cells of `span` and `count + 1` bars fill `extent`, the bar
   pinned at the far edge starts where bar number `count` would.
   */
  lemma PinnedBarIsRegular(origin: real, extent: real, count: int, span: real, lineWidth: real)
    requires count > 0
    requires count as real * span + (count + 1) as real * lineWidth == extent
    ensures origin + extent - lineWidth == BarStart(origin, count, span, lineWidth)
  {
  }

  /** A grid as the constructor builds it. */
  predicate Valid(g: Grid) {
    g.rows > 0 && g.cols > 0
    && g == NewGrid(g.left, g.top, g.width, g.height, g.rows, g.cols, g.lineWidth)
  }

  /**
   The top-left corner of the content of cell (x, y), where x counts
   columns and y counts rows. For a cell inside the grid the content starts
   just past the bar before it and ends exactly where the bar after it
   starts.
   */
  function CellOrigin(g: Grid, x: int, y: int): (p: (real, real))
    requires Valid(g)
    ensures 0 <= x < g.cols ==>
              p.0 == g.colBars[x].left + g.lineWidth && p.0 + g.colCellPixels == g.colBars[x + 1].left
    ensures 0 <= y < g.rows ==>
              p.1 == g.rowBars[y].top + g.lineWidth && p.1 + g.rowCellPixels == g.rowBars[y + 1].top
  {
    (g.left + g.lineWidth + x as real * (g.colCellPixels + g.lineWidth),
     g.top + g.lineWidth + y as real * (g.rowCellPixels + g.lineWidth))
  }

  /**
   The centre of cell (x, y): for a cell inside the grid, halfway between
   the end of the bar before it and the start of the bar after it, on each
   axis.
   */
  function CellPosition(g: Grid, x: int, y: int): (center: (real, real))
    requires Valid(g)
    ensures 0 <= x < g.cols ==>
              center.0 == ((g.colBars[x].left + g.lineWidth) + g.colBars[x + 1].left) / 2.0
    ensures 0 <= y < g.rows ==>
              center.1 == ((g.rowBars[y].top + g.lineWidth) + g.rowBars[y + 1].top) / 2.0
  {
    var origin := CellOrigin(g, x, y);
    (origin.0 + g.colCellPixels / 2.0, origin.1 + g.rowCellPixels / 2.0)
  }

  /**
   The grid fills its area exactly: the first cell's content starts one bar
   in from the top-left corner, and the last cell's content plus the
   trailing bar ends at the far edge.
   */
  lemma GridFillsArea(g: Grid)
    requires Valid(g)
    ensures CellOrigin(g, 0, 0) == (g.left + g.lineWidth, g.top + g.lineWidth)
    ensures CellOrigin(g, g.cols - 1, 0).0 + g.colCellPixels + g.lineWidth == g.left + g.width
    ensures CellOrigin(g, 0, g.rows - 1).1 + g.rowCellPixels + g.lineWidth == g.top + g.height
  {
  }
}
