# Conway's Game of Life on a torus, and its screen layout

A Dafny model of the two pieces of logic in `main.py`:

- **The automaton** (`ConwaysGame`): a rows x cols board of 0/1 cells advanced
  one generation at a time by rule B3/S23, with the board wrapping around at
  every edge, and the enumeration of its live cells.
- **The layout** (`Grid`): the pixel geometry that cuts a screen area into
  rows x cols cells separated by bars of a fixed thickness, and the centre of
  each cell.

Files:

- `life.dfy` (module `Life`): the board, the neighbour sum as
  `ConwaysGame.update` computes it (a sum of the board rolled by each of the
  eight shifts), an independent count of live Moore neighbours, the step, and
  the game state.
- `torus.dfy` (module `Torus`): rolling a whole board, and the proof that the
  step commutes with it, so a pattern behaves the same at every position.
- `live_cells.dfy` (module `LiveCells`): the row-major list of live cells.
- `patterns.dfy` (module `Patterns`): still lifes, the blinker and wrap-around,
  proved for every board size above a small bound and, through `Torus`, at
  every position, edges included.
- `layout.dfy` (module `Layout`): cell spans, separator bars and cell centres
  over exact `real` arithmetic.

`ConwaysGame.update` in `main.py` sums eight `np.roll` copies of the board. Rolling by `i` along rows
and `j` along columns puts the old value of cell `(r - i, c - j)` at `(r, c)`,
so the model reads that cell per position (`Life.RolledSum`), in the order the
generator yields the shifts. `Life.LiveNeighbours` counts the live cells at
`(r + di, c + dj)` for the eight Moore offsets instead, and
`Life.RolledSumCountsNeighbours` proves the two agree. Wrap-around is
`Life.Wrap`, which adds or subtracts whole cycles until the index lies on the
board; `Life.WrapIsMod` proves it is the Euclidean remainder, the one
`np.roll` uses, and `Life.AtIsRoll` states the wrapped read in those terms.

The step is specified through that reference count and a separate statement
of B3/S23 (`Life.Survives`). The body uses the boolean expression of
`ConwaysGame.update` over the rolled sum.

## Model

| member | source | states |
|---|---|---|
| Life.Step | main.py:113-124 | The next board is again a binary rows x cols board, and cell (r, c) is 1 exactly when B3/S23 holds for the old cell and its live Moore neighbours on the torus. |
| Life.NextCell | main.py:119-123 | The boolean expression of `ConwaysGame.update` over the rolled sum gives 1 exactly when B3/S23 holds for the old cell and its live Moore neighbours. |
| Life.Wrap | main.py:115-117 | A wrapped index always lies in 0..n-1. |
| Life.WrapIsMod | main.py:115-117 | Wrapping an index agrees with the Euclidean remainder for every integer index, negative ones included. |
| Life.AtIsRoll | main.py:115-117 | Reading the board at any integer position (r, c), as each roll does, reads row r mod rows and column c mod cols, with the Euclidean remainder. |
| Life.RolledSum | main.py:115-117 | On a binary board, the sum of the rolled copies at a cell, over any list of shifts, lies between 0 and the number of shifts. |
| Life.RolledSumCountsNeighbours | main.py:115-117 | The sum of the eight rolled copies at a cell equals the number of live Moore neighbours under wrap-around, so it lies in 0..8. |
| Life.LiveNeighbours | main.py:115-117 | The live-neighbour count of any cell lies between 0 and 8. |
| Life.NeighboursOnBoard | main.py:115-117 | For an on-board cell, the live-neighbour count is the sum of the eight cells one row and one column away, with the row before row 0 being the last row and the row after the last being row 0 (likewise for columns). |
| Life.StepIsLocal | main.py:115-124 | The next value of a cell depends only on the old board's 3 x 3 wrapped window around it; boards that agree there agree on the cell next time. |
| Life.CornersAreNeighbours | main.py:115-117 | Through wrap-around, (rows-1, cols-1) is the top-left neighbour of (0, 0), and (0, 0) is the bottom-right neighbour of (rows-1, cols-1). |
| Life.Update | main.py:113-124 | Updating keeps the game a binary board of the same rows and cols, and every cell follows B3/S23. |
| LiveCells.LiveInRow | main.py:110-111 | The cells of one row holding 1, each once, in increasing column order. |
| LiveCells.LiveCells | main.py:110-111 | A coordinate is listed exactly when the board holds 1 there, and the list is strictly increasing in row-major order, so it has no duplicates. |
| LiveCells.LiveCellsCount | main.py:110-111 | The number of live cells listed equals the number of cells holding 1. |
| LiveCells.LiveCellsOf | main.py:110-111 | For a valid game: the live cells are exactly the in-range cells holding 1, in row-major order, as many as there are such cells. |
| Patterns.DeadIsStill | main.py:115-124 | The all-dead board of any size is a fixed point of the step. |
| Patterns.InteriorCount | main.py:115-117 | For a rectangle of live cells that keeps off the outer rows and columns, every cell has as many live neighbours on the torus as it would on the unbounded plane. |
| Patterns.InteriorStep | main.py:115-124 | For such a rectangle, each next cell is the rule applied to the old cell and its plane neighbour count. |
| Torus.Roll | main.py:115-117 | Rolling a board by (i, j), as `np.roll` does along both axes, keeps its shape and binary values and moves the wrapped value of cell (r - i, c - j) to (r, c). |
| Torus.RollRoundTrip | main.py:115-117 | Rolling by (-i, -j) undoes rolling by (i, j). |
| Torus.NeighboursRolled | main.py:115-117 | A rolled board has at (r, c) the live-neighbour count the original has at (r - i, c - j). |
| Torus.NeighboursWrapped | main.py:115-117 | The live-neighbour count at any integer position equals the count at its wrapped on-board coordinates. |
| Torus.StepCommutesWithRoll | main.py:113-124 | For every board and shift, stepping the rolled board gives the rolled step of the board: the rule has no preferred position on the torus. |
| Patterns.BlockIsStill | main.py:115-124 | The 2 x 2 block at the fixed place rows 1..2, columns 1..2, on an otherwise dead board of at least 4 x 4, is a fixed point. |
| Patterns.BlockAtCells | main.py:115-117 | The block placed with its top-left cell at (a, b) holds 1 exactly at the cells whose wrapped offsets from (a, b) are 0 or 1 in both directions, so it may straddle the edges. |
| Patterns.BlockAtIsStill | main.py:115-124 | On a board of at least 4 x 4, the 2 x 2 block at any position (a, b), across the edges included, is a fixed point. |
| Patterns.BlinkerTurnsVertical | main.py:115-124 | On a board of at least 5 x 5, the horizontal line of three at the fixed place row 2, columns 1..3, becomes the vertical line of three through its middle, column 2, rows 1..3. |
| Patterns.BlinkerTurnsHorizontal | main.py:115-124 | On a board of at least 5 x 5, the vertical line at column 2, rows 1..3, becomes the horizontal line at row 2, columns 1..3, again. |
| Patterns.BlinkerPeriodTwo | main.py:115-124 | The blinker centred at the fixed cell (2, 2) changes after one step and is back after two. |
| Patterns.HorizontalAtCells | main.py:115-117 | The horizontal blinker centred at (a, b) holds 1 exactly at the cells of row a (wrapped) whose wrapped column offset from b is -1, 0 or 1. |
| Patterns.VerticalAtCells | main.py:115-117 | The vertical blinker centred at (a, b) holds 1 exactly at the cells of column b (wrapped) whose wrapped row offset from a is -1, 0 or 1. |
| Patterns.BlinkerAtPeriodTwo | main.py:115-124 | On a board of at least 5 x 5 and for every centre (a, b), across the edges included, the horizontal blinker steps to the vertical one, which steps back, and the two differ. |
| Patterns.CornerBirth | main.py:115-124 | On a board of at least 3 x 3, a dead (0, 0) whose only live neighbours are the three far corners has exactly 3 neighbours through wrap-around and is born. |
| Layout.CellSpan | main.py:46-47 | count cells of the computed span plus count + 1 bars fill the extent exactly. |
| Layout.RowBars | main.py:49-65 | rows + 1 horizontal bars of full width and bar thickness; bar k < rows starts at top + k*(span + lineWidth), and the last is pinned to the bottom edge. |
| Layout.ColBars | main.py:67-83 | cols + 1 vertical bars of full height and bar thickness; bar k < cols starts at left + k*(span + lineWidth), and the last is pinned to the right edge. |
| Layout.PinnedBarIsRegular | main.py:58-64 | When the cells and bars fill the extent, the bar pinned at the far edge starts exactly where regular spacing puts bar number count. |
| Layout.NewGrid | main.py:33-83 | The constructor's spans fill the area; there are rows + 1 and cols + 1 bars, and every bar, the pinned last one included, starts at k cell-plus-bar steps from the origin. |
| Layout.CellOrigin | main.py:86-87 | For a cell inside the grid, its content starts one bar thickness past the bar before it and ends exactly where the bar after it starts (x counts columns, y rows). |
| Layout.CellPosition | main.py:85-92 | For a cell inside the grid, each coordinate of its centre lies halfway between the end of the bar before it and the start of the bar after it. |
| Layout.GridFillsArea | main.py:58-87 | The first cell's content starts at (left + lineWidth, top + lineWidth); the last column's right edge plus a bar is left + width, and the last row's bottom edge plus a bar is top + height. |

## Left out

- The pygame window, event loop, pause key, clock, frame rate, text and all
  drawing, including both `render` methods: input/output, not logic.
- The random initial board and the random colour: randomness. A game is any
  `Life.Game` whose board is binary and rows x cols (`Life.Valid`).
- `Rectangle`'s conversion of float coordinates to integer pixels, and
  floating-point rounding: the layout is stated over exact `real` values, the
  ones the code computes before handing them to `Rectangle`.
- The `uint8` element type: cells are `int`, and the neighbour sum never
  exceeds 8, so no wrap-around of the element type can happen.
- Vectorisation: the step is stated per cell; the whole-board arrays of numpy
  are not modelled.
- The `line_width` default of 2: `Layout.NewGrid` takes the thickness
  explicitly.
- Zero rows or columns in the layout: `Grid.__init__` divides by them and would
  raise; `Layout.NewGrid` requires both to be positive. The automaton needs no
  such requirement, because no cell is read when a dimension is 0.
- `Life.Step`: requires a binary board, the invariant the game keeps from its
  random 0/1 start; the expression in `ConwaysGame.update` is not stated for other values.
- `Layout.CellOrigin` and `Layout.CellPosition`: `main.py` computes them for
  any index with no range check, and the model does too, but their contracts
  only describe cells inside the grid.
- The driver passing `(row, col)` as `(x, y)` to `get_cell_position`: outside
  the layout itself; the model keeps the method's own meaning, x for columns.
