/**
 Known behaviour of B3/S23 on the torus: the empty board and the block are
 still lifes, the blinker oscillates with period 2, and wrap-around makes a
 cell in one corner see live cells in the other three.
 */
module Patterns {
  import opened Life
  import opened Torus

  /** 1 for true, 0 for false. */
  function Bit(b: bool): (n: int)
    ensures n == 0 || n == 1
  {
    if b then 1 else 0
  }

  /** 1 when both tests hold, 0 otherwise. */
  function Both(p: bool, q: bool): int {
    Bit(p && q)
  }

  /** The rows x cols board with every cell dead. */
  function Dead(rows: nat, cols: nat): (g: Board)
    ensures IsBoard(g, rows, cols)
  {
    seq(rows, r => seq(cols, c => 0))
  }

  /** A cell of the all-dead board has no live neighbours and stays dead. */
  lemma DeadCell(rows: nat, cols: nat, r: int, c: int)
    requires 0 <= r < rows && 0 <= c < cols
    ensures LiveNeighbours(Dead(rows, cols), rows, cols, r, c) == 0
    ensures Step(Dead(rows, cols), rows, cols)[r][c] == 0
  {
    NeighboursOnBoard(Dead(rows, cols), rows, cols, r, c);
  }

  /** The all-dead board stays dead. */
  lemma DeadIsStill(rows: nat, cols: nat)
    ensures Step(Dead(rows, cols), rows, cols) == Dead(rows, cols)
  {
    var g := Dead(rows, cols);
    forall r, c | 0 <= r < rows && 0 <= c < cols
      ensures Step(g, rows, cols)[r][c] == g[r][c]
    {
      DeadCell(rows, cols, r, c);
    }
    SameCells(Step(g, rows, cols), g, rows, cols);
  }

  /**
   The rows x cols board whose live cells are exactly the rectangle of rows
   r0..r1 and columns c0..c1 (both ends included).
   */
  function Filled(rows: nat, cols: nat, r0: int, r1: int, c0: int, c1: int): (g: Board)
    ensures Shaped(g, rows, cols)
    ensures forall r, c | 0 <= r < rows && 0 <= c < cols :: g[r][c] == Both(r0 <= r <= r1, c0 <= c <= c1)
    ensures IsBoard(g, rows, cols)
  {
    seq(rows, r => seq(cols, c => Both(r0 <= r <= r1, c0 <= c <= c1)))
  }

  /** 1 when (y, x) lies in the rectangle r0..r1 x c0..c1 of the unbounded plane, 0 otherwise. */
  function InRect(y: int, x: int, r0: int, r1: int, c0: int, c1: int): int {
    Both(r0 <= y <= r1, c0 <= x <= c1)
  }

  /**
   The number of cells of the rectangle r0..r1 x c0..c1 among the eight
   cells around (r, c), on an unbounded plane.
   */
  function RectCount(r: int, c: int, r0: int, r1: int, c0: int, c1: int): int {
    InRect(r - 1, c - 1, r0, r1, c0, c1) + InRect(r - 1, c, r0, r1, c0, c1) + InRect(r - 1, c + 1, r0, r1, c0, c1)
    + InRect(r, c - 1, r0, r1, c0, c1) + InRect(r, c + 1, r0, r1, c0, c1)
    + InRect(r + 1, c - 1, r0, r1, c0, c1) + InRect(r + 1, c, r0, r1, c0, c1) + InRect(r + 1, c + 1, r0, r1, c0, c1)
  }

  /**
   A rectangle that keeps off the first and last row and column does not
   reach any cell through wrap-around: on the torus each cell has as many
   live neighbours as it would on the unbounded plane.
   */
  lemma InteriorCount(rows: nat, cols: nat, r0: int, r1: int, c0: int, c1: int, r: int, c: int)
    requires 1 <= r0 && r1 <= rows - 2 && 1 <= c0 && c1 <= cols - 2
    requires 0 <= r < rows && 0 <= c < cols
    ensures LiveNeighbours(Filled(rows, cols, r0, r1, c0, c1), rows, cols, r, c)
         == RectCount(r, c, r0, r1, c0, c1)
  {
    NeighboursOnBoard(Filled(rows, cols, r0, r1, c0, c1), rows, cols, r, c);
    RingOfRect(rows, cols, r0, r1, c0, c1, r, c);
  }

  /**
   The eight cells around (r, c) on the torus, read off an interior
   rectangle, add up to the plane count.
   */
  lemma RingOfRect(rows: nat, cols: nat, r0: int, r1: int, c0: int, c1: int, r: int, c: int)
    requires 1 <= r0 && r1 <= rows - 2 && 1 <= c0 && c1 <= cols - 2
    requires 0 <= r < rows && 0 <= c < cols
    ensures var g := Filled(rows, cols, r0, r1, c0, c1);
      var rp, rn, cp, cn := Prev(r, rows), Next(r, rows), Prev(c, cols), Next(c, cols);
      g[rp][cp] + g[rp][c] + g[rp][cn] + g[r][cp] + g[r][cn] + g[rn][cp] + g[rn][c] + g[rn][cn]
      == RectCount(r, c, r0, r1, c0, c1)
  {
    WrapMissesInterior(r, rows, r0, r1);
    RowTriple(rows, cols, r0, r1, c0, c1, Prev(r, rows), r - 1, c);
    RowTriple(rows, cols, r0, r1, c0, c1, r, r, c);
    RowTriple(rows, cols, r0, r1, c0, c1, Next(r, rows), r + 1, c);
  }

  /**
   Row i of an interior rectangle, read at the column before c, at c and at
   the column after c (wrapping), holds what the plane holds in a row y on
   the same side of the rectangle at c - 1, c and c + 1.
   */
  lemma RowTriple(rows: nat, cols: nat, r0: int, r1: int, c0: int, c1: int, i: int, y: int, c: int)
    requires 1 <= r0 && r1 <= rows - 2 && 1 <= c0 && c1 <= cols - 2
    requires 0 <= i < rows && 0 <= c < cols && (r0 <= i <= r1) == (r0 <= y <= r1)
    ensures var g := Filled(rows, cols, r0, r1, c0, c1);
      g[i][Prev(c, cols)] + g[i][c] + g[i][Next(c, cols)]
      == InRect(y, c - 1, r0, r1, c0, c1) + InRect(y, c, r0, r1, c0, c1) + InRect(y, c + 1, r0, r1, c0, c1)
    ensures Filled(rows, cols, r0, r1, c0, c1)[i][c] == InRect(y, c, r0, r1, c0, c1)
  {
    WrapMissesInterior(c, cols, c0, c1);
  }

  /**
   An index range that keeps off both ends of a cycle contains the index
   before (after) x exactly when it contains x - 1 (x + 1).
   */
  lemma WrapMissesInterior(x: int, n: int, lo: int, hi: int)
    requires 1 <= lo && hi <= n - 2 && 0 <= x < n
    ensures (lo <= Prev(x, n) <= hi) == (lo <= x - 1 <= hi)
    ensures (lo <= Next(x, n) <= hi) == (lo <= x + 1 <= hi)
  {
  }

  /**
   One cell of the next generation of an interior rectangle: the rule
   applied to the cell and its plane neighbour count.
   */
  lemma InteriorStep(rows: nat, cols: nat, r0: int, r1: int, c0: int, c1: int, r: int, c: int)
    requires 1 <= r0 && r1 <= rows - 2 && 1 <= c0 && c1 <= cols - 2
    requires 0 <= r < rows && 0 <= c < cols
    ensures Step(Filled(rows, cols, r0, r1, c0, c1), rows, cols)[r][c]
         == Bit(Survives(Both(r0 <= r <= r1, c0 <= c <= c1) == 1, RectCount(r, c, r0, r1, c0, c1)))
  {
    InteriorCount(rows, cols, r0, r1, c0, c1, r, c);
  }

  /** The 2 x 2 block with its top-left cell at (1, 1); BlockAt places it anywhere. */
  function Block(rows: nat, cols: nat): Board {
    Filled(rows, cols, 1, 2, 1, 2)
  }

  /** On the plane every cell of a block has 3 neighbours in it, and no other cell has 3. */
  lemma BlockRule(r: int, c: int)
    ensures Bit(Survives(Both(1 <= r <= 2, 1 <= c <= 2) == 1, RectCount(r, c, 1, 2, 1, 2)))
         == Both(1 <= r <= 2, 1 <= c <= 2)
  {
  }

  /** One cell of the block keeps its value. */
  lemma BlockCell(rows: nat, cols: nat, r: int, c: int)
    requires rows >= 4 && cols >= 4 && 0 <= r < rows && 0 <= c < cols
    ensures Step(Block(rows, cols), rows, cols)[r][c] == Block(rows, cols)[r][c]
  {
    InteriorStep(rows, cols, 1, 2, 1, 2, r, c);
    BlockRule(r, c);
  }

  /** On a torus of at least 4 x 4 the block at (1, 1) is a still life. */
  lemma BlockIsStill(rows: nat, cols: nat)
    requires rows >= 4 && cols >= 4
    ensures Step(Block(rows, cols), rows, cols) == Block(rows, cols)
  {
    var g := Block(rows, cols);
    forall r, c | 0 <= r < rows && 0 <= c < cols
      ensures Step(g, rows, cols)[r][c] == g[r][c]
    {
      BlockCell(rows, cols, r, c);
    }
    SameCells(Step(g, rows, cols), g, rows, cols);
  }

  /** The blinker lying along row 2, columns 1..3; HorizontalAt places it anywhere. */
  function Horizontal(rows: nat, cols: nat): Board {
    Filled(rows, cols, 2, 2, 1, 3)
  }

  /** The blinker standing along column 2, rows 1..3; VerticalAt places it anywhere. */
  function Vertical(rows: nat, cols: nat): Board {
    Filled(rows, cols, 1, 3, 2, 2)
  }

  /** On the plane a horizontal line of three turns into the vertical line through its middle. */
  lemma HorizontalRule(r: int, c: int)
    ensures Bit(Survives(Both(2 <= r <= 2, 1 <= c <= 3) == 1, RectCount(r, c, 2, 2, 1, 3)))
         == Both(1 <= r <= 3, 2 <= c <= 2)
  {
    if r < 1 || 3 < r || c < 0 || 4 < c {
    } else if c == 2 {
    } else if r == 2 {
    } else {
    }
  }

  /** On the plane a vertical line of three turns into the horizontal line through its middle. */
  lemma VerticalRule(r: int, c: int)
    ensures Bit(Survives(Both(1 <= r <= 3, 2 <= c <= 2) == 1, RectCount(r, c, 1, 3, 2, 2)))
         == Both(2 <= r <= 2, 1 <= c <= 3)
  {
    if c < 1 || 3 < c || r < 0 || 4 < r {
    } else if r == 2 {
    } else if c == 2 {
    } else {
    }
  }

  /** One cell of the horizontal blinker's successor is the vertical blinker's cell. */
  lemma HorizontalCell(rows: nat, cols: nat, r: int, c: int)
    requires rows >= 5 && cols >= 5 && 0 <= r < rows && 0 <= c < cols
    ensures Step(Horizontal(rows, cols), rows, cols)[r][c] == Vertical(rows, cols)[r][c]
  {
    InteriorStep(rows, cols, 2, 2, 1, 3, r, c);
    HorizontalRule(r, c);
  }

  /** One cell of the vertical blinker's successor is the horizontal blinker's cell. */
  lemma VerticalCell(rows: nat, cols: nat, r: int, c: int)
    requires rows >= 5 && cols >= 5 && 0 <= r < rows && 0 <= c < cols
    ensures Step(Vertical(rows, cols), rows, cols)[r][c] == Horizontal(rows, cols)[r][c]
  {
    InteriorStep(rows, cols, 1, 3, 2, 2, r, c);
    VerticalRule(r, c);
  }

  /** On a torus of at least 5 x 5 the horizontal blinker centred at (2, 2) turns vertical. */
  lemma BlinkerTurnsVertical(rows: nat, cols: nat)
    requires rows >= 5 && cols >= 5
    ensures Step(Horizontal(rows, cols), rows, cols) == Vertical(rows, cols)
  {
    var g := Horizontal(rows, cols);
    forall r, c | 0 <= r < rows && 0 <= c < cols
      ensures Step(g, rows, cols)[r][c] == Vertical(rows, cols)[r][c]
    {
      HorizontalCell(rows, cols, r, c);
    }
    SameCells(Step(g, rows, cols), Vertical(rows, cols), rows, cols);
  }

  /** On a torus of at least 5 x 5 the vertical blinker centred at (2, 2) turns horizontal. */
  lemma BlinkerTurnsHorizontal(rows: nat, cols: nat)
    requires rows >= 5 && cols >= 5
    ensures Step(Vertical(rows, cols), rows, cols) == Horizontal(rows, cols)
  {
    var g := Vertical(rows, cols);
    forall r, c | 0 <= r < rows && 0 <= c < cols
      ensures Step(g, rows, cols)[r][c] == Horizontal(rows, cols)[r][c]
    {
      VerticalCell(rows, cols, r, c);
    }
    SameCells(Step(g, rows, cols), Horizontal(rows, cols), rows, cols);
  }

  /** The blinker centred at (2, 2) has period 2: one step changes it, two steps bring it back. */
  lemma BlinkerPeriodTwo(rows: nat, cols: nat)
    requires rows >= 5 && cols >= 5
    ensures Step(Horizontal(rows, cols), rows, cols) != Horizontal(rows, cols)
    ensures Step(Step(Horizontal(rows, cols), rows, cols), rows, cols) == Horizontal(rows, cols)
  {
    BlinkerTurnsVertical(rows, cols);
    BlinkerTurnsHorizontal(rows, cols);
    assert Vertical(rows, cols)[1][2] != Horizontal(rows, cols)[1][2];
  }

  /**
   The 2 x 2 block with its top-left cell at (a, b): the block at (1, 1)
   rolled into place, so it wraps around the edges when a or b is on the
   last row or column.
   */
  function BlockAt(rows: nat, cols: nat, a: int, b: int): Board {
    Roll(Block(rows, cols), rows, cols, a - 1, b - 1)
  }

  /**
   The cells of BlockAt: (r, c) is alive exactly when r is a or a + 1 and c
   is b or b + 1, counted around the torus.
   */
  lemma BlockAtCells(rows: nat, cols: nat, a: int, b: int)
    requires rows >= 4 && cols >= 4
    ensures forall r, c | 0 <= r < rows && 0 <= c < cols ::
              BlockAt(rows, cols, a, b)[r][c] == Both(Wrap(r - a, rows) <= 1, Wrap(c - b, cols) <= 1)
  {
    forall r, c | 0 <= r < rows && 0 <= c < cols
      ensures BlockAt(rows, cols, a, b)[r][c] == Both(Wrap(r - a, rows) <= 1, Wrap(c - b, cols) <= 1)
    {
      BlockAtCell(rows, cols, a, b, r, c);
    }
  }

  /** One cell of the block with its top-left cell at (a, b). */
  lemma BlockAtCell(rows: nat, cols: nat, a: int, b: int, r: int, c: int)
    requires rows >= 4 && cols >= 4 && 0 <= r < rows && 0 <= c < cols
    ensures BlockAt(rows, cols, a, b)[r][c] == Both(Wrap(r - a, rows) <= 1, Wrap(c - b, cols) <= 1)
  {
    WrapWindow(r - a, 1, 0, 1, rows);
    WrapWindow(c - b, 1, 0, 1, cols);
  }

  /** On a torus of at least 4 x 4 a 2 x 2 block anywhere, across the edges too, is a still life. */
  lemma BlockAtIsStill(rows: nat, cols: nat, a: int, b: int)
    requires rows >= 4 && cols >= 4
    ensures Step(BlockAt(rows, cols, a, b), rows, cols) == BlockAt(rows, cols, a, b)
  {
    BlockIsStill(rows, cols);
    StepCommutesWithRoll(Block(rows, cols), rows, cols, a - 1, b - 1);
  }

  /** The horizontal blinker centred at (a, b), wrapping around the edges where it must. */
  function HorizontalAt(rows: nat, cols: nat, a: int, b: int): Board {
    Roll(Horizontal(rows, cols), rows, cols, a - 2, b - 2)
  }

  /** The vertical blinker centred at (a, b), wrapping around the edges where it must. */
  function VerticalAt(rows: nat, cols: nat, a: int, b: int): Board {
    Roll(Vertical(rows, cols), rows, cols, a - 2, b - 2)
  }

  /** The horizontal blinker centred at (a, b) holds row a at columns b - 1, b and b + 1, around the torus. */
  lemma HorizontalAtCells(rows: nat, cols: nat, a: int, b: int)
    requires rows >= 5 && cols >= 5
    ensures forall r, c | 0 <= r < rows && 0 <= c < cols ::
              HorizontalAt(rows, cols, a, b)[r][c] == Both(Wrap(r - a, rows) == 0, Wrap(c - b + 1, cols) <= 2)
  {
    forall r, c | 0 <= r < rows && 0 <= c < cols
      ensures HorizontalAt(rows, cols, a, b)[r][c] == Both(Wrap(r - a, rows) == 0, Wrap(c - b + 1, cols) <= 2)
    {
      HorizontalAtCell(rows, cols, a, b, r, c);
    }
  }

  /** One cell of the horizontal blinker centred at (a, b). */
  lemma HorizontalAtCell(rows: nat, cols: nat, a: int, b: int, r: int, c: int)
    requires rows >= 5 && cols >= 5 && 0 <= r < rows && 0 <= c < cols
    ensures HorizontalAt(rows, cols, a, b)[r][c] == Both(Wrap(r - a, rows) == 0, Wrap(c - b + 1, cols) <= 2)
  {
    WrapWindow(r - a, 2, 0, 0, rows);
    WrapWindow(c - b + 1, 1, 0, 2, cols);
  }

  /** The vertical blinker centred at (a, b) holds column b at rows a - 1, a and a + 1, around the torus. */
  lemma VerticalAtCells(rows: nat, cols: nat, a: int, b: int)
    requires rows >= 5 && cols >= 5
    ensures forall r, c | 0 <= r < rows && 0 <= c < cols ::
              VerticalAt(rows, cols, a, b)[r][c] == Both(Wrap(r - a + 1, rows) <= 2, Wrap(c - b, cols) == 0)
  {
    forall r, c | 0 <= r < rows && 0 <= c < cols
      ensures VerticalAt(rows, cols, a, b)[r][c] == Both(Wrap(r - a + 1, rows) <= 2, Wrap(c - b, cols) == 0)
    {
      VerticalAtCell(rows, cols, a, b, r, c);
    }
  }

  /** One cell of the vertical blinker centred at (a, b). */
  lemma VerticalAtCell(rows: nat, cols: nat, a: int, b: int, r: int, c: int)
    requires rows >= 5 && cols >= 5 && 0 <= r < rows && 0 <= c < cols
    ensures VerticalAt(rows, cols, a, b)[r][c] == Both(Wrap(r - a + 1, rows) <= 2, Wrap(c - b, cols) == 0)
  {
    WrapWindow(r - a + 1, 1, 0, 2, rows);
    WrapWindow(c - b, 2, 0, 0, cols);
  }

  /**
   On a torus of at least 5 x 5 a blinker anywhere, across the edges too,
   alternates between its horizontal and vertical phases: it changes after
   one step and is back after two.
   */
  lemma BlinkerAtPeriodTwo(rows: nat, cols: nat, a: int, b: int)
    requires rows >= 5 && cols >= 5
    ensures Step(HorizontalAt(rows, cols, a, b), rows, cols) == VerticalAt(rows, cols, a, b)
    ensures Step(VerticalAt(rows, cols, a, b), rows, cols) == HorizontalAt(rows, cols, a, b)
    ensures HorizontalAt(rows, cols, a, b) != VerticalAt(rows, cols, a, b)
  {
    BlinkerTurnsVertical(rows, cols);
    BlinkerTurnsHorizontal(rows, cols);
    StepCommutesWithRoll(Horizontal(rows, cols), rows, cols, a - 2, b - 2);
    StepCommutesWithRoll(Vertical(rows, cols), rows, cols, a - 2, b - 2);
    BlinkerPeriodTwo(rows, cols);
    RollRoundTrip(Horizontal(rows, cols), rows, cols, a - 2, b - 2);
    RollRoundTrip(Vertical(rows, cols), rows, cols, a - 2, b - 2);
  }

  /**
   The board whose live cells are (rows - 1, cols - 1), (rows - 1, 0) and
   (0, cols - 1): each is a neighbour of (0, 0) only through wrap-around.
   */
  function Corners(rows: nat, cols: nat): (g: Board)
    ensures Shaped(g, rows, cols)
    ensures forall r, c | 0 <= r < rows && 0 <= c < cols ::
              g[r][c] == Bit((r == rows - 1 && (c == cols - 1 || c == 0)) || (r == 0 && c == cols - 1))
    ensures IsBoard(g, rows, cols)
  {
    seq(rows, r => seq(cols, c =>
      Bit((r == rows - 1 && (c == cols - 1 || c == 0)) || (r == 0 && c == cols - 1))))
  }

  /**
   On a torus of at least 3 x 3, the dead cell (0, 0) has exactly three live
   neighbours in the far corners, so it is born.
   */
  lemma CornerBirth(rows: nat, cols: nat)
    requires rows >= 3 && cols >= 3
    ensures LiveNeighbours(Corners(rows, cols), rows, cols, 0, 0) == 3
    ensures Step(Corners(rows, cols), rows, cols)[0][0] == 1
  {
    NeighboursOnBoard(Corners(rows, cols), rows, cols, 0, 0);
  }
}
