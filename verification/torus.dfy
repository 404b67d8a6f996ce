/**
 Rolling a board, as numpy's `roll` does along both axes, and the symmetry
 it gives the automaton: stepping a rolled board is rolling the stepped
 board, so whatever a pattern does in one place it does in every place on
 the torus, across the edges included.
 */
module Torus {
  import opened Life

  /** Adding one whole cycle does not change a wrapped index. */
  lemma WrapPeriod(x: int, n: int)
    requires n > 0
    ensures Wrap(x + n, n) == Wrap(x, n)
  {
  }

  /** Wrapping first and then moving by k lands where moving first and wrapping does. */
  lemma {:induction false} WrapAdd(x: int, k: int, n: int)
    requires n > 0
    ensures Wrap(Wrap(x, n) + k, n) == Wrap(x + k, n)
    decreases x < 0, if x < 0 then -x else x
  {
    if x < 0 {
      WrapAdd(x + n, k, n);
      WrapPeriod(x + k, n);
    } else if x >= n {
      WrapAdd(x - n, k, n);
      WrapPeriod(x - n + k, n);
    }
  }

  /**
   The board rolled by i along the rows and j along the columns: the value
   of cell (r - i, c - j), wrapped, moves to (r, c).
   */
  function Roll(g: Board, rows: int, cols: int, i: int, j: int): (h: Board)
    requires Shaped(g, rows, cols)
    ensures Shaped(h, rows, cols)
    ensures forall r, c | 0 <= r < rows && 0 <= c < cols :: h[r][c] == At(g, rows, cols, r - i, c - j)
    ensures Binary(g) ==> Binary(h)
  {
    seq(rows, r requires 0 <= r < rows =>
      seq(cols, c requires 0 <= c < cols => At(g, rows, cols, r - i, c - j)))
  }

  /** Reading a rolled board anywhere on the torus reads the original shifted back. */
  lemma AtRoll(g: Board, rows: int, cols: int, i: int, j: int, x: int, y: int)
    requires Shaped(g, rows, cols) && rows > 0 && cols > 0
    ensures At(Roll(g, rows, cols, i, j), rows, cols, x, y) == At(g, rows, cols, x - i, y - j)
  {
    WrapAdd(x, -i, rows);
    WrapAdd(y, -j, cols);
  }

  /** Rolling back by (-i, -j) undoes rolling by (i, j). */
  lemma RollRoundTrip(g: Board, rows: int, cols: int, i: int, j: int)
    requires Shaped(g, rows, cols)
    ensures Roll(Roll(g, rows, cols, i, j), rows, cols, -i, -j) == g
  {
    var h := Roll(Roll(g, rows, cols, i, j), rows, cols, -i, -j);
    forall r, c | 0 <= r < rows && 0 <= c < cols
      ensures h[r][c] == g[r][c]
    {
      AtRoll(g, rows, cols, i, j, r + i, c + j);
      AtInRange(g, rows, cols, r, c);
    }
    SameCells(h, g, rows, cols);
  }

  /** A rolled board has, at (r, c), the live-neighbour count the original has at (r - i, c - j). */
  lemma NeighboursRolled(g: Board, rows: int, cols: int, i: int, j: int, r: int, c: int)
    requires IsBoard(g, rows, cols) && rows > 0 && cols > 0
    ensures LiveNeighbours(Roll(g, rows, cols, i, j), rows, cols, r, c)
         == LiveNeighbours(g, rows, cols, r - i, c - j)
  {
    CountLiveUnfolded(Roll(g, rows, cols, i, j), rows, cols, r, c);
    CountLiveUnfolded(g, rows, cols, r - i, c - j);
    RingRolled(g, rows, cols, i, j, r, c);
  }

  /** The eight cells around (r, c) of a rolled board are the eight around (r - i, c - j) of the original. */
  lemma RingRolled(g: Board, rows: int, cols: int, i: int, j: int, r: int, c: int)
    requires Shaped(g, rows, cols) && rows > 0 && cols > 0
    ensures var h, x, y := Roll(g, rows, cols, i, j), r - i, c - j;
      At(h, rows, cols, r - 1, c - 1) + At(h, rows, cols, r - 1, c) + At(h, rows, cols, r - 1, c + 1)
      + At(h, rows, cols, r, c - 1) + At(h, rows, cols, r, c + 1)
      + At(h, rows, cols, r + 1, c - 1) + At(h, rows, cols, r + 1, c) + At(h, rows, cols, r + 1, c + 1)
      == At(g, rows, cols, x - 1, y - 1) + At(g, rows, cols, x - 1, y) + At(g, rows, cols, x - 1, y + 1)
       + At(g, rows, cols, x, y - 1) + At(g, rows, cols, x, y + 1)
       + At(g, rows, cols, x + 1, y - 1) + At(g, rows, cols, x + 1, y) + At(g, rows, cols, x + 1, y + 1)
  {
    AtRoll(g, rows, cols, i, j, r - 1, c - 1);
    AtRoll(g, rows, cols, i, j, r - 1, c);
    AtRoll(g, rows, cols, i, j, r - 1, c + 1);
    AtRoll(g, rows, cols, i, j, r, c - 1);
    AtRoll(g, rows, cols, i, j, r, c + 1);
    AtRoll(g, rows, cols, i, j, r + 1, c - 1);
    AtRoll(g, rows, cols, i, j, r + 1, c);
    AtRoll(g, rows, cols, i, j, r + 1, c + 1);
  }

  /** The wrapped neighbours of x are the cycle neighbours of the wrapped x. */
  lemma WrapNeighbours(x: int, n: int)
    requires n > 0
    ensures Wrap(x - 1, n) == Prev(Wrap(x, n), n)
    ensures Wrap(x + 1, n) == Next(Wrap(x, n), n)
  {
    WrapAdd(x, -1, n);
    WrapAdd(x, 1, n);
    WrapStep(Wrap(x, n), n);
  }

  /** The eight cells around (x, y) are the eight board cells around its wrapped coordinates. */
  lemma RingOnBoard(g: Board, rows: int, cols: int, x: int, y: int)
    requires Shaped(g, rows, cols) && rows > 0 && cols > 0
    ensures var r, c := Wrap(x, rows), Wrap(y, cols);
      var rp, rn, cp, cn := Prev(r, rows), Next(r, rows), Prev(c, cols), Next(c, cols);
      At(g, rows, cols, x - 1, y - 1) + At(g, rows, cols, x - 1, y) + At(g, rows, cols, x - 1, y + 1)
      + At(g, rows, cols, x, y - 1) + At(g, rows, cols, x, y + 1)
      + At(g, rows, cols, x + 1, y - 1) + At(g, rows, cols, x + 1, y) + At(g, rows, cols, x + 1, y + 1)
      == g[rp][cp] + g[rp][c] + g[rp][cn] + g[r][cp] + g[r][cn] + g[rn][cp] + g[rn][c] + g[rn][cn]
  {
    WrapNeighbours(x, rows);
    WrapNeighbours(y, cols);
  }

  /** The live-neighbour count of a cell is the same at any of its wrapped coordinates. */
  lemma NeighboursWrapped(g: Board, rows: int, cols: int, x: int, y: int)
    requires IsBoard(g, rows, cols) && rows > 0 && cols > 0
    ensures LiveNeighbours(g, rows, cols, Wrap(x, rows), Wrap(y, cols)) == LiveNeighbours(g, rows, cols, x, y)
  {
    NeighboursOnBoard(g, rows, cols, Wrap(x, rows), Wrap(y, cols));
    CountLiveUnfolded(g, rows, cols, x, y);
    RingOnBoard(g, rows, cols, x, y);
  }

  /** One cell of the step commutes with rolling. */
  lemma StepRollCell(g: Board, rows: int, cols: int, i: int, j: int, r: int, c: int)
    requires IsBoard(g, rows, cols) && 0 <= r < rows && 0 <= c < cols
    ensures Step(Roll(g, rows, cols, i, j), rows, cols)[r][c] == Roll(Step(g, rows, cols), rows, cols, i, j)[r][c]
  {
    NeighboursRolled(g, rows, cols, i, j, r, c);
    NeighboursWrapped(g, rows, cols, r - i, c - j);
  }

  /**
   The automaton has no preferred position on the torus: stepping a rolled
   board gives the rolled step of the original.
   */
  lemma StepCommutesWithRoll(g: Board, rows: int, cols: int, i: int, j: int)
    requires IsBoard(g, rows, cols)
    ensures Step(Roll(g, rows, cols, i, j), rows, cols) == Roll(Step(g, rows, cols), rows, cols, i, j)
  {
    forall r, c | 0 <= r < rows && 0 <= c < cols
      ensures Step(Roll(g, rows, cols, i, j), rows, cols)[r][c] == Roll(Step(g, rows, cols), rows, cols, i, j)[r][c]
    {
      StepRollCell(g, rows, cols, i, j, r, c);
    }
    SameCells(Step(Roll(g, rows, cols, i, j), rows, cols), Roll(Step(g, rows, cols), rows, cols, i, j), rows, cols);
  }

  /**
   Moving a window of the cycle: for 0 <= k and the range lo..hi + k inside
   0..n-1, the wrapped x + k lies in lo + k..hi + k exactly when the wrapped
   x lies in lo..hi.
   */
  lemma WrapWindow(x: int, k: int, lo: int, hi: int, n: int)
    requires 0 <= k && 0 <= lo <= hi && hi + k < n
    ensures (lo + k <= Wrap(x + k, n) <= hi + k) == (lo <= Wrap(x, n) <= hi)
  {
    WrapAdd(x, k, n);
    var w := Wrap(x, n);
    if w + k >= n {
      assert Wrap(w + k, n) == Wrap(w + k - n, n) == w + k - n;
    }
  }
}
