/**
 The automaton step of Conway's Game of Life (rule B3/S23) on a torus.

 A board is a rows x cols matrix of 0 (dead) and 1 (alive). The next
 generation is computed from the whole current board at once: every cell
 looks at its eight Moore neighbours, wrapping around the edges.
 */
module Life {

  /** A board is a sequence of rows, each a sequence of cell values. */
  type Board = seq<seq<int>>

  /** `g` has exactly `rows` rows of exactly `cols` cells each. */
  predicate Shaped(g: Board, rows: int, cols: int) {
    && rows >= 0 && cols >= 0
    && |g| == rows
    && forall r | 0 <= r < |g| :: |g[r]| == cols
  }

  /** Every cell of `g` is 0 or 1. */
  predicate Binary(g: Board) {
    forall r, c | 0 <= r < |g| && 0 <= c < |g[r]| :: g[r][c] == 0 || g[r][c] == 1
  }

  /** The invariant the game keeps: a binary rows x cols matrix. */
  predicate IsBoard(g: Board, rows: int, cols: int) {
    Shaped(g, rows, cols) && Binary(g)
  }

  /**
   The index x brought into 0..n-1 by adding or subtracting whole cycles of
   length n: the non-negative remainder of x by n (see WrapIsMod).
   */
  function Wrap(x: int, n: int): (w: int)
    requires n > 0
    ensures 0 <= w < n
    decreases x < 0, if x < 0 then -x else x
  {
    if x < 0 then Wrap(x + n, n)
    else if x < n then x
    else Wrap(x - n, n)
  }

  /** Wrapping is the Euclidean remainder, the one numpy uses for a positive length. */
  lemma {:induction false} WrapIsMod(x: int, n: int)
    requires n > 0
    ensures Wrap(x, n) == x % n
    decreases x < 0, if x < 0 then -x else x
  {
    if x < 0 {
      WrapIsMod(x + n, n);
      RemainderShift(x, n, 1);
    } else if x >= n {
      WrapIsMod(x - n, n);
      RemainderShift(x, n, -1);
    } else {
      RemainderUnique(x, n, 0, x);
    }
  }

  /** Adding k whole cycles does not change the remainder. */
  lemma RemainderShift(x: int, n: int, k: int)
    requires n > 0
    ensures (x + k * n) % n == x % n
  {
    var q := x / n;
    assert x + k * n == (q + k) * n + x % n;
    RemainderUnique(x + k * n, n, q + k, x % n);
  }

  /** A remainder in 0..n-1 of a division by n is the Euclidean one. */
  lemma RemainderUnique(x: int, n: int, q: int, w: int)
    requires n > 0 && 0 <= w < n && x == q * n + w
    ensures x % n == w
  {
    var d := q - x / n;
    assert d * n == x % n - w;
    MultipleBounds(d, n);
  }

  /** A non-zero multiple of n is at least n away from 0. */
  lemma MultipleBounds(d: int, n: int)
    requires n > 0
    ensures d >= 1 ==> d * n >= n
    ensures d <= -1 ==> d * n <= -n
  {
  }

  /** The wrapped read is numpy's: row r % rows, column c % cols, with the Euclidean remainder. */
  lemma AtIsRoll(g: Board, rows: int, cols: int, r: int, c: int)
    requires Shaped(g, rows, cols) && rows > 0 && cols > 0
    ensures At(g, rows, cols, r, c) == g[r % rows][c % cols]
  {
    WrapIsMod(r, rows);
    WrapIsMod(c, cols);
  }

  /** The cell at (r, c) on the torus: both indices wrap around. */
  function At(g: Board, rows: int, cols: int, r: int, c: int): int
    requires Shaped(g, rows, cols) && rows > 0 && cols > 0
  {
    g[Wrap(r, rows)][Wrap(c, cols)]
  }

  /** The shifts (i, j) in the order the neighbour-sum generator yields them. */
  const Shifts: seq<(int, int)> :=
    [(-1, -1), (-1, 0), (-1, 1), (0, -1), (0, 1), (1, -1), (1, 0), (1, 1)]

  /**
   The per-cell value of the sum of the board rolled by each shift: rolling
   by i along rows and by j along columns moves the value of cell
   (r - i, c - j) to (r, c). The sum is a left fold, as the built-in sum is.
   */
  function RolledSum(g: Board, rows: int, cols: int, r: int, c: int, shifts: seq<(int, int)>): (sum: int)
    requires Shaped(g, rows, cols) && rows > 0 && cols > 0
    ensures Binary(g) ==> 0 <= sum <= |shifts|
  {
    if shifts == [] then 0
    else
      var s := shifts[|shifts| - 1];
      var v := At(g, rows, cols, r - s.0, c - s.1);
      assert Binary(g) ==> v == 0 || v == 1 by {
        if Binary(g) {
          AtIsBit(g, rows, cols, r - s.0, c - s.1);
        }
      }
      RolledSum(g, rows, cols, r, c, shifts[..|shifts| - 1]) + v
  }

  /** The offsets (di, dj) of the Moore neighbourhood, row by row. */
  const Moore: seq<(int, int)> :=
    [(-1, -1), (-1, 0), (-1, 1), (0, -1), (0, 1), (1, -1), (1, 0), (1, 1)]

  /** How many of the cells (r + di, c + dj), for (di, dj) in `offsets`, are alive. */
  function CountLive(g: Board, rows: int, cols: int, r: int, c: int, offsets: seq<(int, int)>): (n: int)
    requires Shaped(g, rows, cols) && rows > 0 && cols > 0
    ensures 0 <= n <= |offsets|
  {
    if offsets == [] then 0
    else
      var d := offsets[0];
      (if At(g, rows, cols, r + d.0, c + d.1) == 1 then 1 else 0)
      + CountLive(g, rows, cols, r, c, offsets[1..])
  }

  /** The number of live Moore neighbours of (r, c) on the torus. */
  function LiveNeighbours(g: Board, rows: int, cols: int, r: int, c: int): (n: int)
    requires Shaped(g, rows, cols) && rows > 0 && cols > 0
    ensures 0 <= n <= 8
  {
    CountLive(g, rows, cols, r, c, Moore)
  }

  /** B3/S23: a live cell survives with 2 or 3 live neighbours, a dead one is born with 3. */
  predicate Survives(alive: bool, n: int) {
    if alive then n == 2 || n == 3 else n == 3
  }

  /** The rolled sum over the eight shifts, written out term by term. */
  lemma RolledSumUnfolded(g: Board, rows: int, cols: int, r: int, c: int)
    requires Shaped(g, rows, cols) && rows > 0 && cols > 0
    ensures RolledSum(g, rows, cols, r, c, Shifts)
         == At(g, rows, cols, r + 1, c + 1) + At(g, rows, cols, r + 1, c) + At(g, rows, cols, r + 1, c - 1)
          + At(g, rows, cols, r, c + 1) + At(g, rows, cols, r, c - 1)
          + At(g, rows, cols, r - 1, c + 1) + At(g, rows, cols, r - 1, c) + At(g, rows, cols, r - 1, c - 1)
  {
    var s1 := [(-1, -1)];
    var s2 := s1 + [(-1, 0)];
    var s3 := s2 + [(-1, 1)];
    var s4 := s3 + [(0, -1)];
    var s5 := s4 + [(0, 1)];
    var s6 := s5 + [(1, -1)];
    var s7 := s6 + [(1, 0)];
    assert Shifts == s7 + [(1, 1)];
    assert [] == s1[..0];
    assert RolledSum(g, rows, cols, r, c, s1) == At(g, rows, cols, r + 1, c + 1);
    assert s1 == s2[..1];
    assert RolledSum(g, rows, cols, r, c, s2) == RolledSum(g, rows, cols, r, c, s1) + At(g, rows, cols, r + 1, c);
    assert s2 == s3[..2];
    assert RolledSum(g, rows, cols, r, c, s3) == RolledSum(g, rows, cols, r, c, s2) + At(g, rows, cols, r + 1, c - 1);
    assert s3 == s4[..3];
    assert RolledSum(g, rows, cols, r, c, s4) == RolledSum(g, rows, cols, r, c, s3) + At(g, rows, cols, r, c + 1);
    assert s4 == s5[..4];
    assert RolledSum(g, rows, cols, r, c, s5) == RolledSum(g, rows, cols, r, c, s4) + At(g, rows, cols, r, c - 1);
    assert s5 == s6[..5];
    assert RolledSum(g, rows, cols, r, c, s6) == RolledSum(g, rows, cols, r, c, s5) + At(g, rows, cols, r - 1, c + 1);
    assert s6 == s7[..6];
    assert RolledSum(g, rows, cols, r, c, s7) == RolledSum(g, rows, cols, r, c, s6) + At(g, rows, cols, r - 1, c);
    assert s7 == Shifts[..7];
    assert RolledSum(g, rows, cols, r, c, Shifts) == RolledSum(g, rows, cols, r, c, s7) + At(g, rows, cols, r - 1, c - 1);
  }

  /** On a binary board every wrapped cell is 0 or 1. */
  lemma AtIsBit(g: Board, rows: int, cols: int, r: int, c: int)
    requires IsBoard(g, rows, cols) && rows > 0 && cols > 0
    ensures At(g, rows, cols, r, c) == 0 || At(g, rows, cols, r, c) == 1
  {
  }

  /** On a binary board, counting the first offset as live adds its value. */
  lemma CountLiveFirst(g: Board, rows: int, cols: int, r: int, c: int, offsets: seq<(int, int)>)
    requires IsBoard(g, rows, cols) && rows > 0 && cols > 0 && offsets != []
    ensures CountLive(g, rows, cols, r, c, offsets)
         == At(g, rows, cols, r + offsets[0].0, c + offsets[0].1) + CountLive(g, rows, cols, r, c, offsets[1..])
  {
  }

  /** Counting over a list of offsets splits at any point into the two parts' counts. */
  lemma {:induction false} CountLiveSplit(g: Board, rows: int, cols: int, r: int, c: int, offsets: seq<(int, int)>, k: int)
    requires Shaped(g, rows, cols) && rows > 0 && cols > 0 && 0 <= k <= |offsets|
    ensures CountLive(g, rows, cols, r, c, offsets)
         == CountLive(g, rows, cols, r, c, offsets[..k]) + CountLive(g, rows, cols, r, c, offsets[k..])
  {
    if k > 0 {
      CountLiveSplit(g, rows, cols, r, c, offsets[1..], k - 1);
      assert offsets[..k][1..] == offsets[1..][..k - 1];
      assert offsets[1..][k - 1..] == offsets[k..];
    } else {
      assert offsets[..k] == [] && offsets[k..] == offsets;
    }
  }

  /** The live count over four offsets, written out term by term. */
  lemma CountLiveFour(g: Board, rows: int, cols: int, r: int, c: int,
                      d1: (int, int), d2: (int, int), d3: (int, int), d4: (int, int))
    requires IsBoard(g, rows, cols) && rows > 0 && cols > 0
    ensures CountLive(g, rows, cols, r, c, [d1, d2, d3, d4])
         == At(g, rows, cols, r + d1.0, c + d1.1) + At(g, rows, cols, r + d2.0, c + d2.1)
          + At(g, rows, cols, r + d3.0, c + d3.1) + At(g, rows, cols, r + d4.0, c + d4.1)
  {
    assert [d1, d2, d3, d4][1..] == [d2, d3, d4];
    assert [d2, d3, d4][1..] == [d3, d4];
    assert [d3, d4][1..] == [d4];
    assert [d4][1..] == [];
    CountLiveFirst(g, rows, cols, r, c, [d4]);
    CountLiveFirst(g, rows, cols, r, c, [d3, d4]);
    CountLiveFirst(g, rows, cols, r, c, [d2, d3, d4]);
    CountLiveFirst(g, rows, cols, r, c, [d1, d2, d3, d4]);
  }

  /** The live count over the Moore offsets, written out term by term. */
  lemma CountLiveUnfolded(g: Board, rows: int, cols: int, r: int, c: int)
    requires IsBoard(g, rows, cols) && rows > 0 && cols > 0
    ensures LiveNeighbours(g, rows, cols, r, c)
         == At(g, rows, cols, r - 1, c - 1) + At(g, rows, cols, r - 1, c) + At(g, rows, cols, r - 1, c + 1)
          + At(g, rows, cols, r, c - 1) + At(g, rows, cols, r, c + 1)
          + At(g, rows, cols, r + 1, c - 1) + At(g, rows, cols, r + 1, c) + At(g, rows, cols, r + 1, c + 1)
  {
    CountLiveSplit(g, rows, cols, r, c, Moore, 4);
    assert Moore[..4] == [(-1, -1), (-1, 0), (-1, 1), (0, -1)];
    assert Moore[4..] == [(0, 1), (1, -1), (1, 0), (1, 1)];
    CountLiveFour(g, rows, cols, r, c, (-1, -1), (-1, 0), (-1, 1), (0, -1));
    CountLiveFour(g, rows, cols, r, c, (0, 1), (1, -1), (1, 0), (1, 1));
  }

  /**
   The neighbour sum of `ConwaysGame.update` at a cell equals the number of live Moore
   neighbours: rolling by (i, j) reads the neighbour at offset (-i, -j), and
   on a binary board summing values counts the live ones.
   */
  lemma RolledSumCountsNeighbours(g: Board, rows: int, cols: int, r: int, c: int)
    requires IsBoard(g, rows, cols) && rows > 0 && cols > 0
    ensures RolledSum(g, rows, cols, r, c, Shifts) == LiveNeighbours(g, rows, cols, r, c)
    ensures 0 <= RolledSum(g, rows, cols, r, c, Shifts) <= 8
  {
    RolledSumUnfolded(g, rows, cols, r, c);
    CountLiveUnfolded(g, rows, cols, r, c);
  }

  /**
   The new value of cell (r, c): the rule as `ConwaysGame.update` writes it, applied to
   the rolled neighbour sum of the OLD board. It is 1 exactly when B3/S23
   holds for the cell and its live Moore neighbours.
   */
  function NextCell(g: Board, rows: int, cols: int, r: int, c: int): (v: int)
    requires IsBoard(g, rows, cols) && 0 <= r < rows && 0 <= c < cols
    ensures v == (if Survives(g[r][c] == 1, LiveNeighbours(g, rows, cols, r, c)) then 1 else 0)
  {
    RolledSumCountsNeighbours(g, rows, cols, r, c);
    var n := RolledSum(g, rows, cols, r, c, Shifts);
    if (g[r][c] == 1 && (n == 2 || n == 3)) || (g[r][c] == 0 && n == 3) then 1 else 0
  }

  /**
   One generation. Every cell is computed from the old board only, so the
   update is simultaneous; the result is again a binary rows x cols board,
   and cell (r, c) is alive exactly when B3/S23 says so for its live Moore
   neighbours on the torus.
   */
  function Step(g: Board, rows: int, cols: int): (next: Board)
    requires IsBoard(g, rows, cols)
    ensures IsBoard(next, rows, cols)
    ensures forall r, c | 0 <= r < rows && 0 <= c < cols ::
              next[r][c] == (if Survives(g[r][c] == 1, LiveNeighbours(g, rows, cols, r, c)) then 1 else 0)
  {
    seq(rows, r requires 0 <= r < rows =>
      seq(cols, c requires 0 <= c < cols => NextCell(g, rows, cols, r, c)))
  }

  /** The 3 x 3 window of values centred on (r, c), row by row, wrapping around. */
  function Window(g: Board, rows: int, cols: int, r: int, c: int): (w: seq<int>)
    requires Shaped(g, rows, cols) && rows > 0 && cols > 0
    ensures |w| == 9
  {
    seq(9, k => At(g, rows, cols, r + k / 3 - 1, c + k % 3 - 1))
  }

  /**
   The next value of a cell depends on nothing but its own 3 x 3 window of
   the old board: two boards that agree there agree on the cell next time.
   */
  lemma StepIsLocal(g: Board, h: Board, rows: int, cols: int, r: int, c: int)
    requires IsBoard(g, rows, cols) && IsBoard(h, rows, cols)
    requires 0 <= r < rows && 0 <= c < cols
    requires Window(g, rows, cols, r, c) == Window(h, rows, cols, r, c)
    ensures Step(g, rows, cols)[r][c] == Step(h, rows, cols)[r][c]
  {
    NeighboursFromWindow(g, rows, cols, r, c);
    NeighboursFromWindow(h, rows, cols, r, c);
    assert g[r][c] == h[r][c];
    assert LiveNeighbours(g, rows, cols, r, c) == LiveNeighbours(h, rows, cols, r, c);
  }

  /** The centre and the live-neighbour count of a cell are read off its window. */
  lemma NeighboursFromWindow(g: Board, rows: int, cols: int, r: int, c: int)
    requires IsBoard(g, rows, cols)
    requires 0 <= r < rows && 0 <= c < cols
    ensures var w := Window(g, rows, cols, r, c);
      && g[r][c] == w[4]
      && LiveNeighbours(g, rows, cols, r, c) == w[0] + w[1] + w[2] + w[3] + w[5] + w[6] + w[7] + w[8]
  {
    WindowEntries(g, rows, cols, r, c);
    CountLiveUnfolded(g, rows, cols, r, c);
    var w := Window(g, rows, cols, r, c);
    assert w[4] == At(g, rows, cols, r, c);
    AtInRange(g, rows, cols, r, c);
    assert w[0] + w[1] + w[2] + w[3] + w[5] + w[6] + w[7] + w[8]
        == At(g, rows, cols, r - 1, c - 1) + At(g, rows, cols, r - 1, c) + At(g, rows, cols, r - 1, c + 1)
         + At(g, rows, cols, r, c - 1) + At(g, rows, cols, r, c + 1)
         + At(g, rows, cols, r + 1, c - 1) + At(g, rows, cols, r + 1, c) + At(g, rows, cols, r + 1, c + 1);
  }

  /** What wrapping does to an index on the board and its two neighbours. */
  lemma WrapStep(x: int, n: int)
    requires 0 <= x < n
    ensures Wrap(x, n) == x
    ensures Wrap(x - 1, n) == (if x == 0 then n - 1 else x - 1)
    ensures Wrap(x + 1, n) == (if x == n - 1 then 0 else x + 1)
  {
  }

  /** The index before x on a cycle of length n. */
  function Prev(x: int, n: int): (p: int)
    requires 0 <= x < n
    ensures 0 <= p < n
  {
    if x == 0 then n - 1 else x - 1
  }

  /** The index after x on a cycle of length n. */
  function Next(x: int, n: int): (p: int)
    requires 0 <= x < n
    ensures 0 <= p < n
  {
    if x == n - 1 then 0 else x + 1
  }

  /**
   For a cell on the board, its eight toroidal neighbours are the cells one
   row and one column before or after it, where "before" row 0 is the last
   row and "after" the last row is row 0 (and likewise for columns).
   */
  lemma NeighboursOnBoard(g: Board, rows: int, cols: int, r: int, c: int)
    requires IsBoard(g, rows, cols) && 0 <= r < rows && 0 <= c < cols
    ensures var rp, rn, cp, cn := Prev(r, rows), Next(r, rows), Prev(c, cols), Next(c, cols);
      LiveNeighbours(g, rows, cols, r, c)
      == g[rp][cp] + g[rp][c] + g[rp][cn] + g[r][cp] + g[r][cn] + g[rn][cp] + g[rn][c] + g[rn][cn]
  {
    CountLiveUnfolded(g, rows, cols, r, c);
    WrapStep(r, rows);
    WrapStep(c, cols);
  }

  /** Inside the board no wrapping happens. */
  lemma AtInRange(g: Board, rows: int, cols: int, r: int, c: int)
    requires Shaped(g, rows, cols) && 0 <= r < rows && 0 <= c < cols
    ensures At(g, rows, cols, r, c) == g[r][c]
  {
  }

  /** The nine entries of a window, one by one. */
  lemma WindowEntries(g: Board, rows: int, cols: int, r: int, c: int)
    requires Shaped(g, rows, cols) && rows > 0 && cols > 0
    ensures Window(g, rows, cols, r, c)
         == [At(g, rows, cols, r - 1, c - 1), At(g, rows, cols, r - 1, c), At(g, rows, cols, r - 1, c + 1),
             At(g, rows, cols, r, c - 1), At(g, rows, cols, r, c), At(g, rows, cols, r, c + 1),
             At(g, rows, cols, r + 1, c - 1), At(g, rows, cols, r + 1, c), At(g, rows, cols, r + 1, c + 1)]
  {
  }

  /**
   Wrap-around makes opposite corners neighbours: the top-left entry of the
   window of (0, 0) is the cell (rows - 1, cols - 1), and the bottom-right
   entry of the window of (rows - 1, cols - 1) is the cell (0, 0).
   */
  lemma CornersAreNeighbours(g: Board, rows: int, cols: int)
    requires Shaped(g, rows, cols) && rows > 0 && cols > 0
    ensures Window(g, rows, cols, 0, 0)[0] == g[rows - 1][cols - 1]
    ensures Window(g, rows, cols, rows - 1, cols - 1)[8] == g[0][0]
  {
    WrapStep(0, rows);
    WrapStep(0, cols);
    WrapStep(rows - 1, rows);
    WrapStep(cols - 1, cols);
  }

  /** Two boards of the same shape are equal when they agree on every cell. */
  lemma SameCells(g: Board, h: Board, rows: int, cols: int)
    requires Shaped(g, rows, cols) && Shaped(h, rows, cols)
    requires forall r, c | 0 <= r < rows && 0 <= c < cols :: g[r][c] == h[r][c]
    ensures g == h
  {
    assert forall r | 0 <= r < rows :: g[r] == h[r];
  }

  /** The state of the simulation: the board and its fixed dimensions. */
  datatype Game = Game(rows: int, cols: int, grid: Board)

  /** A game whose board is a binary rows x cols matrix. */
  predicate Valid(game: Game) {
    IsBoard(game.grid, game.rows, game.cols)
  }

  /**
   Advances the game one generation: the board is replaced as a whole, the
   dimensions never change, and every cell follows B3/S23.
   */
  function Update(game: Game): (next: Game)
    requires Valid(game)
    ensures Valid(next)
    ensures next.rows == game.rows && next.cols == game.cols
    ensures forall r, c | 0 <= r < game.rows && 0 <= c < game.cols ::
              (next.grid[r][c] == 1 <==> Survives(game.grid[r][c] == 1, LiveNeighbours(game.grid, game.rows, game.cols, r, c)))
  {
    Game(game.rows, game.cols, Step(game.grid, game.rows, game.cols))
  }
}
