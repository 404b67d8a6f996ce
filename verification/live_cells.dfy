/**
 Enumeration of the live cells of a board: every (row, col) holding 1,
 row by row and, inside a row, column by column.
 */
module LiveCells {
  import opened Life

  /** Row-major order on cell coordinates: row first, then column. */
  predicate Before(p: (int, int), q: (int, int)) {
    p.0 < q.0 || (p.0 == q.0 && p.1 < q.1)
  }

  /** `cells` is strictly increasing in row-major order (so it has no duplicates). */
  predicate StrictlyRowMajor(cells: seq<(int, int)>) {
    forall i, j | 0 <= i < j < |cells| :: Before(cells[i], cells[j])
  }

  /** The coordinates of all cells of `g` that hold 1. */
  function LiveSet(g: Board): set<(int, int)> {
    set r, c | 0 <= r < |g| && 0 <= c < |g[r]| && g[r][c] == 1 :: (r, c)
  }

  /** The live cells of one row `row`, found at board row `r`, in column order. */
  function LiveInRow(row: seq<int>, r: int): (cells: seq<(int, int)>)
    ensures forall p :: p in cells <==> p.0 == r && 0 <= p.1 < |row| && row[p.1] == 1
    ensures StrictlyRowMajor(cells)
  {
    if row == [] then []
    else
      var c := |row| - 1;
      LiveInRow(row[..c], r) + (if row[c] == 1 then [(r, c)] else [])
  }

  /**
   The live cells of the board: exactly the coordinates holding 1, each once,
   in row-major order.
   */
  function LiveCells(g: Board): (cells: seq<(int, int)>)
    ensures forall p :: p in cells <==> 0 <= p.0 < |g| && 0 <= p.1 < |g[p.0]| && g[p.0][p.1] == 1
    ensures StrictlyRowMajor(cells)
  {
    if g == [] then []
    else
      var r := |g| - 1;
      var prefix := LiveCells(g[..r]);
      var last := LiveInRow(g[r], r);
      assert forall i | 0 <= i < |prefix| :: prefix[i].0 < r;
      prefix + last
  }

  /** A sequence without duplicates has as many elements as its set of elements. */
  lemma {:induction false} DistinctCardinality(s: seq<(int, int)>)
    requires StrictlyRowMajor(s)
    ensures |set p | p in s| == |s|
  {
    if s != [] {
      var n := |s| - 1;
      DistinctCardinality(s[..n]);
      assert (set p | p in s) == (set p | p in s[..n]) + {s[n]};
      assert s[n] !in s[..n];
    }
  }

  /** The number of live cells listed is the number of cells holding 1. */
  lemma LiveCellsCount(g: Board)
    ensures |LiveCells(g)| == |LiveSet(g)|
  {
    var cells := LiveCells(g);
    DistinctCardinality(cells);
    assert (set p | p in cells) == LiveSet(g);
  }

  /** The live cells of the game's current board, as many as there are cells holding 1. */
  function LiveCellsOf(game: Game): (cells: seq<(int, int)>)
    requires Valid(game)
    ensures forall p :: p in cells <==> 0 <= p.0 < game.rows && 0 <= p.1 < game.cols && game.grid[p.0][p.1] == 1
    ensures StrictlyRowMajor(cells)
    ensures |cells| == |LiveSet(game.grid)|
  {
    LiveCellsCount(game.grid);
    LiveCells(game.grid)
  }
}
