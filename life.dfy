/**
 * The pure part of the simulation: the board's fixed shape, the empty grid,
 * the eight neighbour offsets, the neighbour count with hard edges, the
 * birth/survival rule and the whole-board next generation, together with
 * the "board is all dead" check used by the paint-here overlay.
 */
module Life {

  /** Board dimensions of the simulation. */
  const ROWS: nat := 40
  const COLS: nat := 60

  /** A board, row-major: g[row][col] is true when that cell is alive. */
  type Grid = seq<seq<bool>>

  /** A grid of the simulation's fixed shape: ROWS rows of COLS cells each. */
  predicate WellShaped(g: Grid) {
    |g| == ROWS && forall i :: 0 <= i < |g| ==> |g[i]| == COLS
  }

  /** Every cell of every row is dead (the nested `every` of the overlay check). */
  predicate AllDead(g: Grid)
    ensures AllDead(g) <==> forall i :: 0 <= i < |g| ==> true !in g[i]
  {
    forall i, j :: 0 <= i < |g| && 0 <= j < |g[i]| ==> !g[i][j]
  }

  /** The all-dead board the game starts with and clears to. */
  function EmptyGrid(): (g: Grid)
    ensures WellShaped(g) && AllDead(g)
  {
    seq(ROWS, _ => seq(COLS, _ => false))
  }

  /** Whether (r, c) is a live cell of g. A coordinate outside the board is dead:
      the edges are hard and nothing wraps around. */
  predicate Live(g: Grid, r: int, c: int)
    requires WellShaped(g)
  {
    0 <= r < ROWS && 0 <= c < COLS && g[r][c]
  }

  /** The neighbour offsets (row, column), in the order the step visits them. */
  const Operations: seq<(int, int)> :=
    [(0, 1), (0, -1), (1, -1), (-1, 1), (1, 1), (-1, -1), (1, 0), (-1, 0)]

  /** One of the eight displacements of the Moore neighbourhood. */
  predicate MooreOffset(d: (int, int)) {
    -1 <= d.0 <= 1 && -1 <= d.1 <= 1 && d != (0, 0)
  }

  function Count(b: bool): nat {
    if b then 1 else 0
  }

  /** The number of the first k offsets of the table that lead from (i, j) to
      a live cell of g, accumulated in table order. */
  function LiveAmong(g: Grid, i: int, j: int, k: nat): (n: nat)
    requires WellShaped(g) && k <= |Operations|
    ensures n <= k
  {
    if k == 0 then 0
    else
      var d := Operations[k - 1];
      LiveAmong(g, i, j, k - 1) + Count(Live(g, i + d.0, j + d.1))
  }

  /** The number of live neighbours of (i, j): a count over the whole offset table. */
  function NeighborCount(g: Grid, i: int, j: int): (n: nat)
    requires WellShaped(g)
    ensures n <= 8
  {
    LiveAmong(g, i, j, |Operations|)
  }

  /** The eight neighbours of (i, j) listed row by row: a reference count that
      does not depend on the offset table. */
  function MooreCount(g: Grid, i: int, j: int): nat
    requires WellShaped(g)
  {
    Count(Live(g, i - 1, j - 1)) + Count(Live(g, i - 1, j)) + Count(Live(g, i - 1, j + 1)) +
    Count(Live(g, i, j - 1)) + Count(Live(g, i, j + 1)) +
    Count(Live(g, i + 1, j - 1)) + Count(Live(g, i + 1, j)) + Count(Live(g, i + 1, j + 1))
  }

  /** The next state of one cell, written as the step decides it: outside 2..3
      neighbours the cell is dead, a dead cell with exactly 3 is born, and
      otherwise the cell keeps its state. */
  function NextCell(alive: bool, neighbors: nat): (r: bool)
    ensures alive && (neighbors < 2 || neighbors > 3) ==> !r
    ensures alive && (neighbors == 2 || neighbors == 3) ==> r
    ensures !alive ==> (r <==> neighbors == 3)
  {
    if neighbors < 2 || neighbors > 3 then false
    else if !alive && neighbors == 3 then true
    else alive
  }

  /** The next state of cell (i, j), read from the pre-step grid only. */
  function NextCellAt(g: Grid, i: int, j: int): bool
    requires WellShaped(g)
    requires 0 <= i < ROWS && 0 <= j < COLS
  {
    NextCell(g[i][j], NeighborCount(g, i, j))
  }

  /** The whole next generation: every cell computed from the pre-step grid. */
  function NextGeneration(g: Grid): (r: Grid)
    requires WellShaped(g)
    ensures WellShaped(r)
  {
    seq(ROWS, i requires 0 <= i < ROWS => seq(COLS, j requires 0 <= j < COLS => NextCellAt(g, i, j)))
  }

  /** The offset table is exactly the Moore neighbourhood: eight distinct
      non-zero displacements, and every such displacement is in it. */
  lemma OperationsAreMoore()
    ensures |Operations| == 8
    ensures forall k :: 0 <= k < |Operations| ==> MooreOffset(Operations[k])
    ensures forall k, m :: 0 <= k < m < |Operations| ==> Operations[k] != Operations[m]
    ensures forall d :: MooreOffset(d) ==> d in Operations
  {
  }

  /** Counting over the offset table gives the same number as the row-by-row
      reference count: every neighbour is counted once and nothing else is. */
  lemma NeighborCountIsMooreCount(g: Grid, i: int, j: int)
    requires WellShaped(g)
    ensures NeighborCount(g, i, j) == MooreCount(g, i, j)
  {
    assert LiveAmong(g, i, j, 8) == LiveAmong(g, i, j, 7) + Count(Live(g, i - 1, j));
    assert LiveAmong(g, i, j, 7) == LiveAmong(g, i, j, 6) + Count(Live(g, i + 1, j));
    assert LiveAmong(g, i, j, 6) == LiveAmong(g, i, j, 5) + Count(Live(g, i - 1, j - 1));
    assert LiveAmong(g, i, j, 5) == LiveAmong(g, i, j, 4) + Count(Live(g, i + 1, j + 1));
    assert LiveAmong(g, i, j, 4) == LiveAmong(g, i, j, 3) + Count(Live(g, i - 1, j + 1));
    assert LiveAmong(g, i, j, 3) == LiveAmong(g, i, j, 2) + Count(Live(g, i + 1, j - 1));
    assert LiveAmong(g, i, j, 2) == LiveAmong(g, i, j, 1) + Count(Live(g, i, j - 1));
    assert LiveAmong(g, i, j, 1) == LiveAmong(g, i, j, 0) + Count(Live(g, i, j + 1));
  }

  /** Two grids that agree in the eight cells around (i, j) give (i, j) the same
      neighbour count: only the adjacent cells matter, so a cell on one edge
      never sees a cell on the opposite edge. */
  lemma NeighborCountIsLocal(g: Grid, h: Grid, i: int, j: int)
    requires WellShaped(g) && WellShaped(h)
    requires forall a, b :: i - 1 <= a <= i + 1 && j - 1 <= b <= j + 1 && (a, b) != (i, j) ==>
               Live(g, a, b) == Live(h, a, b)
    ensures NeighborCount(g, i, j) == NeighborCount(h, i, j)
  {
    NeighborCountIsMooreCount(g, i, j);
    NeighborCountIsMooreCount(h, i, j);
  }

  /** A cell of the next generation depends only on the cell itself and its
      eight neighbours in the pre-step grid. */
  lemma NextCellIsLocal(g: Grid, h: Grid, i: int, j: int)
    requires WellShaped(g) && WellShaped(h)
    requires 0 <= i < ROWS && 0 <= j < COLS
    requires forall a, b :: i - 1 <= a <= i + 1 && j - 1 <= b <= j + 1 ==> Live(g, a, b) == Live(h, a, b)
    ensures NextGeneration(g)[i][j] == NextGeneration(h)[i][j]
  {
    NeighborCountIsLocal(g, h, i, j);
    assert Live(g, i, j) == Live(h, i, j);
  }

  /** Two well-shaped grids that agree cell by cell are the same grid. */
  lemma SameCellsSameGrid(g: Grid, h: Grid)
    requires WellShaped(g) && WellShaped(h)
    requires forall a, b :: 0 <= a < ROWS && 0 <= b < COLS ==> g[a][b] == h[a][b]
    ensures g == h
  {
    forall a | 0 <= a < ROWS ensures g[a] == h[a] {
      assert forall b :: 0 <= b < COLS ==> g[a][b] == h[a][b];
    }
  }

  /** A well-shaped grid is all dead exactly when it is the empty grid. */
  lemma AllDeadIffEmpty(g: Grid)
    requires WellShaped(g)
    ensures AllDead(g) <==> g == EmptyGrid()
  {
    if AllDead(g) {
      SameCellsSameGrid(g, EmptyGrid());
    }
  }

  /** On an all-dead board no cell has a live neighbour. */
  lemma AllDeadHasNoNeighbors(g: Grid, i: int, j: int)
    requires WellShaped(g) && AllDead(g)
    ensures NeighborCount(g, i, j) == 0
  {
    NeighborCountIsMooreCount(g, i, j);
  }

  /** The empty board is a still life: its next generation is empty again. */
  lemma EmptyIsStill()
    ensures NextGeneration(EmptyGrid()) == EmptyGrid()
  {
    var e := EmptyGrid();
    var n := NextGeneration(e);
    forall i, j | 0 <= i < ROWS && 0 <= j < COLS ensures !n[i][j] {
      AllDeadHasNoNeighbors(e, i, j);
    }
    AllDeadIffEmpty(n);
  }
}
