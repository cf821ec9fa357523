/**
 * The grid update of the canvas's pointer handler: when the board is
 * interactive and the pointer is over a cell, a copy of the grid with that
 * cell set alive is handed to the board's setter. Painting never toggles a
 * cell off. The canvas works on whatever rectangular grid it is given.
 */
module Canvas {
  import opened Wrappers

  /** The canvas keeps its own synonym: it is not tied to the simulation's
      fixed shape and works on any rectangular grid. */
  type Grid = seq<seq<bool>>

  /** Every row is as long as the first one. */
  predicate Rectangular(g: Grid) {
    forall i :: 0 <= i < |g| ==> |g[i]| == |g[0]|
  }

  /** The handler's bounds check, with the width taken from the first row. */
  predicate OnBoard(g: Grid, row: int, col: int) {
    0 <= row < |g| && 0 <= col < |g[0]|
  }

  /** g with cell (row, col) alive; the same grid when (row, col) is off the board. */
  function Painted(g: Grid, row: int, col: int): (r: Grid)
    requires Rectangular(g)
    ensures |r| == |g| && forall i :: 0 <= i < |g| ==> |r[i]| == |g[i]|
    ensures OnBoard(g, row, col) ==> r[row][col]
    ensures forall i, j :: 0 <= i < |g| && 0 <= j < |g[i]| && (i, j) != (row, col) ==> r[i][j] == g[i][j]
    ensures !OnBoard(g, row, col) ==> r == g
  {
    if OnBoard(g, row, col) then g[row := g[row][col := true]] else g
  }

  /** One pointer event over (row, col): the new grid passed to the setter, or
      None when the board is not interactive or the point is off the board. */
  method HandleInteraction(grid: Grid, interactive: bool, row: int, col: int) returns (update: Option<Grid>)
    requires Rectangular(grid)
    ensures update.Some? <==> interactive && OnBoard(grid, row, col)
    ensures update.Some? ==> update.value == Painted(grid, row, col)
  {
    if !interactive {
      return None;
    }
    if row >= 0 && row < |grid| && col >= 0 && col < |grid[0]| {
      var newGrid := grid;
      var newRow := newGrid[row];
      newRow := newRow[col := true];
      newGrid := newGrid[row := newRow];
      update := Some(newGrid);
    } else {
      update := None;
    }
  }

  /** Painting keeps the grid rectangular with the same width. */
  lemma PaintedIsRectangular(g: Grid, row: int, col: int)
    requires Rectangular(g)
    ensures Rectangular(Painted(g, row, col))
    ensures |g| > 0 ==> |Painted(g, row, col)[0]| == |g[0]|
  {
  }

  /** Painting the same cell twice is painting it once: a drag that passes over
      a cell again leaves it alive and changes nothing else. */
  lemma PaintIsIdempotent(g: Grid, row: int, col: int)
    requires Rectangular(g)
    ensures Painted(Painted(g, row, col), row, col) == Painted(g, row, col)
  {
    var p := Painted(g, row, col);
    if OnBoard(g, row, col) {
      assert p[row][col := true] == p[row];
    }
  }

  /** The order in which a drag visits two cells does not matter. */
  lemma PaintCommutes(g: Grid, r1: int, c1: int, r2: int, c2: int)
    requires Rectangular(g)
    ensures Painted(Painted(g, r1, c1), r2, c2) == Painted(Painted(g, r2, c2), r1, c1)
  {
    var a := Painted(Painted(g, r1, c1), r2, c2);
    var b := Painted(Painted(g, r2, c2), r1, c1);
    forall i | 0 <= i < |g| ensures a[i] == b[i] {
      assert forall j :: 0 <= j < |g[i]| ==> a[i][j] == b[i][j];
    }
  }

  /** Painting never kills a cell: every live cell stays alive. */
  lemma PaintKeepsLiveCells(g: Grid, row: int, col: int, i: int, j: int)
    requires Rectangular(g)
    requires 0 <= i < |g| && 0 <= j < |g[i]| && g[i][j]
    ensures Painted(g, row, col)[i][j]
  {
  }
}
