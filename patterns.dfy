/**
 * Small patterns whose evolution shows the rule and the hard edges at work:
 * a lone cell dies wherever it stands, corners included, and a blinker
 * (three cells in a line) oscillates with period two.
 */
module Patterns {
  import opened Life

  /** The board whose live cells are exactly the on-board members of s. */
  function Cells(s: set<(int, int)>): (g: Grid)
    ensures WellShaped(g)
    ensures forall a, b :: Live(g, a, b) <==> 0 <= a < ROWS && 0 <= b < COLS && (a, b) in s
  {
    seq(ROWS, i => seq(COLS, j => (i, j) in s))
  }

  /** A single live cell has no live neighbour, wherever it stands, so it dies
      of underpopulation and the board becomes empty. At a corner this needs
      the hard edges: the opposite corner is not a neighbour. */
  lemma LoneCellDies(r: int, c: int)
    requires 0 <= r < ROWS && 0 <= c < COLS
    ensures NextGeneration(Cells({(r, c)})) == EmptyGrid()
  {
    var g := Cells({(r, c)});
    var n := NextGeneration(g);
    forall i, j | 0 <= i < ROWS && 0 <= j < COLS ensures !n[i][j] {
      NeighborCountIsMooreCount(g, i, j);
      assert NeighborCount(g, i, j) <= 1;
    }
    AllDeadIffEmpty(n);
  }

  /** A vertical bar of three cells centred on (r, c). */
  function Vertical(r: int, c: int): set<(int, int)> {
    {(r - 1, c), (r, c), (r + 1, c)}
  }

  /** A horizontal bar of three cells centred on (r, c). */
  function Horizontal(r: int, c: int): set<(int, int)> {
    {(r, c - 1), (r, c), (r, c + 1)}
  }

  /** One cell of the vertical blinker's next generation. */
  lemma VerticalCell(r: int, c: int, i: int, j: int)
    requires 1 <= r < ROWS - 1 && 1 <= c < COLS - 1
    requires 0 <= i < ROWS && 0 <= j < COLS
    ensures NextCellAt(Cells(Vertical(r, c)), i, j) == ((i, j) in Horizontal(r, c))
  {
    NeighborCountIsMooreCount(Cells(Vertical(r, c)), i, j);
  }

  /** One cell of the horizontal blinker's next generation. */
  lemma HorizontalCell(r: int, c: int, i: int, j: int)
    requires 1 <= r < ROWS - 1 && 1 <= c < COLS - 1
    requires 0 <= i < ROWS && 0 <= j < COLS
    ensures NextCellAt(Cells(Horizontal(r, c)), i, j) == ((i, j) in Vertical(r, c))
  {
    NeighborCountIsMooreCount(Cells(Horizontal(r, c)), i, j);
  }

  /** Away from the edges, a vertical blinker turns into a horizontal one and
      back, so it repeats every second generation. */
  lemma BlinkerHasPeriodTwo(r: int, c: int)
    requires 1 <= r < ROWS - 1 && 1 <= c < COLS - 1
    ensures NextGeneration(Cells(Vertical(r, c))) == Cells(Horizontal(r, c))
    ensures NextGeneration(Cells(Horizontal(r, c))) == Cells(Vertical(r, c))
    ensures NextGeneration(NextGeneration(Cells(Vertical(r, c)))) == Cells(Vertical(r, c))
  {
    forall i, j | 0 <= i < ROWS && 0 <= j < COLS
      ensures NextGeneration(Cells(Vertical(r, c)))[i][j] == Cells(Horizontal(r, c))[i][j]
    {
      VerticalCell(r, c, i, j);
    }
    SameCellsSameGrid(NextGeneration(Cells(Vertical(r, c))), Cells(Horizontal(r, c)));
    forall i, j | 0 <= i < ROWS && 0 <= j < COLS
      ensures NextGeneration(Cells(Horizontal(r, c)))[i][j] == Cells(Vertical(r, c))[i][j]
    {
      HorizontalCell(r, c, i, j);
    }
    SameCellsSameGrid(NextGeneration(Cells(Horizontal(r, c))), Cells(Vertical(r, c)));
  }

  /** A dead cell with exactly three live neighbours is born; with two or four
      it stays dead. Shown on the cell (r, c) with neighbours taken from the
      row above it. */
  lemma BirthNeedsThree(r: int, c: int)
    requires 1 <= r < ROWS && 1 <= c < COLS - 1
    ensures NextGeneration(Cells({(r - 1, c - 1), (r - 1, c), (r - 1, c + 1)}))[r][c]
    ensures !NextGeneration(Cells({(r - 1, c - 1), (r - 1, c)}))[r][c]
    ensures !NextGeneration(Cells({(r - 1, c - 1), (r - 1, c), (r - 1, c + 1), (r, c - 1)}))[r][c]
  {
    NeighborCountIsMooreCount(Cells({(r - 1, c - 1), (r - 1, c), (r - 1, c + 1)}), r, c);
    NeighborCountIsMooreCount(Cells({(r - 1, c - 1), (r - 1, c)}), r, c);
    NeighborCountIsMooreCount(Cells({(r - 1, c - 1), (r - 1, c), (r - 1, c + 1), (r, c - 1)}), r, c);
  }
}
