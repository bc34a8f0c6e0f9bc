/** The game field as a value: cells, the mine placement the random draw
    produces, and the grid of cell values that initialisation must build
    from it (-1 for a mine, otherwise the number of mines around the cell). */
module Field {

  /** A cell `(row, col)`, 0-based; the source keys it as the string "row:col". */
  datatype Cell = Cell(row: int, col: int)

  predicate InGrid(p: Cell, rows: int, cols: int)
  {
    0 <= p.row < rows && 0 <= p.col < cols
  }

  /** p lies in the 3x3 block centred on (r, c), the centre included. */
  predicate Near(p: Cell, r: int, c: int)
  {
    -1 <= p.row - r <= 1 && -1 <= p.col - c <= 1
  }

  predicate Distinct(ps: seq<Cell>)
  {
    forall i, j :: 0 <= i < j < |ps| ==> ps[i] != ps[j]
  }

  /** `mines` distinct cells of a rows x cols grid. */
  predicate Placement(ps: seq<Cell>, rows: int, cols: int, mines: int)
  {
    |ps| == mines && Distinct(ps) && forall i :: 0 <= i < |ps| ==> InGrid(ps[i], rows, cols)
  }

  function Positions(ps: seq<Cell>): set<Cell>
  {
    set p | p in ps
  }

  /** What `array_rand($blankCells, $mines)` returns: a single key when one
      key is asked for, otherwise a list of keys. */
  datatype Pick = SingleKey(key: Cell) | Keys(keys: seq<Cell>)

  /** The mine positions built from the draw (the `$minesPositions` loop). */
  function MinePositions(pick: Pick): seq<Cell>
  {
    match pick
    case SingleKey(k) => [k]
    case Keys(ks) => ks
  }

  /** A draw as `array_rand` delivers it for `mines` keys out of the grid's
      cells: the shape follows the count, and the keys are distinct cells. */
  predicate ValidPick(pick: Pick, rows: int, cols: int, mines: int)
  {
    (mines == 1 <==> pick.SingleKey?) && Placement(MinePositions(pick), rows, cols, mines)
  }

  /** The scalar branch for a single mine and the list branch build the same
      positions from the same key. */
  lemma SingleKeyMatchesKeyList(k: Cell)
    ensures MinePositions(SingleKey(k)) == MinePositions(Keys([k])) == [k]
  {
  }

  /** How many of the positions lie in the 3x3 block around (r, c): the
      number of times the per-mine loop increments that cell. */
  function MineCount(ps: seq<Cell>, r: int, c: int): nat
  {
    if ps == [] then 0
    else MineCount(ps[..|ps| - 1], r, c) + (if Near(ps[|ps| - 1], r, c) then 1 else 0)
  }

  /** The value initialisation leaves in cell (r, c). */
  function CellValue(ps: seq<Cell>, r: int, c: int): int
  {
    if Cell(r, c) in ps then -1 else MineCount(ps, r, c)
  }

  /** rows lists of cols values each. */
  predicate Shaped(g: seq<seq<int>>, rows: int, cols: int)
  {
    |g| == rows && forall a :: 0 <= a < rows ==> |g[a]| == cols
  }

  /** The whole field after initialisation, `$field[r][c]`. */
  function Layout(rows: nat, cols: nat, ps: seq<Cell>): (g: seq<seq<int>>)
    ensures Shaped(g, rows, cols)
  {
    seq(rows, r => seq(cols, c => CellValue(ps, r, c)))
  }

  /** The mines among the positions that lie around (r, c). */
  function NearMines(ps: seq<Cell>, r: int, c: int): set<Cell>
  {
    set p | p in ps && Near(p, r, c)
  }

  /** The cells of a grid that hold -1 in the clipped 3x3 block around (r, c). */
  function MinesAround(g: seq<seq<int>>, r: int, c: int): set<Cell>
  {
    set a, b | r - 1 <= a <= r + 1 && c - 1 <= b <= c + 1 && 0 <= a < |g| && 0 <= b < |g[a]| && g[a][b] == -1
      :: Cell(a, b)
  }

  function MineCells(g: seq<seq<int>>): set<Cell>
  {
    set a, b | 0 <= a < |g| && 0 <= b < |g[a]| && g[a][b] == -1 :: Cell(a, b)
  }

  function SafeCells(g: seq<seq<int>>): set<Cell>
  {
    set a, b | 0 <= a < |g| && 0 <= b < |g[a]| && g[a][b] != -1 :: Cell(a, b)
  }

  function RowCells(a: int, cols: nat): set<Cell>
  {
    set b | 0 <= b < cols :: Cell(a, b)
  }

  function AllCells(rows: nat, cols: nat): set<Cell>
  {
    set a, b | 0 <= a < rows && 0 <= b < cols :: Cell(a, b)
  }

  /** The eight cells around (r, c). */
  function Surrounding(r: int, c: int): set<Cell>
  {
    {Cell(r - 1, c - 1), Cell(r - 1, c), Cell(r - 1, c + 1),
     Cell(r, c - 1), Cell(r, c + 1),
     Cell(r + 1, c - 1), Cell(r + 1, c), Cell(r + 1, c + 1)}
  }

  lemma SubsetCard<T>(a: set<T>, b: set<T>)
    requires a <= b
    ensures |a| <= |b|
  {
    if a != {} {
      var x :| x in a;
      SubsetCard(a - {x}, b - {x});
    }
  }

  /** Distinct positions count as many cells as there are positions. */
  lemma {:induction false} DistinctCard(ps: seq<Cell>)
    requires Distinct(ps)
    ensures |Positions(ps)| == |ps|
  {
    if ps != [] {
      var init := ps[..|ps| - 1];
      var last := ps[|ps| - 1];
      assert ps == init + [last];
      assert Distinct(init);
      DistinctCard(init);
      assert last !in init;
      assert Positions(ps) == Positions(init) + {last};
    }
  }

  /** For distinct positions the per-mine increments count each nearby mine
      once: the count depends on the set of mines only. */
  lemma {:induction false} MineCountIsCard(ps: seq<Cell>, r: int, c: int)
    requires Distinct(ps)
    ensures MineCount(ps, r, c) == |NearMines(ps, r, c)|
  {
    if ps != [] {
      var init := ps[..|ps| - 1];
      var last := ps[|ps| - 1];
      assert ps == init + [last];
      assert Distinct(init);
      MineCountIsCard(init, r, c);
      assert last !in init;
      if Near(last, r, c) {
        assert NearMines(ps, r, c) == NearMines(init, r, c) + {last};
      } else {
        assert NearMines(ps, r, c) == NearMines(init, r, c);
      }
    }
  }

  /** A cell that is not a mine has at most eight mines around it. */
  lemma NearMinesAtMostEight(ps: seq<Cell>, r: int, c: int)
    requires Cell(r, c) !in ps
    ensures |NearMines(ps, r, c)| <= 8
  {
    var around := Surrounding(r, c);
    forall p | p in NearMines(ps, r, c)
      ensures p in around
    {
      assert p != Cell(r, c);
    }
    SubsetCard(NearMines(ps, r, c), around);
  }

  /** Every cell after initialisation: -1 exactly on the mines, and on every
      other cell the number of -1 cells in its clipped 3x3 neighbourhood of
      the same grid, hence a value in 0..8. */
  lemma LayoutCell(rows: nat, cols: nat, ps: seq<Cell>, r: int, c: int)
    requires Placement(ps, rows, cols, |ps|) && 0 <= r < rows && 0 <= c < cols
    ensures Layout(rows, cols, ps)[r][c] == -1 <==> Cell(r, c) in ps
    ensures Cell(r, c) !in ps ==> Layout(rows, cols, ps)[r][c] == |MinesAround(Layout(rows, cols, ps), r, c)|
    ensures -1 <= Layout(rows, cols, ps)[r][c] <= 8
  {
    var g := Layout(rows, cols, ps);
    if Cell(r, c) !in ps {
      MineCountIsCard(ps, r, c);
      NearMinesAtMostEight(ps, r, c);
      forall p | p in NearMines(ps, r, c)
        ensures p in MinesAround(g, r, c)
      {
        var i :| 0 <= i < |ps| && ps[i] == p;
        assert InGrid(ps[i], rows, cols);
        assert g[p.row][p.col] == -1;
      }
      forall p | p in MinesAround(g, r, c)
        ensures p in NearMines(ps, r, c)
      {
        assert g[p.row][p.col] == CellValue(ps, p.row, p.col);
      }
      assert MinesAround(g, r, c) == NearMines(ps, r, c);
    }
  }

  /** The cells holding -1 are exactly the mine positions. */
  lemma MineCellsArePositions(rows: nat, cols: nat, ps: seq<Cell>)
    requires Placement(ps, rows, cols, |ps|)
    ensures MineCells(Layout(rows, cols, ps)) == Positions(ps)
  {
    var g := Layout(rows, cols, ps);
    forall p | p in Positions(ps)
      ensures p in MineCells(g)
    {
      var i :| 0 <= i < |ps| && ps[i] == p;
      assert InGrid(ps[i], rows, cols);
      assert g[p.row][p.col] == -1;
    }
    forall p | p in MineCells(g)
      ensures p in Positions(ps)
    {
      assert g[p.row][p.col] == CellValue(ps, p.row, p.col);
    }
  }

  lemma {:induction false} RowCellsCard(a: int, cols: nat)
    ensures |RowCells(a, cols)| == cols
  {
    if cols > 0 {
      RowCellsCard(a, cols - 1);
      assert RowCells(a, cols) == RowCells(a, cols - 1) + {Cell(a, cols - 1)};
    }
  }

  /** The first rows + 1 rows are the first rows and then row `rows`. */
  lemma AllCellsSplit(rows: nat, cols: nat)
    ensures AllCells(rows + 1, cols) == AllCells(rows, cols) + RowCells(rows, cols)
    ensures AllCells(rows, cols) !! RowCells(rows, cols)
  {
  }

  lemma {:induction false} AllCellsCard(rows: nat, cols: nat)
    ensures |AllCells(rows, cols)| == rows * cols
  {
    if rows > 0 {
      var above, last := AllCells(rows - 1, cols), RowCells(rows - 1, cols);
      assert |AllCells(rows, cols)| == |above| + |last| by {
        AllCellsSplit(rows - 1, cols);
      }
      assert |above| == (rows - 1) * cols by {
        AllCellsCard(rows - 1, cols);
      }
      assert |last| == cols by {
        RowCellsCard(rows - 1, cols);
      }
      assert rows * cols == (rows - 1) * cols + cols;
    }
  }

  /** Exactly `mines` cells hold -1, and the other rows * cols - mines cells
      are the safe ones. */
  lemma MineAndSafeTotals(rows: nat, cols: nat, ps: seq<Cell>)
    requires Placement(ps, rows, cols, |ps|)
    ensures |MineCells(Layout(rows, cols, ps))| == |ps|
    ensures |SafeCells(Layout(rows, cols, ps))| == rows * cols - |ps|
  {
    var g := Layout(rows, cols, ps);
    MineCellsArePositions(rows, cols, ps);
    DistinctCard(ps);
    AllCellsCard(rows, cols);
    assert AllCells(rows, cols) == MineCells(g) + SafeCells(g);
    assert MineCells(g) !! SafeCells(g);
  }

  /** While no mine has been shown, the count test of the main loop
      (`count($openedCells) + $mines == $rows * $cols`) holds exactly when
      every safe cell has been shown. */
  lemma WinIffAllSafeOpened(rows: nat, cols: nat, ps: seq<Cell>, shown: set<Cell>)
    requires Placement(ps, rows, cols, |ps|)
    requires shown <= SafeCells(Layout(rows, cols, ps))
    ensures |shown| + |ps| <= rows * cols
    ensures |shown| + |ps| == rows * cols <==> shown == SafeCells(Layout(rows, cols, ps))
  {
    var safe := SafeCells(Layout(rows, cols, ps));
    MineAndSafeTotals(rows, cols, ps);
    SubsetCard(shown, safe);
    if |shown| + |ps| == rows * cols {
      assert safe == shown + (safe - shown);
      assert shown !! (safe - shown);
      assert safe - shown == {};
    }
  }

  /** The order in which the mines are processed does not matter: two
      listings of the same distinct positions give the same field. */
  lemma LayoutOrderIndependent(rows: nat, cols: nat, ps: seq<Cell>, qs: seq<Cell>)
    requires Distinct(ps) && Distinct(qs) && Positions(ps) == Positions(qs)
    ensures Layout(rows, cols, ps) == Layout(rows, cols, qs)
  {
    forall r, c | 0 <= r < rows && 0 <= c < cols
      ensures CellValue(ps, r, c) == CellValue(qs, r, c)
    {
      MineCountIsCard(ps, r, c);
      MineCountIsCard(qs, r, c);
      forall p
        ensures p in NearMines(ps, r, c) <==> p in NearMines(qs, r, c)
      {
        assert p in ps <==> p in Positions(ps);
        assert p in qs <==> p in Positions(qs);
      }
      assert NearMines(ps, r, c) == NearMines(qs, r, c);
      assert Cell(r, c) in ps <==> Cell(r, c) in Positions(ps);
      assert Cell(r, c) in qs <==> Cell(r, c) in Positions(qs);
    }
    var g, h := Layout(rows, cols, ps), Layout(rows, cols, qs);
    forall r | 0 <= r < rows
      ensures g[r] == h[r]
    {
    }
  }

  /** The reference field of the initialisation test: a 3x3 grid with mines
      at (0,0) and (2,2). */
  lemma ExampleLayout()
    ensures Layout(3, 3, [Cell(0, 0), Cell(2, 2)]) == [[-1, 1, 0], [1, 2, 1], [0, 1, -1]]
  {
    var ps := [Cell(0, 0), Cell(2, 2)];
    assert ps[..1] == [Cell(0, 0)];
    assert [Cell(0, 0)][..0] == [];
    var g := Layout(3, 3, ps);
    assert g[0] == [-1, 1, 0];
    assert g[1] == [1, 2, 1];
    assert g[2] == [0, 1, -1];
  }
}
