/** The prompt's answer check as the command writes it. It refuses a row or
    column that is 0 or beyond the field but lets a negative one through;
    the reveal step then looks up a cell that does not exist, finds no
    mine there and records it as opened. Enough such answers make the open
    count reach the winning total without a single real cell being opened.
    `Turn.ValidateTurn` is the corrected check the engine uses. */
module Findings {
  import opened Text
  import opened Field
  import opened Turn

  /** The answer check with the command's range test: only 0 and values
      past the last row or column are refused. */
  function ValidateTurnAsWritten(t: TurnInput, rows: int, cols: int, openedCells: set<Cell>): (a: Answer)
    ensures a.Move? ==> a.cell == Cell(t.row - 1, t.col - 1) && a.cell !in openedCells
    ensures a.Move? ==> a.cell.row < rows && a.cell.col < cols
  {
    if IsQuit(t.text) then Quit
    else if t.row == 0 || t.row > rows || t.col == 0 || t.col > cols then Rejected(WrongInput)
    else if Cell(t.row - 1, t.col - 1) in openedCells then Rejected(AlreadyOpened)
    else Move(Cell(t.row - 1, t.col - 1))
  }

  /** The two checks give different answers exactly for a non-"quit"
      answer whose row and column are non-zero and not past the field but
      one of them is negative; everywhere else they agree. */
  lemma AsWrittenDiffersOnNegatives(t: TurnInput, rows: int, cols: int, openedCells: set<Cell>)
    ensures ValidateTurnAsWritten(t, rows, cols, openedCells) != ValidateTurn(t, rows, cols, openedCells)
            <==> !IsQuit(t.text) && t.row != 0 && t.col != 0 && t.row <= rows && t.col <= cols
                 && (t.row < 0 || t.col < 0)
    ensures ValidateTurnAsWritten(t, rows, cols, openedCells) != ValidateTurn(t, rows, cols, openedCells)
            ==> ValidateTurn(t, rows, cols, openedCells) == Rejected(WrongInput)
  {
  }

  /** Whether the reveal step's lookup `$field[row][col] == -1` holds. A
      cell outside the field reads as PHP `null`, which is not equal to -1. */
  predicate LooksLikeMine(g: seq<seq<int>>, p: Cell)
  {
    0 <= p.row < |g| && 0 <= p.col < |g[p.row]| && g[p.row][p.col] == -1
  }

  datatype RevealState = RevealState(openedCells: set<Cell>, gameOver: bool)

  /** The reveal step applied to whatever cell the check accepted, the
      field lookup included. */
  function RevealAsWritten(g: seq<seq<int>>, openedCells: set<Cell>, gameOver: bool, mines: int, rows: int, cols: int, p: Cell): (s: RevealState)
    ensures openedCells <= s.openedCells
    ensures p.row < 0 || p.col < 0 ==> s.openedCells == openedCells + {p}
    ensures gameOver ==> s.gameOver
  {
    var mine := LooksLikeMine(g, p);
    var shown := if mine then openedCells else openedCells + {p};
    RevealState(shown, gameOver || mine || |shown| + mines == rows * cols)
  }

  /** On the 1 x 2 field with its one mine in the first cell, the answer
      "-1,1" is accepted as 0-based cell (-2, 0), the reveal step records
      that cell, the open count plus the mine count equals the field size,
      and the game ends as a win although the one safe cell, (0, 1), was
      never opened. The corrected check refuses the same answer. */
  lemma NegativeCoordinatesWin()
    ensures var g := Layout(1, 2, [Cell(0, 0)]);
            var t := TurnInput("-1,1", -1, 1);
            var a := ValidateTurnAsWritten(t, 1, 2, {});
            && a == Move(Cell(-2, 0))
            && var s := RevealAsWritten(g, {}, false, 1, 1, 2, a.cell);
            && s.gameOver
            && |s.openedCells| + 1 == 1 * 2
            && Cell(0, 1) in SafeCells(g) && Cell(0, 1) !in s.openedCells
            && ValidateTurn(t, 1, 2, {}) == Rejected(WrongInput)
  {
    var g := Layout(1, 2, [Cell(0, 0)]);
    assert ToLower("-1,1") != "quit" by {
      assert ToLower("-1,1")[0] == LowerChar('-') == '-';
    }
    LayoutCell(1, 2, [Cell(0, 0)], 0, 1);
    assert g[0][1] != -1;
    assert Cell(0, 1) in SafeCells(g);
    var s := RevealAsWritten(g, {}, false, 1, 1, 2, Cell(-2, 0));
    assert s.openedCells == {Cell(-2, 0)};
  }
}
