/** The answer check of the main loop's prompt: "quit" in any letter case,
    otherwise a 1-based "row,col" inside the field naming a cell that is not
    open yet, shifted to 0-based coordinates. */
module Turn {
  import opened Text
  import opened Field

  /** One answer typed at the prompt: its text, and the two integers that
      `(int)` of `sscanf($text, "%d,%d")` yields (0 where nothing was read). */
  datatype TurnInput = TurnInput(text: string, row: int, col: int)

  /** The two ways an answer is refused (the prompt is then repeated). */
  datatype Rejection = WrongInput | AlreadyOpened

  datatype Answer = Quit | Rejected(reason: Rejection) | Move(cell: Cell)

  predicate IsQuit(text: string)
  {
    ToLower(text) == "quit"
  }

  /** 1 <= row <= rows and 1 <= col <= cols. */
  predicate OnBoard(t: TurnInput, rows: int, cols: int)
  {
    1 <= t.row <= rows && 1 <= t.col <= cols
  }

  /** The prompt's answer check. An accepted cell lies on the field and is
      not open yet, so it can be handed to the reveal step. */
  function ValidateTurn(t: TurnInput, rows: int, cols: int, openedCells: set<Cell>): (a: Answer)
    ensures a == Quit <==> IsQuit(t.text)
    ensures a == Rejected(WrongInput) <==> !IsQuit(t.text) && !OnBoard(t, rows, cols)
    ensures a == Rejected(AlreadyOpened) <==>
              !IsQuit(t.text) && OnBoard(t, rows, cols) && Cell(t.row - 1, t.col - 1) in openedCells
    ensures a.Move? ==> a.cell == Cell(t.row - 1, t.col - 1)
    ensures a.Move? ==> InGrid(a.cell, rows, cols) && a.cell !in openedCells
  {
    if IsQuit(t.text) then Quit
    else if t.row < 1 || t.row > rows || t.col < 1 || t.col > cols then Rejected(WrongInput)
    else if Cell(t.row - 1, t.col - 1) in openedCells then Rejected(AlreadyOpened)
    else Move(Cell(t.row - 1, t.col - 1))
  }

  /** "quit" is recognised whatever its letter case; "2,4" on a 3 x 4 field
      with nothing open selects 0-based cell (1, 3); row 0 (also what an
      unreadable answer gives) is refused. */
  lemma TurnExamples()
    ensures ValidateTurn(TurnInput("QUIT", 0, 0), 3, 3, {}) == Quit
    ensures ValidateTurn(TurnInput("Quit", 0, 0), 3, 3, {}) == Quit
    ensures ValidateTurn(TurnInput("2,4", 2, 4), 3, 4, {}) == Move(Cell(1, 3))
    ensures ValidateTurn(TurnInput("2,4", 2, 4), 3, 4, {Cell(1, 3)}) == Rejected(AlreadyOpened)
    ensures ValidateTurn(TurnInput("x", 0, 0), 3, 3, {}) == Rejected(WrongInput)
  {
    assert ToLower("QUIT") == "quit";
    assert ToLower("Quit") == "quit";
    assert ToLower("2,4") != "quit" by { assert |ToLower("2,4")| == 3; }
    assert ToLower("x") != "quit" by { assert |ToLower("x")| == 1; }
  }
}
