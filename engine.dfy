/** The game state of the command and the steps that change it: building
    the field, revealing a cell, and the main loop that feeds answers to the
    reveal step until the game is over or the player quits. */
module Engine {
  import opened Field
  import opened Turn
  import Config

  datatype Outcome = Win | Loss

  /** How the main loop ends: the player typed "quit", the game is over, or
      (in this model only) the answers ran out. */
  datatype Ending = PlayerQuit | Finished(outcome: Outcome) | InputExhausted

  /** The text the main loop prints last. */
  function EndingText(e: Ending): (t: string)
    ensures t == "Buy!" <==> e == PlayerQuit
    ensures t == "You Win!" <==> e == Finished(Win)
    ensures t == "Game Over!" <==> e == Finished(Loss)
  {
    match e
    case PlayerQuit => "Buy!"
    case Finished(Win) => "You Win!"
    case Finished(Loss) => "Game Over!"
    case InputExhausted => ""
  }

  /** What the main loop keeps track of between answers. */
  datatype Play = Play(openedCells: set<Cell>, gameOver: bool, quit: bool)

  /** One answer of the main loop on a field of the given shape: "quit"
      stops, a refused answer changes nothing, an accepted cell is revealed
      (a mine ends the game unrecorded; any other cell is recorded as open)
      and the game is also over once the open cells and the mines fill the
      field. */
  function Step(field: seq<seq<int>>, rows: int, cols: int, mines: int, p: Play, t: TurnInput): Play
    requires Shaped(field, rows, cols)
  {
    match ValidateTurn(t, rows, cols, p.openedCells)
    case Quit => p.(quit := true)
    case Rejected(_) => p
    case Move(cell) =>
      var mine := field[cell.row][cell.col] == -1;
      var shown := if mine then p.openedCells else p.openedCells + {cell};
      Play(shown, p.gameOver || mine || |shown| + mines == rows * cols, p.quit)
  }

  /** The main loop over the answers given in turn: it stops once the game
      is over, the player has quit, or the answers run out. */
  function Run(field: seq<seq<int>>, rows: int, cols: int, mines: int, p: Play, inputs: seq<TurnInput>): Play
    requires Shaped(field, rows, cols)
    decreases |inputs|
  {
    if p.gameOver || p.quit || |inputs| == 0 then p
    else Run(field, rows, cols, mines, Step(field, rows, cols, mines, p, inputs[0]), inputs[1..])
  }

  /** One answer never closes a cell, never restarts a finished game, opens
      at most one cell and only a safe one, and stops the loop exactly when
      it is "quit". */
  lemma StepProperties(field: seq<seq<int>>, rows: int, cols: int, mines: int, p: Play, t: TurnInput)
    requires Shaped(field, rows, cols)
    ensures var q := Step(field, rows, cols, mines, p, t);
            && p.openedCells <= q.openedCells && (p.gameOver ==> q.gameOver)
            && q.openedCells - p.openedCells <= SafeCells(field)
            && |q.openedCells| <= |p.openedCells| + 1
            && (q.quit <==> p.quit || IsQuit(t.text))
  {
    var q := Step(field, rows, cols, mines, p, t);
    if ValidateTurn(t, rows, cols, p.openedCells).Move? {
      assert q.openedCells - p.openedCells <= {ValidateTurn(t, rows, cols, p.openedCells).cell};
    }
  }

  /** The whole loop: open cells only grow and are all safe, a finished
      game stays finished, and the loop only stops for "quit" when one of
      the answers was "quit". */
  lemma {:induction false} RunProperties(field: seq<seq<int>>, rows: int, cols: int, mines: int, p: Play, inputs: seq<TurnInput>)
    requires Shaped(field, rows, cols)
    ensures var q := Run(field, rows, cols, mines, p, inputs);
            && p.openedCells <= q.openedCells && (p.gameOver ==> q.gameOver) && (p.quit ==> q.quit)
            && q.openedCells - p.openedCells <= SafeCells(field)
            && (q.quit && !p.quit ==> exists j :: 0 <= j < |inputs| && IsQuit(inputs[j].text))
    decreases |inputs|
  {
    if !(p.gameOver || p.quit || |inputs| == 0) {
      var p' := Step(field, rows, cols, mines, p, inputs[0]);
      StepProperties(field, rows, cols, mines, p, inputs[0]);
      RunProperties(field, rows, cols, mines, p', inputs[1..]);
      var q := Run(field, rows, cols, mines, p', inputs[1..]);
      if q.quit && !p.quit {
        if p'.quit {
          assert IsQuit(inputs[0].text);
        } else {
          var j :| 0 <= j < |inputs[1..]| && IsQuit(inputs[1..][j].text);
          assert IsQuit(inputs[j + 1].text);
        }
      }
    }
  }

  class Game {
    var rows: int
    var cols: int
    var mines: int
    /** `$field[r][c]`: -1 for a mine, otherwise the number of mines around. */
    var field: seq<seq<int>>
    /** The keys of `$openedCells`. */
    var openedCells: set<Cell>
    var gameOver: bool
    /** Where the mines were put when the field was built. */
    ghost var minePositions: seq<Cell>

    /** The field is the one the mine positions determine, no open cell is
        a mine, and once every safe cell is open the game is over. */
    ghost predicate Valid()
      reads this
    {
      && Config.ValidSettings(cols, rows, mines)
      && Placement(minePositions, rows, cols, mines)
      && field == Layout(rows, cols, minePositions)
      && openedCells <= SafeCells(field)
      && (|openedCells| + mines == rows * cols ==> gameOver)
    }

    /** `execute` stores the validated options, then `initializeGame` runs. */
    constructor (rows: int, cols: int, mines: int, pick: Pick)
      requires Config.ValidSettings(cols, rows, mines) && ValidPick(pick, rows, cols, mines)
      ensures Valid()
      ensures this.rows == rows && this.cols == cols && this.mines == mines
      ensures minePositions == MinePositions(pick)
      ensures openedCells == {} && !gameOver
    {
      this.rows, this.cols, this.mines := rows, cols, mines;
      field, openedCells, gameOver := [], {}, false;
      minePositions := [];
      new;
      InitializeGame(pick);
    }

    /** `initializeGame`: a rows x cols field of zeros, -1 on every drawn
        position, then +1 on every non-mine cell of each mine's clipped 3x3
        block. The random draw of `array_rand` is the parameter `pick`. */
    method InitializeGame(pick: Pick)
      requires Config.ValidSettings(cols, rows, mines) && ValidPick(pick, rows, cols, mines)
      modifies this
      ensures Valid()
      ensures rows == old(rows) && cols == old(cols) && mines == old(mines)
      ensures minePositions == MinePositions(pick)
      ensures field == Layout(rows, cols, MinePositions(pick))
      ensures openedCells == {} && !gameOver
    {
      gameOver := false;
      field := [];
      openedCells := {};
      FillWithZeros();

      var ps := DrawnPositions(pick);
      MarkMines(ps);
      CountMinesAround(ps);
      minePositions := ps;
      assert field == Layout(rows, cols, ps) by {
        forall a | 0 <= a < rows
          ensures field[a] == Layout(rows, cols, ps)[a]
        {
        }
      }
      assert |openedCells| + mines != rows * cols by {
        assert rows * cols == cols * rows;
      }
    }

    /** `$minesPositions`: the key `array_rand` returns when one mine is
        asked for, or each key of the list it returns otherwise. */
    method DrawnPositions(pick: Pick) returns (ps: seq<Cell>)
      requires Config.ValidSettings(cols, rows, mines) && ValidPick(pick, rows, cols, mines)
      ensures ps == MinePositions(pick)
      ensures Placement(ps, rows, cols, mines)
    {
      if mines == 1 {
        ps := [pick.key];
      } else {
        ps := [];
        var i := 0;
        while i < |pick.keys|
          invariant 0 <= i <= |pick.keys| && ps == pick.keys[..i]
        {
          ps := ps + [pick.keys[i]];
          i := i + 1;
        }
        assert pick.keys[..|pick.keys|] == pick.keys;
      }
    }

    /** The first loop of `initializeGame`: every cell set to 0, row by row. */
    method FillWithZeros()
      requires rows >= 0 && cols >= 0 && field == []
      modifies this`field
      ensures Shaped(field, rows, cols)
      ensures forall a, b :: 0 <= a < rows && 0 <= b < cols ==> field[a][b] == 0
    {
      var r := 0;
      while r < rows
        invariant 0 <= r <= rows && |field| == r
        invariant forall a :: 0 <= a < r ==> |field[a]| == cols
        invariant forall a, b :: 0 <= a < r && 0 <= b < |field[a]| ==> field[a][b] == 0
      {
        field := field + [[]];
        var c := 0;
        while c < cols
          invariant 0 <= c <= cols && |field| == r + 1 && |field[r]| == c
          invariant forall a :: 0 <= a < r ==> |field[a]| == cols
          invariant forall a, b :: 0 <= a <= r && 0 <= b < |field[a]| ==> field[a][b] == 0
        {
          field := field[r := field[r] + [0]];
          c := c + 1;
        }
        r := r + 1;
      }
    }

    /** The second loop of `initializeGame`: -1 on every mine position. */
    method MarkMines(ps: seq<Cell>)
      requires Shaped(field, rows, cols)
      requires forall i :: 0 <= i < |ps| ==> InGrid(ps[i], rows, cols)
      requires forall a, b :: 0 <= a < rows && 0 <= b < cols ==> field[a][b] == 0
      modifies this`field
      ensures Shaped(field, rows, cols)
      ensures forall a, b :: 0 <= a < rows && 0 <= b < cols ==>
                field[a][b] == if Cell(a, b) in ps then -1 else 0
    {
      var k := 0;
      while k < |ps|
        invariant 0 <= k <= |ps|
        invariant Shaped(field, rows, cols)
        invariant forall a, b :: 0 <= a < rows && 0 <= b < cols ==>
                    field[a][b] == if Cell(a, b) in ps[..k] then -1 else 0
      {
        assert InGrid(ps[k], rows, cols);
        assert ps[..k + 1] == ps[..k] + [ps[k]];
        field := field[ps[k].row := field[ps[k].row][ps[k].col := -1]];
        k := k + 1;
      }
      assert ps[..|ps|] == ps;
    }

    /** The last loop of `initializeGame`: for each mine in turn, +1 around it. */
    method CountMinesAround(ps: seq<Cell>)
      requires Shaped(field, rows, cols)
      requires forall i :: 0 <= i < |ps| ==> InGrid(ps[i], rows, cols)
      requires forall a, b :: 0 <= a < rows && 0 <= b < cols ==>
                 field[a][b] == if Cell(a, b) in ps then -1 else 0
      modifies this`field
      ensures Shaped(field, rows, cols)
      ensures forall a, b :: 0 <= a < rows && 0 <= b < cols ==>
                field[a][b] == if Cell(a, b) in ps then -1 else MineCount(ps, a, b)
    {
      assert ps[..0] == [];
      var k := 0;
      while k < |ps|
        invariant 0 <= k <= |ps|
        invariant Shaped(field, rows, cols)
        invariant forall a, b :: 0 <= a < rows && 0 <= b < cols ==>
                    field[a][b] == if Cell(a, b) in ps then -1 else MineCount(ps[..k], a, b)
      {
        IncrementAround(ps, k);
        k := k + 1;
      }
      assert ps[..|ps|] == ps;
    }

    /** One pass of the last loop of `initializeGame`: +1 on every cell of
        the clipped 3x3 block around mine ps[k] that is not itself a mine. */
    method IncrementAround(ps: seq<Cell>, k: int)
      requires 0 <= k < |ps| && InGrid(ps[k], rows, cols)
      requires Shaped(field, rows, cols)
      requires forall a, b :: 0 <= a < rows && 0 <= b < cols ==>
                 field[a][b] == if Cell(a, b) in ps then -1 else MineCount(ps[..k], a, b)
      modifies this`field
      ensures Shaped(field, rows, cols)
      ensures forall a, b :: 0 <= a < rows && 0 <= b < cols ==>
                field[a][b] == if Cell(a, b) in ps then -1 else MineCount(ps[..k + 1], a, b)
    {
      var m := ps[k];
      var rHi := if m.row + 1 < rows - 1 then m.row + 1 else rows - 1;
      var cHi := if m.col + 1 < cols - 1 then m.col + 1 else cols - 1;
      var r := if 0 > m.row - 1 then 0 else m.row - 1;
      while r <= rHi
        invariant 0 <= r <= rHi + 1
        invariant Shaped(field, rows, cols)
        invariant forall a, b :: 0 <= a < rows && 0 <= b < cols ==>
                    field[a][b] == if Cell(a, b) in ps then -1
                                   else MineCount(ps[..k], a, b) + (if Near(m, a, b) && a < r then 1 else 0)
      {
        var c := if 0 > m.col - 1 then 0 else m.col - 1;
        while c <= cHi
          invariant 0 <= c <= cHi + 1
          invariant Shaped(field, rows, cols)
          invariant forall a, b :: 0 <= a < rows && 0 <= b < cols ==>
                      field[a][b] == if Cell(a, b) in ps then -1
                                     else MineCount(ps[..k], a, b)
                                          + (if Near(m, a, b) && (a < r || (a == r && b < c)) then 1 else 0)
        {
          if field[r][c] != -1 {
            field := field[r := field[r][c := field[r][c] + 1]];
          }
          c := c + 1;
        }
        r := r + 1;
      }
      assert ps[..k + 1][..k] == ps[..k];
    }

    /** One turn of the main loop after a cell was accepted: a mine ends the
        game and is not recorded; any other cell is recorded as open. Either
        way the game is also over once every safe cell is open. */
    method Reveal(cell: Cell)
      requires Valid() && InGrid(cell, rows, cols)
      modifies this
      ensures Valid()
      ensures rows == old(rows) && cols == old(cols) && mines == old(mines)
      ensures field == old(field) && minePositions == old(minePositions)
      ensures field[cell.row][cell.col] == -1 <==> cell in minePositions
      ensures field[cell.row][cell.col] == -1 ==> openedCells == old(openedCells)
      ensures field[cell.row][cell.col] != -1 ==> openedCells == old(openedCells) + {cell}
      ensures gameOver <==> old(gameOver) || field[cell.row][cell.col] == -1 || |openedCells| + mines == rows * cols
    {
      LayoutCell(rows, cols, minePositions, cell.row, cell.col);
      if field[cell.row][cell.col] == -1 {
        gameOver := true;
      } else {
        openedCells := openedCells + {cell};
      }
      if |openedCells| + mines == rows * cols {
        gameOver := true;
      }
    }

    /** The outcome the main loop announces once the game is over: a win
        exactly when every safe cell has been opened. */
    function Outcome(): (o: Outcome)
      reads this
      requires Valid() && gameOver
      ensures o == Win <==> openedCells == SafeCells(field)
    {
      WinIffAllSafeOpened(rows, cols, minePositions, openedCells);
      if |openedCells| + mines == rows * cols then Win else Loss
    }

    /** One pass of `mainGameLoop`'s body for one answer: the answer check,
        then "quit" or the reveal of the accepted cell; a refused answer
        changes nothing. */
    method PlayTurn(t: TurnInput) returns (quit: bool)
      requires Valid() && !gameOver
      modifies this
      ensures Valid()
      ensures rows == old(rows) && cols == old(cols) && mines == old(mines)
      ensures field == old(field) && minePositions == old(minePositions)
      ensures Shaped(field, rows, cols)
      ensures Play(openedCells, gameOver, quit)
              == Step(field, rows, cols, mines, Play(old(openedCells), old(gameOver), false), t)
      ensures quit ==> !gameOver
    {
      assert Shaped(field, rows, cols);
      quit := false;
      var answer := ValidateTurn(t, rows, cols, openedCells);
      match answer {
        case Quit =>
          quit := true;
        case Rejected(_) =>
        case Move(cell) =>
          Reveal(cell);
      }
    }

    /** `mainGameLoop`, fed with the answers the player gives in turn. A
        refused answer only asks again, "quit" stops the loop, an accepted
        cell is revealed; the loop ends when the game is over. The state it
        leaves is the one `Run` describes, and its ending announces a win
        exactly when every safe cell is open. */
    method MainGameLoop(inputs: seq<TurnInput>) returns (ending: Ending)
      requires Valid()
      modifies this
      ensures Valid()
      ensures rows == old(rows) && cols == old(cols) && mines == old(mines)
      ensures field == old(field) && minePositions == old(minePositions)
      ensures var q := Run(field, rows, cols, mines, Play(old(openedCells), old(gameOver), false), inputs);
              && openedCells == q.openedCells && gameOver == q.gameOver
              && (ending.Finished? <==> q.gameOver)
              && (ending == PlayerQuit <==> q.quit && !q.gameOver)
      ensures ending.Finished? ==> (ending.outcome == Win <==> openedCells == SafeCells(field))
      ensures old(openedCells) <= openedCells
      ensures ending == PlayerQuit ==> exists j :: 0 <= j < |inputs| && IsQuit(inputs[j].text)
    {
      assert Shaped(field, rows, cols);
      var quit := false;
      var i := 0;
      while !gameOver && !quit && i < |inputs|
        invariant 0 <= i <= |inputs|
        invariant Valid() && Shaped(field, rows, cols)
        invariant rows == old(rows) && cols == old(cols) && mines == old(mines)
        invariant field == old(field) && minePositions == old(minePositions)
        invariant quit ==> !gameOver
        invariant Run(field, rows, cols, mines, Play(old(openedCells), old(gameOver), false), inputs)
                  == Run(field, rows, cols, mines, Play(openedCells, gameOver, quit), inputs[i..])
        decreases |inputs| - i
      {
        assert inputs[i..][1..] == inputs[i + 1..];
        quit := PlayTurn(inputs[i]);
        i := i + 1;
      }
      RunProperties(field, rows, cols, mines, Play(old(openedCells), old(gameOver), false), inputs);
      if gameOver {
        ending := Finished(Outcome());
      } else if quit {
        ending := PlayerQuit;
      } else {
        ending := InputExhausted;
      }
    }
  }
}
