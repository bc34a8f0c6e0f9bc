/** The command's own game scenarios on a 3 x 3 field with two mines, whose
    random draw put them in the top-left and bottom-right corners. */
module Scenarios {
  import opened Text
  import opened Field
  import opened Turn
  import opened Engine
  import opened Render

  /** The field built for that draw. */
  function Grid(): seq<seq<int>>
  {
    [[-1, 1, 0], [1, 2, 1], [0, 1, -1]]
  }

  function Corners(): Pick
  {
    Keys([Cell(0, 0), Cell(2, 2)])
  }

  /** The safe cells, in the order the seven answers open them. */
  function SafeOrder(): seq<Cell>
  {
    [Cell(0, 1), Cell(0, 2), Cell(1, 0), Cell(1, 1), Cell(1, 2), Cell(2, 0), Cell(2, 1)]
  }

  /** The answer a player types for 0-based cell p of a small field: the
      1-based row, a comma, the 1-based column. */
  function Typed(p: Cell): (t: TurnInput)
    requires 0 <= p.row < 9 && 0 <= p.col < 9
    ensures |t.text| == 3 && Cell(t.row - 1, t.col - 1) == p
  {
    TurnInput([DigitChar(p.row + 1), ',', DigitChar(p.col + 1)], p.row + 1, p.col + 1)
  }

  /** The seven answers that open every safe cell: "1,2", "1,3", "2,1",
      "2,2", "2,3", "3,1", "3,2". */
  function WinInputs(): seq<TurnInput>
  {
    seq(7, k requires 0 <= k < 7 => Typed(SafeOrder()[k]))
  }

  lemma NotQuit(s: string)
    requires |s| != 4
    ensures !IsQuit(s)
  {
    assert |ToLower(s)| == |s|;
  }

  /** Revealing a safe cell that is not open yet, before the last one. */
  lemma SafeStep(shown: set<Cell>, t: TurnInput, rest: seq<TurnInput>)
    requires |t.text| == 3 && 1 <= t.row <= 3 && 1 <= t.col <= 3
    requires Grid()[t.row - 1][t.col - 1] != -1
    requires Cell(t.row - 1, t.col - 1) !in shown
    requires |shown| + 1 + 2 != 9
    ensures Run(Grid(), 3, 3, 2, Play(shown, false, false), [t] + rest)
            == Run(Grid(), 3, 3, 2, Play(shown + {Cell(t.row - 1, t.col - 1)}, false, false), rest)
  {
    assert Shaped(Grid(), 3, 3);
    NotQuit(t.text);
    assert ([t] + rest)[1..] == rest;
  }

  /** Revealing the last safe cell that is not open yet wins the game. */
  lemma LastSafeStep(shown: set<Cell>, t: TurnInput)
    requires |t.text| == 3 && 1 <= t.row <= 3 && 1 <= t.col <= 3
    requires Grid()[t.row - 1][t.col - 1] != -1
    requires Cell(t.row - 1, t.col - 1) !in shown
    requires |shown| + 1 + 2 == 9
    ensures Run(Grid(), 3, 3, 2, Play(shown, false, false), [t])
            == Play(shown + {Cell(t.row - 1, t.col - 1)}, true, false)
  {
    assert Shaped(Grid(), 3, 3);
    NotQuit(t.text);
    assert [t][1..] == [];
  }

  /** The cells the first k answers open. */
  function OpenedAfter(k: nat): set<Cell>
    requires k <= 7
  {
    if k == 0 then {} else OpenedAfter(k - 1) + {SafeOrder()[k - 1]}
  }

  /** Row-major position of a cell on the 3 x 3 field. */
  function Key(p: Cell): int
  {
    3 * p.row + p.col
  }

  /** The safe cells are listed in row-major order. */
  lemma SafeOrderIncreasing(i: nat)
    requires i < 6
    ensures Key(SafeOrder()[i]) < Key(SafeOrder()[i + 1])
  {
  }

  /** Each answer opens a cell that was not open yet, so after k + 1
      answers exactly k + 1 cells are open. */
  lemma {:induction false} OpenedAfterStep(k: nat)
    requires k < 7
    ensures forall p | p in OpenedAfter(k) :: Key(p) < Key(SafeOrder()[k])
    ensures SafeOrder()[k] !in OpenedAfter(k)
    ensures |OpenedAfter(k + 1)| == k + 1
  {
    if k > 0 {
      OpenedAfterStep(k - 1);
      SafeOrderIncreasing(k - 1);
    }
  }

  /** Answer k names safe cell k of `SafeOrder` and is not "quit". */
  lemma WinInput(k: nat)
    requires k < 7
    ensures var t := WinInputs()[k];
            && |t.text| == 3 && 1 <= t.row <= 3 && 1 <= t.col <= 3
            && Cell(t.row - 1, t.col - 1) == SafeOrder()[k]
            && Grid()[t.row - 1][t.col - 1] != -1
  {
  }

  /** The seventh answer opens the last safe cell and wins the game. */
  lemma LastWinFrom()
    ensures Run(Grid(), 3, 3, 2, Play(OpenedAfter(6), false, false), WinInputs()[6..])
            == Play(OpenedAfter(7), true, false)
  {
    var ins := WinInputs();
    var t := ins[6];
    var shown := OpenedAfter(6);
    var cell := Cell(t.row - 1, t.col - 1);
    assert |t.text| == 3 && 1 <= t.row <= 3 && 1 <= t.col <= 3 && cell == SafeOrder()[6]
           && Grid()[t.row - 1][t.col - 1] != -1 by {
      WinInput(6);
    }
    assert OpenedAfter(7) == shown + {cell} && cell !in shown && |OpenedAfter(7)| == 7 by {
      OpenedAfterStep(6);
    }
    assert ins[6..] == [t];
    LastSafeStep(shown, t);
  }

  /** After the first k of the seven answers, the remaining ones open the
      remaining safe cells one by one and the last one ends the game with
      the open cells and the mines filling the field. */
  lemma {:induction false} WinFrom(k: nat)
    requires k <= 6
    ensures Run(Grid(), 3, 3, 2, Play(OpenedAfter(k), false, false), WinInputs()[k..])
            == Play(OpenedAfter(7), true, false)
    decreases 6 - k
  {
    if k == 6 {
      LastWinFrom();
    } else {
      var ins := WinInputs();
      var t := ins[k];
      var shown := OpenedAfter(k);
      var cell := Cell(t.row - 1, t.col - 1);
      assert |t.text| == 3 && 1 <= t.row <= 3 && 1 <= t.col <= 3 && cell == SafeOrder()[k]
             && Grid()[t.row - 1][t.col - 1] != -1 by {
        WinInput(k);
      }
      assert OpenedAfter(k + 1) == shown + {cell} && cell !in shown && |OpenedAfter(k + 1)| == k + 1 by {
        OpenedAfterStep(k);
      }
      assert ins[k..] == [t] + ins[k + 1..] by {
        assert ins[k..][0] == t && ins[k..][1..] == ins[k + 1..];
      }
      SafeStep(shown, t, ins[k + 1..]);
      WinFrom(k + 1);
    }
  }

  /** From the built field with nothing open, the seven answers end the
      game with all seven safe cells open. */
  lemma WinGameRun(field: seq<seq<int>>, rows: int, cols: int, mines: int, shown: set<Cell>)
    requires field == Grid() && rows == 3 && cols == 3 && mines == 2 && shown == {}
    ensures Run(field, rows, cols, mines, Play(shown, false, false), WinInputs()) == Play(OpenedAfter(7), true, false)
    ensures |OpenedAfter(7)| + mines == rows * cols
  {
    var ins := WinInputs();
    assert Shaped(field, rows, cols);
    assert Run(field, rows, cols, mines, Play(shown, false, false), ins) == Play(OpenedAfter(7), true, false) by {
      var start: nat := 0;
      assert OpenedAfter(start) == shown;
      assert ins[start..] == ins;
      WinFrom(start);
    }
    assert |OpenedAfter(7)| == 7 by {
      OpenedAfterStep(6);
    }
  }

  /** Answering "1,1" hits the mine in the corner: the game is over with
      nothing opened. */
  lemma LoseGameRun()
    ensures var q := Run(Grid(), 3, 3, 2, Play({}, false, false), [TurnInput("1,1", 1, 1)]);
            q == Play({}, true, false)
  {
    NotQuit("1,1");
    assert Step(Grid(), 3, 3, 2, Play({}, false, false), TurnInput("1,1", 1, 1)) == Play({}, true, false);
  }

  /** "QUIT" after one safe cell stops the loop with that cell open and the
      game still running. */
  lemma QuitRun()
    ensures var q := Run(Grid(), 3, 3, 2, Play({}, false, false), [TurnInput("2,2", 2, 2), TurnInput("QUIT", 0, 0), TurnInput("1,1", 1, 1)]);
            q == Play({Cell(1, 1)}, false, true)
  {
    var rest := [TurnInput("QUIT", 0, 0), TurnInput("1,1", 1, 1)];
    assert [TurnInput("2,2", 2, 2), TurnInput("QUIT", 0, 0), TurnInput("1,1", 1, 1)] == [TurnInput("2,2", 2, 2)] + rest;
    SafeStep({}, TurnInput("2,2", 2, 2), rest);
    assert ToLower("QUIT") == "quit";
  }

  /** The field the command builds for the corner draw, with no cell open
      and the game running. */
  method InitializeGameScenario() returns (game: Game)
    ensures fresh(game) && game.Valid()
    ensures game.rows == 3 && game.cols == 3 && game.mines == 2
    ensures game.field == Grid() && !game.gameOver && game.openedCells == {}
  {
    ExampleLayout();
    game := new Game(3, 3, 2, Corners());
  }

  /** The seven answers win. */
  method WinGameScenario() returns (ending: Ending)
    ensures ending == Finished(Win)
  {
    var game := InitializeGameScenario();
    ghost var before := game.openedCells;
    ending := game.MainGameLoop(WinInputs());
    WinGameRun(game.field, game.rows, game.cols, game.mines, before);
    assert game.openedCells == SafeCells(game.field) by {
      WinIffAllSafeOpened(game.rows, game.cols, game.minePositions, game.openedCells);
    }
  }

  /** Opening the top-left corner loses. */
  method LoseGameScenario() returns (ending: Ending)
    ensures ending == Finished(Loss)
  {
    var game := InitializeGameScenario();
    ending := game.MainGameLoop([TurnInput("1,1", 1, 1)]);
    LoseGameRun();
    LayoutCell(3, 3, game.minePositions, 0, 1);
    assert Cell(0, 1) in SafeCells(game.field);
  }

  /** "QUIT" ends the loop without an outcome. */
  method QuitScenario() returns (ending: Ending)
    ensures ending == PlayerQuit
  {
    var game := InitializeGameScenario();
    ending := game.MainGameLoop([TurnInput("2,2", 2, 2), TurnInput("QUIT", 0, 0), TurnInput("1,1", 1, 1)]);
    QuitRun();
  }

  lemma SmallNumbers()
    ensures NatToString(1) == "1" && NatToString(2) == "2" && NatToString(3) == "3"
    ensures IntToString(0) == "0" && IntToString(1) == "1" && IntToString(2) == "2"
  {
    assert DigitChar(0) == '0' && DigitChar(1) == '1' && DigitChar(2) == '2' && DigitChar(3) == '3';
  }

  /** A one-character text right-aligned in a field of 3. */
  lemma PadThree(s: string)
    requires |s| == 1
    ensures PadLeft(s, 3) == "  " + s
  {
    assert Repeat(' ', 2) == "  " by {
      RepeatChars(' ', 2);
    }
  }

  lemma ConcatThree(a: string, b: string, c: string)
    ensures Concat([a, b, c]) == a + b + c
  {
    assert [a, b, c][1..] == [b, c];
    assert [b, c][1..] == [c];
    assert [c][1..] == [];
    assert Concat([c]) == c + "" == c;
    assert Concat([b, c]) == b + c;
    assert Concat([a, b, c]) == a + (b + c);
  }

  /** The header of a 3 x 3 field: column width 3, row labels of width 2. */
  lemma SmallHeader(g: seq<seq<int>>, shown: set<Cell>, gameOver: bool)
    requires Shaped(g, 3, 3)
    ensures ColumnWidth(3) == 3 && RowHeaderWidth(3) == 2
    ensures RenderField(g, shown, 3, 3, gameOver)[..2] == ["    1  2  3", "  _________"]
  {
    SmallNumbers();
    PadThree("1");
    PadThree("2");
    PadThree("3");
    assert ColumnWidth(3) == 3;
    var labels := ColumnLabels(3);
    assert labels[0] == "  1" && labels[1] == "  2" && labels[2] == "  3";
    assert labels == ["  1", "  2", "  3"];
    ConcatThree("  1", "  2", "  3");
    assert Repeat(' ', 2) == "  " by {
      RepeatChars(' ', 2);
    }
    assert Repeat('_', 9) == "_________" by {
      RepeatChars('_', 9);
    }
    assert NumbersLine(3) == "  1  2  3";
    var lines := RenderField(g, shown, 3, 3, gameOver);
    assert lines[0] == "  " + "  1  2  3" == "    1  2  3";
    assert lines[1] == "  " + "_________" == "  _________";
  }

  /** Row r of a 3 x 3 field: its one-digit label, "|", then its three
      one-character fields, each right-aligned in 3 characters. */
  lemma SmallRow(g: seq<seq<int>>, shown: set<Cell>, gameOver: bool, r: nat, d: char, c0: char, c1: char, c2: char)
    requires Shaped(g, 3, 3) && r < 3 && NatToString(r + 1) == [d]
    requires CellText(g[r][0], Cell(r, 0) in shown, gameOver) == [c0]
    requires CellText(g[r][1], Cell(r, 1) in shown, gameOver) == [c1]
    requires CellText(g[r][2], Cell(r, 2) in shown, gameOver) == [c2]
    ensures RowLine(g, shown, 3, 3, gameOver, r) == [d, '|', ' ', ' ', c0, ' ', ' ', c1, ' ', ' ', c2]
  {
    SmallNumbers();
    PadThree([c0]);
    PadThree([c1]);
    PadThree([c2]);
    assert RowFields(g, shown, 3, gameOver, r) == ["  " + [c0], "  " + [c1], "  " + [c2]];
    ConcatThree("  " + [c0], "  " + [c1], "  " + [c2]);
    assert PadLeft([d] + "|", 2) == [d, '|'];
  }

  /** The screen of a 3 x 3 field: the header, then the three row lines. */
  lemma SmallScreen(g: seq<seq<int>>, shown: set<Cell>, gameOver: bool)
    requires Shaped(g, 3, 3)
    ensures RenderField(g, shown, 3, 3, gameOver)
            == ["    1  2  3", "  _________", RowLine(g, shown, 3, 3, gameOver, 0),
                RowLine(g, shown, 3, 3, gameOver, 1), RowLine(g, shown, 3, 3, gameOver, 2)]
  {
    var lines := RenderField(g, shown, 3, 3, gameOver);
    SmallHeader(g, shown, gameOver);
    assert lines[0] == lines[..2][0] && lines[1] == lines[..2][1];
  }

  /** The screen after "2,2": only the centre shows its count. */
  lemma RunningRendering()
    ensures RenderField(Grid(), {Cell(1, 1)}, 3, 3, false)
            == ["    1  2  3", "  _________", "1|  _  _  _", "2|  _  2  _", "3|  _  _  _"]
  {
    var g, shown := Grid(), {Cell(1, 1)};
    assert Shaped(g, 3, 3);
    SmallScreen(g, shown, false);
    assert RowLine(g, shown, 3, 3, false, 0) == "1|  _  _  _" by {
      SmallNumbers();
      SmallRow(g, shown, false, 0, '1', '_', '_', '_');
    }
    assert RowLine(g, shown, 3, 3, false, 1) == "2|  _  2  _" by {
      SmallNumbers();
      SmallRow(g, shown, false, 1, '2', '_', '2', '_');
    }
    assert RowLine(g, shown, 3, 3, false, 2) == "3|  _  _  _" by {
      SmallNumbers();
      SmallRow(g, shown, false, 2, '3', '_', '_', '_');
    }
  }

  /** The screen after "1,1" hit the mine: every cell is exposed, the two
      mines as "X". */
  lemma LossRendering()
    ensures RenderField(Grid(), {}, 3, 3, true)
            == ["    1  2  3", "  _________", "1|  X  1  0", "2|  1  2  1", "3|  0  1  X"]
  {
    var g, shown: set<Cell> := Grid(), {};
    assert Shaped(g, 3, 3);
    SmallScreen(g, shown, true);
    assert RowLine(g, shown, 3, 3, true, 0) == "1|  X  1  0" by {
      SmallNumbers();
      SmallRow(g, shown, true, 0, '1', 'X', '1', '0');
    }
    assert RowLine(g, shown, 3, 3, true, 1) == "2|  1  2  1" by {
      SmallNumbers();
      SmallRow(g, shown, true, 1, '2', '1', '2', '1');
    }
    assert RowLine(g, shown, 3, 3, true, 2) == "3|  0  1  X" by {
      SmallNumbers();
      SmallRow(g, shown, true, 2, '3', '0', '1', 'X');
    }
  }

}
