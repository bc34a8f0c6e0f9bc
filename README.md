# Minesweeper command: a Dafny model

The repository is a terminal Minesweeper game built as one Symfony console
command, `MinesweeperCommand`. This project models that command's game logic:

- the validation of the `--cols`, `--rows` and `--mines` options;
- `initializeGame`, which builds the field: zeros, then -1 on every drawn
  mine, then +1 around each mine;
- the prompt's answer check;
- the reveal step and the win/loss decision of `mainGameLoop`;
- `renderField`, the text drawing of the field.

Modules, one file each:

- `Text` (text.dfy): PHP's decimal conversion, `str_repeat`, left
  `str_pad`, concatenation of fixed-width fields, ASCII `strtolower`.
- `Field` (field.dfy): cells, the mine draw and the field value every cell
  must hold after initialisation (`Layout`), with its counting lemmas.
- `Config` (config.dfy): the option validation of `execute`.
- `Turn` (turn.dfy): the prompt's answer check.
- `Engine` (engine.dfy): class `Game` with the command's state fields and
  the methods that change them. `Step`/`Run` specify the main loop answer
  by answer, and `MainGameLoop` is proved against `Run`.
- `Render` (render.dfy): `renderField` as a function from the state to the
  printed lines.
- `Findings` (findings.dfy): the answer check as the code writes it, and an
  input on which it goes wrong (see "## Findings").
- `Scenarios` (scenarios.dfy): the command's test games on a 3 x 3 field
  with mines at (0,0) and (2,2), played through the model.

## Model

| member | source | states |
|---|---|---|
| Config.ParseSettings | src/Command/MinesweeperCommand.php:88-102 | the options are accepted exactly when cols >= 1, rows >= 1 and 1 <= mines <= cols * rows - 1; columns are checked first, then rows, then mines, each failure with its own error, and the mines error carries the given count and cols * rows - 1 |
| Config.ErrorMessage | src/Command/MinesweeperCommand.php:90-101 | the message is "Wrong number of columns" exactly for the columns error and "Wrong number of rows" exactly for the rows error; the mines error's message begins "Wrong number of mines " (`Config.MinesMessageNamesCount` adds the count that follows) |
| Config.MinesMessageNamesCount | src/Command/MinesweeperCommand.php:101 | the mines error message begins "Wrong number of mines N" with the count that was given |
| Config.DefaultSettingsAccepted | src/Command/MinesweeperCommand.php:69-71 | the declared defaults of 30 columns, 20 rows and 25 mines pass the validation |
| Config.RejectedDimensionExamples | tests/Command/MinesweeperCommandTest.php:71-136 | zero, negative and missing rows give the rows error; the same for columns give the columns error |
| Config.RejectedMinesExamples | tests/Command/MinesweeperCommandTest.php:138-182 | 0, -1 and a missing mine count on the default field, and 9 mines on a 3 x 3 field, give the mines error naming 0, -1, 0 and 9 |
| Turn.ValidateTurn | src/Command/MinesweeperCommand.php:213-233 | "quit" in any letter case gives quit; an answer off the field is refused as wrong input; an open cell is refused as already opened; otherwise the 1-based row and column become a 0-based cell on the field that is not open. Each case is stated as an if-and-only-if. The range test is the corrected one (see "## Findings") |
| Turn.TurnExamples | src/Command/MinesweeperCommand.php:214-233 | "QUIT" and "Quit" quit; "2,4" on a 3 x 4 field selects cell (1, 3), or is refused once that cell is open; an unreadable answer is refused |
| Field.MinePositions | src/Command/MinesweeperCommand.php:158-166 | the mine positions taken from the draw: the one key when one mine is asked for, the list of keys otherwise. `Field.SingleKeyMatchesKeyList` states that both branches agree, and `Engine.Game.DrawnPositions` that the result is `mines` distinct cells of the field |
| Field.SingleKeyMatchesKeyList | src/Command/MinesweeperCommand.php:158-166 | the single-mine branch (a scalar key) and the list branch build the same positions from the same key |
| Field.Layout | src/Command/MinesweeperCommand.php:144-151 | the field has `rows` rows of `cols` values each |
| Field.MineCountIsCard | src/Command/MinesweeperCommand.php:179-187 | for distinct mines, the number of increments a cell receives equals the number of mines in its 3 x 3 block |
| Field.NearMinesAtMostEight | src/Command/MinesweeperCommand.php:135-137 | a cell that is not a mine has at most eight mines around it |
| Field.LayoutCell | src/Command/MinesweeperCommand.php:135-187 | after initialisation a cell holds -1 exactly when it is a mine; any other cell holds the number of -1 cells in its 3 x 3 neighbourhood clipped to the field; every value lies in -1..8 |
| Field.MineCellsArePositions | src/Command/MinesweeperCommand.php:171-173 | the cells holding -1 are exactly the drawn positions |
| Field.MineAndSafeTotals | src/Command/MinesweeperCommand.php:158-173 | exactly `mines` cells hold -1, and rows * cols - mines cells are safe |
| Field.WinIffAllSafeOpened | src/Command/MinesweeperCommand.php:260-275 | for open cells that are all safe, the open count plus the mines never exceeds rows * cols, and equals it exactly when every safe cell is open |
| Field.LayoutOrderIndependent | src/Command/MinesweeperCommand.php:179-187 | processing the same distinct mines in another order builds the same field |
| Field.ExampleLayout | tests/Command/MinesweeperCommandTest.php:31-36 | mines at (0,0) and (2,2) on a 3 x 3 field give `[[-1,1,0],[1,2,1],[0,1,-1]]` |
| Engine.Step | src/Command/MinesweeperCommand.php:207-262 | one answer of the main loop: "quit" stops it, a refused answer changes nothing, a mine ends the game, a safe cell is opened and the game ends once the open cells and the mines fill the field. `Engine.StepProperties` and `Engine.Game.PlayTurn` state this |
| Engine.Run | src/Command/MinesweeperCommand.php:202-265 | the main loop over a sequence of answers, stopping when the game is over, the player has quit or the answers run out. `Engine.RunProperties` and `Engine.Game.MainGameLoop` state this |
| Engine.EndingText | src/Command/MinesweeperCommand.php:240-275 | the closing text is "Buy!" exactly after a quit, "You Win!" exactly after a win and "Game Over!" exactly after a loss |
| Engine.StepProperties | src/Command/MinesweeperCommand.php:213-262 | one answer never closes a cell and never restarts a finished game; it opens at most one cell, and only a safe one; it stops the loop exactly when it is "quit" |
| Engine.RunProperties | src/Command/MinesweeperCommand.php:202-265 | over a whole sequence of answers, open cells only grow and are all safe, a finished game stays finished, and the loop stops for "quit" only if one of the answers was "quit" |
| Engine.Game.constructor | src/Command/MinesweeperCommand.php:88-109 | the validated options are stored and the game is initialised: consistent state, the drawn positions as the mines, nothing open, game not over |
| Engine.Game.InitializeGame | src/Command/MinesweeperCommand.php:125-188 | the field equals `Layout` of the drawn positions, no cell is open, the game is not over, and the state invariant `Valid` holds |
| Engine.Game.DrawnPositions | src/Command/MinesweeperCommand.php:158-166 | the positions taken from the draw are the drawn keys: `mines` distinct cells on the field |
| Engine.Game.FillWithZeros | src/Command/MinesweeperCommand.php:144-151 | the nested loops build `rows` rows of `cols` zeros |
| Engine.Game.MarkMines | src/Command/MinesweeperCommand.php:171-173 | after the loop a cell holds -1 exactly when it is a mine position, and 0 otherwise |
| Engine.Game.CountMinesAround | src/Command/MinesweeperCommand.php:179-187 | after the per-mine loop every non-mine cell holds the number of mines around it, and mines keep -1 |
| Engine.Game.IncrementAround | src/Command/MinesweeperCommand.php:180-186 | one mine's pass adds 1 to exactly the non-mine cells of its clipped 3 x 3 block |
| Engine.Game.Reveal | src/Command/MinesweeperCommand.php:250-262 | a mine ends the game and leaves the open cells unchanged; a safe cell is added and nothing else changes; the game is over exactly when it was already over, a mine was hit, or the open cells and the mines fill the field. The invariant (no open cell is a mine) is kept |
| Engine.Game.Outcome | src/Command/MinesweeperCommand.php:267-275 | a finished game is a win exactly when every safe cell is open |
| Engine.Game.PlayTurn | src/Command/MinesweeperCommand.php:207-262 | one answer changes the state exactly as `Step` describes, keeps the invariant, and a "quit" leaves the game unfinished |
| Engine.Game.MainGameLoop | src/Command/MinesweeperCommand.php:193-277 | the loop leaves the open cells and the game-over flag that `Run` gives for the answers; it ends finished exactly when the game is over, with a win exactly when every safe cell is open, and ends by "quit" only if an answer was "quit" |
| Text.NatToStringDigits | src/Command/MinesweeperCommand.php:287-288 | the text of a number consists of decimal digits only |
| Text.NatToStringRoundTrip | src/Command/MinesweeperCommand.php:298 | reading the printed digits back gives the number |
| Text.ConcatLength | src/Command/MinesweeperCommand.php:297-299 | appending n fields of width w builds n * w characters |
| Text.ConcatField | src/Command/MinesweeperCommand.php:297-299 | field i of the appended fields sits at offset i * w |
| Render.ColumnLabelsFit | src/Command/MinesweeperCommand.php:287-299 | every column number fits its field with at least two spaces in front |
| Render.NumbersLineField | src/Command/MinesweeperCommand.php:296-299 | the numbers line is cols * w characters long, and field c holds c + 1 right-aligned in w = strlen(cols) + 2 characters |
| Render.HeaderLayout | src/Command/MinesweeperCommand.php:293-304 | the two header lines start with the row-label indent; the underscore rule is exactly as long as the numbers line; column c's number is right-aligned in its field |
| Render.RowFieldsField | src/Command/MinesweeperCommand.php:317-337 | a row's cell fields are each w characters wide, and field c holds cell c's text right-aligned |
| Render.RowTagWidth | src/Command/MinesweeperCommand.php:315 | the row label "r|" fills the row-label width strlen(rows) + 1 exactly |
| Render.RowLineTag | src/Command/MinesweeperCommand.php:315-324 | a row line is the label width plus cols * w characters long, and starts with its right-aligned label |
| Render.RowLineField | src/Command/MinesweeperCommand.php:317-338 | field c of a row line, after the label, is cell c's text right-aligned in w characters |
| Render.RenderField | src/Command/MinesweeperCommand.php:282-341 | the drawing has rows + 2 lines: the numbers line, the underscore rule, then one line per row. `Render.HeaderLayout` states the two header lines, `Render.RenderedRow` places row r's line at index r + 2, and `Render.RowLayout` states what each cell shows |
| Render.RenderedRow | src/Command/MinesweeperCommand.php:304-340 | the drawing has rows + 2 lines, and line r + 2 is row r's line |
| Render.RowLayout | src/Command/MinesweeperCommand.php:312-340 | while the game runs a cell shows its value exactly when it is open, and "_" otherwise; once the game is over a mine shows "X" and every other cell its value |
| Findings.ValidateTurnAsWritten | src/Command/MinesweeperCommand.php:220 | as written, an accepted cell is not open and lies below the last row and column, but may have a negative coordinate |
| Findings.AsWrittenDiffersOnNegatives | src/Command/MinesweeperCommand.php:220 | the written check and the corrected one differ exactly on answers that are not "quit", are non-zero and within the upper bounds, and have a negative row or column; the corrected one refuses those |
| Findings.RevealAsWritten | src/Command/MinesweeperCommand.php:250-262 | the reveal step records any accepted cell that is not a -1 cell, so a cell with a negative coordinate is added to the open cells |
| Findings.NegativeCoordinatesWin | src/Command/MinesweeperCommand.php:220-262 | on a 1 x 2 field with its mine at (0,0), the answer "-1,1" is accepted and recorded, and the game ends as a win while the one safe cell is still closed; the corrected check refuses the answer |
| Scenarios.InitializeGameScenario | tests/Command/MinesweeperCommandTest.php:238-258 | a 3 x 3 field with two mines drawn at the corners is `[[-1,1,0],[1,2,1],[0,1,-1]]`, with the game not over and nothing open |
| Scenarios.WinGameRun | tests/Command/MinesweeperCommandTest.php:197-207 | the seven answers "1,2" … "3,2" open the seven safe cells one by one and the last one ends the game |
| Scenarios.WinGameScenario | tests/Command/MinesweeperCommandTest.php:188-208 | playing those answers through `MainGameLoop` ends in a win |
| Scenarios.LoseGameRun | tests/Command/MinesweeperCommandTest.php:222 | the answer "1,1" hits a mine: the game is over with nothing open |
| Scenarios.LoseGameScenario | tests/Command/MinesweeperCommandTest.php:213-233 | playing "1,1" through `MainGameLoop` ends in a loss |
| Scenarios.QuitRun | src/Command/MinesweeperCommand.php:214-216 | "QUIT" after one safe cell stops the loop with that cell open and the game still running; later answers are not read |
| Scenarios.QuitScenario | src/Command/MinesweeperCommand.php:240-243 | playing "2,2", "QUIT", "1,1" through `MainGameLoop` ends by quitting |
| Scenarios.RunningRendering | src/Command/MinesweeperCommand.php:312-325 | after "2,2" the drawing is exactly the two header lines ("    1  2  3" and a rule of 9 underscores) and three row lines in which every field is "  _" except the centre, which shows "  2" |
| Scenarios.LossRendering | src/Command/MinesweeperCommand.php:326-340 | after the mine was hit the drawing is exactly the same header and the rows "X 1 0", "1 2 1", "0 1 X", each value right-aligned in 3 characters: every cell exposed, the mines as "X" |

## Left out

- Console I/O: the Symfony title, texts, warnings, notes, the error box and every `write`/`writeln` are not modelled. The messages are values: `Config.ErrorMessage`, `Engine.EndingText`, and `Render.RenderField` for the drawing.
- `configure()` (option names, shortcuts, descriptions) is not modelled; only its default values appear, in `Config.DefaultSettingsAccepted`.
- The random draw of `array_rand` (src/Command/MinesweeperCommand.php:159) is the parameter `pick`. It is required to have the shape `array_rand` returns and to name `mines` distinct cells of the field. PHP's generator and its seeding are not modelled.
- `filter_var` coercion of option strings is not modelled; each option arrives as an optional integer (`None` when absent or not an integer).
- `sscanf($inp_value, "%d,%d")` is not modelled: each answer arrives with the two integers already read, 0 where nothing was read.
- `Config.ParseSettings`: does not model PHP's 64-bit integers. `cols * rows - 1` is unbounded here, while PHP turns an overflowing product into a float. It also does not model how `sprintf("%d")` (src/Command/MinesweeperCommand.php:101) prints a mines option that is present but not an integer, such as "2.5" or "7abc": PHP prints its leading integer (2, 7), while `Config.Shown` gives 0 for every option that is not an integer. Such an option is refused in both.
- Config.FilterInt: the stand-in for `filter_var`'s range test (`FILTER_VALIDATE_INT` with `min_range`, and `max_range` for mines, src/Command/MinesweeperCommand.php:88-100). Its contract restates that test, so it has no row under "## Model"; what a caller sees is stated by `Config.ParseSettings`.
- Engine.Game.MainGameLoop: takes the answers as a finite sequence. The real prompt blocks until an answer comes, so the model adds an ending, `InputExhausted`, for running out of answers. A refused answer uses up one answer and changes nothing, which is what the `do … while ($answer === false)` re-prompt does.
- The `renderField` calls that `execute` and the main loop make (src/Command/MinesweeperCommand.php:110, 264) only print; the loop model does not print, and `Render.RenderField` gives the drawing of any state.
- The getters `getField`, `getOpenedCells`, `getRows`, `getCols`, `getMines` and `isGameOver` (src/Command/MinesweeperCommand.php:348-401) are reads of the class `Game`'s fields. `getOpenedCells` returns a PHP array keyed "row:col" with value 0; the model keeps its keys, as the set `openedCells`.
- Engine.Game.field: the nested PHP array is a `seq<seq<int>>` field that the methods reassign cell by cell. Nothing else holds a reference to it, so no aliasing is lost.
- `PHP_EOL` and line endings: the drawing is a sequence of lines without terminators.
- `strtolower` is modelled for ASCII letters only; locale-dependent case mapping is left out.
- minesweeper.php (the application bootstrap) and the `try`/`catch` around `execute` are not modelled; the exceptions are the `Err` values of `Config.ParseSettings`.

## Findings

| source | as written | input that shows it | evidently intended | confidence | as-written member | corrected member |
|---|---|---|---|---|---|---|
| src/Command/MinesweeperCommand.php:220 | the answer check refuses a row or column only when it is 0 or past the field, so a negative one is accepted; the reveal step then reads a missing cell (PHP `null`, which is not -1) and records it as opened | `--rows 1 --cols 2 --mines 1` with the mine drawn at (0,0), then the answer "-1,1": it is accepted as cell (-2,0), recorded as opened, and 1 open + 1 mine = 2 cells ends the game as "You Win!" with the safe cell (0,1) never opened | refuse any row or column below 1, as the prompt asks for 1-based coordinates | medium, not executed (an error handler that turns PHP's undefined-key warning into an exception would stop the game instead) | Findings.NegativeCoordinatesWin | Turn.ValidateTurn |

The engine (`Engine.Step`, `Engine.Game.PlayTurn`, `Engine.Game.MainGameLoop`) uses the corrected check. This keeps every open cell a real safe cell (`Engine.Game.Valid`), and makes "You Win!" mean that every safe cell was opened.
