/** Validation of the three startup options (`--cols`, `--rows`, `--mines`)
    that `execute` performs before any game starts. */
module Config {
  import opened Text

  datatype Option<T> = None | Some(value: T)

  datatype Settings = Settings(cols: int, rows: int, mines: int)

  /** The three exceptions `execute` can raise, in the order it checks. */
  datatype ConfigError =
    | WrongColumns
    | WrongRows
    | WrongMines(given: int, maxMines: int)

  datatype Result<T, E> = Ok(value: T) | Err(error: E)

  /** What the engine needs of its configuration. */
  predicate ValidSettings(cols: int, rows: int, mines: int)
  {
    cols >= 1 && rows >= 1 && 1 <= mines <= cols * rows - 1
  }

  /** `filter_var($v, FILTER_VALIDATE_INT, ['options' => ['min_range' => lo,
      'max_range' => hi]])`, given the option already read as an integer
      (None when it is absent or not an integer). */
  function FilterInt(v: Option<int>, lo: int, hi: Option<int>): (r: Option<int>)
    ensures r.Some? <==> v.Some? && lo <= v.value && (hi.Some? ==> v.value <= hi.value)
    ensures r.Some? ==> r.value == v.value
  {
    match v
    case None => None
    case Some(x) => if lo <= x && (hi.None? || x <= hi.value) then Some(x) else None
  }

  /** The number `sprintf("%d", ...)` shows for the raw mines option
      (0 for an absent option). */
  function Shown(v: Option<int>): int
  {
    if v.Some? then v.value else 0
  }

  /** Columns, then rows, then mines, each failure with its own error; the
      largest mine count allowed is cols * rows - 1. */
  function ParseSettings(cols: Option<int>, rows: Option<int>, mines: Option<int>): (r: Result<Settings, ConfigError>)
    ensures r.Ok? <==> cols.Some? && rows.Some? && mines.Some? && ValidSettings(cols.value, rows.value, mines.value)
    ensures r.Ok? ==> r.value == Settings(cols.value, rows.value, mines.value)
    ensures r == Err(WrongColumns) <==> !(cols.Some? && cols.value >= 1)
    ensures r == Err(WrongRows) <==> cols.Some? && cols.value >= 1 && !(rows.Some? && rows.value >= 1)
    ensures r.Err? && r.error.WrongMines? <==>
              cols.Some? && cols.value >= 1 && rows.Some? && rows.value >= 1
              && !(mines.Some? && 1 <= mines.value <= cols.value * rows.value - 1)
    ensures r.Err? && r.error.WrongMines? ==> r.error == WrongMines(Shown(mines), cols.value * rows.value - 1)
  {
    match FilterInt(cols, 1, None)
    case None => Err(WrongColumns)
    case Some(c) =>
      match FilterInt(rows, 1, None)
      case None => Err(WrongRows)
      case Some(rw) =>
        var maxMines := c * rw - 1;
        match FilterInt(mines, 1, Some(maxMines))
        case None => Err(WrongMines(Shown(mines), maxMines))
        case Some(m) => Ok(Settings(c, rw, m))
  }

  /** The message `execute` reports for each error. */
  function ErrorMessage(e: ConfigError): (m: string)
    ensures m == "Wrong number of columns" <==> e == WrongColumns
    ensures m == "Wrong number of rows" <==> e == WrongRows
    ensures e.WrongMines? ==> |m| > 22 && m[..22] == "Wrong number of mines "
  {
    match e
    case WrongColumns => "Wrong number of columns"
    case WrongRows => "Wrong number of rows"
    case WrongMines(given, maxMines) =>
      "Wrong number of mines " + IntToString(given) + ", it should be in range from 1 to " + IntToString(maxMines)
  }

  /** The defaults `configure` declares (30 columns, 20 rows, 25 mines)
      pass the validation, so a run without options starts a game. */
  lemma DefaultSettingsAccepted()
    ensures ParseSettings(Some(30), Some(20), Some(25)) == Ok(Settings(30, 20, 25))
  {
  }

  /** The column and row errors the command's test provokes: zero,
      negative and missing values. */
  lemma RejectedDimensionExamples()
    ensures ParseSettings(Some(30), Some(0), Some(25)) == Err(WrongRows)
    ensures ParseSettings(Some(30), Some(-1), Some(25)) == Err(WrongRows)
    ensures ParseSettings(Some(30), None, Some(25)) == Err(WrongRows)
    ensures ParseSettings(Some(0), Some(20), Some(25)) == Err(WrongColumns)
    ensures ParseSettings(Some(-1), Some(20), Some(25)) == Err(WrongColumns)
    ensures ParseSettings(None, Some(20), Some(25)) == Err(WrongColumns)
  {
  }

  /** The mine-count errors the command's test provokes on the default
      30 x 20 field (0, -1 and a missing value) and on a 3x3 field (9). */
  lemma RejectedMinesExamples()
    ensures ParseSettings(Some(30), Some(20), Some(0)) == Err(WrongMines(0, 599))
    ensures ParseSettings(Some(30), Some(20), Some(-1)) == Err(WrongMines(-1, 599))
    ensures ParseSettings(Some(30), Some(20), None) == Err(WrongMines(0, 599))
    ensures ParseSettings(Some(3), Some(3), Some(9)) == Err(WrongMines(9, 8))
  {
  }

  /** The mines message starts with the number that was given, which is what
      the command's test looks for ("Wrong number of mines 9"). */
  lemma MinesMessageNamesCount(given: int, maxMines: int)
    ensures var prefix := "Wrong number of mines " + IntToString(given);
            var m := ErrorMessage(WrongMines(given, maxMines));
            |prefix| <= |m| && m[..|prefix|] == prefix
  {
  }
}
