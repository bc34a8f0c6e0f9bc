/** `renderField`: the text the command prints for the current state, as a
    list of lines. A header of right-aligned column numbers, an underscore
    rule as long as that header, and one line per row: the row number and
    "|", then one fixed-width field per cell. */
module Render {
  import opened Text
  import opened Field

  /** `$padColumnLenght`: the width of every column field. */
  function ColumnWidth(cols: nat): nat
  {
    |NatToString(cols)| + 2
  }

  /** `$padRowHeaderLenght`: the width of the row labels on the left. */
  function RowHeaderWidth(rows: nat): nat
  {
    |NatToString(rows)| + 1
  }

  /** The column numbers 1..cols, each right-aligned in its field. */
  function ColumnLabels(cols: nat): seq<string>
  {
    seq(cols, c requires 0 <= c < cols => PadLeft(NatToString(c + 1), ColumnWidth(cols)))
  }

  /** `$numbersLine`. */
  function NumbersLine(cols: nat): string
  {
    Concat(ColumnLabels(cols))
  }

  /** What one cell shows: while the game runs, its value if it is open and
      "_" otherwise; once it is over, "X" for a mine and the value for any
      other cell. */
  function CellText(v: int, isOpen: bool, gameOver: bool): string
  {
    if !gameOver then (if isOpen then IntToString(v) else "_")
    else if v != -1 then IntToString(v) else "X"
  }

  /** The cell fields of row r. */
  function RowFields(g: seq<seq<int>>, openedCells: set<Cell>, cols: nat, gameOver: bool, r: nat): seq<string>
    requires r < |g| && |g[r]| == cols
  {
    seq(cols, c requires 0 <= c < cols =>
      PadLeft(CellText(g[r][c], Cell(r, c) in openedCells, gameOver), ColumnWidth(cols)))
  }

  /** The line printed for row r (0-based). */
  function RowLine(g: seq<seq<int>>, openedCells: set<Cell>, rows: nat, cols: nat, gameOver: bool, r: nat): string
    requires r < |g| && |g[r]| == cols
  {
    PadLeft(NatToString(r + 1) + "|", RowHeaderWidth(rows)) + Concat(RowFields(g, openedCells, cols, gameOver, r))
  }

  /** The lines `renderField` prints: the numbers line, the rule, then the rows. */
  function RenderField(g: seq<seq<int>>, openedCells: set<Cell>, rows: nat, cols: nat, gameOver: bool): (lines: seq<string>)
    requires Shaped(g, rows, cols)
    ensures |lines| == rows + 2
  {
    var indent := Repeat(' ', RowHeaderWidth(rows));
    var numbers := NumbersLine(cols);
    [indent + numbers, indent + Repeat('_', |numbers|)]
      + seq(rows, r requires 0 <= r < rows => RowLine(g, openedCells, rows, cols, gameOver, r))
  }

  /** Every column label fits its field with room to spare. */
  lemma ColumnLabelsFit(cols: nat)
    ensures forall n :: 1 <= n <= cols ==> |NatToString(n)| + 2 <= ColumnWidth(cols)
    ensures UniformWidth(ColumnLabels(cols), ColumnWidth(cols))
  {
    forall n | 1 <= n <= cols
      ensures |NatToString(n)| + 2 <= ColumnWidth(cols)
    {
      NatToStringLengthMonotone(n, cols);
    }
  }

  /** Column c's number, right-aligned with at least two spaces in front,
      is field c of the numbers line. */
  lemma NumbersLineField(cols: nat, c: nat)
    requires c < cols
    ensures |NumbersLine(cols)| == cols * ColumnWidth(cols)
    ensures |NatToString(c + 1)| + 2 <= ColumnWidth(cols)
    ensures var w := ColumnWidth(cols);
            var o := c * w;
            0 <= o && o + w <= |NumbersLine(cols)| && NumbersLine(cols)[o .. o + w] == PadLeft(NatToString(c + 1), w)
  {
    var w := ColumnWidth(cols);
    var o := c * w;
    var labels := ColumnLabels(cols);
    FieldOffset(c, cols, w);
    assert UniformWidth(labels, w) by {
      ColumnLabelsFit(cols);
    }
    assert |Concat(labels)| == cols * w by {
      ConcatLength(labels, w);
    }
    assert o + w <= |Concat(labels)| && Concat(labels)[o .. o + w] == labels[c] by {
      ConcatField(labels, w, c);
    }
    assert labels[c] == PadLeft(NatToString(c + 1), w);
    assert NumbersLine(cols) == Concat(labels);
    NatToStringLengthMonotone(c + 1, cols);
  }

  /** The header: after the row-label indent, column c's number is
      right-aligned in a field of `ColumnWidth(cols)` characters, and the
      underscore rule below it is exactly as long as the numbers line. */
  lemma HeaderLayout(g: seq<seq<int>>, openedCells: set<Cell>, rows: nat, cols: nat, gameOver: bool, c: nat)
    requires Shaped(g, rows, cols)
    requires c < cols
    ensures var lines := RenderField(g, openedCells, rows, cols, gameOver);
            var h, w := RowHeaderWidth(rows), ColumnWidth(cols);
            var o := c * w;
            && |lines| == rows + 2
            && |lines[0]| == |lines[1]| == h + cols * w
            && lines[0][..h] == lines[1][..h] == Repeat(' ', h)
            && lines[1][h..] == Repeat('_', cols * w)
            && 0 <= o && h + o + w <= |lines[0]|
            && lines[0][h + o .. h + o + w] == PadLeft(NatToString(c + 1), w)
            && |NatToString(c + 1)| + 2 <= w
  {
    var h, w := RowHeaderWidth(rows), ColumnWidth(cols);
    var o := c * w;
    var indent, numbers := Repeat(' ', h), NumbersLine(cols);
    var lines := RenderField(g, openedCells, rows, cols, gameOver);
    assert lines[0] == indent + numbers && lines[1] == indent + Repeat('_', |numbers|);
    assert |numbers| == cols * w && o + w <= |numbers| && numbers[o .. o + w] == PadLeft(NatToString(c + 1), w)
        && |NatToString(c + 1)| + 2 <= w by {
      NumbersLineField(cols, c);
    }
    SliceAfterPrefix(indent, numbers, o, o + w);
    assert lines[0][..h] == indent;
    assert lines[1][..h] == indent;
  }

  /** Field c of a row's cells: the cell's text right-aligned in the column
      width, for the values a field cell can hold. */
  lemma RowFieldsField(g: seq<seq<int>>, openedCells: set<Cell>, cols: nat, gameOver: bool, r: nat, c: nat)
    requires r < |g| && |g[r]| == cols && c < cols
    requires forall b :: 0 <= b < cols ==> -1 <= g[r][b] <= 8
    ensures var w := ColumnWidth(cols);
            var cells := Concat(RowFields(g, openedCells, cols, gameOver, r));
            var o := c * w;
            && |cells| == cols * w
            && 0 <= o && o + w <= |cells|
            && cells[o .. o + w] == PadLeft(CellText(g[r][c], Cell(r, c) in openedCells, gameOver), w)
  {
    var w := ColumnWidth(cols);
    var fields := RowFields(g, openedCells, cols, gameOver, r);
    forall b | 0 <= b < cols
      ensures |fields[b]| == w
    {
      CellValueTextWidth(g[r][b]);
    }
    ConcatLength(fields, w);
    ConcatField(fields, w, c);
  }

  /** The row label "r|" fills the row-label width exactly. */
  lemma RowTagWidth(rows: nat, r: nat)
    requires r < rows
    ensures |PadLeft(NatToString(r + 1) + "|", RowHeaderWidth(rows))| == RowHeaderWidth(rows)
  {
    NatToStringLengthMonotone(r + 1, rows);
  }

  /** Row r's line: its label right-aligned in the row-label width, then
      one field per column. */
  lemma RowLineTag(g: seq<seq<int>>, openedCells: set<Cell>, rows: nat, cols: nat, gameOver: bool, r: nat)
    requires r < rows && r < |g| && |g[r]| == cols
    requires forall b :: 0 <= b < cols ==> -1 <= g[r][b] <= 8
    ensures var line := RowLine(g, openedCells, rows, cols, gameOver, r);
            var h := RowHeaderWidth(rows);
            && |line| == h + cols * ColumnWidth(cols)
            && line[..h] == PadLeft(NatToString(r + 1) + "|", h)
  {
    var h, w := RowHeaderWidth(rows), ColumnWidth(cols);
    var tag := PadLeft(NatToString(r + 1) + "|", h);
    var fields := RowFields(g, openedCells, cols, gameOver, r);
    assert RowLine(g, openedCells, rows, cols, gameOver, r) == tag + Concat(fields);
    assert |tag| == h by {
      RowTagWidth(rows, r);
    }
    assert |Concat(fields)| == cols * w by {
      forall b | 0 <= b < cols
        ensures |fields[b]| == w
      {
        CellValueTextWidth(g[r][b]);
      }
      ConcatLength(fields, w);
    }
    assert (tag + Concat(fields))[..h] == tag;
  }

  /** Field c of row r's line, after the row label, holds cell c's text
      right-aligned in the column width. */
  lemma RowLineField(g: seq<seq<int>>, openedCells: set<Cell>, rows: nat, cols: nat, gameOver: bool, r: nat, c: nat)
    requires r < rows && r < |g| && |g[r]| == cols && c < cols
    requires forall b :: 0 <= b < cols ==> -1 <= g[r][b] <= 8
    ensures var line := RowLine(g, openedCells, rows, cols, gameOver, r);
            var h, w := RowHeaderWidth(rows), ColumnWidth(cols);
            var o := c * w;
            && 0 <= o && h + o + w <= |line|
            && line[h + o .. h + o + w] == PadLeft(CellText(g[r][c], Cell(r, c) in openedCells, gameOver), w)
  {
    var h, w := RowHeaderWidth(rows), ColumnWidth(cols);
    var o := c * w;
    var tag := PadLeft(NatToString(r + 1) + "|", h);
    var cells := Concat(RowFields(g, openedCells, cols, gameOver, r));
    var f := PadLeft(CellText(g[r][c], Cell(r, c) in openedCells, gameOver), w);
    assert RowLine(g, openedCells, rows, cols, gameOver, r) == tag + cells;
    assert |tag| == h by {
      RowTagWidth(rows, r);
    }
    assert 0 <= o && o + w <= |cells| && cells[o .. o + w] == f by {
      RowFieldsField(g, openedCells, cols, gameOver, r, c);
    }
    PrefixThenField(tag, cells, h, o, w);
  }

  /** Line r + 2 of the rendering is row r's line. */
  lemma RenderedRow(g: seq<seq<int>>, openedCells: set<Cell>, rows: nat, cols: nat, gameOver: bool, r: nat)
    requires Shaped(g, rows, cols)
    requires r < rows
    ensures |RenderField(g, openedCells, rows, cols, gameOver)| == rows + 2
    ensures RenderField(g, openedCells, rows, cols, gameOver)[r + 2] == RowLine(g, openedCells, rows, cols, gameOver, r)
  {
    var indent := Repeat(' ', RowHeaderWidth(rows));
    var numbers := NumbersLine(cols);
    var body := seq(rows, b requires 0 <= b < rows => RowLine(g, openedCells, rows, cols, gameOver, b));
    assert RenderField(g, openedCells, rows, cols, gameOver) == [indent + numbers, indent + Repeat('_', |numbers|)] + body;
    assert body[r] == RowLine(g, openedCells, rows, cols, gameOver, r);
  }

  /** The four things a cell field can show, read off its text. */
  lemma CellFieldCases(field: string, v: int, isOpen: bool, gameOver: bool, w: nat)
    requires field == PadLeft(CellText(v, isOpen, gameOver), w)
    ensures !gameOver && isOpen ==> field == PadLeft(IntToString(v), w)
    ensures !gameOver && !isOpen ==> field == PadLeft("_", w)
    ensures gameOver && v == -1 ==> field == PadLeft("X", w)
    ensures gameOver && v != -1 ==> field == PadLeft(IntToString(v), w)
  {
  }

  /** Row r's line, cell c: while the game runs a cell shows its value
      exactly when it is open and "_" otherwise; once it is over every cell
      is shown, a mine as "X". `RenderedRow` places this line at index
      r + 2 of the rendering. */
  lemma RowLayout(g: seq<seq<int>>, openedCells: set<Cell>, rows: nat, cols: nat, gameOver: bool, r: nat, c: nat)
    requires r < rows && r < |g| && |g[r]| == cols && c < cols
    requires forall b :: 0 <= b < cols ==> -1 <= g[r][b] <= 8
    ensures var line := RowLine(g, openedCells, rows, cols, gameOver, r);
            var h, w := RowHeaderWidth(rows), ColumnWidth(cols);
            var o := c * w;
            && |line| == h + cols * w
            && line[..h] == PadLeft(NatToString(r + 1) + "|", h)
            && 0 <= o && h + o + w <= |line|
            && var field := line[h + o .. h + o + w];
            && (!gameOver && Cell(r, c) in openedCells ==> field == PadLeft(IntToString(g[r][c]), w))
            && (!gameOver && Cell(r, c) !in openedCells ==> field == PadLeft("_", w))
            && (gameOver && g[r][c] == -1 ==> field == PadLeft("X", w))
            && (gameOver && g[r][c] != -1 ==> field == PadLeft(IntToString(g[r][c]), w))
  {
    var h, w := RowHeaderWidth(rows), ColumnWidth(cols);
    var o := c * w;
    var line := RowLine(g, openedCells, rows, cols, gameOver, r);
    RowLineTag(g, openedCells, rows, cols, gameOver, r);
    RowLineField(g, openedCells, rows, cols, gameOver, r, c);
    CellFieldCases(line[h + o .. h + o + w], g[r][c], Cell(r, c) in openedCells, gameOver, w);
  }
}
