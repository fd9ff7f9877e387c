/**
  The Markdown table renderer of pkg/markdown/formatter.go: a compact mode
  that joins the cells of each row with pipes, and a pretty mode that first
  computes the width of every column over the headers and all rows and then
  pads each data cell to it. Both check the shape of every row and give up
  with the first shape error and no output.
 */
module Formatter {
  import opened Wrappers
  import opened Strings
  import Sorter

  /** A row whose length differs from the number of headers. */
  datatype ShapeError = ShapeError(expected: nat, rowNumber: nat, got: nat)

  /** The text of the error, as fmt.Errorf builds it. */
  function Message(e: ShapeError): string {
    "expected " + NatToString(e.expected) + " column(s), row number "
      + NatToString(e.rowNumber) + " got " + NatToString(e.got)
  }

  /** config.validateRow: a row must have one cell per header; the error
      names the row by its 1-based number. */
  function ValidateRow(headers: seq<string>, rowIndex: nat, row: seq<string>): (r: Option<ShapeError>)
    ensures r.None? <==> |row| == |headers|
    ensures r.Some? ==> r.value.expected == |headers| && r.value.rowNumber == rowIndex + 1 && r.value.got == |row|
  {
    if |row| != |headers| then Some(ShapeError(|headers|, 1 + rowIndex, |row|)) else None
  }

  lemma ValidateRowScenario()
    ensures var e := ValidateRow(["column 1", "column 2", "column 3"], 0, ["value 1", "value 2"]);
      e.Some? && Message(e.value) == "expected 3 column(s), row number 1 got 2"
  {
    assert NatToString(3) == "3" && NatToString(1) == "1" && NatToString(2) == "2";
  }

  predicate AllRowsValid(headers: seq<string>, data: seq<seq<string>>) {
    forall i :: 0 <= i < |data| ==> |data[i]| == |headers|
  }

  /** Row i is the first row whose shape is wrong. */
  predicate FirstInvalidRow(headers: seq<string>, data: seq<seq<string>>, i: nat) {
    && i < |data|
    && |data[i]| != |headers|
    && forall k :: 0 <= k < i ==> |data[k]| == |headers|
  }

  /** joinValues: "| ", the values separated by " | ", then " |\n". */
  function JoinValues(values: seq<string>): string {
    "| " + Join(values, " | ") + " |\n"
  }

  /** Every joined line opens with a bar and a space and ends with a space,
      a bar and a newline, whatever the values. */
  lemma JoinValuesFrame(values: seq<string>)
    ensures var r := JoinValues(values);
      |r| >= 5 && r[..2] == "| " && r[|r| - 3..] == " |\n"
  {
  }

  /** A cell-by-cell reading of a table line: each cell contributes
      " cell |" after the opening pipe. */
  function Cells(values: seq<string>): string {
    if values == [] then "" else " " + values[0] + " |" + Cells(values[1..])
  }

  lemma {:induction false} JoinCells(values: seq<string>)
    requires values != []
    ensures " " + Join(values, " | ") + " |" == Cells(values)
  {
    if |values| > 1 {
      JoinCells(values[1..]);
      assert " " + Join(values, " | ") + " |"
          == " " + values[0] + " |" + (" " + Join(values[1..], " | ") + " |");
    }
  }

  /** A line of n >= 1 cells is a pipe, then " cell |" per cell, then a
      newline; with no cells the line is "|  |\n". */
  lemma JoinValuesIsCells(values: seq<string>)
    ensures values != [] ==> JoinValues(values) == "|" + Cells(values) + "\n"
    ensures values == [] ==> JoinValues(values) == "|  |\n"
  {
    if values != [] {
      JoinCells(values);
      assert JoinValues(values) == "|" + (" " + Join(values, " | ") + " |") + "\n";
    }
  }

  /** replaceRepeated: each item replaced by |item| copies of the symbol. */
  function ReplaceRepeated(items: seq<string>, symbol: string): (r: seq<string>)
    ensures |r| == |items|
    ensures forall i :: 0 <= i < |r| ==> r[i] == Repeat(symbol, |items[i]|)
  {
    if items == [] then [] else [Repeat(symbol, |items[0]|)] + ReplaceRepeated(items[1..], symbol)
  }

  /** The separator cells are runs of dashes exactly as long as the headers. */
  lemma SeparatorIsDashes(headers: seq<string>)
    ensures var r := ReplaceRepeated(headers, "-");
      |r| == |headers| &&
      forall i :: 0 <= i < |r| ==> |r[i]| == |headers[i]| && forall k :: 0 <= k < |r[i]| ==> r[i][k] == '-'
  {
  }

  /** replacePadded: item i left-aligned in a field of widths[i] characters. */
  function ReplacePadded(items: seq<string>, widths: seq<nat>): (r: seq<string>)
    requires |items| <= |widths|
    ensures |r| == |items|
    ensures forall i :: 0 <= i < |r| ==> r[i] == Pad(items[i], widths[i])
  {
    if items == [] then [] else [Pad(items[0], widths[0])] + ReplacePadded(items[1..], widths[1..])
  }

  /** Each padded cell starts with the item, continues with spaces only, and
      is as long as the larger of the width and the item. */
  lemma PaddedCells(items: seq<string>, widths: seq<nat>, i: nat)
    requires |items| <= |widths| && i < |items|
    ensures var cell := ReplacePadded(items, widths)[i];
      && |cell| == (if widths[i] > |items[i]| then widths[i] else |items[i]|)
      && cell[..|items[i]|] == items[i]
      && forall k :: |items[i]| <= k < |cell| ==> cell[k] == ' '
  {
  }

  /** appendHeaders: the header line followed by the separator line. */
  function HeaderLines(headers: seq<string>): string {
    JoinValues(headers) + JoinValues(ReplaceRepeated(headers, "-"))
  }

  /** Read cell by cell, the header lines of a table with headers are the
      headers' line over a line of dash runs, one run per header. */
  lemma HeaderLinesAreCells(headers: seq<string>)
    requires headers != []
    ensures HeaderLines(headers)
      == "|" + Cells(headers) + "\n" + "|" + Cells(ReplaceRepeated(headers, "-")) + "\n"
  {
    JoinValuesIsCells(headers);
    JoinValuesIsCells(ReplaceRepeated(headers, "-"));
  }

  /** The concatenation of a sequence of lines. */
  function Concat(lines: seq<string>): string {
    if lines == [] then "" else Concat(lines[..|lines| - 1]) + lines[|lines| - 1]
  }

  /** The data lines of the compact mode: row i joined as it is. */
  function RowLines(data: seq<seq<string>>): (r: seq<string>)
    ensures |r| == |data|
  {
    if data == [] then [] else RowLines(data[..|data| - 1]) + [JoinValues(data[|data| - 1])]
  }

  /** Every row has a width for each of its cells. */
  predicate FitsWidths(data: seq<seq<string>>, widths: seq<nat>) {
    forall i :: 0 <= i < |data| ==> |data[i]| <= |widths|
  }

  /** The data lines of the pretty mode: row i padded to the widths. */
  function PaddedLines(data: seq<seq<string>>, widths: seq<nat>): (r: seq<string>)
    requires FitsWidths(data, widths)
    ensures |r| == |data|
  {
    if data == [] then []
    else PaddedLines(data[..|data| - 1], widths) + [JoinValues(ReplacePadded(data[|data| - 1], widths))]
  }

  // ----- column widths of the pretty mode -----

  /** w is the width of column c over the headers and the first n rows: at
      least the header and every such cell, and equal to one of them. Rows
      too short to have a column c are not looked at. */
  ghost predicate IsColumnWidth(headers: seq<string>, data: seq<seq<string>>, n: nat, c: nat, w: nat)
    requires n <= |data| && c < |headers|
  {
    && |headers[c]| <= w
    && (forall i :: 0 <= i < n && c < |data[i]| ==> |data[i][c]| <= w)
    && (w == |headers[c]| || exists i :: 0 <= i < n && c < |data[i]| && w == |data[i][c]|)
  }

  /** widths holds the width of every column over the headers and all rows. */
  ghost predicate IsColumnWidths(headers: seq<string>, data: seq<seq<string>>, widths: seq<nat>) {
    && |widths| == |headers|
    && forall c :: 0 <= c < |headers| ==> IsColumnWidth(headers, data, |data|, c, widths[c])
  }

  /** The widths are determined by the headers and the rows. */
  lemma ColumnWidthsAreUnique(headers: seq<string>, data: seq<seq<string>>, w1: seq<nat>, w2: seq<nat>)
    requires IsColumnWidths(headers, data, w1) && IsColumnWidths(headers, data, w2)
    ensures w1 == w2
  {
    forall c | 0 <= c < |headers| ensures w1[c] == w2[c] {
      assert IsColumnWidth(headers, data, |data|, c, w1[c]);
      assert IsColumnWidth(headers, data, |data|, c, w2[c]);
    }
  }

  /** The result of preComputeFormattedData: the widths and the rows. */
  datatype PrettyTable = PrettyTable(widths: seq<nat>, content: seq<seq<string>>)

  /** prettyTableFormatter.preComputeFormattedData: starts from the header
      lengths and raises each column's width to every longer cell, row by
      row, stopping at the first row of the wrong shape. */
  method PreComputeFormattedData(headers: seq<string>, data: seq<seq<string>>)
    returns (r: Result<PrettyTable, ShapeError>)
    ensures r.Ok? <==> AllRowsValid(headers, data)
    ensures r.Ok? ==> r.value.content == data && IsColumnWidths(headers, data, r.value.widths)
    ensures r.Err? ==> exists i: nat :: FirstInvalidRow(headers, data, i) && ValidateRow(headers, i, data[i]) == Some(r.error)
  {
    var widths: seq<nat> := [];
    var h := 0;
    while h < |headers|
      invariant 0 <= h <= |headers| && |widths| == h
      invariant forall c :: 0 <= c < h ==> widths[c] == |headers[c]|
    {
      widths := widths + [|headers[h]|];
      h := h + 1;
    }
    var rowIndex := 0;
    while rowIndex < |data|
      invariant 0 <= rowIndex <= |data| && |widths| == |headers|
      invariant forall i :: 0 <= i < rowIndex ==> |data[i]| == |headers|
      invariant forall c :: 0 <= c < |headers| ==> IsColumnWidth(headers, data, rowIndex, c, widths[c])
    {
      var row := data[rowIndex];
      var err := ValidateRow(headers, rowIndex, row);
      if err.Some? {
        assert FirstInvalidRow(headers, data, rowIndex);
        return Err(err.value);
      }
      var columnIndex := 0;
      while columnIndex < |row|
        invariant 0 <= columnIndex <= |row| && |widths| == |headers|
        invariant forall c :: 0 <= c < columnIndex ==> IsColumnWidth(headers, data, rowIndex + 1, c, widths[c])
        invariant forall c :: columnIndex <= c < |headers| ==> IsColumnWidth(headers, data, rowIndex, c, widths[c])
      {
        var cellLength := |row[columnIndex]|;
        if cellLength > widths[columnIndex] {
          widths := widths[columnIndex := cellLength];
        }
        columnIndex := columnIndex + 1;
      }
      rowIndex := rowIndex + 1;
    }
    return Ok(PrettyTable(widths, data));
  }

  // ----- the two formatters -----

  /** The compact output: header line, separator line, then each row joined
      as it is, in input order. */
  function CompactText(headers: seq<string>, data: seq<seq<string>>): string {
    HeaderLines(headers) + Concat(RowLines(data))
  }

  /** The pretty output for given column widths: the header and separator
      lines as in the compact mode, then each row padded to the widths. */
  function PrettyText(headers: seq<string>, data: seq<seq<string>>, widths: seq<nat>): string
    requires FitsWidths(data, widths)
  {
    HeaderLines(headers) + Concat(PaddedLines(data, widths))
  }

  /** Line i of the compact mode is row i joined as it is. */
  lemma {:induction false} RowLinesAt(data: seq<seq<string>>, i: nat)
    requires i < |data|
    ensures RowLines(data)[i] == JoinValues(data[i])
    decreases |data|
  {
    var init := data[..|data| - 1];
    if i < |init| {
      RowLinesAt(init, i);
    }
  }

  /** Line i of the pretty mode is row i padded to the widths. */
  lemma {:induction false} PaddedLinesAt(data: seq<seq<string>>, widths: seq<nat>, i: nat)
    requires i < |data| && FitsWidths(data, widths)
    ensures PaddedLines(data, widths)[i] == JoinValues(ReplacePadded(data[i], widths))
    decreases |data|
  {
    var init := data[..|data| - 1];
    if i < |init| {
      PaddedLinesAt(init, widths, i);
    }
  }

  lemma ConcatSnoc(lines: seq<string>, line: string)
    ensures Concat(lines + [line]) == Concat(lines) + line
  {
    assert (lines + [line])[..|lines|] == lines;
  }

  /** One more row adds its compact line at the end of the text. */
  lemma CompactTextStep(headers: seq<string>, data: seq<seq<string>>, k: nat)
    requires k < |data|
    ensures CompactText(headers, data[..k + 1]) == CompactText(headers, data[..k]) + JoinValues(data[k])
  {
    var lines, line := RowLines(data[..k]), JoinValues(data[k]);
    assert RowLines(data[..k + 1]) == lines + [line] by {
      assert data[..k + 1][..k] == data[..k];
    }
    ConcatSnoc(lines, line);
  }

  /** One more row adds its padded line at the end. */
  lemma PaddedLinesStep(data: seq<seq<string>>, widths: seq<nat>, k: nat)
    requires k < |data| && FitsWidths(data, widths)
    ensures Concat(PaddedLines(data[..k + 1], widths)) == Concat(PaddedLines(data[..k], widths)) + JoinValues(ReplacePadded(data[k], widths))
  {
    assert data[..k + 1] == data[..k] + [data[k]];
    PaddedLinesSnoc(data[..k], data[k], widths);
    ConcatSnoc(PaddedLines(data[..k], widths), JoinValues(ReplacePadded(data[k], widths)));
  }

  lemma PaddedLinesSnoc(init: seq<seq<string>>, row: seq<string>, widths: seq<nat>)
    requires FitsWidths(init, widths) && |row| <= |widths|
    ensures PaddedLines(init + [row], widths) == PaddedLines(init, widths) + [JoinValues(ReplacePadded(row, widths))]
  {
    assert (init + [row])[..|init|] == init;
  }

  /** defaultTableFormatter.Format. */
  method FormatCompact(headers: seq<string>, data: seq<seq<string>>) returns (out: string, err: Option<ShapeError>)
    ensures err.None? <==> AllRowsValid(headers, data)
    ensures err.Some? ==> out == "" && exists i: nat :: FirstInvalidRow(headers, data, i) && ValidateRow(headers, i, data[i]) == err
    ensures err.None? ==> out == CompactText(headers, data)
  {
    var builder := HeaderLines(headers);
    var rowIndex := 0;
    assert data[..0] == [];
    while rowIndex < |data|
      invariant 0 <= rowIndex <= |data|
      invariant forall i :: 0 <= i < rowIndex ==> |data[i]| == |headers|
      invariant builder == CompactText(headers, data[..rowIndex])
    {
      var e := ValidateRow(headers, rowIndex, data[rowIndex]);
      if e.Some? {
        assert FirstInvalidRow(headers, data, rowIndex);
        return "", e;
      }
      CompactTextStep(headers, data, rowIndex);
      builder := builder + JoinValues(data[rowIndex]);
      rowIndex := rowIndex + 1;
    }
    assert data[..rowIndex] == data;
    return builder, None;
  }

  /** The writing half of prettyTableFormatter.Format: the header lines,
      then each row of the content padded to the widths. */
  method WritePretty(headers: seq<string>, content: seq<seq<string>>, widths: seq<nat>) returns (out: string)
    requires FitsWidths(content, widths)
    ensures out == PrettyText(headers, content, widths)
  {
    var builder := HeaderLines(headers);
    var rowIndex := 0;
    assert content[..0] == [];
    while rowIndex < |content|
      invariant 0 <= rowIndex <= |content|
      invariant builder == HeaderLines(headers) + Concat(PaddedLines(content[..rowIndex], widths))
    {
      var line := JoinValues(ReplacePadded(content[rowIndex], widths));
      PaddedLinesStep(content, widths, rowIndex);
      builder := builder + line;
      rowIndex := rowIndex + 1;
    }
    assert content[..rowIndex] == content;
    return builder;
  }

  /** prettyTableFormatter.Format: every shape is checked, and the widths
      computed, before anything is written. */
  method FormatPretty(headers: seq<string>, data: seq<seq<string>>) returns (out: string, err: Option<ShapeError>)
    ensures err.None? <==> AllRowsValid(headers, data)
    ensures err.Some? ==> out == "" && exists i: nat :: FirstInvalidRow(headers, data, i) && ValidateRow(headers, i, data[i]) == err
    ensures err.None? ==> exists widths :: IsColumnWidths(headers, data, widths) && out == PrettyText(headers, data, widths)
  {
    var table := PreComputeFormattedData(headers, data);
    if table.Err? {
      return "", Some(table.error);
    }
    var widths := table.value.widths;
    out := WritePretty(headers, table.value.content, widths);
    return out, None;
  }

  /** The formatter the builder produces: the headers it was built with, and
      the sort functions the builder computed for it. */
  datatype TableFormatter =
    | DefaultTableFormatter(headers: seq<string>, sortFns: seq<Sorter.Comparator>)
    | PrettyTableFormatter(headers: seq<string>, sortFns: seq<Sorter.Comparator>)

  /** TableFormatter.Format, dispatched on the kind of formatter. */
  method Format(formatter: TableFormatter, data: seq<seq<string>>) returns (out: string, err: Option<ShapeError>)
    ensures err.None? <==> AllRowsValid(formatter.headers, data)
    ensures err.Some? ==> out == "" && exists i: nat :: FirstInvalidRow(formatter.headers, data, i) && ValidateRow(formatter.headers, i, data[i]) == err
    ensures err.None? && formatter.DefaultTableFormatter? ==> out == CompactText(formatter.headers, data)
    ensures err.None? && formatter.PrettyTableFormatter? ==>
      exists widths :: IsColumnWidths(formatter.headers, data, widths) && out == PrettyText(formatter.headers, data, widths)
  {
    match formatter
    case DefaultTableFormatter(headers, _) =>
      out, err := FormatCompact(headers, data);
    case PrettyTableFormatter(headers, _) =>
      out, err := FormatPretty(headers, data);
  }
}

/** Worked examples of the two modes on the inputs of the rendering tests;
    each expected text is written line by line. */
module FormatterScenarios {
  import opened Strings
  import opened Formatter

  const Headers: seq<string> := ["column 1", "column 2", "column 3"]

  /** A line of three cells. */
  lemma JoinValuesThree(a: string, b: string, c: string)
    ensures JoinValues([a, b, c]) == "| " + a + " | " + b + " | " + c + " |\n"
  {
    assert [a, b, c][1..] == [b, c] && [b, c][1..] == [c];
    assert Join([c], " | ") == c;
    assert Join([b, c], " | ") == b + " | " + c;
    assert Join([a, b, c], " | ") == a + " | " + (b + " | " + c);
  }

  /** The header line of the tests. */
  lemma HeaderLine()
    ensures JoinValues(["column 1", "column 2", "column 3"]) == "| column 1 | column 2 | column 3 |\n"
  {
    JoinValuesThree("column 1", "column 2", "column 3");
    assert "| " + "column 1" == "| column 1";
    assert "| column 1" + " | " == "| column 1 | ";
    assert "| column 1 | " + "column 2" == "| column 1 | column 2";
    assert "| column 1 | column 2" + " | " == "| column 1 | column 2 | ";
    assert "| column 1 | column 2 | " + "column 3" == "| column 1 | column 2 | column 3";
    assert "| column 1 | column 2 | column 3" + " |\n" == "| column 1 | column 2 | column 3 |\n";
  }

  /** The separator line of the tests. */
  lemma SeparatorLine()
    ensures JoinValues(["--------", "--------", "--------"]) == "| -------- | -------- | -------- |\n"
  {
    JoinValuesThree("--------", "--------", "--------");
    assert "| " + "--------" == "| --------";
    assert "| --------" + " | " == "| -------- | ";
    assert "| -------- | " + "--------" == "| -------- | --------";
    assert "| -------- | --------" + " | " == "| -------- | -------- | ";
    assert "| -------- | -------- | " + "--------" == "| -------- | -------- | --------";
    assert "| -------- | -------- | --------" + " |\n" == "| -------- | -------- | -------- |\n";
  }

  /** The compact data line of the tests. */
  lemma CompactRowLine()
    ensures JoinValues(["value 1", "val 2", "v 3"]) == "| value 1 | val 2 | v 3 |\n"
  {
    JoinValuesThree("value 1", "val 2", "v 3");
    assert "| " + "value 1" == "| value 1";
    assert "| value 1" + " | " == "| value 1 | ";
    assert "| value 1 | " + "val 2" == "| value 1 | val 2";
    assert "| value 1 | val 2" + " | " == "| value 1 | val 2 | ";
    assert "| value 1 | val 2 | " + "v 3" == "| value 1 | val 2 | v 3";
    assert "| value 1 | val 2 | v 3" + " |\n" == "| value 1 | val 2 | v 3 |\n";
  }

  /** The padded data line of the tests. */
  lemma PaddedRowLine()
    ensures JoinValues(["value 1 ", "val 2   ", "v 3     "]) == "| value 1  | val 2    | v 3      |\n"
  {
    JoinValuesThree("value 1 ", "val 2   ", "v 3     ");
    assert "| " + "value 1 " == "| value 1 ";
    assert "| value 1 " + " | " == "| value 1  | ";
    assert "| value 1  | " + "val 2   " == "| value 1  | val 2   ";
    assert "| value 1  | val 2   " + " | " == "| value 1  | val 2    | ";
    assert "| value 1  | val 2    | " + "v 3     " == "| value 1  | val 2    | v 3     ";
    assert "| value 1  | val 2    | v 3     " + " |\n" == "| value 1  | val 2    | v 3      |\n";
  }

  /** The padded data line of the long-cells test. */
  lemma LongCellsRowLine()
    ensures JoinValues(["long value 1", "val 2   ", "very long value 3"]) == "| long value 1 | val 2    | very long value 3 |\n"
  {
    JoinValuesThree("long value 1", "val 2   ", "very long value 3");
    assert "| " + "long value 1" == "| long value 1";
    assert "| long value 1" + " | " == "| long value 1 | ";
    assert "| long value 1 | " + "val 2   " == "| long value 1 | val 2   ";
    assert "| long value 1 | val 2   " + " | " == "| long value 1 | val 2    | ";
    assert "| long value 1 | val 2    | " + "very long value 3" == "| long value 1 | val 2    | very long value 3";
    assert "| long value 1 | val 2    | very long value 3" + " |\n" == "| long value 1 | val 2    | very long value 3 |\n";
  }

  lemma HeaderLinesScenario()
    ensures HeaderLines(Headers) == "| column 1 | column 2 | column 3 |\n" + "| -------- | -------- | -------- |\n"
  {
    var dashes := Repeat("-", 8);
    assert dashes == "--------" by {
      assert forall k :: 0 <= k < 8 ==> dashes[k] == '-';
    }
    assert ReplaceRepeated(Headers, "-") == [dashes, dashes, dashes];
    HeaderLine();
    SeparatorLine();
  }

  /** The only row of a one-row table gives the only data line. */
  lemma OneRowLine(row: seq<string>)
    ensures Concat(RowLines([row])) == JoinValues(row)
  {
    assert [row][..0] == [];
  }

  lemma OnePaddedRowLine(row: seq<string>, widths: seq<nat>)
    requires |row| <= |widths|
    ensures Concat(PaddedLines([row], widths)) == JoinValues(ReplacePadded(row, widths))
  {
    assert [row][..0] == [];
  }

  /** Each cell of the test row padded to eight characters. */
  lemma PaddedCellsScenario()
    ensures ReplacePadded(["value 1", "val 2", "v 3"], [8, 8, 8]) == ["value 1 ", "val 2   ", "v 3     "]
  {
    assert Pad("value 1", 8) == "value 1 ";
    assert Pad("val 2", 8) == "val 2   ";
    assert Pad("v 3", 8) == "v 3     ";
  }

  /** Cells already as wide as their column are left as they are. */
  lemma LongCellsPadded()
    ensures ReplacePadded(["long value 1", "val 2", "very long value 3"], [12, 8, 17])
      == ["long value 1", "val 2   ", "very long value 3"]
  {
    assert Pad("val 2", 8) == "val 2   ";
  }

  /** The compact mode copies the cells as they are. */
  lemma CompactScenario()
    ensures CompactText(Headers, [["value 1", "val 2", "v 3"]])
      == "| column 1 | column 2 | column 3 |\n" + "| -------- | -------- | -------- |\n" + "| value 1 | val 2 | v 3 |\n"
  {
    HeaderLinesScenario();
    OneRowLine(["value 1", "val 2", "v 3"]);
    CompactRowLine();
  }

  /** The pretty mode pads every data cell to the widest of its column,
      whatever widths satisfy the width specification. */
  lemma PrettyScenario(widths: seq<nat>)
    requires IsColumnWidths(Headers, [["value 1", "val 2", "v 3"]], widths)
    ensures PrettyText(Headers, [["value 1", "val 2", "v 3"]], widths)
      == "| column 1 | column 2 | column 3 |\n" + "| -------- | -------- | -------- |\n" + "| value 1  | val 2    | v 3      |\n"
  {
    var row := ["value 1", "val 2", "v 3"];
    assert IsColumnWidths(Headers, [row], [8, 8, 8]);
    ColumnWidthsAreUnique(Headers, [row], widths, [8, 8, 8]);
    HeaderLinesScenario();
    OnePaddedRowLine(row, widths);
    PaddedCellsScenario();
    PaddedRowLine();
  }

  /** Long cells widen only the data line: the header and separator lines
      are written by the same code as in the compact mode and stay unpadded. */
  lemma PrettyLongCellsScenario(widths: seq<nat>)
    requires IsColumnWidths(Headers, [["long value 1", "val 2", "very long value 3"]], widths)
    ensures PrettyText(Headers, [["long value 1", "val 2", "very long value 3"]], widths)
      == "| column 1 | column 2 | column 3 |\n" + "| -------- | -------- | -------- |\n" + "| long value 1 | val 2    | very long value 3 |\n"
  {
    var row := ["long value 1", "val 2", "very long value 3"];
    assert IsColumnWidth(Headers, [row], 1, 0, 12) && IsColumnWidth(Headers, [row], 1, 2, 17) by {
      assert 0 < |row| && 12 == |[row][0][0]| && 17 == |[row][0][2]|;
    }
    assert IsColumnWidths(Headers, [row], [12, 8, 17]);
    ColumnWidthsAreUnique(Headers, [row], widths, [12, 8, 17]);
    HeaderLinesScenario();
    OnePaddedRowLine(row, widths);
    LongCellsPadded();
    LongCellsRowLine();
  }
}
