# markdown-table-formatter in Dafny

This project models the core of a small Go library that renders a table of
strings as a Markdown table and can sort its rows first. It has three parts:

- **The row sorter** (`Sorter`). `SortDirection.StringCompare` turns a
  direction (+1 ascending, -1 descending, 0 none) into a three-way string
  comparison. Go's `int` is taken to be 64 bits wide. The product of the
  least `int` with -1 wraps around, so that one direction's comparison is
  not three-way. The composite comparator of `sortedMatrix.Less` applies
  comparator k to column k, and the first non-zero result decides.
  `SortTable` reorders the rows of the matrix in place, stably. Here it is an
  insertion sort over an `array` of rows that moves rows only through
  `Swap`, which exchanges two rows cell by cell. The method is proved equal
  to a functional insertion sort, `SortRows`. `SortRows` in turn is proved
  to be a permutation of its input, sorted under the composite comparator,
  and stable.
- **The renderer** (`Formatter`). The compact mode writes a header line, a
  line of dashes, and one pipe-joined line per row. The pretty mode first
  computes each column's width over the headers and all rows, then pads
  every data cell to that width. Both modes check each row's shape and stop
  at the first bad row with the error "expected N column(s), row number R
  got M", and no output.
- **The builders** (`FormatterBuilder`). `sortFunctions` picks the sort
  functions:
  - non-empty custom comparators win;
  - otherwise a set direction is repeated once per header;
  - otherwise there are none.

  Two builder classes carry the direction and the custom comparators.
  The compact builder's `WithAlphabeticalSortIn` and `WithCustomSort` set
  one of the two in place and return the same builder. Its `WithPrettyPrint`
  changes nothing and returns a new pretty builder with the same settings.
  The pretty builder has no setters. Each builder's `Build` turns its
  settings into a formatter.

The string primitives the library calls from Go's standard library live in
`Strings`:
- `strings.Compare`, as lexicographic order on character sequences;
- `strings.Join` and `strings.Repeat`;
- the `%-*s` left-aligned padding;
- the `%d` rendering of natural numbers.

A string's length is its number of characters. Comparators are Dafny
functions `(string, string) -> int`. The sort's lemmas require them to be
three-way total preorders (`Sorter.ThreeWay`).

## Model

| member | source | states |
|---|---|---|
| Strings.Compare | pkg/markdown/sorter.go:17 | result is -1, 0 or +1, and 0 exactly when the strings are equal |
| Strings.CompareIsLexicographic | pkg/markdown/sorter.go:17 | Compare(a, b) < 0 exactly when a is lexicographically smaller: a proper prefix, or smaller at the first differing position |
| Strings.CompareAntisymmetric | pkg/markdown/sorter.go:17 | swapping the arguments negates the comparison |
| Strings.CompareTransitive | pkg/markdown/sorter.go:17 | "at most" under Compare is transitive |
| Strings.Join | pkg/markdown/formatter.go:100 | strings.Join: the values with the separator between each two; no contract of its own, JoinLength gives its length and Formatter.JoinValuesIsCells its cell-by-cell reading |
| Strings.JoinLength | pkg/markdown/formatter.go:100 | a join is as long as its values plus one separator between each two |
| Strings.Repeat | pkg/markdown/formatter.go:106 | repeating a one-character string gives count copies of that character |
| Strings.RepeatLength | pkg/markdown/formatter.go:106 | a repeat is count times as long as the repeated string |
| Strings.Pad | pkg/markdown/formatter.go:114-115 | the padded cell starts with the item, continues with spaces only, and is max(width, item length) long |
| Strings.NatToString | pkg/markdown/formatter.go:94 | "%d" gives at least one decimal digit, with no leading zero for positive numbers |
| Strings.NatToStringRoundTrip | pkg/markdown/formatter.go:94 | reading the digits back gives the number |
| Sorter.StringCompare | pkg/markdown/sorter.go:16-18 | the product of the direction and strings.Compare as a 64-bit int: ascending is strings.Compare, descending its negation, no direction always 0; any positive direction is negative exactly on lexicographically smaller strings; the least int gives 0 on equal strings and the least int on all others (when a is lexicographically smaller than b, only once the product of the least int and -1 wraps) |
| Sorter.StringCompareThreeWay | pkg/markdown/sorter.go:16-18 | for every direction except the least int, swapping the arguments flips the sign, and "at most" is transitive |
| Sorter.DirectionIsThreeWay | pkg/markdown/sorter.go:16-18 | every direction's StringCompare except the least int's meets the comparator requirement of the sort |
| Sorter.MinDirectionIsNotThreeWay | pkg/markdown/sorter.go:16-18 | the least int's StringCompare is negative both ways on "a" and "b", so it does not meet that requirement |
| Sorter.ThreeWay | pkg/markdown/sorter.go:20 | the requirement on a comparator: swapping the arguments flips the sign, and "at most" is transitive; a predicate with no contract of its own, ThreeWayFacts derives its consequences |
| Sorter.ThreeWayFacts | pkg/markdown/sorter.go:20 | a three-way comparator returns 0 on equal arguments, and strict and tie orders chain transitively |
| Sorter.CompareFrom | pkg/markdown/sorter.go:31-41 | the loop of Less from column c on: the first non-zero comparator result, or 0; no contract of its own, stated by CompareFromFirstNonZero |
| Sorter.CompareRows | pkg/markdown/sorter.go:31-41 | CompareFrom from column 0, the composite comparator; no contract of its own, stated by CompareRowsIsPreorder |
| Sorter.Less | pkg/markdown/sorter.go:31-41 | the composite comparison is negative; no contract of its own, stated by LessIsFirstDecidingColumn |
| Sorter.CompareFromFirstNonZero | pkg/markdown/sorter.go:31-41 | the composite comparison from column c is 0 when every comparator ties there, and negative exactly when the first non-tying comparator is negative |
| Sorter.LessIsFirstDecidingColumn | pkg/markdown/sorter.go:31-41 | Less holds exactly when some column k is the first column where the comparators do not tie and comparator k is negative there; when all tie, Less is false |
| Sorter.CompareFromAntisymmetric | pkg/markdown/sorter.go:31-41 | swapping the rows flips the sign of the composite comparison |
| Sorter.CompareFromTransitive | pkg/markdown/sorter.go:31-41 | the composite comparison's "at most" is transitive, and strict when either step is strict |
| Sorter.CompareRowsIsPreorder | pkg/markdown/sorter.go:31-41 | the composite comparator is reflexive, sign-antisymmetric and transitive, and full ties are transitive |
| Sorter.AscendingThenDescending | pkg/markdown/sorter_test.go:76 | for ascending-then-descending comparators, r sorts no later than s exactly when column 0 is smaller, or column 0 is equal and column 1 is not smaller |
| Sorter.Insert | pkg/markdown/sorter.go:54-57 | inserting a row adds exactly one row, and every row stays wide enough for the comparators |
| Sorter.SortRows | pkg/markdown/sorter.go:54-57 | the sort keeps the number of rows, and every row stays wide enough for the comparators |
| Sorter.SortRowsWithoutComparators | pkg/markdown/sorter.go:51-53 | with no comparators the sort leaves the rows as they are |
| Sorter.InsertIsPermutation | pkg/markdown/sorter.go:54-57 | insertion adds the row to the multiset of rows and changes nothing else |
| Sorter.SortRowsIsPermutation | pkg/markdown/sorter.go:54-57 | the sorted rows are a permutation of the input rows |
| Sorter.InsertSorted | pkg/markdown/sorter.go:54-57 | inserting into sorted rows keeps them sorted |
| Sorter.SortRowsIsSorted | pkg/markdown/sorter.go:54-57 | every earlier row of the result compares at most equal to every later row |
| Sorter.TiedWithAppend | pkg/markdown/sorter.go:54 | the rows tied with r in a concatenation are those of each part, in order |
| Sorter.InsertTiedWith | pkg/markdown/sorter.go:54 | among the rows tied with any row r, the inserted row comes after the old ones |
| Sorter.SortRowsIsStable | pkg/markdown/sorter.go:54 | for every row r, the rows that tie with r come out in their input order |
| Sorter.Swap | pkg/markdown/sorter.go:43-48 | the first w cells of rows i and j are exchanged, w being the width of row 0; on rows of that width whole rows are exchanged; no other row changes |
| Sorter.InsertRow | pkg/markdown/sorter.go:54-57 | one insertion step by adjacent swaps: the first i + 1 rows become the insertion of row i into the first i rows, and later rows do not change |
| Sorter.SortTable | pkg/markdown/sorter.go:50-58 | the matrix becomes SortRows of its old rows: unchanged with no comparators, otherwise a sorted, stable permutation by the lemmas above |
| Sorter.TwoKeyScenario | pkg/markdown/sorter_test.go:69-86 | ascending on column 0 and then descending on column 1 gives a,z1 / a,a1 / b,b1 |
| Formatter.Message | pkg/markdown/formatter.go:94 | the text "expected N column(s), row number R got M"; no contract of its own, ValidateRowScenario shows it on the test row |
| Formatter.ValidateRow | pkg/markdown/formatter.go:90-97 | no error exactly when the row has one cell per header; the error holds the header count, the 1-based row number and the row length |
| Formatter.ValidateRowScenario | pkg/markdown/formatter_test.go:31-40 | a two-cell row under three headers gives "expected 3 column(s), row number 1 got 2" |
| Formatter.JoinValues | pkg/markdown/formatter.go:99-101 | a bar and a space, the values joined by a space, a bar and a space, then a space, a bar and a newline; no contract of its own, stated by JoinValuesFrame and JoinValuesIsCells |
| Formatter.JoinValuesFrame | pkg/markdown/formatter.go:99-101 | every joined line starts with a bar and a space and ends with a space, a bar and a newline |
| Formatter.JoinValuesIsCells | pkg/markdown/formatter.go:99-101 | a line of one or more cells is a pipe, then for each cell a space, the cell, a space and a pipe, then a newline; with no cells it is a pipe, two spaces, a pipe and a newline |
| Formatter.ReplaceRepeated | pkg/markdown/formatter.go:103-109 | one result per item, and element i is the symbol repeated len(items[i]) times |
| Formatter.SeparatorIsDashes | pkg/markdown/formatter.go:83 | the separator cells are runs of dashes, each exactly as long as its header |
| Formatter.ReplacePadded | pkg/markdown/formatter.go:111-118 | one result per item, and element i is items[i] padded to widths[i] |
| Formatter.PaddedCells | pkg/markdown/formatter.go:111-118 | each padded cell starts with the item, then spaces only, and is max(width, item length) long |
| Formatter.HeaderLines | pkg/markdown/formatter.go:81-84 | appendHeaders: the headers joined, then their dash runs joined; no contract of its own, stated by HeaderLinesAreCells and SeparatorIsDashes |
| Formatter.HeaderLinesAreCells | pkg/markdown/formatter.go:81-84 | with one or more headers, the header lines are the headers' cells on one line over one dash run per header on the next |
| Formatter.CompactText | pkg/markdown/formatter.go:28-38 | the text of the compact mode: header lines, then one joined line per row; a specification function, stated line by line by RowLinesAt and CompactTextStep |
| Formatter.PrettyText | pkg/markdown/formatter.go:49-60 | the text of the pretty mode for given widths: header lines, then one padded line per row; a specification function, stated line by line by PaddedLinesAt and PaddedLinesStep |
| Formatter.RowLinesAt | pkg/markdown/formatter.go:35 | data line i of the compact mode is row i joined as it is |
| Formatter.PaddedLinesAt | pkg/markdown/formatter.go:57 | data line i of the pretty mode is row i padded to the column widths |
| Formatter.CompactTextStep | pkg/markdown/formatter.go:31-36 | one more row adds its line at the end of the compact text |
| Formatter.PaddedLinesStep | pkg/markdown/formatter.go:56-58 | one more row adds its padded line at the end of the pretty data lines |
| Formatter.ColumnWidthsAreUnique | pkg/markdown/formatter.go:62-79 | the column widths are determined by the headers and the rows |
| Formatter.PreComputeFormattedData | pkg/markdown/formatter.go:62-79 | succeeds exactly when every row has one cell per header; then it returns the rows unchanged and one width per header, each at least the header and every cell of its column and equal to one of them; otherwise it returns the first bad row's error |
| Formatter.FormatCompact | pkg/markdown/formatter.go:28-38 | no error exactly when every row has the right shape, and then the output is the header line, the separator line and each row joined as it is, in order; otherwise "" and the first bad row's error |
| Formatter.WritePretty | pkg/markdown/formatter.go:54-59 | the output is the header line, the separator line and each row padded to the widths, in order |
| Formatter.FormatPretty | pkg/markdown/formatter.go:49-60 | no error exactly when every row has the right shape, and then the output is the pretty text for the column widths; otherwise "" and the first bad row's error, with nothing written before the check |
| Formatter.Format | pkg/markdown/formatter.go:8-10 | each kind of formatter behaves as its mode's Format |
| FormatterScenarios.HeaderLinesScenario | pkg/markdown/formatter_test.go:21-25 | the test headers give their pipe-joined line over a line of three runs of eight dashes |
| FormatterScenarios.CompactScenario | pkg/markdown/formatter_test.go:13-29 | the compact output of the test table is the expected three lines |
| FormatterScenarios.PrettyScenario | pkg/markdown/formatter_test.go:49-65 | the pretty output of the test table pads the data cells to 8 characters |
| FormatterScenarios.PrettyLongCellsScenario | pkg/markdown/formatter.go:54-58 | with cells longer than their headers only the data line is widened; the header and separator lines stay as in the compact mode |
| FormatterBuilder.SortFunctions | pkg/markdown/formatter_builder.go:48-60 | non-empty custom comparators are returned unchanged; otherwise a set direction gives one comparator per header, each equal to that direction's StringCompare; otherwise the result is empty |
| FormatterBuilder.SortFunctionsAreThreeWay | pkg/markdown/formatter_builder.go:48-60 | the selected comparators meet the sort's requirement whenever the custom ones do and, when they are empty, the direction is not the least int |
| FormatterBuilder.NoDirectionMeansNoSorting | pkg/markdown/formatter_builder.go:59 | with no custom comparators and no direction, sorting leaves every table unchanged |
| FormatterBuilder.AlphabeticalSortResult | pkg/markdown/formatter_builder.go:52-57 | sorting rows of header width by a set direction other than the least int gives a sorted, stable permutation of the rows |
| FormatterBuilder.TableFormatterBuilder.constructor | pkg/markdown/formatter_builder.go:3-5 | a new builder has no direction and no custom comparators |
| FormatterBuilder.TableFormatterBuilder.WithAlphabeticalSortIn | pkg/markdown/formatter_builder.go:12-15 | sets only the direction and returns the same builder |
| FormatterBuilder.TableFormatterBuilder.WithCustomSort | pkg/markdown/formatter_builder.go:17-20 | replaces only the custom comparators and returns the same builder |
| FormatterBuilder.TableFormatterBuilder.Build | pkg/markdown/formatter_builder.go:22-27 | always gives a compact formatter over the headers, carrying the selected sort functions |
| FormatterBuilder.TableFormatterBuilder.WithPrettyPrint | pkg/markdown/formatter_builder.go:29-34 | a new pretty builder with the same direction and custom comparators |
| FormatterBuilder.PrettyTableFormatterBuilder.FromSettings | pkg/markdown/formatter_builder.go:30-33 | the pretty builder holds the given direction and comparators |
| FormatterBuilder.PrettyTableFormatterBuilder.Build | pkg/markdown/formatter_builder.go:41-46 | always gives a pretty formatter over the headers, carrying the selected sort functions |
| FormatterBuilder.BuilderScenario | pkg/markdown/formatter_test.go:10-11 | a fresh builder, in both modes, gives formatters over the headers with no sort functions |

## Left out

- Go's `sort.Stable` is replaced by an insertion sort through `Swap`. The
  model proves the properties `sort.Stable` promises (a stable sort into a
  permutation), not Go's algorithm or its sequence of `Less`/`Swap` calls.
- Sorter.SortTable: requires every row to be as wide as row 0, with at
  least one column per comparator. The source checks neither. The comment
  at `sorter.go:32` reads "assumes 0 <= len(s.fns) <= len(s.data)",
  comparing the comparators with the number of rows; the model reads it as
  at most one comparator per column of a row (`|fns| <= |data[0]|`). The
  comment at `sorter.go:44` ("assumes for all i that s.data[i] is the
  same") is the one that asks for rows of one width. Go fails on fewer
  tables than the model excludes:
  - `Less` panics only when it reaches a column past the end of one of
    its two rows, which needs every earlier comparator to tie on them
    (`sorter.go:33-38`);
  - `Swap` panics only when one of the two rows it exchanges is narrower
    than row 0, and leaves the cells of a wider row past row 0's width in
    place (`sorter.go:45-46`).

  So the model does not cover some tables Go sorts without fault, for
  instance `[["b"], ["a"]]` with two comparators (column 0 decides and
  `Swap` exchanges one cell) or `[["a", "x"], ["b"]]` in ascending order
  (`Less` of the second row before the first is false, so nothing is
  swapped). Sorter.Swap itself states the partial exchange for wider rows.
- Sorter.SortTable: the model's matrix is an `array` of row values.
  Go's rows are slices that may share storage with other slices; that
  aliasing is not modelled.
- Sorter.StringCompare: Go's `int` is taken to be 64 bits wide. On a
  32-bit platform the wrap-around falls at a different least value, which
  is not modelled.
- Sorter.StringCompareThreeWay, Sorter.DirectionIsThreeWay,
  FormatterBuilder.SortFunctionsAreThreeWay and
  FormatterBuilder.AlphabeticalSortResult: they exclude the least `int` as
  a direction, because its product with -1 wraps back to itself and its
  comparison is negative both ways (Sorter.MinDirectionIsNotThreeWay).
  What Go's sort does with that comparator is not modelled.
- Comparators are arbitrary functions. Dafny's lemmas about sorting
  require them to be three-way total preorders; a comparator breaking this
  gives whatever order Go's sort produces, which is not modelled.
- Byte and rune lengths: Go's `len` counts bytes and `%-*s` pads by runes.
  The model treats a string as a sequence of characters, so both count
  characters. Display width is not modelled.
- The formatting verbs `fmt.Sprintf` and `fmt.Errorf`, and
  `strings.Builder`, are replaced by direct sequence operations. Errors are
  values (`Formatter.ShapeError`, whose text is `Formatter.Message`), not Go
  `error` values.
- The builder and the formatters do not fit together as written:
  `formatter_builder.go:23-26` and `:42-45` pass a second argument, the sort
  functions, that the constructors at `formatter.go:12` and `formatter.go:18`
  do not take. `formatter.go` also never calls `SortTable`. In the model a
  formatter carries the sort functions it was built with, and
  `Formatter.Format` ignores them, as both `Format` methods of
  `formatter.go` do. The
  sorter and the renderer stay separate operations; "sort, then render" is
  not claimed as library behaviour.
- The pretty-mode test at `formatter_test.go:75-79` expects padded headers
  and a widened separator. The header lines are written by `appendHeaders`
  (`formatter.go:81-84`) without padding, so the model follows the code:
  FormatterScenarios.PrettyLongCellsScenario states the output as the code
  writes it.
- Checks on sort specifications (entry count, column range, duplicate
  columns) do not occur in `sorter.go`, `formatter.go` or
  `formatter_builder.go`, so the model has none.
- The `TableFormatter` Go interface is modelled as a datatype with one
  constructor per implementation, not as dynamic dispatch.
