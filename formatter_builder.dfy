/**
  The fluent builders of pkg/markdown/formatter_builder.go. A builder keeps
  an alphabetical sort direction and a list of custom comparators; Build
  turns them, with the headers, into the formatter's sort functions, and
  WithPrettyPrint switches to a builder of pretty formatters that carries
  the same two settings.
 */
module FormatterBuilder {
  import opened Sorter
  import opened Formatter

  /** sortFunctions: custom comparators win; otherwise a set direction
      gives one string comparator per header; otherwise there are none. */
  function SortFunctions(customSortFns: seq<Comparator>, alphaSortDirection: SortDirection, headers: seq<string>)
    : (r: seq<Comparator>)
    ensures |customSortFns| > 0 ==> r == customSortFns
    ensures |customSortFns| == 0 && alphaSortDirection != NoDirection ==>
      |r| == |headers| && forall i, a, b :: 0 <= i < |r| ==> r[i](a, b) == StringCompare(alphaSortDirection, a, b)
    ensures |customSortFns| == 0 && alphaSortDirection == NoDirection ==> r == []
  {
    if |customSortFns| > 0 then customSortFns
    else if alphaSortDirection != NoDirection then
      var compare := (a, b) => StringCompare(alphaSortDirection, a, b);
      seq(|headers|, _ => compare)
    else []
  }

  /** The selected functions are fit for sorting whenever the custom ones
      are and the direction they fall back on is not the least one. */
  lemma SortFunctionsAreThreeWay(customSortFns: seq<Comparator>, alphaSortDirection: SortDirection, headers: seq<string>)
    requires AllThreeWay(customSortFns)
    requires |customSortFns| > 0 || alphaSortDirection != MinDirection
    ensures AllThreeWay(SortFunctions(customSortFns, alphaSortDirection, headers))
  {
    if |customSortFns| == 0 && alphaSortDirection != NoDirection {
      DirectionIsThreeWay(alphaSortDirection);
    }
  }

  /** With neither custom comparators nor a direction, sorting is the identity. */
  lemma NoDirectionMeansNoSorting(headers: seq<string>, rows: seq<Row>)
    ensures SortRows(SortFunctions([], NoDirection, headers), rows) == rows
  {
    SortRowsWithoutComparators(rows);
  }

  /** An alphabetical sort over rows of header width orders the rows by the
      direction applied column after column, keeps every row, and keeps
      rows equal on all columns in their input order. */
  lemma AlphabeticalSortResult(direction: SortDirection, headers: seq<string>, rows: seq<Row>, r: Row)
    requires direction != NoDirection && direction != MinDirection
    requires (forall i :: 0 <= i < |rows| ==> |rows[i]| == |headers|) && |r| == |headers|
    ensures var fns := SortFunctions([], direction, headers);
      && Covers(fns, rows)
      && Sorted(fns, SortRows(fns, rows))
      && multiset(SortRows(fns, rows)) == multiset(rows)
      && TiedWith(fns, SortRows(fns, rows), r) == TiedWith(fns, rows, r)
  {
    var fns := SortFunctions([], direction, headers);
    SortFunctionsAreThreeWay([], direction, headers);
    SortRowsIsSorted(fns, rows);
    SortRowsIsPermutation(fns, rows);
    SortRowsIsStable(fns, rows, r);
  }

  /** tableFormatterBuilder: the settings of the compact formatters it builds. */
  class TableFormatterBuilder {
    var alphaSortDirection: SortDirection
    var customSortFns: seq<Comparator>

    /** NewTableFormatterBuilder: no direction and no custom comparators. */
    constructor ()
      ensures alphaSortDirection == NoDirection && customSortFns == []
    {
      alphaSortDirection := NoDirection;
      customSortFns := [];
    }

    method WithAlphabeticalSortIn(direction: SortDirection) returns (b: TableFormatterBuilder)
      modifies this
      ensures b == this
      ensures alphaSortDirection == direction && customSortFns == old(customSortFns)
    {
      alphaSortDirection := direction;
      return this;
    }

    method WithCustomSort(sortFns: seq<Comparator>) returns (b: TableFormatterBuilder)
      modifies this
      ensures b == this
      ensures customSortFns == sortFns && alphaSortDirection == old(alphaSortDirection)
    {
      customSortFns := sortFns;
      return this;
    }

    /** Build never fails: shapes are only checked when the formatter runs. */
    method Build(headers: seq<string>) returns (f: TableFormatter)
      ensures f.DefaultTableFormatter? && f.headers == headers
      ensures f.sortFns == SortFunctions(customSortFns, alphaSortDirection, headers)
    {
      return DefaultTableFormatter(headers, SortFunctions(customSortFns, alphaSortDirection, headers));
    }

    /** A new pretty builder with this builder's settings; this one is not changed. */
    method WithPrettyPrint() returns (p: PrettyTableFormatterBuilder)
      ensures fresh(p)
      ensures p.alphaSortDirection == alphaSortDirection && p.customSortFns == customSortFns
    {
      p := new PrettyTableFormatterBuilder.FromSettings(alphaSortDirection, customSortFns);
    }
  }

  /** prettyTableFormatterBuilder: the settings of the pretty formatters it builds. */
  class PrettyTableFormatterBuilder {
    var alphaSortDirection: SortDirection
    var customSortFns: seq<Comparator>

    constructor FromSettings(direction: SortDirection, sortFns: seq<Comparator>)
      ensures alphaSortDirection == direction && customSortFns == sortFns
    {
      alphaSortDirection := direction;
      customSortFns := sortFns;
    }

    /** Build never fails: shapes are only checked when the formatter runs. */
    method Build(headers: seq<string>) returns (f: TableFormatter)
      ensures f.PrettyTableFormatter? && f.headers == headers
      ensures f.sortFns == SortFunctions(customSortFns, alphaSortDirection, headers)
    {
      return PrettyTableFormatter(headers, SortFunctions(customSortFns, alphaSortDirection, headers));
    }
  }

  /** The fluent chains of the rendering tests: both builders give the
      formatter of their mode over the given headers, and with no settings
      the formatter has no sort functions. */
  method BuilderScenario() returns (compact: TableFormatter, pretty: TableFormatter)
    ensures compact == DefaultTableFormatter(["column 1", "column 2", "column 3"], [])
    ensures pretty == PrettyTableFormatter(["column 1", "column 2", "column 3"], [])
  {
    var builder := new TableFormatterBuilder();
    compact := builder.Build(["column 1", "column 2", "column 3"]);
    var prettyBuilder := builder.WithPrettyPrint();
    pretty := prettyBuilder.Build(["column 1", "column 2", "column 3"]);
  }
}
