/**
  The row sorter of pkg/markdown/sorter.go: a stable, in-place reordering of
  the rows of a row-major string matrix under a composite comparator whose
  k-th component compares column k.
 */
module Sorter {
  import opened Strings

  /** Go's `type SortDirection int`, with Go's int taken to be 64 bits
      wide, and its three named values. */
  newtype SortDirection = d: int | -0x8000_0000_0000_0000 <= d < 0x8000_0000_0000_0000

  const MinInt: int := -0x8000_0000_0000_0000
  const MaxInt: int := 0x7fff_ffff_ffff_ffff

  const NoDirection: SortDirection := 0
  const AscendingOrder: SortDirection := 1
  const DescendingOrder: SortDirection := -1
  /** The least direction Go's int can hold; its product with -1 wraps. */
  const MinDirection: SortDirection := -0x8000_0000_0000_0000

  /** A column comparator: negative, zero or positive like strings.Compare. */
  type Comparator = (string, string) -> int

  type Row = seq<string>

  /** Multiplying by a comparison in -1..1 negates, zeroes or keeps. */
  lemma ScaledProduct(d: int, c: int)
    requires -1 <= c <= 1
    ensures d * c == if c == -1 then -d else if c == 0 then 0 else d
  {
  }

  /** SortDirection.StringCompare: the direction times strings.Compare, in
      Go's 64-bit int arithmetic. As the comparison is -1, 0 or 1, the only
      product outside the range of int is MinInt times -1, which wraps
      around to MinInt. */
  function StringCompare(direction: SortDirection, a: string, b: string): (r: int)
    ensures MinInt <= r <= MaxInt
    ensures direction == AscendingOrder ==> r == Compare(a, b)
    ensures direction == DescendingOrder ==> r == -Compare(a, b)
    ensures direction == NoDirection ==> r == 0
    ensures direction > 0 ==> (r < 0 <==> LexLess(a, b))
    ensures direction == MinDirection ==> (r == 0 <==> a == b) && (a != b ==> r == MinInt)
  {
    CompareIsLexicographic(a, b);
    ScaledProduct(direction as int, Compare(a, b));
    var product := direction as int * Compare(a, b);
    if product > MaxInt then product - 0x1_0000_0000_0000_0000 else product
  }

  function Sign(n: int): int {
    if n < 0 then -1 else if n > 0 then 1 else 0
  }

  /** What the sort needs of a comparator: it is a three-way total preorder,
      that is, swapping the arguments flips the sign, and "at most" is
      transitive. */
  ghost predicate ThreeWay(f: Comparator) {
    && (forall x, y :: Sign(f(x, y)) == -Sign(f(y, x)))
    && (forall x, y, z {:trigger f(x, y), f(y, z), f(x, z)} :: f(x, y) <= 0 && f(y, z) <= 0 ==> f(x, z) <= 0)
  }

  ghost predicate AllThreeWay(fns: seq<Comparator>) {
    forall k :: 0 <= k < |fns| ==> ThreeWay(fns[k])
  }

  /** Any direction but the least flips sign with its arguments and is
      transitive. */
  lemma StringCompareThreeWay(direction: SortDirection, x: string, y: string, z: string)
    requires direction != MinDirection
    ensures Sign(StringCompare(direction, x, y)) == -Sign(StringCompare(direction, y, x))
    ensures StringCompare(direction, x, y) <= 0 && StringCompare(direction, y, z) <= 0 ==> StringCompare(direction, x, z) <= 0
  {
    var d := direction as int;
    CompareAntisymmetric(x, y);
    ScaledProduct(d, Compare(x, y));
    ScaledProduct(d, Compare(y, x));
    ScaledProduct(d, Compare(y, z));
    ScaledProduct(d, Compare(x, z));
    if StringCompare(direction, x, y) <= 0 && StringCompare(direction, y, z) <= 0 {
      if d > 0 {
        CompareTransitive(x, y, z);
      } else if d < 0 {
        CompareAntisymmetric(y, z);
        CompareAntisymmetric(x, z);
        CompareTransitive(z, y, x);
      }
    }
  }

  lemma DirectionIsThreeWay(direction: SortDirection)
    requires direction != MinDirection
    ensures ThreeWay((a, b) => StringCompare(direction, a, b))
  {
    forall x, y ensures Sign(StringCompare(direction, x, y)) == -Sign(StringCompare(direction, y, x)) {
      StringCompareThreeWay(direction, x, y, x);
    }
    forall x, y, z | StringCompare(direction, x, y) <= 0 && StringCompare(direction, y, z) <= 0
      ensures StringCompare(direction, x, z) <= 0
    {
      StringCompareThreeWay(direction, x, y, z);
    }
  }

  /** The least direction is negative on both orders of two different
      strings, so it is no comparator a sort can use. */
  lemma MinDirectionIsNotThreeWay()
    ensures !ThreeWay((a, b) => StringCompare(MinDirection, a, b))
  {
    var f: Comparator := (a, b) => StringCompare(MinDirection, a, b);
    assert f("a", "b") == MinInt && f("b", "a") == MinInt;
    assert Sign(f("a", "b")) != -Sign(f("b", "a"));
  }

  /** Consequences of ThreeWay used below. */
  lemma ThreeWayFacts(f: Comparator, x: string, y: string, z: string)
    requires ThreeWay(f)
    ensures f(x, x) == 0
    ensures f(x, y) < 0 && f(y, z) <= 0 ==> f(x, z) < 0
    ensures f(x, y) <= 0 && f(y, z) < 0 ==> f(x, z) < 0
    ensures f(x, y) == 0 && f(y, z) == 0 ==> f(x, z) == 0
  {
  }

  // ----- the composite comparator of sortedMatrix.Less -----

  /** Every row is wide enough for every comparator to find its column. */
  predicate Covers(fns: seq<Comparator>, rows: seq<Row>) {
    forall i :: 0 <= i < |rows| ==> |fns| <= |rows[i]|
  }

  /** The composite comparison from column c on: the first non-zero result
      of fns[k](r[k], s[k]) for k = c, c+1, ..., or 0 when all tie. */
  function CompareFrom(fns: seq<Comparator>, r: Row, s: Row, c: nat): int
    requires c <= |fns| <= |r| && |fns| <= |s|
    decreases |fns| - c
  {
    if c == |fns| then 0
    else if fns[c](r[c], s[c]) != 0 then fns[c](r[c], s[c])
    else CompareFrom(fns, r, s, c + 1)
  }

  function CompareRows(fns: seq<Comparator>, r: Row, s: Row): int
    requires |fns| <= |r| && |fns| <= |s|
  {
    CompareFrom(fns, r, s, 0)
  }

  /** sortedMatrix.Less on the two rows themselves. */
  predicate Less(fns: seq<Comparator>, r: Row, s: Row)
    requires |fns| <= |r| && |fns| <= |s|
  {
    CompareRows(fns, r, s) < 0
  }

  /** Two rows tie when every comparator returns 0 on its column. */
  predicate Ties(fns: seq<Comparator>, r: Row, s: Row)
    requires |fns| <= |r| && |fns| <= |s|
  {
    CompareRows(fns, r, s) == 0
  }

  /** Column k is the first one on which the comparators do not tie, and
      there fns[k] is negative. */
  ghost predicate DecidedLessAt(fns: seq<Comparator>, r: Row, s: Row, k: nat)
    requires |fns| <= |r| && |fns| <= |s|
  {
    && k < |fns|
    && (forall m :: 0 <= m < k ==> fns[m](r[m], s[m]) == 0)
    && fns[k](r[k], s[k]) < 0
  }

  lemma {:induction false} CompareFromFirstNonZero(fns: seq<Comparator>, r: Row, s: Row, c: nat)
    requires c <= |fns| <= |r| && |fns| <= |s|
    ensures (forall m :: c <= m < |fns| ==> fns[m](r[m], s[m]) == 0) ==> CompareFrom(fns, r, s, c) == 0
    ensures CompareFrom(fns, r, s, c) < 0 <==>
      exists k :: c <= k < |fns| && (forall m :: c <= m < k ==> fns[m](r[m], s[m]) == 0) && fns[k](r[k], s[k]) < 0
    decreases |fns| - c
  {
    if c < |fns| {
      CompareFromFirstNonZero(fns, r, s, c + 1);
      if CompareFrom(fns, r, s, c) < 0 && fns[c](r[c], s[c]) == 0 {
        var k :| c + 1 <= k < |fns| && (forall m :: c + 1 <= m < k ==> fns[m](r[m], s[m]) == 0) && fns[k](r[k], s[k]) < 0;
        assert forall m :: c <= m < k ==> fns[m](r[m], s[m]) == 0;
      }
      if exists k :: c <= k < |fns| && (forall m :: c <= m < k ==> fns[m](r[m], s[m]) == 0) && fns[k](r[k], s[k]) < 0 {
        var k :| c <= k < |fns| && (forall m :: c <= m < k ==> fns[m](r[m], s[m]) == 0) && fns[k](r[k], s[k]) < 0;
        if k > c {
          assert fns[c](r[c], s[c]) == 0;
          assert c + 1 <= k < |fns| && (forall m :: c + 1 <= m < k ==> fns[m](r[m], s[m]) == 0) && fns[k](r[k], s[k]) < 0;
        }
      }
    }
  }

  /** Less holds exactly when the first comparator that does not tie is
      negative; when every comparator ties, Less is false. */
  lemma LessIsFirstDecidingColumn(fns: seq<Comparator>, r: Row, s: Row)
    requires |fns| <= |r| && |fns| <= |s|
    ensures Less(fns, r, s) <==> exists k :: DecidedLessAt(fns, r, s, k)
    ensures (forall m :: 0 <= m < |fns| ==> fns[m](r[m], s[m]) == 0) ==> !Less(fns, r, s)
  {
    CompareFromFirstNonZero(fns, r, s, 0);
    if Less(fns, r, s) {
      var k :| 0 <= k < |fns| && (forall m :: 0 <= m < k ==> fns[m](r[m], s[m]) == 0) && fns[k](r[k], s[k]) < 0;
      assert DecidedLessAt(fns, r, s, k);
    }
  }

  lemma {:induction false} CompareFromAntisymmetric(fns: seq<Comparator>, r: Row, s: Row, c: nat)
    requires c <= |fns| <= |r| && |fns| <= |s| && AllThreeWay(fns)
    ensures Sign(CompareFrom(fns, r, s, c)) == -Sign(CompareFrom(fns, s, r, c))
    decreases |fns| - c
  {
    if c < |fns| {
      assert ThreeWay(fns[c]);
      assert Sign(fns[c](r[c], s[c])) == -Sign(fns[c](s[c], r[c]));
      CompareFromAntisymmetric(fns, r, s, c + 1);
    }
  }

  lemma {:induction false} CompareFromTransitive(fns: seq<Comparator>, r: Row, s: Row, t: Row, c: nat)
    requires c <= |fns| <= |r| && |fns| <= |s| && |fns| <= |t| && AllThreeWay(fns)
    requires CompareFrom(fns, r, s, c) <= 0 && CompareFrom(fns, s, t, c) <= 0
    ensures CompareFrom(fns, r, t, c) <= 0
    ensures CompareFrom(fns, r, s, c) < 0 || CompareFrom(fns, s, t, c) < 0 ==> CompareFrom(fns, r, t, c) < 0
    decreases |fns| - c
  {
    if c < |fns| {
      ThreeWayFacts(fns[c], r[c], s[c], t[c]);
      if fns[c](r[c], s[c]) == 0 && fns[c](s[c], t[c]) == 0 {
        CompareFromTransitive(fns, r, s, t, c + 1);
      }
    }
  }

  /** The composite comparator is again a three-way total preorder. */
  lemma CompareRowsIsPreorder(fns: seq<Comparator>, r: Row, s: Row, t: Row)
    requires |fns| <= |r| && |fns| <= |s| && |fns| <= |t| && AllThreeWay(fns)
    ensures CompareRows(fns, r, r) == 0
    ensures Sign(CompareRows(fns, r, s)) == -Sign(CompareRows(fns, s, r))
    ensures CompareRows(fns, r, s) <= 0 && CompareRows(fns, s, t) <= 0 ==> CompareRows(fns, r, t) <= 0
    ensures CompareRows(fns, r, s) < 0 && CompareRows(fns, s, t) <= 0 ==> CompareRows(fns, r, t) < 0
    ensures Ties(fns, r, s) && Ties(fns, s, t) ==> Ties(fns, r, t)
  {
    CompareFromAntisymmetric(fns, r, r, 0);
    CompareFromAntisymmetric(fns, r, s, 0);
    CompareFromAntisymmetric(fns, s, t, 0);
    CompareFromAntisymmetric(fns, r, t, 0);
    if CompareRows(fns, r, s) <= 0 && CompareRows(fns, s, t) <= 0 {
      CompareFromTransitive(fns, r, s, t, 0);
    }
    if Ties(fns, r, s) && Ties(fns, s, t) {
      CompareFromTransitive(fns, t, s, r, 0);
    }
  }

  /** With ascending order on column 0 and descending order on column 1,
      row r may precede row s exactly when r[0] is smaller, or r[0] equals
      s[0] and r[1] is not smaller than s[1]. */
  lemma AscendingThenDescending(r: Row, s: Row)
    requires |r| >= 2 && |s| >= 2
    ensures var fns: seq<Comparator> := [(a, b) => StringCompare(AscendingOrder, a, b),
                                         (a, b) => StringCompare(DescendingOrder, a, b)];
      CompareRows(fns, r, s) <= 0 <==>
        Compare(r[0], s[0]) < 0 || (r[0] == s[0] && Compare(r[1], s[1]) >= 0)
  {
  }

  // ----- the specification of the sort: a stable insertion sort -----

  /** Insert row x into t after every row it is not Less than, scanning
      from the end: the rows passed over are exactly those x is Less than. */
  function Insert(fns: seq<Comparator>, x: Row, t: seq<Row>): (r: seq<Row>)
    requires |fns| <= |x| && Covers(fns, t)
    ensures |r| == |t| + 1
    ensures Covers(fns, r)
  {
    if t == [] then [x]
    else if Less(fns, x, t[|t| - 1]) then
      assert t == t[..|t| - 1] + [t[|t| - 1]];
      Insert(fns, x, t[..|t| - 1]) + [t[|t| - 1]]
    else t + [x]
  }

  /** The order sort.Stable produces for three-way comparators: rows
      inserted one by one, in input order. */
  function SortRows(fns: seq<Comparator>, rows: seq<Row>): (r: seq<Row>)
    requires Covers(fns, rows)
    ensures |r| == |rows|
    ensures Covers(fns, r)
  {
    if rows == [] then []
    else
      assert rows == rows[..|rows| - 1] + [rows[|rows| - 1]];
      Insert(fns, rows[|rows| - 1], SortRows(fns, rows[..|rows| - 1]))
  }

  /** Every pair of rows is in order under the composite comparator. */
  ghost predicate Sorted(fns: seq<Comparator>, rows: seq<Row>)
    requires Covers(fns, rows)
  {
    forall i, j :: 0 <= i < j < |rows| ==> CompareRows(fns, rows[i], rows[j]) <= 0
  }

  /** The rows of `rows` that tie with r, in their order in `rows`. */
  function TiedWith(fns: seq<Comparator>, rows: seq<Row>, r: Row): seq<Row>
    requires Covers(fns, rows) && |fns| <= |r|
  {
    if rows == [] then []
    else
      TiedWith(fns, rows[..|rows| - 1], r)
        + (if Ties(fns, rows[|rows| - 1], r) then [rows[|rows| - 1]] else [])
  }

  lemma {:induction false} TiedWithAppend(fns: seq<Comparator>, a: seq<Row>, b: seq<Row>, r: Row)
    requires Covers(fns, a) && Covers(fns, b) && |fns| <= |r|
    ensures TiedWith(fns, a + b, r) == TiedWith(fns, a, r) + TiedWith(fns, b, r)
    decreases |b|
  {
    if b == [] {
      assert a + b == a;
    } else {
      var b' := b[..|b| - 1];
      assert (a + b)[..|a + b| - 1] == a + b';
      TiedWithAppend(fns, a, b', r);
    }
  }

  /** With zero comparators every Less is false and nothing moves. */
  lemma {:induction false} SortRowsWithoutComparators(rows: seq<Row>)
    ensures SortRows([], rows) == rows
  {
    if rows != [] {
      SortRowsWithoutComparators(rows[..|rows| - 1]);
      assert rows == rows[..|rows| - 1] + [rows[|rows| - 1]];
    }
  }

  lemma {:induction false} InsertIsPermutation(fns: seq<Comparator>, x: Row, t: seq<Row>)
    requires |fns| <= |x| && Covers(fns, t)
    ensures multiset(Insert(fns, x, t)) == multiset(t) + multiset{x}
    decreases |t|
  {
    if t != [] && Less(fns, x, t[|t| - 1]) {
      var init := t[..|t| - 1];
      assert t == init + [t[|t| - 1]];
      InsertIsPermutation(fns, x, init);
    }
  }

  /** The result is a permutation of the input rows. */
  lemma {:induction false} SortRowsIsPermutation(fns: seq<Comparator>, rows: seq<Row>)
    requires Covers(fns, rows)
    ensures multiset(SortRows(fns, rows)) == multiset(rows)
    decreases |rows|
  {
    if rows != [] {
      var init := rows[..|rows| - 1];
      assert rows == init + [rows[|rows| - 1]];
      SortRowsIsPermutation(fns, init);
      InsertIsPermutation(fns, rows[|rows| - 1], SortRows(fns, init));
    }
  }

  /** A sorted sequence stays sorted when a row no smaller than each of its
      rows is appended. */
  lemma SortedAppend(fns: seq<Comparator>, u: seq<Row>, y: Row)
    requires Covers(fns, u) && |fns| <= |y| && Sorted(fns, u)
    requires forall i :: 0 <= i < |u| ==> CompareRows(fns, u[i], y) <= 0
    ensures Covers(fns, u + [y]) && Sorted(fns, u + [y])
  {
    assert forall i :: 0 <= i < |u| ==> (u + [y])[i] == u[i];
  }

  /** Every row of Insert(fns, x, t) is x or a row of t. */
  lemma InsertRowsFrom(fns: seq<Comparator>, x: Row, t: seq<Row>, i: nat)
    requires |fns| <= |x| && Covers(fns, t) && i < |t| + 1
    ensures Insert(fns, x, t)[i] == x || exists k :: 0 <= k < |t| && t[k] == Insert(fns, x, t)[i]
  {
    var u := Insert(fns, x, t);
    InsertIsPermutation(fns, x, t);
    assert u[i] in multiset(u);
  }

  lemma {:induction false} InsertSorted(fns: seq<Comparator>, x: Row, t: seq<Row>)
    requires |fns| <= |x| && Covers(fns, t) && AllThreeWay(fns) && Sorted(fns, t)
    ensures Sorted(fns, Insert(fns, x, t))
    decreases |t|
  {
    if t != [] {
      var init, last := t[..|t| - 1], t[|t| - 1];
      assert forall i :: 0 <= i < |init| ==> init[i] == t[i];
      if Less(fns, x, last) {
        InsertSorted(fns, x, init);
        var u := Insert(fns, x, init);
        forall i | 0 <= i < |u| ensures CompareRows(fns, u[i], last) <= 0 {
          InsertRowsFrom(fns, x, init, i);
        }
        assert Insert(fns, x, t) == u + [last];
        SortedAppend(fns, u, last);
      } else {
        forall i | 0 <= i < |t| ensures CompareRows(fns, t[i], x) <= 0 {
          CompareRowsIsPreorder(fns, t[i], last, x);
          CompareRowsIsPreorder(fns, x, last, x);
        }
        assert Insert(fns, x, t) == t + [x];
        SortedAppend(fns, t, x);
      }
    }
  }

  /** The result is in order under the composite comparator. */
  lemma {:induction false} SortRowsIsSorted(fns: seq<Comparator>, rows: seq<Row>)
    requires Covers(fns, rows) && AllThreeWay(fns)
    ensures Sorted(fns, SortRows(fns, rows))
    decreases |rows|
  {
    if rows != [] {
      var init := rows[..|rows| - 1];
      assert Covers(fns, init);
      SortRowsIsSorted(fns, init);
      InsertSorted(fns, rows[|rows| - 1], SortRows(fns, init));
    }
  }

  /** Rows that tie with a common row tie with each other, so neither is
      Less than the other. */
  lemma LessExcludesCommonTie(fns: seq<Comparator>, x: Row, y: Row, r: Row)
    requires |fns| <= |x| && |fns| <= |y| && |fns| <= |r| && AllThreeWay(fns)
    requires Less(fns, x, y)
    ensures !(Ties(fns, x, r) && Ties(fns, y, r))
  {
    CompareRowsIsPreorder(fns, y, r, x);
    CompareRowsIsPreorder(fns, x, r, y);
  }

  /** The step of InsertTiedWith where x moves past the last row of t:
      that row does not tie with r if x does, so the two may change places
      in the rows tied with r. */
  lemma TiedWithPassing(fns: seq<Comparator>, u: seq<Row>, init: seq<Row>, last: Row, x: Row, r: Row)
    requires Covers(fns, u) && Covers(fns, init) && |fns| <= |last| && |fns| <= |x| && |fns| <= |r|
    requires !(Ties(fns, x, r) && Ties(fns, last, r))
    requires TiedWith(fns, u, r) == TiedWith(fns, init, r) + TiedWith(fns, [x], r)
    ensures TiedWith(fns, u + [last], r) == TiedWith(fns, init + [last], r) + TiedWith(fns, [x], r)
  {
    assert (u + [last])[..|u|] == u;
    assert (init + [last])[..|init|] == init;
    assert [x][..0] == [] && [last][..0] == [];
  }

  /** Inserting x appends it to the rows tied with r: the rows it passes
      over are all strictly greater than x, so none of them ties with r
      when x does. */
  lemma {:induction false} InsertTiedWith(fns: seq<Comparator>, x: Row, t: seq<Row>, r: Row)
    requires |fns| <= |x| && Covers(fns, t) && |fns| <= |r| && AllThreeWay(fns)
    ensures TiedWith(fns, Insert(fns, x, t), r) == TiedWith(fns, t, r) + TiedWith(fns, [x], r)
    decreases |t|
  {
    if t == [] {
      assert [x][..0] == [];
    } else {
      var init, last := t[..|t| - 1], t[|t| - 1];
      assert t == init + [last];
      if Less(fns, x, last) {
        var u := Insert(fns, x, init);
        assert Insert(fns, x, t) == u + [last];
        InsertTiedWith(fns, x, init, r);
        LessExcludesCommonTie(fns, x, last, r);
        TiedWithPassing(fns, u, init, last, x, r);
      } else {
        assert Insert(fns, x, t) == t + [x];
        TiedWithAppend(fns, t, [x], r);
      }
    }
  }

  /** Stability: for every row r, the rows that tie with r come out in the
      same relative order as they went in. */
  lemma {:induction false} SortRowsIsStable(fns: seq<Comparator>, rows: seq<Row>, r: Row)
    requires Covers(fns, rows) && |fns| <= |r| && AllThreeWay(fns)
    ensures TiedWith(fns, SortRows(fns, rows), r) == TiedWith(fns, rows, r)
    decreases |rows|
  {
    if rows != [] {
      var init := rows[..|rows| - 1];
      assert Covers(fns, init);
      SortRowsIsStable(fns, init, r);
      InsertTiedWith(fns, rows[|rows| - 1], SortRows(fns, init), r);
      assert [rows[|rows| - 1]][..0] == [];
    }
  }

  // ----- the in-place sort over the matrix -----

  /** Every row has the width of row 0. */
  predicate Rectangular(rows: seq<Row>) {
    forall i :: 0 <= i < |rows| ==> |rows[i]| == |rows[0]|
  }

  /** sortedMatrix.Swap: exchanges rows i and j cell by cell over the width
      of row 0; cells beyond that width stay where they are. */
  method Swap(data: array<Row>, i: nat, j: nat)
    requires i < data.Length && j < data.Length
    requires |data[0]| <= |data[i]| && |data[0]| <= |data[j]|
    modifies data
    ensures var w := |old(data[0])|;
      i != j ==> (data[i] == old(data[j])[..w] + old(data[i])[w..]
              && data[j] == old(data[i])[..w] + old(data[j])[w..])
    ensures i == j ==> data[i] == old(data[i])
    ensures |old(data[i])| == |old(data[0])| == |old(data[j])| ==>
      data[i] == old(data[j]) && data[j] == old(data[i])
    ensures forall k :: 0 <= k < data.Length && k != i && k != j ==> data[k] == old(data[k])
  {
    var w := |data[0]|;
    var rowI, rowJ := data[i], data[j];
    var c := 0;
    while c < w
      invariant 0 <= c <= w
      invariant |rowI| == |data[i]| && |rowJ| == |data[j]|
      invariant forall k :: 0 <= k < c ==> rowI[k] == data[j][k] && rowJ[k] == data[i][k]
      invariant forall k :: c <= k < |rowI| ==> rowI[k] == data[i][k]
      invariant forall k :: c <= k < |rowJ| ==> rowJ[k] == data[j][k]
    {
      rowI, rowJ := rowI[c := rowJ[c]], rowJ[c := rowI[c]];
      c := c + 1;
    }
    assert rowI == data[j][..w] + data[i][w..];
    assert rowJ == data[i][..w] + data[j][w..];
    data[i] := rowI;
    data[j] := rowJ;
  }

  lemma InsertPassesOver(fns: seq<Comparator>, x: Row, t: seq<Row>, j: nat)
    requires 0 < j <= |t| && |fns| <= |x| && Covers(fns, t) && Less(fns, x, t[j - 1])
    ensures Covers(fns, t[..j]) && Covers(fns, t[..j - 1])
    ensures Insert(fns, x, t[..j]) + t[j..] == Insert(fns, x, t[..j - 1]) + t[j - 1..]
  {
    assert t[..j][..j - 1] == t[..j - 1];
    assert [t[j - 1]] + t[j..] == t[j - 1..];
  }

  lemma InsertStops(fns: seq<Comparator>, x: Row, t: seq<Row>, j: nat)
    requires j <= |t| && |fns| <= |x| && Covers(fns, t)
    requires j == 0 || !Less(fns, x, t[j - 1])
    ensures Covers(fns, t[..j]) && Insert(fns, x, t[..j]) == t[..j] + [x]
  {
  }

  /** Rows laid out as t[..j], then x, then t[j..]. */
  lemma RowsAround(d: seq<Row>, x: Row, t: seq<Row>, i: nat, j: nat)
    requires j <= i == |t| < |d|
    requires forall k :: 0 <= k < j ==> d[k] == t[k]
    requires d[j] == x
    requires forall k :: j < k <= i ==> d[k] == t[k - 1]
    ensures d[..i + 1] == t[..j] + [x] + t[j..]
  {
    var u := t[..j] + [x] + t[j..];
    forall k | 0 <= k <= i
      ensures d[k] == u[k]
    {
      if k < j {
        assert u[k] == t[..j][k];
      } else if j < k {
        assert u[k] == t[j..][k - j - 1];
      }
    }
  }

  /** One step of the insertion sort: row i moves left past every row it
      is Less than, by adjacent Swaps, so that data[..i+1] becomes
      Insert(fns, row i, data[..i]). */
  method InsertRow(data: array<Row>, fns: seq<Comparator>, i: nat, ghost w: nat)
    requires i < data.Length && |fns| <= w
    requires forall k :: 0 <= k < data.Length ==> |data[k]| == w
    modifies data
    ensures forall k :: 0 <= k < data.Length ==> |data[k]| == w
    ensures Covers(fns, old(data[..i])) && data[..i + 1] == Insert(fns, old(data[i]), old(data[..i]))
    ensures forall k :: i < k < data.Length ==> data[k] == old(data[k])
  {
    ghost var x, t := data[i], data[..i];
    var j := i;
    assert t[..j] == t && t[j..] == [];
    while j > 0 && Less(fns, data[j], data[j - 1])
      invariant 0 <= j <= i
      invariant forall k :: 0 <= k < data.Length ==> |data[k]| == w
      invariant forall k :: 0 <= k < j ==> data[k] == t[k]
      invariant data[j] == x
      invariant forall k :: j < k <= i ==> data[k] == t[k - 1]
      invariant forall k :: i < k < data.Length ==> data[k] == old(data[k])
      invariant Covers(fns, t) && Covers(fns, t[..j])
      invariant Insert(fns, x, t) == Insert(fns, x, t[..j]) + t[j..]
    {
      InsertPassesOver(fns, x, t, j);
      Swap(data, j - 1, j);
      j := j - 1;
    }
    InsertStops(fns, x, t, j);
    RowsAround(data[..], x, t, i, j);
  }

  /** SortTable: with no comparators the matrix is left alone; otherwise
      its rows are reordered in place into SortRows(fns, rows). */
  method SortTable(data: array<Row>, fns: seq<Comparator>)
    requires |fns| > 0 ==> Rectangular(data[..]) && (data.Length > 0 ==> |fns| <= |data[0]|)
    modifies data
    ensures Covers(fns, old(data[..])) && data[..] == SortRows(fns, old(data[..]))
  {
    if |fns| == 0 {
      SortRowsWithoutComparators(data[..]);
      return;
    }
    ghost var rows := data[..];
    var n := data.Length;
    if n == 0 {
      return;
    }
    ghost var w := |data[0]|;
    var i := 0;
    while i < n
      invariant 0 <= i <= n
      invariant forall k :: 0 <= k < n ==> |data[k]| == w
      invariant data[..i] == SortRows(fns, rows[..i])
      invariant forall k :: i <= k < n ==> data[k] == rows[k]
    {
      InsertRow(data, fns, i, w);
      assert rows[..i + 1][..i] == rows[..i];
      i := i + 1;
    }
    assert data[..] == data[..n] && rows[..n] == rows;
  }

  // ----- the two-key scenario of the sorter's tests -----

  /** Ascending on column 0, then descending on column 1: the two rows
      starting with "a" come first, "z1" before "a1". */
  lemma TwoKeyScenario()
    ensures var fns: seq<Comparator> := [(a, b) => StringCompare(AscendingOrder, a, b),
                                         (a, b) => StringCompare(DescendingOrder, a, b)];
      SortRows(fns, [["b", "b1"], ["a", "a1"], ["a", "z1"]]) == [["a", "z1"], ["a", "a1"], ["b", "b1"]]
  {
    var fns: seq<Comparator> := [(a, b) => StringCompare(AscendingOrder, a, b),
                                 (a, b) => StringCompare(DescendingOrder, a, b)];
    var r0, r1, r2: Row := ["b", "b1"], ["a", "a1"], ["a", "z1"];
    assert Compare("a", "b") == -1 && Compare("b", "a") == 1;
    assert Compare("z1", "a1") == 1;
    assert Less(fns, r1, r0);
    assert Less(fns, r2, r0) && Less(fns, r2, r1);
    assert [r0, r1, r2][..2] == [r0, r1] && [r0, r1][..1] == [r0];
    assert [r0][..0] == [] && [r1][..0] == [];
    assert SortRows(fns, [r0]) == [r0];
    assert Insert(fns, r1, [r0]) == [r1, r0];
    assert SortRows(fns, [r0, r1]) == [r1, r0];
    assert SortRows(fns, [r0, r1, r2]) == Insert(fns, r2, [r1, r0]);
    assert [r1, r0][..1] == [r1];
    assert Insert(fns, r2, [r1]) == [r2, r1];
  }
}
