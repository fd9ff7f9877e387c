/**
  String primitives the formatter and the sorter are built on: Go's
  strings.Compare, strings.Join, strings.Repeat, the "%-*s" left-aligned
  padding of fmt, and the decimal rendering of "%d". Strings are sequences
  of characters and a string's length is its number of characters.
 */
module Strings {

  /** Three-way lexicographic comparison: -1, 0 or +1, like strings.Compare. */
  function Compare(a: string, b: string): (r: int)
    ensures -1 <= r <= 1
    ensures r == 0 <==> a == b
    decreases |a|
  {
    if |a| == 0 then (if |b| == 0 then 0 else -1)
    else if |b| == 0 then 1
    else if a[0] < b[0] then -1
    else if b[0] < a[0] then 1
    else
      assert a == [a[0]] + a[1..] && b == [b[0]] + b[1..];
      Compare(a[1..], b[1..])
  }

  /** Reference definition of lexicographic order: a proper prefix, or a
      smaller character at the first position where the strings differ. */
  ghost predicate LexLess(a: string, b: string) {
    a < b || exists k :: 0 <= k < |a| && k < |b| && a[..k] == b[..k] && a[k] < b[k]
  }

  /** Strings with the same first character are ordered as their tails. */
  lemma LexLessTail(a: string, b: string)
    requires |a| > 0 && |b| > 0 && a[0] == b[0]
    ensures LexLess(a, b) <==> LexLess(a[1..], b[1..])
  {
    var a', b' := a[1..], b[1..];
    assert a < b <==> a' < b' by {
      if a < b { assert a' == b[1..|a|]; }
      if a' < b' { assert a == [a[0]] + a' && b[..|a|] == [b[0]] + b'[..|a'|]; }
    }
    if LexLess(a, b) && !(a < b) {
      var k :| 0 <= k < |a| && k < |b| && a[..k] == b[..k] && a[k] < b[k];
      assert k > 0;
      assert a'[..k - 1] == a[..k][1..] == b[..k][1..] == b'[..k - 1];
      assert a'[k - 1] < b'[k - 1];
    }
    if LexLess(a', b') && !(a' < b') {
      var k :| 0 <= k < |a'| && k < |b'| && a'[..k] == b'[..k] && a'[k] < b'[k];
      assert a[..k + 1] == [a[0]] + a'[..k] && b[..k + 1] == [b[0]] + b'[..k];
      assert a[k + 1] < b[k + 1];
    }
  }

  lemma {:induction false} CompareIsLexicographic(a: string, b: string)
    ensures Compare(a, b) < 0 <==> LexLess(a, b)
    decreases |a|
  {
    if |a| == 0 || |b| == 0 {
    } else if a[0] < b[0] {
      assert a[..0] == b[..0];
    } else if b[0] < a[0] {
    } else {
      CompareIsLexicographic(a[1..], b[1..]);
      LexLessTail(a, b);
    }
  }

  lemma {:induction false} CompareAntisymmetric(a: string, b: string)
    ensures Compare(a, b) == -Compare(b, a)
    decreases |a|
  {
    if |a| > 0 && |b| > 0 && a[0] == b[0] {
      CompareAntisymmetric(a[1..], b[1..]);
    }
  }

  lemma {:induction false} CompareTransitive(a: string, b: string, c: string)
    requires Compare(a, b) <= 0 && Compare(b, c) <= 0
    ensures Compare(a, c) <= 0
    decreases |a|
  {
    if |a| > 0 && |b| > 0 && |c| > 0 && a[0] == b[0] && b[0] == c[0] {
      CompareTransitive(a[1..], b[1..], c[1..]);
    }
  }

  /** The sum of the lengths of the strings in `values`. */
  function TotalLength(values: seq<string>): nat {
    if values == [] then 0 else |values[0]| + TotalLength(values[1..])
  }

  /** strings.Join: the values with `sep` between consecutive ones. */
  function Join(values: seq<string>, sep: string): string {
    if values == [] then ""
    else if |values| == 1 then values[0]
    else values[0] + sep + Join(values[1..], sep)
  }

  /** A join is as long as its values plus one separator between each two. */
  lemma {:induction false} JoinLength(values: seq<string>, sep: string)
    ensures |Join(values, sep)| == TotalLength(values) + (if values == [] then 0 else (|values| - 1) * |sep|)
  {
    if |values| > 1 {
      JoinLength(values[1..], sep);
      assert (|values| - 1) * |sep| == (|values| - 2) * |sep| + |sep|;
    }
  }

  /** strings.Repeat: `count` copies of `s`. */
  function Repeat(s: string, count: nat): (r: string)
    ensures |s| == 1 ==> |r| == count && forall k :: 0 <= k < |r| ==> r[k] == s[0]
  {
    if count == 0 then "" else s + Repeat(s, count - 1)
  }

  /** In general a repeat is count times as long as the repeated string. */
  lemma {:induction false} RepeatLength(s: string, count: nat)
    ensures |Repeat(s, count)| == count * |s|
  {
    if count > 0 {
      RepeatLength(s, count - 1);
      assert count * |s| == (count - 1) * |s| + |s|;
    }
  }

  /** "%-*s": `s` left-aligned in a field of `width` characters; a string
      already at least that long is left as it is. */
  function Pad(s: string, width: nat): (r: string)
    ensures |r| == if width > |s| then width else |s|
    ensures r[..|s|] == s
    ensures forall k :: |s| <= k < |r| ==> r[k] == ' '
  {
    if width <= |s| then s else s + Repeat(" ", width - |s|)
  }

  function Digit(d: nat): (c: char)
    requires d < 10
  {
    ('0' as int + d) as char
  }

  predicate IsDigits(s: string) {
    forall i :: 0 <= i < |s| ==> '0' <= s[i] <= '9'
  }

  /** "%d" of a natural number: its decimal digits, without leading zeros. */
  function NatToString(n: nat): (r: string)
    ensures |r| >= 1 && IsDigits(r)
    ensures n > 0 ==> r[0] != '0'
  {
    if n < 10 then [Digit(n)] else NatToString(n / 10) + [Digit(n % 10)]
  }

  /** The number a string of decimal digits denotes. */
  function DigitsValue(s: string): nat
    requires IsDigits(s)
  {
    if s == [] then 0 else DigitsValue(s[..|s| - 1]) * 10 + (s[|s| - 1] as int - '0' as int)
  }

  lemma {:induction false} NatToStringRoundTrip(n: nat)
    ensures DigitsValue(NatToString(n)) == n
  {
    if n >= 10 {
      var r := NatToString(n);
      assert r[..|r| - 1] == NatToString(n / 10);
      NatToStringRoundTrip(n / 10);
    }
  }
}
