/** Small shared vocabulary: optional values, the JavaScript `||` fallback on
    strings, decimal rendering of integers, and strictly ascending id lists. */
module Basics {

  datatype Option<T> = None | Some(value: T)

  /** `s || d` on a string: an empty string is falsy and falls back to `d`. */
  function NonEmptyOr(s: string, d: string): (r: string)
    ensures s != "" ==> r == s
    ensures s == "" ==> r == d
  {
    if s != "" then s else d
  }

  /** `cell || d` on a spreadsheet cell that may be absent. */
  function OrElse(cell: Option<string>, d: string): (r: string)
    ensures cell.Some? && cell.value != "" ==> r == cell.value
    ensures cell.None? || cell.value == "" ==> r == d
  {
    match cell
    case Some(s) => NonEmptyOr(s, d)
    case None => d
  }

  predicate IsDigit(ch: char) { '0' <= ch <= '9' }

  function DigitChar(d: nat): (ch: char)
    requires d < 10
    ensures IsDigit(ch)
    ensures ch as int - '0' as int == d
  {
    ['0', '1', '2', '3', '4', '5', '6', '7', '8', '9'][d]
  }

  function DigitValue(ch: char): (d: nat)
    requires IsDigit(ch)
    ensures d < 10 && DigitChar(d) == ch
  {
    ch as int - '0' as int
  }

  /** Decimal rendering of a natural number, most significant digit first,
      without leading zeros, as both JavaScript and Python render it. */
  function NatToString(n: nat): (s: string)
    ensures |s| >= 1
    ensures forall i :: 0 <= i < |s| ==> IsDigit(s[i])
    ensures |s| > 1 ==> s[0] != '0'
  {
    if n < 10 then [DigitChar(n)] else NatToString(n / 10) + [DigitChar(n % 10)]
  }

  /** Decimal rendering of an integer, with a leading '-' when negative. */
  function IntToString(i: int): (s: string)
    ensures |s| >= 1
    ensures i >= 0 ==> s == NatToString(i)
    ensures i < 0 ==> s == "-" + NatToString(-i)
  {
    if i < 0 then "-" + NatToString(-i) else NatToString(i)
  }

  /** The value of a string of decimal digits. */
  function DigitsValue(s: string): (n: nat)
    requires forall i :: 0 <= i < |s| ==> IsDigit(s[i])
  {
    if s == [] then 0 else 10 * DigitsValue(s[..|s| - 1]) + DigitValue(s[|s| - 1])
  }

  /** Reading back a rendered natural number gives the number. */
  lemma {:induction false} DigitsValueOfNatToString(n: nat)
    ensures DigitsValue(NatToString(n)) == n
  {
    var s := NatToString(n);
    if n >= 10 {
      DigitsValueOfNatToString(n / 10);
      assert s[..|s| - 1] == NatToString(n / 10);
    }
  }

  predicate StrictlyAscending(xs: seq<int>) {
    forall i, j :: 0 <= i < j < |xs| ==> xs[i] < xs[j]
  }

  /** The head of an ascending list is below every later element. */
  lemma HeadBelowTail(xs: seq<int>)
    requires StrictlyAscending(xs) && xs != []
    ensures forall y :: y in xs[1..] ==> xs[0] < y
  {
    forall y | y in xs[1..] ensures xs[0] < y {
      var k :| 0 <= k < |xs[1..]| && xs[1..][k] == y;
      assert xs[k + 1] == y;
    }
  }

  lemma TailAscending(xs: seq<int>)
    requires StrictlyAscending(xs) && xs != []
    ensures StrictlyAscending(xs[1..])
  {
    var tail := xs[1..];
    forall i, j | 0 <= i < j < |tail| ensures tail[i] < tail[j] {
      assert tail[i] == xs[i + 1] && tail[j] == xs[j + 1];
    }
  }

  /** Every element of `rest` is drawn from `pool`, all of whose elements
      exceed `x`. */
  lemma AboveHead(x: int, rest: seq<int>, pool: seq<int>)
    requires forall y :: y in rest ==> y in pool
    requires forall y :: y in pool ==> x < y
    ensures forall i :: 0 <= i < |rest| ==> x < rest[i]
  {
    forall i | 0 <= i < |rest| ensures x < rest[i] {
      assert rest[i] in rest;
    }
  }

  lemma ConsAscending(x: int, rest: seq<int>)
    requires StrictlyAscending(rest)
    requires forall i :: 0 <= i < |rest| ==> x < rest[i]
    ensures StrictlyAscending([x] + rest)
  {
    var r := [x] + rest;
    forall i, j | 0 <= i < j < |r| ensures r[i] < r[j] {
      assert r[j] == rest[j - 1];
      if i > 0 {
        assert r[i] == rest[i - 1];
      }
    }
  }

  /** Adds `x` to an ascending, duplicate-free list, keeping it so. */
  function InsertSorted(xs: seq<int>, x: int): (r: seq<int>)
    requires StrictlyAscending(xs)
    ensures StrictlyAscending(r)
    ensures forall y :: y in r <==> y in xs || y == x
  {
    if xs == [] then [x]
    else if x < xs[0] then [x] + xs
    else if x == xs[0] then xs
    else
      TailAscending(xs);
      var rest := InsertSorted(xs[1..], x);
      HeadBelowTail(xs);
      AboveHead(xs[0], rest, xs[1..] + [x]);
      ConsAscending(xs[0], rest);
      [xs[0]] + rest
  }

  /** An ascending, duplicate-free list is determined by its elements. */
  lemma {:induction false} AscendingUnique(a: seq<int>, b: seq<int>)
    requires StrictlyAscending(a) && StrictlyAscending(b)
    requires forall y :: y in a <==> y in b
    ensures a == b
  {
    assert a != [] ==> a[0] in a;
    assert b != [] ==> b[0] in b;
    if a != [] && b != [] {
      var k :| 0 <= k < |b| && b[k] == a[0];
      assert b[0] <= a[0];
      var m :| 0 <= m < |a| && a[m] == b[0];
      assert a[0] <= b[0];
      forall y ensures y in a[1..] ==> y in b[1..] {
        if y in a[1..] {
          var i :| 1 <= i < |a| && a[i] == y;
          assert a[i] in a;
          var j :| 0 <= j < |b| && b[j] == y;
          assert j != 0;
          assert b[1..][j - 1] == y;
        }
      }
      forall y ensures y in b[1..] ==> y in a[1..] {
        if y in b[1..] {
          var j :| 1 <= j < |b| && b[j] == y;
          assert b[j] in b;
          var i :| 0 <= i < |a| && a[i] == y;
          assert i != 0;
          assert a[1..][i - 1] == y;
        }
      }
      AscendingUnique(a[1..], b[1..]);
      assert a == [a[0]] + a[1..];
      assert b == [b[0]] + b[1..];
    }
  }

  /** Keeps the elements of `xs` other than `a` and `b`, in order. */
  function Without(xs: seq<int>, a: int, b: int): (r: seq<int>)
    requires StrictlyAscending(xs)
    ensures StrictlyAscending(r)
    ensures forall y :: y in r <==> y in xs && y != a && y != b
  {
    if xs == [] then []
    else
      TailAscending(xs);
      var rest := Without(xs[1..], a, b);
      HeadBelowTail(xs);
      AboveHead(xs[0], rest, xs[1..]);
      ConsAscending(xs[0], rest);
      if xs[0] == a || xs[0] == b then rest else [xs[0]] + rest
  }

  /** The distinct values of `xs`, ascending. */
  function SortedDistinct(xs: seq<int>): (r: seq<int>)
    ensures StrictlyAscending(r)
    ensures forall y :: y in r <==> y in xs
  {
    if xs == [] then []
    else
      assert xs == xs[..|xs| - 1] + [xs[|xs| - 1]];
      InsertSorted(SortedDistinct(xs[..|xs| - 1]), xs[|xs| - 1])
  }
}
