/** The preprocessing step's pure core: cleaning code strings, reading the
    consolidated grade, choosing how many clusters a unit gets, numbering the
    clusters of all units into one id space with "<unit>-C<id>" labels, and
    the two sheets of its output workbook. The geographic clustering itself
    is a parameter: the model takes each unit's local labels as given. */
module Clustering {
  import opened Basics
  import opened Records
  import opened DataHandlers
  import opened UiControls
  import opened Sheets

  // ===== Cleaning code strings =====

  /** The characters Python counts as white space when stripping a string. */
  predicate IsSpace(ch: char) {
    var c := ch as int;
    || 9 <= c <= 13 || 28 <= c <= 32 || c == 133 || c == 160 || c == 5760
    || 8192 <= c <= 8202 || c == 8232 || c == 8233 || c == 8239 || c == 8287 || c == 12288
  }

  /** The number of white-space characters at the front of `s`. */
  function LeadingSpaces(s: string): (k: nat)
    ensures k <= |s|
    ensures forall i :: 0 <= i < k ==> IsSpace(s[i])
    ensures k < |s| ==> !IsSpace(s[k])
  {
    if s != [] && IsSpace(s[0]) then
      var k := 1 + LeadingSpaces(s[1..]);
      assert forall i :: 1 <= i < k ==> s[i] == s[1..][i - 1];
      k
    else 0
  }

  /** The number of white-space characters at the end of `s`. */
  function TrailingSpaces(s: string): (k: nat)
    ensures k <= |s|
    ensures forall i :: |s| - k <= i < |s| ==> IsSpace(s[i])
    ensures k < |s| ==> !IsSpace(s[|s| - k - 1])
  {
    if s != [] && IsSpace(s[|s| - 1]) then
      var k := 1 + TrailingSpaces(s[..|s| - 1]);
      assert forall i :: |s| - k <= i < |s| - 1 ==> s[i] == s[..|s| - 1][i];
      k
    else 0
  }

  /** Left stripping: drops white space from the front. */
  function StripLeft(s: string): (r: string)
    ensures |r| <= |s|
    ensures r == [] || !IsSpace(r[0])
    ensures s == [] || !IsSpace(s[0]) ==> r == s
  {
    if s != [] && IsSpace(s[0]) then StripLeft(s[1..]) else s
  }

  /** Right stripping: drops white space from the end. */
  function StripRight(s: string): (r: string)
    ensures |r| <= |s|
    ensures r == [] || !IsSpace(r[|r| - 1])
    ensures r != [] ==> r[0] == s[0]
    ensures s == [] || !IsSpace(s[|s| - 1]) ==> r == s
  {
    if s != [] && IsSpace(s[|s| - 1]) then StripRight(s[..|s| - 1]) else s
  }

  /** Left stripping keeps exactly the suffix after the leading white space. */
  lemma {:induction false} StripLeftDrops(s: string)
    ensures StripLeft(s) == s[LeadingSpaces(s)..]
  {
    if s != [] && IsSpace(s[0]) {
      StripLeftDrops(s[1..]);
      assert s[1..][LeadingSpaces(s[1..])..] == s[LeadingSpaces(s)..];
    }
  }

  /** Right stripping keeps exactly the prefix before the trailing white space. */
  lemma {:induction false} StripRightDrops(s: string)
    ensures StripRight(s) == s[..|s| - TrailingSpaces(s)]
  {
    if s != [] && IsSpace(s[|s| - 1]) {
      StripRightDrops(s[..|s| - 1]);
      assert s[..|s| - 1][..|s| - 1 - TrailingSpaces(s[..|s| - 1])] == s[..|s| - TrailingSpaces(s)];
    }
  }

  /** Stripping: neither end of the result is white space, and text
      without white space at its ends is left as it is. StripIsInfix says
      which infix of `s` the result is. */
  function Strip(s: string): (r: string)
    ensures r == [] || (!IsSpace(r[0]) && !IsSpace(r[|r| - 1]))
    ensures s == [] || (!IsSpace(s[0]) && !IsSpace(s[|s| - 1])) ==> r == s
  {
    StripRight(StripLeft(s))
  }

  /** The stripped text is the infix of `s` that starts after its leading
      white space, and every character outside it is white space. */
  lemma StripIsInfix(s: string)
    ensures var r := Strip(s); var a := LeadingSpaces(s);
      && a + |r| <= |s| && r == s[a..a + |r|]
      && forall i :: 0 <= i < |s| && !(a <= i < a + |r|) ==> IsSpace(s[i])
  {
    var a := LeadingSpaces(s);
    var l := StripLeft(s);
    StripLeftDrops(s);
    StripRightDrops(l);
    SpacesAfterInfix(s, a);
  }

  /** Once the leading white space is gone, the trailing white space of the
      rest is trailing white space of `s`, and what is left is an infix. */
  lemma SpacesAfterInfix(s: string, a: nat)
    requires a <= |s|
    ensures var l := s[a..]; var k := TrailingSpaces(l);
      && l[..|l| - k] == s[a..|s| - k]
      && forall i :: |s| - k <= i < |s| ==> IsSpace(s[i])
  {
    var l := s[a..];
    var k := TrailingSpaces(l);
    forall i | |s| - k <= i < |s| ensures IsSpace(s[i]) {
      assert s[i] == l[i - a];
    }
  }


  /** White space around a stripped core is exactly what stripping drops. */
  lemma StripPadded(pre: string, core: string, post: string)
    requires forall i :: 0 <= i < |pre| ==> IsSpace(pre[i])
    requires forall i :: 0 <= i < |post| ==> IsSpace(post[i])
    requires core == [] || (!IsSpace(core[0]) && !IsSpace(core[|core| - 1]))
    ensures Strip(pre + core + post) == core
  {
    var s := pre + core + post;
    var r := Strip(s);
    var a := LeadingSpaces(s);
    StripIsInfix(s);
    assert forall i :: 0 <= i < |pre| ==> s[i] == pre[i];
    assert forall i :: 0 <= i < |core| ==> s[|pre| + i] == core[i];
    assert forall i :: 0 <= i < |post| ==> s[|pre| + |core| + i] == post[i];
    if core == [] {
      assert forall i :: 0 <= i < |s| ==> IsSpace(s[i]);
    } else {
      assert a == |pre|;
      assert !IsSpace(s[|pre| + |core| - 1]);
    }
  }

  /** No ".0" occurs in `s`. */
  predicate NoDotZero(s: string) {
    |s| < 2 || (!(s[0] == '.' && s[1] == '0') && NoDotZero(s[1..]))
  }

  /** Every occurrence of ".0" removed, scanning left to right
      without overlaps. */
  function RemoveDotZero(s: string): (r: string)
    ensures |r| <= |s|
    ensures NoDotZero(s) ==> r == s
  {
    if s == [] then []
    else if |s| >= 2 && s[0] == '.' && s[1] == '0' then RemoveDotZero(s[2..])
    else [s[0]] + RemoveDotZero(s[1..])
  }

  /** A character that does not start ".0" is kept. */
  lemma RemoveDotZeroKeep(c: char, rest: string)
    requires c != '.' || rest == [] || rest[0] != '0'
    ensures RemoveDotZero([c] + rest) == [c] + RemoveDotZero(rest)
  {
    assert ([c] + rest)[1..] == rest;
  }

  /** A leading ".0" is dropped. */
  lemma RemoveDotZeroSkip(b: string)
    ensures RemoveDotZero(".0" + b) == RemoveDotZero(b)
  {
    assert (".0" + b)[2..] == b;
  }

  /** The leftmost ".0" goes first: with no ".0" in `a`, the text before
      the first occurrence is kept and the scan resumes after it. */
  lemma {:induction false} RemoveDotZeroLeftmost(a: string, b: string)
    requires NoDotZero(a)
    ensures RemoveDotZero(a + ".0" + b) == a + RemoveDotZero(b)
  {
    if a == [] {
      assert a + ".0" + b == ".0" + b;
      RemoveDotZeroSkip(b);
      assert a + RemoveDotZero(b) == RemoveDotZero(b);
    } else {
      var rest := a[1..] + ".0" + b;
      assert a + ".0" + b == [a[0]] + rest;
      assert a[0] != '.' || rest[0] != '0' by {
        if |a| >= 2 { assert rest[0] == a[1]; } else { assert rest[0] == '.'; }
      }
      RemoveDotZeroKeep(a[0], rest);
      RemoveDotZeroLeftmost(a[1..], b);
      ConcatAssociative([a[0]], a[1..], RemoveDotZero(b));
      assert a == [a[0]] + a[1..];
    }
  }

  /** Every comma removed. */
  function RemoveCommas(s: string): (r: string)
    ensures ',' !in r
    ensures |r| <= |s|
    ensures ',' !in s ==> r == s
  {
    if s == [] then []
    else (if s[0] == ',' then [] else [s[0]]) + RemoveCommas(s[1..])
  }

  /** Removing commas works piece by piece, so the characters kept stay in
      their order. */
  lemma {:induction false} RemoveCommasConcat(a: string, b: string)
    ensures RemoveCommas(a + b) == RemoveCommas(a) + RemoveCommas(b)
  {
    if a != [] {
      assert (a + b)[1..] == a[1..] + b;
      RemoveCommasConcat(a[1..], b);
    } else {
      assert a + b == b;
    }
  }

  /** A comma between comma-free pieces disappears and the pieces join. */
  lemma {:induction false} RemoveOneComma(a: string, b: string)
    requires ',' !in a && ',' !in b
    ensures RemoveCommas(a + "," + b) == a + b
  {
    var comma: string := [','];
    assert RemoveCommas(a + comma) == a by {
      assert RemoveCommas(comma) == [] by { assert comma[1..] == []; }
      RemoveCommasConcat(a, comma);
    }
    assert RemoveCommas(a + comma + b) == a + b by {
      RemoveCommasConcat(a + comma, b);
    }
  }

  /** A code cell rendered as a string, stripped, with every ".0" and then
      every comma deleted. */
  function CleanNumericalCode(s: string): (r: string)
    ensures ',' !in r
  {
    RemoveCommas(RemoveDotZero(Strip(s)))
  }

  /** The three steps in order: the surrounding white space goes first,
      then every ".0" of the core, then every comma. */
  lemma CleanPadded(pre: string, core: string, post: string)
    requires forall i :: 0 <= i < |pre| ==> IsSpace(pre[i])
    requires forall i :: 0 <= i < |post| ==> IsSpace(post[i])
    requires core == [] || (!IsSpace(core[0]) && !IsSpace(core[|core| - 1]))
    ensures CleanNumericalCode(pre + core + post) == RemoveCommas(RemoveDotZero(core))
  {
    StripPadded(pre, core, post);
  }

  /** A code rendered with a thousands comma and a float's ".0", such as
      "1,234.0", cleans to its digits "1234". */
  lemma {:induction false} CleanThousandsFloat(x: string, y: string)
    requires AllDigits(x) && x != [] && AllDigits(y)
    ensures CleanNumericalCode(x + "," + y + ".0") == x + y
  {
    var core := x + "," + y;
    assert '.' !in x && ',' !in x by {
      forall i | 0 <= i < |x| ensures x[i] != '.' && x[i] != ',' { assert IsDigit(x[i]); }
    }
    assert '.' !in y && ',' !in y by {
      forall i | 0 <= i < |y| ensures y[i] != '.' && y[i] != ',' { assert IsDigit(y[i]); }
    }
    assert Strip(core + ".0") == core + ".0" by {
      assert (core + ".0")[0] == x[0] && IsDigit(x[0]);
      assert (core + ".0")[|core + ".0"| - 1] == '0';
    }
    assert RemoveDotZero(core + ".0") == core by {
      assert '.' !in core;
      NoPointNoDotZero(core);
      assert core + ".0" == core + ".0" + "";
      RemoveDotZeroLeftmost(core, "");
    }
    RemoveOneComma(x, y);
  }

  /** A code that was read as a float and rendered with a trailing ".0"
      comes back as the plain integer code. */
  lemma {:induction false} CleanFloatRendering(n: nat)
    ensures CleanNumericalCode(NatToString(n) + ".0") == NatToString(n)
  {
    var d := NatToString(n);
    assert !IsSpace(d[0]);
    assert (d + ".0")[|d + ".0"| - 1] == '0';
    DigitsBeforeDotZero(d);
  }

  /** Plain digit strings pass through unchanged. */
  lemma CleanDigits(n: nat)
    ensures CleanNumericalCode(NatToString(n)) == NatToString(n)
  {
    var d := NatToString(n);
    assert !IsSpace(d[0]) && !IsSpace(d[|d| - 1]);
    assert '.' !in d && ',' !in d;
    NoPointNoDotZero(d);
  }

  /** Text without a point has no ".0" in it. */
  lemma {:induction false} NoPointNoDotZero(s: string)
    requires '.' !in s
    ensures NoDotZero(s)
  {
    if |s| >= 2 {
      assert s[0] in s;
      assert forall ch :: ch in s[1..] ==> ch in s;
      NoPointNoDotZero(s[1..]);
    }
  }

  lemma {:induction false} DigitsBeforeDotZero(d: string)
    requires forall i :: 0 <= i < |d| ==> IsDigit(d[i])
    ensures RemoveDotZero(d + ".0") == d
  {
    if d != [] {
      assert (d + ".0")[1..] == d[1..] + ".0";
      DigitsBeforeDotZero(d[1..]);
      assert d == [d[0]] + d[1..];
    }
  }

  // ===== The consolidated grade =====

  /** A grade cell: text, a number, or empty (None/NaN). */
  datatype NotaValue = TextValue(text: string) | NumberValue(x: real) | Empty

  /** The "no grade" marker "S/N", stripped: the letters may be in either case
      ('ſ' upper-cases to 'S' too). */
  predicate IsSemNota(s: string) {
    var t := Strip(s);
    && |t| == 3
    && (t[0] == 'S' || t[0] == 's' || t[0] == 383 as char)
    && t[1] == '/'
    && (t[2] == 'N' || t[2] == 'n')
  }

  function CommaToDot(s: string): (r: string)
    ensures |r| == |s|
    ensures forall i :: 0 <= i < |s| ==> r[i] == if s[i] == ',' then '.' else s[i]
  {
    seq(|s|, i requires 0 <= i < |s| => if s[i] == ',' then '.' else s[i])
  }

  predicate AllDigits(s: string) {
    forall i :: 0 <= i < |s| ==> IsDigit(s[i])
  }

  /** The longest prefix of decimal digits. */
  function LeadingDigits(s: string): (r: string)
    ensures |r| <= |s| && r == s[..|r|] && AllDigits(r)
    ensures |r| < |s| ==> !IsDigit(s[|r|])
  {
    if s != [] && IsDigit(s[0]) then [s[0]] + LeadingDigits(s[1..]) else []
  }

  lemma {:induction false} LeadingDigitsOf(a: string, b: string)
    requires AllDigits(a)
    requires b == [] || !IsDigit(b[0])
    ensures LeadingDigits(a + b) == a
  {
    if a != [] {
      assert (a + b)[1..] == a[1..] + b;
      LeadingDigitsOf(a[1..], b);
      assert a == [a[0]] + a[1..];
    }
  }

  /** A decimal literal: sign, integer digits, fraction digits. */
  datatype Decimal = Decimal(negative: bool, whole: string, fraction: string)

  /** The sign of a stripped literal, and what follows it. */
  function SignAndBody(t: string): (r: (bool, string))
    ensures |r.1| <= |t|
  {
    if t != [] && (t[0] == '-' || t[0] == '+') then (t[0] == '-', t[1..]) else (false, t)
  }

  /** `body` is written as whole digits, then optionally a point and fraction
      digits ("5", "5.", ".5", "5.25"), with at least one digit in all. */
  predicate BodySpells(body: string, whole: string, fraction: string) {
    && AllDigits(whole) && AllDigits(fraction)
    && (whole != [] || fraction != [])
    && (body == whole + "." + fraction || (fraction == [] && body == whole))
  }

  /** The stripped literal `t` is the decimal `d` written out: a '-' exactly
      when it is negative, otherwise an optional '+', then the body. */
  predicate Spells(t: string, d: Decimal) {
    if d.negative then t != [] && t[0] == '-' && BodySpells(t[1..], d.whole, d.fraction)
    else
      || BodySpells(t, d.whole, d.fraction)
      || (t != [] && t[0] == '+' && BodySpells(t[1..], d.whole, d.fraction))
  }

  /** Digits with an optional point and fraction, at least one digit in all. */
  function ParseBody(negative: bool, body: string): (d: Option<Decimal>)
    ensures d.Some? ==> AllDigits(d.value.whole) && AllDigits(d.value.fraction)
    ensures d.Some? ==> d.value.negative == negative
    ensures d.Some? ==> BodySpells(body, d.value.whole, d.value.fraction)
  {
    var whole := LeadingDigits(body);
    var rest := body[|whole|..];
    assert body == whole + rest;
    assert rest != [] ==> rest == "." + rest[1..] || rest[0] != '.';
    if rest == [] then
      if whole == [] then None else Some(Decimal(negative, whole, []))
    else if rest[0] == '.' && AllDigits(rest[1..]) && |whole| + |rest| > 1 then
      Some(Decimal(negative, whole, rest[1..]))
    else None
  }

  /** The decimal literals Python's float conversion accepts, exponents and digit
      separators aside: surrounding white space, an optional sign, then the
      digits. */
  function ParseDecimal(s: string): (d: Option<Decimal>)
    ensures d.Some? ==> AllDigits(d.value.whole) && AllDigits(d.value.fraction)
    ensures d.Some? ==> Spells(Strip(s), d.value)
  {
    var (negative, body) := SignAndBody(Strip(s));
    ParseBody(negative, body)
  }

  /** Every body written as whole[.fraction] parses, ".5" and "5." included. */
  lemma {:induction false} ParseBodyComplete(negative: bool, body: string, whole: string, fraction: string)
    requires BodySpells(body, whole, fraction)
    ensures ParseBody(negative, body) == Some(Decimal(negative, whole, fraction))
  {
    var rest := body[|whole|..];
    assert body == whole + rest;
    assert rest == [] || (rest == "." + fraction && rest[0] == '.' && rest[1..] == fraction);
    LeadingDigitsOf(whole, rest);
  }

  /** Every literal that spells a decimal, once stripped, parses as it. */
  lemma ParseDecimalComplete(s: string, d: Decimal)
    requires Spells(Strip(s), d)
    ensures ParseDecimal(s) == Some(d)
  {
    var t := Strip(s);
    if d.negative || t[0] == '+' {
      assert SignAndBody(t) == (d.negative, t[1..]);
      ParseBodyComplete(d.negative, t[1..], d.whole, d.fraction);
    } else {
      assert t[0] == '.' || IsDigit(t[0]) by {
        if d.whole != [] { assert t[0] == d.whole[0]; }
      }
      assert SignAndBody(t) == (false, t);
      ParseBodyComplete(false, t, d.whole, d.fraction);
    }
  }

  /** The integer part of a decimal literal: truncation toward zero, which
      keeps the integer digits and the sign. */
  function TruncDecimal(d: Decimal): int
    requires AllDigits(d.whole)
  {
    if d.negative then -(DigitsValue(d.whole) as int) else DigitsValue(d.whole)
  }

  /** The grade as the preprocessing step reads it: -99 for "S/N" and for
      anything that does not parse, a comma taken as the decimal point,
      fractions truncated toward zero. */
  function ProcessNotaFinal(v: NotaValue): (n: int)
    ensures v.TextValue? && IsSemNota(v.text) ==> n == -99
    ensures v.Empty? ==> n == -99
    ensures v.NumberValue? ==> n == Trunc(v.x)
    ensures v.TextValue? && !IsSemNota(v.text) && ParseDecimal(CommaToDot(v.text)).None? ==> n == -99
    ensures v.TextValue? && !IsSemNota(v.text) && ParseDecimal(CommaToDot(v.text)).Some?
      ==> n == TruncDecimal(ParseDecimal(CommaToDot(v.text)).value)
  {
    match v
    case Empty => -99
    case NumberValue(x) => Trunc(x)
    case TextValue(s) =>
      if IsSemNota(s) then -99
      else
        match ParseDecimal(CommaToDot(s))
        case Some(d) => TruncDecimal(d)
        case None => -99
  }

  lemma {:induction false} ParseDigitsBody(negative: bool, whole: string, tail: string)
    requires AllDigits(whole) && whole != []
    requires tail == [] || (tail[0] == '.' && AllDigits(tail[1..]))
    ensures ParseBody(negative, whole + tail)
         == Some(Decimal(negative, whole, if tail == [] then [] else tail[1..]))
  {
    LeadingDigitsOf(whole, tail);
    assert (whole + tail)[|whole|..] == tail;
  }

  lemma StripUnchanged(t: string)
    requires t != [] && !IsSpace(t[0]) && !IsSpace(t[|t| - 1])
    ensures Strip(t) == t
  {
  }

  /** A digit string with an optional sign in front and a point and
      fraction digits behind needs no stripping. */
  lemma {:induction false} SignedDigitsStripped(sign: string, whole: string, tail: string)
    requires sign == "-" || sign == ""
    requires AllDigits(whole) && whole != []
    requires tail == [] || !IsSpace(tail[|tail| - 1])
    ensures Strip(sign + whole + tail) == sign + whole + tail
  {
    var t := sign + whole + tail;
    assert t[0] == '-' || t[0] == whole[0];
    if tail == [] {
      assert t[|t| - 1] == whole[|whole| - 1];
    } else {
      assert t[|t| - 1] == tail[|tail| - 1];
    }
    StripUnchanged(t);
  }

  /** A signed digit string, optionally followed by a point and fraction
      digits, parses as that decimal. */
  lemma {:induction false} ParseSignedDigits(negative: bool, whole: string, tail: string)
    requires AllDigits(whole) && whole != []
    requires tail == [] || (tail[0] == '.' && AllDigits(tail[1..]))
    ensures ParseDecimal((if negative then "-" else "") + whole + tail)
         == Some(Decimal(negative, whole, if tail == [] then [] else tail[1..]))
  {
    var sign := if negative then "-" else "";
    var t := sign + whole + tail;
    assert tail == [] || !IsSpace(tail[|tail| - 1]) by {
      if |tail| > 1 { assert tail[|tail| - 1] == tail[1..][|tail| - 2]; }
    }
    SignedDigitsStripped(sign, whole, tail);
    assert SignAndBody(t) == (negative, whole + tail) by {
      if negative {
        assert t[0] == '-' && t[1..] == whole + tail;
      } else {
        assert t == whole + tail;
        assert t[0] == whole[0] && IsDigit(whole[0]);
      }
    }
    ParseDigitsBody(negative, whole, tail);
  }

  lemma CommaToDotUnchanged(s: string)
    requires forall k :: 0 <= k < |s| ==> s[k] != ','
    ensures CommaToDot(s) == s
  {
  }

  /** An integer written out in text reads back as itself. */
  lemma NotaOfInteger(i: int)
    ensures ProcessNotaFinal(TextValue(IntToString(i))) == i
  {
    var s := IntToString(i);
    var n: nat := if i < 0 then -i else i;
    var d := NatToString(n);
    var sign := if i < 0 then "-" else "";
    assert s == sign + d + [];
    SignedDigitsNotSemNota(sign, d, []);
    assert forall k :: 0 <= k < |s| ==> s[k] == '-' || IsDigit(s[k]) by {
      forall k | 0 <= k < |s| ensures s[k] == '-' || IsDigit(s[k]) {
        if i < 0 && k > 0 { assert s[k] == d[k - 1]; }
      }
    }
    CommaToDotUnchanged(s);
    ParseSignedDigits(i < 0, d, []);
    var dec := Decimal(i < 0, d, []);
    assert ParseDecimal(CommaToDot(s)) == Some(dec);
    DigitsValueOfNatToString(n);
    assert TruncDecimal(dec) == i;
  }

  /** In "[-]n,f" the only comma is the separator, which becomes the point. */
  lemma CommaToDotDigits(sign: string, d: string, fraction: string)
    requires sign == "-" || sign == ""
    requires AllDigits(d) && AllDigits(fraction)
    ensures CommaToDot(sign + d + "," + fraction) == sign + d + "." + fraction
  {
    var s := sign + d + "," + fraction;
    var r := sign + d + "." + fraction;
    forall i | 0 <= i < |s| ensures CommaToDot(s)[i] == r[i] {
      if i < |sign| {
        assert s[i] == sign[i] && r[i] == sign[i];
      } else if i < |sign| + |d| {
        assert s[i] == d[i - |sign|] && r[i] == d[i - |sign|];
      } else if i > |sign| + |d| {
        assert s[i] == fraction[i - |sign| - |d| - 1] && r[i] == fraction[i - |sign| - |d| - 1];
      }
    }
  }

  /** The text "[-]n,f" is not "S/N" and, with the comma as the point,
      parses as the decimal [-]n.f. */
  lemma {:induction false} CommaDecimalParses(negative: bool, d: string, fraction: string)
    requires AllDigits(d) && d != [] && AllDigits(fraction)
    ensures var s := (if negative then "-" else "") + d + "," + fraction;
      !IsSemNota(s) && ParseDecimal(CommaToDot(s)) == Some(Decimal(negative, d, fraction))
  {
    var sign := if negative then "-" else "";
    var comma := "," + fraction;
    assert sign + d + comma == sign + d + "," + fraction;
    assert !IsSpace(comma[|comma| - 1]) by {
      if fraction != [] { assert comma[|comma| - 1] == fraction[|fraction| - 1]; }
    }
    SignedDigitsNotSemNota(sign, d, comma);
    var tail := "." + fraction;
    CommaToDotDigits(sign, d, fraction);
    assert sign + d + "." + fraction == sign + d + tail;
    assert tail[1..] == fraction;
    ParseSignedDigits(negative, d, tail);
  }

  /** "[-]n" followed by text that does not end in white space is not "S/N". */
  lemma SignedDigitsNotSemNota(sign: string, whole: string, tail: string)
    requires sign == "-" || sign == ""
    requires AllDigits(whole) && whole != []
    requires tail == [] || !IsSpace(tail[|tail| - 1])
    ensures !IsSemNota(sign + whole + tail)
  {
    var s := sign + whole + tail;
    SignedDigitsStripped(sign, whole, tail);
    assert s[|sign|] == whole[0];
  }


  /** "n,f" (comma as the decimal separator) reads as n, the fraction
      truncated away; "-n,f" reads as -n. */
  lemma NotaWithCommaDecimal(negative: bool, n: nat, fraction: string)
    requires AllDigits(fraction)
    ensures var s := (if negative then "-" else "") + NatToString(n) + "," + fraction;
      ProcessNotaFinal(TextValue(s)) == if negative then -(n as int) else n
  {
    CommaDecimalParses(negative, NatToString(n), fraction);
    DigitsValueOfNatToString(n);
  }

  // ===== Clusters per unit =====

  /** The ceiling of `n / maxSize`, but at least 1: the fewest clusters of
      at most `maxSize` points that hold `n` points. */
  function NClusters(n: nat, maxSize: nat): (k: nat)
    requires maxSize > 0
    ensures k >= 1
    ensures n <= k * maxSize
    ensures k == 1 || (k - 1) * maxSize < n
  {
    var c := (n + maxSize - 1) / maxSize;
    if c < 1 then 1 else c
  }

  function Zeros(n: nat): (z: seq<nat>)
    ensures |z| == n && forall i :: 0 <= i < n ==> z[i] == 0
  {
    if n == 0 then [] else [0] + Zeros(n - 1)
  }

  /** The local cluster labels of one unit's `n` points. An empty unit is
      returned as it is; one cluster puts every point in cluster 0;
      otherwise the labels are those the geographic clustering (given as
      `kmeans`) assigns. */
  function ClusterUnidadeLocal(n: nat, maxSize: nat, kmeans: seq<nat>): (labels: seq<nat>)
    requires maxSize > 0
    requires |kmeans| == n && forall i :: 0 <= i < n ==> kmeans[i] < NClusters(n, maxSize)
    ensures |labels| == n
    ensures forall i :: 0 <= i < n ==> labels[i] < NClusters(n, maxSize)
    ensures NClusters(n, maxSize) == 1 ==> forall i :: 0 <= i < n ==> labels[i] == 0
    ensures NClusters(n, maxSize) > 1 ==> labels == kmeans
  {
    if n == 0 then []
    else if NClusters(n, maxSize) == 1 then Zeros(n)
    else kmeans
  }

  // ===== Global numbering =====

  /** One unit's points, in row order, with their local cluster labels. */
  datatype UnitGroup = UnitGroup(unidadeLocal: string, local: seq<nat>)

  /** A point after global numbering. */
  datatype Assigned = Assigned(unidadeLocal: string, cluster: nat, clusterLabel: string)

  predicate NonEmptyGroups(gs: seq<UnitGroup>) {
    forall i :: 0 <= i < |gs| ==> gs[i].local != []
  }

  /** The largest label of a unit. */
  function SeqMax(xs: seq<nat>): nat
    requires xs != []
  {
    if |xs| == 1 then xs[0]
    else
      var rest := SeqMax(xs[1..]);
      if xs[0] > rest then xs[0] else rest
  }

  /** The largest label is one of the labels and bounds all of them. */
  lemma {:induction false} SeqMaxIsMax(xs: seq<nat>)
    requires xs != []
    ensures SeqMax(xs) in xs
    ensures forall i :: 0 <= i < |xs| ==> xs[i] <= SeqMax(xs)
  {
    if |xs| > 1 {
      SeqMaxIsMax(xs[1..]);
      assert forall i :: 1 <= i < |xs| ==> xs[i] == xs[1..][i - 1];
    }
  }

  /** One unit's points shifted by `offset` and labelled "<unit>-C<id>". */
  function Shifted(g: UnitGroup, offset: nat): (r: seq<Assigned>)
    ensures |r| == |g.local|
    ensures forall i :: 0 <= i < |r| ==> r[i].unidadeLocal == g.unidadeLocal
    ensures forall i :: 0 <= i < |r| ==> r[i].cluster == g.local[i] + offset
  {
    seq(|g.local|, i requires 0 <= i < |g.local| =>
      Assigned(g.unidadeLocal, g.local[i] + offset, UnitLabel(g.unidadeLocal, g.local[i] + offset)))
  }

  /** The offset the unit after `g` starts from: one above `g`'s largest id. */
  function NextOffset(g: UnitGroup, offset: nat): nat
    requires g.local != []
  {
    SeqMax(g.local) + offset + 1
  }

  /** The units from the k-th on, numbered into one id space starting at
      `offset`: each unit's ids are shifted past every id of the units
      before it. */
  function NumberedFrom(gs: seq<UnitGroup>, k: nat, offset: nat): (r: seq<Assigned>)
    requires NonEmptyGroups(gs) && k <= |gs|
    decreases |gs| - k
  {
    if k == |gs| then []
    else Shifted(gs[k], offset) + NumberedFrom(gs, k + 1, NextOffset(gs[k], offset))
  }

  /** Numbering from unit k: unit k's shifted points, then the later units
      numbered from one past its largest id. */
  lemma NumberedFromCons(gs: seq<UnitGroup>, k: nat, offset: nat)
    requires NonEmptyGroups(gs) && k < |gs|
    ensures NumberedFrom(gs, k, offset)
         == Shifted(gs[k], offset) + NumberedFrom(gs, k + 1, NextOffset(gs[k], offset))
  {
  }

  /** Every id produced from an offset is at least that offset. */
  lemma {:induction false} NumberedFromAbove(gs: seq<UnitGroup>, k: nat, offset: nat)
    requires NonEmptyGroups(gs) && k <= |gs|
    ensures forall i :: 0 <= i < |NumberedFrom(gs, k, offset)| ==> NumberedFrom(gs, k, offset)[i].cluster >= offset
    decreases |gs| - k
  {
    if k < |gs| {
      var first := Shifted(gs[k], offset);
      var next := NextOffset(gs[k], offset);
      var rest := NumberedFrom(gs, k + 1, next);
      NumberedFromAbove(gs, k + 1, next);
      assert NumberedFrom(gs, k, offset) == first + rest;
    }
  }

  /** All units numbered from id 0 on. */
  function Renumbered(gs: seq<UnitGroup>): seq<Assigned>
    requires NonEmptyGroups(gs)
  {
    NumberedFrom(gs, 0, 0)
  }

  lemma ConcatAssociative<T>(a: seq<T>, b: seq<T>, c: seq<T>)
    ensures (a + b) + c == a + (b + c)
  {
  }

  /** One turn of the renumbering loop keeps the output so far followed by
      the numbering of the remaining units equal to the whole numbering. */
  lemma RenumberStep(gs: seq<UnitGroup>, done: seq<Assigned>, k: nat, offset: nat)
    requires NonEmptyGroups(gs) && k < |gs|
    requires done + NumberedFrom(gs, k, offset) == Renumbered(gs)
    ensures (done + Shifted(gs[k], offset)) + NumberedFrom(gs, k + 1, NextOffset(gs[k], offset))
         == Renumbered(gs)
  {
    NumberedFromCons(gs, k, offset);
    ConcatAssociative(done, Shifted(gs[k], offset), NumberedFrom(gs, k + 1, NextOffset(gs[k], offset)));
  }

  /** The renumbering loop: walks the units in order, shifting each by the
      running offset, which then moves one past the unit's largest id. */
  method PerformRenumbering(groups: seq<UnitGroup>) returns (result: seq<Assigned>)
    requires NonEmptyGroups(groups)
    ensures result == Renumbered(groups)
  {
    var globalClusterId: nat := 0;
    result := [];
    var i := 0;
    while i < |groups|
      invariant 0 <= i <= |groups|
      invariant result + NumberedFrom(groups, i, globalClusterId) == Renumbered(groups)
    {
      var shifted := Shifted(groups[i], globalClusterId);
      RenumberStep(groups, result, i, globalClusterId);
      globalClusterId := NextOffset(groups[i], globalClusterId);
      result := result + shifted;
      i := i + 1;
    }
  }

  /** Each point's label is "<unit>-C<id>" of its own unit and id. */
  predicate LabelsMatch(r: seq<Assigned>) {
    forall i :: 0 <= i < |r| ==> r[i].clusterLabel == UnitLabel(r[i].unidadeLocal, r[i].cluster)
  }

  lemma LabelsMatchConcat(a: seq<Assigned>, b: seq<Assigned>)
    requires LabelsMatch(a) && LabelsMatch(b)
    ensures LabelsMatch(a + b)
  {
    forall i | 0 <= i < |a + b|
      ensures (a + b)[i].clusterLabel == UnitLabel((a + b)[i].unidadeLocal, (a + b)[i].cluster)
    {
      if i >= |a| {
        assert (a + b)[i] == b[i - |a|];
      }
    }
  }

  lemma ShiftedLabels(g: UnitGroup, offset: nat)
    ensures LabelsMatch(Shifted(g, offset))
  {
  }

  lemma {:induction false} NumberedLabels(gs: seq<UnitGroup>, k: nat, offset: nat)
    requires NonEmptyGroups(gs) && k <= |gs|
    ensures LabelsMatch(NumberedFrom(gs, k, offset))
    decreases |gs| - k
  {
    if k < |gs| {
      var next := NextOffset(gs[k], offset);
      NumberedLabels(gs, k + 1, next);
      ShiftedLabels(gs[k], offset);
      LabelsMatchConcat(Shifted(gs[k], offset), NumberedFrom(gs, k + 1, next));
    }
  }

  /** Every point carries the label "<unit>-C<id>" of its unit and its
      global id. */
  lemma RenumberedLabels(gs: seq<UnitGroup>)
    requires NonEmptyGroups(gs)
    ensures LabelsMatch(Renumbered(gs))
  {
    NumberedLabels(gs, 0, 0);
  }

  /** Every id of a later unit exceeds every id of an earlier unit. */
  predicate UnitsInOrder(r: seq<Assigned>) {
    forall i, j :: 0 <= i < j < |r| && r[i].unidadeLocal != r[j].unidadeLocal ==>
      r[i].cluster < r[j].cluster
  }

  /** Two units never share an id, and an id determines its label. */
  predicate IdsSeparateUnits(r: seq<Assigned>) {
    forall i, j :: 0 <= i < |r| && 0 <= j < |r| && r[i].cluster == r[j].cluster ==>
      r[i].unidadeLocal == r[j].unidadeLocal && r[i].clusterLabel == r[j].clusterLabel
  }

  /** Two runs in order, all of the first below a bound the second never
      goes under, are in order together. */
  lemma InOrderConcat(a: seq<Assigned>, b: seq<Assigned>, bound: nat)
    requires UnitsInOrder(a) && UnitsInOrder(b)
    requires forall m :: 0 <= m < |a| ==> a[m].cluster < bound
    requires forall m :: 0 <= m < |b| ==> b[m].cluster >= bound
    ensures UnitsInOrder(a + b)
  {
    var r := a + b;
    forall i, j | 0 <= i < j < |r| && r[i].unidadeLocal != r[j].unidadeLocal
      ensures r[i].cluster < r[j].cluster
    {
      if i >= |a| {
        assert r[i] == b[i - |a|] && r[j] == b[j - |a|];
      } else if j >= |a| {
        assert r[i] == a[i] && r[j] == b[j - |a|];
      }
    }
  }

  lemma {:induction false} NumberedInOrder(gs: seq<UnitGroup>, k: nat, offset: nat)
    requires NonEmptyGroups(gs) && k <= |gs|
    ensures UnitsInOrder(NumberedFrom(gs, k, offset))
    decreases |gs| - k
  {
    if k < |gs| {
      var first := Shifted(gs[k], offset);
      var next := NextOffset(gs[k], offset);
      NumberedFromCons(gs, k, offset);
      NumberedInOrder(gs, k + 1, next);
      NumberedFromAbove(gs, k + 1, next);
      SeqMaxIsMax(gs[k].local);
      assert forall m :: 0 <= m < |first| ==> first[m].cluster < next;
      InOrderConcat(first, NumberedFrom(gs, k + 1, next), next);
    }
  }

  lemma LaterUnitsAbove(gs: seq<UnitGroup>)
    requires NonEmptyGroups(gs)
    ensures UnitsInOrder(Renumbered(gs))
  {
    NumberedInOrder(gs, 0, 0);
  }

  lemma UnitsNeverShareClusters(gs: seq<UnitGroup>)
    requires NonEmptyGroups(gs)
    ensures IdsSeparateUnits(Renumbered(gs))
  {
    LaterUnitsAbove(gs);
    RenumberedLabels(gs);
  }

  /** The number of points in units k up to (not including) j. */
  function Between(gs: seq<UnitGroup>, k: nat, j: nat): nat
    requires k <= j <= |gs|
    decreases j - k
  {
    if k == j then 0 else |gs[k].local| + Between(gs, k + 1, j)
  }

  /** The position of unit `j`'s first point in the output: the number of
      points of the units before it. */
  function Start(gs: seq<UnitGroup>, j: nat): nat
    requires j <= |gs|
  {
    Between(gs, 0, j)
  }

  /** The offset unit `j` is shifted by when the units from the k-th on are
      numbered from `offset`: each unit moves it one past its largest id. */
  function OffFrom(gs: seq<UnitGroup>, k: nat, offset: nat, j: nat): nat
    requires NonEmptyGroups(gs) && k <= j <= |gs|
    decreases j - k
  {
    if k == j then offset else OffFrom(gs, k + 1, NextOffset(gs[k], offset), j)
  }

  /** The offset unit `j` is shifted by in the whole numbering. */
  function Off(gs: seq<UnitGroup>, j: nat): nat
    requires NonEmptyGroups(gs) && j <= |gs|
  {
    OffFrom(gs, 0, 0, j)
  }

  lemma {:induction false} OffFromStep(gs: seq<UnitGroup>, k: nat, offset: nat, j: nat)
    requires NonEmptyGroups(gs) && k <= j < |gs|
    ensures OffFrom(gs, k, offset, j + 1) == NextOffset(gs[j], OffFrom(gs, k, offset, j))
    decreases j - k
  {
    if k < j {
      OffFromStep(gs, k + 1, NextOffset(gs[k], offset), j);
    }
  }

  /** The first unit starts at offset 0 and each next unit one past the
      largest id of the unit before it. */
  lemma OffSteps(gs: seq<UnitGroup>, j: nat)
    requires NonEmptyGroups(gs) && j < |gs|
    ensures Off(gs, 0) == 0
    ensures Off(gs, j + 1) == SeqMax(gs[j].local) + Off(gs, j) + 1
  {
    OffFromStep(gs, 0, 0, j);
  }

  /** What the m-th point of unit `j` becomes: its unit, its local label
      shifted by the unit's offset, and the label of that id. */
  function Entry(gs: seq<UnitGroup>, j: nat, m: nat): Assigned
    requires NonEmptyGroups(gs) && j < |gs| && m < |gs[j].local|
  {
    var id := gs[j].local[m] + Off(gs, j);
    Assigned(gs[j].unidadeLocal, id, UnitLabel(gs[j].unidadeLocal, id))
  }

  lemma {:induction false} NumberedFromLength(gs: seq<UnitGroup>, k: nat, offset: nat)
    requires NonEmptyGroups(gs) && k <= |gs|
    ensures |NumberedFrom(gs, k, offset)| == Between(gs, k, |gs|)
    decreases |gs| - k
  {
    if k < |gs| {
      var next := NextOffset(gs[k], offset);
      var rest := NumberedFrom(gs, k + 1, next);
      assert NumberedFrom(gs, k, offset) == Shifted(gs[k], offset) + rest;
      NumberedFromLength(gs, k + 1, next);
    }
  }

  /** The shifted copies of units k onwards, numbered from `offset`, one
      sequence per unit. */
  function Pieces(gs: seq<UnitGroup>, k: nat, offset: nat): (r: seq<seq<Assigned>>)
    requires NonEmptyGroups(gs) && k <= |gs|
    ensures |r| == |gs| - k
    decreases |gs| - k
  {
    if k == |gs| then []
    else [Shifted(gs[k], offset)] + Pieces(gs, k + 1, NextOffset(gs[k], offset))
  }

  lemma PiecesCons(gs: seq<UnitGroup>, k: nat, offset: nat)
    requires NonEmptyGroups(gs) && k < |gs|
    ensures Pieces(gs, k, offset) == [Shifted(gs[k], offset)] + Pieces(gs, k + 1, NextOffset(gs[k], offset))
  {
  }

  /** The concatenation of a sequence of sequences. */
  function Flatten<T>(ps: seq<seq<T>>): seq<T> {
    if ps == [] then [] else ps[0] + Flatten(ps[1..])
  }

  /** The total length of the first `j` sequences of `ps`. */
  function Prefix<T>(ps: seq<seq<T>>, j: nat): nat
    requires j <= |ps|
  {
    if j == 0 then 0 else |ps[0]| + Prefix(ps[1..], j - 1)
  }

  /** Dropping the head of a sequence built from its head gives the rest. */
  lemma ConsTail<T>(a: T, ps: seq<T>)
    ensures ([a] + ps)[0] == a
    ensures ([a] + ps)[1..] == ps
  {
  }

  /** Element i + 1 of a sequence built from a head is element i of the rest. */
  lemma ConsIndex<T>(a: T, ps: seq<T>, i: nat)
    requires i < |ps|
    ensures ([a] + ps)[i + 1] == ps[i]
  {
  }

  /** Element m of the j-th sequence sits after the first j sequences. */
  lemma {:induction false} FlattenAt<T>(ps: seq<seq<T>>, j: nat, m: nat)
    requires j < |ps| && m < |ps[j]|
    ensures Prefix(ps, j) + m < |Flatten(ps)|
    ensures Flatten(ps)[Prefix(ps, j) + m] == ps[j][m]
  {
    assert Flatten(ps) == ps[0] + Flatten(ps[1..]);
    if j > 0 {
      FlattenAt(ps[1..], j - 1, m);
      assert ps[1..][j - 1] == ps[j];
    }
  }

  /** Numbering the units is concatenating their shifted copies. */
  lemma {:induction false} NumberedFromFlatten(gs: seq<UnitGroup>, k: nat, offset: nat)
    requires NonEmptyGroups(gs) && k <= |gs|
    ensures NumberedFrom(gs, k, offset) == Flatten(Pieces(gs, k, offset))
    decreases |gs| - k
  {
    if k < |gs| {
      var next := NextOffset(gs[k], offset);
      PiecesCons(gs, k, offset);
      ConsTail(Shifted(gs[k], offset), Pieces(gs, k + 1, next));
      NumberedFromCons(gs, k, offset);
      NumberedFromFlatten(gs, k + 1, next);
    }
  }

  /** Unit j's copy is shifted by the offset reached after units k to j-1. */
  lemma {:induction false} PiecesAt(gs: seq<UnitGroup>, k: nat, offset: nat, j: nat)
    requires NonEmptyGroups(gs) && k <= j < |gs|
    ensures Pieces(gs, k, offset)[j - k] == Shifted(gs[j], OffFrom(gs, k, offset, j))
    decreases j - k
  {
    if k < j {
      var next := NextOffset(gs[k], offset);
      var rest := Pieces(gs, k + 1, next);
      var i := j - (k + 1);
      assert j - k == i + 1;
      PiecesAt(gs, k + 1, next, j);
      PiecesCons(gs, k, offset);
      ConsIndex(Shifted(gs[k], offset), rest, i);
      assert OffFrom(gs, k, offset, j) == OffFrom(gs, k + 1, next, j);
    }
  }

  /** The copies of units k to j-1 hold as many points as those units. */
  lemma {:induction false} PiecesPrefix(gs: seq<UnitGroup>, k: nat, offset: nat, j: nat)
    requires NonEmptyGroups(gs) && k <= j <= |gs|
    ensures Prefix(Pieces(gs, k, offset), j - k) == Between(gs, k, j)
    decreases j - k
  {
    if k < j {
      var next := NextOffset(gs[k], offset);
      var ps := Pieces(gs, k, offset);
      PiecesCons(gs, k, offset);
      ConsTail(Shifted(gs[k], offset), Pieces(gs, k + 1, next));
      PiecesPrefix(gs, k + 1, next, j);
      assert j - k - 1 == j - (k + 1);
      assert Prefix(ps, j - k) == |ps[0]| + Prefix(ps[1..], j - (k + 1));
      assert Between(gs, k, j) == |gs[k].local| + Between(gs, k + 1, j);
    }
  }

  /** The output has one entry per input point. */
  lemma RenumberedLength(gs: seq<UnitGroup>)
    requires NonEmptyGroups(gs)
    ensures |Renumbered(gs)| == Start(gs, |gs|)
  {
    NumberedFromLength(gs, 0, 0);
  }

  /** The units follow each other in input order: the m-th point of unit j
      sits at Start(gs, j) + m and carries its unit, its local label plus
      the unit's offset, and that id's label. */
  lemma RenumberedAt(gs: seq<UnitGroup>, j: nat, m: nat)
    requires NonEmptyGroups(gs) && j < |gs| && m < |gs[j].local|
    ensures Start(gs, j) + m < |Renumbered(gs)|
    ensures Renumbered(gs)[Start(gs, j) + m] == Entry(gs, j, m)
  {
    var ps := Pieces(gs, 0, 0);
    assert j - 0 == j;
    NumberedFromFlatten(gs, 0, 0);
    PiecesPrefix(gs, 0, 0, j);
    PiecesAt(gs, 0, 0, j);
    FlattenAt(ps, j, m);
  }

  /** Within one unit, two points share a global id exactly when they
      shared a local label. */
  lemma SameUnitSameId(gs: seq<UnitGroup>, j: nat, m1: nat, m2: nat)
    requires NonEmptyGroups(gs) && j < |gs| && m1 < |gs[j].local| && m2 < |gs[j].local|
    ensures Start(gs, j) + m1 < |Renumbered(gs)| && Start(gs, j) + m2 < |Renumbered(gs)|
    ensures Renumbered(gs)[Start(gs, j) + m1].cluster == Renumbered(gs)[Start(gs, j) + m2].cluster
        <==> gs[j].local[m1] == gs[j].local[m2]
  {
    RenumberedAt(gs, j, m1);
    RenumberedAt(gs, j, m2);
    var off := Off(gs, j);
    assert Renumbered(gs)[Start(gs, j) + m1].cluster == gs[j].local[m1] + off;
    assert Renumbered(gs)[Start(gs, j) + m2].cluster == gs[j].local[m2] + off;
  }


  // ===== Output workbook =====

  /** Row `i` of the "All Points" sheet the preprocessing step writes: Point
      ID `i`, the importer's column titles, Dataset "Principal". */
  function PreparedRow(p: Point, i: nat): SheetRow {
    CommonCells(p, map[]).(
      pointId := Some(Number(i as real)),
      identificacaoDaOae := Some(Text(p.idOae)),
      extensaoAccented := Some(Number(p.extensao)),
      dataset := Some(Text("Principal")))
  }

  function PrepareAllPoints(ps: seq<Point>): (r: seq<SheetRow>)
    ensures |r| == |ps|
    ensures forall i :: 0 <= i < |r| ==> r[i].pointId == Some(Number(i as real))
    ensures forall i :: 0 <= i < |r| ==> r[i].dataset == Some(Text("Principal"))
    ensures forall i :: 0 <= i < |r| ==>
      r[i].clusterId == Some(Number(ps[i].cluster as real))
      && r[i].clusterLabel == Some(Text(ps[i].clusterLabel))
  {
    seq(|ps|, i requires 0 <= i < |ps| => PreparedRow(ps[i], i))
  }

  /** The editor imports that sheet as the same points: row i becomes the
      point with id "i" (the row number stands in for the numeric id),
      dataset 0, and every other field as written. */
  lemma ImportPreparedOutput(ps: seq<Point>, i: nat, maxExisting: int)
    requires i < |ps| && Reimportable(ps[i])
    ensures var row := ReadRow(PrepareAllPoints(ps)[i]);
      row.Some? && ToPoint(row.value, i, false, 0, maxExisting)
                     == ps[i].(id := NatToString(i), dataset := 0)
  {
    var p := ps[i];
    assert PrepareAllPoints(ps)[i] == PreparedRow(p, i);
    TruncOfInt(p.cluster);
    TruncOfInt(p.sge);
    TruncOfInt(p.nota);
    assert ReadRow(PreparedRow(p, i)) == Some(RowOf(p).(pointId := None));
    ToPointOfRowOf(p.(id := NatToString(i)), i, maxExisting);
  }

  /** The summary row the preprocessing step writes for cluster `c`: label
      and unit of its first row as they are, count and cost sum. */
  function PreparedSummaryRow(ps: seq<Point>, c: int): (r: SummaryRow)
    requires HasCluster(ps, c)
    ensures r.clusterId == c && r.nPoints == Count(ps, c) && r.totalCost == CostSum(ps, c)
    ensures r.clusterLabel == ps[FirstWith(ps, c).value].clusterLabel
    ensures r.unidadeLocal == ps[FirstWith(ps, c).value].unidadeLocal
  {
    var members := Members(ps, c);
    SummaryRow(c, members[0].clusterLabel, members[0].unidadeLocal, |members|, TotalCost(members))
  }

  /** The "Cluster Summary" sheet: one row per distinct id, ascending. */
  function PreparedSummary(ps: seq<Point>): (r: seq<SummaryRow>)
    ensures |r| == |ClusterIds(ps)|
    ensures forall i, j :: 0 <= i < j < |r| ==> r[i].clusterId < r[j].clusterId
    ensures forall c :: HasCluster(ps, c) <==> exists i :: 0 <= i < |r| && r[i].clusterId == c
    ensures forall i :: 0 <= i < |r| ==>
      HasCluster(ps, r[i].clusterId) && r[i] == PreparedSummaryRow(ps, r[i].clusterId)
  {
    var ids := ClusterIds(ps);
    var r := seq(|ids|, i requires 0 <= i < |ids| => (assert ids[i] in ids; PreparedSummaryRow(ps, ids[i])));
    assert forall i :: 0 <= i < |r| ==> r[i].clusterId == ids[i];
    r
  }

  /** The summary loop: for each distinct id in ascending order, the rows
      of that cluster, their count, their cost sum, and the label and unit
      of the first of them. */
  method PrepareSummary(ps: seq<Point>) returns (summary: seq<SummaryRow>)
    ensures summary == PreparedSummary(ps)
  {
    var ids := ClusterIds(ps);
    summary := [];
    var k := 0;
    while k < |ids|
      invariant 0 <= k <= |ids|
      invariant summary == PreparedSummary(ps)[..k]
    {
      assert ids[k] in ids;
      var clusterData := Members(ps, ids[k]);
      var row := SummaryRow(ids[k], clusterData[0].clusterLabel, clusterData[0].unidadeLocal,
                            |clusterData|, TotalCost(clusterData));
      assert PreparedSummary(ps)[k].clusterId == ids[k];
      summary := summary + [row];
      k := k + 1;
    }
  }

  /** On the preprocessing step's own output (no unassigned points, every
      label and unit filled in), the editor's summary agrees with it row for
      row. */
  lemma PreparedSummaryMatchesEditor(ps: seq<Point>)
    requires forall i :: 0 <= i < |ps| ==>
      ps[i].cluster != SemLote && ps[i].clusterLabel != "" && ps[i].unidadeLocal != ""
    ensures PreparedSummary(ps) == ExportSummary(ps)
  {
    var a := PreparedSummary(ps);
    var b := ExportSummary(ps);
    var ids := ClusterIds(ps);
    forall i | 0 <= i < |a| ensures a[i] == b[i] {
      assert a[i].clusterId == ids[i] by {
        assert ids[i] in ids;
        AscendingUnique(ids, ids);
      }
    }
  }
}
