/**
 * Decimal text and numbers. Python's floats are modelled as exact reals:
 * `ParseFloat` is `float(text)` as a partial function, `Fixed2` is the
 * `f"{v:.2f}"` rendering, `Trunc` is `int(v)` and `IntText` is `str(n)`.
 */
module Numbers {
  import opened Wrappers
  import opened Text

  predicate AllDigits(s: string) {
    forall i :: 0 <= i < |s| ==> IsDigit(s[i])
  }

  function DigitValue(c: char): (d: nat)
    requires IsDigit(c)
    ensures d < 10
  {
    c as int - '0' as int
  }

  function DigitChar(d: nat): (c: char)
    requires d < 10
    ensures IsDigit(c) && DigitValue(c) == d
  {
    ('0' as int + d) as char
  }

  /** The value of a string of decimal digits, most significant first. */
  function DigitsValue(s: string): nat
    requires AllDigits(s)
  {
    if |s| == 0 then 0 else DigitsValue(s[..|s| - 1]) * 10 + DigitValue(s[|s| - 1])
  }

  function Pow10(n: nat): (p: nat)
    ensures p >= 1
  {
    if n == 0 then 1 else 10 * Pow10(n - 1)
  }

  lemma DigitsHaveNoSeparator(s: string)
    requires AllDigits(s)
    ensures '.' !in s && ',' !in s && '-' !in s
  {
  }

  // ---------------------------------------------------------------- integers

  /** An integer as `str` writes it: an optional '-', then digits without a leading zero. */
  predicate IntShaped(s: string) {
    && |s| > 0
    && var digits := if s[0] == '-' then s[1..] else s;
      |digits| > 0 && AllDigits(digits) && (|digits| > 1 ==> digits[0] != '0')
  }

  /** A number as `f"{v:.2f}"` writes it: an integer as `str` writes it, '.', and two digits. */
  predicate Fixed2Shaped(s: string) {
    |s| >= 4 && s[|s| - 3] == '.' && IntShaped(s[..|s| - 3]) && AllDigits(s[|s| - 2..])
  }

  /** `str(n)` for a natural number: its shortest decimal digit string. */
  function NatText(n: nat): (r: string)
    ensures |r| > 0 && AllDigits(r)
    ensures DigitsValue(r) == n
    ensures n > 0 ==> r[0] != '0'
    ensures |r| > 1 ==> r[0] != '0'
  {
    if n < 10 then [DigitChar(n)]
    else
      var p := NatText(n / 10);
      assert (p + [DigitChar(n % 10)])[..|p|] == p;
      p + [DigitChar(n % 10)]
  }

  /**
   * `str(i)` for an integer: a '-' exactly for negatives, then the digits of
   * the magnitude without leading zeros, and no decimal point.
   */
  function IntText(i: int): (r: string)
    ensures |r| > 0 && (r[0] == '-' <==> i < 0)
    ensures var digits := if i < 0 then r[1..] else r;
      |digits| > 0 && AllDigits(digits) && DigitsValue(digits) == (if i < 0 then -i else i)
      && (|digits| > 1 ==> digits[0] != '0')
    ensures '.' !in r
    ensures IntShaped(r)
  {
    if i < 0 then "-" + NatText(-i) else NatText(i)
  }

  /** `int(v)`: truncation toward zero. */
  function Trunc(v: real): (n: int)
    ensures v >= 0.0 ==> 0 <= n && n as real <= v < n as real + 1.0
    ensures v < 0.0 ==> n <= 0 && n as real - 1.0 < v <= n as real
  {
    if v >= 0.0 then v.Floor else -((-v).Floor)
  }

  predicate IsIntegral(v: real) {
    v.Floor as real == v
  }

  // ---------------------------------------------------------------- parsing

  /** `float(s)` restricted to unsigned decimals: `D+`, `D+.`, `D+.D+` or `.D+`. */
  function ParseUnsigned(s: string): Option<real> {
    var parts := Split(s, '.');
    if |parts| == 1 then
      if |parts[0]| > 0 && AllDigits(parts[0]) then Some(DigitsValue(parts[0]) as real) else None
    else if |parts| == 2 && AllDigits(parts[0]) && AllDigits(parts[1]) && |parts[0] + parts[1]| > 0 then
      Some(DigitsValue(parts[0]) as real + DigitsValue(parts[1]) as real / Pow10(|parts[1]|) as real)
    else None
  }

  /**
   * `float(s)`: an optional sign followed by an unsigned decimal; `None` stands for
   * the `ValueError` Python raises.
   */
  function ParseFloat(s: string): (r: Option<real>)
    ensures r.Some? ==> |s| > 0
  {
    var signed := |s| > 0 && (s[0] == '-' || s[0] == '+');
    var body := if signed then s[1..] else s;
    match ParseUnsigned(body)
    case Some(x) => Some(if signed && s[0] == '-' then -x else x)
    case None => None
  }

  /** A string in which '.' occurs at least twice never parses. */
  lemma {:induction false} TwoDotsFail(s: string)
    requires AllDigitsOrDots(s) && Count(s, '.') >= 2
    ensures ParseFloat(s) == None
  {
    var parts := Split(s, '.');
    JoinSplit(s, '.');
    if |parts| <= 2 {
      CountInJoin(parts, '.');
    }
    if |s| > 0 {
      assert s[0] != '-' && s[0] != '+' by { assert s[0] in s; }
    }
  }

  predicate AllDigitsOrDots(s: string) {
    forall i :: 0 <= i < |s| ==> IsDigit(s[i]) || s[i] == '.'
  }

  /** The separator occurs exactly |pieces| - 1 times in a join of separator-free pieces. */
  lemma {:induction false} CountInJoin(pieces: seq<string>, c: char)
    requires |pieces| > 0
    requires forall k :: 0 <= k < |pieces| ==> c !in pieces[k]
    ensures Count(Join(pieces, c), c) == |pieces| - 1
  {
    if |pieces| > 1 {
      CountInJoin(pieces[1..], c);
      CountAppend(pieces[0] + [c], Join(pieces[1..], c), c);
      CountAppend(pieces[0], [c], c);
    }
  }

  lemma {:induction false} CountAppend(a: string, b: string, c: char)
    ensures Count(a + b, c) == Count(a, c) + Count(b, c)
  {
    if |a| > 0 {
      CountAppend(a[1..], b, c);
      assert (a + b)[1..] == a[1..] + b;
    } else {
      assert a + b == b;
    }
  }

  /** A digit string with one '.' parses to its decimal value. */
  lemma DecimalParses(a: string, b: string)
    requires |a| > 0 && AllDigits(a) && AllDigits(b)
    ensures ParseFloat(a + "." + b).Some?
    ensures ParseFloat(a + "." + b).value == DigitsValue(a) as real + DigitsValue(b) as real / Pow10(|b|) as real
  {
    var s := a + "." + b;
    SplitDecimal(a, b);
    UnsignedDecimalParses(a, b, s);
    assert s[0] == a[0];
    UnsignedParse(s);
  }

  /** Digits, a dot and digits parse whenever there is a digit at all, also with no digit before the dot. */
  lemma DecimalParsesAny(a: string, b: string)
    requires AllDigits(a) && AllDigits(b)
    ensures ParseFloat(a + "." + b) ==
      if |a + b| > 0 then Some(DigitsValue(a) as real + DigitsValue(b) as real / Pow10(|b|) as real) else None
  {
    if |a| > 0 {
      DecimalParsesWhole(a, b);
    } else {
      DecimalParsesNoWhole(a, b);
    }
  }

  lemma DecimalParsesWhole(a: string, b: string)
    requires |a| > 0 && AllDigits(a) && AllDigits(b)
    ensures |a + b| > 0
    ensures ParseFloat(a + "." + b) == Some(DigitsValue(a) as real + DigitsValue(b) as real / Pow10(|b|) as real)
  {
    DecimalParses(a, b);
    var p := ParseFloat(a + "." + b);
    assert p == Some(p.value);
  }

  lemma DecimalParsesNoWhole(a: string, b: string)
    requires |a| == 0 && AllDigits(b)
    ensures |a + b| == |b| && DigitsValue(a) == 0
    ensures ParseFloat(a + "." + b) == if |b| > 0 then Some(DigitsValue(b) as real / Pow10(|b|) as real) else None
  {
    assert a + "." + b == "." + b;
    DotFirstParses(b);
  }

  lemma DotFirstParses(b: string)
    requires AllDigits(b)
    ensures ParseFloat("." + b) == if |b| > 0 then Some(DigitsValue(b) as real / Pow10(|b|) as real) else None
  {
    var s := "." + b;
    SplitDecimal("", b);
    assert "" + "." + b == s;
    UnsignedDotFirst(b, s);
    UnsignedBody(s);
  }

  lemma UnsignedBody(s: string)
    requires |s| > 0 && s[0] == '.'
    ensures ParseFloat(s) == ParseUnsigned(s)
  {
  }

  lemma UnsignedDotFirst(b: string, s: string)
    requires AllDigits(b) && Split(s, '.') == ["", b]
    ensures ParseUnsigned(s) == if |b| > 0 then Some(DigitsValue(b) as real / Pow10(|b|) as real) else None
  {
    var parts := Split(s, '.');
    assert |parts| == 2 && parts[0] == "" && parts[1] == b;
    assert parts[0] + parts[1] == b;
    assert DigitsValue(parts[0]) == 0;
  }

  lemma UnsignedParse(s: string)
    requires |s| > 0 && IsDigit(s[0])
    ensures ParseFloat(s) == ParseUnsigned(s)
  {
  }

  lemma UnsignedDecimalParses(a: string, b: string, s: string)
    requires |a| > 0 && AllDigits(a) && AllDigits(b)
    requires Split(s, '.') == [a, b]
    ensures ParseUnsigned(s).Some?
    ensures ParseUnsigned(s).value == DigitsValue(a) as real + DigitsValue(b) as real / Pow10(|b|) as real
  {
    var parts := Split(s, '.');
    assert |parts| == 2 && parts[0] == a && parts[1] == b;
    assert |parts[0] + parts[1]| > 0;
  }

  lemma SplitDecimal(a: string, b: string)
    requires AllDigits(a) && AllDigits(b)
    ensures Split(a + "." + b, '.') == [a, b]
  {
    DigitsHaveNoSeparator(a);
    DigitsHaveNoSeparator(b);
    assert a + "." + b == a + ['.'] + b;
    SplitAfterPiece(a, b, '.');
    SplitFree(b, '.');
  }

  /** A non-empty digit string parses to its value. */
  lemma DigitsParse(a: string)
    requires |a| > 0 && AllDigits(a)
    ensures ParseFloat(a) == Some(DigitsValue(a) as real)
  {
    DigitsHaveNoSeparator(a);
    SplitFree(a, '.');
    assert IsDigit(a[0]);
  }

  // ---------------------------------------------------------------- two decimals

  /** The number of hundredths `f"{x:.2f}"` shows for a non-negative x (ties away from zero). */
  function Cents(x: real): (c: nat)
    requires x >= 0.0
    ensures x * 100.0 - 0.5 < c as real <= x * 100.0 + 0.5
  {
    (x * 100.0 + 0.5).Floor
  }

  function TwoDigits(c: nat): (r: string)
    ensures |r| == 2 && AllDigits(r) && DigitsValue(r) == c % 100
  {
    var d := c % 100;
    var r := [DigitChar(d / 10), DigitChar(d % 10)];
    assert r[..1] == [r[0]] && r[..1][..0] == [];
    assert DigitsValue(r[..1]) == d / 10;
    assert DigitsValue(r) == (d / 10) * 10 + d % 10;
    r
  }

  /** The unsigned text of a number of hundredths: the whole part, '.', and the two-digit remainder. */
  function CentsText(c: nat): (r: string)
    ensures Fixed2Shaped(r) && IsDigit(r[0])
  {
    var whole := NatText(c / 100);
    var r := whole + "." + TwoDigits(c);
    assert r[..|r| - 3] == whole && r[|r| - 2..] == TwoDigits(c);
    r
  }

  /** `f"{v:.2f}"`: a sign for negative values, whole part, '.', exactly two digits. */
  function Fixed2(v: real): (r: string)
    ensures |r| >= 4 && r[|r| - 3] == '.'
    ensures (r[0] == '-') <==> v < 0.0
    ensures Fixed2Shaped(r)
  {
    var x := if v < 0.0 then -v else v;
    var body := CentsText(Cents(x));
    if v < 0.0 then
      assert ("-" + body)[..|body| - 2] == "-" + body[..|body| - 3];
      assert ("-" + body)[|body| - 1..] == body[|body| - 2..];
      "-" + body
    else body
  }

  /** `f"{0:.2f}"` is "0.00" and `f"{1:.2f}"` is "1.00". */
  lemma Fixed2Units(n: nat)
    requires n <= 1
    ensures Fixed2(n as real) == [DigitChar(n), '.', '0', '0']
  {
    assert Cents(n as real) == 100 * n;
    assert NatText(n) == [DigitChar(n)];
    assert TwoDigits(100 * n) == ['0', '0'];
  }

  /** The value `f"{v:.2f}"` denotes: v rounded to hundredths. */
  function Round2(v: real): (r: real)
    ensures -0.005 <= r - v <= 0.005
  {
    var x := if v < 0.0 then -v else v;
    var m := Cents(x) as real / 100.0;
    if v < 0.0 then -m else m
  }

  /** `Round2` gives a whole number of hundredths. */
  lemma Round2WholeCents(v: real)
    ensures IsIntegral(Round2(v) * 100.0)
  {
    var c := Cents(if v < 0.0 then -v else v);
    var k: int := if v < 0.0 then -(c as int) else c;
    assert Round2(v) == k as real / 100.0;
    WholeCents(k);
  }

  lemma WholeCents(k: int)
    ensures (k as real / 100.0) * 100.0 == k as real
    ensures IsIntegral(k as real)
  {
  }

  /** Reading back a two-decimal rendering gives the rounded value. */
  lemma Fixed2RoundTrip(v: real)
    ensures ParseFloat(Fixed2(v)) == Some(Round2(v))
  {
    if v < 0.0 {
      NegativeRoundTrip(v);
    } else {
      var c := Cents(v);
      assert Fixed2(v) == CentsText(c) && Round2(v) == c as real / 100.0;
      CentsParse(c);
    }
  }

  lemma NegativeRoundTrip(v: real)
    requires v < 0.0
    ensures ParseFloat(Fixed2(v)) == Some(Round2(v))
  {
    var c := Cents(-v);
    var b := CentsText(c);
    assert Fixed2(v) == "-" + b && Round2(v) == -(c as real / 100.0);
    CentsParse(c);
    NegatedParse(b);
  }

  /** The unsigned text of a number of hundredths reads back as that number over 100. */
  lemma CentsParse(c: nat)
    ensures ParseFloat(CentsText(c)) == Some(c as real / 100.0)
  {
    var whole, frac := NatText(c / 100), TwoDigits(c);
    DecimalParses(whole, frac);
    assert Pow10(2) == 100;
    CentsSum(c);
  }

  lemma CentsSum(c: nat)
    ensures (c / 100) as real + (c % 100) as real / 100.0 == c as real / 100.0
  {
    assert c == (c / 100) * 100 + c % 100;
  }

  /** A leading '-' negates the value of an unsigned number. */
  lemma NegatedParse(body: string)
    requires |body| > 0 && IsDigit(body[0])
    ensures ParseFloat(body).Some? ==> ParseFloat("-" + body) == Some(-ParseFloat(body).value)
  {
    assert ("-" + body)[1..] == body;
  }

  /** Reading back `str(i)` gives i. */
  lemma IntTextRoundTrip(i: int)
    ensures ParseFloat(IntText(i)) == Some(i as real)
  {
    if i < 0 {
      DigitsParse(NatText(-i));
      NegatedParse(NatText(-i));
    } else {
      DigitsParse(NatText(i));
    }
  }
}
