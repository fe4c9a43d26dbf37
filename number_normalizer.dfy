/**
 * `clean_number` of the matrix import: the first run of digits separated by
 * single '.' or ',' (the regular expression `[0-9]+(?:[.,][0-9]+)*`), its
 * separators rewritten by the German/English heuristic, then `float()`,
 * with 0.0 for blank input, input without a digit, and a rewritten run that
 * does not parse.
 */
module NumberNormalizer {
  import opened Wrappers
  import opened Text
  import opened Numbers

  predicate IsSep(c: char) {
    c == '.' || c == ','
  }

  predicate NoDigit(s: string) {
    forall i :: 0 <= i < |s| ==> !IsDigit(s[i])
  }

  /** The strings the regular expression matches: digit groups joined by single separators. */
  predicate NumberShape(r: string) {
    |r| > 0 && IsDigit(r[0]) && IsDigit(r[|r| - 1])
    && (forall i :: 0 <= i < |r| ==> IsDigit(r[i]) || IsSep(r[i]))
    && (forall i :: 0 <= i < |r| - 1 && IsSep(r[i]) ==> IsDigit(r[i + 1]))
  }

  /** What may follow a match: the greedy repetition cannot take another separator-and-digit group. */
  predicate Blocks(post: string) {
    |post| == 0 || (!IsDigit(post[0]) && !(IsSep(post[0]) && |post| > 1 && IsDigit(post[1])))
  }

  /** The length of the longest digit prefix. */
  function DigitPrefix(s: string): (n: nat)
    ensures n <= |s| && AllDigits(s[..n])
    ensures n < |s| ==> !IsDigit(s[n])
  {
    if |s| > 0 && IsDigit(s[0]) then
      var n := 1 + DigitPrefix(s[1..]);
      assert forall i :: 1 <= i < n ==> s[..n][i] == s[1..][..n - 1][i - 1];
      n
    else 0
  }

  /** The length of the greedy match starting at a digit. */
  function RunLen(s: string): (n: nat)
    requires |s| > 0 && IsDigit(s[0])
    ensures 0 < n <= |s|
    decreases |s|
  {
    var d := DigitPrefix(s);
    if d + 1 < |s| && IsSep(s[d]) && IsDigit(s[d + 1]) then d + 1 + RunLen(s[d + 1..]) else d
  }

  /** The greedy match has the number shape and nothing that may follow it extends it. */
  lemma {:induction false} RunLenShape(s: string)
    requires |s| > 0 && IsDigit(s[0])
    ensures NumberShape(s[..RunLen(s)]) && Blocks(s[RunLen(s)..])
    decreases |s|
  {
    var d := DigitPrefix(s);
    var n := RunLen(s);
    if d + 1 < |s| && IsSep(s[d]) && IsDigit(s[d + 1]) {
      var tail := s[d + 1..];
      RunLenShape(tail);
      var m := RunLen(tail);
      assert n == d + 1 + m;
      ShapeExtend(s, d, m);
      assert s[n..] == tail[m..];
    } else {
      assert forall i :: 0 <= i < d ==> s[..d][i] == s[i];
    }
  }

  /** Digits, a separator, then a number shape: a longer number shape. */
  lemma ShapeExtend(s: string, d: nat, m: nat)
    requires 0 < d && d + 1 + m <= |s| && AllDigits(s[..d]) && IsSep(s[d]) && NumberShape(s[d + 1..][..m])
    ensures NumberShape(s[..d + 1 + m])
  {
    var n, r, tail := d + 1 + m, s[..d + 1 + m], s[d + 1..];
    assert forall i :: 0 <= i < d ==> r[i] == s[..d][i];
    assert forall i :: d < i < n ==> r[i] == tail[..m][i - d - 1];
    assert r[n - 1] == tail[..m][m - 1];
  }

  /** The position of the first digit, if any. */
  function FirstDigit(s: string): (r: Option<nat>)
    ensures r.None? <==> NoDigit(s)
    ensures r.Some? ==> r.value < |s| && IsDigit(s[r.value]) && NoDigit(s[..r.value])
  {
    if |s| == 0 then None
    else if IsDigit(s[0]) then Some(0)
    else match FirstDigit(s[1..])
      case None => None
      case Some(i) =>
        assert s[..i + 1] == [s[0]] + s[1..][..i];
        Some(i + 1)
  }

  /** `re.search(r'[0-9]+(?:[.,][0-9]+)*', s).group(0)`, `None` when nothing matches. */
  function Match(s: string): (r: Option<string>)
    ensures r.None? <==> NoDigit(s)
    ensures r.Some? ==> NumberShape(r.value) && FirstDigit(s).Some?
    ensures r.Some? ==>
      var k := FirstDigit(s).value;
      k + |r.value| <= |s| && s[k..k + |r.value|] == r.value && NoDigit(s[..k]) && Blocks(s[k + |r.value|..])
  {
    match FirstDigit(s)
    case None => None
    case Some(i) =>
      var n := RunLen(s[i..]);
      RunLenShape(s[i..]);
      assert s[i..][..n] == s[i..i + n] && s[i..][n..] == s[i + n..];
      Some(s[i..i + n])
  }

  /** A match is the unique leftmost greedy match: text without digits, a number shape, then a blocking rest. */
  lemma {:induction false} RunLenOf(r: string, post: string)
    requires NumberShape(r) && Blocks(post)
    ensures RunLen(r + post) == |r|
    decreases |r|
  {
    var s := r + post;
    var d := DigitPrefix(s);
    DigitPrefixOf(r, post);
    var d' := DigitPrefix(r);
    assert d == d';
    if d < |r| {
      assert IsSep(r[d]) && IsDigit(r[d + 1]);
      var tail := r[d + 1..];
      assert NumberShape(tail) by {
        forall i | 0 <= i < |tail| ensures IsDigit(tail[i]) || IsSep(tail[i]) {
          assert tail[i] == r[d + 1 + i];
        }
        forall i | 0 <= i < |tail| - 1 && IsSep(tail[i]) ensures IsDigit(tail[i + 1]) {
          assert tail[i] == r[d + 1 + i];
        }
      }
      RunLenOf(tail, post);
      assert s[d + 1..] == tail + post;
    }
  }

  lemma {:induction false} DigitPrefixOf(r: string, post: string)
    requires NumberShape(r) && Blocks(post)
    ensures DigitPrefix(r + post) == DigitPrefix(r)
    ensures DigitPrefix(r) < |r| ==> IsSep(r[DigitPrefix(r)]) && DigitPrefix(r) + 1 < |r|
    decreases |r|
  {
    if |r| > 1 && IsDigit(r[1]) {
      assert NumberShape(r[1..]);
      DigitPrefixOf(r[1..], post);
      assert (r + post)[1..] == r[1..] + post;
    } else if |r| > 1 {
      assert (r + post)[1] == r[1];
    } else {
      assert (r + post)[1..] == post;
    }
  }

  lemma {:induction false} FirstDigitOf(pre: string, rest: string)
    requires NoDigit(pre) && |rest| > 0 && IsDigit(rest[0])
    ensures FirstDigit(pre + rest) == Some(|pre|)
  {
    if |pre| > 0 {
      FirstDigitOf(pre[1..], rest);
      assert (pre + rest)[1..] == pre[1..] + rest;
    }
  }

  /** The match in a text with no digit before a number shape and a blocking rest is that number. */
  lemma MatchOf(pre: string, run: string, post: string)
    requires NoDigit(pre) && NumberShape(run) && Blocks(post)
    ensures Match(pre + run + post) == Some(run)
  {
    var s := pre + run + post;
    FirstDigitOf(pre, run + post);
    assert s == pre + (run + post);
    assert s[|pre|..] == run + post;
    RunLenOf(run, post);
    assert s[|pre|..|pre| + |run|] == run;
  }

  // ---------------------------------------------------------------- the separator heuristic

  /** Every group after the first has three digits: the dots are thousands separators. */
  predicate ThousandsGroups(parts: seq<string>) {
    forall j :: 1 <= j < |parts| ==> |parts[j]| == 3
  }

  /**
   * The rewriting of a match before `float()`: no comma survives it, and a
   * run without separators is left as it is. What each separator pattern
   * becomes is stated by the lemmas at the end of this module.
   */
  function Normalize(run: string): (r: string)
    ensures ',' !in r
    ensures ',' !in run && '.' !in run ==> r == run
  {
    if ',' in run && '.' in run then NoCommaLeft(RemoveChar(run, '.')); ReplaceChar(RemoveChar(run, '.'), ',', '.')
    else if ',' in run then NoCommaLeft(run); ReplaceChar(run, ',', '.')
    else if '.' in run then
      var parts := Split(run, '.');
      if |parts| > 1 && ThousandsGroups(parts) then RemoveCharKeeps(run, '.'); RemoveChar(run, '.') else run
    else run
  }

  lemma NoCommaLeft(s: string)
    ensures ',' !in ReplaceChar(s, ',', '.')
  {
  }

  /** The value `clean_number` returns. */
  function CleanNumberValue(valStr: string): (v: real)
    ensures NoDigit(valStr) ==> v == 0.0
  {
    var s := Strip(valStr);
    NoDigitStrip(valStr);
    if |s| == 0 then 0.0
    else match Match(s)
      case None => 0.0
      case Some(run) => ParseFloat(Normalize(run)).GetOr(0.0)
  }

  lemma NoDigitStrip(s: string)
    ensures NoDigit(s) ==> NoDigit(Strip(s))
  {
    var l := LStrip(s);
    var r := RStrip(l);
    LStripShape(s);
    RStripShape(l);
    assert Strip(s) == r;
    assert r == l[..|r|] && l == s[|s| - |l|..];
    if NoDigit(s) {
      forall i | 0 <= i < |r| ensures !IsDigit(r[i]) {
        assert r[i] == s[|s| - |l| + i];
      }
    }
  }

  /** The `is_thousands` scan: every group after the first has length 3, stopping at the first that has not. */
  method AllGroupsOfThree(parts: seq<string>) returns (isThousands: bool)
    ensures isThousands == ThousandsGroups(parts)
  {
    isThousands := true;
    var k := 1;
    while k < |parts|
      invariant 1 <= k || |parts| == 0
      invariant forall j :: 1 <= j < k && j < |parts| ==> |parts[j]| == 3
    {
      if |parts[k]| != 3 {
        isThousands := false;
        break;
      }
      k := k + 1;
    }
  }

  /** `clean_number`, step by step as the source rewrites `num_str`. */
  method CleanNumber(valStr: string) returns (v: real)
    ensures v == CleanNumberValue(valStr)
  {
    var s := Strip(valStr);
    if |s| == 0 {
      return 0.0;
    }
    var m := Match(s);
    if m.None? {
      return 0.0;
    }
    var numStr := m.value;
    if ',' in numStr && '.' in numStr {
      numStr := ReplaceChar(RemoveChar(numStr, '.'), ',', '.');
    } else if ',' in numStr {
      numStr := ReplaceChar(numStr, ',', '.');
    } else if '.' in numStr {
      var parts := Split(numStr, '.');
      if |parts| > 1 {
        var isThousands := AllGroupsOfThree(parts);
        if isThousands {
          numStr := RemoveChar(numStr, '.');
        }
      }
    }
    assert numStr == Normalize(m.value);
    match ParseFloat(numStr)
    case Some(x) => return x;
    case None => return 0.0;
  }

  // ---------------------------------------------------------------- properties

  /**
   * `clean_number` of a text without surrounding whitespace is decided by
   * its first match alone: the text before it (signs, currency symbols) and
   * after it (units, a trailing separator) is dropped.
   */
  lemma CleanNumberOf(pre: string, run: string, post: string)
    requires NoDigit(pre) && NumberShape(run) && Blocks(post)
    requires (|pre| == 0 || !IsSpace(pre[0])) && (|post| == 0 || !IsSpace(post[|post| - 1]))
    ensures CleanNumberValue(pre + run + post) == ParseFloat(Normalize(run)).GetOr(0.0)
  {
    var s := pre + run + post;
    assert s[0] == if |pre| == 0 then run[0] else pre[0];
    assert s[|s| - 1] == if |post| == 0 then run[|run| - 1] else post[|post| - 1];
    StripIdentity(s);
    MatchOf(pre, run, post);
    CleanNumberOfMatch(s, run);
  }

  lemma StripIdentity(s: string)
    requires |s| > 0 && !IsSpace(s[0]) && !IsSpace(s[|s| - 1])
    ensures Strip(s) == s
  {
    StripShape(s);
  }

  lemma CleanNumberOfMatch(s: string, run: string)
    requires |s| > 0 && Strip(s) == s && Match(s) == Some(run)
    ensures CleanNumberValue(s) == ParseFloat(Normalize(run)).GetOr(0.0)
  {
  }

  lemma {:induction false} RemoveCharAppend(a: string, b: string, c: char)
    ensures RemoveChar(a + b, c) == RemoveChar(a, c) + RemoveChar(b, c)
  {
    if |a| > 0 {
      RemoveCharAppend(a[1..], b, c);
      assert (a + b)[1..] == a[1..] + b;
    } else {
      assert a + b == b;
    }
  }

  lemma {:induction false} RemoveCharAbsent(s: string, c: char)
    requires c !in s
    ensures RemoveChar(s, c) == s
  {
    if |s| > 0 {
      RemoveCharAbsent(s[1..], c);
      assert s == [s[0]] + s[1..];
    }
  }

  lemma RemoveDotsLeavesDigits(s: string)
    requires AllDigitsOrDots(s)
    ensures AllDigits(RemoveChar(s, '.'))
  {
    var r := RemoveChar(s, '.');
    RemoveCharKeeps(s, '.');
    forall i | 0 <= i < |r| ensures IsDigit(r[i]) {
      assert r[i] in r;
      var j :| 0 <= j < |s| && s[j] == r[i];
    }
  }

  lemma ReplaceCharAppend(a: string, b: string, c: char, d: char)
    ensures ReplaceChar(a + b, c, d) == ReplaceChar(a, c, d) + ReplaceChar(b, c, d)
  {
    var r := ReplaceChar(a + b, c, d);
    var ra, rb := ReplaceChar(a, c, d), ReplaceChar(b, c, d);
    forall i | 0 <= i < |a + b| ensures r[i] == (ra + rb)[i] {
      if i < |a| {
        assert (a + b)[i] == a[i];
      } else {
        assert (a + b)[i] == b[i - |a|];
      }
    }
  }

  lemma {:induction false} ReplaceCharAbsent(s: string, c: char, d: char)
    requires c !in s
    ensures ReplaceChar(s, c, d) == s
  {
    if |s| > 0 {
      ReplaceCharAbsent(s[1..], c, d);
      assert s == [s[0]] + s[1..];
    }
  }

  /** Replacing the one separator between two separator-free texts. */
  lemma ReplaceOne(a: string, b: string, c: char, d: char)
    requires c !in a && c !in b
    ensures ReplaceChar(a + [c] + b, c, d) == a + [d] + b
  {
    ReplaceCharAppend(a + [c], b, c, d);
    ReplaceCharAppend(a, [c], c, d);
    ReplaceCharAbsent(a, c, d);
    ReplaceCharAbsent(b, c, d);
  }

  /** The digits of a run with its dots removed. */
  function Undotted(s: string): (r: string)
    requires AllDigitsOrDots(s)
    ensures AllDigits(r) && r == RemoveChar(s, '.')
  {
    RemoveDotsLeavesDigits(s);
    RemoveChar(s, '.')
  }

  /**
   * A single comma is the decimal point, and any dots before it are
   * thousands separators: `"31,27"` is 31.27 and `"1.234,56"` is 1234.56.
   */
  lemma CommaIsDecimalPoint(a: string, b: string)
    requires AllDigitsOrDots(a) && AllDigits(b) && |Undotted(a)| > 0
    ensures ParseFloat(Normalize(a + "," + b)).Some?
    ensures ParseFloat(Normalize(a + "," + b)).value
      == DigitsValue(Undotted(a)) as real + DigitsValue(b) as real / Pow10(|b|) as real
  {
    DigitsHaveNoSeparator(b);
    RemoveCharAbsent(b, '.');
    if '.' in a + b {
      BothSeparators(a, b);
    } else {
      RemoveCharAbsent(a, '.');
      var s := a + "," + b;
      assert s == a + [','] + b;
      assert ',' in s && '.' !in s;
      ReplaceOne(a, b, ',', '.');
      assert Normalize(s) == a + "." + b;
      DecimalParses(a, b);
    }
  }

  /**
   * Two or more commas make the rewritten text unparseable, with or without
   * dots among them: every comma becomes a dot. The value is 0.0.
   */
  lemma ManyCommasFail(run: string)
    requires Count(run, ',') >= 2
    requires forall i :: 0 <= i < |run| ==> IsDigit(run[i]) || run[i] == ',' || run[i] == '.'
    ensures ParseFloat(Normalize(run)) == None
  {
    assert ',' in run;
    var commas := RemoveChar(run, '.');
    RemoveCharKeeps(run, '.');
    RemoveCount(run, '.', ',');
    if '.' !in run {
      RemoveCharAbsent(run, '.');
    }
    assert Normalize(run) == ReplaceChar(commas, ',', '.');
    forall i | 0 <= i < |commas| ensures IsDigit(commas[i]) || commas[i] == ',' {
      assert commas[i] in commas;
      var j :| 0 <= j < |run| && run[j] == commas[i];
    }
    var r := ReplaceChar(commas, ',', '.');
    ReplaceCount(commas, ',', '.');
    TwoDotsFail(r);
  }

  lemma {:induction false} RemoveCount(s: string, c: char, d: char)
    requires c != d
    ensures Count(RemoveChar(s, c), d) == Count(s, d)
  {
    if |s| > 0 {
      RemoveCount(s[1..], c, d);
      CountAppend(if s[0] == c then [] else [s[0]], RemoveChar(s[1..], c), d);
    }
  }

  /**
   * With a comma and a dot in the run, every dot is dropped and the commas
   * become the decimal point, whichever comes first: `"1.234,56"` is
   * 1234.56 (German format), and `"1,234.56"` is 1.23456 (English format).
   */
  lemma BothSeparators(a: string, b: string)
    requires AllDigitsOrDots(a) && AllDigitsOrDots(b) && '.' in a + b
    ensures Normalize(a + "," + b) == Undotted(a) + "." + Undotted(b)
    ensures ParseFloat(Normalize(a + "," + b)) ==
      if |Undotted(a) + Undotted(b)| > 0
      then Some(DigitsValue(Undotted(a)) as real + DigitsValue(Undotted(b)) as real / Pow10(|Undotted(b)|) as real)
      else None
  {
    NormalizeBoth(a, b);
    DecimalParsesAny(Undotted(a), Undotted(b));
  }

  lemma NormalizeBoth(a: string, b: string)
    requires AllDigitsOrDots(a) && AllDigitsOrDots(b) && '.' in a + b
    ensures Normalize(a + "," + b) == Undotted(a) + "." + Undotted(b)
  {
    var a', b' := Undotted(a), Undotted(b);
    var s := a + "," + b;
    assert ',' !in a && ',' !in b;
    assert s == a + [','] + b;
    assert ',' in s;
    assert '.' in s by {
      var x :| x in a + b && x == '.';
      if x in a { assert x in a + [','] + b; } else { assert x in a + [','] + b; }
    }
    RemoveCommaSplit(a, b);
    DigitsHaveNoSeparator(a');
    DigitsHaveNoSeparator(b');
    ReplaceOne(a', b', ',', '.');
  }

  lemma RemoveCommaSplit(a: string, b: string)
    ensures RemoveChar(a + "," + b, '.') == RemoveChar(a, '.') + "," + RemoveChar(b, '.')
  {
    assert a + "," + b == a + [','] + b;
    RemoveCharAppend(a + [','], b, '.');
    RemoveCharAppend(a, [','], '.');
    assert RemoveChar([','], '.') == [','];
  }

  lemma {:induction false} ReplaceCount(s: string, c: char, d: char)
    requires d !in s && c != d
    ensures Count(ReplaceChar(s, c, d), d) == Count(s, c)
  {
    if |s| > 0 {
      ReplaceCount(s[1..], c, d);
      assert ReplaceChar(s, c, d)[1..] == ReplaceChar(s[1..], c, d);
    }
  }

  /** Dots followed by groups of exactly three digits are thousands separators: `"10.500.000"` is 10500000. */
  lemma DotThousands(run: string)
    requires NumberShape(run) && ',' !in run && '.' in run && ThousandsGroups(Split(run, '.'))
    ensures AllDigitsOrDots(run) && ParseFloat(Normalize(run)) == Some(DigitsValue(Undotted(run)) as real)
  {
    var parts := Split(run, '.');
    JoinSplit(run, '.');
    assert |parts| > 1;
    assert AllDigitsOrDots(run);
    RemoveDotsLeavesDigits(run);
    var r := RemoveChar(run, '.');
    RemoveCharKeeps(run, '.');
    assert run[0] in r;
    DigitsParse(r);
  }

  /** A single dot not followed by exactly three digits is the decimal point: `"1.5"` is 1.5. */
  lemma DotDecimal(a: string, b: string)
    requires |a| > 0 && AllDigits(a) && AllDigits(b) && |b| != 3
    ensures ParseFloat(Normalize(a + "." + b)).Some?
    ensures ParseFloat(Normalize(a + "." + b)).value == DigitsValue(a) as real + DigitsValue(b) as real / Pow10(|b|) as real
  {
    var s := a + "." + b;
    SplitDecimal(a, b);
    DigitsHaveNoSeparator(a);
    DigitsHaveNoSeparator(b);
    assert s == a + ['.'] + b;
    NoCommaInDecimal(a, b);
    var parts := Split(s, '.');
    assert parts[1] == b;
    assert !ThousandsGroups(parts);
    assert Normalize(s) == s;
    DecimalParses(a, b);
  }

  lemma NoCommaInDecimal(a: string, b: string)
    requires ',' !in a && ',' !in b
    ensures ',' !in a + "." + b && '.' in a + "." + b
  {
    assert (a + "." + b)[|a|] == '.';
  }

  /** Two or more dots that are not all thousands separators leave the run unparseable: the value is 0.0. */
  lemma ManyDotsFail(run: string)
    requires AllDigitsOrDots(run) && Count(run, '.') >= 2 && !ThousandsGroups(Split(run, '.'))
    ensures ParseFloat(Normalize(run)) == None
  {
    assert ',' !in run;
    assert '.' in run;
    assert Normalize(run) == run;
    TwoDotsFail(run);
  }

  /** A run of digits alone is read as the integer it spells. */
  lemma DigitsOnly(run: string)
    requires |run| > 0 && AllDigits(run)
    ensures ParseFloat(Normalize(run)) == Some(DigitsValue(run) as real)
  {
    DigitsHaveNoSeparator(run);
    DigitsParse(run);
  }
}
