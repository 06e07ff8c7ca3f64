/**
 * Decimal text for integers: Python's `str(n)`, `"%2d" % n` and `int(s)` on
 * text, as the tools use them to number targets, render counters and bump
 * version numbers.
 */
module Decimal {
  import opened Wrappers
  import opened Strings

  predicate IsDigit(c: char) {
    '0' <= c <= '9'
  }

  predicate AllDigits(s: string) {
    forall i :: 0 <= i < |s| ==> IsDigit(s[i])
  }

  function DigitChar(d: nat): (c: char)
    requires d < 10
    ensures IsDigit(c) && c as int - '0' as int == d
  {
    ('0' as int + d) as char
  }

  /** Python's `str(n)` for `n >= 0`: decimal digits without leading zeros. */
  function NatToString(n: nat): (s: string)
    ensures |s| >= 1
    ensures s[0] != '0' || n == 0
  {
    if n < 10 then [DigitChar(n)] else NatToString(n / 10) + [DigitChar(n % 10)]
  }

  /** The value of a string of decimal digits. */
  function DigitsValue(s: string): nat
    requires AllDigits(s)
  {
    if s == [] then 0 else DigitsValue(s[..|s| - 1]) * 10 + (s[|s| - 1] as int - '0' as int)
  }

  /** Reading back what `NatToString` wrote gives the number again. */
  lemma {:induction false} DigitsValueOfNatToString(n: nat)
    ensures AllDigits(NatToString(n)) && DigitsValue(NatToString(n)) == n
  {
    if n >= 10 {
      var s := NatToString(n);
      assert s[..|s| - 1] == NatToString(n / 10);
      DigitsValueOfNatToString(n / 10);
    }
  }

  /** Different numbers have different decimal text. */
  lemma NatToStringInjective(m: nat, n: nat)
    requires NatToString(m) == NatToString(n)
    ensures m == n
  {
    DigitsValueOfNatToString(m);
    DigitsValueOfNatToString(n);
  }

  /** Python's `str(i)` for any integer. */
  function IntToString(i: int): (s: string)
    ensures |s| >= 1
  {
    if i < 0 then "-" + NatToString(-i) else NatToString(i)
  }

  /**
   * The digit part of a base-10 literal as `int()` reads it: ASCII digits,
   * optionally grouped by single underscores that stand between two digits.
   * Read from the end: a digit, preceded by nothing, by a numeral, or by a
   * numeral and one underscore.
   */
  predicate IsNumeral(s: string)
    decreases |s|
  {
    |s| >= 1 && IsDigit(s[|s| - 1]) &&
    (|s| == 1 ||
     if s[|s| - 2] == '_' then |s| >= 3 && IsNumeral(s[..|s| - 2]) else IsNumeral(s[..|s| - 1]))
  }

  /** The value of a numeral: the value of its digits, underscores ignored. */
  function NumeralValue(s: string): nat
    requires IsNumeral(s)
    decreases |s|
  {
    var d := s[|s| - 1] as int - '0' as int;
    if |s| == 1 then d
    else if s[|s| - 2] == '_' then NumeralValue(s[..|s| - 2]) * 10 + d
    else NumeralValue(s[..|s| - 1]) * 10 + d
  }

  /**
   * Python's `int(s)` on text: whitespace around the number, an optional
   * sign, then a numeral; anything else raises ValueError (here `None`).
   */
  function ParseInt(s: string): (r: Option<int>)
    ensures Strip(s) == [] ==> r.None?
    ensures r.Some? && r.value < 0 ==> Strip(s)[0] == '-'
  {
    ParseStripped(Strip(s))
  }

  /** `int` on text with no whitespace at either end. */
  function ParseStripped(t: string): Option<int> {
    if |t| >= 2 && (t[0] == '-' || t[0] == '+') && IsNumeral(t[1..]) then
      var v: int := NumeralValue(t[1..]);
      Some(if t[0] == '-' then -v else v)
    else if IsNumeral(t) then Some(NumeralValue(t))
    else None
  }

  /** Digits alone form a numeral whose value is their value. */
  lemma {:induction false} NumeralOfDigits(d: string)
    requires |d| >= 1 && AllDigits(d)
    ensures IsNumeral(d) && NumeralValue(d) == DigitsValue(d)
  {
    if |d| > 1 {
      NumeralOfDigits(d[..|d| - 1]);
    }
  }

  /** A digit after a numeral extends it by one place. */
  lemma NumeralSnoc(s: string, x: char)
    requires IsNumeral(s) && IsDigit(x)
    ensures IsNumeral(s + [x])
    ensures NumeralValue(s + [x]) == NumeralValue(s) * 10 + (x as int - '0' as int)
  {
    var t := s + [x];
    assert t[..|t| - 1] == s;
    assert t[|t| - 2] == s[|s| - 1] != '_';
  }

  /** An underscore and a digit after a numeral extend it by one place as well. */
  lemma NumeralSnocGrouped(s: string, x: char)
    requires IsNumeral(s) && IsDigit(x)
    ensures IsNumeral(s + ['_', x])
    ensures NumeralValue(s + ['_', x]) == NumeralValue(s) * 10 + (x as int - '0' as int)
  {
    var t := s + ['_', x];
    assert t[..|t| - 2] == s;
  }

  /** Joining two numerals with or without an underscore gives numerals of the same value. */
  lemma {:induction false} NumeralJoin(a: string, b: string)
    requires IsNumeral(a) && IsNumeral(b)
    ensures IsNumeral(a + "_" + b) && IsNumeral(a + b)
    ensures NumeralValue(a + "_" + b) == NumeralValue(a + b)
    decreases |b|
  {
    var x := b[|b| - 1];
    if |b| == 1 {
      assert a + "_" + b == a + ['_', x];
      assert a + b == a + [x];
      NumeralSnocGrouped(a, x);
      NumeralSnoc(a, x);
    } else if b[|b| - 2] == '_' {
      var b' := b[..|b| - 2];
      assert b == b' + ['_', x];
      NumeralJoin(a, b');
      assert a + "_" + b == (a + "_" + b') + ['_', x];
      assert a + b == (a + b') + ['_', x];
      NumeralSnocGrouped(a + "_" + b', x);
      NumeralSnocGrouped(a + b', x);
    } else {
      var b' := b[..|b| - 1];
      assert b == b' + [x];
      NumeralJoin(a, b');
      assert a + "_" + b == (a + "_" + b') + [x];
      assert a + b == (a + b') + [x];
      NumeralSnoc(a + "_" + b', x);
      NumeralSnoc(a + b', x);
    }
  }

  /** A numeral with nothing around it parses to its value. */
  lemma ParseIntOfNumeral(s: string)
    requires IsNumeral(s)
    ensures ParseInt(s) == Some(NumeralValue(s))
  {
    NumeralFirst(s);
    StripUnchanged(s);
    assert ParseStripped(s) == Some(NumeralValue(s));
  }

  /**
   * An underscore between two digit groups is accepted and does not change
   * the value: `int("1_000")` is `int("1000")`.
   */
  lemma ParseIntUnderscore(a: string, b: string)
    requires IsNumeral(a) && IsNumeral(b)
    ensures IsNumeral(a + b)
    ensures ParseInt(a + "_" + b) == ParseInt(a + b) == Some(NumeralValue(a + b))
  {
    NumeralJoin(a, b);
    ParseIntOfNumeral(a + "_" + b);
    ParseIntOfNumeral(a + b);
  }

  /** A numeral starts with a digit. */
  lemma {:induction false} NumeralFirst(s: string)
    requires IsNumeral(s)
    ensures IsDigit(s[0])
    decreases |s|
  {
    if |s| > 1 {
      if s[|s| - 2] == '_' {
        NumeralFirst(s[..|s| - 2]);
      } else {
        NumeralFirst(s[..|s| - 1]);
      }
    }
  }

  /** `int("1_0")` is 10. */
  lemma ParseIntGrouped()
    ensures ParseInt("1_0") == Some(10)
  {
    NumeralSnocGrouped("1", '0');
    assert "1" + ['_', '0'] == "1_0";
    ParseIntOfNumeral("1_0");
  }

  /** Decimal text of a natural number parses back to that number. */
  lemma ParseIntOfNatToString(n: nat)
    ensures ParseInt(NatToString(n)) == Some(n)
  {
    var s := NatToString(n);
    DigitsValueOfNatToString(n);
    NumeralOfDigits(s);
    ParseIntOfNumeral(s);
  }

  /** Decimal text of any integer, sign included, parses back to that integer. */
  lemma ParseIntOfIntToString(i: int)
    ensures ParseInt(IntToString(i)) == Some(i)
  {
    if i >= 0 {
      ParseIntOfNatToString(i);
    } else {
      var d := NatToString(-i);
      DigitsValueOfNatToString(-i);
      ParseIntOfNegative(d);
      assert IntToString(i) == "-" + d;
    }
  }

  /** A minus sign before decimal digits negates their value. */
  lemma ParseIntOfNegative(d: string)
    requires |d| >= 1 && AllDigits(d)
    ensures ParseInt("-" + d) == Some(-(DigitsValue(d) as int))
  {
    var s := "-" + d;
    assert IsDigit(s[|s| - 1]);
    StripUnchanged(s);
    ParseStrippedNegative(d);
  }

  lemma ParseStrippedNegative(d: string)
    requires |d| >= 1 && AllDigits(d)
    ensures ParseStripped("-" + d) == Some(-(DigitsValue(d) as int))
  {
    assert ("-" + d)[1..] == d;
    NumeralOfDigits(d);
  }

  /** Python's `"%2d" % n` for `n >= 0`: right-aligned in a field of width two. */
  function Pad2(n: nat): string {
    var d := NatToString(n);
    if |d| < 2 then [' '] + d else d
  }

  /**
   * The padded index is two characters wide for one- and two-digit numbers,
   * and `int()` of it gives the number back.
   */
  lemma {:induction false} Pad2Properties(n: nat)
    ensures n < 100 ==> |Pad2(n)| == 2
    ensures ParseInt(Pad2(n)) == Some(n)
  {
    var d := NatToString(n);
    ParseIntOfNatToString(n);
    if n >= 10 {
      var q := NatToString(n / 10);
      assert |q| >= 1;
      if n < 100 {
        assert |q| == 1;
      }
    } else {
      var p := Pad2(n);
      assert p == [' '] + d;
      assert IsSpace(p[0]) && !IsSpace(p[1]);
      assert StripLeft(p) == d;
      assert Strip(p) == Strip(d);
    }
  }
}
