/**
 * The numerals of the radio frame: the part of Python's int() and float()
 * that a fixed-width ASCII field can hold, and the zero-padded fixed-width
 * renderings the outdoor unit writes into the frame.
 *
 * int() accepts surrounding whitespace, an optional sign and one or more
 * decimal digits; float() accepts the same with at most one decimal point
 * and at least one digit. Everything else is a failure (None), which the
 * decoder turns into the field's fallback.
 */
module Numerals {
  import opened Wrappers

  predicate IsDigit(c: char) { '0' <= c <= '9' }

  predicate AllDigits(s: string) { forall i :: 0 <= i < |s| ==> IsDigit(s[i]) }

  /**
   * The whitespace int() and float() strip around a numeral: Python's
   * str.isspace() set without the four ASCII separators U+001C..U+001F, which
   * they keep (and then reject). That is tab to carriage return, space,
   * U+0085, U+00A0, U+1680, U+2000..U+200A, the line and paragraph
   * separators, U+202F, U+205F and U+3000.
   */
  predicate IsSpace(c: char)
  {
    '\t' <= c <= '\r' || c == ' ' || c == '\U{85}' || c == '\U{A0}' || c == '\U{1680}' ||
    '\U{2000}' <= c <= '\U{200A}' || c == '\U{2028}' || c == '\U{2029}' || c == '\U{202F}' ||
    c == '\U{205F}' || c == '\U{3000}'
  }

  function Pow10(n: nat): (p: nat)
    ensures p >= 1
  {
    if n == 0 then 1 else 10 * Pow10(n - 1)
  }

  function DigitValue(c: char): (d: nat)
    requires IsDigit(c)
    ensures d < 10
  {
    c as int - '0' as int
  }

  function DigitChar(d: nat): (c: char)
    requires d < 10
    ensures IsDigit(c) && DigitValue(c) == d
  {
    ('0' as int + d) as char
  }

  /** The value of a run of decimal digits, most significant first; `w` digits never reach 10^w. */
  function DigitsValue(s: string): (v: nat)
    requires AllDigits(s)
    ensures v < Pow10(|s|)
  {
    if s == [] then 0 else 10 * DigitsValue(s[..|s| - 1]) + DigitValue(s[|s| - 1])
  }

  /** `n` written with exactly `w` digits, zero-padded on the left. */
  function ZeroPad(n: nat, w: nat): (s: string)
    requires n < Pow10(w)
    ensures |s| == w && AllDigits(s)
  {
    if w == 0 then [] else ZeroPad(n / 10, w - 1) + [DigitChar(n % 10)]
  }

  /** `t` tenths written as `w` zero-padded whole digits, a point and one decimal (235 tenths, w = 2: "23.5"). */
  function FormatTenths(t: nat, w: nat): (s: string)
    requires t < 10 * Pow10(w)
    ensures |s| == w + 2 && s[w] == '.' && IsDigit(s[w + 1])
    ensures forall i :: 0 <= i < w ==> IsDigit(s[i])
  {
    ZeroPad(t / 10, w) + "." + [DigitChar(t % 10)]
  }

  /** The text after the leading whitespace: a suffix of s, everything before it whitespace, and not starting with whitespace. */
  function TrimLeft(s: string): (t: string)
  {
    if s != [] && IsSpace(s[0]) then TrimLeft(s[1..]) else s
  }

  /** The text before the trailing whitespace: a prefix of s, everything after it whitespace, and not ending with whitespace. */
  function TrimRight(s: string): (t: string)
  {
    if s != [] && IsSpace(s[|s| - 1]) then TrimRight(s[..|s| - 1]) else s
  }

  /** str.strip(): the text between the leading and the trailing whitespace. */
  function Trim(s: string): (t: string)
  {
    TrimRight(TrimLeft(s))
  }

  /** TrimLeft drops exactly the leading whitespace: what is left is a suffix that does not start with whitespace. */
  lemma {:induction false} TrimLeftStrips(s: string)
    ensures var t := TrimLeft(s);
      |t| <= |s| && t == s[|s| - |t|..] &&
      (forall i :: 0 <= i < |s| - |t| ==> IsSpace(s[i])) &&
      (t == [] || !IsSpace(t[0]))
  {
    if s != [] && IsSpace(s[0]) {
      var rest := s[1..];
      TrimLeftStrips(rest);
      var t := TrimLeft(rest);
      assert TrimLeft(s) == t;
      assert rest[|rest| - |t|..] == s[|s| - |t|..];
      forall i | 1 <= i < |s| - |t|
        ensures IsSpace(s[i])
      {
        assert s[i] == rest[i - 1];
      }
    }
  }

  /** TrimRight drops exactly the trailing whitespace: what is left is a prefix that does not end with whitespace. */
  lemma {:induction false} TrimRightStrips(s: string)
    ensures var t := TrimRight(s);
      |t| <= |s| && t == s[..|t|] &&
      (forall i :: |t| <= i < |s| ==> IsSpace(s[i])) &&
      (t == [] || !IsSpace(t[|t| - 1]))
  {
    if s != [] && IsSpace(s[|s| - 1]) {
      var rest := s[..|s| - 1];
      TrimRightStrips(rest);
      var t := TrimRight(rest);
      assert TrimRight(s) == t;
      assert rest[..|t|] == s[..|t|];
      forall i | |t| <= i < |s| - 1
        ensures IsSpace(s[i])
      {
        assert s[i] == rest[i];
      }
    }
  }

  /**
   * str.strip() as int() and float() apply it: the result is the run of s
   * starting at the first non-whitespace character, everything outside
   * that run is whitespace, and the run neither starts nor ends with it.
   */
  lemma TrimStrips(s: string)
    ensures var t, lo := Trim(s), |s| - |TrimLeft(s)|;
      0 <= lo && lo + |t| <= |s| && t == s[lo..lo + |t|] &&
      (forall i :: 0 <= i < |s| && !(lo <= i < lo + |t|) ==> IsSpace(s[i])) &&
      (t == [] || (!IsSpace(t[0]) && !IsSpace(t[|t| - 1])))
  {
    TrimPieces(s);
    RunBetweenSpaces(s, TrimLeft(s), Trim(s));
  }

  /** The facts about the two strips that RunBetweenSpaces combines. */
  lemma TrimPieces(s: string)
    ensures var l := TrimLeft(s);
      |l| <= |s| && l == s[|s| - |l|..] && (forall i :: 0 <= i < |s| - |l| ==> IsSpace(s[i])) &&
      (l == [] || !IsSpace(l[0]))
    ensures var l, t := TrimLeft(s), Trim(s);
      |t| <= |l| && t == l[..|t|] && (forall i :: |t| <= i < |l| ==> IsSpace(l[i])) &&
      (t == [] || !IsSpace(t[|t| - 1]))
  {
    TrimLeftStrips(s);
    TrimRightStrips(TrimLeft(s));
  }

  /**
   * A suffix l of s after whitespace, and a prefix t of l before whitespace,
   * leave t as a run of s with only whitespace around it.
   */
  lemma RunBetweenSpaces(s: string, l: string, t: string)
    requires |l| <= |s| && l == s[|s| - |l|..] && (forall i :: 0 <= i < |s| - |l| ==> IsSpace(s[i]))
    requires l == [] || !IsSpace(l[0])
    requires |t| <= |l| && t == l[..|t|] && (forall i :: |t| <= i < |l| ==> IsSpace(l[i]))
    requires t == [] || !IsSpace(t[|t| - 1])
    ensures var lo := |s| - |l|;
      lo + |t| <= |s| && t == s[lo..lo + |t|] &&
      (forall i :: 0 <= i < |s| && !(lo <= i < lo + |t|) ==> IsSpace(s[i])) &&
      (t == [] || (!IsSpace(t[0]) && !IsSpace(t[|t| - 1])))
  {
    var lo := |s| - |l|;
    if l != [] {
      assert t != [] && t[0] == l[0];
    }
    forall i | lo <= i < lo + |t|
      ensures s[i] == t[i - lo]
    {
      assert s[i] == l[i - lo];
    }
    forall i | lo + |t| <= i < |s|
      ensures IsSpace(s[i])
    {
      assert s[i] == l[i - lo];
    }
  }

  /** A leading '-' or '+' and the unsigned rest; the flag tells whether the sign was '-'. */
  function SplitSign(t: string): (bool, string)
  {
    if t != [] && (t[0] == '-' || t[0] == '+') then (t[0] == '-', t[1..]) else (false, t)
  }

  /** The first position of `c` in `s`, or |s| when `c` does not occur. */
  function IndexOf(s: string, c: char): (k: nat)
    ensures k <= |s|
    ensures k < |s| ==> s[k] == c
    ensures forall i :: 0 <= i < k ==> s[i] != c
  {
    if s == [] || s[0] == c then 0 else 1 + IndexOf(s[1..], c)
  }

  /** int() on a field of the frame. */
  function ParseInt(s: string): (r: Option<int>)
    ensures Trim(s) == [] ==> r == None
  {
    var (neg, body) := SplitSign(Trim(s));
    if body != [] && AllDigits(body) then
      var magnitude: int := DigitsValue(body);
      Some(if neg then -magnitude else magnitude)
    else
      None
  }

  /** The value of the digits after a decimal point: "25" is 0.25. */
  function FractionValue(frac: string): (v: real)
    requires AllDigits(frac)
    ensures 0.0 <= v < 1.0
  {
    if frac == [] then 0.0 else (DigitValue(frac[0]) as real + FractionValue(frac[1..])) / 10.0
  }

  /** An unsigned decimal: whole digits, then optionally a point and fraction digits, with at least one digit in all. */
  function ParseDecimal(body: string): (r: Option<real>)
    ensures r.Some? ==> 0.0 <= r.value
  {
    var k := IndexOf(body, '.');
    var whole := body[..k];
    var frac := if k < |body| then body[k + 1..] else [];
    if AllDigits(whole) && AllDigits(frac) && |whole| + |frac| > 0 then
      Some(DigitsValue(whole) as real + FractionValue(frac))
    else
      None
  }

  /** float() on a field of the frame. */
  function ParseFloat(s: string): (r: Option<real>)
    ensures Trim(s) == [] ==> r == None
  {
    var (neg, body) := SplitSign(Trim(s));
    match ParseDecimal(body)
    case None => None
    case Some(magnitude) => Some(if neg then -magnitude else magnitude)
  }

  /** float() fails on text whose last character is neither a digit, a point nor whitespace. */
  lemma TrailingLetterFails(s: string)
    requires s != [] && !IsDigit(s[|s| - 1]) && s[|s| - 1] != '.' && !IsSpace(s[|s| - 1])
    ensures ParseFloat(s) == None
  {
    TrimStrips(s);
    var t := Trim(s);
    var body := SplitSign(t).1;
    assert t != [] && t[|t| - 1] == s[|s| - 1];
    if body != [] {
      assert body[|body| - 1] == s[|s| - 1];
      var k := IndexOf(body, '.');
      if k < |body| {
        assert !AllDigits(body[k + 1..]) by {
          assert body[k + 1..][|body| - k - 2] == body[|body| - 1];
        }
      } else {
        assert !AllDigits(body[..k]) by {
          assert body[..k][|body| - 1] == body[|body| - 1];
        }
      }
    }
  }

  lemma {:induction false} ZeroPadValue(n: nat, w: nat)
    requires n < Pow10(w)
    ensures DigitsValue(ZeroPad(n, w)) == n
  {
    if w > 0 {
      var s := ZeroPad(n, w);
      ZeroPadValue(n / 10, w - 1);
      assert s[..|s| - 1] == ZeroPad(n / 10, w - 1);
    }
  }

  /** Stripping leaves a numeral alone when it neither starts nor ends with whitespace. */
  lemma TrimUnpadded(s: string)
    requires s != [] && !IsSpace(s[0]) && !IsSpace(s[|s| - 1])
    ensures Trim(s) == s
  {
  }

  /** A field made only of digits reads as their decimal value. */
  lemma ParseIntDigits(s: string)
    requires s != [] && AllDigits(s)
    ensures ParseInt(s) == Some(DigitsValue(s))
  {
    TrimUnpadded(s);
    assert SplitSign(s) == (false, s);
  }

  /** A zero-padded field of at least one digit reads back as the number written. */
  lemma ParseIntZeroPad(n: nat, w: nat)
    requires 0 < w && n < Pow10(w)
    ensures ParseInt(ZeroPad(n, w)) == Some(n)
  {
    ZeroPadValue(n, w);
    ParseIntDigits(ZeroPad(n, w));
  }

  /** A numeral that neither starts nor ends with whitespace and carries no sign of its own. */
  predicate Unsigned(f: string)
  {
    f != [] && !IsSpace(f[0]) && f[0] != '-' && f[0] != '+' && !IsSpace(f[|f| - 1])
  }

  /** A tenths field neither starts nor ends with whitespace and carries no sign of its own. */
  lemma TenthsUnpadded(t: nat, w: nat)
    requires t < 10 * Pow10(w)
    ensures Unsigned(FormatTenths(t, w))
  {
    var f := FormatTenths(t, w);
    if w == 0 {
      assert f[0] == '.';
    } else {
      assert IsDigit(f[0]);
    }
    assert IsDigit(f[|f| - 1]);
  }

  /** A count of tenths as the number it stands for: 235 tenths are 23.5. */
  function Tenths(t: int): real
  {
    t as real / 10.0
  }

  /** The value read from a tenths field with its sign removed. */
  lemma {:induction false} ParseDecimalTenths(t: nat, w: nat)
    requires t < 10 * Pow10(w)
    ensures ParseDecimal(FormatTenths(t, w)) == Some(Tenths(t))
  {
    var q, d := t / 10, t % 10;
    var whole, frac := ZeroPad(q, w), [DigitChar(d)];
    assert FormatTenths(t, w) == whole + "." + frac;
    ZeroPadValue(q, w);
    OneDigitFraction(d);
    DecimalOfParts(whole, frac);
    assert t == 10 * q + d;
  }

  /** A single fraction digit d stands for d tenths. */
  lemma {:induction false} OneDigitFraction(d: nat)
    requires d < 10
    ensures AllDigits([DigitChar(d)])
    ensures FractionValue([DigitChar(d)]) == d as real / 10.0
  {
    assert [DigitChar(d)][1..] == [];
  }

  /** The first point after a run of digits is the one that ends it. */
  lemma PointAfterDigits(whole: string, frac: string)
    requires AllDigits(whole)
    ensures IndexOf(whole + "." + frac, '.') == |whole|
  {
    var f := whole + "." + frac;
    assert f[|whole|] == '.';
    assert forall i :: 0 <= i < |whole| ==> f[i] == whole[i];
  }

  /** Whole digits, a point and fraction digits read as the whole number plus the fraction. */
  lemma DecimalOfParts(whole: string, frac: string)
    requires AllDigits(whole) && AllDigits(frac) && frac != []
    ensures ParseDecimal(whole + "." + frac) == Some(DigitsValue(whole) as real + FractionValue(frac))
  {
    PointAfterDigits(whole, frac);
    PointSplits(whole, frac);
    DecimalAtPoint(whole + "." + frac, whole, frac);
  }

  /** A text whose first point ends a run of digits and starts the fraction digits reads as those digits. */
  lemma DecimalAtPoint(f: string, whole: string, frac: string)
    requires AllDigits(whole) && AllDigits(frac) && frac != []
    requires IndexOf(f, '.') == |whole| < |f|
    requires f[..|whole|] == whole && f[|whole| + 1..] == frac
    ensures ParseDecimal(f) == Some(DigitsValue(whole) as real + FractionValue(frac))
  {
  }

  /** The text on either side of the point that joins two parts. */
  lemma PointSplits(whole: string, frac: string)
    ensures (whole + "." + frac)[..|whole|] == whole
    ensures (whole + "." + frac)[|whole| + 1..] == frac
  {
  }

  /** float() on an unpadded, unsigned decimal is that decimal's value. */
  lemma ParseUnsignedText(f: string, m: real)
    requires Unsigned(f)
    requires ParseDecimal(f) == Some(m)
    ensures ParseFloat(f) == Some(m)
  {
    TrimUnpadded(f);
    assert SplitSign(Trim(f)) == (false, f);
  }

  /** float() on '-' followed by an unpadded, unsigned decimal is that decimal's value negated. */
  lemma ParseNegatedText(f: string, m: real)
    requires Unsigned(f)
    requires ParseDecimal(f) == Some(m)
    ensures ParseFloat("-" + f) == Some(-m)
  {
    NegatedUnpadded(f);
  }

  /** A '-' in front of an unsigned numeral is kept by stripping and read as the sign. */
  lemma NegatedUnpadded(f: string)
    requires Unsigned(f)
    ensures Trim("-" + f) == "-" + f
    ensures SplitSign("-" + f) == (true, f)
  {
    var s := "-" + f;
    assert s[|s| - 1] == f[|f| - 1];
    TrimUnpadded(s);
    assert s[1..] == f;
  }

  /** A tenths field reads back as the number of tenths written, divided by ten. */
  lemma ParseFloatTenths(t: nat, w: nat)
    requires t < 10 * Pow10(w)
    ensures ParseFloat(FormatTenths(t, w)) == Some(Tenths(t))
  {
    ParseDecimalTenths(t, w);
    TenthsUnpadded(t, w);
    ParseUnsignedText(FormatTenths(t, w), Tenths(t));
  }

  /** A one-digit tenths field preceded by '-' ("-d.d") reads back as minus the number of tenths written, divided by ten. */
  lemma ParseFloatNegatedTenths(t: nat)
    requires t < 100
    ensures ParseFloat("-" + FormatTenths(t, 1)) == Some(-Tenths(t))
  {
    ParseDecimalTenths(t, 1);
    TenthsUnpadded(t, 1);
    ParseNegatedText(FormatTenths(t, 1), Tenths(t));
  }

  /** float() agrees with int() on every text int() accepts. */
  lemma ParseFloatOfInt(s: string)
    requires ParseInt(s).Some?
    ensures ParseFloat(s) == Some(ParseInt(s).value as real)
  {
    var (neg, body) := SplitSign(Trim(s));
    assert IndexOf(body, '.') == |body|;
    assert body[..|body|] == body;
    assert ParseDecimal(body) == Some(DigitsValue(body) as real);
  }
}
