/**
 * Python's rendering of integers as text: `str(i)` and the zero-padded
 * format spec `{:0Nd}`, each with the parser that inverts it.
 */
module Text {
  import opened Options

  predicate IsDigit(c: char) {
    '0' <= c <= '9'
  }

  predicate AllDigits(s: string) {
    forall i :: 0 <= i < |s| ==> IsDigit(s[i])
  }

  function DigitChar(d: nat): (c: char)
    requires d < 10
    ensures IsDigit(c) && c as int - '0' as int == d
  {
    ('0' as int + d) as char
  }

  function DigitValue(c: char): nat
    requires IsDigit(c)
  {
    c as int - '0' as int
  }

  /** The base-10 digits of `n`, most significant first, without leading zeros. */
  function Digits(n: nat): (s: string)
    ensures 1 <= |s| && AllDigits(s)
    ensures s[0] == '0' <==> n == 0
    ensures Canonical(s)
  {
    if n < 10 then [DigitChar(n)] else Digits(n / 10) + [DigitChar(n % 10)]
  }

  /** A digit string without leading zeros: the only such rendering of its number. */
  predicate Canonical(s: string) {
    s != [] && AllDigits(s) && (|s| > 1 ==> s[0] != '0')
  }

  /** The number a string of digits denotes. */
  function ParseDigits(s: string): nat
    requires AllDigits(s)
  {
    if s == [] then 0 else ParseDigits(s[..|s| - 1]) * 10 + DigitValue(s[|s| - 1])
  }

  lemma {:induction false} DigitsRoundTrip(n: nat)
    ensures ParseDigits(Digits(n)) == n
  {
    if n >= 10 {
      DigitsRoundTrip(n / 10);
      var s := Digits(n);
      assert s[..|s| - 1] == Digits(n / 10);
    }
  }

  function Pow10(w: nat): (r: nat)
    ensures r >= 1
  {
    if w == 0 then 1 else 10 * Pow10(w - 1)
  }

  /** A number below 10^w has at most w digits (and always at least one). */
  lemma {:induction false} DigitsLength(n: nat, w: nat)
    requires n < Pow10(w)
    ensures |Digits(n)| <= if w == 0 then 1 else w
  {
    if n >= 10 {
      DigitsLength(n / 10, w - 1);
    }
  }

  /** A canonical digit string is the rendering of the number it denotes. */
  lemma {:induction false} DigitsOfParse(s: string)
    requires Canonical(s)
    ensures Digits(ParseDigits(s)) == s
  {
    if |s| > 1 {
      var t := s[..|s| - 1];
      assert t[0] == s[0];
      DigitsOfParse(t);
      var m := ParseDigits(t);
      assert Digits(m)[0] != '0';
      var n := ParseDigits(s);
      assert n / 10 == m && n % 10 == DigitValue(s[|s| - 1]);
      assert Digits(n) == t + [s[|s| - 1]];
      assert t + [s[|s| - 1]] == s;
    }
  }

  /**
   * The text Python `str` gives an int: canonical digits, or a minus sign
   * followed by canonical digits that are not a lone zero (there is no "-0").
   */
  predicate CanonicalDecimal(s: string) {
    Canonical(s) || (|s| > 1 && s[0] == '-' && Canonical(s[1..]) && s[1] != '0')
  }

  /** Python `str(i)` for an int: an optional minus sign, then the digits. */
  function Decimal(i: int): (s: string)
    ensures s != [] && (s[0] == '-' <==> i < 0)
    ensures forall k :: 0 <= k < |s| ==> s[k] == '-' || IsDigit(s[k])
    ensures CanonicalDecimal(s)
  {
    if i < 0 then
      var s := "-" + Digits(-i);
      assert s[1..] == Digits(-i);
      s
    else Digits(i)
  }

  /** Python `int(s)` on an optional minus sign followed by digits; None for any other text. */
  function ParseDecimal(s: string): Option<int> {
    if |s| > 1 && s[0] == '-' && AllDigits(s[1..]) then Some(0 - ParseDigits(s[1..]) as int)
    else if s != [] && AllDigits(s) then Some(ParseDigits(s))
    else None
  }

  lemma DecimalRoundTrip(i: int)
    ensures ParseDecimal(Decimal(i)) == Some(i)
  {
    if i < 0 {
      DigitsRoundTrip(-i);
      assert Decimal(i)[1..] == Digits(-i);
    } else {
      DigitsRoundTrip(i);
    }
  }

  /**
   * Every canonical decimal text is `str` of the number it parses to, so
   * `Decimal` is the one canonical rendering of each int.
   */
  lemma DecimalCanonical(s: string)
    requires CanonicalDecimal(s)
    ensures ParseDecimal(s).Some? && Decimal(ParseDecimal(s).value) == s
  {
    if s[0] == '-' {
      var m: int := ParseDigits(s[1..]);
      DigitsOfParse(s[1..]);
      assert Digits(m)[0] != '0';
      assert Decimal(-m) == "-" + s[1..] == s;
    } else {
      DigitsOfParse(s);
    }
  }

  /** `str` on ints is injective. */
  lemma DecimalInjective(a: int, b: int)
    requires Decimal(a) == Decimal(b)
    ensures a == b
  {
    DecimalRoundTrip(a);
    DecimalRoundTrip(b);
  }

  function Zeros(n: nat): (s: string)
    ensures |s| == n && forall k :: 0 <= k < n ==> s[k] == '0'
  {
    seq(n, _ => '0')
  }

  /** Left-pad with zeros to at least `width` characters. */
  function PadLeft(s: string, width: nat): (r: string)
    ensures |r| == if |s| < width then width else |s|
    ensures r == Zeros(|r| - |s|) + s
  {
    if |s| < width then Zeros(width - |s|) + s else s
  }

  /**
   * Python `format(i, "0{width}d")`: the sign comes first and counts toward
   * the width, zeros fill between sign and digits, nothing is truncated.
   */
  function FormatInt(i: int, width: nat): (s: string)
    ensures |s| >= width && s != [] && (s[0] == '-' <==> i < 0)
  {
    if i < 0 then "-" + PadLeft(Digits(-i), if width > 0 then width - 1 else 0)
    else PadLeft(Digits(i), width)
  }

  /** Zero-padded digits are digits, and denote the same number. */
  lemma PaddedDigits(n: nat, width: nat)
    ensures AllDigits(PadLeft(Digits(n), width)) && ParseDigits(PadLeft(Digits(n), width)) == n
  {
    var d := Digits(n);
    DigitsRoundTrip(n);
    LeadingZeros(|PadLeft(d, width)| - |d|, d);
  }

  /** Leading zeros do not change the value of a digit string. */
  lemma {:induction false} LeadingZeros(k: nat, s: string)
    requires AllDigits(s)
    ensures AllDigits(Zeros(k) + s) && ParseDigits(Zeros(k) + s) == ParseDigits(s)
  {
    var z := Zeros(k) + s;
    if s == [] {
      if k > 0 {
        assert z[..|z| - 1] == Zeros(k - 1) + s;
        LeadingZeros(k - 1, s);
      }
    } else {
      assert z[..|z| - 1] == Zeros(k) + s[..|s| - 1];
      LeadingZeros(k, s[..|s| - 1]);
    }
  }

  /**
   * A non-negative number formatted with `{:0Nd}` is a digit string of
   * exactly max(N, number of digits) characters that parses back to it.
   */
  lemma FormatIntRoundTrip(n: nat, width: nat)
    ensures var s := FormatInt(n, width);
      && AllDigits(s)
      && |s| == (if |Digits(n)| < width then width else |Digits(n)|)
      && ParseDigits(s) == n
  {
    PaddedDigits(n, width);
    assert FormatInt(n, width) == PadLeft(Digits(n), width);
  }

  /**
   * A negative number formatted with `{:0Nd}` is a minus sign followed by a
   * digit string that parses back to its magnitude.
   */
  lemma FormatIntNegative(i: int, width: nat)
    requires i < 0
    ensures AllDigits(FormatInt(i, width)[1..]) && ParseDigits(FormatInt(i, width)[1..]) == -i
  {
    var w := if width > 0 then width - 1 else 0;
    PaddedDigits(-i, w);
    assert FormatInt(i, width)[1..] == PadLeft(Digits(-i), w);
  }

  /** A number below 10^N formatted with `{:0Nd}` takes exactly N characters. */
  lemma FormatIntFixedWidth(n: nat, width: nat)
    requires 1 <= width && n < Pow10(width)
    ensures |FormatInt(n, width)| == width
    ensures AllDigits(FormatInt(n, width)) && ParseDigits(FormatInt(n, width)) == n
  {
    DigitsLength(n, width);
    FormatIntRoundTrip(n, width);
  }

  /** Joining two separator-free strings around a separator can be undone. */
  lemma {:induction false} SplitAtSeparator(x: string, y: string, u: string, v: string, sep: char)
    requires sep !in x && sep !in y && sep !in u && sep !in v
    requires x + [sep] + y == u + [sep] + v
    ensures x == u && y == v
  {
    var s := x + [sep] + y;
    assert forall i :: 0 <= i < |x| ==> s[i] == x[i];
    assert forall i :: 0 <= i < |u| ==> s[i] == u[i];
    assert s[|x|] == sep && s[|u|] == sep;
    assert x == s[..|x|] == u;
    assert y == s[|x| + 1..] == v;
  }

  /** A decimal rendering never contains an underscore. */
  lemma DecimalNoUnderscore(i: int)
    ensures '_' !in Decimal(i)
  {
  }
}
