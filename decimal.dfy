/**
 * Numbers embedded in script text. A C# `float`/`double` parameter is modelled as a
 * fixed-point value: an integer count of ten-thousandths, the precision the
 * `"0.####"` format keeps. Formatting uses the invariant `.` separator.
 */
module Decimal {
  import opened Wrappers

  /** Ten-thousandths per unit: `"0.####"` keeps four fractional digits. */
  const Scale: nat := 10000
  const FractionDigits: nat := 4

  predicate IsDigit(c: char) { '0' <= c <= '9' }

  predicate AllDigits(s: string) { forall i :: 0 <= i < |s| ==> IsDigit(s[i]) }

  function Digit(d: nat): char
    requires d < 10
  {
    ('0' as int + d) as char
  }

  function DigitValue(c: char): nat
    requires IsDigit(c)
  {
    c as int - '0' as int
  }

  function Pow10(n: nat): nat
  {
    if n == 0 then 1 else 10 * Pow10(n - 1)
  }

  /** The number a digit string denotes, most significant digit first. */
  function ValueOf(s: string): nat
    requires AllDigits(s)
  {
    if s == [] then 0 else ValueOf(s[..|s| - 1]) * 10 + DigitValue(s[|s| - 1])
  }

  /** Decimal digits of `n` without leading zeros ("0" for zero). */
  function NatText(n: nat): string
  {
    if n < 10 then [Digit(n)] else NatText(n / 10) + [Digit(n % 10)]
  }

  /** Exactly `width` decimal digits of `n`, zero-padded on the left. */
  function PaddedText(n: nat, width: nat): string
  {
    if width == 0 then "" else PaddedText(n / 10, width - 1) + [Digit(n % 10)]
  }

  function Zeros(k: nat): string
  {
    if k == 0 then "" else Zeros(k - 1) + "0"
  }

  /** Drops the trailing zeros of a digit string. */
  function TrimZeros(s: string): string
  {
    if s != [] && s[|s| - 1] == '0' then TrimZeros(s[..|s| - 1]) else s
  }

  /** `"0.####"` of a non-negative value: integer part, then up to four fraction digits with trailing zeros dropped. */
  function FormatMagnitude(n: nat): string
  {
    var whole := NatText(n / Scale);
    if n % Scale == 0 then whole
    else whole + "." + TrimZeros(PaddedText(n % Scale, FractionDigits))
  }

  /** `ToString("0.####", CultureInfo.InvariantCulture)` of `v / 10000`. */
  function Format(v: int): string
  {
    if v < 0 then "-" + FormatMagnitude(-v) else FormatMagnitude(v)
  }

  /** The value of a fixed-point parameter in seconds. */
  function Seconds(v: int): real
  {
    v as real / Scale as real
  }

  /** The first index of `c` in `s`. */
  function IndexOf(s: string, c: char): (r: Option<nat>)
    ensures r.Some? ==> r.value < |s| && s[r.value] == c && forall k :: 0 <= k < r.value ==> s[k] != c
    ensures r.None? ==> forall k :: 0 <= k < |s| ==> s[k] != c
  {
    if s == [] then None
    else if s[0] == c then Some(0)
    else match IndexOf(s[1..], c)
      case None => None
      case Some(k) => Some(k + 1)
  }

  /** The ten-thousandths denoted by whole digits and up to four fraction digits. */
  function PointValue(whole: string, frac: string): nat
    requires AllDigits(whole) && AllDigits(frac) && |frac| <= FractionDigits
  {
    ValueOf(whole) * Scale + ValueOf(frac) * Pow10(FractionDigits - |frac|)
  }

  /** Reads back a non-negative `"0.####"` text: digits, optionally `.` and one to four digits. */
  function ParseMagnitude(s: string): Option<nat>
  {
    match IndexOf(s, '.')
    case None =>
      if s != [] && AllDigits(s) then Some(ValueOf(s) * Scale) else None
    case Some(k) =>
      var whole, frac := s[..k], s[k + 1..];
      if whole != [] && AllDigits(whole) && 1 <= |frac| <= FractionDigits && AllDigits(frac)
      then Some(PointValue(whole, frac))
      else None
  }

  /** Reads back a `"0.####"` text, with an optional leading minus sign. */
  function Parse(s: string): Option<int>
  {
    if s != [] && s[0] == '-' then
      match ParseMagnitude(s[1..])
      case None => None
      case Some(m) => Some(-(m as int))
    else ParseMagnitude(s)
  }

  lemma {:induction false} NatTextValue(n: nat)
    ensures NatText(n) != [] && AllDigits(NatText(n)) && ValueOf(NatText(n)) == n
    decreases n
  {
    if n >= 10 {
      NatTextValue(n / 10);
      var s := NatText(n);
      assert s[..|s| - 1] == NatText(n / 10);
    }
  }

  /** The whole digits are minimal: they start with `0` only for `n == 0`. */
  lemma {:induction false} NatTextMinimal(n: nat)
    ensures NatText(n) != [] && (NatText(n)[0] == '0' <==> n == 0)
    decreases n
  {
    if n >= 10 {
      NatTextMinimal(n / 10);
      assert NatText(n)[0] == NatText(n / 10)[0];
    }
  }

  lemma {:induction false} PaddedTextValue(n: nat, width: nat)
    requires n < Pow10(width)
    ensures |PaddedText(n, width)| == width && AllDigits(PaddedText(n, width))
    ensures ValueOf(PaddedText(n, width)) == n
  {
    if width > 0 {
      PaddedTextValue(n / 10, width - 1);
      var s := PaddedText(n, width);
      assert s[..|s| - 1] == PaddedText(n / 10, width - 1);
    }
  }

  lemma {:induction false} TrimZerosSplits(s: string)
    ensures |TrimZeros(s)| <= |s| && s == TrimZeros(s) + Zeros(|s| - |TrimZeros(s)|)
    ensures TrimZeros(s) == [] || TrimZeros(s)[|TrimZeros(s)| - 1] != '0'
    decreases |s|
  {
    if s != [] && s[|s| - 1] == '0' {
      var init := s[..|s| - 1];
      TrimZerosSplits(init);
      assert Zeros(|s| - |TrimZeros(s)|) == Zeros(|init| - |TrimZeros(init)|) + ['0'];
      assert s == init + ['0'];
    } else {
      assert Zeros(0) == [];
    }
  }

  lemma {:induction false} ValueOfAppendZeros(s: string, k: nat)
    requires AllDigits(s)
    ensures AllDigits(s + Zeros(k)) && ValueOf(s + Zeros(k)) == ValueOf(s) * Pow10(k)
  {
    if k > 0 {
      ValueOfAppendZeros(s, k - 1);
      var init := s + Zeros(k - 1);
      assert s + Zeros(k) == init + "0";
      ValueOfSnoc(init, '0');
      MulPow10(ValueOf(s), k);
    } else {
      assert s + Zeros(0) == s;
    }
  }

  /** One more power of ten is one more factor of ten. */
  lemma MulPow10(x: nat, k: nat)
    requires k > 0
    ensures x * Pow10(k - 1) * 10 == x * Pow10(k)
  {
  }

  /** Appending a digit multiplies by ten and adds the digit. */
  lemma ValueOfSnoc(s: string, c: char)
    requires AllDigits(s) && IsDigit(c)
    ensures AllDigits(s + [c]) && ValueOf(s + [c]) == ValueOf(s) * 10 + DigitValue(c)
  {
    assert (s + [c])[..|s|] == s;
  }

  lemma {:induction false} ValueOfPrefix(s: string, k: nat)
    requires AllDigits(s) && k <= |s|
    ensures AllDigits(s[..k])
  {
  }

  /** The fraction digits of a non-zero fraction: one to four digits, no trailing zero, reading back to the fraction. */
  lemma FractionText(f: nat)
    requires 0 < f < Scale
    ensures var d := TrimZeros(PaddedText(f, FractionDigits));
      && 1 <= |d| <= FractionDigits && AllDigits(d) && d[|d| - 1] != '0'
      && ValueOf(d) * Pow10(FractionDigits - |d|) == f
  {
    var padded := PaddedText(f, FractionDigits);
    assert Pow10(FractionDigits) == Scale;
    PaddedTextValue(f, FractionDigits);
    TrimZerosSplits(padded);
    var d := TrimZeros(padded);
    assert AllDigits(d) by {
      assert forall i :: 0 <= i < |d| ==> d[i] == padded[i];
    }
    ValueOfAppendZeros(d, FractionDigits - |d|);
    assert ValueOf(d) * Pow10(FractionDigits - |d|) == f;
  }

  /** Non-negative formatted values start with a digit and hold only digits and at most one `.`. */
  lemma FormatMagnitudeShape(n: nat)
    ensures FormatMagnitude(n) != [] && IsDigit(FormatMagnitude(n)[0])
    ensures IndexOf(FormatMagnitude(n), '.').None? <==> n % Scale == 0
    ensures forall i :: 0 <= i < |FormatMagnitude(n)| ==> IsDigit(FormatMagnitude(n)[i]) || FormatMagnitude(n)[i] == '.'
  {
    NatTextValue(n / Scale);
    var whole := NatText(n / Scale);
    if n % Scale != 0 {
      FractionText(n % Scale);
      var s := FormatMagnitude(n);
      assert s[|whole|] == '.';
    }
  }

  /** The first occurrence of `c` is at `i` when `s[i]` is `c` and no earlier character is. */
  lemma IndexOfFirst(s: string, c: char, i: nat)
    requires i < |s| && s[i] == c && forall k :: 0 <= k < i ==> s[k] != c
    ensures IndexOf(s, c) == Some(i)
  {
  }

  /** A character other than `c` in front shifts the first occurrence of `c` by one. */
  lemma IndexOfAfter(d: char, s: string, c: char)
    requires d != c
    ensures IndexOf([d] + s, c).Some? <==> IndexOf(s, c).Some?
  {
    assert ([d] + s)[1..] == s;
  }

  /** A digit string without a point reads as whole units. */
  lemma ParseWholeText(whole: string)
    requires whole != [] && AllDigits(whole)
    ensures ParseMagnitude(whole) == Some(ValueOf(whole) * Scale)
  {
    if IndexOf(whole, '.').Some? {
      assert IsDigit(whole[IndexOf(whole, '.').value]);
    }
  }

  /** Whole digits, a point and one to four fraction digits read as units plus ten-thousandths. */
  lemma ParsePointText(whole: string, frac: string)
    requires whole != [] && AllDigits(whole) && 1 <= |frac| <= FractionDigits && AllDigits(frac)
    ensures ParseMagnitude(whole + "." + frac) == Some(PointValue(whole, frac))
  {
    var s := whole + "." + frac;
    assert s[..|whole|] == whole;
    assert s[|whole| + 1..] == frac;
    assert IndexOf(s, '.') == Some(|whole|) by {
      forall k | 0 <= k < |whole|
        ensures s[k] != '.'
      {
        assert s[k] == whole[k];
      }
      IndexOfFirst(s, '.', |whole|);
    }
  }

  /** Reading back a formatted non-negative value gives the value. */
  lemma FormatMagnitudeRoundTrip(n: nat)
    ensures ParseMagnitude(FormatMagnitude(n)) == Some(n)
  {
    NatTextValue(n / Scale);
    var whole := NatText(n / Scale);
    if n % Scale == 0 {
      ParseWholeText(whole);
    } else {
      FractionText(n % Scale);
      ParsePointText(whole, TrimZeros(PaddedText(n % Scale, FractionDigits)));
    }
  }

  /** Formatting is invertible: the script text determines the parameter exactly. */
  lemma FormatRoundTrip(v: int)
    ensures Parse(Format(v)) == Some(v)
  {
    if v < 0 {
      NegativeRoundTrip(v);
    } else {
      FormatMagnitudeRoundTrip(v);
      FormatMagnitudeShape(v);
      var s := FormatMagnitude(v);
      assert s[0] != '-';
      assert Parse(s) == ParseMagnitude(s);
    }
  }

  lemma NegativeRoundTrip(v: int)
    requires v < 0
    ensures Parse(Format(v)) == Some(v)
  {
    FormatMagnitudeRoundTrip(-v);
    ParseSigned(FormatMagnitude(-v), -v);
  }

  /** A minus sign in front of a magnitude text negates what it reads as. */
  lemma ParseSigned(m: string, n: nat)
    requires ParseMagnitude(m) == Some(n)
    ensures Parse("-" + m) == Some(-(n as int))
  {
    assert ("-" + m)[1..] == m;
  }

  /** A minus sign in front adds no comma and keeps the presence of a point. */
  lemma SignedShape(m: string)
    requires forall i :: 0 <= i < |m| ==> IsDigit(m[i]) || m[i] == '.'
    ensures forall i :: 0 <= i < |"-" + m| ==> ("-" + m)[i] != ','
    ensures IndexOf("-" + m, '.').Some? <==> IndexOf(m, '.').Some?
  {
    assert "-" + m == ['-'] + m;
    IndexOfAfter('-', m, '.');
  }

  /** A value and its negation have a fraction together. */
  lemma NegatedFraction(v: int)
    ensures (-v) % Scale == 0 <==> v % Scale == 0
  {
    var q := v / Scale;
    assert v == q * Scale + v % Scale;
    assert -v == (-q) * Scale - v % Scale;
    if v % Scale != 0 {
      assert -v == (-q - 1) * Scale + (Scale - v % Scale);
    }
  }

  /**
   * The formatted text never holds a comma (so it cannot split an argument list),
   * and it holds a `.` exactly when the value has a fractional part.
   */
  lemma FormatShape(v: int)
    ensures Format(v) != []
    ensures forall i :: 0 <= i < |Format(v)| ==> Format(v)[i] != ','
    ensures IndexOf(Format(v), '.').Some? <==> v % Scale != 0
  {
    if v < 0 {
      var n: nat := -v;
      FormatMagnitudeShape(n);
      NegativeShape(v, FormatMagnitude(n));
    } else {
      FormatMagnitudeShape(v);
    }
  }

  /** The shape facts for a negative value, from those of its magnitude text `m`. */
  lemma NegativeShape(v: int, m: string)
    requires v < 0
    requires forall i :: 0 <= i < |m| ==> IsDigit(m[i]) || m[i] == '.'
    requires IndexOf(m, '.').None? <==> (-v) % Scale == 0
    ensures forall i :: 0 <= i < |"-" + m| ==> ("-" + m)[i] != ','
    ensures IndexOf("-" + m, '.').Some? <==> v % Scale != 0
  {
    SignedShape(m);
    NegatedFraction(v);
  }

  /** Examples of the format: 1 -> "1", 0.25 -> "0.25", 2.5 -> "2.5", 1.2346 -> "1.2346". */
  lemma FormatExamples()
    ensures Format(10000) == "1"
    ensures Format(2500) == "0.25"
    ensures Format(25000) == "2.5"
    ensures Format(12346) == "1.2346"
  {
    FormatOne();
    FormatQuarter();
    FormatTwoAndAHalf();
    FormatFourDigits();
  }

  lemma FormatOne()
    ensures Format(10000) == "1"
  {
    assert NatText(1) == "1";
  }

  lemma FormatQuarter()
    ensures Format(2500) == "0.25"
  {
    assert NatText(0) == "0";
    assert PaddedText(2500, 4) == "2500";
    assert TrimZeros("2500") == "25" by {
      assert "2500"[..3] == "250";
      assert "250"[..2] == "25";
    }
  }

  lemma FormatTwoAndAHalf()
    ensures Format(25000) == "2.5"
  {
    assert NatText(2) == "2";
    assert PaddedText(5000, 4) == "5000";
    assert TrimZeros("5000") == "5" by {
      assert "5000"[..3] == "500";
      assert "500"[..2] == "50";
      assert "50"[..1] == "5";
    }
  }

  lemma FormatFourDigits()
    ensures Format(12346) == "1.2346"
  {
    assert NatText(1) == "1";
    assert PaddedText(2346, 4) == "2346";
    assert TrimZeros("2346") == "2346";
  }
}
