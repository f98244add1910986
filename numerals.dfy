/** Decimal numerals: zero-padded integer fields (`%02d`, `%04d`) and the
    part of Python's `float(...)` that the handlers feed with decimal text. */
module Numerals {
  import opened Common

  function Pow10(w: nat): (p: nat)
    ensures p >= 1
  {
    if w == 0 then 1 else 10 * Pow10(w - 1)
  }

  function DigitChar(d: int): char
    requires 0 <= d < 10
  {
    ('0' as int + d) as char
  }

  /** The value of a string of decimal digits. */
  function NatOf(s: string): nat
    requires AllDigits(s)
  {
    if s == [] then 0 else 10 * NatOf(s[..|s| - 1]) + (s[|s| - 1] as int - '0' as int)
  }

  /** `n` written with exactly `w` digits, zero-padded (`%02d`, `%04d`). */
  function Pad(n: nat, w: nat): (s: string)
    ensures |s| == w && AllDigits(s)
  {
    if w == 0 then [] else Pad(n / 10, w - 1) + [DigitChar(n % 10)]
  }

  lemma {:induction false} NatOfPad(n: nat, w: nat)
    requires n < Pow10(w)
    ensures NatOf(Pad(n, w)) == n
  {
    if w > 0 {
      NatOfPad(n / 10, w - 1);
      assert Pad(n, w)[..w - 1] == Pad(n / 10, w - 1);
    }
  }

  lemma {:induction false} PadNatOf(s: string)
    requires AllDigits(s)
    ensures NatOf(s) < Pow10(|s|)
    ensures Pad(NatOf(s), |s|) == s
  {
    if s != [] {
      var init := s[..|s| - 1];
      PadNatOf(init);
      assert s == init + [s[|s| - 1]];
    }
  }

  /** Position of the first '.', or `|s|` when there is none. */
  function DotIndex(s: string): (k: nat)
    ensures k <= |s|
    ensures forall j :: 0 <= j < k ==> s[j] != '.'
    ensures k < |s| ==> s[k] == '.'
  {
    if s == [] || s[0] == '.' then 0 else 1 + DotIndex(s[1..])
  }

  /** The value of an unsigned decimal numeral `digits[.digits]` with at
      least one digit, or None. */
  function UnsignedDecimal(s: string): (r: Option<real>)
    ensures r.Some? ==> r.value >= 0.0
  {
    var k := DotIndex(s);
    var whole := s[..k];
    var frac := if k < |s| then s[k + 1..] else [];
    if AllDigits(whole) && AllDigits(frac) && |whole| + |frac| > 0
    then Some(DecimalValue(whole, frac))
    else None
  }

  /** The value of the numeral `whole.frac`. */
  function DecimalValue(whole: string, frac: string): (v: real)
    requires AllDigits(whole) && AllDigits(frac)
    ensures v >= 0.0
  {
    NatOf(whole) as real + NatOf(frac) as real / Pow10(|frac|) as real
  }

  /** `float(s)` on decimal text: surrounding whitespace, an optional sign,
      then an unsigned decimal numeral. */
  function ParseDecimal(s: string): (r: Option<real>)
    ensures r.Some? ==> Strip(s) != []
    ensures r.Some? && r.value < 0.0 ==> Strip(s)[0] == '-'
  {
    var t := Strip(s);
    if t != [] && (t[0] == '-' || t[0] == '+') then
      match UnsignedDecimal(t[1..])
      case Some(v) => Some(if t[0] == '-' then -v else v)
      case None => None
    else UnsignedDecimal(t)
  }

  /** A count of hundredths written with `w` whole digits and two decimals,
      as a bill shows an amount ("12.95"). */
  function FormatHundredths(c: nat, w: nat): (s: string)
  {
    Pad(c / 100, w) + "." + Pad(c % 100, 2)
  }

  lemma StripNoSpace(s: string)
    requires forall k :: 0 <= k < |s| ==> !IsSpace(s[k])
    ensures Strip(s) == s
  {
  }

  lemma DotIndexAt(s: string, w: nat)
    requires w < |s| && s[w] == '.'
    requires forall j :: 0 <= j < w ==> s[j] != '.'
    ensures DotIndex(s) == w
  {
  }

  lemma UnsignedWithDot(whole: string, frac: string)
    requires AllDigits(whole) && AllDigits(frac) && |whole| + |frac| > 0
    ensures UnsignedDecimal(whole + "." + frac) == Some(DecimalValue(whole, frac))
  {
    var s := whole + "." + frac;
    var w := |whole|;
    assert forall j :: 0 <= j < w ==> s[j] == whole[j];
    DotIndexAt(s, w);
    assert s[..w] == whole;
    assert s[w + 1..] == frac;
  }

  lemma ParseUnsigned(s: string)
    requires forall k :: 0 <= k < |s| ==> IsDigit(s[k]) || s[k] == '.'
    ensures ParseDecimal(s) == UnsignedDecimal(s)
  {
    assert forall k :: 0 <= k < |s| ==> !IsSpace(s[k]);
    StripNoSpace(s);
    assert Strip(s) == s;
    assert s != [] ==> s[0] != '-' && s[0] != '+';
  }

  lemma HundredthsChars(c: nat, w: nat)
    ensures forall k :: 0 <= k < |FormatHundredths(c, w)| ==>
              IsDigit(FormatHundredths(c, w)[k]) || FormatHundredths(c, w)[k] == '.'
  {
    var whole := Pad(c / 100, w);
    var cents := Pad(c % 100, 2);
    var s := FormatHundredths(c, w);
    forall k | 0 <= k < |s| ensures IsDigit(s[k]) || s[k] == '.' {
      if k < w {
        assert s[k] == whole[k];
      } else if k > w {
        assert s[k] == cents[k - w - 1];
      }
    }
  }

  lemma HundredthsDecimalValue(c: nat, w: nat)
    requires c / 100 < Pow10(w)
    ensures DecimalValue(Pad(c / 100, w), Pad(c % 100, 2)) == c as real / 100.0
  {
    var whole, cents := Pad(c / 100, w), Pad(c % 100, 2);
    NatOfPad(c / 100, w);
    NatOfPad(c % 100, 2);
    assert Pow10(|cents|) == 100;
    SplitHundredths(c, c / 100, c % 100);
  }

  lemma SplitHundredths(c: nat, q: nat, r: nat)
    requires c == 100 * q + r
    ensures q as real + r as real / 100 as real == c as real / 100.0
  {
  }

  /** Reading a two-decimal numeral gives back its value. */
  lemma ParseHundredths(c: nat, w: nat)
    requires c / 100 < Pow10(w)
    ensures ParseDecimal(FormatHundredths(c, w)) == Some(c as real / 100.0)
  {
    HundredthsChars(c, w);
    ParseUnsigned(FormatHundredths(c, w));
    UnsignedHundredths(c, w);
  }

  lemma UnsignedHundredths(c: nat, w: nat)
    requires c / 100 < Pow10(w)
    ensures UnsignedDecimal(FormatHundredths(c, w)) == Some(c as real / 100.0)
  {
    var whole, cents := Pad(c / 100, w), Pad(c % 100, 2);
    HundredthsDecimalValue(c, w);
    UnsignedValue(FormatHundredths(c, w), whole, cents, c as real / 100.0);
  }

  lemma UnsignedValue(s: string, whole: string, frac: string, v: real)
    requires AllDigits(whole) && AllDigits(frac) && |whole| + |frac| > 0
    requires s == whole + "." + frac && DecimalValue(whole, frac) == v
    ensures UnsignedDecimal(s) == Some(v)
  {
    UnsignedWithDot(whole, frac);
  }

}
