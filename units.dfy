/**
 * Decimal text and the native token's smallest unit.
 *
 * The token has 18 fractional digits: one token is 10^18 wei.  This module
 * gives the plain decimal numerals the transfer screen works with (the
 * pattern `^\d*\.?\d*$`), the wallet SDK's conversion of such text to wei
 * (`toWei`) and its rendering of wei as decimal text (`fromWei`).
 */
module Units {
  import opened Wrappers

  /** Fractional digits of the native token, and of the fee display. */
  const Decimals: nat := 18

  /** Wei in one whole token. */
  const WeiPerToken: nat := 1_000_000_000_000_000_000

  predicate IsDigit(c: char) {
    '0' <= c <= '9'
  }

  predicate AllDigits(s: string) {
    forall i :: 0 <= i < |s| ==> IsDigit(s[i])
  }

  /** The value of a decimal digit; other characters, which never reach it, count as zero. */
  function DigitValue(c: char): nat {
    if IsDigit(c) then c as int - '0' as int else 0
  }

  function DigitChar(d: nat): (c: char)
    requires d < 10
    ensures IsDigit(c) && DigitValue(c) == d
  {
    ('0' as int + d) as char
  }

  function Pow10(k: nat): (r: nat)
    ensures r >= 1
  {
    if k == 0 then 1 else 10 * Pow10(k - 1)
  }

  lemma {:induction false} Pow10Add(a: nat, b: nat)
    ensures Pow10(a + b) == Pow10(a) * Pow10(b)
  {
    if b > 0 {
      Pow10Add(a, b - 1);
      calc {
        Pow10(a + b);
        10 * Pow10(a + b - 1);
        10 * (Pow10(a) * Pow10(b - 1));
        Pow10(a) * (10 * Pow10(b - 1));
      }
    }
  }

  /** The natural number a string of decimal digits denotes, most significant digit first. */
  function DigitsValue(s: string): nat {
    if s == [] then 0 else 10 * DigitsValue(s[..|s| - 1]) + DigitValue(s[|s| - 1])
  }

  /** Appending digits shifts the value of the prefix left by their count. */
  lemma {:induction false} DigitsValueAppend(a: string, b: string)
    ensures DigitsValue(a + b) == DigitsValue(a) * Pow10(|b|) + DigitsValue(b)
  {
    if b == [] {
      assert a + b == a;
    } else {
      var b' := b[..|b| - 1];
      var d := DigitValue(b[|b| - 1]);
      assert (a + b)[..|a + b| - 1] == a + b';
      assert (a + b)[|a + b| - 1] == b[|b| - 1];
      DigitsValueAppend(a, b');
      var x, y, z := DigitsValue(a), Pow10(|b'|), DigitsValue(b');
      assert DigitsValue(a + b) == 10 * (x * y + z) + d;
      ShiftLeft(x, y, z, d);
      assert Pow10(|b|) == 10 * y && DigitsValue(b) == 10 * z + d;
    }
  }

  lemma ShiftLeft(x: int, y: int, z: int, d: int)
    ensures 10 * (x * y + z) + d == x * (10 * y) + (10 * z + d)
  {
  }

  predicate HasNonZeroDigit(s: string) {
    exists i :: 0 <= i < |s| && IsDigit(s[i]) && s[i] != '0'
  }

  /** A digit string denotes a positive number exactly when one of its digits is not zero. */
  lemma {:induction false} DigitsValuePositive(s: string)
    ensures DigitsValue(s) > 0 <==> HasNonZeroDigit(s)
  {
    if s != [] {
      var s' := s[..|s| - 1];
      DigitsValuePositive(s');
      if HasNonZeroDigit(s') {
        var i :| 0 <= i < |s'| && IsDigit(s'[i]) && s'[i] != '0';
        assert s[i] == s'[i];
      }
      if HasNonZeroDigit(s) {
        var i :| 0 <= i < |s| && IsDigit(s[i]) && s[i] != '0';
        if i < |s'| {
          assert s'[i] == s[i];
        }
      }
    }
  }

  function Zeros(k: nat): (z: string)
    ensures |z| == k && AllDigits(z) && DigitsValue(z) == 0
    ensures forall i :: 0 <= i < k ==> z[i] == '0'
  {
    if k == 0 then [] else
      var z' := Zeros(k - 1);
      assert (z' + ['0'])[..k - 1] == z';
      z' + ['0']
  }

  /** Decimal rendering of a natural number (JavaScript's `toString` on a bigint). */
  function NatToDecimal(n: nat): (s: string)
    ensures AllDigits(s) && |s| >= 1 && DigitsValue(s) == n
  {
    if n < 10 then [DigitChar(n)] else
      var p := NatToDecimal(n / 10);
      assert (p + [DigitChar(n % 10)])[..|p|] == p;
      p + [DigitChar(n % 10)]
  }

  lemma {:induction false} NatToDecimalLength(n: nat, k: nat)
    requires k >= 1 && n < Pow10(k)
    ensures |NatToDecimal(n)| <= k
  {
    if n >= 10 {
      NatToDecimalLength(n / 10, k - 1);
    }
  }

  /** Left-pads with zeros to at least `width` digits (`padStart(width, "0")`). */
  function PadLeft(s: string, width: nat): (r: string)
    requires AllDigits(s)
    ensures AllDigits(r) && |r| == if |s| >= width then |s| else width
    ensures DigitsValue(r) == DigitsValue(s)
  {
    if |s| >= width then s else
      DigitsValueAppend(Zeros(width - |s|), s);
      Zeros(width - |s|) + s
  }

  /** Drops trailing zeros (`replace(/(0+)$/, "")`). */
  function TrimTrailingZeros(s: string): (r: string)
    ensures |r| <= |s| && r == s[..|r|]
    ensures forall i :: |r| <= i < |s| ==> s[i] == '0'
    ensures r == [] || r[|r| - 1] != '0'
  {
    if s != [] && s[|s| - 1] == '0' then TrimTrailingZeros(s[..|s| - 1]) else s
  }

  lemma TrimTrailingZerosValue(s: string)
    requires AllDigits(s)
    ensures AllDigits(TrimTrailingZeros(s))
    ensures DigitsValue(s) == DigitsValue(TrimTrailingZeros(s)) * Pow10(|s| - |TrimTrailingZeros(s)|)
  {
    var r := TrimTrailingZeros(s);
    var z := Zeros(|s| - |r|);
    assert s == r + z;
    DigitsValueAppend(r, z);
  }

  /**
   * A text matching `^\d*\.?\d*$`, split at the decimal point: the digits
   * before it, the digits after it, and whether the point is there.
   */
  datatype Numeral = Numeral(whole: string, fraction: string, hasPoint: bool)
  {
    predicate WellFormed() {
      AllDigits(whole) && AllDigits(fraction) && (!hasPoint ==> fraction == [])
    }

    function Text(): string {
      whole + (if hasPoint then "." else "") + fraction
    }
  }

  /** Length of the longest run of digits at the start of `s` (the greedy `\d*`). */
  function LeadingDigits(s: string): (k: nat)
    ensures k <= |s|
  {
    if s == [] || !IsDigit(s[0]) then 0 else 1 + LeadingDigits(s[1..])
  }

  /** The run is all digits and stops at the first character that is not one. */
  lemma {:induction false} LeadingDigitsSpec(s: string)
    ensures var k := LeadingDigits(s);
      AllDigits(s[..k]) && (k < |s| ==> !IsDigit(s[k]))
  {
    if s != [] && IsDigit(s[0]) {
      LeadingDigitsSpec(s[1..]);
      var k := LeadingDigits(s);
      forall i | 0 < i < k ensures IsDigit(s[i]) {
        assert s[i] == s[1..][..k - 1][i - 1];
      }
      if k < |s| {
        assert s[k] == s[1..][k - 1];
      }
    }
  }

  /** Matches `s` against `^\d*\.?\d*$`; on a match, splits it at the point. */
  function ParseNumeral(s: string): Option<Numeral> {
    var k := LeadingDigits(s);
    if k == |s| then Some(Numeral(s, "", false))
    else if s[k] == '.' && AllDigits(s[k + 1..]) then Some(Numeral(s[..k], s[k + 1..], true))
    else None
  }

  /** A recognised text is a well-formed numeral whose text is the input. */
  lemma ParseNumeralSound(s: string)
    ensures ParseNumeral(s).Some? ==> ParseNumeral(s).value.WellFormed() && ParseNumeral(s).value.Text() == s
  {
    var k := LeadingDigits(s);
    LeadingDigitsSpec(s);
    if k == |s| {
      assert s[..k] == s;
      assert s + "" + "" == s;
    } else if s[k] == '.' && AllDigits(s[k + 1..]) {
      assert s == s[..k] + "." + s[k + 1..];
    }
  }

  lemma {:induction false} LeadingDigitsOf(w: string, rest: string)
    requires AllDigits(w) && (rest == [] || !IsDigit(rest[0]))
    ensures LeadingDigits(w + rest) == |w|
  {
    if w == [] {
      assert w + rest == rest;
    } else {
      assert (w + rest)[1..] == w[1..] + rest;
      LeadingDigitsOf(w[1..], rest);
    }
  }

  /** Every well-formed numeral is recognised again from its text. */
  lemma ParseNumeralOfText(n: Numeral)
    requires n.WellFormed()
    ensures ParseNumeral(n.Text()) == Some(n)
  {
    var s := n.Text();
    if n.hasPoint {
      LeadingDigitsOf(n.whole, "." + n.fraction);
      assert s == n.whole + ("." + n.fraction);
      assert s[..|n.whole|] == n.whole;
      assert s[|n.whole| + 1..] == n.fraction;
    } else {
      LeadingDigitsOf(n.whole, []);
      assert n.whole + [] == n.whole;
      assert s == n.whole + "" + "";
      assert LeadingDigits(s) == |s|;
      assert n == Numeral(s, "", false);
    }
  }

  /** The digits of the numeral with the point removed: its value is Mantissa / 10^|fraction|. */
  function Mantissa(n: Numeral): nat {
    DigitsValue(n.whole + n.fraction)
  }

  /**
   * The numeral's value in units of 10^-decimals: exact up to `decimals`
   * fractional digits; beyond that, rounded half up at the last kept digit.
   */
  function NumeralUnits(n: Numeral, decimals: nat): nat {
    var f := n.fraction;
    var tokens := DigitsValue(n.whole);
    if |f| <= decimals then
      Shift(tokens, decimals) + Shift(DigitsValue(f), decimals - |f|)
    else
      Shift(tokens, decimals) + DigitsValue(f[..decimals]) + (if f[decimals] >= '5' then 1 else 0)
  }

  /** `x * 10^k`, as k multiplications by ten. */
  function Shift(x: nat, k: nat): nat {
    if k == 0 then x else 10 * Shift(x, k - 1)
  }

  lemma {:induction false} ShiftIsProduct(x: nat, k: nat)
    ensures Shift(x, k) == x * Pow10(k)
  {
    if k > 0 {
      ShiftIsProduct(x, k - 1);
      TenTimes(x, Pow10(k - 1));
    }
  }

  lemma TenTimes(x: int, y: int)
    ensures 10 * (x * y) == x * (10 * y)
  {
  }

  lemma {:induction false} ShiftSucc(x: nat, k: nat)
    ensures Shift(x + 1, k) == Shift(x, k) + Pow10(k)
  {
    if k > 0 {
      ShiftSucc(x, k - 1);
    }
  }

  /** The SDK's `toUnits`: decimal text to smallest units; `None` stands for the conversion throwing. */
  function ToUnits(s: string, decimals: nat): Option<nat> {
    match ParseNumeral(s)
    case None => None
    case Some(n) => Some(NumeralUnits(n, decimals))
  }

  /** Text written as a numeral converts to that numeral's units. */
  lemma ToUnitsOfText(n: Numeral, decimals: nat)
    requires n.WellFormed()
    ensures ToUnits(n.Text(), decimals) == Some(NumeralUnits(n, decimals))
  {
    ParseNumeralOfText(n);
  }

  /** The SDK's `toWei`: `toUnits` with the token's 18 decimals. */
  function ToWei(s: string): Option<nat> {
    ToUnits(s, Decimals)
  }

  /**
   * With at most `decimals` fractional digits the conversion is exact:
   * NumeralUnits / 10^decimals equals the numeral's value Mantissa / 10^|fraction|.
   */
  lemma NumeralUnitsExact(n: Numeral, decimals: nat)
    requires |n.fraction| <= decimals
    ensures NumeralUnits(n, decimals) * Pow10(|n.fraction|) == Mantissa(n) * Pow10(decimals)
  {
    var k := |n.fraction|;
    var w, f := DigitsValue(n.whole), DigitsValue(n.fraction);
    var a, b, c := Pow10(decimals), Pow10(decimals - k), Pow10(k);
    assert NumeralUnits(n, decimals) == Shift(w, decimals) + Shift(f, decimals - k);
    ShiftIsProduct(w, decimals);
    ShiftIsProduct(f, decimals - k);
    DigitsValueAppend(n.whole, n.fraction);
    assert Mantissa(n) == w * c + f;
    Pow10Add(decimals - k, k);
    ExactStep(w, f, a, b, c);
  }

  /** The same on text: ToUnits(s) / 10^decimals is the value the text denotes. */
  lemma ToUnitsExact(s: string, decimals: nat)
    requires ParseNumeral(s).Some? && |ParseNumeral(s).value.fraction| <= decimals
    ensures ToUnits(s, decimals).Some?
    ensures var n := ParseNumeral(s).value;
      ToUnits(s, decimals).value * Pow10(|n.fraction|) == Mantissa(n) * Pow10(decimals)
  {
    NumeralUnitsExact(ParseNumeral(s).value, decimals);
  }

  lemma ExactStep(w: int, f: int, a: int, b: int, c: int)
    requires a == b * c
    ensures (w * a + f * b) * c == (w * c + f) * a
  {
  }

  /**
   * With at most 18 fractional digits `toWei` is exact:
   * ToWei(s) / 10^18 equals the numeral's value Mantissa / 10^|fraction|.
   */
  lemma ToWeiExact(s: string)
    requires ParseNumeral(s).Some? && |ParseNumeral(s).value.fraction| <= Decimals
    ensures ToWei(s).Some?
    ensures var n := ParseNumeral(s).value;
      ToWei(s).value * Pow10(|n.fraction|) == Mantissa(n) * Pow10(Decimals)
  {
    ToUnitsExact(s, Decimals);
  }

  /** Whole tokens and remaining smallest units of an amount (division by 10^decimals). */
  function SplitUnits(units: nat, decimals: nat): (r: (nat, nat))
    ensures units == Shift(r.0, decimals) + r.1 && r.1 < Pow10(decimals)
    decreases units
  {
    if units < Pow10(decimals) then
      ShiftIsProduct(0, decimals);
      (0, units)
    else
      var (q, m) := SplitUnits(units - Pow10(decimals), decimals);
      ShiftSucc(q, decimals);
      (q + 1, m)
  }

  /**
   * The SDK's `toTokens(units, decimals)`: the whole tokens, then a point
   * and the fraction without trailing zeros when the fraction is not zero.
   */
  function FromUnits(units: nat, decimals: nat): string {
    Rendering(units, decimals).Text()
  }

  /** The numeral `toTokens` writes: no point when the fraction is all zeros. */
  function Rendering(units: nat, decimals: nat): Numeral {
    var (q, r) := SplitUnits(units, decimals);
    var fraction := FractionDigits(r, decimals);
    Numeral(NatToDecimal(q), fraction, fraction != [])
  }

  /** The fractional digits of a remainder: padded to `decimals` digits, trailing zeros dropped. */
  function FractionDigits(r: nat, decimals: nat): string {
    TrimTrailingZeros(PadLeft(NatToDecimal(r), decimals))
  }

  /** A remainder below 10^decimals is recovered from its fractional digits. */
  lemma FractionDigitsValue(r: nat, decimals: nat)
    requires r < Pow10(decimals)
    ensures var f := FractionDigits(r, decimals);
      AllDigits(f) && |f| <= decimals && Shift(DigitsValue(f), decimals - |f|) == r
  {
    var padded := PadLeft(NatToDecimal(r), decimals);
    var f := TrimTrailingZeros(padded);
    TrimTrailingZerosValue(padded);
    if decimals == 0 {
      assert r == 0;
    } else {
      NatToDecimalLength(r, decimals);
      assert |padded| == decimals;
    }
    ShiftIsProduct(DigitsValue(f), decimals - |f|);
  }

  /** The rendering is a well-formed numeral of at most `decimals` fractional digits denoting the amount. */
  lemma RenderingExact(units: nat, decimals: nat)
    ensures var n := Rendering(units, decimals);
      n.WellFormed() && |n.fraction| <= decimals && NumeralUnits(n, decimals) == units
  {
    var (q, r) := SplitUnits(units, decimals);
    FractionDigitsValue(r, decimals);
    var n := Rendering(units, decimals);
    assert DigitsValue(n.whole) == q;
  }

  /** Converting the rendering of an amount back gives the same amount. */
  lemma FromUnitsRoundTrip(units: nat, decimals: nat)
    ensures ParseNumeral(FromUnits(units, decimals)).Some?
    ensures |ParseNumeral(FromUnits(units, decimals)).value.fraction| <= decimals
    ensures ToUnits(FromUnits(units, decimals), decimals) == Some(units)
  {
    RenderingExact(units, decimals);
    ParseNumeralOfText(Rendering(units, decimals));
  }

  /** 10^Decimals wei make one token. */
  lemma WeiPerTokenValue()
    ensures Pow10(Decimals) == WeiPerToken
    ensures Shift(1, Decimals) == WeiPerToken
  {
    ShiftIsProduct(1, Decimals);
    Pow10Add(6, 12);
    Pow10Add(6, 6);
    assert Pow10(6) == 1000000;
  }

  /** The SDK's `fromWei(wei, 18)`. */
  function FromWei(wei: nat): string {
    FromUnits(wei, Decimals)
  }

  /** Converting the rendering of a wei amount back gives the same amount. */
  lemma FromWeiRoundTrip(wei: nat)
    ensures ParseNumeral(FromWei(wei)).Some?
    ensures |ParseNumeral(FromWei(wei)).value.fraction| <= Decimals
    ensures ToWei(FromWei(wei)) == Some(wei)
  {
    FromUnitsRoundTrip(wei, Decimals);
  }
}
