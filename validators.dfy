/**
 * The transfer screen's pure checks on what the user typed: the shape of
 * the recipient address, the amount numeral and its positivity, blank text
 * after trimming, and the guard that the amount fits in the balance.
 */
module Validators {
  import opened Wrappers
  import opened Units

  predicate IsHexDigit(c: char) {
    IsDigit(c) || 'a' <= c <= 'f' || 'A' <= c <= 'F'
  }

  /** The `[a-fA-F0-9]{n}` part of the address pattern: exactly `n` hexadecimal digits. */
  predicate HexRun(s: string, n: nat)
    decreases n
  {
    if n == 0 then s == [] else s != [] && IsHexDigit(s[0]) && HexRun(s[1..], n - 1)
  }

  /** Hexadecimal digits after the `0x` prefix of an address. */
  const AddressHexDigits: nat := 40

  /** `isValidAddress`: the text matches `^0x[a-fA-F0-9]{40}$`; no checksum is checked. */
  predicate IsValidAddress(s: string) {
    |s| >= 2 && s[0] == '0' && s[1] == 'x' && HexRun(s[2..], AddressHexDigits)
  }

  lemma {:induction false} HexRunIff(s: string, n: nat)
    ensures HexRun(s, n) <==> |s| == n && forall i :: 0 <= i < |s| ==> IsHexDigit(s[i])
    decreases n
  {
    if n > 0 && s != [] {
      HexRunIff(s[1..], n - 1);
      assert forall i :: 0 <= i < |s| - 1 ==> s[1..][i] == s[i + 1];
      if forall i :: 0 <= i < |s| - 1 ==> IsHexDigit(s[1..][i]) {
        if IsHexDigit(s[0]) {
          forall i | 0 <= i < |s| ensures IsHexDigit(s[i]) {
            if i > 0 {
              assert s[i] == s[1..][i - 1];
            }
          }
        }
      }
    }
  }

  /** An address is `0x` followed by exactly 40 hexadecimal digits of either case, and nothing else. */
  lemma IsValidAddressIff(s: string)
    ensures IsValidAddress(s) <==>
      |s| == 2 + AddressHexDigits && s[..2] == "0x" && forall i :: 2 <= i < |s| ==> IsHexDigit(s[i])
  {
    if |s| >= 2 {
      HexRunIff(s[2..], AddressHexDigits);
      assert forall i :: 2 <= i < |s| ==> s[i] == s[2..][i - 2];
      if s[..2] == "0x" {
        assert s[0] == s[..2][0] && s[1] == s[..2][1];
      }
      if s[0] == '0' && s[1] == 'x' {
        assert s[..2] == "0x";
      }
    }
  }

  /** What `^\d*\.?\d*$` is meant to accept: only digits and at most one '.'. */
  predicate DigitsAndOnePoint(s: string) {
    && (forall i :: 0 <= i < |s| ==> IsDigit(s[i]) || s[i] == '.')
    && (forall i, j :: 0 <= i < j < |s| && s[i] == '.' ==> s[j] != '.')
  }

  /** The numeral grammar accepts a text exactly when it has only digits and at most one point. */
  lemma ParseNumeralIff(s: string)
    ensures ParseNumeral(s).Some? <==> DigitsAndOnePoint(s)
  {
    var k := LeadingDigits(s);
    ParseNumeralSound(s);
    LeadingDigitsSpec(s);
    if ParseNumeral(s).Some? {
      var n := ParseNumeral(s).value;
      if n.hasPoint {
        assert s == n.whole + "." + n.fraction;
        forall i, j | 0 <= i < j < |s| && s[i] == '.' ensures s[j] != '.' {
          assert i == |n.whole|;
          assert s[j] == n.fraction[j - |n.whole| - 1];
        }
      } else {
        assert s == n.whole + [] + [];
      }
    }
    if DigitsAndOnePoint(s) && k < |s| {
      assert s[k] == '.';
      var rest := s[k + 1..];
      forall i | 0 <= i < |rest| ensures IsDigit(rest[i]) {
        assert rest[i] == s[k + 1 + i];
      }
    }
  }

  /** JavaScript's `Number(text)` on a numeral: `None` is NaN (a lone "."); otherwise mantissa / 10^scale. */
  datatype Decimal = Decimal(mantissa: nat, scale: nat)

  function JsNumber(n: Numeral): Option<Decimal> {
    if n.whole == [] && n.fraction == [] && n.hasPoint then None
    else Some(Decimal(Mantissa(n), |n.fraction|))
  }

  /** `isValidAmount`: the text matches `^\d*\.?\d*$` and `Number(text) > 0`. */
  predicate IsValidAmount(s: string) {
    match ParseNumeral(s)
    case None => false
    case Some(n) =>
      match JsNumber(n)
      case None => false
      case Some(d) => d.mantissa > 0
  }

  /** The point of a numeral neither adds nor hides a non-zero digit. */
  lemma NonZeroDigitOfText(n: Numeral)
    ensures HasNonZeroDigit(n.Text()) <==> HasNonZeroDigit(n.whole + n.fraction)
  {
    var s, m := n.Text(), n.whole + n.fraction;
    var p := if n.hasPoint then 1 else 0;
    assert |s| == |m| + p;
    assert forall i :: 0 <= i < |n.whole| ==> s[i] == m[i];
    assert forall i :: |n.whole| <= i < |m| ==> s[i + p] == m[i];
    if HasNonZeroDigit(s) {
      var i :| 0 <= i < |s| && IsDigit(s[i]) && s[i] != '0';
      if i < |n.whole| {
        assert m[i] == s[i];
      } else {
        assert n.hasPoint ==> i > |n.whole|;
        assert m[i - p] == s[i];
      }
    }
    if HasNonZeroDigit(m) {
      var i :| 0 <= i < |m| && IsDigit(m[i]) && m[i] != '0';
      if i < |n.whole| {
        assert s[i] == m[i];
      } else {
        assert s[i + p] == m[i];
      }
    }
  }

  /**
   * An amount is valid exactly when it has only digits and at most one point
   * and some digit is not zero: "", ".", "0" and "0.0" are rejected, ".5" accepted.
   */
  lemma IsValidAmountIff(s: string)
    ensures IsValidAmount(s) <==> DigitsAndOnePoint(s) && HasNonZeroDigit(s)
  {
    ParseNumeralIff(s);
    ParseNumeralSound(s);
    if ParseNumeral(s).Some? {
      var n := ParseNumeral(s).value;
      NonZeroDigitOfText(n);
      DigitsValueAppend(n.whole, n.fraction);
      DigitsValuePositive(n.whole + n.fraction);
      if n.whole == [] && n.fraction == [] {
        assert n.whole + n.fraction == [];
      }
    }
  }

  /** Examples: the empty text, a lone point, a sign and zero are rejected. */
  lemma RejectedAmounts(s: string)
    requires s in {"", ".", "-1", "0", "0.0"}
    ensures !IsValidAmount(s)
  {
    if s == "0" {
      var n := Numeral("0", "", false);
      assert n.Text() == s;
      ParseNumeralOfText(n);
      assert Mantissa(n) == 0 by { assert n.whole + n.fraction == "0"; }
    } else if s == "0.0" {
      var n := Numeral("0", "0", true);
      assert n.Text() == s;
      ParseNumeralOfText(n);
      assert Mantissa(n) == 0 by {
        assert n.whole + n.fraction == "00";
        assert "00"[..1] == "0";
      }
    }
  }

  /** Examples: a fraction without whole digits, and an ordinary decimal, are accepted. */
  lemma AcceptedAmounts(s: string)
    requires s in {".5", "1.5"}
    ensures IsValidAmount(s)
  {
    if s == ".5" {
      var n := Numeral("", "5", true);
      assert n.Text() == s;
      ParseNumeralOfText(n);
      assert Mantissa(n) == 5 by { assert n.whole + n.fraction == "5"; }
    } else {
      var n := Numeral("1", "5", true);
      assert n.Text() == s;
      ParseNumeralOfText(n);
      assert Mantissa(n) == 15 by {
        assert n.whole + n.fraction == "15";
        assert "15"[..1] == "1";
      }
    }
  }

  /** The characters `String.prototype.trim` removes: ECMAScript white space and line terminators. */
  predicate IsJsWhitespace(c: char) {
    || c == '\t' || c == '\n' || c == '\U{B}' || c == '\U{C}' || c == '\r' || c == ' '
    || c == '\U{A0}' || c == '\U{1680}' || ('\U{2000}' <= c <= '\U{200A}')
    || c == '\U{2028}' || c == '\U{2029}' || c == '\U{202F}' || c == '\U{205F}'
    || c == '\U{3000}' || c == '\U{FEFF}'
  }

  /** `trimStart`: drops leading white space. */
  function TrimStart(s: string): string {
    if s != [] && IsJsWhitespace(s[0]) then TrimStart(s[1..]) else s
  }

  /** `trimEnd`: drops trailing white space. */
  function TrimEnd(s: string): string {
    if s != [] && IsJsWhitespace(s[|s| - 1]) then TrimEnd(s[..|s| - 1]) else s
  }

  /** `String.prototype.trim`. */
  function Trim(s: string): string {
    TrimEnd(TrimStart(s))
  }

  /** TrimStart removes a prefix of white space and stops at the first other character. */
  lemma {:induction false} TrimStartSpec(s: string)
    ensures var r := TrimStart(s);
      && |r| <= |s| && r == s[|s| - |r|..]
      && (forall i :: 0 <= i < |s| - |r| ==> IsJsWhitespace(s[i]))
      && (r == [] || !IsJsWhitespace(r[0]))
  {
    if s != [] && IsJsWhitespace(s[0]) {
      TrimStartSpec(s[1..]);
      var r := TrimStart(s);
      forall i | 0 < i < |s| - |r| ensures IsJsWhitespace(s[i]) {
        assert s[i] == s[1..][i - 1];
      }
    }
  }

  /** TrimEnd removes a suffix of white space and stops at the last other character. */
  lemma {:induction false} TrimEndSpec(s: string)
    ensures var r := TrimEnd(s);
      && |r| <= |s| && r == s[..|r|]
      && (forall i :: |r| <= i < |s| ==> IsJsWhitespace(s[i]))
      && (r == [] || !IsJsWhitespace(r[|r| - 1]))
  {
    if s != [] && IsJsWhitespace(s[|s| - 1]) {
      TrimEndSpec(s[..|s| - 1]);
      var r := TrimEnd(s);
      forall i | |r| <= i < |s| - 1 ensures IsJsWhitespace(s[i]) {
        assert s[i] == s[..|s| - 1][i];
      }
    }
  }

  predicate IsBlank(s: string) {
    forall i :: 0 <= i < |s| ==> IsJsWhitespace(s[i])
  }

  /** `!text.trim()` holds exactly when every character of the text is white space. */
  lemma TrimEmptyIff(s: string)
    ensures Trim(s) == "" <==> IsBlank(s)
  {
    var t := TrimStart(s);
    TrimStartSpec(s);
    TrimEndSpec(t);
  }

  /** A valid address is never blank, so the address check subsumes the emptiness check. */
  lemma ValidAddressNotBlank(s: string)
    requires IsValidAddress(s)
    ensures Trim(s) != ""
  {
    TrimEmptyIff(s);
    assert !IsJsWhitespace(s[0]);
  }

  /** A valid amount is never blank, so the amount check subsumes the emptiness check. */
  lemma ValidAmountNotBlank(s: string)
    requires IsValidAmount(s)
    ensures Trim(s) != ""
  {
    IsValidAmountIff(s);
    NonZeroDigitNotBlank(s);
    TrimEmptyIff(s);
  }

  lemma NonZeroDigitNotBlank(s: string)
    requires HasNonZeroDigit(s)
    ensures !IsBlank(s)
  {
    var i :| 0 <= i < |s| && IsDigit(s[i]) && s[i] != '0';
    assert !IsJsWhitespace(s[i]);
  }

  /** The wallet SDK's balance: the value in wei and its rendering as token text. */
  datatype Balance = Balance(value: nat, displayValue: string)

  /**
   * `hasSufficientBalance`: false without a balance or with an empty amount,
   * false when the conversion throws, otherwise `toWei(amount) <= balance.value`.
   */
  predicate HasSufficientBalance(amount: string, balance: Option<Balance>) {
    if balance.None? || amount == "" then false
    else
      match ToWei(amount)
      case None => false
      case Some(wei) => wei <= balance.value.value
  }

  lemma ScaleMonotone(a: int, b: int, c: int)
    requires c > 0
    ensures a <= b <==> a * c <= b * c
  {
  }

  /**
   * For an amount with at most 18 fractional digits the guard compares exact
   * values: the amount (Mantissa / 10^scale tokens) is at most the balance
   * (value / 10^18 tokens).  Without a balance, or with empty text, it fails.
   */
  lemma SufficientBalanceExact(amount: string, balance: Option<Balance>)
    requires ParseNumeral(amount).Some? && |ParseNumeral(amount).value.fraction| <= Decimals
    ensures var n := ParseNumeral(amount).value;
      HasSufficientBalance(amount, balance) <==>
        && balance.Some? && amount != ""
        && Mantissa(n) * Pow10(Decimals) <= balance.value.value * Pow10(|n.fraction|)
  {
    var n := ParseNumeral(amount).value;
    ToWeiExact(amount);
    if balance.Some? && amount != "" {
      var w, c := ToWei(amount).value, Pow10(|n.fraction|);
      assert HasSufficientBalance(amount, balance) <==> w <= balance.value.value;
      assert w * c == Mantissa(n) * Pow10(Decimals);
      ScaleMonotone(w, balance.value.value, c);
    }
  }

  lemma PositiveScaled(x: int, a: int, y: int, b: int)
    requires x >= 0 && y >= 0 && a >= 1 && b >= 1 && x * a == y * b
    ensures x > 0 <==> y > 0
  {
  }

  /**
   * For an amount with at most 18 fractional digits, `isValidAmount` agrees
   * with the conversion: the amount is valid exactly when it is a positive number of wei.
   */
  lemma ValidAmountIffPositiveWei(amount: string)
    requires ParseNumeral(amount).Some? && |ParseNumeral(amount).value.fraction| <= Decimals
    ensures ToWei(amount).Some?
    ensures IsValidAmount(amount) <==> ToWei(amount).value > 0
  {
    var n := ParseNumeral(amount).value;
    assert IsValidAmount(amount) <==> Mantissa(n) > 0 by {
      if n.whole == [] && n.fraction == [] {
        assert n.whole + n.fraction == [];
      }
    }
    ToWeiExact(amount);
    PositiveScaled(ToWei(amount).value, Pow10(|n.fraction|), Mantissa(n), Pow10(Decimals));
  }

  /** One token of balance covers "1.0": the amount is exactly one token. */
  lemma OneTokenCoversOne(amount: string)
    requires amount == "1.0"
    ensures HasSufficientBalance(amount, Some(Balance(WeiPerToken, "1")))
  {
    var n := Numeral("1", "0", true);
    assert Mantissa(n) == 10 by {
      assert n.whole + n.fraction == "10";
      assert "10"[..1] == "1";
    }
    assert n.Text() == amount;
    ParseNumeralOfText(n);
    WeiPerTokenValue();
    SufficientBalanceExact(amount, Some(Balance(WeiPerToken, "1")));
  }

  /** One token of balance does not cover "1.1": a tenth of a token more. */
  lemma OneTokenShortOfMore(amount: string)
    requires amount == "1.1"
    ensures !HasSufficientBalance(amount, Some(Balance(WeiPerToken, "1")))
  {
    var n := Numeral("1", "1", true);
    assert Mantissa(n) == 11 by {
      assert n.whole + n.fraction == "11";
      assert "11"[..1] == "1";
    }
    assert n.Text() == amount;
    ParseNumeralOfText(n);
    WeiPerTokenValue();
    SufficientBalanceExact(amount, Some(Balance(WeiPerToken, "1")));
  }
}
