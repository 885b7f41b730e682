/** The part of Python's `float(str)` that the conversion forms rely on: an
    optional sign, decimal digits and an optional fractional part, read left to
    right. */
module DecimalText {
  import opened Wrappers

  predicate IsDigit(c: char) {
    '0' <= c <= '9'
  }

  predicate AllDigits(s: string) {
    forall i :: 0 <= i < |s| ==> IsDigit(s[i])
  }

  function DigitValue(c: char): (d: nat)
    requires IsDigit(c)
    ensures d <= 9
  {
    (c as int) - ('0' as int)
  }

  /** The natural number a string of decimal digits denotes (the empty string denotes 0). */
  function DigitsValue(s: string): (d: nat)
    requires AllDigits(s)
  {
    if |s| == 0 then 0 else DigitsValue(s[..|s| - 1]) * 10 + DigitValue(s[|s| - 1])
  }

  function Pow10(n: nat): (r: nat)
    ensures r >= 1
  {
    if n == 0 then 1 else 10 * Pow10(n - 1)
  }

  /** Reads the whole part from position `i`: `whole` is the value of the digits read so
      far and `seen` records whether there was any. A '.' hands over to the fraction. */
  function ScanWhole(s: string, i: nat, whole: nat, seen: bool): (r: Option<real>)
    ensures r.Some? ==> r.value >= 0.0
    ensures r.Some? ==> seen || i < |s|
    decreases |s| - i
  {
    if i >= |s| then
      if seen then Some(whole as real) else None
    else if IsDigit(s[i]) then
      ScanWhole(s, i + 1, whole * 10 + DigitValue(s[i]), true)
    else if s[i] == '.' then
      ScanFraction(s, i + 1, whole, 0, 0, seen)
    else
      None
  }

  /** Reads the fractional digits from position `i`: `fraction` is their value so far,
      `places` their number. Any character other than a digit is rejected. */
  function ScanFraction(s: string, i: nat, whole: nat, fraction: nat, places: nat, seen: bool): (r: Option<real>)
    ensures r.Some? ==> r.value >= 0.0
    ensures r.Some? ==> seen || i < |s|
    decreases |s| - i
  {
    if i >= |s| then
      if seen then Some(whole as real + fraction as real / Pow10(places) as real) else None
    else if IsDigit(s[i]) then
      ScanFraction(s, i + 1, whole, fraction * 10 + DigitValue(s[i]), places + 1, true)
    else
      None
  }

  /** An unsigned decimal literal: digits, optionally a '.' and more digits, with at
      least one digit in all. */
  function ParseUnsigned(s: string): (r: Option<real>)
    ensures r.Some? ==> r.value >= 0.0
    ensures r.Some? ==> |s| > 0
  {
    ScanWhole(s, 0, 0, false)
  }

  /** `float(s)` on a string: `None` is the ValueError Python raises. */
  function ParseFloat(s: string): (r: Option<real>)
    ensures r.Some? ==> |s| > 0
    ensures |s| > 0 && s[0] != '-' && r.Some? ==> r.value >= 0.0
  {
    if |s| > 0 && s[0] == '-' then
      match ParseUnsigned(s[1..])
      case Some(x) => Some(-x)
      case None => None
    else if |s| > 0 && s[0] == '+' then
      ParseUnsigned(s[1..])
    else
      ParseUnsigned(s)
  }

  /** The decimal numeral of a natural number, as Python's `str` writes it. */
  function NatToDecimal(n: nat): (s: string)
    ensures |s| > 0 && AllDigits(s)
  {
    var last := ['0' + (n % 10) as char];
    if n < 10 then last else NatToDecimal(n / 10) + last
  }

  lemma {:induction false} NatToDecimalValue(n: nat)
    ensures DigitsValue(NatToDecimal(n)) == n
  {
    var last := ['0' + (n % 10) as char];
    if n >= 10 {
      var s := NatToDecimal(n);
      NatToDecimalValue(n / 10);
      assert s[..|s| - 1] == NatToDecimal(n / 10);
      assert s[|s| - 1] == last[0];
    }
  }

  lemma ShiftDigit(whole: nat, scale: nat, value: nat, d: nat)
    ensures (whole * scale + value) * 10 + d == whole * (10 * scale) + (value * 10 + d)
  {
  }

  /** Scanning a block of digits in the whole part multiplies what was read by ten
      per digit and adds the block's value. */
  lemma {:induction false} ScanDigitBlock(s: string, i: nat, whole: nat, seen: bool, block: nat)
    requires i + block <= |s| && AllDigits(s[i..i + block])
    ensures ScanWhole(s, i, whole, seen)
      == ScanWhole(s, i + block, whole * Pow10(block) + DigitsValue(s[i..i + block]), seen || block > 0)
    decreases block
  {
    if block > 0 {
      var prefix := s[i..i + block - 1];
      assert s[i..i + block][..block - 1] == prefix;
      assert AllDigits(prefix) by {
        forall k | 0 <= k < |prefix| ensures IsDigit(prefix[k]) {
          assert prefix[k] == s[i..i + block][k];
        }
      }
      ScanDigitBlock(s, i, whole, seen, block - 1);
      var before := whole * Pow10(block - 1) + DigitsValue(prefix);
      assert s[i + block - 1] == s[i..i + block][block - 1];
      var d := DigitValue(s[i + block - 1]);
      assert DigitsValue(s[i..i + block]) == DigitsValue(prefix) * 10 + d;
      ShiftDigit(whole, Pow10(block - 1), DigitsValue(prefix), d);
    }
  }

  /** Scanning a block of fractional digits multiplies the fraction read so far by ten
      per digit, adds the block's value and counts the block's places. */
  lemma {:induction false} ScanFractionBlock(s: string, i: nat, whole: nat, fraction: nat, places: nat, seen: bool, block: nat)
    requires i + block <= |s| && AllDigits(s[i..i + block])
    ensures ScanFraction(s, i, whole, fraction, places, seen)
      == ScanFraction(s, i + block, whole, fraction * Pow10(block) + DigitsValue(s[i..i + block]), places + block, seen || block > 0)
    decreases block
  {
    if block > 0 {
      var prefix := s[i..i + block - 1];
      assert s[i..i + block][..block - 1] == prefix;
      assert AllDigits(prefix) by {
        forall k | 0 <= k < |prefix| ensures IsDigit(prefix[k]) {
          assert prefix[k] == s[i..i + block][k];
        }
      }
      ScanFractionBlock(s, i, whole, fraction, places, seen, block - 1);
      assert s[i + block - 1] == s[i..i + block][block - 1];
      var d := DigitValue(s[i + block - 1]);
      assert DigitsValue(s[i..i + block]) == DigitsValue(prefix) * 10 + d;
      ShiftDigit(fraction, Pow10(block - 1), DigitsValue(prefix), d);
    }
  }

  /** The value of a whole part followed by a fractional part, read by the scanner. */
  function DecimalValue(whole: nat, digits: string): (r: real)
    requires AllDigits(digits)
    ensures r >= whole as real
  {
    whole as real + DigitsValue(digits) as real / Pow10(|digits|) as real
  }

  /** The value of an unsigned literal with a whole part and a fractional part. */
  lemma UnsignedDecimal(whole: nat, digits: string)
    requires AllDigits(digits)
    ensures ParseUnsigned(NatToDecimal(whole) + "." + digits) == Some(DecimalValue(whole, digits))
  {
    var w := NatToDecimal(whole);
    var s := w + "." + digits;
    var n := |w|;
    NatToDecimalValue(whole);
    assert s[0..n] == w;
    ScanDigitBlock(s, 0, 0, false, n);
    assert ScanWhole(s, 0, 0, false) == ScanWhole(s, n, whole, true);
    assert s[n] == '.';
    assert ScanWhole(s, n, whole, true) == ScanFraction(s, n + 1, whole, 0, 0, true);
    assert s[n + 1..n + 1 + |digits|] == digits;
    ScanFractionBlock(s, n + 1, whole, 0, 0, true, |digits|);
  }

  /** The value `float()` gives a decimal literal with a whole part and a fractional
      part (possibly empty, as in "5."): the whole part plus the fractional digits
      over a power of ten; with a leading '-' the negation, with a leading '+' the same. */
  lemma ParseDecimal(whole: nat, digits: string)
    requires AllDigits(digits)
    ensures ParseFloat(NatToDecimal(whole) + "." + digits) == Some(DecimalValue(whole, digits))
    ensures ParseFloat("-" + NatToDecimal(whole) + "." + digits) == Some(-DecimalValue(whole, digits))
    ensures ParseFloat("+" + NatToDecimal(whole) + "." + digits) == Some(DecimalValue(whole, digits))
  {
    var s := NatToDecimal(whole) + "." + digits;
    UnsignedDecimal(whole, digits);
    assert s[0] == NatToDecimal(whole)[0];
    assert ("-" + NatToDecimal(whole) + "." + digits)[1..] == s;
    assert ("+" + NatToDecimal(whole) + "." + digits)[1..] == s;
  }

  /** `float("1.25")` is 1.25, `float("-0.5")` is -0.5 and `float("5.")` is 5. */
  lemma ParseDecimalExamples()
    ensures ParseFloat("1.25") == Some(1.25)
    ensures ParseFloat("-0.5") == Some(-0.5)
    ensures ParseFloat("5.") == Some(5.0)
  {
    ParseDecimal(1, "25");
    ParseDecimal(0, "5");
    ParseDecimal(5, "");
  }

  /** Round trip: every natural number written in decimal parses back to itself. */
  lemma ParseNatToDecimal(n: nat)
    ensures ParseFloat(NatToDecimal(n)) == Some(n as real)
  {
    var s := NatToDecimal(n);
    NatToDecimalValue(n);
    assert s[0..|s|] == s;
    ScanDigitBlock(s, 0, 0, false, |s|);
  }
}
