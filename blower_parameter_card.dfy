/**
 * The blower parameter card (app/components/blowerParameterCard.tsx): integer
 * wire values shown as `(n / 100).toFixed(2)` (frequency, current) and
 * `(n / 10).toFixed(1)` (voltage), each with its unit, or "N/A" when no
 * parameters are known. For an integer n, `(n / 10^k).toFixed(k)` is the
 * exact decimal of n/10^k with k fraction digits (ECMA-262 section 21.1.3.3),
 * a `-` in front when n is negative.
 */
module BlowerParameterCard {
  import opened Wrappers
  import opened Types
  import opened Decimal
  import BlowerCard

  /** `(n / 10^k).toFixed(k)` for an integer `n`. */
  function FormatFixed(n: int, k: nat): string
    requires 1 <= k
  {
    (if n < 0 then "-" else "") + FixedDigits(Abs(n), k)
  }

  function Abs(n: int): nat {
    if n < 0 then -n else n
  }

  /** `m / 10^k` written out with `k` fraction digits. */
  function FixedDigits(m: nat, k: nat): string {
    var p := Pow10(k);
    DivMod(m, p);
    NatToString(m / p) + "." + PadDigits(m % p, k)
  }

  lemma DivMod(m: nat, p: nat)
    requires 1 <= p
    ensures 0 <= m % p < p && 0 <= m / p && (m / p) * p + m % p == m
  {
  }

  function FormatFrequency(n: int): string {
    FormatFixed(n, 2)
  }

  function FormatAmpere(n: int): string {
    FormatFixed(n, 2)
  }

  function FormatVoltage(n: int): string {
    FormatFixed(n, 1)
  }

  /** The three value lines of the card. */
  function Render(parameters: Option<BlowerParameters>): (lines: (string, string, string))
    ensures parameters.None? ==> lines == ("N/A", "N/A", "N/A")
    ensures parameters.Some? ==>
              && lines.0 == FormatFrequency(parameters.value.frequency) + " Hz"
              && lines.1 == FormatAmpere(parameters.value.ampere) + " A"
              && lines.2 == FormatVoltage(parameters.value.voltage) + " V"
  {
    match parameters
    case None => ("N/A", "N/A", "N/A")
    case Some(p) =>
      (FormatFrequency(p.frequency) + " Hz", FormatAmpere(p.ampere) + " A", FormatVoltage(p.voltage) + " V")
  }

  /** The text with every `.` removed. */
  function WithoutDots(s: string): string {
    if s == [] then [] else (if s[0] == '.' then [] else [s[0]]) + WithoutDots(s[1..])
  }

  lemma {:induction false} WithoutDotsAppend(a: string, b: string)
    ensures WithoutDots(a + b) == WithoutDots(a) + WithoutDots(b)
  {
    if a != [] {
      assert (a + b)[1..] == a[1..] + b;
      WithoutDotsAppend(a[1..], b);
    } else {
      assert a + b == b;
    }
  }

  lemma {:induction false} WithoutDotsOfDigits(d: string)
    requires AllDigits(d)
    ensures WithoutDots(d) == d
  {
    if d != [] {
      WithoutDotsOfDigits(d[1..]);
      assert [d[0]] + d[1..] == d;
    }
  }

  /** The two digit groups of `FixedDigits(m, k)`: the quotient and the remainder by 10^k. */
  lemma FixedDigitsParts(m: nat, k: nat) returns (q: nat, r: nat)
    ensures r < Pow10(k) && q * Pow10(k) + r == m
    ensures FixedDigits(m, k) == NatToString(q) + "." + PadDigits(r, k)
  {
    DivMod(m, Pow10(k));
    q, r := m / Pow10(k), m % Pow10(k);
  }

  /** Deleting the `.` between two digit runs leaves both runs side by side. */
  lemma DotJoin(whole: string, frac: string)
    requires AllDigits(whole) && AllDigits(frac)
    ensures WithoutDots(whole + "." + frac) == whole + frac
  {
    var dotFrac := "." + frac;
    assert whole + "." + frac == whole + dotFrac;
    WithoutDotsAppend(whole, dotFrac);
    WithoutDotsOfDigits(whole);
    WithoutDotsDot(frac);
  }

  lemma WithoutDotsDot(frac: string)
    requires AllDigits(frac)
    ensures WithoutDots("." + frac) == frac
  {
    var dotFrac := "." + frac;
    assert dotFrac[0] == '.';
    assert dotFrac[1..] == frac;
    WithoutDotsOfDigits(frac);
  }

  /** Deleting the `.` leaves a run of digits worth `m`. */
  lemma FixedDigitsWithoutDot(m: nat, k: nat)
    ensures AllDigits(WithoutDots(FixedDigits(m, k)))
    ensures 0 < |WithoutDots(FixedDigits(m, k))|
    ensures DigitsValue(WithoutDots(FixedDigits(m, k))) == m
  {
    var q, r := FixedDigitsParts(m, k);
    var whole, frac := NatToString(q), PadDigits(r, k);
    DotJoin(whole, frac);
    DigitsValueAppend(whole, frac);
    DigitsValueOfNatToString(q);
    DigitsValueOfPadDigits(r, k);
  }

  /** Round trip: with the `.` deleted, the text reads back as the wire value. */
  lemma FormatFixedRoundTrip(n: int, k: nat)
    requires 1 <= k
    ensures ParseInt(WithoutDots(FormatFixed(n, k))) == Some(n)
  {
    var digits := WithoutDots(FixedDigits(Abs(n), k));
    FixedDigitsWithoutDot(Abs(n), k);
    if n < 0 {
      WithoutDotsAppend("-", FixedDigits(Abs(n), k));
      assert WithoutDots("-") == "-";
      var t := "-" + digits;
      assert t[1..] == digits;
    } else {
      assert FormatFixed(n, k) == FixedDigits(Abs(n), k);
      assert digits[0] != '-' by { assert IsDigit(digits[0]); }
    }
  }

  lemma FrequencyRoundTrip(n: int)
    ensures ParseInt(WithoutDots(FormatFrequency(n))) == Some(n)
  {
    FormatFixedRoundTrip(n, 2);
  }

  lemma VoltageRoundTrip(n: int)
    ensures ParseInt(WithoutDots(FormatVoltage(n))) == Some(n)
  {
    FormatFixedRoundTrip(n, 1);
  }

  /** The displayed frequency, typed back into the blower card, sends the same wire value. */
  lemma FrequencyDisplayFeedsBack(n: nat)
    requires n < BlowerCard.ExactWholeLimit * 100
    ensures BlowerCard.HandleFrequencySubmit(FormatFrequency(n)) == BlowerCard.Callback(n)
  {
    var whole := NatToString(n / 100);
    var frac := PadDigits(n % 100, 2);
    assert Pow10(2) == 100;
    assert FormatFrequency(n) == whole + "." + frac;
    DigitsValueOfNatToString(n / 100);
    DigitsValueOfPadDigits(n % 100, 2);
    assert DigitsValue(whole) < BlowerCard.ExactWholeLimit;
    assert BlowerCard.Hundredths(whole, frac) == n;
    BlowerCard.SubmitHundredths(whole, frac);
  }

  lemma FormatExamples()
    ensures FormatFrequency(5000) == "50.00"
    ensures FormatFrequency(-5) == "-0.05"
    ensures FormatVoltage(2305) == "230.5"
  {
    assert Pow10(2) == 100 && Pow10(1) == 10;
    assert NatToString(50) == "50";
    assert PadDigits(0, 2) == "00";
    assert NatToString(0) == "0";
    assert PadDigits(5, 2) == "05";
    assert NatToString(230) == "230";
    assert PadDigits(5, 1) == "5";
  }
}
