/**
 * The blower card (app/components/blowerCard.tsx): the status line, which of
 * the On/Off buttons is disabled, and the frequency field, whose text is read
 * with `parseFloat`, refused when NaN or negative, and otherwise sent as
 * `Math.round(value * 100)` wire units.
 *
 * `parseFloat` is modelled exactly on the lexical level (leading white space,
 * sign, digits, fraction, `Infinity`, the longest valid prefix); the number is
 * computed exactly only for at most two fraction digits and an integer part
 * below 10^13, where the double arithmetic of the source is exact too.
 */
module BlowerCard {
  import opened Wrappers
  import opened Types
  import opened Decimal

  /** `deviceStatus?.deviceId || "N/A"`. */
  function DeviceIdText(ds: Option<DeviceStatus>): (text: string)
    ensures ds.Some? && ds.value.deviceId != "" ==> text == ds.value.deviceId
    ensures ds.None? || ds.value.deviceId == "" ==> text == "N/A"
  {
    TextOr(if ds.Some? then Some(ds.value.deviceId) else None, "N/A")
  }

  /** "Turn On" is disabled when the blower already reports ON. */
  predicate TurnOnDisabled(ds: Option<DeviceStatus>) {
    ds.Some? && ds.value.status == "ON"
  }

  /** "Turn Off" is disabled when the blower already reports OFF. */
  predicate TurnOffDisabled(ds: Option<DeviceStatus>) {
    ds.Some? && ds.value.status == "OFF"
  }

  /** StrWhiteSpaceChar of ECMA-262: white space and line terminators. */
  predicate IsStrWhiteSpace(c: char) {
    var x := c as int;
    x == 0x09 || x == 0x0A || x == 0x0B || x == 0x0C || x == 0x0D || x == 0x20 || x == 0xA0
    || x == 0x1680 || (0x2000 <= x <= 0x200A) || x == 0x2028 || x == 0x2029 || x == 0x202F
    || x == 0x205F || x == 0x3000 || x == 0xFEFF
  }

  /** The leading StrWhiteSpace that `parseFloat` skips, removed. */
  function TrimStart(s: string): (t: string)
    ensures t == [] || !IsStrWhiteSpace(t[0])
    ensures |t| <= |s| && t == s[|s| - |t|..]
    ensures forall i :: 0 <= i < |s| - |t| ==> IsStrWhiteSpace(s[i])
  {
    if s != [] && IsStrWhiteSpace(s[0]) then TrimStart(s[1..]) else s
  }

  /** The longest run of digits at the head of `s`. */
  function DigitRun(s: string): (d: string)
    ensures AllDigits(d) && d <= s
    ensures |d| < |s| ==> !IsDigit(s[|d|])
  {
    if s != [] && IsDigit(s[0]) then [s[0]] + DigitRun(s[1..]) else []
  }

  /** An exponent part (`e`/`E`, an optional sign, at least one digit) starts `s`. */
  predicate ExponentFollows(s: string) {
    2 <= |s| && (s[0] == 'e' || s[0] == 'E')
    && (IsDigit(s[1]) || (3 <= |s| && (s[1] == '+' || s[1] == '-') && IsDigit(s[2])))
  }

  /**
   * What `parseFloat` makes of a text: NaN, ±Infinity, or a decimal with
   * its sign, integer digits and fraction digits (`Scientific` when an
   * exponent follows, whose value is then not computed).
   */
  datatype FloatReading =
    | NaN
    | Infinite(negative: bool)
    | Finite(negative: bool, whole: string, fraction: string)
    | Scientific(negative: bool, whole: string, fraction: string)

  function ReadFloat(s: string): (r: FloatReading)
    ensures (r.Finite? || r.Scientific?) ==>
              AllDigits(r.whole) && AllDigits(r.fraction) && 0 < |r.whole| + |r.fraction|
  {
    var t := TrimStart(s);
    if t != [] && (t[0] == '-' || t[0] == '+') then ReadUnsigned(t[0] == '-', t[1..])
    else ReadUnsigned(false, t)
  }

  /** The reading of what follows the sign. */
  function ReadUnsigned(negative: bool, u: string): (r: FloatReading)
    ensures (r.Finite? || r.Scientific?) ==>
              AllDigits(r.whole) && AllDigits(r.fraction) && 0 < |r.whole| + |r.fraction|
              && r.negative == negative
  {
    if "Infinity" <= u then Infinite(negative)
    else
      var w := DigitRun(u);
      ReadAfterWhole(negative, w, u[|w|..])
  }

  /** The reading once the integer digits `w` are known, from what follows them. */
  function ReadAfterWhole(negative: bool, w: string, afterWhole: string): (r: FloatReading)
    requires AllDigits(w)
    ensures (r.Finite? || r.Scientific?) ==> r.whole == w && AllDigits(r.fraction) && r.negative == negative
  {
    if afterWhole != [] && afterWhole[0] == '.' then
      var f := DigitRun(afterWhole[1..]);
      ReadDigits(negative, w, f, afterWhole[1 + |f|..])
    else
      ReadDigits(negative, w, [], afterWhole)
  }

  /** The reading once the digits are known, from what follows them. */
  function ReadDigits(negative: bool, w: string, f: string, afterNumber: string): (r: FloatReading)
    requires AllDigits(w) && AllDigits(f)
    ensures (r.Finite? || r.Scientific?) ==>
              r.whole == w && r.fraction == f && 0 < |w| + |f| && r.negative == negative
  {
    if |w| + |f| == 0 then NaN
    else if ExponentFollows(afterNumber) then Scientific(negative, w, f)
    else Finite(negative, w, f)
  }

  predicate AllZero(s: string) {
    forall i :: 0 <= i < |s| ==> s[i] == '0'
  }

  /** The largest integer part whose hundredths are computed exactly. */
  const ExactWholeLimit: nat := 10_000_000_000_000

  /**
   * A negative decimal with a non-zero digit among its first 300 fraction
   * digits is at most -10^-300, far from the underflow to -0 of a double.
   */
  const UnderflowFreeDigits: nat := 300

  /** The first `UnderflowFreeDigits` fraction digits (all of them when there are fewer). */
  function Leading(f: string): (p: string)
    ensures p <= f && |p| <= UnderflowFreeDigits
    ensures |f| <= UnderflowFreeDigits ==> p == f
  {
    if |f| <= UnderflowFreeDigits then f else f[..UnderflowFreeDigits]
  }

  /**
   * Outcome of pressing "Set": no callback, a callback with wire units, a
   * callback with Infinity, or a value whose double arithmetic the model does
   * not follow.
   */
  datatype Submission = NoCallback | Callback(wire: int) | InfiniteCallback | BeyondModel

  /**
   * `handleFrequencySubmit`. A negative zero passes `>= 0` and is sent as 0;
   * a negative value small enough to round to -0 would pass too, which is
   * why a negative value whose first 300 fraction digits are all zero (and
   * whose integer part is zero) is beyond the model.
   */
  function HandleFrequencySubmit(input: string): (r: Submission)
    ensures r.Callback? ==> r.wire >= 0
    ensures ReadFloat(input).NaN? ==> r == NoCallback
    ensures ReadFloat(input).Infinite? ==> (r == NoCallback <==> ReadFloat(input).negative)
    ensures ReadFloat(input).Infinite? && !ReadFloat(input).negative ==> r == InfiniteCallback
    ensures var x := ReadFloat(input);
              x.Finite? && x.negative && !AllZero(x.whole) ==> r == NoCallback
    ensures var x := ReadFloat(input);
              x.Finite? && x.negative && !AllZero(x.whole + Leading(x.fraction)) ==> r == NoCallback
    ensures var x := ReadFloat(input);
              x.Finite? && !x.negative && |x.fraction| <= 2 && DigitsValue(x.whole) < ExactWholeLimit ==>
                r == Callback(Hundredths(x.whole, x.fraction))
  {
    match ReadFloat(input)
    case NaN => NoCallback
    case Infinite(negative) => if negative then NoCallback else InfiniteCallback
    case Scientific(negative, w, f) => BeyondModel
    case Finite(negative, w, f) =>
      LeadingNonZero(w, f);
      if negative && !AllZero(w + f) then
        if !AllZero(w) || !AllZero(Leading(f)) then NoCallback else BeyondModel
      else if |f| <= 2 && DigitsValue(w) < ExactWholeLimit then Callback(Hundredths(w, f))
      else BeyondModel
  }

  /** The number `w.f` counted in hundredths, for at most two fraction digits. */
  function Hundredths(w: string, f: string): nat
    requires AllDigits(w) && AllDigits(f) && |f| <= 2
  {
    DigitsValue(w) * 100 + DigitsValue(f) * Pow10(2 - |f|)
  }

  /** `Hundredths(w, f)` is exactly 100 times the decimal `w.f`, that is `(w * 10^|f| + f) / 10^|f|`. */
  lemma HundredthsExact(w: string, f: string)
    requires AllDigits(w) && AllDigits(f) && |f| <= 2
    ensures Hundredths(w, f) * Pow10(|f|) == (DigitsValue(w) * Pow10(|f|) + DigitsValue(f)) * 100
  {
    var n := |f|;
    assert Pow10(n) * Pow10(2 - n) == 100 by {
      assert Pow10(0) == 1 && Pow10(1) == 10 && Pow10(2) == 100;
    }
    RegroupHundredths(DigitsValue(w), DigitsValue(f), Pow10(n), Pow10(2 - n));
  }

  lemma RegroupHundredths(x: int, y: int, p: int, q: int)
    requires p * q == 100
    ensures (x * 100 + y * q) * p == (x * p + y) * 100
  {
    calc {
      (x * 100 + y * q) * p;
      x * 100 * p + y * (q * p);
      { assert q * p == 100; }
      (x * p + y) * 100;
    }
  }

  lemma DigitRunOfDigits(d: string, rest: string)
    requires AllDigits(d)
    requires rest == [] || !IsDigit(rest[0])
    ensures DigitRun(d + rest) == d
  {
    if d != [] {
      assert (d + rest)[1..] == d[1..] + rest;
      DigitRunOfDigits(d[1..], rest);
      assert [d[0]] + d[1..] == d;
    } else {
      assert d + rest == rest;
    }
  }

  /** A non-zero digit in `w` or the leading fraction digits is a non-zero digit of `w.f`. */
  lemma LeadingNonZero(w: string, f: string)
    ensures !AllZero(w) ==> !AllZero(w + f)
    ensures !AllZero(w + Leading(f)) ==> !AllZero(w + f) && (!AllZero(w) || !AllZero(Leading(f)))
  {
    var p := Leading(f);
    assert forall i :: 0 <= i < |w| ==> (w + f)[i] == w[i];
    assert forall i :: 0 <= i < |w| + |p| ==> (w + p)[i] == (w + f)[i];
    assert forall i :: 0 <= i < |p| ==> (w + p)[|w| + i] == p[i];
  }

  /** A text that starts with a dot or a digit is not `Infinity`. */
  lemma NotInfinity(u: string)
    requires u != [] && (u[0] == '.' || IsDigit(u[0]))
    ensures !("Infinity" <= u)
  {
    assert "Infinity"[0] == 'I';
  }

  /** White space in front of a text that does not start with white space is skipped, and only it. */
  lemma {:induction false} TrimWhiteSpace(ws: string, u: string)
    requires forall i :: 0 <= i < |ws| ==> IsStrWhiteSpace(ws[i])
    requires u == [] || !IsStrWhiteSpace(u[0])
    ensures TrimStart(ws + u) == u
  {
    if ws == [] {
      assert ws + u == u;
    } else {
      assert (ws + u)[1..] == ws[1..] + u;
      TrimWhiteSpace(ws[1..], u);
    }
  }

  /** What may follow a number without changing it: no further digit and no exponent. */
  predicate EndsNumber(rest: string) {
    (rest == [] || !IsDigit(rest[0])) && !ExponentFollows(rest)
  }

  /** The text after the sign, `w.f` and then something that ends the number, reads as `w.f`. */
  lemma ReadUnsignedDecimal(negative: bool, w: string, f: string, rest: string)
    requires AllDigits(w) && AllDigits(f) && 0 < |w| + |f|
    requires EndsNumber(rest)
    ensures ReadUnsigned(negative, w + "." + f + rest) == Finite(negative, w, f)
  {
    var tail := ['.'] + (f + rest);
    var u := w + tail;
    assert w + "." + f + rest == u;
    assert u[0] == '.' || IsDigit(u[0]) by {
      if w == [] { assert u[0] == '.'; } else { assert u[0] == w[0]; }
    }
    NotInfinity(u);
    DigitRunOfDigits(w, tail);
    assert u[|w|..] == tail;
    ReadFractionThenEnd(negative, w, f, rest);
  }

  /** After the integer digits, a dot, the fraction digits and an end of the number read as `w.f`. */
  lemma ReadFractionThenEnd(negative: bool, w: string, f: string, rest: string)
    requires AllDigits(w) && AllDigits(f) && 0 < |w| + |f|
    requires EndsNumber(rest)
    ensures ReadAfterWhole(negative, w, ['.'] + (f + rest)) == Finite(negative, w, f)
  {
    var tail := ['.'] + (f + rest);
    assert tail[1..] == f + rest;
    DigitRunOfDigits(f, rest);
    assert tail[1 + |f|..] == rest;
  }

  /** The text after the sign, digits `w` and then neither a dot nor anything that continues the number, reads as `w`. */
  lemma ReadUnsignedWhole(negative: bool, w: string, rest: string)
    requires AllDigits(w) && 0 < |w|
    requires EndsNumber(rest) && (rest == [] || rest[0] != '.')
    ensures ReadUnsigned(negative, w + rest) == Finite(negative, w, [])
  {
    var u := w + rest;
    assert u[0] == w[0];
    NotInfinity(u);
    DigitRunOfDigits(w, rest);
    assert u[|w|..] == rest;
  }

  /** A sign `parseFloat` accepts: none, `+` or `-`. */
  predicate IsSign(sign: string) {
    sign == "" || sign == "+" || sign == "-"
  }

  /** The reading of white space, a sign and the rest: the rest read with that sign. */
  lemma ReadFloatSigned(ws: string, sign: string, u: string)
    requires forall i :: 0 <= i < |ws| ==> IsStrWhiteSpace(ws[i])
    requires IsSign(sign)
    requires sign == "" ==> u == [] || (!IsStrWhiteSpace(u[0]) && u[0] != '+' && u[0] != '-')
    ensures ReadFloat(ws + sign + u) == ReadUnsigned(sign == "-", u)
  {
    var v := sign + u;
    assert ws + sign + u == ws + v;
    if sign == "" {
      assert v == u;
      TrimWhiteSpace(ws, v);
      ReadFloatUnsignedText(ws + v, v);
    } else {
      assert v[0] == sign[0] && !IsStrWhiteSpace(v[0]);
      TrimWhiteSpace(ws, v);
      assert v[1..] == u;
      ReadFloatSignedText(ws + v, v);
    }
  }

  /** Once trimmed, a text without a sign is read unsigned. */
  lemma ReadFloatUnsignedText(s: string, t: string)
    requires TrimStart(s) == t
    requires t == [] || (t[0] != '+' && t[0] != '-')
    ensures ReadFloat(s) == ReadUnsigned(false, t)
  {
  }

  /** Once trimmed, a text with a sign is read after the sign. */
  lemma ReadFloatSignedText(s: string, t: string)
    requires TrimStart(s) == t
    requires t != [] && (t[0] == '+' || t[0] == '-')
    ensures ReadFloat(s) == ReadUnsigned(t[0] == '-', t[1..])
  {
  }

  /**
   * `parseFloat` of white space, an optional sign, `w.f` (either digit run may
   * be empty, not both) and anything that does not continue the literal is
   * the decimal `w.f` with that sign.
   */
  lemma ReadFloatDecimal(ws: string, sign: string, w: string, f: string, rest: string)
    requires forall i :: 0 <= i < |ws| ==> IsStrWhiteSpace(ws[i])
    requires IsSign(sign)
    requires AllDigits(w) && AllDigits(f) && 0 < |w| + |f|
    requires EndsNumber(rest)
    ensures ReadFloat(ws + sign + w + "." + f + rest) == Finite(sign == "-", w, f)
  {
    var u := w + "." + f + rest;
    assert ws + sign + w + "." + f + rest == ws + sign + u;
    assert u[0] == '.' || IsDigit(u[0]) by {
      if w == [] { assert u[0] == '.'; } else { assert u[0] == w[0]; }
    }
    ReadFloatSigned(ws, sign, u);
    ReadUnsignedDecimal(sign == "-", w, f, rest);
  }

  /** The same without a dot: `parseFloat` of white space, an optional sign and digits `w` is `w`. */
  lemma ReadFloatWhole(ws: string, sign: string, w: string, rest: string)
    requires forall i :: 0 <= i < |ws| ==> IsStrWhiteSpace(ws[i])
    requires IsSign(sign)
    requires AllDigits(w) && 0 < |w|
    requires EndsNumber(rest) && (rest == [] || rest[0] != '.')
    ensures ReadFloat(ws + sign + w + rest) == Finite(sign == "-", w, [])
  {
    var u := w + rest;
    assert ws + sign + w + rest == ws + sign + u;
    assert u[0] == w[0];
    ReadFloatSigned(ws, sign, u);
    ReadUnsignedWhole(sign == "-", w, rest);
  }

  /**
   * `parseFloat` of white space, an optional sign and `Infinity`, whatever
   * follows, is the infinity of that sign.
   */
  lemma ReadFloatInfinity(ws: string, sign: string, rest: string)
    requires forall i :: 0 <= i < |ws| ==> IsStrWhiteSpace(ws[i])
    requires IsSign(sign)
    ensures ReadFloat(ws + sign + "Infinity" + rest) == Infinite(sign == "-")
  {
    var u := "Infinity" + rest;
    assert ws + sign + "Infinity" + rest == ws + sign + u;
    assert u[0] == 'I';
    ReadFloatSigned(ws, sign, u);
    assert "Infinity" <= u;
  }

  /** No numeric literal starts `u`: no digit, no dot before a digit, no `Infinity`. */
  predicate NoLiteral(u: string) {
    u == [] || (!IsDigit(u[0]) && !(u[0] == '.' && 2 <= |u| && IsDigit(u[1])) && !("Infinity" <= u))
  }

  /** Without a literal after the sign, the reading is NaN. */
  lemma ReadUnsignedNaN(negative: bool, u: string)
    requires NoLiteral(u)
    ensures ReadUnsigned(negative, u) == NaN
  {
    assert DigitRun(u) == [];
    assert u[0..] == u;
    if u != [] && u[0] == '.' {
      assert DigitRun(u[1..]) == [];
    }
  }

  /**
   * `parseFloat` of white space, an optional sign and a text that starts no
   * literal (the empty text, say, or a lone sign or dot) is NaN.
   */
  lemma ReadFloatNaN(ws: string, sign: string, u: string)
    requires forall i :: 0 <= i < |ws| ==> IsStrWhiteSpace(ws[i])
    requires IsSign(sign)
    requires sign == "" ==> u == [] || (!IsStrWhiteSpace(u[0]) && u[0] != '+' && u[0] != '-')
    requires NoLiteral(u)
    ensures ReadFloat(ws + sign + u) == NaN
  {
    ReadFloatSigned(ws, sign, u);
    ReadUnsignedNaN(sign == "-", u);
  }

  /** The field's initial empty text, a lone sign and a lone dot all send nothing. */
  lemma SubmitWithoutNumber(entry: string)
    requires entry == "" || entry == "-" || entry == "+" || entry == "."
    ensures HandleFrequencySubmit(entry) == NoCallback
  {
    var ws: string, u: string := [], [];
    if entry == "." {
      u := ".";
      assert entry == ws + "" + u;
      ReadFloatNaN(ws, "", u);
    } else {
      assert entry == ws + entry + u;
      ReadFloatNaN(ws, entry, u);
    }
  }

  /** A plain decimal with at most two fraction digits is sent as that many hundredths. */
  lemma SubmitHundredths(w: string, f: string)
    requires AllDigits(w) && AllDigits(f) && 0 < |w| && |f| <= 2
    requires DigitsValue(w) < ExactWholeLimit
    ensures HandleFrequencySubmit(w + "." + f) == Callback(Hundredths(w, f))
  {
    var s := w + "." + f;
    ReadPlainDecimal(w, f);
    SubmitOfReading(s);
  }

  /** `w.f` with nothing around it is read as the positive decimal `w.f`. */
  lemma ReadPlainDecimal(w: string, f: string)
    requires AllDigits(w) && AllDigits(f) && 0 < |w|
    ensures ReadFloat(w + "." + f) == Finite(false, w, f)
  {
    var ws: string, sign: string, rest: string := [], [], [];
    assert ws + sign + w + "." + f + rest == w + "." + f;
    ReadFloatDecimal(ws, sign, w, f, rest);
  }

  /** A positive reading with at most two fraction digits and an integer part below the limit is sent as its hundredths. */
  lemma SubmitOfReading(input: string)
    requires ReadFloat(input).Finite? && !ReadFloat(input).negative
    requires |ReadFloat(input).fraction| <= 2 && DigitsValue(ReadFloat(input).whole) < ExactWholeLimit
    ensures HandleFrequencySubmit(input) == Callback(Hundredths(ReadFloat(input).whole, ReadFloat(input).fraction))
  {
  }

  /** The digits of 3.5 are worth 350 hundredths. */
  lemma ThreeAndAHalfHundredths()
    ensures Hundredths("3", "5") == 350
  {
    var w, f := "3", "5";
    assert DigitsValue(w) == 3 && DigitsValue(f) == 5 by {
      assert w[..0] == [] && f[..0] == [];
    }
    assert Pow10(2 - |f|) == 10;
  }

  /** 3.5 Hz is sent as 350 wire units. */
  lemma SubmitThreeAndAHalf()
    ensures HandleFrequencySubmit("3.5") == Callback(350)
  {
    assert "3.5" == "3" + "." + "5";
    ThreeAndAHalfHundredths();
    SubmitHundredths("3", "5");
  }

  /** A negative entry sends nothing. */
  lemma SubmitMinusOne()
    ensures HandleFrequencySubmit("-1") == NoCallback
  {
    var t := "-1";
    assert !IsStrWhiteSpace(t[0]);
    assert TrimStart(t) == t;
    assert ReadFloat(t) == ReadUnsigned(true, "1");
    DigitRunOfDigits("1", []);
    assert "1" + [] == "1";
    assert "1"[1..] == [];
    assert ReadUnsigned(true, "1") == ReadDigits(true, "1", [], []);
    assert !AllZero("1" + []);
  }

  /** A text that is not a number sends nothing. */
  lemma SubmitNotANumber()
    ensures HandleFrequencySubmit("abc") == NoCallback
  {
    var x := "abc";
    assert !IsStrWhiteSpace(x[0]);
    assert TrimStart(x) == x;
    assert DigitRun(x) == [];
    assert ReadFloat(x) == ReadUnsigned(false, x);
  }

  /** The two buttons are never both disabled. */
  lemma OnOffNotBothDisabled(ds: Option<DeviceStatus>)
    ensures !(TurnOnDisabled(ds) && TurnOffDisabled(ds))
    ensures ds.None? ==> !TurnOnDisabled(ds) && !TurnOffDisabled(ds)
  {
  }
}
