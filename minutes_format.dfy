/**
 * The `formatMinutes` formatter of the work-order timer widget: a duration in
 * minutes (or the "no value" sentinel) shown as `[-]MM:SS`.
 *
 * Numbers are exact reals; the formatter's own steps (sign, absolute value,
 * floor, `% 1`, `* 60`, `padStart(2, "0")`, concatenation) are written out as
 * the widget performs them. `ClockOf` is an independent reference for what the
 * text shows, and `ParseClock` reads the text back.
 */
module MinutesFormat {
  import opened Wrappers

  /** The formatter's argument: the `false` sentinel ("no value") or a number of minutes. */
  datatype FieldValue = NoValue | Minutes(minutes: real)

  /** What the text shows: a sign, whole minutes and whole seconds. */
  datatype Clock = Clock(negative: bool, minutes: nat, seconds: nat)

  predicate IsDigit(c: char) {
    '0' <= c <= '9'
  }

  predicate AllDigits(s: string) {
    forall i :: 0 <= i < |s| ==> IsDigit(s[i])
  }

  function DigitChar(d: nat): (c: char)
    requires d < 10
    ensures IsDigit(c) && c as int - '0' as int == d
  {
    ('0' as int + d) as char
  }

  function DigitValue(c: char): (d: nat)
    requires IsDigit(c)
    ensures d < 10
  {
    c as int - '0' as int
  }

  /**
   * The template-string rendering `${n}` of a whole non-negative number:
   * its decimal digits, most significant first, with no leading zero.
   */
  function NatToDecimal(n: nat): (s: string)
    ensures 1 <= |s| && AllDigits(s)
    ensures s[0] == '0' <==> n == 0
    decreases n
  {
    if n < 10 then [DigitChar(n)] else NatToDecimal(n / 10) + [DigitChar(n % 10)]
  }

  /** The value of a string of decimal digits (leading zeros allowed). */
  function DecimalValue(s: string): nat
    requires AllDigits(s)
    decreases |s|
  {
    if s == [] then 0 else DecimalValue(s[..|s| - 1]) * 10 + DigitValue(s[|s| - 1])
  }

  /** `k` copies of `c`. */
  function Repeat(c: char, k: nat): (r: string)
    ensures |r| == k
  {
    if k == 0 then [] else [c] + Repeat(c, k - 1)
  }

  /** `s.padStart(width, fill)`: `fill` prepended until `s` is `width` long; a longer `s` is kept whole. */
  function PadStart(s: string, width: nat, fill: char): (r: string)
    ensures |r| == if |s| < width then width else |s|
  {
    if |s| < width then Repeat(fill, width - |s|) + s else s
  }

  /** `padStart` keeps `s` whole at the end and puts only `fill` characters in front of it. */
  lemma PadStartContents(s: string, width: nat, fill: char)
    ensures var r := PadStart(s, width, fill);
      && r[|r| - |s|..] == s
      && forall i :: 0 <= i < |r| - |s| ==> r[i] == fill
  {
    var r := PadStart(s, width, fill);
    assert r == Repeat(fill, |r| - |s|) + s;
    RepeatContents(fill, |r| - |s|);
  }

  /** JavaScript's `a % 1` for `a >= 0` (`%` truncates toward zero, which for `a >= 0` is the floor). */
  function FractionalPart(a: real): (f: real)
    requires a >= 0.0
    ensures 0.0 <= f < 1.0
    ensures a == a.Floor as real + f
  {
    a - a.Floor as real
  }

  /** `Math.abs(v)`. */
  function Abs(v: real): (a: real)
    ensures a >= 0.0
    ensures a == v || a == -v
  {
    if v < 0.0 then -v else v
  }

  /** `${n}`.padStart(2, "0"): at least two digits, exactly two below 100. */
  function Field(n: nat): (r: string)
    ensures |r| >= 2 && AllDigits(r)
    ensures n < 100 ==> |r| == 2
  {
    ShortDecimal(n);
    var s := NatToDecimal(n);
    LeadingZerosIgnored(if |s| < 2 then 2 - |s| else 0, s);
    PadStart(s, 2, '0')
  }

  /** The template literal `${sign}${min}:${sec}` of `formatMinutes`. */
  function Text(c: Clock): (r: string)
    ensures |r| >= 5
  {
    (if c.negative then "-" else "") + (Field(c.minutes) + ":" + Field(c.seconds))
  }

  /**
   * The numbers `formatMinutes` computes from a duration: the sign, then
   * `Math.floor` of the magnitude and `Math.floor((magnitude % 1) * 60)`.
   */
  function Fields(v: real): (c: Clock)
    ensures c.negative <==> v < 0.0
    ensures c.seconds < 60
  {
    var isNegative := v < 0.0;
    var a := if isNegative then Abs(v) else v;
    var min: nat := a.Floor;
    var sec: nat := (FractionalPart(a) * 60.0).Floor;
    Clock(isNegative, min, sec)
  }

  /** `formatMinutes(value)`, with exact arithmetic. */
  function FormatMinutes(value: FieldValue): (r: string)
    ensures r == "" <==> value.NoValue?
  {
    match value
    case NoValue => ""
    case Minutes(v) => Text(Fields(v))
  }

  /** Reference meaning of the text: the whole seconds in `|v|` minutes, split into minutes and seconds. */
  function ClockOf(v: real): Clock {
    var total: nat := (Abs(v) * 60.0).Floor;
    Clock(v < 0.0, total / 60, total % 60)
  }

  /** Reads `[-]MM:SS` back: an optional `-`, at least two minute digits, `:`, exactly two second digits. */
  function ParseClock(t: string): Option<Clock> {
    if |t| > 0 && t[0] == '-' then ParseUnsigned(true, t[1..]) else ParseUnsigned(false, t)
  }

  function ParseUnsigned(negative: bool, u: string): Option<Clock> {
    if |u| < 5 || u[|u| - 3] != ':' then None
    else
      var mm, ss := u[..|u| - 3], u[|u| - 2..];
      if AllDigits(mm) && AllDigits(ss) then Some(Clock(negative, DecimalValue(mm), DecimalValue(ss)))
      else None
  }

  // ---------------------------------------------------------------------------
  // Decimal digits

  lemma {:induction false} DecimalOfNatToDecimal(n: nat)
    ensures DecimalValue(NatToDecimal(n)) == n
    decreases n
  {
    var s := NatToDecimal(n);
    if n >= 10 {
      DecimalOfNatToDecimal(n / 10);
      assert s[..|s| - 1] == NatToDecimal(n / 10);
    } else {
      assert s[..|s| - 1] == [];
    }
  }

  lemma {:induction false} ZerosAreZero(k: nat)
    ensures AllDigits(Repeat('0', k)) && DecimalValue(Repeat('0', k)) == 0
  {
    if k > 0 {
      ZerosAreZero(k - 1);
      var z := Repeat('0', k);
      assert z == Repeat('0', k - 1) + ['0'] by {
        RepeatSnoc('0', k - 1);
      }
      assert z[..|z| - 1] == Repeat('0', k - 1);
    }
  }

  lemma {:induction false} RepeatContents(c: char, k: nat)
    ensures forall i :: 0 <= i < k ==> Repeat(c, k)[i] == c
  {
    if k > 0 {
      RepeatContents(c, k - 1);
      assert Repeat(c, k) == [c] + Repeat(c, k - 1);
    }
  }

  lemma {:induction false} RepeatSnoc(c: char, k: nat)
    ensures Repeat(c, k + 1) == Repeat(c, k) + [c]
  {
    if k > 0 {
      RepeatSnoc(c, k - 1);
    }
  }

  lemma {:induction false} LeadingZerosIgnored(k: nat, s: string)
    requires AllDigits(s)
    ensures AllDigits(Repeat('0', k) + s) && DecimalValue(Repeat('0', k) + s) == DecimalValue(s)
    decreases |s|
  {
    var z := Repeat('0', k);
    ZerosAreZero(k);
    if s == [] {
      assert z + s == z;
    } else {
      LeadingZerosIgnored(k, s[..|s| - 1]);
      assert (z + s)[..|z + s| - 1] == z + s[..|s| - 1];
    }
  }

  lemma {:induction false} ShortDecimal(n: nat)
    ensures n < 100 ==> |NatToDecimal(n)| <= 2
  {
    if 10 <= n < 100 {
      assert NatToDecimal(n) == NatToDecimal(n / 10) + [DigitChar(n % 10)];
    }
  }

  /** A padded field reads as the number it shows: padding with zeros does not change the value. */
  lemma FieldReadsBack(n: nat)
    ensures DecimalValue(Field(n)) == n
  {
    var s := NatToDecimal(n);
    LeadingZerosIgnored(if |s| < 2 then 2 - |s| else 0, s);
    DecimalOfNatToDecimal(n);
  }

  // ---------------------------------------------------------------------------
  // What the text means

  /**
   * The widget's floor / `% 1` / `* 60` construction agrees with the reference:
   * the minutes field is the whole minutes and the seconds field the remaining
   * whole seconds of the magnitude.
   */
  lemma FieldsAreWholeMinutesAndSeconds(v: real)
    ensures Fields(v) == ClockOf(v)
    ensures ClockOf(v).minutes == Abs(v).Floor
    ensures ClockOf(v).seconds < 60
  {
    var a := Abs(v);
    var k := a.Floor;
    var f := FractionalPart(a);
    var sec := (f * 60.0).Floor;
    assert 0 <= sec < 60;
    assert a * 60.0 == (60 * k) as real + f * 60.0;
    assert (a * 60.0).Floor == 60 * k + sec;
  }

  /** The formatter shows exactly the reference clock of the duration. */
  lemma FormatShowsClock(v: real)
    ensures FormatMinutes(Minutes(v)) == Text(ClockOf(v))
  {
    FieldsAreWholeMinutesAndSeconds(v);
  }

  /** `ParseUnsigned` splits `mm:ss` into the values of its two digit fields. */
  lemma ParseUnsignedParts(negative: bool, mm: string, ss: string)
    requires |mm| >= 2 && AllDigits(mm)
    requires |ss| == 2 && AllDigits(ss)
    ensures ParseUnsigned(negative, mm + ":" + ss) == Some(Clock(negative, DecimalValue(mm), DecimalValue(ss)))
  {
    var u := mm + ":" + ss;
    assert u[..|u| - 3] == mm;
    assert u[|u| - 2..] == ss;
  }

  /** A leading `-` is read as the sign; a text starting with a digit is unsigned. */
  lemma ParseSign(negative: bool, u: string)
    requires |u| > 0 && IsDigit(u[0])
    ensures ParseClock((if negative then "-" else "") + u) == ParseUnsigned(negative, u)
  {
    var t := (if negative then "-" else "") + u;
    if negative {
      assert t[0] == '-' && t[1..] == u;
    } else {
      assert t == u;
    }
  }

  /** The text of a clock whose seconds are below 60 reads back as that clock. */
  lemma TextRoundTrip(c: Clock)
    requires c.seconds < 60
    ensures ParseClock(Text(c)) == Some(c)
  {
    var mm, ss := Field(c.minutes), Field(c.seconds);
    FieldReadsBack(c.minutes);
    FieldReadsBack(c.seconds);
    ParseUnsignedParts(c.negative, mm, ss);
    ParseSign(c.negative, mm + ":" + ss);
  }

  /** Reading the text back gives the sign, whole minutes and whole seconds of the duration. */
  lemma FormatRoundTrip(v: real)
    ensures ParseClock(FormatMinutes(Minutes(v))) == Some(ClockOf(v))
  {
    FormatShowsClock(v);
    FieldsAreWholeMinutesAndSeconds(v);
    TextRoundTrip(ClockOf(v));
  }

  /** Two durations show the same text exactly when they have the same sign, whole minutes and whole seconds. */
  lemma SameTextIffSameClock(v: real, w: real)
    ensures FormatMinutes(Minutes(v)) == FormatMinutes(Minutes(w)) <==> ClockOf(v) == ClockOf(w)
  {
    FormatRoundTrip(v);
    FormatRoundTrip(w);
    FormatShowsClock(v);
    FormatShowsClock(w);
  }

  /** The sign of a clock is shown as a leading `-` in front of the text of its magnitude. */
  lemma TextSign(c: Clock)
    ensures Text(c)[0] == '-' <==> c.negative
    ensures c.negative ==> Text(c) == "-" + Text(c.(negative := false))
  {
    var u := Field(c.minutes) + ":" + Field(c.seconds);
    assert IsDigit(u[0]);
    assert Text(c.(negative := false)) == u;
  }

  /** A negative duration is shown as `-` followed by the text of its magnitude; no other text starts with `-`. */
  lemma SignPrefix(v: real)
    ensures FormatMinutes(Minutes(v))[0] == '-' <==> v < 0.0
    ensures v < 0.0 ==> FormatMinutes(Minutes(v)) == "-" + FormatMinutes(Minutes(-v))
  {
    var c := Fields(v);
    assert FormatMinutes(Minutes(v)) == Text(c);
    TextSign(c);
    if v < 0.0 {
      assert Fields(-v) == c.(negative := false);
    }
  }

  /** Where the parts of `sign + (mm + ":" + ss)` lie, for digit fields `mm` and `ss`. */
  lemma PartsLayout(sign: string, mm: string, ss: string)
    requires sign == "" || sign == "-"
    requires |mm| >= 2 && AllDigits(mm)
    requires |ss| == 2 && AllDigits(ss)
    ensures var t, p := sign + (mm + ":" + ss), |sign|;
      && |t| >= p + 5
      && t[|t| - 3] == ':'
      && (forall i :: 0 <= i < |t| && i != |t| - 3 ==> t[i] != ':')
      && t[p..|t| - 3] == mm
      && t[|t| - 2..] == ss
  {
    var t := sign + (mm + ":" + ss);
    var p := |sign|;
    forall i | 0 <= i < |t| && i != |t| - 3
      ensures t[i] != ':'
    {
      if i < p {
        assert t[i] == '-';
      } else if i < |t| - 3 {
        assert t[i] == mm[i - p];
      } else {
        assert t[i] == ss[i - (|t| - 2)];
      }
    }
  }

  /**
   * The layout of a clock's text: an optional sign, a minutes field of two or
   * more characters, the one `:` of the text, and a seconds field of exactly
   * two characters (both fields digits, as `TextRoundTrip` reads them).
   */
  lemma TextLayout(c: Clock)
    requires c.seconds < 60
    ensures var t, p := Text(c), if c.negative then 1 else 0;
      && |t| >= p + 5
      && t[|t| - 3] == ':'
      && (forall i :: 0 <= i < |t| && i != |t| - 3 ==> t[i] != ':')
      && t[p..|t| - 3] == Field(c.minutes)
      && t[|t| - 2..] == Field(c.seconds)
  {
    PartsLayout(if c.negative then "-" else "", Field(c.minutes), Field(c.seconds));
  }

  /**
   * The layout of the formatter's text: an optional sign, a minutes field
   * holding all of the padded whole minutes (never cut to two characters),
   * exactly one `:`, and a seconds field of exactly two characters.
   */
  lemma Layout(v: real)
    ensures var t, p := FormatMinutes(Minutes(v)), if v < 0.0 then 1 else 0;
      && |t| >= p + 5
      && t[|t| - 3] == ':'
      && (forall i :: 0 <= i < |t| && i != |t| - 3 ==> t[i] != ':')
      && t[p..|t| - 3] == Field(Abs(v).Floor)
      && t[|t| - 2..] == Field(Fields(v).seconds)
  {
    var c := Fields(v);
    assert c.minutes == Abs(v).Floor;
    TextLayout(c);
  }

  /** A whole number of seconds `n`, given in minutes, shows `n / 60` minutes and `n % 60` seconds. */
  lemma WholeSecondsShown(n: nat)
    ensures ClockOf(n as real / 60.0) == Clock(false, n / 60, n % 60)
  {
    assert Abs(n as real / 60.0) * 60.0 == n as real;
  }

  /** Examples: 0, 1.5, -1.5 and 75 minutes, and the "no value" sentinel. */
  lemma FormatExamples()
    ensures FormatMinutes(NoValue) == ""
    ensures FormatMinutes(Minutes(0.0)) == "00:00"
    ensures FormatMinutes(Minutes(1.5)) == "01:30"
    ensures FormatMinutes(Minutes(-1.5)) == "-01:30"
    ensures FormatMinutes(Minutes(75.0)) == "75:00"
  {
    assert Fields(0.0) == Clock(false, 0, 0);
    assert Fields(1.5) == Clock(false, 1, 30);
    assert Fields(-1.5) == Clock(true, 1, 30);
    assert Fields(75.0) == Clock(false, 75, 0);
    assert Field(0) == "00";
    assert Field(1) == "01";
    assert Field(30) == "30" by {
      assert NatToDecimal(30) == NatToDecimal(3) + [DigitChar(0)];
    }
    assert Field(75) == "75" by {
      assert NatToDecimal(75) == NatToDecimal(7) + [DigitChar(5)];
    }
  }
}
