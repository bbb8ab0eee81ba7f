/** The minute-count formatter of the time clock: `formatMinutesString` turns a
    non-negative number of minutes into the "DD:HH:MM" text shown on the clock's
    label, and rejects a negative count with a ValueError.
 */
module MinutesFormat {

  /** The error `formatMinutesString` raises (Python's ValueError). */
  datatype Error = InvalidArgument(message: string)

  datatype Result<T> = Ok(value: T) | Err(error: Error)

  datatype Option<T> = None | Some(value: T)

  // ---------------------------------------------------------------------------
  // Decimal digits
  // ---------------------------------------------------------------------------

  predicate IsDigit(c: char) {
    '0' <= c <= '9'
  }

  predicate AllDigits(s: string) {
    forall i :: 0 <= i < |s| ==> IsDigit(s[i])
  }

  function DigitValue(c: char): int {
    c as int - '0' as int
  }

  function DigitChar(d: nat): (c: char)
    requires d < 10
    ensures IsDigit(c) && DigitValue(c) == d
  {
    ('0' as int + d) as char
  }

  /** The value of a string of decimal digits, most significant digit first. */
  function ParseDecimal(s: string): (n: nat)
    requires AllDigits(s)
  {
    if s == [] then 0 else ParseDecimal(s[..|s| - 1]) * 10 + DigitValue(s[|s| - 1])
  }

  /** Python's `str(n)` for a non-negative integer: the shortest decimal
      representation, with no leading zero except for 0 itself. */
  function DecimalDigits(n: nat): string
    decreases n
  {
    if n < 10 then [DigitChar(n)] else DecimalDigits(n / 10) + [DigitChar(n % 10)]
  }

  lemma {:induction false} DecimalDigitsShape(n: nat)
    ensures var s := DecimalDigits(n);
      |s| >= 1 && AllDigits(s)
      && (|s| == 1 <==> n < 10)
      && (n < 100 ==> |s| <= 2)
      && (s[0] == '0' ==> n == 0)
    decreases n
  {
    if n >= 10 {
      DecimalDigitsShape(n / 10);
      var s := DecimalDigits(n);
      assert s == DecimalDigits(n / 10) + [DigitChar(n % 10)];
      assert AllDigits(s) by {
        forall k | 0 <= k < |s| ensures IsDigit(s[k]) {
          if k < |s| - 1 { assert s[k] == DecimalDigits(n / 10)[k]; }
        }
      }
    }
  }

  lemma {:induction false} ParseDecimalDigits(n: nat)
    ensures AllDigits(DecimalDigits(n)) && ParseDecimal(DecimalDigits(n)) == n
    decreases n
  {
    DecimalDigitsShape(n);
    if n >= 10 {
      var s := DecimalDigits(n);
      DecimalDigitsShape(n / 10);
      assert s[..|s| - 1] == DecimalDigits(n / 10);
      ParseDecimalDigits(n / 10);
    }
  }

  /** Leading zeros do not change the value of a digit string. */
  lemma {:induction false} ParseLeadingZero(s: string)
    requires AllDigits(s)
    ensures AllDigits("0" + s) && ParseDecimal("0" + s) == ParseDecimal(s)
    decreases |s|
  {
    var t := "0" + s;
    assert AllDigits(t) by {
      forall i | 0 <= i < |t| ensures IsDigit(t[i]) {
        if i > 0 { assert t[i] == s[i - 1]; }
      }
    }
    if s != [] {
      assert t[..|t| - 1] == "0" + s[..|s| - 1];
      ParseLeadingZero(s[..|s| - 1]);
    }
  }

  /** The `{:02d}` conversion: the decimal digits of `n`, left-padded with '0'
      to a width of two when shorter. */
  function PadTwo(n: nat): string {
    var d := DecimalDigits(n);
    if |d| < 2 then "0" + d else d
  }

  /** `PadTwo(n)` is at least two decimal digits that read back as `n`: exactly
      two below 100, and never a padding zero beyond the width. */
  lemma PadTwoSpec(n: nat)
    ensures var s := PadTwo(n);
      |s| >= 2 && AllDigits(s) && ParseDecimal(s) == n
      && (n < 100 ==> |s| == 2)
      && (|s| > 2 ==> s[0] != '0')
  {
    var d := DecimalDigits(n);
    DecimalDigitsShape(n);
    ParseDecimalDigits(n);
    if |d| < 2 {
      ParseLeadingZero(d);
    }
  }

  // ---------------------------------------------------------------------------
  // The fields and the formatted string
  // ---------------------------------------------------------------------------

  /** `days, remainder = divmod(minutes, 1440)` followed by
      `hours, minutes = divmod(remainder, 60)`. For a non-negative count,
      Python's floor division agrees with Dafny's. */
  function Fields(m: nat): (f: (nat, nat, nat))
    ensures f.0 * 1440 + f.1 * 60 + f.2 == m
    ensures f.1 < 24 && f.2 < 60
  {
    var days := m / 1440;
    var remainder := m % 1440;
    (days, remainder / 60, remainder % 60)
  }

  /** A decomposition into days, hours below 24 and minutes below 60 is unique,
      so `Fields` is the only one. */
  lemma FieldsUnique(m: nat, days: nat, hours: nat, mins: nat)
    requires days * 1440 + hours * 60 + mins == m
    requires hours < 24 && mins < 60
    ensures Fields(m) == (days, hours, mins)
  {
    var r := hours * 60 + mins;
    assert m == days * 1440 + r && r < 1440;
    assert m / 1440 == days && m % 1440 == r;
    assert r / 60 == hours && r % 60 == mins;
  }

  /** The formatted text for a non-negative minute count. */
  function FormatMinutes(m: nat): string {
    var f := Fields(m);
    PadTwo(f.0) + ":" + PadTwo(f.1) + ":" + PadTwo(f.2)
  }

  /** `formatMinutesString`: an error exactly for a negative count; otherwise a
      string of the shape DD:HH:MM that reads back as the same count. */
  function FormatMinutesString(minutes: int): (r: Result<string>)
    ensures r.Err? <==> minutes < 0
    ensures r.Ok? ==> ClockShape(r.value) && ParseClock(r.value) == Some(minutes)
    ensures r.Ok? ==> r.value == FormatMinutes(minutes)
  {
    if minutes < 0 then
      Err(InvalidArgument("Input must be a non-negative integer."))
    else
      FormatRoundTrip(minutes);
      Ok(FormatMinutes(minutes))
  }

  // ---------------------------------------------------------------------------
  // Reading the text back
  // ---------------------------------------------------------------------------

  /** The pattern `\d{2,}:\d{2}:\d{2}`. */
  predicate ClockShape(s: string) {
    |s| >= 8 && s[|s| - 6] == ':' && s[|s| - 3] == ':'
    && AllDigits(s[..|s| - 6]) && AllDigits(s[|s| - 5..|s| - 3]) && AllDigits(s[|s| - 2..])
  }

  /** The obvious inverse of the formatter: days * 1440 + hours * 60 + minutes. */
  function ParseClock(s: string): (r: Option<nat>)
    ensures r.Some? <==> ClockShape(s)
  {
    if ClockShape(s) then
      Some(ParseDecimal(s[..|s| - 6]) * 1440
           + ParseDecimal(s[|s| - 5..|s| - 3]) * 60
           + ParseDecimal(s[|s| - 2..]))
    else None
  }

  /** The three fields of the formatted text are the zero-padded days, hours and
      minutes, in that order, with hours and minutes exactly two digits wide. */
  lemma FormatLayout(m: nat)
    ensures var s, f := FormatMinutes(m), Fields(m);
      |s| >= 8 && s[..|s| - 6] == PadTwo(f.0) && s[|s| - 6] == ':'
      && s[|s| - 5..|s| - 3] == PadTwo(f.1) && s[|s| - 3] == ':'
      && s[|s| - 2..] == PadTwo(f.2)
  {
    var f := Fields(m);
    var d, h, mi := PadTwo(f.0), PadTwo(f.1), PadTwo(f.2);
    var s := FormatMinutes(m);
    PadTwoSpec(f.0);
    PadTwoSpec(f.1);
    PadTwoSpec(f.2);
    assert s == d + ":" + h + ":" + mi;
    assert |h| == 2 && |mi| == 2;
    assert s[..|s| - 6] == d;
    assert s[|s| - 5..|s| - 3] == h;
    assert s[|s| - 2..] == mi;
  }

  /** Round trip: the formatted text has the clock shape and reads back as the
      count it was made from. */
  lemma FormatRoundTrip(m: nat)
    ensures ClockShape(FormatMinutes(m))
    ensures ParseClock(FormatMinutes(m)) == Some(m)
  {
    var f := Fields(m);
    FormatLayout(m);
    PadTwoSpec(f.0);
    PadTwoSpec(f.1);
    PadTwoSpec(f.2);
  }

  /** Different counts are shown as different texts. */
  lemma FormatInjective(a: nat, b: nat)
    requires FormatMinutes(a) == FormatMinutes(b)
    ensures a == b
  {
    FormatRoundTrip(a);
    FormatRoundTrip(b);
  }

  /** The label's initial text "00:00:00" is the formatted zero count. */
  lemma FormatZero()
    ensures FormatMinutesString(0) == Ok("00:00:00")
  {
    assert DecimalDigits(0) == "0";
    assert PadTwo(0) == "00";
    assert Fields(0) == (0, 0, 0);
    assert FormatMinutes(0) == "00" + ":" + "00" + ":" + "00" == "00:00:00";
  }

  /** Worked values: 90 minutes, one day, one day and one hour; -1 is refused. */
  lemma FormatExamples()
    ensures FormatMinutesString(90) == Ok("00:01:30")
    ensures FormatMinutesString(1440) == Ok("01:00:00")
    ensures FormatMinutesString(1500) == Ok("01:01:00")
    ensures FormatMinutesString(-1).Err?
  {
    assert PadTwo(0) == "00" by { assert DecimalDigits(0) == "0"; }
    assert PadTwo(1) == "01" by { assert DecimalDigits(1) == "1"; }
    assert PadTwo(30) == "30" by {
      assert DecimalDigits(3) == "3";
      assert DecimalDigits(30) == "30";
    }
    assert Fields(90) == (0, 1, 30);
    assert Fields(1440) == (1, 0, 0);
    assert Fields(1500) == (1, 1, 0);
    assert FormatMinutes(90) == "00" + ":" + "01" + ":" + "30" == "00:01:30";
    assert FormatMinutes(1440) == "01" + ":" + "00" + ":" + "00" == "01:00:00";
    assert FormatMinutes(1500) == "01" + ":" + "01" + ":" + "00" == "01:01:00";
  }
}
