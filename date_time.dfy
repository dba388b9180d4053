/** Naive `datetime` values as the tunnel code uses them: parsed from the
    job's `This tunnel will close at: YYYY-MM-DD HH:MM:SS` line with
    `strptime`, printed with `strftime`, and subtracted from the local clock
    to get the time to sleep. Time is counted in whole seconds. */
module PyDateTime {
  import opened Wrappers
  import opened PyText

  /** The format string the tunnel code passes to `strptime`/`strftime`. */
  const TimestampFormat: string := "%Y-%m-%d %H:%M:%S"

  datatype DateTime = DateTime(year: int, month: int, day: int, hour: int, minute: int, second: int)

  predicate IsLeapYear(y: int) {
    y % 4 == 0 && (y % 100 != 0 || y % 400 == 0)
  }

  function DaysInYear(y: int): int {
    if IsLeapYear(y) then 366 else 365
  }

  function DaysInMonth(y: int, m: int): (n: int)
    requires 1 <= m <= 12
    ensures 28 <= n <= 31
  {
    if m == 2 then (if IsLeapYear(y) then 29 else 28)
    else if m == 4 || m == 6 || m == 9 || m == 11 then 30
    else 31
  }

  /** The values `datetime` accepts: years 1 to 9999 and the usual ranges
      of the other fields. */
  predicate Valid(d: DateTime) {
    1 <= d.year <= 9999 && 1 <= d.month <= 12 && 1 <= d.day <= DaysInMonth(d.year, d.month)
    && 0 <= d.hour < 24 && 0 <= d.minute < 60 && 0 <= d.second < 60
  }

  // ---------------------------------------------------------------------
  // Seconds since 0001-01-01 00:00:00 (proleptic Gregorian calendar)

  function DaysBeforeYear(y: int): nat
    decreases y
  {
    if y <= 1 then 0 else DaysBeforeYear(y - 1) + DaysInYear(y - 1)
  }

  /** Days in the year before the first of month `m`; month 13 stands for
      the end of the year. */
  function DaysBeforeMonth(y: int, m: int): nat
    requires 1 <= m <= 13
  {
    var common :=
      if m == 1 then 0 else if m == 2 then 31 else if m == 3 then 59
      else if m == 4 then 90 else if m == 5 then 120 else if m == 6 then 151
      else if m == 7 then 181 else if m == 8 then 212 else if m == 9 then 243
      else if m == 10 then 273 else if m == 11 then 304 else if m == 12 then 334
      else 365;
    if m > 2 && IsLeapYear(y) then common + 1 else common
  }

  /** The number of seconds from 0001-01-01 00:00:00 to `d`; the difference
      of two of these is what `(a - b).total_seconds()` gives. */
  function Seconds(d: DateTime): int
    requires Valid(d)
  {
    (DaysBeforeYear(d.year) + DaysBeforeMonth(d.year, d.month) + d.day - 1) * 86400
      + d.hour * 3600 + d.minute * 60 + d.second
  }

  /** Chronological order: lexicographic on the fields. */
  predicate Before(a: DateTime, b: DateTime) {
    if a.year != b.year then a.year < b.year
    else if a.month != b.month then a.month < b.month
    else if a.day != b.day then a.day < b.day
    else if a.hour != b.hour then a.hour < b.hour
    else if a.minute != b.minute then a.minute < b.minute
    else a.second < b.second
  }

  lemma DaysBeforeMonthStep(y: int, m: int)
    requires 1 <= m <= 12
    ensures DaysBeforeMonth(y, m + 1) == DaysBeforeMonth(y, m) + DaysInMonth(y, m)
    ensures DaysBeforeMonth(y, 13) == DaysInYear(y)
  {
  }

  lemma {:induction false} DaysBeforeMonthGrows(y: int, m1: int, m2: int)
    requires 1 <= m1 < m2 <= 13
    ensures DaysBeforeMonth(y, m1) + DaysInMonth(y, m1) <= DaysBeforeMonth(y, m2)
    decreases m2 - m1
  {
    DaysBeforeMonthStep(y, m1);
    if m1 + 1 < m2 {
      DaysBeforeMonthGrows(y, m1 + 1, m2);
    }
  }

  lemma {:induction false} DaysBeforeYearGrows(y1: int, y2: int)
    requires 1 <= y1 < y2
    ensures DaysBeforeYear(y1) + DaysInYear(y1) <= DaysBeforeYear(y2)
    decreases y2 - y1
  {
    if y1 + 1 < y2 {
      DaysBeforeYearGrows(y1 + 1, y2);
    }
  }

  /** The day of the year, counted from 0, is below the length of the year. */
  lemma DayOfYearBound(d: DateTime)
    requires Valid(d)
    ensures DaysBeforeMonth(d.year, d.month) + d.day - 1 < DaysInYear(d.year)
  {
    DaysBeforeMonthGrows(d.year, d.month, 13);
    DaysBeforeMonthStep(d.year, 12);
  }

  lemma SecondsGrow(a: DateTime, b: DateTime)
    requires Valid(a) && Valid(b) && Before(a, b)
    ensures Seconds(a) < Seconds(b)
  {
    var da := DaysBeforeYear(a.year) + DaysBeforeMonth(a.year, a.month) + a.day - 1;
    var db := DaysBeforeYear(b.year) + DaysBeforeMonth(b.year, b.month) + b.day - 1;
    if a.year < b.year {
      DayOfYearBound(a);
      DaysBeforeYearGrows(a.year, b.year);
      assert da < db;
    } else if a.year == b.year && a.month < b.month {
      DaysBeforeMonthGrows(a.year, a.month, b.month);
      assert da < db;
    }
  }

  /** `a < b` between datetimes holds exactly when `a` is fewer seconds
      from the epoch than `b`: the second count is an order isomorphism, so
      the sleep arithmetic below respects chronological order. */
  lemma SecondsOrder(a: DateTime, b: DateTime)
    requires Valid(a) && Valid(b)
    ensures Before(a, b) <==> Seconds(a) < Seconds(b)
    ensures a == b <==> Seconds(a) == Seconds(b)
  {
    if Before(a, b) {
      SecondsGrow(a, b);
    } else if Before(b, a) {
      SecondsGrow(b, a);
    } else {
      assert a == b;
    }
  }

  // ---------------------------------------------------------------------
  // strptime and strftime with "%Y-%m-%d %H:%M:%S"

  /** Two decimal digits, zero padded, as `%m`, `%d`, `%H`, `%M` and `%S`
      print them. */
  function Pad2(n: int): (r: String)
    requires 0 <= n < 100
    ensures |r| == 2 && AllDigits(r)
  {
    [DigitChar(n / 10), DigitChar(n % 10)]
  }

  /** `d.strftime("%Y-%m-%d %H:%M:%S")`. `%Y` prints the year without
      padding, as the C library does on Linux. */
  function Format(d: DateTime): String
    requires Valid(d)
  {
    Decimal(d.year) + "-" + Pad2(d.month) + "-" + Pad2(d.day) + " "
      + Pad2(d.hour) + ":" + Pad2(d.minute) + ":" + Pad2(d.second)
  }

  /** A formatted timestamp holds only digits and the separators `-`,
      space and `:`. */
  lemma FormatChars(d: DateTime)
    requires Valid(d)
    ensures forall c :: c in Format(d) ==> IsDigit(c) || c == '-' || c == ' ' || c == ':'
  {
    assert AllDigits(Decimal(d.year));
  }

  /** The shape `DDDD-DD-DD DD:DD:DD`. */
  predicate FixedWidthShape(s: String) {
    |s| == 19 && AllDigits(s[0..4]) && s[4] == '-' && AllDigits(s[5..7]) && s[7] == '-'
    && AllDigits(s[8..10]) && s[10] == ' ' && AllDigits(s[11..13]) && s[13] == ':'
    && AllDigits(s[14..16]) && s[16] == ':' && AllDigits(s[17..19])
  }

  /** `datetime.strptime(s, "%Y-%m-%d %H:%M:%S")` on zero-padded input: the
      fields must have the fixed-width shape and form a valid date and time,
      otherwise a `ValueError`. Its message leaves out the data that
      `strptime` quotes. */
  function ParseTimestamp(s: String): (r: Result<DateTime, PyError>)
    ensures r.Success? ==> Valid(r.value) && FixedWidthShape(s)
  {
    if !FixedWidthShape(s) then
      Failure(ValueError("time data does not match format '" + TimestampFormat + "'"))
    else
      var d := DateTime(DigitsValue(s[0..4]), DigitsValue(s[5..7]), DigitsValue(s[8..10]),
                        DigitsValue(s[11..13]), DigitsValue(s[14..16]), DigitsValue(s[17..19]));
      if Valid(d) then Success(d)
      else Failure(ValueError("time data does not match format '" + TimestampFormat + "'"))
  }

  lemma DigitsValueOfPair(t: String)
    requires |t| == 2 && AllDigits(t)
    ensures DigitsValue(t) == DigitValue(t[0]) * 10 + DigitValue(t[1])
    ensures DigitsValue(t) < 100 && Pad2(DigitsValue(t)) == t
  {
    assert DigitsValue(t[..1]) == DigitValue(t[0]) by {
      assert t[..1][..0] == [];
    }
    var a, b := DigitValue(t[0]), DigitValue(t[1]);
    assert DigitsValue(t) == a * 10 + b;
    var v := DigitsValue(t);
    assert v / 10 == a && v % 10 == b;
    assert DigitChar(DigitValue(t[0])) == t[0];
    assert DigitChar(DigitValue(t[1])) == t[1];
  }

  lemma DigitsValueOfFour(t: String)
    requires |t| == 4 && AllDigits(t)
    ensures DigitsValue(t)
      == DigitValue(t[0]) * 1000 + DigitValue(t[1]) * 100 + DigitValue(t[2]) * 10 + DigitValue(t[3])
  {
    assert DigitsValue(t[..1]) == DigitValue(t[0]) by {
      assert t[..1][..0] == [];
    }
    assert DigitsValue(t[..2]) == DigitsValue(t[..1]) * 10 + DigitValue(t[1]) by {
      assert t[..2][..1] == t[..1];
    }
    assert DigitsValue(t[..3]) == DigitsValue(t[..2]) * 10 + DigitValue(t[2]) by {
      assert t[..3][..2] == t[..2];
    }
    assert DigitsValue(t) == DigitsValue(t[..3]) * 10 + DigitValue(t[3]);
  }

  lemma Pad2Value(n: int)
    requires 0 <= n < 100
    ensures DigitsValue(Pad2(n)) == n
  {
    DigitsValueOfPair(Pad2(n));
  }

  lemma {:induction false} DigitsValueAtLeastOne(t: String)
    requires t != [] && AllDigits(t) && t[0] != '0'
    ensures DigitsValue(t) >= 1
    decreases |t|
  {
    if |t| > 1 {
      DigitsValueAtLeastOne(t[..|t| - 1]);
    }
  }

  /** `str(int(t)) == t` for a digit string without a leading zero. */
  lemma {:induction false} DecimalOfDigits(t: String)
    requires t != [] && AllDigits(t) && (|t| == 1 || t[0] != '0')
    ensures Decimal(DigitsValue(t)) == t
    decreases |t|
  {
    var c := t[|t| - 1];
    assert DigitChar(DigitValue(c)) == c;
    if |t| > 1 {
      var front := t[..|t| - 1];
      DigitsValueAtLeastOne(front);
      DecimalOfDigits(front);
      var v := DigitsValue(t);
      assert v / 10 == DigitsValue(front) && v % 10 == DigitValue(c);
      assert t == front + [c];
    }
  }

  /** The four-digit text of a year from 1000 on. */
  lemma {:induction false} DecimalOfYear(y: int)
    requires 1000 <= y <= 9999
    ensures |Decimal(y)| == 4
  {
    assert Decimal(y) == Decimal(y / 10) + [DigitChar(y % 10)];
    assert Decimal(y / 10) == Decimal(y / 100) + [DigitChar((y / 10) % 10)];
    assert Decimal(y / 100) == Decimal(y / 1000) + [DigitChar((y / 100) % 10)];
  }

  /** Parsing what `strftime` printed gives the datetime back. */
  lemma ParseOfFormat(d: DateTime)
    requires Valid(d) && d.year >= 1000
    ensures ParseTimestamp(Format(d)) == Success(d)
  {
    var s := Format(d);
    DecimalOfYear(d.year);
    DigitsValueOfDecimal(d.year);
    assert s[0..4] == Decimal(d.year);
    assert s[5..7] == Pad2(d.month);
    assert s[8..10] == Pad2(d.day);
    assert s[11..13] == Pad2(d.hour);
    assert s[14..16] == Pad2(d.minute);
    assert s[17..19] == Pad2(d.second);
    Pad2Value(d.month);
    Pad2Value(d.day);
    Pad2Value(d.hour);
    Pad2Value(d.minute);
    Pad2Value(d.second);
  }

  /** Printing a parsed timestamp gives the text back: from the year 1000
      on, the parser accepts exactly the texts that `strftime` prints. */
  lemma FormatOfParse(s: String)
    requires ParseTimestamp(s).Success? && ParseTimestamp(s).value.year >= 1000
    ensures Format(ParseTimestamp(s).value) == s
  {
    var d := ParseTimestamp(s).value;
    DigitsValueOfFour(s[0..4]);
    assert s[0] != '0';
    DecimalOfDigits(s[0..4]);
    DigitsValueOfPair(s[5..7]);
    DigitsValueOfPair(s[8..10]);
    DigitsValueOfPair(s[11..13]);
    DigitsValueOfPair(s[14..16]);
    DigitsValueOfPair(s[17..19]);
    assert s == s[0..4] + "-" + s[5..7] + "-" + s[8..10] + " " + s[11..13] + ":" + s[14..16] + ":" + s[17..19];
  }

  // ---------------------------------------------------------------------
  // The closing countdown

  /** `(termination - now).total_seconds() - 60`: the time to sleep so as to
      wake one minute before the tunnel closes. */
  function SleepSeconds(termination: DateTime, now: DateTime): int
    requires Valid(termination) && Valid(now)
  {
    Seconds(termination) - Seconds(now) - 60
  }

  /** `time.sleep(seconds)`: a negative length is a `ValueError`. */
  function Sleep(seconds: int): (r: Result<nat, PyError>)
    ensures r.Success? <==> seconds >= 0
    ensures r.Success? ==> r.value == seconds
  {
    if seconds < 0 then Failure(ValueError("sleep length must be non-negative")) else Success(seconds)
  }

  /** The countdown sleeps only when the clock is still before the closing
      time, and then wakes exactly one minute before it; a clock already
      within a minute of (or past) the closing time makes `time.sleep`
      raise instead of closing immediately. */
  lemma SleepOnlyBeforeClosing(termination: DateTime, now: DateTime)
    requires Valid(termination) && Valid(now)
    ensures Sleep(SleepSeconds(termination, now)).Success? ==> Before(now, termination)
    ensures Sleep(SleepSeconds(termination, now)).Success? ==>
      Seconds(now) + Sleep(SleepSeconds(termination, now)).value + 60 == Seconds(termination)
    ensures !Before(now, termination) ==> Sleep(SleepSeconds(termination, now)).Failure?
  {
    SecondsOrder(now, termination);
  }
}
