/**
 * The proleptic Gregorian calendar that Python's `datetime` uses, on the
 * same day numbering (0001-01-01 is ordinal 1, years 1 to 9999), and the
 * `strftime('%Y-%m-%d %H:%M:%S')` rendering of a timestamp. Instants are
 * whole seconds counted from 1970-01-01 00:00:00.
 */
module Calendar {
  import opened Wrappers
  import opened Text

  predicate IsLeap(y: int) {
    y % 4 == 0 && (y % 100 != 0 || y % 400 == 0)
  }

  function DaysInYear(y: int): nat {
    if IsLeap(y) then 366 else 365
  }

  function DaysInMonth(y: int, m: int): nat
    requires 1 <= m <= 12
  {
    if m == 2 then (if IsLeap(y) then 29 else 28)
    else if m == 4 || m == 6 || m == 9 || m == 11 then 30
    else 31
  }

  /** Days of year `y` before the first of month `m`; month 13 stands for the end of the year. */
  function DaysBeforeMonth(y: int, m: int): nat
    requires 1 <= m <= 13
  {
    var common :=
      if m == 1 then 0 else if m == 2 then 31 else if m == 3 then 59 else if m == 4 then 90
      else if m == 5 then 120 else if m == 6 then 151 else if m == 7 then 181 else if m == 8 then 212
      else if m == 9 then 243 else if m == 10 then 273 else if m == 11 then 304 else if m == 12 then 334
      else 365;
    common + if m > 2 && IsLeap(y) then 1 else 0
  }

  lemma MonthStep(y: int, m: int)
    requires 1 <= m <= 12
    ensures DaysBeforeMonth(y, m + 1) == DaysBeforeMonth(y, m) + DaysInMonth(y, m)
    ensures DaysBeforeMonth(y, 13) == DaysInYear(y)
  {
  }

  /** Days from 0001-01-01 to the first of January of year `y`. */
  function DaysBeforeYear(y: int): int
    requires y >= 1
  {
    var p := y - 1;
    p * 365 + p / 4 - p / 100 + p / 400
  }

  lemma YearStep(y: int)
    requires y >= 1
    ensures DaysBeforeYear(y + 1) == DaysBeforeYear(y) + DaysInYear(y)
  {
    QuotientStep(y, 4);
    QuotientStep(y, 100);
    QuotientStep(y, 400);
    DivisibilityChain(y);
    var p := y - 1;
    assert DaysBeforeYear(y + 1) - DaysBeforeYear(y) == 365 + (y / 4 - p / 4) - (y / 100 - p / 100) + (y / 400 - p / 400);
  }

  /** A multiple of 400 is a multiple of 100, and a multiple of 100 is a multiple of 4. */
  lemma DivisibilityChain(y: int)
    ensures y % 400 == 0 ==> y % 100 == 0
    ensures y % 100 == 0 ==> y % 4 == 0
  {
    if y % 400 == 0 {
      Hundreds(y, 4 * (y / 400));
    }
    if y % 100 == 0 {
      Fours(y, 25 * (y / 100));
    }
  }

  lemma Hundreds(y: int, q: int)
    requires y == 100 * q
    ensures y % 100 == 0
  {
  }

  lemma Fours(y: int, q: int)
    requires y == 4 * q
    ensures y % 4 == 0
  {
  }

  /** Stepping from `y - 1` to `y` raises the quotient by `k` exactly when `k` divides `y`. */
  lemma QuotientStep(y: int, k: int)
    requires y >= 1 && k in {4, 100, 400}
    ensures y / k - (y - 1) / k == if y % k == 0 then 1 else 0
  {
    var q, r := (y - 1) / k, (y - 1) % k;
    assert y == k * q + r + 1;
    if r + 1 == k {
      assert y == k * (q + 1) + 0;
    } else {
      assert y == k * q + (r + 1);
    }
  }

  /** Later years start later. */
  lemma {:induction false} YearsIncrease(a: int, b: int)
    requires 1 <= a <= b
    ensures DaysBeforeYear(a) + (b - a) * 365 <= DaysBeforeYear(b)
    decreases b - a
  {
    if a < b {
      YearsIncrease(a, b - 1);
      YearStep(b - 1);
    }
  }

  datatype Date = Date(year: int, month: int, day: int)

  /** A calendar date: a year from 1 on, a month, and a day that month has. */
  predicate WellFormed(d: Date) {
    d.year >= 1 && 1 <= d.month <= 12 && 1 <= d.day <= DaysInMonth(d.year, d.month)
  }

  /** `date.toordinal()`: the day number of `d`, counting 0001-01-01 as day 1. */
  function ToOrdinal(d: Date): int
    requires WellFormed(d)
  {
    DaysBeforeYear(d.year) + DaysBeforeMonth(d.year, d.month) + d.day
  }

  /** The year holding day `n` of the years from `y` on, and that day's position within its year. */
  function YearOf(n: int, y: int): (r: (int, int))
    requires y >= 1 && n >= 1
    ensures r.0 >= y && 1 <= r.1 <= DaysInYear(r.0)
    ensures DaysBeforeYear(r.0) + r.1 == DaysBeforeYear(y) + n
    decreases n
  {
    if n <= DaysInYear(y) then (y, n)
    else YearStep(y); YearOf(n - DaysInYear(y), y + 1)
  }

  /** The month holding day `r` of year `y` counted from month `m`, and the day of that month. */
  function MonthOf(y: int, r: int, m: int): (res: (int, int))
    requires 1 <= m <= 12 && 1 <= r <= DaysInYear(y) - DaysBeforeMonth(y, m)
    ensures m <= res.0 <= 12 && 1 <= res.1 <= DaysInMonth(y, res.0)
    ensures DaysBeforeMonth(y, res.0) + res.1 == DaysBeforeMonth(y, m) + r
    decreases 12 - m
  {
    MonthStep(y, m);
    if r <= DaysInMonth(y, m) then (m, r)
    else MonthOf(y, r - DaysInMonth(y, m), m + 1)
  }

  /** `date.fromordinal(n)`: the date whose day number is `n`. */
  function FromOrdinal(n: int): (d: Date)
    requires n >= 1
    ensures WellFormed(d) && ToOrdinal(d) == n
  {
    var (y, r) := YearOf(n, 1);
    MonthStep(y, 12);
    var (m, day) := MonthOf(y, r, 1);
    Date(y, m, day)
  }

  /** A date's day number falls within its year. */
  lemma OrdinalWithinYear(d: Date)
    requires WellFormed(d)
    ensures DaysBeforeYear(d.year) < ToOrdinal(d) <= DaysBeforeYear(d.year + 1)
  {
    YearStep(d.year);
    MonthStep(d.year, d.month);
    MonthStep(d.year, 12);
    MonthsIncrease(d.year, d.month + 1, 13);
  }

  lemma {:induction false} MonthsIncrease(y: int, a: int, b: int)
    requires 1 <= a <= b <= 13
    ensures DaysBeforeMonth(y, a) <= DaysBeforeMonth(y, b)
    decreases b - a
  {
    if a < b {
      MonthsIncrease(y, a, b - 1);
      MonthStep(y, b - 1);
    }
  }

  /** Two dates with the same day number are the same date. */
  lemma OrdinalInjective(d1: Date, d2: Date)
    requires WellFormed(d1) && WellFormed(d2) && ToOrdinal(d1) == ToOrdinal(d2)
    ensures d1 == d2
  {
    SameOrdinalSameYear(d1, d2);
    SameOrdinalSameMonth(d1, d2);
  }

  lemma SameOrdinalSameYear(d1: Date, d2: Date)
    requires WellFormed(d1) && WellFormed(d2) && ToOrdinal(d1) == ToOrdinal(d2)
    ensures d1.year == d2.year
  {
    if d1.year < d2.year {
      EarlierYearEarlierOrdinal(d1, d2);
    } else if d2.year < d1.year {
      EarlierYearEarlierOrdinal(d2, d1);
    }
  }

  /** A date in an earlier year has a smaller day number. */
  lemma EarlierYearEarlierOrdinal(d1: Date, d2: Date)
    requires WellFormed(d1) && WellFormed(d2) && d1.year < d2.year
    ensures ToOrdinal(d1) < ToOrdinal(d2)
  {
    OrdinalWithinYear(d1);
    OrdinalWithinYear(d2);
    YearsIncrease(d1.year + 1, d2.year);
  }

  lemma SameOrdinalSameMonth(d1: Date, d2: Date)
    requires WellFormed(d1) && WellFormed(d2) && ToOrdinal(d1) == ToOrdinal(d2) && d1.year == d2.year
    ensures d1.month == d2.month
  {
    var y := d1.year;
    MonthStep(y, d1.month);
    MonthStep(y, d2.month);
    if d1.month < d2.month {
      MonthsIncrease(y, d1.month + 1, d2.month);
    } else if d2.month < d1.month {
      MonthsIncrease(y, d2.month + 1, d1.month);
    }
  }

  /** Numbering a date and reading the number back gives the date again. */
  lemma OrdinalRoundTrip(d: Date)
    requires WellFormed(d)
    ensures ToOrdinal(d) >= 1 && FromOrdinal(ToOrdinal(d)) == d
  {
    OrdinalWithinYear(d);
    assert DaysBeforeYear(d.year) >= 0;
    OrdinalInjective(FromOrdinal(ToOrdinal(d)), d);
  }

  /** The day number of 9999-12-31, the last day `datetime` can hold. */
  const MaxOrdinal := 3652059

  /** The day number of 1970-01-01, the day the seconds count from. */
  const EpochOrdinal := 719163

  lemma EpochIsNewYear1970()
    ensures ToOrdinal(Date(1970, 1, 1)) == EpochOrdinal
    ensures ToOrdinal(Date(9999, 12, 31)) == MaxOrdinal
  {
  }

  /** A date `datetime` can hold has a day number from 1 to MaxOrdinal, and conversely. */
  lemma {:induction false} SupportedYears(d: Date)
    requires WellFormed(d)
    ensures d.year <= 9999 <==> ToOrdinal(d) <= MaxOrdinal
  {
    OrdinalWithinYear(d);
    if d.year <= 9999 {
      YearsIncrease(d.year + 1, 10000);
    } else {
      YearsIncrease(10000, d.year);
    }
  }

  datatype Timestamp = Timestamp(date: Date, hour: int, minute: int, second: int)

  predicate ValidTimestamp(t: Timestamp) {
    WellFormed(t.date) && 0 <= t.hour < 24 && 0 <= t.minute < 60 && 0 <= t.second < 60
  }

  /** Seconds from 1970-01-01 00:00:00 to `t`. */
  function ToSeconds(t: Timestamp): int
    requires ValidTimestamp(t)
  {
    (ToOrdinal(t.date) - EpochOrdinal) * 86400 + t.hour * 3600 + t.minute * 60 + t.second
  }

  /** The first and the last second `datetime` can hold. */
  const MinSeconds := (1 - EpochOrdinal) * 86400
  const MaxSeconds := (MaxOrdinal - EpochOrdinal + 1) * 86400 - 1

  predicate InRange(s: int) {
    MinSeconds <= s <= MaxSeconds
  }

  /** The civil timestamp of the instant `s`. */
  function FromSeconds(s: int): (t: Timestamp)
    requires s >= MinSeconds
    ensures ValidTimestamp(t)
  {
    var days := s / 86400;
    var rest := s % 86400;
    Timestamp(FromOrdinal(days + EpochOrdinal), rest / 3600, rest % 3600 / 60, rest % 60)
  }

  /** The timestamp of an instant is at that instant. */
  lemma FromSecondsInverse(s: int)
    requires s >= MinSeconds
    ensures ToSeconds(FromSeconds(s)) == s
  {
    var days, rest := s / 86400, s % 86400;
    assert s == days * 86400 + rest;
    var h, m, sec := rest / 3600, rest % 3600 / 60, rest % 60;
    assert rest % 3600 == m * 60 + sec;
    assert rest == h * 3600 + m * 60 + sec;
    var d := FromOrdinal(days + EpochOrdinal);
    assert ToOrdinal(d) - EpochOrdinal == days;
  }

  /** Two timestamps of the same instant are the same timestamp. */
  lemma SecondsInjective(t1: Timestamp, t2: Timestamp)
    requires ValidTimestamp(t1) && ValidTimestamp(t2) && ToSeconds(t1) == ToSeconds(t2)
    ensures t1 == t2
  {
    var o1, o2 := ToOrdinal(t1.date), ToOrdinal(t2.date);
    var r1 := t1.hour * 3600 + t1.minute * 60 + t1.second;
    var r2 := t2.hour * 3600 + t2.minute * 60 + t2.second;
    assert (o1 - o2) * 86400 == r2 - r1;
    assert o1 == o2;
    OrdinalInjective(t1.date, t2.date);
  }

  /** Reading the instant of a valid timestamp back gives the timestamp again. */
  lemma SecondsRoundTrip(t: Timestamp)
    requires ValidTimestamp(t)
    ensures ToSeconds(t) >= MinSeconds && FromSeconds(ToSeconds(t)) == t
  {
    OrdinalRoundTrip(t.date);
    FromSecondsInverse(ToSeconds(t));
    SecondsInjective(FromSeconds(ToSeconds(t)), t);
  }

  /** The instants `datetime` can hold are exactly those whose year is at most 9999. */
  lemma InRangeIffSupportedYear(s: int)
    requires s >= MinSeconds
    ensures InRange(s) <==> FromSeconds(s).date.year <= 9999
  {
    var t := FromSeconds(s);
    SupportedYears(t.date);
  }

  /** `n` written with exactly `width` decimal digits, zero-padded on the left. */
  function Digits(n: nat, width: nat): (r: string)
    ensures |r| == width && AllDigits(r)
  {
    if width == 0 then [] else Digits(n / 10, width - 1) + [DigitChar(n % 10)]
  }

  function Pow10(k: nat): nat {
    if k == 0 then 1 else 10 * Pow10(k - 1)
  }

  /** Reading back the digits of a number that fits the width gives the number. */
  lemma {:induction false} DigitsRoundTrip(n: nat, width: nat)
    requires n < Pow10(width)
    ensures DigitsValue(Digits(n, width)) == n
  {
    if width > 0 {
      DigitsRoundTrip(n / 10, width - 1);
      var s := Digits(n, width);
      assert s[..|s| - 1] == Digits(n / 10, width - 1);
    }
  }

  /** `strftime('%Y-%m-%d %H:%M:%S')` */
  function Render(t: Timestamp): (r: string)
    requires ValidTimestamp(t)
    ensures |r| == 19
  {
    Digits(t.date.year, 4) + "-" + Digits(t.date.month, 2) + "-" + Digits(t.date.day, 2) + " "
    + Digits(t.hour, 2) + ":" + Digits(t.minute, 2) + ":" + Digits(t.second, 2)
  }

  /** Reads a `YYYY-MM-DD HH:MM:SS` string back into its six fields. */
  function ParseTimestamp(s: string): Option<Timestamp> {
    if |s| == 19 && s[4] == '-' && s[7] == '-' && s[10] == ' ' && s[13] == ':' && s[16] == ':'
       && AllDigits(s[0..4]) && AllDigits(s[5..7]) && AllDigits(s[8..10])
       && AllDigits(s[11..13]) && AllDigits(s[14..16]) && AllDigits(s[17..19])
    then Some(Timestamp(Date(DigitsValue(s[0..4]), DigitsValue(s[5..7]), DigitsValue(s[8..10])),
                        DigitsValue(s[11..13]), DigitsValue(s[14..16]), DigitsValue(s[17..19])))
    else None
  }

  /** What `Render` writes, `ParseTimestamp` reads back, for every timestamp of the years 1 to 9999. */
  lemma RenderRoundTrip(t: Timestamp)
    requires ValidTimestamp(t) && t.date.year <= 9999
    ensures ParseTimestamp(Render(t)) == Some(t)
  {
    var y, mo, d := Digits(t.date.year, 4), Digits(t.date.month, 2), Digits(t.date.day, 2);
    var h, mi, s := Digits(t.hour, 2), Digits(t.minute, 2), Digits(t.second, 2);
    Layout(y, mo, d, h, mi, s);
    DigitsRoundTrip(t.date.year, 4);
    DigitsRoundTrip(t.date.month, 2);
    DigitsRoundTrip(t.date.day, 2);
    DigitsRoundTrip(t.hour, 2);
    DigitsRoundTrip(t.minute, 2);
    DigitsRoundTrip(t.second, 2);
  }

  /** Where each field sits in a rendered timestamp. */
  lemma Layout(y: string, mo: string, d: string, h: string, mi: string, s: string)
    requires |y| == 4 && |mo| == 2 && |d| == 2 && |h| == 2 && |mi| == 2 && |s| == 2
    ensures var r := y + "-" + mo + "-" + d + " " + h + ":" + mi + ":" + s;
            r[0..4] == y && r[4] == '-' && r[5..7] == mo && r[7] == '-' && r[8..10] == d && r[10] == ' '
            && r[11..13] == h && r[13] == ':' && r[14..16] == mi && r[16] == ':' && r[17..19] == s
  {
  }
}
