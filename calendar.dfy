/**
 * The part of Python's `datetime` that the store and the application rely on:
 * proleptic Gregorian dates between year 1 and year 9999, stepping by whole
 * days and by one microsecond, `replace`, and `isoformat()`.  Arithmetic that
 * leaves the supported years raises `OverflowError`; building a date from an
 * invalid month or year raises `ValueError`.
 */
module Calendar {
  import opened Wrappers
  import opened Collation

  const MINYEAR: int := 1
  const MAXYEAR: int := 9999

  datatype DateError = ValueError | OverflowError

  /** A naive (time-zone free) `datetime.datetime`. */
  datatype DateTime = DateTime(year: int, month: int, day: int,
                               hour: int, minute: int, second: int, microsecond: int)

  predicate IsLeap(year: int) {
    year % 4 == 0 && (year % 100 != 0 || year % 400 == 0)
  }

  /** Days per month of a common year, indexed from 1. */
  const DAYS_IN_MONTH: seq<int> := [-1, 31, 28, 31, 30, 31, 30, 31, 31, 30, 31, 30, 31]

  function DaysInMonth(year: int, month: int): (n: int)
    requires 1 <= month <= 12
    ensures 28 <= n <= 31
    ensures month == 2 ==> (n == 29 <==> IsLeap(year))
    ensures month != 2 ==> n == 30 || n == 31
  {
    if month == 2 && IsLeap(year) then 29 else DAYS_IN_MONTH[month]
  }

  predicate ValidDate(year: int, month: int, day: int) {
    MINYEAR <= year <= MAXYEAR && 1 <= month <= 12 && 1 <= day <= DaysInMonth(year, month)
  }

  predicate Valid(t: DateTime) {
    && ValidDate(t.year, t.month, t.day)
    && 0 <= t.hour < 24 && 0 <= t.minute < 60 && 0 <= t.second < 60
    && 0 <= t.microsecond < 1000000
  }

  /** `datetime(year, month, 1)`: midnight of the first day of a month. */
  function FirstInstant(year: int, month: int): DateTime {
    DateTime(year, month, 1, 0, 0, 0, 0)
  }

  /** 23:59:59.999999 on the last day of a month. */
  function LastInstant(year: int, month: int): DateTime
    requires 1 <= month <= 12
  {
    DateTime(year, month, DaysInMonth(year, month), 23, 59, 59, 999999)
  }

  /** `t + timedelta(days=1)`. */
  function NextDay(t: DateTime): (r: Result<DateTime, DateError>)
    requires Valid(t)
    ensures r.Ok? ==> Valid(r.value)
    ensures r.Err? <==> t.year == MAXYEAR && t.month == 12 && t.day == 31
  {
    if t.day < DaysInMonth(t.year, t.month) then Ok(t.(day := t.day + 1))
    else if t.month < 12 then Ok(t.(month := t.month + 1, day := 1))
    else if t.year < MAXYEAR then Ok(t.(year := t.year + 1, month := 1, day := 1))
    else Err(OverflowError)
  }

  /** `t - timedelta(days=1)`. */
  function PrevDay(t: DateTime): (r: Result<DateTime, DateError>)
    requires Valid(t)
    ensures r.Ok? ==> Valid(r.value)
    ensures r.Err? <==> t.year == MINYEAR && t.month == 1 && t.day == 1
  {
    if t.day > 1 then Ok(t.(day := t.day - 1))
    else if t.month > 1 then Ok(t.(month := t.month - 1, day := DaysInMonth(t.year, t.month - 1)))
    else if t.year > MINYEAR then Ok(t.(year := t.year - 1, month := 12, day := 31))
    else Err(OverflowError)
  }

  /**
   * `t + timedelta(days=n)`.  Python adds on day ordinals and checks the
   * result once; stepping one day at a time fails exactly when that result
   * is out of range, because the steps only move forward.
   */
  function AddDays(t: DateTime, n: nat): (r: Result<DateTime, DateError>)
    requires Valid(t)
    ensures r.Ok? ==> Valid(r.value)
    decreases n
  {
    if n == 0 then Ok(t)
    else
      match NextDay(t)
      case Err(e) => Err(e)
      case Ok(u) => AddDays(u, n - 1)
  }

  /** `t - timedelta(microseconds=1)`. */
  function MinusMicrosecond(t: DateTime): (r: Result<DateTime, DateError>)
    requires Valid(t)
    ensures r.Ok? ==> Valid(r.value)
  {
    if t.microsecond > 0 then Ok(t.(microsecond := t.microsecond - 1))
    else if t.second > 0 then Ok(t.(second := t.second - 1, microsecond := 999999))
    else if t.minute > 0 then Ok(t.(minute := t.minute - 1, second := 59, microsecond := 999999))
    else if t.hour > 0 then Ok(t.(hour := t.hour - 1, minute := 59, second := 59, microsecond := 999999))
    else
      match PrevDay(t)
      case Err(e) => Err(e)
      case Ok(u) => Ok(u.(hour := 23, minute := 59, second := 59, microsecond := 999999))
  }

  /** Stepping back one day from the first of a month lands on the last day of the month before. */
  lemma PrevDayFromFirst(t: DateTime)
    requires Valid(t) && t.day == 1 && !(t.year == MINYEAR && t.month == 1)
    ensures PrevDay(t).Ok?
    ensures var u := PrevDay(t).value;
      && (t.month > 1 ==> u.year == t.year && u.month == t.month - 1)
      && (t.month == 1 ==> u.year == t.year - 1 && u.month == 12)
      && u.day == DaysInMonth(u.year, u.month)
      && u.hour == t.hour && u.minute == t.minute && u.second == t.second
      && u.microsecond == t.microsecond
  {
  }

  /**
   * Four days after the 28th of a month is day `32 - DaysInMonth` of the
   * following month, since every month has 28 to 31 days; only December of
   * the last supported year has no following month.
   */
  lemma Day28PlusFour(year: int, month: int)
    requires MINYEAR <= year <= MAXYEAR && 1 <= month <= 12
    ensures var t := DateTime(year, month, 28, 0, 0, 0, 0);
      Valid(t) &&
      (if year == MAXYEAR && month == 12 then AddDays(t, 4) == Err(OverflowError)
       else AddDays(t, 4) == Ok(DateTime(if month == 12 then year + 1 else year,
                                         if month == 12 then 1 else month + 1,
                                         32 - DaysInMonth(year, month), 0, 0, 0, 0)))
  {
    var t := DateTime(year, month, 28, 0, 0, 0, 0);
    var n := DaysInMonth(year, month);
    var next := DateTime(if month == 12 then year + 1 else year, if month == 12 then 1 else month + 1, 1, 0, 0, 0, 0);
    // the five consecutive days from the 28th, as far as they exist
    var d1 := if n > 28 then t.(day := 29) else next;
    var d2 := if n > 29 then t.(day := 30) else if n == 29 then next else next.(day := 2);
    var d3 := if n > 30 then t.(day := 31) else next.(day := 31 - n);
    if year == MAXYEAR && month == 12 {
      assert NextDay(t) == Ok(d1) && NextDay(d1) == Ok(d2) && NextDay(d2) == Ok(d3);
      assert NextDay(d3) == Err(OverflowError);
      assert AddDays(d3, 1) == Err(OverflowError);
      assert AddDays(d2, 2) == Err(OverflowError);
      assert AddDays(d1, 3) == Err(OverflowError);
    } else {
      var d4 := next.(day := 32 - n);
      assert NextDay(t) == Ok(d1) && NextDay(d1) == Ok(d2) && NextDay(d2) == Ok(d3) && NextDay(d3) == Ok(d4);
      assert AddDays(d4, 0) == Ok(d4);
      assert AddDays(d3, 1) == Ok(d4);
      assert AddDays(d2, 2) == Ok(d4);
      assert AddDays(d1, 3) == Ok(d4);
    }
  }

  // ----- isoformat() -----

  function Digit(n: int): (c: char)
    requires 0 <= n < 10
    ensures '0' <= c <= '9'
  {
    (('0' as int) + n) as char
  }

  /** `%02d` of a number below 100. */
  function Pad2(n: int): (s: string)
    requires 0 <= n < 100
    ensures |s| == 2
  {
    [Digit(n / 10), Digit(n % 10)]
  }

  /** `%04d` of a number below 10000. */
  function Pad4(n: int): (s: string)
    requires 0 <= n < 10000
    ensures |s| == 4
  {
    Pad2(n / 100) + Pad2(n % 100)
  }

  /** `%06d` of a number below 1000000. */
  function Pad6(n: int): (s: string)
    requires 0 <= n < 1000000
    ensures |s| == 6
  {
    Pad2(n / 10000) + Pad4(n % 10000)
  }

  /** The fractional part: omitted when the microseconds are zero. */
  function Fraction(us: int): string
    requires 0 <= us < 1000000
  {
    if us == 0 then "" else "." + Pad6(us)
  }

  /** `t.isoformat()`: `YYYY-MM-DDTHH:MM:SS` followed by `.ffffff` when the microseconds are not zero. */
  function IsoFormat(t: DateTime): (s: string)
    requires Valid(t)
    ensures |s| == 19 || |s| == 26
  {
    Pad4(t.year) + ("-" + Pad2(t.month)) + ("-" + Pad2(t.day)) + ("T" + Pad2(t.hour))
      + (":" + Pad2(t.minute)) + (":" + Pad2(t.second)) + Fraction(t.microsecond)
  }

  /** Chronological order of two datetimes, field by field. */
  predicate NotAfter(a: DateTime, b: DateTime) {
    a.year < b.year || (a.year == b.year &&
    (a.month < b.month || (a.month == b.month &&
    (a.day < b.day || (a.day == b.day &&
    (a.hour < b.hour || (a.hour == b.hour &&
    (a.minute < b.minute || (a.minute == b.minute &&
    (a.second < b.second || (a.second == b.second &&
    a.microsecond <= b.microsecond)))))))))))
  }

  /** A valid datetime is at or after a month's first instant exactly when its month is not earlier. */
  lemma AfterFirstInstant(year: int, month: int, t: DateTime)
    requires Valid(t)
    ensures NotAfter(FirstInstant(year, month), t) <==> year < t.year || (year == t.year && month <= t.month)
  {
  }

  /** A valid datetime is at or before a month's last instant exactly when its month is not later. */
  lemma BeforeLastInstant(year: int, month: int, t: DateTime)
    requires Valid(t) && 1 <= month <= 12
    ensures NotAfter(t, LastInstant(year, month)) <==> t.year < year || (t.year == year && t.month <= month)
  {
  }

  lemma Pad2Order(m: int, n: int)
    requires 0 <= m < 100 && 0 <= n < 100
    ensures Pad2(m) == Pad2(n) <==> m == n
    ensures LexLe(Pad2(m), Pad2(n)) <==> m <= n
  {
    var a, b := Pad2(m), Pad2(n);
    assert m == 10 * (m / 10) + m % 10 && n == 10 * (n / 10) + n % 10;
    assert m <= n <==> m / 10 < n / 10 || (m / 10 == n / 10 && m % 10 <= n % 10);
    assert a[0] < b[0] <==> m / 10 < n / 10;
    assert a[0] == b[0] <==> m / 10 == n / 10;
    assert a[1] <= b[1] <==> m % 10 <= n % 10;
    assert a[1..][1..] == [] && b[1..][1..] == [];
    assert a[1..][0] == a[1] && b[1..][0] == b[1];
    assert LexLe(a[1..][1..], b[1..][1..]);
    assert LexLe(a[1..], b[1..]) <==> a[1] <= b[1];
    assert LexLe(a, b) <==> a[0] < b[0] || (a[0] == b[0] && a[1] <= b[1]);
    if a == b {
      assert a[0] == b[0] && a[1] == b[1];
    }
  }

  lemma SeparatedPad2(sep: string, m: int, n: int)
    requires 0 <= m < 100 && 0 <= n < 100
    ensures sep + Pad2(m) == sep + Pad2(n) <==> m == n
    ensures LexLe(sep + Pad2(m), sep + Pad2(n)) <==> m <= n
  {
    Pad2Order(m, n);
    LexLeConcat(sep, Pad2(m), sep, Pad2(n));
    if sep + Pad2(m) == sep + Pad2(n) {
      assert Pad2(m) == (sep + Pad2(m))[|sep|..];
    }
  }

  lemma Pad4Order(m: int, n: int)
    requires 0 <= m < 10000 && 0 <= n < 10000
    ensures Pad4(m) == Pad4(n) <==> m == n
    ensures LexLe(Pad4(m), Pad4(n)) <==> m <= n
  {
    Pad2Order(m / 100, n / 100);
    Pad2Order(m % 100, n % 100);
    LexLeConcat(Pad2(m / 100), Pad2(m % 100), Pad2(n / 100), Pad2(n % 100));
    if Pad4(m) == Pad4(n) {
      assert Pad2(m / 100) == Pad4(m)[..2] && Pad2(n / 100) == Pad4(n)[..2];
      assert Pad2(m % 100) == Pad4(m)[2..] && Pad2(n % 100) == Pad4(n)[2..];
    }
  }

  lemma Pad6Order(m: int, n: int)
    requires 0 <= m < 1000000 && 0 <= n < 1000000
    ensures LexLe(Pad6(m), Pad6(n)) <==> m <= n
  {
    Pad2Order(m / 10000, n / 10000);
    Pad4Order(m % 10000, n % 10000);
    LexLeConcat(Pad2(m / 10000), Pad4(m % 10000), Pad2(n / 10000), Pad4(n % 10000));
  }

  lemma FractionOrder(m: int, n: int)
    requires 0 <= m < 1000000 && 0 <= n < 1000000
    ensures LexLe(Fraction(m), Fraction(n)) <==> m <= n
  {
    if m != 0 && n != 0 {
      Pad6Order(m, n);
      LexLeConcat(".", Pad6(m), ".", Pad6(n));
    }
  }

  /** The time of day as `isoformat` writes it after the date. */
  function Clock(t: DateTime): string
    requires Valid(t)
  {
    "T" + Pad2(t.hour) + ((":" + Pad2(t.minute)) + ((":" + Pad2(t.second)) + Fraction(t.microsecond)))
  }

  /** On one day, the written times order as the times do. */
  lemma {:induction false} ClockOrder(a: DateTime, b: DateTime)
    requires Valid(a) && Valid(b)
    ensures LexLe(Clock(a), Clock(b)) <==>
      (a.hour < b.hour || (a.hour == b.hour &&
      (a.minute < b.minute || (a.minute == b.minute &&
      (a.second < b.second || (a.second == b.second && a.microsecond <= b.microsecond))))))
  {
    var s5a, s5b := ":" + Pad2(a.second) + Fraction(a.microsecond), ":" + Pad2(b.second) + Fraction(b.microsecond);
    var s4a, s4b := ":" + Pad2(a.minute) + s5a, ":" + Pad2(b.minute) + s5b;
    FractionOrder(a.microsecond, b.microsecond);
    SeparatedPad2(":", a.second, b.second);
    LexLeConcat(":" + Pad2(a.second), Fraction(a.microsecond), ":" + Pad2(b.second), Fraction(b.microsecond));
    SeparatedPad2(":", a.minute, b.minute);
    LexLeConcat(":" + Pad2(a.minute), s5a, ":" + Pad2(b.minute), s5b);
    SeparatedPad2("T", a.hour, b.hour);
    LexLeConcat("T" + Pad2(a.hour), s4a, "T" + Pad2(b.hour), s4b);
  }

  /** The day of the month and the time, as `isoformat` writes them after the month. */
  function DayClock(t: DateTime): string
    requires Valid(t)
  {
    "-" + Pad2(t.day) + Clock(t)
  }

  /** In one month, the written days and times order as they do. */
  lemma {:induction false} DayClockOrder(a: DateTime, b: DateTime)
    requires Valid(a) && Valid(b)
    ensures LexLe(DayClock(a), DayClock(b)) <==>
      (a.day < b.day || (a.day == b.day &&
      (a.hour < b.hour || (a.hour == b.hour &&
      (a.minute < b.minute || (a.minute == b.minute &&
      (a.second < b.second || (a.second == b.second && a.microsecond <= b.microsecond))))))))
  {
    ClockOrder(a, b);
    SeparatedPad2("-", a.day, b.day);
    LexLeConcat("-" + Pad2(a.day), Clock(a), "-" + Pad2(b.day), Clock(b));
  }

  /**
   * ISO strings sort chronologically: comparing two `isoformat()` strings as
   * SQLite and Python compare text gives the order of the datetimes.  The
   * fraction that `isoformat()` omits at zero microseconds does not upset it.
   */
  lemma {:induction false} IsoFormatOrder(a: DateTime, b: DateTime)
    requires Valid(a) && Valid(b)
    ensures LexLe(IsoFormat(a), IsoFormat(b)) <==> NotAfter(a, b)
  {
    var s1a, s1b := "-" + Pad2(a.month) + DayClock(a), "-" + Pad2(b.month) + DayClock(b);
    assert IsoFormat(a) == Pad4(a.year) + s1a;
    assert IsoFormat(b) == Pad4(b.year) + s1b;
    DayClockOrder(a, b);
    SeparatedPad2("-", a.month, b.month);
    LexLeConcat("-" + Pad2(a.month), DayClock(a), "-" + Pad2(b.month), DayClock(b));
    Pad4Order(a.year, b.year);
    LexLeConcat(Pad4(a.year), s1a, Pad4(b.year), s1b);
  }

  /** An `isoformat` string lies between those of a month's first and last instants exactly when its datetime is in that month. */
  lemma IsoFormatInMonth(year: int, month: int, t: DateTime)
    requires MINYEAR <= year <= MAXYEAR && 1 <= month <= 12 && Valid(t)
    ensures LexLe(IsoFormat(FirstInstant(year, month)), IsoFormat(t)) && LexLe(IsoFormat(t), IsoFormat(LastInstant(year, month)))
      <==> t.year == year && t.month == month
  {
    IsoFormatOrder(FirstInstant(year, month), t);
    IsoFormatOrder(t, LastInstant(year, month));
    AfterFirstInstant(year, month, t);
    BeforeLastInstant(year, month, t);
  }

  /** Days in the years before `year` (`_days_before_year`). */
  function DaysBeforeYear(year: int): int {
    var y := year - 1;
    y * 365 + y / 4 - y / 100 + y / 400
  }

  /** Days in the months of `year` before `month` (`_days_before_month`). */
  function DaysBeforeMonth(year: int, month: int): int
    requires 1 <= month <= 12
  {
    if month == 1 then 0 else DaysBeforeMonth(year, month - 1) + DaysInMonth(year, month - 1)
  }

  /** `date.toordinal()`: 1 January of year 1 is day 1. */
  function Ordinal(t: DateTime): int
    requires 1 <= t.month <= 12
  {
    DaysBeforeYear(t.year) + DaysBeforeMonth(t.year, t.month) + t.day
  }

  /** A datetime as microseconds on one time line, so that `b - a` is `Micros(b) - Micros(a)` microseconds. */
  function Micros(t: DateTime): int
    requires 1 <= t.month <= 12
  {
    (((Ordinal(t) * 24 + t.hour) * 60 + t.minute) * 60 + t.second) * 1000000 + t.microsecond
  }

  /** A year has 365 days, 366 when it is a leap year. */
  lemma DaysBeforeNextYear(year: int)
    requires MINYEAR <= year
    ensures DaysBeforeYear(year + 1) == DaysBeforeYear(year) + (if IsLeap(year) then 366 else 365)
  {
    var y := year - 1;
    DivStep(y, 4);
    DivStep(y, 100);
    DivStep(y, 400);
    DivisorsNest(year);
    var a := if year % 4 == 0 then 1 else 0;
    var b := if year % 100 == 0 then 1 else 0;
    var c := if year % 400 == 0 then 1 else 0;
    assert y + 1 == year;
    assert DaysBeforeYear(year + 1) - DaysBeforeYear(year) == 365 + a - b + c by {
      assert DaysBeforeYear(year + 1) == year * 365 + year / 4 - year / 100 + year / 400;
      assert DaysBeforeYear(year) == y * 365 + y / 4 - y / 100 + y / 400;
      assert year * 365 == y * 365 + 365;
    }
    assert IsLeap(year) <==> a - b + c == 1;
  }

  /** Every multiple of 400 is one of 100, and every multiple of 100 one of 4. */
  lemma DivisorsNest(year: int)
    ensures year % 400 == 0 ==> year % 100 == 0
    ensures year % 100 == 0 ==> year % 4 == 0
  {
    if year % 400 == 0 {
      var q := year / 400;
      assert year == 100 * (4 * q);
    }
    if year % 100 == 0 {
      var q := year / 100;
      assert year == 4 * (25 * q);
    }
  }

  /** Counting one further adds one multiple of 4, 100 or 400 exactly when the new count is one. */
  lemma DivStep(y: int, d: int)
    requires d == 4 || d == 100 || d == 400
    ensures (y + 1) / d == y / d + (if (y + 1) % d == 0 then 1 else 0)
  {
    if d == 4 {
      assert (y + 1) / 4 == y / 4 + (if (y + 1) % 4 == 0 then 1 else 0);
    } else if d == 100 {
      assert (y + 1) / 100 == y / 100 + (if (y + 1) % 100 == 0 then 1 else 0);
    } else {
      assert (y + 1) / 400 == y / 400 + (if (y + 1) % 400 == 0 then 1 else 0);
    }
  }

  /** The months before December and December itself make up the year. */
  lemma DaysBeforeDecember(year: int)
    ensures DaysBeforeMonth(year, 12) + 31 == (if IsLeap(year) then 366 else 365)
  {
    var leap := if IsLeap(year) then 1 else 0;
    assert DaysBeforeMonth(year, 2) == 31;
    assert DaysBeforeMonth(year, 3) == 59 + leap;
    assert DaysBeforeMonth(year, 4) == 90 + leap;
    assert DaysBeforeMonth(year, 5) == 120 + leap;
    assert DaysBeforeMonth(year, 6) == 151 + leap;
    assert DaysBeforeMonth(year, 7) == 181 + leap;
    assert DaysBeforeMonth(year, 8) == 212 + leap;
    assert DaysBeforeMonth(year, 9) == 243 + leap;
    assert DaysBeforeMonth(year, 10) == 273 + leap;
    assert DaysBeforeMonth(year, 11) == 304 + leap;
  }

  /** The ordinal counts days: the next day is one more. */
  lemma OrdinalNextDay(t: DateTime)
    requires Valid(t) && NextDay(t).Ok?
    ensures Ordinal(NextDay(t).value) == Ordinal(t) + 1
    ensures Micros(NextDay(t).value) == Micros(t) + 86400000000
  {
    if t.day == DaysInMonth(t.year, t.month) && t.month == 12 {
      DaysBeforeNextYear(t.year);
      DaysBeforeDecember(t.year);
    }
  }
}
