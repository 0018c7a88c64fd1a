/**
 * The UTC calendar behind `Date.prototype.toISOString` (the Date Time String
 * Format of ECMAScript, section 21.4.1.32 of ECMA-262): time values in
 * milliseconds since the epoch, their proleptic Gregorian date, the
 * `YYYY-MM-DDTHH:mm:ss.sssZ` text, and the reading of a `YYYY-MM-DD` literal
 * as the midnight that starts that date.
 */
module IsoDate {
  import opened Wrappers

  const MsPerDay: int := 86_400_000

  predicate IsLeap(y: int)
  {
    y % 4 == 0 && (y % 100 != 0 || y % 400 == 0)
  }

  function YearLength(y: int): nat
  {
    if IsLeap(y) then 366 else 365
  }

  function MonthLength(y: int, m: int): nat
    requires 1 <= m <= 12
  {
    if m == 2 then (if IsLeap(y) then 29 else 28)
    else if m == 4 || m == 6 || m == 9 || m == 11 then 30
    else 31
  }

  /** Days of year `y` before the first of month `m`. */
  function DaysBeforeMonth(y: int, m: int): nat
    requires 1 <= m <= 12
  {
    var leapDay := if m > 2 && IsLeap(y) then 1 else 0;
    leapDay +
      (if m == 1 then 0 else if m == 2 then 31 else if m == 3 then 59 else if m == 4 then 90
       else if m == 5 then 120 else if m == 6 then 151 else if m == 7 then 181 else if m == 8 then 212
       else if m == 9 then 243 else if m == 10 then 273 else if m == 11 then 304 else 334)
  }

  lemma DaysBeforeNextMonth(y: int, m: int)
    requires 1 <= m < 12
    ensures DaysBeforeMonth(y, m + 1) == DaysBeforeMonth(y, m) + MonthLength(y, m)
  {
  }

  /** December ends the year. */
  lemma DecemberEndsYear(y: int)
    ensures DaysBeforeMonth(y, 12) + MonthLength(y, 12) == YearLength(y)
  {
  }

  /**
   * The number of leap years in [1, y) for y >= 1, and minus the number in
   * [y, 1) below that, by the rules of the Gregorian calendar; only its
   * differences are used.
   */
  function LeapsBefore(y: int): int
  {
    (y - 1) / 4 - (y - 1) / 100 + (y - 1) / 400
  }

  /** Days from 1 January 1970 to 1 January of `y` (negative before 1970). */
  function DaysBeforeYear(y: int): int
  {
    365 * (y - 1970) + LeapsBefore(y) - LeapsBefore(1970)
  }

  /** `y` is a multiple of `k` exactly when `y / k` steps up from `(y - 1) / k`. */
  lemma DivStep(y: int, k: int)
    requires k == 4 || k == 100 || k == 400
    ensures y / k - (y - 1) / k == if y % k == 0 then 1 else 0
  {
  }

  /** The leap-year rules nest: a multiple of 400 is one of 100, and a multiple of 100 is one of 4. */
  lemma MultiplesNest(y: int)
    ensures y % 400 == 0 ==> y % 100 == 0
    ensures y % 100 == 0 ==> y % 4 == 0
  {
    if y % 400 == 0 {
      var q := y / 400;
      assert y == 100 * (4 * q);
    }
    if y % 100 == 0 {
      var h := y / 100;
      assert y == 4 * (25 * h);
    }
  }

  /** One more leap year lies below `y + 1` than below `y` exactly when `y` is a leap year. */
  lemma LeapsStep(y: int)
    ensures LeapsBefore(y + 1) - LeapsBefore(y) == if IsLeap(y) then 1 else 0
  {
    DivStep(y, 4);
    DivStep(y, 100);
    DivStep(y, 400);
    MultiplesNest(y);
  }

  /** Consecutive years are one year length apart. */
  lemma NextYear(y: int)
    ensures DaysBeforeYear(y + 1) == DaysBeforeYear(y) + YearLength(y)
  {
    LeapsStep(y);
  }

  /** A year earlier than another ends no later than the other begins. */
  lemma {:induction false} YearsInOrder(a: int, b: int)
    requires a < b
    ensures DaysBeforeYear(a) + YearLength(a) <= DaysBeforeYear(b)
    decreases b - a
  {
    NextYear(a);
    if a + 1 < b {
      YearsInOrder(a + 1, b);
    }
  }

  /** A month earlier than another in the same year ends no later than the other begins. */
  lemma {:induction false} MonthsInOrder(y: int, a: int, b: int)
    requires 1 <= a < b <= 12
    ensures DaysBeforeMonth(y, a) + MonthLength(y, a) <= DaysBeforeMonth(y, b)
    decreases b - a
  {
    DaysBeforeNextMonth(y, a);
    if a + 1 < b {
      MonthsInOrder(y, a + 1, b);
    }
  }

  datatype Date = Date(year: int, month: nat, day: nat)

  predicate ValidDate(dt: Date)
  {
    1 <= dt.month <= 12 && 1 <= dt.day <= MonthLength(dt.year, dt.month)
  }

  /** Days from 1 January 1970 to `dt`: ECMAScript's `Day(t)` of its midnight. */
  function DayNumber(dt: Date): int
    requires 1 <= dt.month <= 12
  {
    DaysBeforeYear(dt.year) + DaysBeforeMonth(dt.year, dt.month) + dt.day - 1
  }

  /** The year holding the day `rem` days after 1 January of `y`, and that day's place in its year. */
  function YearOf(y: int, rem: int): (r: (int, nat))
    ensures r.1 < YearLength(r.0)
    ensures DaysBeforeYear(r.0) + r.1 == DaysBeforeYear(y) + rem
    decreases if rem < 0 then 400 - rem else rem
  {
    if rem < 0 then
      NextYear(y - 1);
      YearOf(y - 1, rem + YearLength(y - 1))
    else if rem >= YearLength(y) then
      NextYear(y);
      YearOf(y + 1, rem - YearLength(y))
    else
      (y, rem)
  }

  /** The month holding day `doy` (from 0) of year `y`, searching from month `m`, and the day of that month. */
  function MonthOf(y: int, doy: nat, m: int): (r: (int, int))
    requires 1 <= m <= 12
    requires DaysBeforeMonth(y, m) + doy < YearLength(y)
    ensures m <= r.0 <= 12 && 1 <= r.1 <= MonthLength(y, r.0)
    ensures DaysBeforeMonth(y, r.0) + r.1 - 1 == DaysBeforeMonth(y, m) + doy
    decreases 12 - m
  {
    DecemberEndsYear(y);
    if m == 12 || doy < MonthLength(y, m) then
      (m, doy + 1)
    else
      DaysBeforeNextMonth(y, m);
      MonthOf(y, doy - MonthLength(y, m), m + 1)
  }

  /** The date of day number `n`: ECMAScript's `YearFromTime`, `MonthFromTime` and `DateFromTime`. */
  function FromDayNumber(n: int): (dt: Date)
    ensures ValidDate(dt)
    ensures DayNumber(dt) == n
  {
    var (y, doy) := YearOf(1970, n);
    var (m, d) := MonthOf(y, doy, 1);
    Date(y, m, d)
  }

  /** Two valid dates with one day number are the same date. */
  lemma SameDayNumber(a: Date, b: Date)
    requires ValidDate(a) && ValidDate(b) && DayNumber(a) == DayNumber(b)
    ensures a == b
  {
    DayOfYearInRange(a);
    DayOfYearInRange(b);
    if a.year < b.year {
      YearsInOrder(a.year, b.year);
    } else if b.year < a.year {
      YearsInOrder(b.year, a.year);
    }
    assert a.year == b.year;
    if a.month < b.month {
      MonthsInOrder(a.year, a.month, b.month);
    } else if b.month < a.month {
      MonthsInOrder(a.year, b.month, a.month);
    }
  }

  lemma DayOfYearInRange(dt: Date)
    requires ValidDate(dt)
    ensures DaysBeforeMonth(dt.year, dt.month) + dt.day - 1 < YearLength(dt.year)
  {
    DecemberEndsYear(dt.year);
    if dt.month < 12 {
      MonthsInOrder(dt.year, dt.month, 12);
    }
  }

  /** Day numbers and valid dates correspond one to one. */
  lemma FromDayNumberOfDate(dt: Date)
    requires ValidDate(dt)
    ensures FromDayNumber(DayNumber(dt)) == dt
  {
    SameDayNumber(FromDayNumber(DayNumber(dt)), dt);
  }

  /** 1 January 2025 is day 20089, and day 20089 is 1 January 2025. */
  lemma NewYear2025()
    ensures DayNumber(Date(2025, 1, 1)) == 20089
    ensures FromDayNumber(20089) == Date(2025, 1, 1)
  {
    assert LeapsBefore(2025) == 491 && LeapsBefore(1970) == 477;
    assert DayNumber(Date(2025, 1, 1)) == 20089;
    FromDayNumberOfDate(Date(2025, 1, 1));
  }

  // ------------------------------------------------------------- digits

  function DigitChar(d: int): char
    requires 0 <= d < 10
  {
    ('0' as int + d) as char
  }

  predicate IsDigit(c: char)
  {
    '0' <= c <= '9'
  }

  function DigitValue(c: char): nat
  {
    if IsDigit(c) then c as int - '0' as int else 0
  }

  predicate AllDigits(s: string)
  {
    forall i :: 0 <= i < |s| ==> IsDigit(s[i])
  }

  /** The number a text of decimal digits spells. */
  function Value(s: string): nat
  {
    if s == [] then 0 else Value(s[..|s| - 1]) * 10 + DigitValue(s[|s| - 1])
  }

  function Pow10(w: nat): nat
  {
    if w == 0 then 1 else 10 * Pow10(w - 1)
  }

  /** `n` in exactly `w` decimal digits, with leading zeros. */
  function Pad(n: nat, w: nat): (r: string)
    ensures |r| == w
    ensures AllDigits(r)
    ensures n < Pow10(w) ==> Value(r) == n
  {
    if w == 0 then []
    else
      var front := Pad(n / 10, w - 1);
      var r := front + [DigitChar(n % 10)];
      assert r[..|r| - 1] == front;
      r
  }

  // --------------------------------------------------------------- text

  /** The year field: four digits for years 0 to 9999, otherwise a sign and six digits. */
  function YearText(y: int): (r: string)
    ensures 0 <= y <= 9999 ==> |r| == 4 && AllDigits(r) && Value(r) == y
    ensures !(0 <= y <= 9999) ==> |r| == 7 && r[0] == (if y < 0 then '-' else '+') && AllDigits(r[1..])
  {
    assert Pow10(4) == 10000;
    if 0 <= y <= 9999 then Pad(y, 4)
    else
      var r := [if y < 0 then '-' else '+'] + Pad(if y < 0 then -y else y, 6);
      assert r[1..] == Pad(if y < 0 then -y else y, 6);
      r
  }

  /** `YYYY-MM-DD` */
  function DateText(dt: Date): (r: string)
    ensures 'T' !in r
    ensures |r| == if 0 <= dt.year <= 9999 then 10 else 13
  {
    var y := YearText(dt.year);
    var r := y + ("-" + (Pad(dt.month, 2) + ("-" + Pad(dt.day, 2))));
    assert forall i :: 0 <= i < |r| ==> r[i] == '-' || r[i] == '+' || IsDigit(r[i]) by {
      assert forall i :: 0 <= i < |y| ==> y[i] == '-' || y[i] == '+' || IsDigit(y[i]) by {
        if !(0 <= dt.year <= 9999) {
          assert forall i :: 1 <= i < |y| ==> y[i] == y[1..][i - 1];
        }
      }
    }
    r
  }

  /** `HH:mm:ss.sss` of a time within its day. */
  function TimeText(ms: int): (r: string)
    requires 0 <= ms < MsPerDay
    ensures |r| == 12 && r[2] == ':' && r[5] == ':' && r[8] == '.'
  {
    Pad(ms / 3_600_000, 2) + ":" + Pad(ms / 60_000 % 60, 2) + ":" + Pad(ms / 1000 % 60, 2) + "." + Pad(ms % 1000, 3)
  }

  /** The UTC date of a time value: `Day(t)` is `t / MsPerDay` rounded down, as Dafny's `/` on a positive divisor does. */
  function UtcDate(t: int): (dt: Date)
    ensures ValidDate(dt)
    ensures MidnightOf(dt) <= t < MidnightOf(dt) + MsPerDay
  {
    FromDayNumber(t / MsPerDay)
  }

  /** `new Date(t).toISOString()` */
  function IsoString(t: int): string
  {
    DateText(UtcDate(t)) + ("T" + (TimeText(t % MsPerDay) + "Z"))
  }

  /** The instant a `YYYY-MM-DD` literal stands for in a timestamp comparison in UTC: the midnight that starts the date. */
  function MidnightOf(dt: Date): int
    requires 1 <= dt.month <= 12
  {
    DayNumber(dt) * MsPerDay
  }

  /**
   * A `YYYY-MM-DD` literal, read back: None for any other text or a date that
   * does not exist.
   */
  function ParseDate(s: string): (r: Option<Date>)
    ensures r.Some? ==> ValidDate(r.value)
  {
    if |s| == 10 && s[4] == '-' && s[7] == '-' && AllDigits(s[..4]) && AllDigits(s[5..7]) && AllDigits(s[8..]) then
      var dt := Date(Value(s[..4]), Value(s[5..7]), Value(s[8..]));
      if ValidDate(dt) then Some(dt) else None
    else None
  }

  /** Reading the date text back gives the date, for every year that has four digits. */
  lemma ParseDateText(dt: Date)
    requires ValidDate(dt) && 0 <= dt.year <= 9999
    ensures ParseDate(DateText(dt)) == Some(dt)
  {
    var y := YearText(dt.year);
    var m := Pad(dt.month, 2);
    var d := Pad(dt.day, 2);
    var s := y + ("-" + (m + ("-" + d)));
    assert Pow10(2) == 100;
    assert s[..4] == y;
    assert s[5..7] == m;
    assert s[8..] == d;
  }
}
