/** Naive proleptic-Gregorian date-times as Python's `datetime.datetime`
    holds them: seven fields, years 1..9999, microsecond resolution.
    Python orders two naive datetimes field by field; `Instant` places one on
    a timeline of microseconds, and the two orders are proved to agree. */
module Calendar {
  import opened Base

  datatype DateTime = DateTime(year: nat, month: nat, day: nat,
                               hour: nat, minute: nat, second: nat, micro: nat)

  predicate IsLeap(y: nat)
  {
    y % 4 == 0 && (y % 100 != 0 || y % 400 == 0)
  }

  function DaysInMonth(y: nat, m: nat): (n: nat)
    requires 1 <= m <= 12
    ensures 28 <= n <= 31
  {
    if m == 2 then (if IsLeap(y) then 29 else 28)
    else if m == 4 || m == 6 || m == 9 || m == 11 then 30
    else 31
  }

  function DaysInYear(y: nat): nat
  {
    if IsLeap(y) then 366 else 365
  }

  /** What the datetime constructor accepts; anything else is a ValueError. */
  predicate Valid(dt: DateTime)
  {
    && 1 <= dt.year <= 9999
    && 1 <= dt.month <= 12
    && 1 <= dt.day <= DaysInMonth(dt.year, dt.month)
    && dt.hour < 24 && dt.minute < 60 && dt.second < 60 && dt.micro < 1000000
  }

  /** Days of year `y` before the first day of month `m`. */
  function DaysBeforeMonth(y: nat, m: nat): nat
    requires 1 <= m <= 12
  {
    var common :=
      if m == 1 then 0 else if m == 2 then 31 else if m == 3 then 59
      else if m == 4 then 90 else if m == 5 then 120 else if m == 6 then 151
      else if m == 7 then 181 else if m == 8 then 212 else if m == 9 then 243
      else if m == 10 then 273 else if m == 11 then 304 else 334;
    if m > 2 && IsLeap(y) then common + 1 else common
  }

  /** Days from 0001-01-01 to the first day of year `y`. */
  function DaysBeforeYear(y: nat): nat
    requires y >= 1
  {
    if y == 1 then 0 else DaysBeforeYear(y - 1) + DaysInYear(y - 1)
  }

  /** `date.toordinal()`: 0001-01-01 is day 1. */
  function Ordinal(dt: DateTime): nat
    requires Valid(dt)
  {
    DaysBeforeYear(dt.year) + DaysBeforeMonth(dt.year, dt.month) + dt.day
  }

  const DayMicros: nat := 86400 * 1000000
  const HourMicros: nat := 3600 * 1000000

  function TimeOfDay(dt: DateTime): nat
  {
    ((dt.hour * 60 + dt.minute) * 60 + dt.second) * 1000000 + dt.micro
  }

  /** Microseconds since midnight before 0001-01-01. */
  function Instant(dt: DateTime): int
    requires Valid(dt)
  {
    Ordinal(dt) * DayMicros + TimeOfDay(dt)
  }

  /** Python's `a > b` on naive datetimes: the first differing field decides. */
  predicate After(a: DateTime, b: DateTime)
  {
    if a.year != b.year then a.year > b.year
    else if a.month != b.month then a.month > b.month
    else if a.day != b.day then a.day > b.day
    else if a.hour != b.hour then a.hour > b.hour
    else if a.minute != b.minute then a.minute > b.minute
    else if a.second != b.second then a.second > b.second
    else a.micro > b.micro
  }

  /** The calendar day after a valid date, or None after 9999-12-31. */
  function NextDay(dt: DateTime): (r: Option<DateTime>)
    requires Valid(dt)
    ensures r.Some? ==> Valid(r.value) && Ordinal(r.value) == Ordinal(dt) + 1
    ensures r.Some? ==> TimeOfDay(r.value) == TimeOfDay(dt)
    ensures r.None? <==> dt.year == 9999 && dt.month == 12 && dt.day == 31
  {
    if dt.day < DaysInMonth(dt.year, dt.month) then
      Some(dt.(day := dt.day + 1))
    else if dt.month < 12 then
      MonthStep(dt.year, dt.month);
      Some(dt.(month := dt.month + 1, day := 1))
    else if dt.year < 9999 then
      YearStep(dt.year);
      Some(dt.(year := dt.year + 1, month := 1, day := 1))
    else None
  }

  /** `dt + timedelta(hours=1)`: the hour rolls over into the next day, month
      and year; None stands for the OverflowError past year 9999. */
  function AddHour(dt: DateTime): (r: Option<DateTime>)
    requires Valid(dt)
    ensures r.Some? ==> Valid(r.value) && Instant(r.value) == Instant(dt) + HourMicros
    ensures r.None? <==> dt.year == 9999 && dt.month == 12 && dt.day == 31 && dt.hour == 23
  {
    if dt.hour < 23 then
      NextHourInstant(dt);
      Some(dt.(hour := dt.hour + 1))
    else
      match NextDay(dt)
      case None => None
      case Some(next) =>
        MidnightInstant(dt, next);
        Some(next.(hour := 0))
  }

  lemma NextHourInstant(dt: DateTime)
    requires Valid(dt) && dt.hour < 23
    ensures Valid(dt.(hour := dt.hour + 1))
    ensures Instant(dt.(hour := dt.hour + 1)) == Instant(dt) + HourMicros
  {
    var later := dt.(hour := dt.hour + 1);
    assert Ordinal(later) == Ordinal(dt);
    HoursOfDay(dt);
    HoursOfDay(later);
  }

  lemma MidnightInstant(dt: DateTime, next: DateTime)
    requires Valid(dt) && dt.hour == 23 && Valid(next)
    requires Ordinal(next) == Ordinal(dt) + 1 && TimeOfDay(next) == TimeOfDay(dt)
    ensures Valid(next.(hour := 0))
    ensures Instant(next.(hour := 0)) == Instant(dt) + HourMicros
  {
    var later := next.(hour := 0);
    assert Ordinal(later) == Ordinal(next);
    HoursOfDay(dt);
    HoursOfDay(next);
    HoursOfDay(later);
    NextDayMicros(Ordinal(dt));
  }

  /** The time of day as whole hours and the rest of the hour. */
  lemma HoursOfDay(dt: DateTime)
    ensures TimeOfDay(dt) == dt.hour * HourMicros + ((dt.minute * 60 + dt.second) * 1000000 + dt.micro)
  {
  }

  lemma NextDayMicros(o: nat)
    ensures (o + 1) * DayMicros == o * DayMicros + 24 * HourMicros
  {
  }

  lemma MonthStep(y: nat, m: nat)
    requires 1 <= m < 12
    ensures DaysBeforeMonth(y, m) + DaysInMonth(y, m) == DaysBeforeMonth(y, m + 1)
  {
  }

  lemma YearStep(y: nat)
    requires y >= 1
    ensures DaysBeforeMonth(y, 12) + DaysInMonth(y, 12) == DaysInYear(y)
    ensures DaysBeforeYear(y + 1) == DaysBeforeYear(y) + DaysInYear(y)
  {
  }

  lemma MonthsMonotone(y: nat, m: nat, m': nat)
    requires 1 <= m < m' <= 12
    ensures DaysBeforeMonth(y, m) + DaysInMonth(y, m) <= DaysBeforeMonth(y, m')
  {
  }

  lemma {:induction false} YearsMonotone(y: nat, y': nat)
    requires 1 <= y < y'
    ensures DaysBeforeYear(y) + DaysInYear(y) <= DaysBeforeYear(y')
  {
    if y' > y + 1 {
      YearsMonotone(y, y' - 1);
    }
  }

  /** Later calendar days have larger ordinals. */
  lemma OrdinalMonotone(a: DateTime, b: DateTime)
    requires Valid(a) && Valid(b)
    requires (a.year, a.month, a.day) != (b.year, b.month, b.day)
    requires After(a, b)
    ensures Ordinal(a) > Ordinal(b)
  {
    if a.year != b.year {
      YearsMonotone(b.year, a.year);
      YearStep(b.year);
    } else if a.month != b.month {
      MonthsMonotone(a.year, b.month, a.month);
    }
  }

  lemma TimeOfDayBound(dt: DateTime)
    requires Valid(dt)
    ensures TimeOfDay(dt) < DayMicros
  {
  }

  lemma AfterMeansLater(a: DateTime, b: DateTime)
    requires Valid(a) && Valid(b) && After(a, b)
    ensures Instant(a) > Instant(b)
  {
    TimeOfDayBound(b);
    if (a.year, a.month, a.day) != (b.year, b.month, b.day) {
      OrdinalMonotone(a, b);
      LaterDay(Ordinal(a), Ordinal(b), TimeOfDay(a), TimeOfDay(b));
    } else {
      SameDayLater(a, b);
    }
  }

  lemma LaterDay(da: nat, db: nat, ta: nat, tb: nat)
    requires da > db && tb < DayMicros
    ensures da * DayMicros + ta > db * DayMicros + tb
  {
    assert da * DayMicros == db * DayMicros + (da - db) * DayMicros;
    assert (da - db) * DayMicros >= DayMicros;
  }

  lemma SameDayLater(a: DateTime, b: DateTime)
    requires Valid(a) && Valid(b) && After(a, b)
    requires (a.year, a.month, a.day) == (b.year, b.month, b.day)
    ensures TimeOfDay(a) > TimeOfDay(b)
  {
  }

  /** Python's field-by-field comparison of valid datetimes is exactly the
      comparison of their positions on the timeline. */
  lemma AfterIsTimelineOrder(a: DateTime, b: DateTime)
    requires Valid(a) && Valid(b)
    ensures After(a, b) <==> Instant(a) > Instant(b)
  {
    if After(a, b) {
      AfterMeansLater(a, b);
    } else if a != b {
      assert After(b, a);
      AfterMeansLater(b, a);
    }
  }
}
