/**
 * The proleptic Gregorian calendar on integer day numbers.
 *
 * A `Day` counts days from 1 January 1970, the epoch of JavaScript's `Date`;
 * a local midnight (`startOfDay`) is one day number, `addDays(d, n)` is
 * `d + n`, and the difference of two midnights in days is a subtraction
 * (in a time zone without daylight saving; see `LeadTime.DaysBetween`).
 * `Civil` and `DayNumber` convert between day numbers and (year, month, day)
 * as `getFullYear`/`getMonth`/`getDate` and `new Date(y, m, d)` do.
 */
module Calendar {

  /** Days since 1970-01-01. */
  type Day = int

  /** A calendar date; `month` is 1..12 (JavaScript's `getMonth() + 1`). */
  datatype Date = Date(year: int, month: int, day: int)

  predicate IsLeapYear(y: int) {
    y % 4 == 0 && (y % 100 != 0 || y % 400 == 0)
  }

  function DaysInYear(y: int): int {
    if IsLeapYear(y) then 366 else 365
  }

  function DaysInMonth(y: int, m: int): int
    requires 1 <= m <= 12
  {
    if m == 2 then (if IsLeapYear(y) then 29 else 28)
    else if m == 4 || m == 6 || m == 9 || m == 11 then 30
    else 31
  }

  /** Days of year `y` before the first of month `m`. */
  function DaysBeforeMonth(y: int, m: int): int
    requires 1 <= m <= 12
  {
    var leap := if m > 2 && IsLeapYear(y) then 1 else 0;
    leap + (if m == 1 then 0 else if m == 2 then 31 else if m == 3 then 59
            else if m == 4 then 90 else if m == 5 then 120 else if m == 6 then 151
            else if m == 7 then 181 else if m == 8 then 212 else if m == 9 then 243
            else if m == 10 then 273 else if m == 11 then 304 else 334)
  }

  /** The months of a year follow each other without gaps and fill the year. */
  lemma MonthsTile(y: int, m: int)
    requires 1 <= m <= 12
    ensures m < 12 ==> DaysBeforeMonth(y, m) + DaysInMonth(y, m) == DaysBeforeMonth(y, m + 1)
    ensures m == 12 ==> DaysBeforeMonth(y, m) + DaysInMonth(y, m) == DaysInYear(y)
    ensures 0 <= DaysBeforeMonth(y, m) && 28 <= DaysInMonth(y, m)
  {
  }

  /** Later months start later in the year. */
  lemma {:induction false} DaysBeforeMonthMonotone(y: int, m: int, k: int)
    requires 1 <= m <= k <= 12
    ensures DaysBeforeMonth(y, m) + 28 * (k - m) <= DaysBeforeMonth(y, k)
    decreases k - m
  {
    if m < k {
      MonthsTile(y, k - 1);
      DaysBeforeMonthMonotone(y, m, k - 1);
    }
  }

  /** Leap days in the years 1 .. y-1 (negative counts for years before 1). */
  function LeapDaysBefore(y: int): int {
    (y - 1) / 4 - (y - 1) / 100 + (y - 1) / 400
  }

  /** The day number of 1 January of year `y`. */
  function YearStart(y: int): Day {
    365 * (y - 1970) + LeapDaysBefore(y) - LeapDaysBefore(1970)
  }

  lemma {:induction false} YearStartStep(y: int)
    ensures YearStart(y + 1) == YearStart(y) + DaysInYear(y)
  {
    assert y / 4 - (y - 1) / 4 == (if y % 4 == 0 then 1 else 0);
    assert y / 100 - (y - 1) / 100 == (if y % 100 == 0 then 1 else 0);
    assert y / 400 - (y - 1) / 400 == (if y % 400 == 0 then 1 else 0);
  }

  /** Later years start later: at least a whole year of 365 days per year. */
  lemma {:induction false} YearStartMonotone(a: int, b: int)
    requires a < b
    ensures YearStart(a) + 365 * (b - a) <= YearStart(b)
    decreases b - a
  {
    YearStartStep(b - 1);
    if a < b - 1 {
      YearStartMonotone(a, b - 1);
    }
  }

  function YearUp(z: Day, y: int): (r: int)
    requires YearStart(y) <= z
    ensures YearStart(r) <= z < YearStart(r + 1)
    decreases z - YearStart(y)
  {
    YearStartStep(y);
    if z < YearStart(y + 1) then y else YearUp(z, y + 1)
  }

  function YearDown(z: Day, y: int): (r: int)
    requires z < YearStart(y + 1)
    ensures YearStart(r) <= z < YearStart(r + 1)
    decreases YearStart(y + 1) - z
  {
    YearStartStep(y);
    if YearStart(y) <= z then y else YearDown(z, y - 1)
  }

  /** `getFullYear()`: the year whose days contain `z`. */
  function YearOf(z: Day): (r: int)
    ensures YearStart(r) <= z < YearStart(r + 1)
  {
    if z >= 0 then YearUp(z, 1970) else YearDown(z, 1969)
  }

  /** There is only one such year. */
  lemma YearOfUnique(z: Day, y: int)
    requires YearStart(y) <= z < YearStart(y + 1)
    ensures YearOf(z) == y
  {
    var r := YearOf(z);
    if r < y {
      YearStartLe(r + 1, y);
    } else if r > y {
      YearStartLe(y + 1, r);
    }
  }

  lemma YearStartLe(a: int, b: int)
    requires a <= b
    ensures YearStart(a) <= YearStart(b)
  {
    if a < b {
      YearStartMonotone(a, b);
    }
  }

  /** A later day is never in an earlier year. */
  lemma YearOfMonotone(a: Day, b: Day)
    requires a <= b
    ensures YearOf(a) <= YearOf(b)
  {
    if YearOf(a) > YearOf(b) {
      YearStartMonotone(YearOf(b) + 1, YearOf(a));
    }
  }

  function MonthFrom(y: int, doy: int, m: int): (r: int)
    requires 1 <= m <= 12 && DaysBeforeMonth(y, m) <= doy < DaysInYear(y)
    ensures m <= r <= 12
    ensures DaysBeforeMonth(y, r) <= doy < DaysBeforeMonth(y, r) + DaysInMonth(y, r)
    decreases 12 - m
  {
    MonthsTile(y, m);
    if m == 12 || doy < DaysBeforeMonth(y, m + 1) then m else MonthFrom(y, doy, m + 1)
  }

  /** The first day of month `m` of year `y`. */
  function MonthStart(y: int, m: int): Day
    requires 1 <= m <= 12
  {
    YearStart(y) + DaysBeforeMonth(y, m)
  }

  predicate ValidDate(dt: Date) {
    1 <= dt.month <= 12 && 1 <= dt.day <= DaysInMonth(dt.year, dt.month)
  }

  /** The day number of a date; a day past the end of its month rolls over. */
  function DayNumber(dt: Date): Day
    requires 1 <= dt.month <= 12
  {
    MonthStart(dt.year, dt.month) + dt.day - 1
  }

  /** The calendar date of day `z`; what it satisfies is `CivilIsDate`. */
  function Civil(z: Day): (dt: Date)
    ensures 1 <= dt.month <= 12
  {
    var y := YearOf(z);
    YearStartStep(y);
    var m := MonthFrom(y, z - YearStart(y), 1);
    Date(y, m, z - MonthStart(y, m) + 1)
  }

  /** The date of day `z` is a valid date whose day number is `z`, in the year `YearOf` gives. */
  lemma CivilIsDate(z: Day)
    ensures ValidDate(Civil(z)) && DayNumber(Civil(z)) == z
    ensures Civil(z).year == YearOf(z)
  {
    YearStartStep(YearOf(z));
  }

  /** Within a year, the month of a day is the only month whose days contain it. */
  lemma MonthUnique(y: int, m: int, k: int, doy: int)
    requires 1 <= m <= 12 && 1 <= k <= 12
    requires DaysBeforeMonth(y, m) <= doy < DaysBeforeMonth(y, m) + DaysInMonth(y, m)
    requires DaysBeforeMonth(y, k) <= doy < DaysBeforeMonth(y, k) + DaysInMonth(y, k)
    ensures m == k
  {
  }

  /** Round trip: the date of a valid date's day number is that date. */
  lemma CivilOfDayNumber(dt: Date)
    requires ValidDate(dt)
    ensures Civil(DayNumber(dt)) == dt
  {
    var z := DayNumber(dt);
    MonthsTile(dt.year, dt.month);
    if dt.month < 12 {
      MonthsTile(dt.year, 12);
      DaysBeforeMonthMonotone(dt.year, dt.month + 1, 12);
    }
    YearStartStep(dt.year);
    YearOfUnique(z, dt.year);
    var c := Civil(z);
    CivilIsDate(z);
    MonthUnique(dt.year, c.month, dt.month, z - YearStart(dt.year));
  }

  /** Day numbers are ordered as the dates they stand for: by year, then by month. */
  lemma CivilMonotone(a: Day, b: Day)
    requires a <= b
    ensures Civil(a).year < Civil(b).year
         || (Civil(a).year == Civil(b).year && Civil(a).month <= Civil(b).month)
  {
    YearOfMonotone(a, b);
    CivilIsDate(a);
    CivilIsDate(b);
    var ca, cb := Civil(a), Civil(b);
    if ca.year == cb.year && ca.month > cb.month {
      MonthsTile(ca.year, cb.month);
      DaysBeforeMonthMonotone(ca.year, cb.month + 1, ca.month);
    }
  }

  /**
   * `new Date(y, monthIndex, date)` as a local day: ECMAScript MakeDay with
   * `monthIndex` counted from 0 and allowed outside 0..11, a `date` past the
   * month's end rolling over, and a year 0..99 read as 1900..1999.
   */
  function LocalDate(y: int, monthIndex: int, date: int): Day {
    var yr := if 0 <= y <= 99 then 1900 + y else y;
    DayNumber(Date(yr + monthIndex / 12, monthIndex % 12 + 1, 1)) + date - 1
  }

  /** Outside the years 0..99, `new Date(y, m - 1, d)` of a valid date is that date. */
  lemma LocalDateOfValid(dt: Date)
    requires ValidDate(dt) && !(0 <= dt.year <= 99)
    ensures LocalDate(dt.year, dt.month - 1, dt.day) == DayNumber(dt)
  {
    assert (dt.month - 1) / 12 == 0 && (dt.month - 1) % 12 + 1 == dt.month;
  }

  /** In the years 0..99, `new Date(y, m - 1, d)` of a valid date is that date in 1900 + y. */
  lemma LocalDateOfEarlyYear(dt: Date)
    requires ValidDate(dt) && 0 <= dt.year <= 99
    ensures LocalDate(dt.year, dt.month - 1, dt.day) == DayNumber(Date(1900 + dt.year, dt.month, dt.day))
  {
    assert (dt.month - 1) / 12 == 0 && (dt.month - 1) % 12 + 1 == dt.month;
  }

  /** `getDay()`: 0 is Sunday; 1970-01-01 was a Thursday. */
  function WeekDay(z: Day): int {
    (z + 4) % 7
  }

  /** The day's offset from Monday, 0 (Monday) .. 6 (Sunday); `IsoWeekDayOfGetDay` ties it to `getDay()`. */
  function IsoWeekDay(z: Day): (r: int)
    ensures 0 <= r < 7
  {
    (z + 3) % 7
  }

  /** `(getDay() + 6) % 7` is the offset from Monday. */
  lemma IsoWeekDayOfGetDay(z: Day)
    ensures IsoWeekDay(z) == (WeekDay(z) + 6) % 7
  {
    var q := (z + 4) / 7;
    assert z + 4 == 7 * q + WeekDay(z);
    assert (WeekDay(z) + 6) % 7 == (z + 3) % 7 by {
      assert z + 3 == 7 * (q - 1) + WeekDay(z) + 6;
    }
  }

  /** The Monday of the Monday-to-Sunday week containing `z`. */
  function MondayOf(z: Day): (r: Day)
    ensures IsoWeekDay(r) == 0
    ensures r <= z < r + 7
  {
    z - IsoWeekDay(z)
  }

  /** The days of a Monday's week all have that Monday. */
  lemma MondayOfWithinWeek(monday: Day, k: int)
    requires IsoWeekDay(monday) == 0 && 0 <= k < 7
    ensures MondayOf(monday + k) == monday
  {
    var q := (monday + 3) / 7;
    assert monday + 3 == 7 * q;
    assert (monday + k + 3) % 7 == k;
  }
}
