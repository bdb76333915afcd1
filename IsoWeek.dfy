/**
 * The week calendar of ISO 8601 (section 3.2.2 of ISO 8601:2004): weeks run
 * Monday to Sunday, week 01 of a year is the week containing 4 January, and
 * a week belongs to the year of its Thursday. `isoWeekKey` labels a day
 * `YYYY-Www`.
 */
module IsoWeek {
  import opened Calendar
  import opened Text

  /** An ISO week-numbering year and week number. */
  datatype WeekId = WeekId(year: int, week: int)

  /** `addDays(d, 3 - day)`: the Thursday of `z`'s Monday-to-Sunday week. */
  function Thursday(z: Day): Day {
    MondayOf(z) + 3
  }

  /** `addDays(jan4, -jan4Day)`: the Monday of the week holding 4 January of `y`. */
  function Week1Monday(y: int): Day {
    MondayOf(DayNumber(Date(y, 1, 4)))
  }

  /** `1 + Math.floor(diffDays / 7)` with `diffDays` the days from `week1Mon` to `z`. */
  function WeekNumber(z: Day, week1Mon: Day): int {
    1 + (z - week1Mon) / 7
  }

  /**
   * The week of day `z` as the ISO calendar defines it: the lines of
   * `isoWeekKey` with 4 January of the Thursday's year taken as that
   * calendar date.
   */
  function WeekOf(z: Day): WeekId {
    var year := YearOf(Thursday(z));
    WeekId(year, WeekNumber(z, Week1Monday(year)))
  }

  /**
   * The same lines as written: `new Date(year, 0, 4)` reads a year 0..99 as
   * 1900..1999, so 4 January is looked up in the wrong century for those years.
   */
  function WeekOfAsWritten(z: Day): WeekId {
    var year := YearOf(Thursday(z));
    var jan4 := LocalDate(year, 0, 4);
    WeekId(year, WeekNumber(z, MondayOf(jan4)))
  }

  /** The label `${year}-W${String(week).padStart(2, "0")}`. */
  function WeekKey(w: WeekId): string
    requires w.week >= 0
  {
    IntToString(w.year) + "-W" + Pad2(w.week)
  }

  /**
   * The label of the ISO week of `z`: `isoWeekKey(date)` with 4 January
   * looked up in the Thursday's own year (`WeekOf`). For a Thursday in the
   * years 0..99 the lines as written give `IsoWeekKeyAsWritten` instead.
   */
  function IsoWeekKey(z: Day): string {
    WeekOfRange(z);
    WeekKey(WeekOf(z))
  }

  /**
   * The label as the lines write it for any week number: a negative number
   * is already at least two characters long, so `padStart` leaves it alone.
   */
  function WeekKeyAsWritten(w: WeekId): string {
    IntToString(w.year) + "-W" + (if w.week >= 0 then Pad2(w.week) else IntToString(w.week))
  }

  /** `isoWeekKey(date)` as written, with `new Date(year, 0, 4)` for 4 January. */
  function IsoWeekKeyAsWritten(z: Day): string {
    WeekKeyAsWritten(WeekOfAsWritten(z))
  }

  lemma Week1MondayNearNewYear(y: int)
    ensures IsoWeekDay(Week1Monday(y)) == 0
    ensures YearStart(y) - 3 <= Week1Monday(y) <= YearStart(y) + 3
  {
  }

  /**
   * Every day's week number is 1..53, its year is the year of the day's
   * Thursday, and its Monday lies `7 * (week - 1)` days after the Monday of
   * week 01 of that year.
   */
  lemma WeekOfRange(z: Day)
    ensures 1 <= WeekOf(z).week <= 53
    ensures YearStart(WeekOf(z).year) <= Thursday(z) < YearStart(WeekOf(z).year + 1)
    ensures MondayOf(z) == Week1Monday(WeekOf(z).year) + 7 * (WeekOf(z).week - 1)
  {
    var y := YearOf(Thursday(z));
    var m1 := Week1Monday(y);
    Week1MondayNearNewYear(y);
    YearStartStep(y);
    var mon := MondayOf(z);
    var q := MondaysApart(mon, m1);
    DivSeven(q, z - mon);
    assert 0 <= q <= 52;
  }

  /** Two Mondays lie a whole number of weeks apart. */
  lemma MondaysApart(a: Day, b: Day) returns (q: int)
    requires IsoWeekDay(a) == 0 && IsoWeekDay(b) == 0
    ensures a - b == 7 * q
  {
    q := (a + 3) / 7 - (b + 3) / 7;
  }

  lemma DivSeven(q: int, w: int)
    requires 0 <= w < 7
    ensures (7 * q + w) / 7 == q
  {
  }

  /**
   * A day whose Thursday falls in year `y` and whose Monday lies `w - 1`
   * weeks after the Monday of week 01 of `y` is in week `w` of `y`.
   */
  lemma WeekOfIs(z: Day, y: int, w: int)
    requires YearStart(y) <= Thursday(z) < YearStart(y + 1)
    requires MondayOf(z) == Week1Monday(y) + 7 * (w - 1)
    ensures WeekOf(z) == WeekId(y, w)
  {
    YearOfUnique(Thursday(z), y);
    DivSeven(w - 1, z - MondayOf(z));
  }

  /** Two days get the same week exactly when they share their Monday. */
  lemma SameWeekIffSameMonday(a: Day, b: Day)
    ensures WeekOf(a) == WeekOf(b) <==> MondayOf(a) == MondayOf(b)
  {
    WeekOfRange(a);
    WeekOfRange(b);
    if MondayOf(a) == MondayOf(b) {
      assert Thursday(a) == Thursday(b);
    }
  }

  /** All seven days from a Monday to the next Sunday get the Monday's week. */
  lemma WeekOfWholeWeek(monday: Day, k: int)
    requires IsoWeekDay(monday) == 0 && 0 <= k < 7
    ensures WeekOf(monday + k) == WeekOf(monday)
  {
    MondayOfWithinWeek(monday, k);
    MondayOfWithinWeek(monday, 0);
    assert Thursday(monday + k) == Thursday(monday);
    var m1 := Week1Monday(YearOf(Thursday(monday)));
    var q := MondaysApart(monday, m1);
    DivSeven(q, k);
    DivSeven(q, 0);
  }

  /** The week holding 4 January of `y` is week 01 of year `y`, all seven of its days. */
  lemma WeekOfWeekOne(y: int, k: int)
    requires 0 <= k < 7
    ensures WeekOf(Week1Monday(y) + k) == WeekId(y, 1)
  {
    var m1 := Week1Monday(y);
    Week1MondayNearNewYear(y);
    YearStartStep(y);
    MondayOfWithinWeek(m1, k);
    WeekOfIs(m1 + k, y, 1);
  }

  /** 4 January always lies in week 01 of its own year. */
  lemma Jan4InWeekOne(y: int)
    ensures WeekOf(DayNumber(Date(y, 1, 4))) == WeekId(y, 1)
  {
    var jan4 := DayNumber(Date(y, 1, 4));
    WeekOfWeekOne(y, jan4 - Week1Monday(y));
  }

  /** Reference date: 2026-01-01, a Thursday, is in 2026-W01 and is labelled so. */
  lemma ReferenceWeek2026()
    ensures WeekOf(DayNumber(Date(2026, 1, 1))) == WeekId(2026, 1)
    ensures IsoWeekKey(DayNumber(Date(2026, 1, 1))) == "2026-W01"
  {
    assert YearStart(2026) == 20454;
    assert YearStart(2027) == 20819;
    assert DayNumber(Date(2026, 1, 1)) == 20454 && IsoWeekDay(20454) == 3;
    assert DayNumber(Date(2026, 1, 4)) == 20457 && IsoWeekDay(20457) == 6;
    assert Week1Monday(2026) == 20451;
    WeekOfIs(20454, 2026, 1);
    KeyOf2026W01();
  }

  lemma KeyOf2026W01()
    ensures WeekKey(WeekId(2026, 1)) == "2026-W01"
  {
    assert NatToString(2026) == NatToString(202) + "6";
    assert NatToString(202) == NatToString(20) + "2";
    assert NatToString(20) == NatToString(2) + "0";
    assert Pad2(1) == "01";
  }

  /** Reference date: 2024-12-30, a Monday of the leap year 2024, is in 2025-W01. */
  lemma ReferenceWeek2025()
    ensures WeekOf(DayNumber(Date(2024, 12, 30))) == WeekId(2025, 1)
  {
    assert YearStart(2024) == 19723;
    assert YearStart(2025) == 20089;
    assert YearStart(2026) == 20454;
    assert DayNumber(Date(2024, 12, 30)) == 20087 && IsoWeekDay(20087) == 0;
    assert DayNumber(Date(2025, 1, 4)) == 20092 && IsoWeekDay(20092) == 5;
    assert Week1Monday(2025) == 20087;
    WeekOfIs(20087, 2025, 1);
  }

  /** Reference date: 2020-12-31, a Thursday, is in week 53 of 2020. */
  lemma ReferenceWeek2020()
    ensures WeekOf(DayNumber(Date(2020, 12, 31))) == WeekId(2020, 53)
  {
    assert YearStart(2020) == 18262;
    assert YearStart(2021) == 18628;
    assert DayNumber(Date(2020, 12, 31)) == 18627 && IsoWeekDay(18627) == 3;
    assert DayNumber(Date(2020, 1, 4)) == 18265 && IsoWeekDay(18265) == 5;
    assert Week1Monday(2020) == 18260;
    WeekOfIs(18627, 2020, 53);
  }

  /** Outside the years 0..99 the written lines agree with the ISO calendar. */
  lemma AsWrittenAgrees(z: Day)
    requires !(0 <= YearOf(Thursday(z)) <= 99)
    ensures WeekOfAsWritten(z) == WeekOf(z)
  {
    var year := YearOf(Thursday(z));
    assert LocalDate(year, 0, 4) == DayNumber(Date(year, 1, 4));
  }

  /** Outside the years 0..99 the key as written is the ISO week's key. */
  lemma KeyAsWrittenAgrees(z: Day)
    requires !(0 <= YearOf(Thursday(z)) <= 99)
    ensures IsoWeekKeyAsWritten(z) == IsoWeekKey(z)
  {
    AsWrittenAgrees(z);
    WeekOfRange(z);
  }

  /** A day of the year 50 gets a week number below 1 from the written lines. */
  lemma AsWrittenYear50()
    ensures WeekOfAsWritten(DayNumber(Date(50, 6, 15))).week < 1
  {
    var z := DayNumber(Date(50, 6, 15));
    YearStartStep(50);
    YearOfUnique(Thursday(z), 50);
  }

  /** A week number below 1, written as the lines write it, never reads as a week of 1..99. */
  lemma KeyAsWrittenDiffers(a: WeekId, b: WeekId)
    requires a.year == b.year && a.week < 1 && 1 <= b.week < 100
    ensures WeekKeyAsWritten(a) != WeekKey(b)
  {
    var p := IntToString(a.year) + "-W";
    var x := if a.week >= 0 then Pad2(a.week) else IntToString(a.week);
    var y := Pad2(b.week);
    if p + x == p + y {
      assert (p + x)[|p|..] == x && (p + y)[|p|..] == y;
      if a.week >= 0 {
        Pad2Value(a.week);
        Pad2Value(b.week);
      } else {
        IntToStringSign(a.week);
      }
    }
  }

  /** As written, 15 June of the year 50 does not get its ISO week's key. */
  lemma KeyAsWrittenYear50()
    ensures IsoWeekKeyAsWritten(DayNumber(Date(50, 6, 15))) != IsoWeekKey(DayNumber(Date(50, 6, 15)))
  {
    var z := DayNumber(Date(50, 6, 15));
    AsWrittenYear50();
    WeekOfRange(z);
    KeyAsWrittenDiffers(WeekOfAsWritten(z), WeekOf(z));
  }

  /** The label determines the week: different weeks never share a key. */
  lemma WeekKeyInjective(a: WeekId, b: WeekId)
    requires 0 <= a.week < 100 && 0 <= b.week < 100
    requires WeekKey(a) == WeekKey(b)
    ensures a == b
  {
    var ka, kb := WeekKey(a), WeekKey(b);
    var n := |ka|;
    assert ka[n - 2..] == Pad2(a.week) && kb[n - 2..] == Pad2(b.week);
    Pad2Value(a.week);
    Pad2Value(b.week);
    assert ka[..n - 4] == IntToString(a.year) && kb[..n - 4] == IntToString(b.year);
    IntToStringInjective(a.year, b.year);
  }

  /** Two days share a key exactly when they share a Monday-to-Sunday week. */
  lemma SameKeyIffSameMonday(a: Day, b: Day)
    ensures IsoWeekKey(a) == IsoWeekKey(b) <==> MondayOf(a) == MondayOf(b)
  {
    WeekOfRange(a);
    WeekOfRange(b);
    SameWeekIffSameMonday(a, b);
    if IsoWeekKey(a) == IsoWeekKey(b) {
      WeekKeyInjective(WeekOf(a), WeekOf(b));
    }
  }
}
