/**
 * The two month charts: revenue stacked per booking (`aggRevenueByMonth`)
 * and bookings and nights per month (`aggBookingsNightsByMonth`).
 *
 * The source keys its maps by strings, `"2026-03"` in the first function and
 * `"2026-2"` (0-based month) in the second. Both spellings are injective
 * (`MonthKeyInjective`, `CompactMonthKeyInjective`), so the model keys by
 * the pair (year, month) instead.
 *
 * Labels, `metaMonths` and the sort read the keys back with `split("-")`.
 * For years 0 and up that gives the pair back (`MonthKeyReadBack`,
 * `CompactMonthKeyReadBack`), and the model labels and orders by the pair.
 * A year below 0 starts its key with a minus sign, which the split misreads
 * (`NegativeYearMonthKey`).
 */
module Monthly {
  import opened Text
  import opened Calendar
  import opened Seqs
  import opened Tally
  import opened Bookings
  import opened Kpis

  const MONTH_NAMES: seq<string> := ["Jan", "Feb", "Mrt", "Apr", "Mei", "Jun", "Jul", "Aug", "Sep", "Okt", "Nov", "Dec"]

  /** A calendar month; `month` runs from 1 (January) to 12. */
  datatype MonthId = MonthId(year: int, month: int)

  predicate ValidMonth(m: MonthId) {
    1 <= m.month <= 12
  }

  /** `getFullYear()` and `getMonth() + 1` of a day. */
  function MonthOf(z: Day): (m: MonthId)
    ensures ValidMonth(m)
  {
    var dt := Civil(z);
    MonthId(dt.year, dt.month)
  }

  function ArrivalMonth(): Booking -> MonthId {
    (b: Booking) => MonthOf(b.arrival)
  }

  /** The bookings that arrive in month `m`. */
  function InMonth(m: MonthId): Booking -> bool {
    KeyIs(ArrivalMonth(), m)
  }

  function ArrivalMonths(rows: seq<Booking>): seq<MonthId> {
    MapSeq(rows, ArrivalMonth())
  }

  predicate MonthBefore(a: MonthId, b: MonthId) {
    a.year < b.year || (a.year == b.year && a.month < b.month)
  }

  /** The comparator `ya !== yb ? ya - yb : ma - mb`, read as "at most 0". */
  function MonthLe(): (MonthId, MonthId) -> bool {
    (a: MonthId, b: MonthId) => a.year < b.year || (a.year == b.year && a.month <= b.month)
  }

  /** `${y}-${String(m).padStart(2, "0")}`, the key of `aggRevenueByMonth`. */
  function MonthKey(m: MonthId): string
    requires ValidMonth(m)
  {
    IntToString(m.year) + "-" + Pad2(m.month)
  }

  /** `${y}-${m}` with a 0-based month, the key of `aggBookingsNightsByMonth`. */
  function CompactMonthKey(m: MonthId): string
    requires ValidMonth(m)
  {
    IntToString(m.year) + "-" + NatToString(m.month - 1)
  }

  /** The two-line axis label `[monthNames[m], year]`. */
  datatype MonthLabel = MonthLabel(name: string, year: string)

  function LabelOf(m: MonthId): MonthLabel
    requires ValidMonth(m)
  {
    MonthLabel(MONTH_NAMES[m.month - 1], IntToString(m.year))
  }

  /** The axis labels of a chart's months. */
  function Labels(months: seq<MonthId>): (r: seq<MonthLabel>)
    requires forall j :: 0 <= j < |months| ==> ValidMonth(months[j])
    ensures |r| == |months| && forall j :: 0 <= j < |months| ==> r[j] == LabelOf(months[j])
  {
    seq(|months|, j requires 0 <= j < |months| => LabelOf(months[j]))
  }

  /** The 0-based month numbers kept for the tooltips (`meta.months`). */
  function MetaMonths(months: seq<MonthId>): (r: seq<int>)
    ensures |r| == |months| && forall j :: 0 <= j < |months| ==> r[j] == months[j].month - 1
  {
    seq(|months|, j requires 0 <= j < |months| => months[j].month - 1)
  }

  /** Entry `j` of a dataset's `data`, or 0 where there is none (`ds.data[idx] || 0`). */
  function Column(j: nat): seq<real> -> real {
    (d: seq<real>) => if j < |d| then d[j] else 0.0
  }

  /** What a booking adds to the bar of month `m`: its value in its own month, 0 elsewhere. */
  function MonthShare(m: MonthId, mode: Mode): Booking -> real {
    Masked(ArrivalMonth(), m, ValueFn(mode))
  }

  /** The months of the revenue chart: arrival months of the bookings sorted by arrival, first occurrence first. */
  function RevenueMonths(rows: seq<Booking>): seq<MonthId> {
    Dedup(ArrivalMonths(SortByArrival(rows)))
  }

  /** The months of the bookings/nights chart: the map's keys, sorted by year and month. */
  function BookingMonths(rows: seq<Booking>): seq<MonthId> {
    SortBy(Dedup(ArrivalMonths(rows)), MonthLe())
  }

  // ---------------------------------------------------------------- methods

  /**
   * The two loops of `aggRevenueByMonth` over the bookings sorted by arrival:
   * the month columns in order of first occurrence, then one dataset per
   * booking holding its value in its own month's column.
   */
  method RevenueDatasets(rows: seq<Booking>, mode: Mode) returns (months: seq<MonthId>, datasets: seq<seq<real>>)
    ensures months == RevenueMonths(rows)
    ensures |datasets| == |rows|
    ensures forall i :: 0 <= i < |rows| ==> |datasets[i]| == |months|
    ensures forall i, j :: 0 <= i < |rows| && 0 <= j < |months| ==>
      datasets[i][j] == MonthShare(months[j], mode)(SortByArrival(rows)[i])
  {
    var sorted := SortByArrival(rows);
    var index;
    months, index := FirstOccurrences(sorted, ArrivalMonth());
    assert months == RevenueMonths(rows);
    datasets := Segments(sorted, ArrivalMonth(), ValueFn(mode), months, index);
  }

  /** `aggRevenueByMonth(rows)`, the colours and tooltip date labels aside. */
  method AggRevenueByMonth(rows: seq<Booking>, mode: Mode)
    returns (months: seq<MonthId>, labels: seq<MonthLabel>, datasets: seq<seq<real>>,
             metaMonths: seq<int>, monthTotals: seq<real>)
    ensures months == RevenueMonths(rows)
    ensures |labels| == |months| && |metaMonths| == |months| && |monthTotals| == |months|
    ensures forall j :: 0 <= j < |months| ==>
      ValidMonth(months[j]) && labels[j] == LabelOf(months[j]) && metaMonths[j] == months[j].month - 1
    ensures |datasets| == |rows|
    ensures forall i :: 0 <= i < |rows| ==> |datasets[i]| == |months|
    ensures forall i, j :: 0 <= i < |rows| && 0 <= j < |months| ==>
      datasets[i][j] == MonthShare(months[j], mode)(SortByArrival(rows)[i])
    ensures forall j :: 0 <= j < |months| ==>
      monthTotals[j] == SumBy(Filter(rows, InMonth(months[j])), ValueFn(mode))
  {
    months, datasets := RevenueDatasets(rows, mode);
    RevenueMonthsValid(rows);
    var n := |months|;
    labels := Labels(months);
    metaMonths := MetaMonths(months);
    monthTotals := ColumnTotals(datasets, n);
    forall j | 0 <= j < n
      ensures monthTotals[j] == SumBy(Filter(rows, InMonth(months[j])), ValueFn(mode))
    {
      MonthColumnTotal(rows, mode, datasets, months[j], j);
    }
  }

  /** Summing column `j` over the datasets gives the revenue of the bookings arriving in that column's month. */
  lemma MonthColumnTotal(rows: seq<Booking>, mode: Mode, datasets: seq<seq<real>>, m: MonthId, j: nat)
    requires |datasets| == |rows|
    requires forall k :: 0 <= k < |rows| ==> j < |datasets[k]| && datasets[k][j] == MonthShare(m, mode)(SortByArrival(rows)[k])
    ensures SumBy(datasets, Column(j)) == SumBy(Filter(rows, InMonth(m)), ValueFn(mode))
  {
    var share := MonthShare(m, mode);
    SumByPointwise(datasets, Column(j), SortByArrival(rows), share);
    SortBySum(rows, ArrivalLe(), share);
    SumByMasked(rows, InMonth(m), ValueFn(mode), share);
  }

  /** The `i`-th total of the revenue chart's `datasets`: the sum of column `j`. */
  function ColumnTotals(datasets: seq<seq<real>>, n: nat): (r: seq<real>)
    ensures |r| == n && forall j :: 0 <= j < n ==> r[j] == SumBy(datasets, Column(j))
  {
    seq(n, j requires 0 <= j < n => SumBy(datasets, Column(j)))
  }

  /** Every month of the bookings chart is a real calendar month. */
  lemma BookingMonthsValid(rows: seq<Booking>)
    ensures forall j :: 0 <= j < |BookingMonths(rows)| ==> ValidMonth(BookingMonths(rows)[j])
  {
    BookingMonthsAscending(rows);
    ArrivalMonthsValid(rows);
    forall j | 0 <= j < |BookingMonths(rows)|
      ensures ValidMonth(BookingMonths(rows)[j])
    {
      assert BookingMonths(rows)[j] in BookingMonths(rows);
    }
  }

  /** Every arrival month is a real calendar month. */
  lemma ArrivalMonthsValid(rows: seq<Booking>)
    ensures forall m :: m in ArrivalMonths(rows) ==> ValidMonth(m)
  {
    forall m | m in ArrivalMonths(rows)
      ensures ValidMonth(m)
    {
      var k :| 0 <= k < |rows| && ArrivalMonths(rows)[k] == m;
    }
  }

  /** Every month of the revenue chart is a real calendar month. */
  lemma RevenueMonthsValid(rows: seq<Booking>)
    ensures forall j :: 0 <= j < |RevenueMonths(rows)| ==> ValidMonth(RevenueMonths(rows)[j])
  {
    RevenueMonthsCover(rows);
    ArrivalMonthsValid(rows);
    forall j | 0 <= j < |RevenueMonths(rows)|
      ensures ValidMonth(RevenueMonths(rows)[j])
    {
      assert RevenueMonths(rows)[j] in RevenueMonths(rows);
    }
  }


  /** `aggBookingsNightsByMonth(rows)`. */
  method AggBookingsNightsByMonth(rows: seq<Booking>)
    returns (months: seq<MonthId>, labels: seq<MonthLabel>, bookings: seq<nat>, nights: seq<real>,
             metaMonths: seq<int>)
    ensures months == BookingMonths(rows)
    ensures |labels| == |months| && |bookings| == |months| && |nights| == |months| && |metaMonths| == |months|
    ensures forall j :: 0 <= j < |months| ==>
      ValidMonth(months[j]) && labels[j] == LabelOf(months[j]) && metaMonths[j] == months[j].month - 1
    ensures forall j :: 0 <= j < |months| ==>
      && bookings[j] == |Filter(rows, InMonth(months[j]))|
      && nights[j] == SumBy(Filter(rows, InMonth(months[j])), NightsFn())
  {
    var order, tally := TallyByKey(rows, ArrivalMonth(), NightsFn());
    months := SortBy(order, MonthLe());
    assert months == BookingMonths(rows);
    forall j | 0 <= j < |months|
      ensures months[j] in tally
    {
      assert months[j] in multiset(order);
    }
    BookingMonthsValid(rows);
    labels := Labels(months);
    bookings := Counts(months, tally);
    nights := Totals(months, tally);
    metaMonths := MetaMonths(months);
  }

  // --------------------------------------------------------------- lemmas

  /** The revenue chart's key is injective, so keying by (year, month) loses nothing. */
  lemma MonthKeyInjective(a: MonthId, b: MonthId)
    requires ValidMonth(a) && ValidMonth(b)
    requires MonthKey(a) == MonthKey(b)
    ensures a == b
  {
    SplitBeforeDigits(IntToString(a.year), Pad2(a.month), IntToString(b.year), Pad2(b.month), '-');
    Pad2Value(a.month);
    Pad2Value(b.month);
    IntToStringInjective(a.year, b.year);
  }

  /** The bookings chart's key is injective as well. */
  lemma CompactMonthKeyInjective(a: MonthId, b: MonthId)
    requires ValidMonth(a) && ValidMonth(b)
    requires CompactMonthKey(a) == CompactMonthKey(b)
    ensures a == b
  {
    SplitBeforeDigits(IntToString(a.year), NatToString(a.month - 1), IntToString(b.year), NatToString(b.month - 1), '-');
    NatToStringRoundTrip(a.month - 1);
    NatToStringRoundTrip(b.month - 1);
    IntToStringInjective(a.year, b.year);
  }

  /** Different months get different axis labels. */
  lemma LabelOfInjective(a: MonthId, b: MonthId)
    requires ValidMonth(a) && ValidMonth(b)
    requires LabelOf(a) == LabelOf(b)
    ensures a == b
  {
    IntToStringInjective(a.year, b.year);
    assert Distinct(MONTH_NAMES);
  }

  /**
   * For a year of 0 or more, `k.split("-")` reads the revenue chart's key
   * back into the year's text and the month, so `[monthNames[Number(mStr) - 1], y]`
   * is the month's label and `Number(mStr) - 1` its 0-based month.
   */
  lemma MonthKeyReadBack(m: MonthId)
    requires ValidMonth(m) && m.year >= 0
    ensures var parts := Split(MonthKey(m), '-');
      parts == [IntToString(m.year), Pad2(m.month)] &&
      DigitsValue(parts[1]) == m.month &&
      MonthLabel(MONTH_NAMES[DigitsValue(parts[1]) - 1], parts[0]) == LabelOf(m)
  {
    IntToStringSign(m.year);
    NoCharInDigits(NatToString(m.year), '-');
    NoCharInDigits(Pad2(m.month), '-');
    SplitTwo(IntToString(m.year), Pad2(m.month), '-');
    Pad2Value(m.month);
  }

  /**
   * For a year of 0 or more, `k.split("-").map(Number)` reads the bookings
   * chart's key back into the year and the 0-based month, so the sort compares
   * months in time order and `[monthNames[m], String(y)]` is the month's label.
   */
  lemma CompactMonthKeyReadBack(m: MonthId)
    requires ValidMonth(m) && m.year >= 0
    ensures var parts := Split(CompactMonthKey(m), '-');
      parts == [NatToString(m.year), NatToString(m.month - 1)] &&
      DigitsValue(parts[0]) == m.year && DigitsValue(parts[1]) == m.month - 1 &&
      MonthLabel(MONTH_NAMES[DigitsValue(parts[1])], IntToString(DigitsValue(parts[0]))) == LabelOf(m)
  {
    IntToStringSign(m.year);
    NoCharInDigits(NatToString(m.year), '-');
    NoCharInDigits(NatToString(m.month - 1), '-');
    SplitTwo(NatToString(m.year), NatToString(m.month - 1), '-');
    NatToStringRoundTrip(m.year);
    NatToStringRoundTrip(m.month - 1);
  }

  /**
   * A year below 0 is written with a leading minus sign, which `split("-")`
   * takes for a separator: the revenue chart's key of March of the year -5
   * splits into an empty year and the pieces `"5"` and `"03"`.
   */
  lemma NegativeYearMonthKey()
    ensures Split(MonthKey(MonthId(-5, 3)), '-') == ["", "5", "03"]
  {
    SplitNegativeKey(-5, Pad2(3));
    assert NatToString(5) == "5" && Pad2(3) == "03";
  }

  /** The bookings chart's key of March of the year -5 splits into `""`, `"5"` and `"2"`. */
  lemma NegativeYearCompactKey()
    ensures Split(CompactMonthKey(MonthId(-5, 3)), '-') == ["", "5", "2"]
  {
    SplitNegativeKey(-5, NatToString(2));
    assert NatToString(5) == "5" && NatToString(2) == "2";
  }

  /** A negative year's key splits into an empty piece, the year's digits and the month. */
  lemma SplitNegativeKey(y: int, q: string)
    requires y < 0 && AllDigits(q)
    ensures Split(IntToString(y) + "-" + q, '-') == ["", NatToString(-y), q]
  {
    var d := NatToString(-y);
    assert IntToString(y) + "-" + q == "" + "-" + (d + "-" + q);
    NoCharInDigits(d, '-');
    NoCharInDigits(q, '-');
    SplitCons("", d + "-" + q, '-');
    SplitTwo(d, q, '-');
  }

  /** The order of `aggBookingsNightsByMonth`'s sort is one `sort` can work with. */
  lemma MonthLeTotal()
    ensures IsTotalPreorder(MonthLe())
  {
  }

  lemma {:induction false} DedupAscending(s: seq<MonthId>)
    requires forall i, j :: 0 <= i < j < |s| ==> MonthLe()(s[i], s[j])
    ensures forall i, j :: 0 <= i < j < |Dedup(s)| ==> MonthBefore(Dedup(s)[i], Dedup(s)[j])
  {
    if s != [] {
      var init, x := s[..|s| - 1], s[|s| - 1];
      assert forall i :: 0 <= i < |init| ==> init[i] == s[i];
      DedupAscending(init);
      var d := Dedup(init);
      if x !in d {
        forall i | 0 <= i < |d|
          ensures MonthBefore(d[i], x)
        {
          var k :| 0 <= k < |init| && init[k] == d[i];
          assert MonthLe()(s[k], s[|s| - 1]);
        }
      }
    }
  }

  /** The revenue chart's months run strictly forward in time: sorting by arrival sorts the months. */
  lemma RevenueMonthsAscending(rows: seq<Booking>)
    ensures forall i, j :: 0 <= i < j < |RevenueMonths(rows)| ==> MonthBefore(RevenueMonths(rows)[i], RevenueMonths(rows)[j])
  {
    var sorted := SortByArrival(rows);
    SortByArrivalSorted(rows);
    var ms := ArrivalMonths(sorted);
    forall i, j | 0 <= i < j < |ms|
      ensures MonthLe()(ms[i], ms[j])
    {
      CivilMonotone(sorted[i].arrival, sorted[j].arrival);
    }
    DedupAscending(ms);
  }

  /** The revenue chart has a column for exactly the months in which some booking arrives. */
  lemma RevenueMonthsCover(rows: seq<Booking>)
    ensures forall m :: m in RevenueMonths(rows) <==> m in ArrivalMonths(rows)
  {
    SortByArrivalSorted(rows);
    MapSeqPermutation(SortByArrival(rows), rows, ArrivalMonth());
    DedupElements(ArrivalMonths(SortByArrival(rows)));
  }

  /** The bookings chart's months run strictly forward in time and are exactly the arrival months. */
  lemma BookingMonthsAscending(rows: seq<Booking>)
    ensures forall i, j :: 0 <= i < j < |BookingMonths(rows)| ==> MonthBefore(BookingMonths(rows)[i], BookingMonths(rows)[j])
    ensures forall m :: m in BookingMonths(rows) <==> m in ArrivalMonths(rows)
  {
    var keys := Dedup(ArrivalMonths(rows));
    var months := BookingMonths(rows);
    MonthLeTotal();
    SortBySorted(keys, MonthLe());
    SortByDistinct(keys, MonthLe());
    forall m
      ensures m in months <==> m in keys
    {
      assert m in months <==> m in multiset(months);
    }
  }

  lemma HeadIn(s: seq<MonthId>)
    requires s != []
    ensures s[0] in s
  {
  }

  lemma {:induction false} AscendingUnique(a: seq<MonthId>, b: seq<MonthId>)
    requires forall i, j :: 0 <= i < j < |a| ==> MonthBefore(a[i], a[j])
    requires forall i, j :: 0 <= i < j < |b| ==> MonthBefore(b[i], b[j])
    requires forall m :: m in a <==> m in b
    ensures a == b
    decreases |a|
  {
    if a != [] && b != [] {
      assert a[0] in a && b[0] in b;
      var ka :| 0 <= ka < |b| && b[ka] == a[0];
      var kb :| 0 <= kb < |a| && a[kb] == b[0];
      assert ka == 0;
      forall m
        ensures m in a[1..] <==> m in b[1..]
      {
        assert m in a[1..] <==> m in a && m != a[0];
        assert m in b[1..] <==> m in b && m != b[0];
      }
      AscendingUnique(a[1..], b[1..]);
      assert a == [a[0]] + a[1..] && b == [b[0]] + b[1..];
    } else if a != [] {
      HeadIn(a);
      assert false;
    } else if b != [] {
      HeadIn(b);
      assert false;
    }
  }

  /** Both month charts show the same months in the same order. */
  lemma MonthChartsAgree(rows: seq<Booking>)
    ensures RevenueMonths(rows) == BookingMonths(rows)
  {
    RevenueMonthsAscending(rows);
    RevenueMonthsCover(rows);
    BookingMonthsAscending(rows);
    AscendingUnique(RevenueMonths(rows), BookingMonths(rows));
  }

  /** The monthly revenue bars add up to the revenue of all bookings. */
  lemma MonthTotalsAddUp(rows: seq<Booking>, mode: Mode)
    ensures SumBy(RevenueMonths(rows), GroupSum(rows, ArrivalMonth(), ValueFn(mode))) == SumBy(rows, ValueFn(mode))
  {
    RevenueMonthsCover(rows);
    forall i | 0 <= i < |rows|
      ensures ArrivalMonth()(rows[i]) in RevenueMonths(rows)
    {
      assert ArrivalMonths(rows)[i] == ArrivalMonth()(rows[i]);
    }
    SumByGroups(rows, ArrivalMonth(), RevenueMonths(rows), ValueFn(mode));
  }

  /** The monthly booking counts add up to the number of bookings, and the monthly nights to all nights booked. */
  lemma MonthCountsAddUp(rows: seq<Booking>)
    ensures SumBy(BookingMonths(rows), GroupSum(rows, ArrivalMonth(), One())) == |rows| as real
    ensures SumBy(BookingMonths(rows), GroupSum(rows, ArrivalMonth(), NightsFn())) == SumBy(rows, NightsFn())
    ensures SumBy(BookingMonths(rows), GroupSum(rows, ArrivalMonth(), NightsFn()))
         == ComputeKpis(rows).nights + ComputeKpis(rows).ownerNights
  {
    var months := BookingMonths(rows);
    BookingMonthsAscending(rows);
    SortByDistinct(Dedup(ArrivalMonths(rows)), MonthLe());
    forall i | 0 <= i < |rows|
      ensures ArrivalMonth()(rows[i]) in months
    {
      assert ArrivalMonths(rows)[i] == ArrivalMonth()(rows[i]);
    }
    SumByGroups(rows, ArrivalMonth(), months, One());
    SumByOne(rows);
    SumByGroups(rows, ArrivalMonth(), months, NightsFn());
    KpiNightsPartition(rows);
  }

  /** With well-formed records, the monthly revenue bars add up to the revenue figure of the KPI cards. */
  lemma MonthTotalsMatchKpis(rows: seq<Booking>, mode: Mode)
    requires forall i :: 0 <= i < |rows| ==> WellFormed(rows[i])
    ensures SumBy(RevenueMonths(rows), GroupSum(rows, ArrivalMonth(), ValueFn(mode)))
         == (match mode case Gross => ComputeKpis(rows).grossRevenue case Net => ComputeKpis(rows).netRevenue)
  {
    MonthTotalsAddUp(rows, mode);
    KpiRevenueIsValueByMode(rows, mode);
  }
}
