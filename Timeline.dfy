/**
 * The cumulative revenue timeline (`aggCumulativeRevenue`): one step per
 * booking in order of arrival, the running total of `valueByMode`, the
 * stays drawn as spans, and the two fixed season markers.
 */
module Timeline {
  import opened Wrappers
  import opened Calendar
  import opened Seqs
  import opened Bookings
  import opened Kpis
  import opened Occupancy

  /** `{ x, y, bookingValue, nights, owner, vertrek }`. */
  datatype Point = Point(x: Day, y: real, bookingValue: real, nights: real, owner: bool, departure: Option<Day>)

  /** `{ start, end, owner, idx }`: a stay, numbered among the records with both dates. */
  datatype Span = Span(start: Day, end: Day, owner: bool, idx: nat)

  /** `{ x, label }`: a vertical marker and its caption. */
  datatype SeasonLine = SeasonLine(x: Day, text: string)

  datatype Chart = Chart(
    points: seq<Point>,
    spans: seq<Span>,
    seasonLines: seq<SeasonLine>,
    total: real,
    minDate: Option<Day>,
    maxDate: Option<Day>)

  /** The fixed markers for the start of summer (1 June 2026) and winter (15 November 2026). */
  function SeasonLines(): seq<SeasonLine> {
    [SeasonLine(DayNumber(Date(2026, 6, 1)), "Zomer"), SeasonLine(DayNumber(Date(2026, 11, 15)), "Winter")]
  }

  /** The point of booking `r` once the running total has reached `y`. */
  function PointOf(r: Booking, y: real, mode: Mode): Point {
    Point(r.arrival, y, ValueByMode(r, mode), r.nights, r.owner, r.departure)
  }

  /** `.map((r, i) => ({ start, end, owner, idx: i }))` over records that all have a departure. */
  function SpansOf(s: seq<Booking>): (r: seq<Span>)
    requires forall i :: 0 <= i < |s| ==> s[i].departure.Some?
    ensures |r| == |s|
    ensures forall i :: 0 <= i < |s| ==> r[i] == Span(s[i].arrival, s[i].departure.value, s[i].owner, i)
  {
    if s == [] then []
    else
      var n := |s| - 1;
      assert forall i :: 0 <= i < n ==> s[..n][i] == s[i];
      SpansOf(s[..n]) + [Span(s[n].arrival, s[n].departure.value, s[n].owner, n)]
  }

  /** `sorted.length ? (last.__vertrek || last.__aankomst) : null`. */
  function LastEnd(sorted: seq<Booking>): (r: Option<Day>)
    ensures r.None? <==> sorted == []
    ensures sorted != [] ==> r.value == sorted[|sorted| - 1].departure.GetOr(sorted[|sorted| - 1].arrival)
  {
    if sorted == [] then None else Some(sorted[|sorted| - 1].departure.GetOr(sorted[|sorted| - 1].arrival))
  }

  /**
   * `aggCumulativeRevenue(rows)`: in order of arrival, each point carries
   * its booking's value and the sum of the values up to and including it;
   * the total is the sum over all rows, which for normalised rows is the
   * revenue the KPI tiles show in the same mode.
   */
  method AggCumulativeRevenue(rows: seq<Booking>, mode: Mode) returns (chart: Chart)
    ensures |chart.points| == |rows|
    ensures forall i :: 0 <= i < |rows| ==>
      chart.points[i] == PointOf(SortByArrival(rows)[i], SumBy(SortByArrival(rows)[..i + 1], ValueFn(mode)), mode)
    ensures forall i, j :: 0 <= i < j < |rows| ==> chart.points[i].x <= chart.points[j].x
    ensures forall i :: 0 < i < |rows| ==> chart.points[i].y == chart.points[i - 1].y + chart.points[i].bookingValue
    ensures chart.total == SumBy(rows, ValueFn(mode))
    ensures (forall i :: 0 <= i < |rows| ==> WellFormed(rows[i])) ==>
      chart.total == (match mode case Gross => ComputeKpis(rows).grossRevenue case Net => ComputeKpis(rows).netRevenue)
    ensures chart.spans == SpansOf(Filter(SortByArrival(rows), HasStayFn()))
    ensures chart.seasonLines == SeasonLines()
    ensures chart.minDate.None? <==> rows == []
    ensures chart.minDate.Some? ==>
      && (exists i :: 0 <= i < |rows| && chart.minDate.value == rows[i].arrival)
      && (forall i :: 0 <= i < |rows| ==> chart.minDate.value <= rows[i].arrival)
    ensures chart.maxDate == LastEnd(SortByArrival(rows))
  {
    var sorted := SortByArrival(rows);
    SortByArrivalSorted(rows);
    var points := RunningTotals(sorted, mode);
    var valid := Filter(sorted, HasStayFn());
    var spans := SpansOf(valid);
    var total := if |points| > 0 then points[|points| - 1].y else 0.0;
    SortedTotal(rows, mode);
    if |points| > 0 {
      assert total == SumBy(sorted[..|rows|], ValueFn(mode));
    }
    var minDate := if |sorted| > 0 then Some(sorted[0].arrival) else None;
    if |sorted| > 0 {
      EarliestFirst(rows, sorted);
    }
    chart := Chart(points, spans, SeasonLines(), total, minDate, LastEnd(sorted));
    TotalIsKpiRevenue(rows, mode, total);
  }

  /** Sorting by arrival does not change the sum over all rows. */
  lemma SortedTotal(rows: seq<Booking>, mode: Mode)
    ensures |SortByArrival(rows)| == |rows|
    ensures SumBy(SortByArrival(rows)[..|rows|], ValueFn(mode)) == SumBy(rows, ValueFn(mode))
  {
    var sorted := SortByArrival(rows);
    assert sorted[..|rows|] == sorted;
    SortBySum(rows, ArrivalLe(), ValueFn(mode));
  }

  /** For normalised rows, the sum of `valueByMode` is the revenue the KPI tiles show. */
  lemma TotalIsKpiRevenue(rows: seq<Booking>, mode: Mode, total: real)
    requires total == SumBy(rows, ValueFn(mode))
    ensures (forall i :: 0 <= i < |rows| ==> WellFormed(rows[i])) ==>
      total == (match mode case Gross => ComputeKpis(rows).grossRevenue case Net => ComputeKpis(rows).netRevenue)
  {
    if forall i :: 0 <= i < |rows| ==> WellFormed(rows[i]) {
      KpiRevenueIsValueByMode(rows, mode);
    }
  }

  /** The first record in arrival order is one with the earliest arrival. */
  lemma EarliestFirst(rows: seq<Booking>, sorted: seq<Booking>)
    requires sorted == SortByArrival(rows) && sorted != []
    ensures exists i :: 0 <= i < |rows| && sorted[0].arrival == rows[i].arrival
    ensures forall i :: 0 <= i < |rows| ==> sorted[0].arrival <= rows[i].arrival
  {
    SortByArrivalSorted(rows);
    assert sorted[0] in multiset(rows);
    forall i | 0 <= i < |rows|
      ensures sorted[0].arrival <= rows[i].arrival
    {
      assert rows[i] in multiset(sorted);
      var j :| 0 <= j < |sorted| && sorted[j] == rows[i];
      if j > 0 {
        assert sorted[0].arrival <= sorted[j].arrival;
      }
    }
  }

  /** `sorted.map(r => { cum += valueByMode(r); return { ..., y: cum }; })`. */
  method RunningTotals(sorted: seq<Booking>, mode: Mode) returns (points: seq<Point>)
    ensures |points| == |sorted|
    ensures forall i :: 0 <= i < |sorted| ==> points[i] == PointOf(sorted[i], SumBy(sorted[..i + 1], ValueFn(mode)), mode)
    ensures forall i :: 0 < i < |sorted| ==> points[i].y == points[i - 1].y + points[i].bookingValue
  {
    var cum := 0.0;
    points := [];
    var i := 0;
    while i < |sorted|
      invariant i <= |sorted|
      invariant |points| == i
      invariant cum == SumBy(sorted[..i], ValueFn(mode))
      invariant forall k :: 0 <= k < i ==> points[k] == PointOf(sorted[k], SumBy(sorted[..k + 1], ValueFn(mode)), mode)
    {
      var r := sorted[i];
      var v := ValueByMode(r, mode);
      PrefixSumStep(sorted, i, ValueFn(mode));
      cum := cum + v;
      points := points + [PointOf(r, cum, mode)];
      i := i + 1;
    }
    forall k | 0 < k < |sorted|
      ensures points[k].y == points[k - 1].y + points[k].bookingValue
    {
      PrefixSumStep(sorted, k, ValueFn(mode));
    }
  }
}
