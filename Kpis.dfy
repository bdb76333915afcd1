/**
 * `computeKPIs`: booking counts, nights and revenue, split into platform
 * bookings and the owner's own bookings.
 */
module Kpis {
  import opened Wrappers
  import opened Seqs
  import opened Bookings

  datatype Kpis = Kpis(
    bookings: nat,
    ownerBookings: nat,
    nights: real,
    ownerNights: real,
    grossRevenue: real,
    netRevenue: real,
    grossRevPerNight: Option<real>,
    netRevPerNight: Option<real>)

  function IsOwnerFn(): Booking -> bool {
    (b: Booking) => b.owner
  }

  function NightsFn(): Booking -> real {
    (b: Booking) => b.nights
  }

  function GrossFn(): Booking -> real {
    (b: Booking) => b.gross
  }

  function NetFn(): Booking -> real {
    (b: Booking) => b.net
  }

  /** `total / nights`, or `null` unless some night was sold. */
  function PerNight(total: real, nights: real): (r: Option<real>)
    ensures r.None? <==> nights <= 0.0
    ensures r.Some? ==> r.value * nights == total
  {
    if nights > 0.0 then Some(total / nights) else None
  }

  /** `computeKPIs(rows)`. */
  function ComputeKpis(rows: seq<Booking>): (k: Kpis)
    ensures k.bookings + k.ownerBookings == |rows|
    ensures k.grossRevPerNight.None? <==> k.nights <= 0.0
    ensures k.netRevPerNight.None? <==> k.nights <= 0.0
  {
    var platformRows := Filter(rows, Not(IsOwnerFn()));
    var ownerRows := Filter(rows, IsOwnerFn());
    var nights := SumBy(platformRows, NightsFn());
    var grossRevenue := SumBy(platformRows, GrossFn());
    var netRevenue := SumBy(platformRows, NetFn());
    FilterPartitionLength(rows, IsOwnerFn());
    Kpis(
      bookings := |platformRows|,
      ownerBookings := |ownerRows|,
      nights := nights,
      ownerNights := SumBy(ownerRows, NightsFn()),
      grossRevenue := grossRevenue,
      netRevenue := netRevenue,
      grossRevPerNight := PerNight(grossRevenue, nights),
      netRevPerNight := PerNight(netRevenue, nights))
  }

  // --------------------------------------------------------------- lemmas

  /** Platform and owner nights together are all the nights booked. */
  lemma KpiNightsPartition(rows: seq<Booking>)
    ensures ComputeKpis(rows).nights + ComputeKpis(rows).ownerNights == SumBy(rows, NightsFn())
  {
    SumByPartition(rows, IsOwnerFn(), NightsFn());
  }

  /** Only platform bookings earn: counting the owner's rows too changes no revenue total. */
  lemma KpiRevenueOverAllRows(rows: seq<Booking>)
    requires forall i :: 0 <= i < |rows| ==> WellFormed(rows[i])
    ensures ComputeKpis(rows).grossRevenue == SumBy(rows, GrossFn())
    ensures ComputeKpis(rows).netRevenue == SumBy(rows, NetFn())
  {
    forall x | x in rows && !Not(IsOwnerFn())(x)
      ensures GrossFn()(x) == 0.0 && NetFn()(x) == 0.0
    {
      var i :| 0 <= i < |rows| && rows[i] == x;
      assert WellFormed(rows[i]);
    }
    SumByDropZeros(rows, Not(IsOwnerFn()), GrossFn());
    SumByDropZeros(rows, Not(IsOwnerFn()), NetFn());
  }

  /** Net revenue is 76% of gross revenue, in total as per record. */
  lemma KpiNetIsFactorOfGross(rows: seq<Booking>)
    requires forall i :: 0 <= i < |rows| ==> WellFormed(rows[i])
    ensures ComputeKpis(rows).netRevenue == NET_FACTOR * ComputeKpis(rows).grossRevenue
  {
    var platformRows := Filter(rows, Not(IsOwnerFn()));
    forall x | x in platformRows
      ensures NetFn()(x) == NET_FACTOR * GrossFn()(x)
    {
      var i :| 0 <= i < |platformRows| && platformRows[i] == x;
      var j :| 0 <= j < |rows| && rows[j] == x;
      assert WellFormed(rows[j]);
    }
    SumByScale(platformRows, GrossFn(), NetFn(), NET_FACTOR);
  }

  /** The revenue shown for either mode is the sum of `valueByMode` over all rows. */
  lemma KpiRevenueIsValueByMode(rows: seq<Booking>, mode: Mode)
    requires forall i :: 0 <= i < |rows| ==> WellFormed(rows[i])
    ensures SumBy(rows, ValueFn(mode))
         == (match mode case Gross => ComputeKpis(rows).grossRevenue case Net => ComputeKpis(rows).netRevenue)
  {
    KpiRevenueOverAllRows(rows);
    match mode
    case Gross => SumByCongruent(rows, ValueFn(mode), GrossFn());
    case Net => SumByCongruent(rows, ValueFn(mode), NetFn());
  }
}
