/**
 * `aggRevenueByChannel` and `aggGuestPie`: two charts that fill a `Map`
 * from the records and then order its entries.
 *
 * The revenue chart keys its `Map` by the channel's label; the model keys it
 * by the `Channel` itself, which gives the same grouping because `Label` is
 * injective (`Classify.LabelInjective`).
 */
module Channels {
  import opened Text
  import opened Seqs
  import opened Tally
  import opened Classify
  import opened Bookings
  import opened Kpis

  // ------------------------------------------------------ revenue by channel

  function ChannelFn(): Booking -> Channel {
    (b: Booking) => b.channel
  }

  /** A `[channel, total]` entry of the channel map. */
  datatype ChannelTotal = ChannelTotal(channel: Channel, total: real)

  function TotalFn(): ChannelTotal -> real {
    (e: ChannelTotal) => e.total
  }

  /** `(a, b) => b[1] - a[1]` read as "at most 0": the larger total first. */
  function TotalGe(): (ChannelTotal, ChannelTotal) -> bool {
    (a: ChannelTotal, b: ChannelTotal) => a.total >= b.total
  }

  /** The channels in order of first occurrence: the key order of the map. */
  function ChannelsSeen(rows: seq<Booking>): seq<Channel> {
    Dedup(MapSeq(rows, ChannelFn()))
  }

  /** A channel with the sum of `valueByMode` over its records. */
  function ChannelTotalOf(rows: seq<Booking>, mode: Mode): Channel -> ChannelTotal {
    (c: Channel) => ChannelTotal(c, SumBy(Filter(rows, KeyIs(ChannelFn(), c)), ValueFn(mode)))
  }

  /** The entries of the channel map, sorted by descending total. */
  function ChannelChart(rows: seq<Booking>, mode: Mode): seq<ChannelTotal> {
    SortBy(MapSeq(ChannelsSeen(rows), ChannelTotalOf(rows, mode)), TotalGe())
  }

  /** `[...map.entries()]` from the tally. */
  function EntriesOf(keys: seq<Channel>, m: map<Channel, Entry>): (r: seq<ChannelTotal>)
    requires forall j :: 0 <= j < |keys| ==> keys[j] in m
    ensures |r| == |keys| && forall j :: 0 <= j < |keys| ==> r[j] == ChannelTotal(keys[j], m[keys[j]].total)
  {
    seq(|keys|, j requires 0 <= j < |keys| => ChannelTotal(keys[j], m[keys[j]].total))
  }

  /** `sorted.map(x => x[0])` shown by label. */
  function ChannelLabels(s: seq<ChannelTotal>): (r: seq<string>)
    ensures |r| == |s| && forall j :: 0 <= j < |s| ==> r[j] == Label(s[j].channel)
  {
    seq(|s|, j requires 0 <= j < |s| => Label(s[j].channel))
  }

  /** `sorted.map(x => x[1])`. */
  function ChannelValues(s: seq<ChannelTotal>): (r: seq<real>)
    ensures |r| == |s| && forall j :: 0 <= j < |s| ==> r[j] == s[j].total
  {
    seq(|s|, j requires 0 <= j < |s| => s[j].total)
  }

  /**
   * `aggRevenueByChannel(rows)`: the channels with their revenue, largest
   * first. `r.__channel || "Onbekend"` never falls back, as every label is
   * non-empty.
   */
  method AggRevenueByChannel(rows: seq<Booking>, mode: Mode) returns (labels: seq<string>, values: seq<real>)
    ensures |labels| == |values| == |ChannelChart(rows, mode)|
    ensures forall j :: 0 <= j < |labels| ==>
      labels[j] == Label(ChannelChart(rows, mode)[j].channel) && values[j] == ChannelChart(rows, mode)[j].total
  {
    var order, tally := TallyByKey(rows, ChannelFn(), ValueFn(mode));
    EntriesMatch(rows, mode, order, tally);
    var entries := EntriesOf(order, tally);
    var sorted := SortBy(entries, TotalGe());
    assert sorted == ChannelChart(rows, mode);
    labels := ChannelLabels(sorted);
    values := ChannelValues(sorted);
  }

  /** The entries read from the filled map are the channels seen with their sums. */
  lemma EntriesMatch(rows: seq<Booking>, mode: Mode, order: seq<Channel>, tally: map<Channel, Entry>)
    requires order == ChannelsSeen(rows)
    requires forall k :: k in tally <==> k in order
    requires forall k :: k in tally ==> tally[k].total == SumBy(Filter(rows, KeyIs(ChannelFn(), k)), ValueFn(mode))
    ensures forall j :: 0 <= j < |order| ==> order[j] in tally
    ensures EntriesOf(order, tally) == MapSeq(ChannelsSeen(rows), ChannelTotalOf(rows, mode))
  {
    var entries := EntriesOf(order, tally);
    var spec := MapSeq(ChannelsSeen(rows), ChannelTotalOf(rows, mode));
    forall j | 0 <= j < |entries|
      ensures entries[j] == spec[j]
    {
      var c := order[j];
      assert c in tally;
      assert spec[j] == ChannelTotalOf(rows, mode)(c);
    }
  }

  /** No two entries of `s` are for the same channel. */
  predicate DistinctChannels(s: seq<ChannelTotal>) {
    forall i, j :: 0 <= i < j < |s| ==> s[i].channel != s[j].channel
  }

  /** The map's entries before sorting, one per channel seen. */
  lemma UnsortedChannels(rows: seq<Booking>, mode: Mode)
    ensures DistinctChannels(MapSeq(ChannelsSeen(rows), ChannelTotalOf(rows, mode)))
    ensures Distinct(MapSeq(ChannelsSeen(rows), ChannelTotalOf(rows, mode)))
  {
  }

  /** Sorting keeps one entry per channel: an entry of the sorted list comes from the unsorted one. */
  lemma SortedFrom(rows: seq<Booking>, mode: Mode, i: nat)
    requires i < |ChannelChart(rows, mode)|
    ensures ChannelChart(rows, mode)[i] in MapSeq(ChannelsSeen(rows), ChannelTotalOf(rows, mode))
  {
    var entries := MapSeq(ChannelsSeen(rows), ChannelTotalOf(rows, mode));
    assert ChannelChart(rows, mode)[i] in multiset(ChannelChart(rows, mode));
  }

  /** The chart is ordered by descending revenue. */
  lemma ChannelChartDescending(rows: seq<Booking>, mode: Mode)
    ensures forall i, j :: 0 <= i < j < |ChannelChart(rows, mode)| ==>
      ChannelChart(rows, mode)[i].total >= ChannelChart(rows, mode)[j].total
  {
    assert IsTotalPreorder(TotalGe());
    SortBySorted(MapSeq(ChannelsSeen(rows), ChannelTotalOf(rows, mode)), TotalGe());
  }

  /** Each channel appears once, so no label is shown twice. */
  lemma ChannelChartDistinct(rows: seq<Booking>, mode: Mode)
    ensures forall i, j :: 0 <= i < j < |ChannelChart(rows, mode)| ==>
      Label(ChannelChart(rows, mode)[i].channel) != Label(ChannelChart(rows, mode)[j].channel)
  {
    var entries := MapSeq(ChannelsSeen(rows), ChannelTotalOf(rows, mode));
    var chart := ChannelChart(rows, mode);
    UnsortedChannels(rows, mode);
    SortByDistinct(entries, TotalGe());
    forall i, j | 0 <= i < j < |chart|
      ensures Label(chart[i].channel) != Label(chart[j].channel)
    {
      SortedFrom(rows, mode, i);
      SortedFrom(rows, mode, j);
      if Label(chart[i].channel) == Label(chart[j].channel) {
        LabelInjective(chart[i].channel, chart[j].channel);
        assert false;
      }
    }
  }

  /** A channel is on the chart exactly when some record has it, and then with the revenue of its records. */
  lemma ChannelChartEntries(rows: seq<Booking>, mode: Mode, c: Channel)
    ensures (exists i :: 0 <= i < |ChannelChart(rows, mode)| && ChannelChart(rows, mode)[i].channel == c)
        <==> c in MapSeq(rows, ChannelFn())
    ensures forall i :: 0 <= i < |ChannelChart(rows, mode)| && ChannelChart(rows, mode)[i].channel == c ==>
      ChannelChart(rows, mode)[i].total == SumBy(Filter(rows, KeyIs(ChannelFn(), c)), ValueFn(mode))
  {
    forall i | 0 <= i < |ChannelChart(rows, mode)| && ChannelChart(rows, mode)[i].channel == c
      ensures c in MapSeq(rows, ChannelFn())
      ensures ChannelChart(rows, mode)[i].total == SumBy(Filter(rows, KeyIs(ChannelFn(), c)), ValueFn(mode))
    {
      ChartEntry(rows, mode, i);
    }
    if c in MapSeq(rows, ChannelFn()) {
      ChannelOnChart(rows, mode, c);
    }
  }

  /** Each chart entry is a channel some record has, with the revenue of those records. */
  lemma ChartEntry(rows: seq<Booking>, mode: Mode, i: nat)
    requires i < |ChannelChart(rows, mode)|
    ensures ChannelChart(rows, mode)[i].channel in MapSeq(rows, ChannelFn())
    ensures ChannelChart(rows, mode)[i].total
         == SumBy(Filter(rows, KeyIs(ChannelFn(), ChannelChart(rows, mode)[i].channel)), ValueFn(mode))
  {
    var e := ChannelChart(rows, mode)[i];
    SortedFrom(rows, mode, i);
    var seen := ChannelsSeen(rows);
    var k :| 0 <= k < |seen| && MapSeq(seen, ChannelTotalOf(rows, mode))[k] == e;
    DedupHas(MapSeq(rows, ChannelFn()), seen[k]);
  }

  /** A channel some record has is on the chart. */
  lemma ChannelOnChart(rows: seq<Booking>, mode: Mode, c: Channel)
    requires c in MapSeq(rows, ChannelFn())
    ensures exists i :: 0 <= i < |ChannelChart(rows, mode)| && ChannelChart(rows, mode)[i].channel == c
  {
    var seen := ChannelsSeen(rows);
    DedupHas(MapSeq(rows, ChannelFn()), c);
    var k :| 0 <= k < |seen| && seen[k] == c;
    var e := MapSeq(seen, ChannelTotalOf(rows, mode))[k];
    SortedHas(rows, mode, e);
    var chart := ChannelChart(rows, mode);
    var i :| 0 <= i < |chart| && chart[i] == e;
  }

  /** Sorting loses no entry. */
  lemma SortedHas(rows: seq<Booking>, mode: Mode, e: ChannelTotal)
    requires e in MapSeq(ChannelsSeen(rows), ChannelTotalOf(rows, mode))
    ensures e in ChannelChart(rows, mode)
  {
    assert e in multiset(MapSeq(ChannelsSeen(rows), ChannelTotalOf(rows, mode)));
  }

  /** The chart's values add up to the revenue of all records. */
  lemma ChannelChartSum(rows: seq<Booking>, mode: Mode)
    ensures SumBy(ChannelChart(rows, mode), TotalFn()) == SumBy(rows, ValueFn(mode))
  {
    var seen := ChannelsSeen(rows);
    SortBySum(MapSeq(seen, ChannelTotalOf(rows, mode)), TotalGe(), TotalFn());
    EntriesSum(rows, mode);
    ChannelsSeenCover(rows);
    SumByGroups(rows, ChannelFn(), seen, ValueFn(mode));
  }

  /** Before sorting, the entries' totals are the per-channel sums. */
  lemma EntriesSum(rows: seq<Booking>, mode: Mode)
    ensures SumBy(MapSeq(ChannelsSeen(rows), ChannelTotalOf(rows, mode)), TotalFn())
         == SumBy(ChannelsSeen(rows), GroupSum(rows, ChannelFn(), ValueFn(mode)))
  {
    SumByPointwise(MapSeq(ChannelsSeen(rows), ChannelTotalOf(rows, mode)), TotalFn(),
      ChannelsSeen(rows), GroupSum(rows, ChannelFn(), ValueFn(mode)));
  }

  /** Every record's channel is among the channels seen. */
  lemma ChannelsSeenCover(rows: seq<Booking>)
    ensures forall i :: 0 <= i < |rows| ==> ChannelFn()(rows[i]) in ChannelsSeen(rows)
  {
    forall i | 0 <= i < |rows|
      ensures ChannelFn()(rows[i]) in ChannelsSeen(rows)
    {
      assert MapSeq(rows, ChannelFn())[i] == ChannelFn()(rows[i]);
    }
  }

  /** The chart's values add up to the KPI revenue of the chosen mode. */
  lemma ChannelChartAddsUp(rows: seq<Booking>, mode: Mode)
    requires forall i :: 0 <= i < |rows| ==> WellFormed(rows[i])
    ensures SumBy(ChannelChart(rows, mode), TotalFn())
         == (match mode case Gross => ComputeKpis(rows).grossRevenue case Net => ComputeKpis(rows).netRevenue)
  {
    ChannelChartSum(rows, mode);
    KpiRevenueIsValueByMode(rows, mode);
  }

  // --------------------------------------------------------------- guest pie

  /** A slice of the guest pie: the owner's own bookings, or a party size from 1 to "10" (ten or more). */
  datatype Slice = OwnBooking | Party(size: nat)

  /** `Math.round(x)`: halves round up, towards positive infinity. */
  function RoundHalfUp(x: real): (r: int)
    ensures r as real <= x + 0.5 < r as real + 1.0
  {
    (x + 0.5).Floor
  }

  /** `Math.max(0, Math.round(r.__guests || 0))`. */
  function PartySize(b: Booking): nat {
    var g := RoundHalfUp(b.guests);
    if g < 0 then 0 else g
  }

  /** The records the loop counts: owner bookings, and others with at least one guest. */
  function InPieFn(): Booking -> bool {
    (b: Booking) => b.owner || PartySize(b) > 0
  }

  /** The map key a counted record adds one to. */
  function SliceOf(b: Booking): Slice {
    if b.owner then OwnBooking else Party(if PartySize(b) >= 10 then 10 else PartySize(b))
  }

  function SliceFn(): Booking -> Slice {
    (b: Booking) => SliceOf(b)
  }

  function SliceLabel(s: Slice): string {
    match s
    case OwnBooking => "Eigen boeking"
    case Party(n) => NatToString(n)
  }

  function IsPartyFn(): Slice -> bool {
    (s: Slice) => s.Party?
  }

  /** `(a, b) => Number(a) - Number(b)` on the numeric keys. */
  function SizeLe(): (Slice, Slice) -> bool {
    (a: Slice, b: Slice) => SizeKey(a) <= SizeKey(b)
  }

  function SizeKey(s: Slice): nat {
    match s
    case OwnBooking => 0
    case Party(n) => n
  }

  /** The counted records: those the loop does not `continue` past. */
  function PieRows(rows: seq<Booking>): seq<Booking> {
    Filter(rows, InPieFn())
  }

  /** The keys of the map, in order of first occurrence. */
  function SlicesSeen(rows: seq<Booking>): seq<Slice> {
    Dedup(MapSeq(PieRows(rows), SliceFn()))
  }

  /** The numeric keys, sorted as numbers. */
  function PartySlices(rows: seq<Booking>): seq<Slice> {
    SortBy(Filter(SlicesSeen(rows), IsPartyFn()), SizeLe())
  }

  /** The pie's slices: "Eigen boeking" first when present, then the party sizes. */
  function PieSlices(rows: seq<Booking>): seq<Slice> {
    if OwnBooking in SlicesSeen(rows) then [OwnBooking] + PartySlices(rows) else PartySlices(rows)
  }

  /** The number of counted records in a slice. */
  function SliceCount(rows: seq<Booking>, s: Slice): nat {
    |Filter(PieRows(rows), KeyIs(SliceFn(), s))|
  }

  function SliceLabels(s: seq<Slice>): (r: seq<string>)
    ensures |r| == |s| && forall j :: 0 <= j < |s| ==> r[j] == SliceLabel(s[j])
  {
    seq(|s|, j requires 0 <= j < |s| => SliceLabel(s[j]))
  }

  /**
   * `aggGuestPie(rows)`: the loop with its two `continue`s is written as a
   * filter followed by the tally.
   */
  method AggGuestPie(rows: seq<Booking>) returns (labels: seq<string>, values: seq<nat>)
    ensures |labels| == |values| == |PieSlices(rows)|
    ensures forall j :: 0 <= j < |labels| ==>
      labels[j] == SliceLabel(PieSlices(rows)[j]) && values[j] == SliceCount(rows, PieSlices(rows)[j])
  {
    var counted := Filter(rows, InPieFn());
    assert counted == PieRows(rows);
    var order, tally := TallyByKey(counted, SliceFn(), One());
    assert order == SlicesSeen(rows);
    var slices := PieOrder(rows, order, tally);
    labels := SliceLabels(slices);
    values := Counts(slices, tally);
  }

  /**
   * The labels' order: "Eigen boeking" when the map has it, then the numeric
   * keys sorted with `(a, b) => Number(a) - Number(b)`.
   */
  method PieOrder(rows: seq<Booking>, order: seq<Slice>, tally: map<Slice, Entry>) returns (slices: seq<Slice>)
    requires order == SlicesSeen(rows)
    requires forall k :: k in tally <==> k in order
    ensures slices == PieSlices(rows)
    ensures forall j :: 0 <= j < |slices| ==> slices[j] in tally
  {
    var numeric := SortBy(Filter(order, IsPartyFn()), SizeLe());
    assert numeric == PartySlices(rows);
    slices := numeric;
    if OwnBooking in tally {
      slices := [OwnBooking] + numeric;
    }
    SlicesInMap(rows, order, tally);
  }

  /** Every slice can be looked up in the filled map. */
  lemma SlicesInMap(rows: seq<Booking>, order: seq<Slice>, tally: map<Slice, Entry>)
    requires order == SlicesSeen(rows)
    requires forall k :: k in tally <==> k in order
    ensures forall j :: 0 <= j < |PieSlices(rows)| ==> PieSlices(rows)[j] in tally
  {
    forall j | 0 <= j < |PieSlices(rows)|
      ensures PieSlices(rows)[j] in tally
    {
      PieSlicesSeen(rows, j);
    }
  }

  /** Every slice is a key of the map. */
  lemma PieSlicesSeen(rows: seq<Booking>, i: nat)
    requires i < |PieSlices(rows)|
    ensures PieSlices(rows)[i] in SlicesSeen(rows)
    ensures i < |PieSlices(rows)| - |PartySlices(rows)| ==> PieSlices(rows)[i] == OwnBooking
    ensures i >= |PieSlices(rows)| - |PartySlices(rows)| ==> PieSlices(rows)[i].Party?
  {
    var parties := PartySlices(rows);
    var p := PieSlices(rows);
    if OwnBooking in SlicesSeen(rows) {
      assert p == [OwnBooking] + parties;
      if i > 0 {
        assert p[i] == parties[i - 1];
        PartySlicesSeen(rows);
      }
    } else {
      assert p == parties;
      PartySlicesSeen(rows);
    }
  }

  /** The sorted numeric keys are party slices of the map. */
  lemma PartySlicesSeen(rows: seq<Booking>)
    ensures forall a :: 0 <= a < |PartySlices(rows)| ==>
      PartySlices(rows)[a].Party? && PartySlices(rows)[a] in SlicesSeen(rows)
  {
    var f := Filter(SlicesSeen(rows), IsPartyFn());
    var parties := PartySlices(rows);
    forall a | 0 <= a < |parties|
      ensures parties[a].Party? && parties[a] in SlicesSeen(rows)
    {
      assert parties[a] in multiset(parties);
      assert parties[a] in f;
    }
  }

  /** The sorted numeric keys: party slices in strictly ascending size. */
  lemma PartySlicesStrict(rows: seq<Booking>)
    ensures forall a :: 0 <= a < |PartySlices(rows)| ==> PartySlices(rows)[a].Party?
    ensures forall a, b :: 0 <= a < b < |PartySlices(rows)| ==> PartySlices(rows)[a].size < PartySlices(rows)[b].size
  {
    PartySlicesSeen(rows);
    var seen := SlicesSeen(rows);
    var f := Filter(seen, IsPartyFn());
    var parties := PartySlices(rows);
    assert IsTotalPreorder(SizeLe());
    SortBySorted(f, SizeLe());
    FilterDistinct(seen, IsPartyFn());
    SortByDistinct(f, SizeLe());
    forall a, b | 0 <= a < b < |parties|
      ensures parties[a].size < parties[b].size
    {
      assert SizeLe()(parties[a], parties[b]);
      assert parties[a] != parties[b];
    }
  }

  /**
   * "Eigen boeking" can only come first, and the party sizes after it are in
   * strictly ascending order.
   */
  lemma PieSlicesAscending(rows: seq<Booking>)
    ensures forall i, j :: 0 <= i < j < |PieSlices(rows)| ==>
      PieSlices(rows)[j].Party? && (PieSlices(rows)[i].Party? ==> PieSlices(rows)[i].size < PieSlices(rows)[j].size)
  {
    PartySlicesStrict(rows);
    if OwnBooking in SlicesSeen(rows) {
      assert PieSlices(rows) == [OwnBooking] + PartySlices(rows);
      OwnBookingFirst(PartySlices(rows));
    } else {
      assert PieSlices(rows) == PartySlices(rows);
    }
  }

  /** "Eigen boeking" put in front of strictly ascending party sizes. */
  lemma OwnBookingFirst(parties: seq<Slice>)
    requires forall a :: 0 <= a < |parties| ==> parties[a].Party?
    requires forall a, b :: 0 <= a < b < |parties| ==> parties[a].size < parties[b].size
    ensures forall i, j :: 0 <= i < j < |[OwnBooking] + parties| ==>
      ([OwnBooking] + parties)[j].Party?
      && (([OwnBooking] + parties)[i].Party? ==> ([OwnBooking] + parties)[i].size < ([OwnBooking] + parties)[j].size)
  {
    var p := [OwnBooking] + parties;
    forall i, j | 0 <= i < j < |p|
      ensures p[j].Party? && (p[i].Party? ==> p[i].size < p[j].size)
    {
      assert p[j] == parties[j - 1];
      if i > 0 {
        assert p[i] == parties[i - 1];
      }
    }
  }

  /** Party sizes run from 1 to 10: a record with no guests is skipped, ten or more count as "10". */
  lemma PieSizesInRange(rows: seq<Booking>)
    ensures forall i :: 0 <= i < |PieSlices(rows)| && PieSlices(rows)[i].Party? ==> 1 <= PieSlices(rows)[i].size <= 10
  {
    forall i | 0 <= i < |PieSlices(rows)| && PieSlices(rows)[i].Party?
      ensures 1 <= PieSlices(rows)[i].size <= 10
    {
      PieSlicesSeen(rows, i);
      SeenSlice(rows, PieSlices(rows)[i]);
    }
  }

  /** The pie opens with "Eigen boeking" exactly when some record is an owner booking. */
  lemma PieOwnerFirst(rows: seq<Booking>)
    ensures (|PieSlices(rows)| > 0 && PieSlices(rows)[0] == OwnBooking) <==> exists b :: b in rows && b.owner
  {
    OwnerSeen(rows);
    if |PieSlices(rows)| > 0 && PieSlices(rows)[0] == OwnBooking {
      PieSlicesSeen(rows, 0);
    }
  }

  /** The map's keys are the slices of the counted records. */
  lemma SeenSlice(rows: seq<Booking>, s: Slice)
    requires s in SlicesSeen(rows)
    ensures exists b :: b in rows && InPieFn()(b) && SliceOf(b) == s
    ensures s.Party? ==> 1 <= s.size <= 10
  {
    DedupHas(MapSeq(PieRows(rows), SliceFn()), s);
    var k :| 0 <= k < |PieRows(rows)| && SliceOf(PieRows(rows)[k]) == s;
    assert PieRows(rows)[k] in rows;
  }

  /** "Eigen boeking" is a key exactly when some record is an owner booking. */
  lemma OwnerSeen(rows: seq<Booking>)
    ensures OwnBooking in SlicesSeen(rows) <==> exists b :: b in rows && b.owner
  {
    DedupHas(MapSeq(PieRows(rows), SliceFn()), OwnBooking);
    if b :| b in rows && b.owner {
      assert b in PieRows(rows);
      var k :| 0 <= k < |PieRows(rows)| && PieRows(rows)[k] == b;
      assert MapSeq(PieRows(rows), SliceFn())[k] == OwnBooking;
    }
    if OwnBooking in SlicesSeen(rows) {
      SeenSlice(rows, OwnBooking);
    }
  }

  /** No two slices carry the same label. */
  lemma SliceLabelInjective(a: Slice, b: Slice)
    requires SliceLabel(a) == SliceLabel(b)
    ensures a == b
  {
    if a.Party? && b.Party? {
      NatToStringRoundTrip(a.size);
      NatToStringRoundTrip(b.size);
    }
  }

  /** The slices are exactly the map's keys, each once. */
  lemma PieSlicesCover(rows: seq<Booking>)
    ensures Distinct(PieSlices(rows))
    ensures forall s :: s in PieSlices(rows) <==> s in SlicesSeen(rows)
  {
    var p := PieSlices(rows);
    var seen := SlicesSeen(rows);
    PieSlicesAscending(rows);
    forall i, j | 0 <= i < j < |p|
      ensures p[i] != p[j]
    {
    }
    forall s | s in seen
      ensures s in p
    {
      if s.Party? {
        assert s in Filter(seen, IsPartyFn());
        assert s in multiset(PartySlices(rows));
      }
    }
    forall i | 0 <= i < |p|
      ensures p[i] in seen
    {
      PieSlicesSeen(rows, i);
    }
  }

  /** The slices together count every owner booking and every other booking with at least one guest. */
  lemma PieSlicesAddUp(rows: seq<Booking>)
    ensures SumBy(PieSlices(rows), GroupSum(PieRows(rows), SliceFn(), One())) == |PieRows(rows)| as real
  {
    var seen := SlicesSeen(rows);
    PieSlicesCover(rows);
    forall i | 0 <= i < |PieRows(rows)|
      ensures SliceFn()(PieRows(rows)[i]) in PieSlices(rows)
    {
      assert MapSeq(PieRows(rows), SliceFn())[i] == SliceFn()(PieRows(rows)[i]);
      assert SliceFn()(PieRows(rows)[i]) in seen;
    }
    SumByGroups(PieRows(rows), SliceFn(), PieSlices(rows), One());
    SumByOne(PieRows(rows));
  }

  /** A slice's value is its number of counted records, the sum of one per record. */
  lemma SliceCountIsGroupSum(rows: seq<Booking>, s: Slice)
    ensures SliceCount(rows, s) as real == GroupSum(PieRows(rows), SliceFn(), One())(s)
  {
    SumByOne(Filter(PieRows(rows), KeyIs(SliceFn(), s)));
  }
}
