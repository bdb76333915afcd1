/**
 * The occupancy engine: the set of booked nights (`buildOccupiedNightSet`)
 * and the per-week count of booked and free nights (`aggFreeNightsByWeek`).
 *
 * A night is a day number; the `YYYY-MM-DD` strings the source keys its set
 * with name one day each, so a set of day numbers holds the same nights.
 */
module Occupancy {
  import opened Text
  import opened Calendar
  import opened Seqs
  import opened Bookings
  import opened IsoWeek

  /** `r.__aankomst && r.__vertrek`: a record with both dates. */
  function HasStayFn(): Booking -> bool {
    (b: Booking) => b.departure.Some?
  }

  /** The days `lo .. hi - 1`. */
  function DayRange(lo: Day, hi: Day): set<Day>
    decreases hi - lo
  {
    if hi <= lo then {} else DayRange(lo, hi - 1) + {hi - 1}
  }

  lemma {:induction false} DayRangeHas(lo: Day, hi: Day, d: Day)
    ensures d in DayRange(lo, hi) <==> lo <= d < hi
    decreases hi - lo
  {
    if hi > lo {
      DayRangeHas(lo, hi - 1, d);
    }
  }

  /** The nights of one booking: from arrival up to, and not including, departure. */
  function StayNights(b: Booking): set<Day> {
    if b.departure.Some? then DayRange(b.arrival, b.departure.value) else {}
  }

  /** The nights of all the bookings, one booking at a time. */
  function NightsOf(rows: seq<Booking>): set<Day> {
    if rows == [] then {} else NightsOf(rows[..|rows| - 1]) + StayNights(rows[|rows| - 1])
  }

  /** A night is occupied exactly when it lies in some booking's `[arrival, departure)`. */
  lemma {:induction false} NightsOfMeaning(rows: seq<Booking>, d: Day)
    ensures d in NightsOf(rows) <==>
      exists i :: 0 <= i < |rows| && rows[i].departure.Some? && rows[i].arrival <= d < rows[i].departure.value
  {
    if rows != [] {
      var n := |rows| - 1;
      NightsOfMeaning(rows[..n], d);
      if rows[n].departure.Some? {
        DayRangeHas(rows[n].arrival, rows[n].departure.value, d);
      }
      if d in NightsOf(rows[..n]) {
        var i :| 0 <= i < n && rows[..n][i].departure.Some? && rows[..n][i].arrival <= d < rows[..n][i].departure.value;
        assert rows[i] == rows[..n][i];
      }
      if i :| 0 <= i < |rows| && rows[i].departure.Some? && rows[i].arrival <= d < rows[i].departure.value {
        if i < n {
          assert rows[..n][i] == rows[i];
        }
      }
    }
  }

  /** `buildOccupiedNightSet(rows)`. */
  method BuildOccupiedNightSet(rows: seq<Booking>) returns (occ: set<Day>)
    ensures occ == NightsOf(rows)
    ensures forall d :: d in occ <==>
      exists i :: 0 <= i < |rows| && rows[i].departure.Some? && rows[i].arrival <= d < rows[i].departure.value
  {
    occ := {};
    var i := 0;
    while i < |rows|
      invariant i <= |rows|
      invariant occ == NightsOf(rows[..i])
    {
      var r := rows[i];
      assert rows[..i + 1][..i] == rows[..i];
      if r.departure.Some? {
        var cur := r.arrival;
        var end := r.departure.value;
        ghost var before := occ;
        while cur < end
          invariant r.arrival <= cur && (cur <= end || cur == r.arrival)
          invariant occ == before + DayRange(r.arrival, cur)
          decreases end - cur
        {
          occ := occ + {cur};
          cur := cur + 1;
        }
        assert DayRange(r.arrival, cur) == StayNights(r);
      }
      i := i + 1;
    }
    assert rows[..i] == rows;
    forall d
      ensures d in occ <==>
        exists i :: 0 <= i < |rows| && rows[i].departure.Some? && rows[i].arrival <= d < rows[i].departure.value
    {
      NightsOfMeaning(rows, d);
    }
  }

  // ------------------------------------------------------ free nights by week

  /** `valid.reduce((m, r) => r.__aankomst < m ? r.__aankomst : m, valid[0].__aankomst)`: the earliest arrival. */
  function MinArrival(s: seq<Booking>): (r: Day)
    requires s != []
    ensures forall i :: 0 <= i < |s| ==> r <= s[i].arrival
    ensures exists i :: 0 <= i < |s| && r == s[i].arrival
  {
    if |s| == 1 then s[0].arrival
    else
      var init := s[..|s| - 1];
      var m := MinArrival(init);
      assert forall i :: 0 <= i < |init| ==> init[i] == s[i];
      var x := s[|s| - 1].arrival;
      if x < m then x else m
  }

  /** `valid.reduce((m, r) => r.__vertrek > m ? r.__vertrek : m, valid[0].__vertrek)`: the latest departure. */
  function MaxDeparture(s: seq<Booking>): (r: Day)
    requires s != [] && forall i :: 0 <= i < |s| ==> s[i].departure.Some?
    ensures forall i :: 0 <= i < |s| ==> s[i].departure.value <= r
    ensures exists i :: 0 <= i < |s| && r == s[i].departure.value
  {
    if |s| == 1 then s[0].departure.value
    else
      var init := s[..|s| - 1];
      var m := MaxDeparture(init);
      assert forall i :: 0 <= i < |init| ==> init[i] == s[i];
      var x := s[|s| - 1].departure.value;
      if x > m then x else m
  }

  /** `weekBooked.set(key, (weekBooked.get(key) || 0) + (isBooked ? 1 : 0))`. */
  function AddNight(m: map<string, nat>, key: string, isBooked: bool): map<string, nat> {
    m[key := (if key in m then m[key] else 0) + (if isBooked then 1 else 0)]
  }

  /** The ISO week key (`isoWeekKey` with the corrected 4 January) as the walk's key function. */
  function WeekKeyFn(): Day -> string {
    (d: Day) => IsoWeekKey(d)
  }

  /** The map a walk over the days `lo .. hi - 1` builds: per key, the number of occupied days. */
  function WalkCounts(lo: Day, hi: Day, occ: set<Day>, key: Day -> string): map<string, nat>
    decreases hi - lo
  {
    if hi <= lo then map[]
    else AddNight(WalkCounts(lo, hi - 1, occ, key), key(hi - 1), hi - 1 in occ)
  }

  /** `weekBooked` once the walk has passed the days `lo .. hi - 1`. */
  function WeekCounts(lo: Day, hi: Day, occ: set<Day>): map<string, nat> {
    WalkCounts(lo, hi, occ, WeekKeyFn())
  }

  /** `isoWeekKey` as written, as the walk's key function. */
  function WeekKeyAsWrittenFn(): Day -> string {
    (d: Day) => IsoWeekKeyAsWritten(d)
  }

  /** The occupied days of the walk `lo .. hi - 1` whose key is `k`. */
  function BookedDays(lo: Day, hi: Day, occ: set<Day>, key: Day -> string, k: string): set<Day>
    decreases hi - lo
  {
    if hi <= lo then {}
    else BookedDays(lo, hi - 1, occ, key, k) + (if hi - 1 in occ && key(hi - 1) == k then {hi - 1} else {})
  }

  lemma {:induction false} BookedDaysHas(lo: Day, hi: Day, occ: set<Day>, key: Day -> string, k: string, d: Day)
    ensures d in BookedDays(lo, hi, occ, key, k) <==> lo <= d < hi && d in occ && key(d) == k
    decreases hi - lo
  {
    if hi > lo {
      BookedDaysHas(lo, hi - 1, occ, key, k, d);
    }
  }

  /** `Math.min(7, n)`. */
  function Min7(n: nat): (r: nat)
    ensures r <= 7 && r <= n && (n <= 7 ==> r == n)
  {
    if n < 7 then n else 7
  }

  /** `labels.map(k => Math.min(7, weekBooked.get(k) || 0))`. */
  function BookedOf(labels: seq<string>, m: map<string, nat>): (r: seq<nat>)
    requires forall j :: 0 <= j < |labels| ==> labels[j] in m
    ensures |r| == |labels| && forall j :: 0 <= j < |labels| ==> r[j] == Min7(m[labels[j]])
  {
    if labels == [] then [] else BookedOf(labels[..|labels| - 1], m) + [Min7(m[labels[|labels| - 1]])]
  }

  /** `labels.map((k, i) => 7 - booked[i])`. */
  function FreeOf(booked: seq<nat>): (r: seq<int>)
    ensures |r| == |booked| && forall j :: 0 <= j < |booked| ==> r[j] == 7 - booked[j] as int
  {
    if booked == [] then [] else FreeOf(booked[..|booked| - 1]) + [7 - booked[|booked| - 1] as int]
  }

  /**
   * `aggFreeNightsByWeek(rows)` keyed by the corrected `IsoWeekKey`: one
   * entry per ISO week the walk from the earliest arrival to the latest
   * departure passes, in ascending key order, with the week's booked nights
   * (at most 7) and the rest of its 7 nights. The lines as written are
   * `AggFreeNightsByWeekAsWritten`.
   */
  method AggFreeNightsByWeek(rows: seq<Booking>) returns (labels: seq<string>, free: seq<int>, booked: seq<nat>)
    ensures |labels| == |free| == |booked|
    ensures Filter(rows, HasStayFn()) == [] ==> labels == []
    ensures forall i, j :: 0 <= i < j < |labels| ==> LexLe(labels[i], labels[j]) && labels[i] != labels[j]
    ensures forall i :: 0 <= i < |booked| ==> booked[i] <= 7 && free[i] == 7 - booked[i] as int
    ensures Filter(rows, HasStayFn()) != [] ==>
      var valid := Filter(rows, HasStayFn());
      var counts := WeekCounts(MinArrival(valid), MaxDeparture(valid), NightsOf(rows));
      (forall k :: k in labels <==> k in counts)
      && forall i :: 0 <= i < |labels| ==> labels[i] in counts && booked[i] == Min7(counts[labels[i]])
  {
    labels, free, booked := FreeNightsBy(rows, WeekKeyFn());
  }

  /** `aggFreeNightsByWeek(rows)` as written: the same walk, keyed by `isoWeekKey` as its lines stand. */
  method AggFreeNightsByWeekAsWritten(rows: seq<Booking>) returns (labels: seq<string>, free: seq<int>, booked: seq<nat>)
    ensures |labels| == |free| == |booked|
    ensures Filter(rows, HasStayFn()) == [] ==> labels == []
    ensures forall i, j :: 0 <= i < j < |labels| ==> LexLe(labels[i], labels[j]) && labels[i] != labels[j]
    ensures forall i :: 0 <= i < |booked| ==> booked[i] <= 7 && free[i] == 7 - booked[i] as int
    ensures Filter(rows, HasStayFn()) != [] ==>
      var valid := Filter(rows, HasStayFn());
      var counts := WalkCounts(MinArrival(valid), MaxDeparture(valid), NightsOf(rows), WeekKeyAsWrittenFn());
      (forall k :: k in labels <==> k in counts)
      && forall i :: 0 <= i < |labels| ==> labels[i] in counts && booked[i] == Min7(counts[labels[i]])
  {
    labels, free, booked := FreeNightsBy(rows, WeekKeyAsWrittenFn());
  }

  /** The body of `aggFreeNightsByWeek`, with `key` for `isoWeekKey`. */
  method FreeNightsBy(rows: seq<Booking>, key: Day -> string) returns (labels: seq<string>, free: seq<int>, booked: seq<nat>)
    ensures |labels| == |free| == |booked|
    ensures Filter(rows, HasStayFn()) == [] ==> labels == []
    ensures forall i, j :: 0 <= i < j < |labels| ==> LexLe(labels[i], labels[j]) && labels[i] != labels[j]
    ensures forall i :: 0 <= i < |booked| ==> booked[i] <= 7 && free[i] == 7 - booked[i] as int
    ensures Filter(rows, HasStayFn()) != [] ==>
      var valid := Filter(rows, HasStayFn());
      var counts := WalkCounts(MinArrival(valid), MaxDeparture(valid), NightsOf(rows), key);
      (forall k :: k in labels <==> k in counts)
      && forall i :: 0 <= i < |labels| ==> labels[i] in counts && booked[i] == Min7(counts[labels[i]])
  {
    var occ := BuildOccupiedNightSet(rows);
    var valid := Filter(rows, HasStayFn());
    if |valid| == 0 {
      return [], [], [];
    }
    var minDate := MinArrival(valid);
    var maxDate := MaxDeparture(valid);
    var weekBooked, keys := WalkDays(minDate, maxDate, occ, key);
    labels := SortBy(keys, StrLe());
    SortedKeys(keys, labels);
    booked := BookedOf(labels, weekBooked);
    free := FreeOf(booked);
  }

  /** The `while (cur < maxDate)` walk, one day at a time, with `key` for `isoWeekKey`. */
  method WalkDays(minDate: Day, maxDate: Day, occ: set<Day>, key: Day -> string)
    returns (weekBooked: map<string, nat>, keys: seq<string>)
    ensures weekBooked == WalkCounts(minDate, maxDate, occ, key)
    ensures Distinct(keys) && forall k :: k in keys <==> k in weekBooked
  {
    weekBooked := map[];
    keys := [];
    var cur := minDate;
    while cur < maxDate
      invariant minDate <= cur && (cur <= maxDate || cur == minDate)
      invariant weekBooked == WalkCounts(minDate, cur, occ, key)
      invariant Distinct(keys) && forall k :: k in keys <==> k in weekBooked
      decreases maxDate - cur
    {
      var k := key(cur);
      var isBooked := cur in occ;
      if k !in weekBooked {
        keys := keys + [k];
      }
      weekBooked := AddNight(weekBooked, k, isBooked);
      cur := cur + 1;
    }
    if maxDate <= minDate {
      assert WalkCounts(minDate, maxDate, occ, key) == map[];
    }
  }

  /** `[...weekBooked.keys()].sort()`: distinct keys come out strictly ascending and none is lost. */
  lemma SortedKeys(keys: seq<string>, labels: seq<string>)
    requires Distinct(keys) && labels == SortBy(keys, StrLe())
    ensures forall k :: k in labels <==> k in keys
    ensures forall i, j :: 0 <= i < j < |labels| ==> LexLe(labels[i], labels[j]) && labels[i] != labels[j]
  {
    forall a, b
      ensures StrLe()(a, b) || StrLe()(b, a)
    {
      LexLeTotal(a, b);
    }
    forall a, b, c | StrLe()(a, b) && StrLe()(b, c)
      ensures StrLe()(a, c)
    {
      LexLeTrans(a, b, c);
    }
    assert IsTotalPreorder(StrLe());
    SortBySorted(keys, StrLe());
    SortByDistinct(keys, StrLe());
    forall k
      ensures k in labels <==> k in keys
    {
      assert k in labels <==> k in multiset(labels);
    }
  }

  /** A key is in the map exactly when the walk passes a day with that key. */
  lemma {:induction false} WalkCountsHas(lo: Day, hi: Day, occ: set<Day>, key: Day -> string, k: string)
    ensures k in WalkCounts(lo, hi, occ, key) <==> exists d :: lo <= d < hi && key(d) == k
    decreases hi - lo
  {
    if hi > lo {
      var last := hi - 1;
      WalkCountsHas(lo, last, occ, key, k);
      if k in WalkCounts(lo, last, occ, key) {
        var d :| lo <= d < last && key(d) == k;
        assert lo <= d < hi;
      }
      if d :| lo <= d < hi && key(d) == k {
        if d < last {
          assert lo <= d < last && key(d) == k;
        }
      }
    }
  }

  /** A key's entry counts the walk's occupied days with that key. */
  lemma {:induction false} WalkCountsValue(lo: Day, hi: Day, occ: set<Day>, key: Day -> string, k: string)
    ensures k in WalkCounts(lo, hi, occ, key) ==> WalkCounts(lo, hi, occ, key)[k] == |BookedDays(lo, hi, occ, key, k)|
    ensures k !in WalkCounts(lo, hi, occ, key) ==> BookedDays(lo, hi, occ, key, k) == {}
    decreases hi - lo
  {
    if hi > lo {
      var last := hi - 1;
      WalkCountsValue(lo, last, occ, key, k);
      BookedDaysHas(lo, last, occ, key, k, last);
    }
  }

  /**
   * A week is in `weekBooked` exactly when the walk passes one of its days,
   * and its entry is the number of the walk's occupied nights in that week.
   */
  lemma WeekCountsMeaning(lo: Day, hi: Day, occ: set<Day>, k: string)
    ensures k in WeekCounts(lo, hi, occ) <==> exists d :: lo <= d < hi && IsoWeekKey(d) == k
    ensures k in WeekCounts(lo, hi, occ) ==>
      WeekCounts(lo, hi, occ)[k] == |BookedDays(lo, hi, occ, WeekKeyFn(), k)|
  {
    WalkCountsHas(lo, hi, occ, WeekKeyFn(), k);
    WalkCountsValue(lo, hi, occ, WeekKeyFn(), k);
    if exists d :: lo <= d < hi && IsoWeekKey(d) == k {
      var d :| lo <= d < hi && IsoWeekKey(d) == k;
      assert WeekKeyFn()(d) == k;
    }
  }

  lemma {:induction false} DayRangeSize(lo: Day, hi: Day)
    requires lo <= hi
    ensures |DayRange(lo, hi)| == hi - lo
    decreases hi - lo
  {
    if hi > lo {
      DayRangeSize(lo, hi - 1);
      DayRangeHas(lo, hi - 1, hi - 1);
    }
  }

  lemma SubsetSize(a: set<Day>, b: set<Day>)
    requires a <= b
    ensures |a| <= |b|
  {
    assert b == a + (b - a);
  }

  /**
   * No week collects more than 7 occupied nights: the days sharing a week key
   * share a Monday, so they lie in one Monday-to-Sunday week. The
   * `Math.min(7, ...)` therefore never changes a count.
   */
  lemma WeekCountAtMostSeven(lo: Day, hi: Day, occ: set<Day>, k: string)
    ensures k in WeekCounts(lo, hi, occ) ==> WeekCounts(lo, hi, occ)[k] <= 7
  {
    WalkCountsHas(lo, hi, occ, WeekKeyFn(), k);
    WalkCountsValue(lo, hi, occ, WeekKeyFn(), k);
    if k in WeekCounts(lo, hi, occ) {
      var d0 :| lo <= d0 < hi && WeekKeyFn()(d0) == k;
      var monday := MondayOf(d0);
      forall d | WeekKeyFn()(d) == k
        ensures monday <= d < monday + 7
      {
        SameKeyIffSameMonday(d0, d);
      }
      AtMostSevenPerWeek(lo, hi, occ, WeekKeyFn(), k, monday);
    }
  }

  /** A key that only days of the week starting at `monday` carry collects at most 7 days. */
  lemma AtMostSevenPerWeek(lo: Day, hi: Day, occ: set<Day>, key: Day -> string, k: string, monday: Day)
    requires forall d :: key(d) == k ==> monday <= d < monday + 7
    ensures |BookedDays(lo, hi, occ, key, k)| <= 7
  {
    var b := BookedDays(lo, hi, occ, key, k);
    var week := DayRange(monday, monday + 7);
    forall d | d in b
      ensures d in week
    {
      BookedDaysHas(lo, hi, occ, key, k, d);
      DayRangeHas(monday, monday + 7, d);
    }
    DayRangeSize(monday, monday + 7);
    SubsetSize(b, week);
  }

  /** Two key functions that agree on the walked days build the same counts. */
  lemma {:induction false} WalkCountsSameKeys(lo: Day, hi: Day, occ: set<Day>, k1: Day -> string, k2: Day -> string)
    requires forall d :: lo <= d < hi ==> k1(d) == k2(d)
    ensures WalkCounts(lo, hi, occ, k1) == WalkCounts(lo, hi, occ, k2)
    decreases hi - lo
  {
    if hi > lo {
      WalkCountsSameKeys(lo, hi - 1, occ, k1, k2);
    }
  }

  /**
   * When no walked day has its Thursday in the years 0..99, the chart as
   * written counts exactly the weeks and nights of the corrected one.
   */
  lemma WeekCountsAsWrittenAgree(lo: Day, hi: Day, occ: set<Day>)
    requires forall d :: lo <= d < hi ==> !(0 <= YearOf(Thursday(d)) <= 99)
    ensures WalkCounts(lo, hi, occ, WeekKeyAsWrittenFn()) == WeekCounts(lo, hi, occ)
  {
    forall d | lo <= d < hi
      ensures WeekKeyAsWrittenFn()(d) == WeekKeyFn()(d)
    {
      KeyAsWrittenAgrees(d);
    }
    WalkCountsSameKeys(lo, hi, occ, WeekKeyAsWrittenFn(), WeekKeyFn());
  }
}
