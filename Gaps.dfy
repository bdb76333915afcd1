/**
 * The gaps engine (`computeGaps`): the stays are merged where they overlap
 * or touch, and the free stretches between consecutive merged stays are
 * reported with their number of nights; `advice` turns a gap's length into
 * a discount suggestion.
 *
 * A stay is the half-open range of nights `[arrival, departure)`. The source
 * keeps every record with both dates, including those whose departure lies
 * before the arrival; `GapListAsWritten` models that, and `AsWrittenGapOverBooking`
 * shows a gap it reports over a booked night. `ComputeGaps` keeps only records
 * with at least one night, and its gaps are exactly the free stretches between
 * booked nights.
 */
module Gaps {
  import opened Wrappers
  import opened Calendar
  import opened Classify
  import opened Seqs
  import opened Bookings
  import opened Occupancy

  /** `{ start, end }`: the nights `start .. end - 1`. */
  datatype Interval = Interval(start: Day, end: Day)

  /** `{ start, end, nights }`: a free stretch and its number of nights. */
  datatype Gap = Gap(start: Day, end: Day, nights: int)

  /** `r => ({ start: r.__aankomst, end: r.__vertrek })`. */
  function IntervalFn(): Booking -> Interval {
    (b: Booking) => Interval(b.arrival, if b.departure.Some? then b.departure.value else b.arrival)
  }

  /** A record with a departure after its arrival: a stay of at least one night. */
  function StayFn(): Booking -> bool {
    (b: Booking) => b.departure.Some? && b.arrival < b.departure.value
  }

  /** `(a, b) => a.start - b.start` as an order. */
  function StartLe(): (Interval, Interval) -> bool {
    (a: Interval, b: Interval) => a.start <= b.start
  }

  /** The sorted intervals of the records `keep` lets through. */
  function IntervalsOf(rows: seq<Booking>, keep: Booking -> bool): seq<Interval> {
    SortBy(MapSeq(Filter(rows, keep), IntervalFn()), StartLe())
  }

  // ------------------------------------------------------------------ merge

  /** One step of the merge loop: `cur` extends the last merged interval or starts a new one. */
  function Absorb(m: seq<Interval>, cur: Interval): (r: seq<Interval>)
    requires m != []
    ensures r != []
  {
    var last := m[|m| - 1];
    if cur.start <= last.end then
      if cur.end > last.end then m[..|m| - 1] + [Interval(last.start, cur.end)] else m
    else m + [cur]
  }

  /** `merged` once the loop has absorbed every interval of `s`. */
  function Merged(s: seq<Interval>): (r: seq<Interval>)
    requires s != []
    ensures r != []
  {
    if |s| == 1 then [s[0]] else Absorb(Merged(s[..|s| - 1]), s[|s| - 1])
  }

  // ------------------------------------------------------------------- gaps

  /** The gaps between consecutive intervals of `m` that are at least one night long. */
  function GapsOf(m: seq<Interval>): seq<Gap> {
    if |m| < 2 then []
    else
      var a, b := m[|m| - 2], m[|m| - 1];
      if b.start - a.end > 0 then GapsOf(m[..|m| - 1]) + [Gap(a.end, b.start, b.start - a.end)]
      else GapsOf(m[..|m| - 1])
  }

  /** The gaps of the sorted intervals `iv`; none when there is no interval. */
  function GapsOfIntervals(iv: seq<Interval>): seq<Gap> {
    if iv == [] then [] else GapsOf(Merged(iv))
  }

  /** `computeGaps(rows)` as written: every record with both dates is an interval. */
  function GapListAsWritten(rows: seq<Booking>): seq<Gap> {
    GapsOfIntervals(IntervalsOf(rows, HasStayFn()))
  }

  /** `computeGaps(rows)` over the records with at least one night. */
  function GapList(rows: seq<Booking>): seq<Gap> {
    GapsOfIntervals(IntervalsOf(rows, StayFn()))
  }

  /**
   * `computeGaps(rows)`, keeping only the records with at least one night:
   * the gaps are in order, each a positive number of free nights between two
   * booked nights, and every free night between two booked nights lies in one.
   */
  method ComputeGaps(rows: seq<Booking>) returns (gaps: seq<Gap>)
    ensures gaps == GapList(rows)
    ensures FreeStretches(gaps, NightsOf(rows))
  {
    var valid := Filter(rows, StayFn());
    var intervals := SortBy(MapSeq(valid, IntervalFn()), StartLe());
    assert intervals == IntervalsOf(rows, StayFn());
    if |intervals| == 0 {
      gaps := [];
    } else {
      var merged := MergeLoop(intervals);
      gaps := GapsLoop(merged);
    }
    GapListMeaning(rows);
  }

  /** The `for` loop that merges overlapping or touching intervals. */
  method MergeLoop(intervals: seq<Interval>) returns (merged: seq<Interval>)
    requires intervals != []
    ensures merged == Merged(intervals)
  {
    merged := [intervals[0]];
    var i := 1;
    while i < |intervals|
      invariant 1 <= i <= |intervals|
      invariant merged == Merged(intervals[..i])
    {
      assert intervals[..i + 1][..i] == intervals[..i];
      var last := merged[|merged| - 1];
      var cur := intervals[i];
      if cur.start <= last.end {
        if cur.end > last.end {
          merged := merged[..|merged| - 1] + [Interval(last.start, cur.end)];
        }
      } else {
        merged := merged + [cur];
      }
      i := i + 1;
    }
    assert intervals[..i] == intervals;
  }

  /** The `for` loop over consecutive merged intervals. */
  method GapsLoop(merged: seq<Interval>) returns (gaps: seq<Gap>)
    requires merged != []
    ensures gaps == GapsOf(merged)
  {
    gaps := [];
    var i := 0;
    while i < |merged| - 1
      invariant 0 <= i <= |merged| - 1
      invariant gaps == GapsOf(merged[..i + 1])
    {
      assert merged[..i + 2][..i + 1] == merged[..i + 1];
      var a := merged[i];
      var b := merged[i + 1];
      var gapNights := b.start - a.end;
      if gapNights > 0 {
        gaps := gaps + [Gap(a.end, b.start, gapNights)];
      }
      i := i + 1;
    }
    assert merged[..i + 1] == merged;
  }

  // ---------------------------------------------------------------- lemmas

  /** The nights the intervals of `s` cover. */
  function Cover(s: seq<Interval>): set<Day> {
    if s == [] then {} else Cover(s[..|s| - 1]) + DayRange(s[|s| - 1].start, s[|s| - 1].end)
  }

  predicate Proper(s: seq<Interval>) {
    forall k :: 0 <= k < |s| ==> s[k].start < s[k].end
  }

  /** Each interval ends before the next one starts, by at least one night. */
  predicate Separated(s: seq<Interval>) {
    forall k :: 0 <= k < |s| - 1 ==> s[k].end < s[k + 1].start
  }

  lemma {:induction false} CoverHas(s: seq<Interval>, d: Day)
    ensures d in Cover(s) <==> exists k :: 0 <= k < |s| && s[k].start <= d < s[k].end
  {
    if s != [] {
      var n := |s| - 1;
      CoverHas(s[..n], d);
      DayRangeHas(s[n].start, s[n].end, d);
      if d in Cover(s[..n]) {
        var k :| 0 <= k < n && s[..n][k].start <= d < s[..n][k].end;
        assert s[k] == s[..n][k];
      }
      if k :| 0 <= k < |s| && s[k].start <= d < s[k].end {
        if k < n {
          assert s[..n][k] == s[k];
        }
      }
    }
  }

  lemma CoverAppend(s: seq<Interval>, x: Interval)
    ensures Cover(s + [x]) == Cover(s) + DayRange(x.start, x.end)
  {
    assert (s + [x])[..|s|] == s;
  }

  /** Extending `[a, b)` by an interval that starts inside it or where it ends. */
  lemma DayRangeUnion(a: Day, b: Day, c: Day, e: Day)
    requires a <= c <= b
    ensures DayRange(a, if e > b then e else b) == DayRange(a, b) + DayRange(c, e)
  {
    var hi := if e > b then e else b;
    forall d
      ensures d in DayRange(a, hi) <==> d in DayRange(a, b) + DayRange(c, e)
    {
      DayRangeHas(a, hi, d);
      DayRangeHas(a, b, d);
      DayRangeHas(c, e, d);
    }
  }

  /**
   * Merging sorted stays of at least one night gives stays of at least one
   * night, each ending before the next starts, covering the same nights.
   */
  lemma {:induction false} MergedShape(s: seq<Interval>)
    requires s != [] && SortedBy(s, StartLe()) && Proper(s)
    ensures Proper(Merged(s)) && Separated(Merged(s))
    ensures Cover(Merged(s)) == Cover(s)
    ensures Merged(s)[|Merged(s)| - 1].start <= s[|s| - 1].start
  {
    var n := |s| - 1;
    if n == 0 {
      assert s == [] + [s[0]];
      CoverAppend([], s[0]);
    } else {
      var init := s[..n];
      PrefixShape(s, n);
      MergedShape(init);
      assert init[n - 1] == s[n - 1];
      assert s == init + [s[n]];
      CoverAppend(init, s[n]);
      assert StartLe()(s[n - 1], s[n]);
      AbsorbShape(Merged(init), s[n]);
    }
  }

  lemma PrefixShape(s: seq<Interval>, n: nat)
    requires n <= |s| && SortedBy(s, StartLe()) && Proper(s)
    ensures SortedBy(s[..n], StartLe()) && Proper(s[..n])
  {
    assert forall i :: 0 <= i < n ==> s[..n][i] == s[i];
  }

  /** One step of the merge keeps the shape and adds the new interval's nights. */
  lemma AbsorbShape(m: seq<Interval>, cur: Interval)
    requires m != [] && Proper(m) && Separated(m)
    requires m[|m| - 1].start <= cur.start < cur.end
    ensures Proper(Absorb(m, cur)) && Separated(Absorb(m, cur))
    ensures Cover(Absorb(m, cur)) == Cover(m) + DayRange(cur.start, cur.end)
    ensures Absorb(m, cur)[|Absorb(m, cur)| - 1].start <= cur.start
  {
    if cur.start <= m[|m| - 1].end {
      AbsorbOverlap(m, cur);
    } else {
      assert Absorb(m, cur) == m + [cur];
      PushLast(m, cur);
    }
  }

  /** An interval that starts inside the last one, or where it ends, extends it. */
  lemma AbsorbOverlap(m: seq<Interval>, cur: Interval)
    requires m != [] && Proper(m) && Separated(m)
    requires m[|m| - 1].start <= cur.start <= m[|m| - 1].end
    ensures Proper(Absorb(m, cur)) && Separated(Absorb(m, cur))
    ensures Cover(Absorb(m, cur)) == Cover(m) + DayRange(cur.start, cur.end)
    ensures Absorb(m, cur)[|Absorb(m, cur)| - 1].start <= cur.start
  {
    var last := m[|m| - 1];
    var p := m[..|m| - 1];
    assert m == p + [last];
    CoverAppend(p, last);
    DayRangeUnion(last.start, last.end, cur.start, cur.end);
    if cur.end > last.end {
      assert Absorb(m, cur) == p + [Interval(last.start, cur.end)];
      ExtendLast(p, last, cur.end);
    } else {
      assert Absorb(m, cur) == m;
    }
  }

  /** Raising the end of the last interval. */
  lemma ExtendLast(p: seq<Interval>, last: Interval, e: Day)
    requires Proper(p + [last]) && Separated(p + [last]) && last.end <= e
    ensures Proper(p + [Interval(last.start, e)]) && Separated(p + [Interval(last.start, e)])
    ensures Cover(p + [Interval(last.start, e)]) == Cover(p) + DayRange(last.start, e)
  {
    CoverAppend(p, Interval(last.start, e));
    var m, r := p + [last], p + [Interval(last.start, e)];
    assert r[|p|].start == m[|p|].start;
    assert forall k :: 0 <= k < |p| ==> r[k] == m[k];
  }

  /** Appending an interval that starts after the last one ends. */
  lemma PushLast(m: seq<Interval>, cur: Interval)
    requires m != [] && Proper(m) && Separated(m) && m[|m| - 1].end < cur.start < cur.end
    ensures Proper(m + [cur]) && Separated(m + [cur])
    ensures Cover(m + [cur]) == Cover(m) + DayRange(cur.start, cur.end)
  {
    CoverAppend(m, cur);
    var r := m + [cur];
    assert forall k :: 0 <= k < |m| ==> r[k] == m[k];
  }

  /** The intervals of the stays of at least one night come sorted by start, and none is empty. */
  lemma IntervalsShape(rows: seq<Booking>)
    ensures SortedBy(IntervalsOf(rows, StayFn()), StartLe())
    ensures Proper(IntervalsOf(rows, StayFn()))
  {
    var valid := Filter(rows, StayFn());
    var u := MapSeq(valid, IntervalFn());
    var iv := IntervalsOf(rows, StayFn());
    assert IsTotalPreorder(StartLe());
    SortBySorted(u, StartLe());
    forall k | 0 <= k < |iv|
      ensures iv[k].start < iv[k].end
    {
      assert iv[k] in multiset(u);
      var j :| 0 <= j < |u| && u[j] == iv[k];
      assert StayFn()(valid[j]);
    }
  }

  /** The intervals of the stays of at least one night cover exactly the booked nights. */
  lemma IntervalsCover(rows: seq<Booking>)
    ensures Cover(IntervalsOf(rows, StayFn())) == NightsOf(rows)
  {
    forall d
      ensures d in Cover(IntervalsOf(rows, StayFn())) <==> d in NightsOf(rows)
    {
      IntervalsCoverHas(rows, d);
    }
  }

  lemma IntervalsCoverHas(rows: seq<Booking>, d: Day)
    ensures d in Cover(IntervalsOf(rows, StayFn())) <==> d in NightsOf(rows)
  {
    CoverHas(IntervalsOf(rows, StayFn()), d);
    NightsOfMeaning(rows, d);
    if d in Cover(IntervalsOf(rows, StayFn())) {
      CoveredIsBooked(rows, d);
    }
    if d in NightsOf(rows) {
      var i :| 0 <= i < |rows| && rows[i].departure.Some? && rows[i].arrival <= d < rows[i].departure.value;
      BookedIsCovered(rows, d, i);
    }
  }

  lemma CoveredIsBooked(rows: seq<Booking>, d: Day)
    requires exists k :: 0 <= k < |IntervalsOf(rows, StayFn())| && IntervalsOf(rows, StayFn())[k].start <= d < IntervalsOf(rows, StayFn())[k].end
    ensures exists i :: 0 <= i < |rows| && rows[i].departure.Some? && rows[i].arrival <= d < rows[i].departure.value
  {
    var valid := Filter(rows, StayFn());
    var u := MapSeq(valid, IntervalFn());
    var iv := IntervalsOf(rows, StayFn());
    var k :| 0 <= k < |iv| && iv[k].start <= d < iv[k].end;
    assert iv[k] in multiset(u);
    var j :| 0 <= j < |u| && u[j] == iv[k];
    assert valid[j] in rows && StayFn()(valid[j]);
    var i :| 0 <= i < |rows| && rows[i] == valid[j];
    assert rows[i].departure.Some? && rows[i].arrival <= d < rows[i].departure.value;
  }

  lemma BookedIsCovered(rows: seq<Booking>, d: Day, i: nat)
    requires i < |rows| && rows[i].departure.Some? && rows[i].arrival <= d < rows[i].departure.value
    ensures exists k :: 0 <= k < |IntervalsOf(rows, StayFn())| && IntervalsOf(rows, StayFn())[k].start <= d < IntervalsOf(rows, StayFn())[k].end
  {
    var valid := Filter(rows, StayFn());
    var u := MapSeq(valid, IntervalFn());
    var iv := IntervalsOf(rows, StayFn());
    assert StayFn()(rows[i]);
    var j :| 0 <= j < |valid| && valid[j] == rows[i];
    assert u[j] == IntervalFn()(rows[i]);
    assert u[j] in multiset(iv);
    var k :| 0 <= k < |iv| && iv[k] == u[j];
  }

  /** Stays of at least one night, separated one by one, are separated pair by pair. */
  lemma {:induction false} SeparatedChain(m: seq<Interval>, i: nat, j: nat)
    requires Proper(m) && Separated(m) && i < j < |m|
    ensures m[i].end < m[j].start
    decreases j - i
  {
    if j > i + 1 {
      SeparatedChain(m, i + 1, j);
    }
  }

  /** Between separated intervals no gap is dropped: gap `i` runs from the end of interval `i` to the start of the next. */
  lemma {:induction false} GapsOfShape(m: seq<Interval>)
    requires m != [] && Separated(m)
    ensures |GapsOf(m)| == |m| - 1
    ensures forall i :: 0 <= i < |m| - 1 ==> GapsOf(m)[i] == Gap(m[i].end, m[i + 1].start, m[i + 1].start - m[i].end)
  {
    if |m| >= 2 {
      var init := m[..|m| - 1];
      assert Separated(init) by {
        assert forall k :: 0 <= k < |init| ==> init[k] == m[k];
      }
      GapsOfShape(init);
      assert m[|m| - 2].end < m[|m| - 1].start;
    }
  }

  /** From the `j`-th interval, which starts no later than `d`, on: the last interval that starts no later than `d`. */
  lemma {:induction false} LastStartingBy(m: seq<Interval>, d: Day, j: nat) returns (k: nat)
    requires j < |m| && m[j].start <= d
    ensures j <= k < |m| && m[k].start <= d && (k + 1 < |m| ==> d < m[k + 1].start)
    decreases |m| - j
  {
    if j + 1 < |m| && m[j + 1].start <= d {
      k := LastStartingBy(m, d, j + 1);
    } else {
      k := j;
    }
  }

  /** A free night between two covered nights lies between two consecutive intervals. */
  lemma FreeNightInGap(m: seq<Interval>, d: Day, a: Day, b: Day) returns (k: nat)
    requires Proper(m) && Separated(m)
    requires a in Cover(m) && b in Cover(m) && a < d < b && d !in Cover(m)
    ensures k + 1 < |m| && m[k].end <= d < m[k + 1].start
  {
    CoverHas(m, a);
    CoverHas(m, b);
    CoverHas(m, d);
    var ka :| 0 <= ka < |m| && m[ka].start <= a < m[ka].end;
    var kb :| 0 <= kb < |m| && m[kb].start <= b < m[kb].end;
    k := LastStartingBy(m, d, ka);
    if kb <= k {
      if kb < k {
        SeparatedChain(m, kb, k);
      }
      assert false;
    }
  }

  /** The gaps between merged stays are in order, each a positive number of nights. */
  lemma MergedGapsOrdered(m: seq<Interval>)
    requires m != [] && Proper(m) && Separated(m)
    ensures forall i :: 0 <= i < |GapsOf(m)| ==> GapsOf(m)[i].nights == GapsOf(m)[i].end - GapsOf(m)[i].start > 0
    ensures forall i :: 0 <= i < |GapsOf(m)| - 1 ==> GapsOf(m)[i].end < GapsOf(m)[i + 1].start
  {
    var g := GapsOf(m);
    GapsOfShape(m);
    forall i | 0 <= i < |g|
      ensures g[i].nights == g[i].end - g[i].start > 0
    {
      assert g[i] == Gap(m[i].end, m[i + 1].start, m[i + 1].start - m[i].end);
    }
    forall i | 0 <= i < |g| - 1
      ensures g[i].end < g[i + 1].start
    {
      assert g[i] == Gap(m[i].end, m[i + 1].start, m[i + 1].start - m[i].end);
      assert g[i + 1] == Gap(m[i + 1].end, m[i + 2].start, m[i + 2].start - m[i + 1].end);
    }
  }

  /** A gap between merged stays holds no covered night. */
  lemma MergedGapsFree(m: seq<Interval>)
    requires m != [] && Proper(m) && Separated(m)
    ensures forall i, d :: 0 <= i < |GapsOf(m)| && GapsOf(m)[i].start <= d < GapsOf(m)[i].end ==> d !in Cover(m)
  {
    var g := GapsOf(m);
    GapsOfShape(m);
    forall i, d | 0 <= i < |g| && g[i].start <= d < g[i].end
      ensures d !in Cover(m)
    {
      assert g[i] == Gap(m[i].end, m[i + 1].start, m[i + 1].start - m[i].end);
      BetweenIsFree(m, i, d);
    }
  }

  /** The night before a gap between merged stays and the night it ends on are covered. */
  lemma MergedGapsBounded(m: seq<Interval>)
    requires m != [] && Proper(m) && Separated(m)
    ensures forall i :: 0 <= i < |GapsOf(m)| ==> GapsOf(m)[i].start - 1 in Cover(m) && GapsOf(m)[i].end in Cover(m)
  {
    var g := GapsOf(m);
    GapsOfShape(m);
    forall i | 0 <= i < |g|
      ensures g[i].start - 1 in Cover(m) && g[i].end in Cover(m)
    {
      assert g[i] == Gap(m[i].end, m[i + 1].start, m[i + 1].start - m[i].end);
      CoverHas(m, m[i].end - 1);
      CoverHas(m, m[i + 1].start);
    }
  }

  /** Every free night between two covered nights lies in a gap between merged stays. */
  lemma MergedGapsComplete(m: seq<Interval>)
    requires m != [] && Proper(m) && Separated(m)
    ensures forall d, a, b :: a in Cover(m) && b in Cover(m) && a < d < b && d !in Cover(m) ==>
      exists i :: 0 <= i < |GapsOf(m)| && GapsOf(m)[i].start <= d < GapsOf(m)[i].end
  {
    var g := GapsOf(m);
    GapsOfShape(m);
    forall d, a, b | a in Cover(m) && b in Cover(m) && a < d < b && d !in Cover(m)
      ensures exists i :: 0 <= i < |g| && g[i].start <= d < g[i].end
    {
      var k := FreeNightInGap(m, d, a, b);
      assert g[k] == Gap(m[k].end, m[k + 1].start, m[k + 1].start - m[k].end);
    }
  }

  /** A night from the end of interval `i` up to the start of the next is covered by no interval. */
  lemma BetweenIsFree(m: seq<Interval>, i: nat, d: Day)
    requires Proper(m) && Separated(m) && i + 1 < |m| && m[i].end <= d < m[i + 1].start
    ensures d !in Cover(m)
  {
    CoverHas(m, d);
    forall k | 0 <= k < |m|
      ensures !(m[k].start <= d < m[k].end)
    {
      if k < i {
        SeparatedChain(m, k, i);
      } else if k > i + 1 {
        SeparatedChain(m, i + 1, k);
      }
    }
  }

  /**
   * What a gap list promises about the booked nights `occ`: every gap is a
   * positive number of nights, the gaps come in order, no night of a gap is
   * booked, the night before a gap and the night it ends on are booked, and
   * every free night between two booked nights lies in a gap.
   */
  predicate FreeStretches(g: seq<Gap>, occ: set<Day>) {
    && (forall i :: 0 <= i < |g| ==> g[i].nights == g[i].end - g[i].start > 0)
    && (forall i :: 0 <= i < |g| - 1 ==> g[i].end < g[i + 1].start)
    && (forall i, d :: 0 <= i < |g| && g[i].start <= d < g[i].end ==> d !in occ)
    && (forall i :: 0 <= i < |g| ==> g[i].start - 1 in occ && g[i].end in occ)
    && (forall d, a, b :: a in occ && b in occ && a < d < b && d !in occ ==>
          exists i :: 0 <= i < |g| && g[i].start <= d < g[i].end)
  }

  /** The gaps are exactly the free stretches between the booked nights of `rows`. */
  lemma GapListMeaning(rows: seq<Booking>)
    ensures FreeStretches(GapList(rows), NightsOf(rows))
  {
    var iv := IntervalsOf(rows, StayFn());
    IntervalsShape(rows);
    IntervalsCover(rows);
    if iv == [] {
      assert NightsOf(rows) == {};
    } else {
      var m := Merged(iv);
      MergedShape(iv);
      MergedGapsOrdered(m);
      MergedGapsFree(m);
      MergedGapsBounded(m);
      MergedGapsComplete(m);
      assert FreeStretches(GapsOf(m), Cover(m));
      assert GapList(rows) == GapsOf(m);
    }
  }

  // ------------------------------------------------------------ as written

  /** A booking with only the two dates that matter here. */
  function StayRecord(arrival: Day, departure: Day): Booking {
    Booking(map[], arrival, Some(departure), None, 0.0, 0.0, false, 0.0, 0.0, Other)
  }

  /** Sorting intervals that already come in order of start. */
  lemma SortPair(a: Interval, b: Interval)
    requires a.start <= b.start
    ensures SortBy([a, b], StartLe()) == [a, b]
  {
    SortByIdentity([a, b], StartLe());
  }

  lemma SortTriple(a: Interval, b: Interval, c: Interval)
    requires a.start <= b.start <= c.start
    ensures SortBy([a, b, c], StartLe()) == [a, b, c]
  {
    var s := [a, b, c];
    forall i, j | 0 <= i < j < 3
      ensures StartLe()(s[i], s[j])
    {
    }
    SortByIdentity(s, StartLe());
  }

  /** An interval starting after the merged ones end is appended. */
  lemma MergedPush(s: seq<Interval>, cur: Interval)
    requires s != [] && Merged(s)[|Merged(s)| - 1].end < cur.start
    ensures Merged(s + [cur]) == Merged(s) + [cur]
  {
    assert (s + [cur])[..|s|] == s;
  }

  /** A gap is recorded between the last two intervals. */
  lemma GapsPush(m: seq<Interval>, last: Interval, cur: Interval)
    requires last.end < cur.start
    ensures GapsOf(m + [last] + [cur]) == GapsOf(m + [last]) + [Gap(last.end, cur.start, cur.start - last.end)]
  {
    var r := m + [last] + [cur];
    assert r[..|r| - 1] == m + [last];
  }

  /** The stays `[1, 4)` and `[6, 9)` and a record from day 5 back to day 2. */
  function ExampleRows(): seq<Booking> {
    [StayRecord(1, 4), StayRecord(5, 2), StayRecord(6, 9)]
  }

  lemma ExampleIntervals()
    ensures IntervalsOf(ExampleRows(), HasStayFn()) == [Interval(1, 4), Interval(5, 2), Interval(6, 9)]
  {
    var rows := ExampleRows();
    assert Filter(rows, HasStayFn()) == rows;
    assert MapSeq(rows, IntervalFn()) == [Interval(1, 4), Interval(5, 2), Interval(6, 9)];
    SortTriple(Interval(1, 4), Interval(5, 2), Interval(6, 9));
  }

  lemma ExampleStays()
    ensures IntervalsOf(ExampleRows(), StayFn()) == [Interval(1, 4), Interval(6, 9)]
  {
    var rows := ExampleRows();
    assert Filter(rows, StayFn()) == [rows[0], rows[2]];
    assert MapSeq([rows[0], rows[2]], IntervalFn()) == [Interval(1, 4), Interval(6, 9)];
    SortPair(Interval(1, 4), Interval(6, 9));
  }

  lemma ExampleGaps(a: Interval, b: Interval, c: Interval)
    requires a == Interval(1, 4) && b == Interval(5, 2) && c == Interval(6, 9)
    ensures GapsOfIntervals([a, b, c]) == [Gap(4, 5, 1), Gap(2, 6, 4)]
    ensures GapsOfIntervals([a, c]) == [Gap(4, 6, 2)]
  {
    assert Merged([a]) == [a];
    MergedPush([a], b);
    assert [a] + [b] == [a, b];
    MergedPush([a, b], c);
    assert [a, b] + [c] == [a, b, c];
    MergedPush([a], c);
    assert [a] + [c] == [a, c];
    assert GapsOf([a]) == [];
    GapsPush([], a, b);
    GapsPush([a], b, c);
    GapsPush([], a, c);
    assert [] + [a] == [a] && [] + [a] + [b] == [a, b] && [a] + [b] + [c] == [a, b, c] && [] + [a] + [c] == [a, c];
  }

  /**
   * A record whose departure lies before its arrival ends the merged stay
   * early: with the stays `[1, 4)` and `[6, 9)` and a record from day 5 to
   * day 2, the code as written reports a gap `[2, 6)` over the booked nights
   * 2 and 3 (and a second gap `[4, 5)` inside the first). Skipping the record,
   * which books no night, leaves the one free stretch `[4, 6)`.
   */
  lemma AsWrittenGapOverBooking()
    ensures GapListAsWritten(ExampleRows()) == [Gap(4, 5, 1), Gap(2, 6, 4)]
    ensures 3 in NightsOf(ExampleRows())
    ensures GapList(ExampleRows()) == [Gap(4, 6, 2)]
  {
    ExampleIntervals();
    ExampleStays();
    ExampleGaps(Interval(1, 4), Interval(5, 2), Interval(6, 9));
    var rows := ExampleRows();
    NightsOfMeaning(rows, 3);
    assert rows[0].departure.Some? && rows[0].arrival <= 3 < rows[0].departure.value;
  }

  /** When no record departs before or on its arrival day, the code as written and `GapList` agree. */
  lemma AsWrittenAgreesOnStays(rows: seq<Booking>)
    requires forall i :: 0 <= i < |rows| && rows[i].departure.Some? ==> rows[i].arrival < rows[i].departure.value
    ensures GapListAsWritten(rows) == GapList(rows)
  {
    FilterAgree(rows, HasStayFn(), StayFn());
  }

  // ----------------------------------------------------------------- advice

  /** The four suggestions, from no advice to the strongest discount. */
  const ADVICE: seq<string> := ["—", "weinig mogelijk / last-minute", "Overweeg 20%", "Overweeg weekdeal / -10%"]

  /** `advice(n)`: the discount suggestion for a gap of `n` free nights. */
  function Advice(n: int): (r: string)
    ensures r in ADVICE
  {
    if n >= 7 then "Overweeg weekdeal / -10%"
    else if n >= 4 then "Overweeg 20%"
    else if n >= 2 then "weinig mogelijk / last-minute"
    else "—"
  }

  /** The position of a suggestion in `ADVICE`: how strong it is. */
  function Strength(s: string): (k: nat)
    requires s in ADVICE
    ensures k < |ADVICE| && ADVICE[k] == s
  {
    if s == ADVICE[0] then 0 else if s == ADVICE[1] then 1 else if s == ADVICE[2] then 2 else 3
  }

  /** A longer gap never gets a weaker suggestion, and a single free night gets none. */
  lemma AdviceMonotone(a: int, b: int)
    requires a <= b
    ensures Strength(Advice(a)) <= Strength(Advice(b))
    ensures Advice(a) == "—" <==> a < 2
  {
  }
}
