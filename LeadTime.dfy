/**
 * `aggLeadTime`: how many days before arrival each booking was made,
 * counted into seven buckets that together cover every lead of 0 days or
 * more.
 */
module LeadTime {
  import opened Wrappers
  import opened Calendar
  import opened Seqs
  import opened Bookings

  /** A bucket `{ label, min, max }`, its label as `name`; a `max` of `None` stands for `Infinity`. */
  datatype Bucket = Bucket(name: string, min: int, max: Option<int>)

  const BUCKETS: seq<Bucket> := [
    Bucket("0–7", 0, Some(7)),
    Bucket("8–14", 8, Some(14)),
    Bucket("15–30", 15, Some(30)),
    Bucket("31–60", 31, Some(60)),
    Bucket("61–90", 61, Some(90)),
    Bucket("91–180", 91, Some(180)),
    Bucket("181+", 181, None)]

  /** `lead >= b.min && lead <= b.max`. */
  predicate InBucket(b: Bucket, lead: int) {
    b.min <= lead && (b.max.None? || lead <= b.max.value)
  }

  function InBucketFn(b: Bucket): int -> bool {
    lead => InBucket(b, lead)
  }

  /**
   * `daysBetween(a, b)`: whole days from `b` to `a`. The floor of the
   * millisecond difference is this count only where no daylight-saving
   * change lies between the two local midnights; across a spring change
   * the source counts one day less.
   */
  function DaysBetween(a: Day, b: Day): int {
    a - b
  }

  /** `buckets.findIndex(...)`: the first bucket holding `lead`, or -1 when none does. */
  function FindBucket(bs: seq<Bucket>, lead: int): (r: int)
    ensures -1 <= r < |bs|
    ensures r >= 0 ==> InBucket(bs[r], lead) && forall j :: 0 <= j < r ==> !InBucket(bs[j], lead)
    ensures r == -1 ==> forall j :: 0 <= j < |bs| ==> !InBucket(bs[j], lead)
  {
    if bs == [] then -1
    else if InBucket(bs[0], lead) then 0
    else
      var r := FindBucket(bs[1..], lead);
      if r < 0 then -1 else r + 1
  }

  /** The lead time a booking contributes, or `None` when the loop skips it (no booking date, or booked after arrival). */
  function LeadOf(b: Booking): Option<int> {
    match b.bookedOn
    case None => None
    case Some(d) =>
      var lead := DaysBetween(b.arrival, d);
      if lead < 0 then None else Some(lead)
  }

  /** The `values` array: the lead times of the bookings the loop does not skip, in input order. */
  function LeadTimes(rows: seq<Booking>): seq<int> {
    if rows == [] then []
    else
      LeadTimes(rows[..|rows| - 1])
      + match LeadOf(rows[|rows| - 1]) case None => [] case Some(l) => [l]
  }

  function HasBookingDate(): Booking -> bool {
    (b: Booking) => b.bookedOn.Some?
  }

  // ---------------------------------------------------------------- method

  /** `aggLeadTime(rows)`. */
  method AggLeadTime(rows: seq<Booking>) returns (labels: seq<string>, counts: seq<nat>, total: nat, values: seq<int>)
    ensures |labels| == |BUCKETS| && forall b :: 0 <= b < |BUCKETS| ==> labels[b] == BUCKETS[b].name
    ensures values == LeadTimes(rows)
    ensures |counts| == |BUCKETS|
    ensures forall b :: 0 <= b < |BUCKETS| ==> counts[b] == |Filter(values, InBucketFn(BUCKETS[b]))|
    ensures total == SumNat(counts) == |values|
  {
    labels := seq(|BUCKETS|, b requires 0 <= b < |BUCKETS| => BUCKETS[b].name);
    var c := new nat[|BUCKETS|](_ => 0);
    SumNatZero(c[..]);
    assert c[..] == seq(|BUCKETS|, _ => 0);
    values := [];
    var i := 0;
    while i < |rows|
      invariant 0 <= i <= |rows|
      invariant values == LeadTimes(rows[..i])
      invariant CountsOf(c[..], values)
    {
      var r := rows[i];
      LeadTimesStep(rows, i);
      if r.bookedOn.Some? {
        var lead := DaysBetween(r.arrival, r.bookedOn.value);
        if lead >= 0 {
          values := Record(c, values, lead);
        }
      }
      i := i + 1;
    }
    assert rows[..i] == rows;
    counts := c[..];
    CountsAsFilters(counts, values);
    total := SumNat(counts);
  }

  /** Each bucket's count is the number of values the bucket's filter keeps. */
  lemma CountsAsFilters(counts: seq<nat>, values: seq<int>)
    requires CountsOf(counts, values)
    ensures forall b :: 0 <= b < |BUCKETS| ==> counts[b] == |Filter(values, InBucketFn(BUCKETS[b]))|
  {
    forall b | 0 <= b < |BUCKETS|
      ensures counts[b] == |Filter(values, InBucketFn(BUCKETS[b]))|
    {
      CountByFilter(values, InBucketFn(BUCKETS[b]));
    }
  }

  /** `values.push(lead)`, then one more in the bucket `findIndex` picks. */
  method Record(c: array<nat>, values: seq<int>, lead: int) returns (values': seq<int>)
    requires CountsOf(c[..], values) && lead >= 0
    modifies c
    ensures values' == values + [lead]
    ensures CountsOf(c[..], values')
  {
    CountsStep(c[..], values, lead);
    values' := values + [lead];
    var idx := FindBucket(BUCKETS, lead);
    if idx >= 0 {
      ghost var cs := c[..];
      c[idx] := c[idx] + 1;
      assert c[..] == cs[idx := cs[idx] + 1];
    }
  }

  // --------------------------------------------------------------- lemmas

  /** `counts` holds, per bucket, how many of `values` fall in it, and so adds up to their number. */
  predicate CountsOf(counts: seq<nat>, values: seq<int>) {
    && |counts| == |BUCKETS|
    && (forall b :: 0 <= b < |BUCKETS| ==> counts[b] == CountBy(values, InBucketFn(BUCKETS[b])))
    && SumNat(counts) == |values|
  }

  /** Recording one more lead of 0 or more adds one to its own bucket and to no other. */
  lemma CountsStep(counts: seq<nat>, values: seq<int>, lead: int)
    requires CountsOf(counts, values) && lead >= 0
    ensures 0 <= FindBucket(BUCKETS, lead) < |counts|
    ensures var idx := FindBucket(BUCKETS, lead);
      CountsOf(counts[idx := counts[idx] + 1], values + [lead])
  {
    var idx := FindBucket(BUCKETS, lead);
    BucketsCover(lead);
    SumNatUpdate(counts, idx, counts[idx] + 1);
    var next := values + [lead];
    assert next[..|values|] == values;
    forall b | 0 <= b < |BUCKETS|
      ensures counts[idx := counts[idx] + 1][b] == CountBy(next, InBucketFn(BUCKETS[b]))
    {
    }
  }

  lemma LeadTimesStep(rows: seq<Booking>, i: nat)
    requires i < |rows|
    ensures rows[i].bookedOn.None? ==> LeadTimes(rows[..i + 1]) == LeadTimes(rows[..i])
    ensures rows[i].bookedOn.Some? ==>
      var lead := DaysBetween(rows[i].arrival, rows[i].bookedOn.value);
      LeadTimes(rows[..i + 1]) == if lead < 0 then LeadTimes(rows[..i]) else LeadTimes(rows[..i]) + [lead]
  {
    assert rows[..i + 1][..i] == rows[..i];
  }

  /** The buckets tile [0, ∞): every lead of 0 or more lies in exactly one, the one `findIndex` returns; a negative lead in none. */
  lemma BucketsCover(lead: int)
    ensures lead >= 0 <==> FindBucket(BUCKETS, lead) >= 0
    ensures forall b :: 0 <= b < |BUCKETS| ==> (InBucket(BUCKETS[b], lead) <==> b == FindBucket(BUCKETS, lead))
  {
    var r := FindBucket(BUCKETS, lead);
    if lead >= 0 {
      var b0 := if lead <= 7 then 0 else if lead <= 14 then 1 else if lead <= 30 then 2
        else if lead <= 60 then 3 else if lead <= 90 then 4 else if lead <= 180 then 5 else 6;
      assert InBucket(BUCKETS[b0], lead);
    }
    forall b | 0 <= b < |BUCKETS| && InBucket(BUCKETS[b], lead)
      ensures b == r
    {
      if r < b {
        BucketsOrdered(r, b);
      }
    }
  }

  /** A bucket ends before any later bucket starts. */
  lemma BucketsOrdered(b1: int, b2: int)
    requires 0 <= b1 < b2 < |BUCKETS|
    ensures BUCKETS[b1].max.Some? && BUCKETS[b1].max.value < BUCKETS[b2].min
  {
  }

  /** Each bucket starts the day after the previous one ends; the first starts at 0 and the last is open-ended. */
  lemma BucketsContiguous()
    ensures BUCKETS[0].min == 0 && BUCKETS[|BUCKETS| - 1].max.None?
    ensures forall b :: 0 <= b < |BUCKETS| - 1 ==> BUCKETS[b].max == Some(BUCKETS[b + 1].min - 1)
  {
  }

  /** Every recorded lead time is 0 or more, and there is at most one per booking with a booking date. */
  lemma {:induction false} LeadTimesBound(rows: seq<Booking>)
    ensures |LeadTimes(rows)| <= |Filter(rows, HasBookingDate())| <= |rows|
    ensures forall j :: 0 <= j < |LeadTimes(rows)| ==> LeadTimes(rows)[j] >= 0
  {
    if rows != [] {
      var n := |rows| - 1;
      LeadTimesBound(rows[..n]);
      assert rows == rows[..n] + [rows[n]];
      FilterAppend(rows[..n], [rows[n]], HasBookingDate());
      assert Filter([rows[n]], HasBookingDate()) == if rows[n].bookedOn.Some? then [rows[n]] else [];
    }
  }

  /** A booking with a booking date on or before arrival always contributes its lead; every other booking contributes nothing. */
  lemma LeadOfSkips(b: Booking)
    ensures LeadOf(b).Some? <==> (b.bookedOn.Some? && b.bookedOn.value <= b.arrival)
    ensures LeadOf(b).Some? ==> LeadOf(b).value == b.arrival - b.bookedOn.value
  {
  }

  /** Every recorded lead time lands in one of the buckets, so `if (idx >= 0)` always holds. */
  lemma EveryLeadHasBucket(rows: seq<Booking>)
    ensures forall i :: 0 <= i < |LeadTimes(rows)| ==>
      0 <= FindBucket(BUCKETS, LeadTimes(rows)[i]) < |BUCKETS|
  {
    LeadTimesBound(rows);
    forall i | 0 <= i < |LeadTimes(rows)|
      ensures 0 <= FindBucket(BUCKETS, LeadTimes(rows)[i]) < |BUCKETS|
    {
      BucketsCover(LeadTimes(rows)[i]);
    }
  }
}
