/**
 * Canonical booking records (`normalizeRows`) and the gross/net revenue
 * switch (`valueByMode`).
 *
 * Each spreadsheet row keeps its raw cells and gains parsed fields. A row
 * whose arrival date cannot be read is dropped; every other parsed field
 * falls back to a default (no date, or the number 0).
 */
module Bookings {
  import opened Wrappers
  import opened Calendar
  import opened Parsers
  import opened Classify
  import opened Seqs

  /** The share of gross revenue that reaches the owner. */
  const NET_FACTOR: real := 0.76

  /** Whether revenue figures are shown before or after the platform's share. */
  datatype Mode = Gross | Net

  datatype Booking = Booking(
    raw: RawRow,
    arrival: Day,
    departure: Option<Day>,
    bookedOn: Option<Day>,
    nights: real,
    guests: real,
    owner: bool,
    gross: real,
    net: real,
    channel: Channel)

  function NumberOr0(c: Cell): real {
    ToNumber(c).GetOr(0.0)
  }

  /** One element of `rows.map(...)`, or `None` when the `filter` drops it for want of an arrival date. */
  function NormalizeRow(r: RawRow, host: HostDateParser): Option<Booking> {
    match ToDate(Field(r, "Aankomst"), host)
    case None => None
    case Some(arrival) =>
      var owner := IsOwnerBooking(r);
      var gross := if owner then 0.0 else NumberOr0(Field(r, "Inkomsten"));
      Some(Booking(
        raw := r,
        arrival := arrival,
        departure := ToDate(Field(r, "Vertrek"), host),
        bookedOn := ToDate(Field(r, "Geboekt op"), host),
        nights := NumberOr0(Field(r, "Nachten")),
        guests := NumberOr0(Field(r, "Volw.")) + NumberOr0(Field(r, "Knd."))
                  + NumberOr0(Field(r, "Bab.")) + NumberOr0(Field(r, "H.d.")),
        owner := owner,
        gross := gross,
        net := gross * NET_FACTOR,
        channel := if owner then Owner else GuessChannel(Field(r, "Boeking"))))
  }

  /** `normalizeRows(rows)`: map every row, then keep those with an arrival date. */
  function NormalizeRows(rows: seq<RawRow>, host: HostDateParser): (out: seq<Booking>)
    ensures |out| <= |rows|
    ensures forall i :: 0 <= i < |out| ==> WellFormed(out[i])
  {
    if rows == [] then []
    else
      var init := NormalizeRows(rows[..|rows| - 1], host);
      match NormalizeRow(rows[|rows| - 1], host)
      case None => init
      case Some(b) => NormalizeOk(rows[|rows| - 1], host); init + [b]
  }

  /**
   * What every normalised record satisfies: net is 76% of gross, an owner
   * booking earns nothing, and the channel is "Huiseigenaar" exactly for
   * owner bookings.
   */
  predicate WellFormed(b: Booking) {
    && b.net == b.gross * NET_FACTOR
    && (b.owner ==> b.gross == 0.0)
    && (b.channel == Owner <==> b.owner)
  }

  /** `valueByMode(row)`. */
  function ValueByMode(b: Booking, mode: Mode): real {
    match mode
    case Gross => b.gross
    case Net => b.net
  }

  /** `valueByMode` as a selector for sums. */
  function ValueFn(mode: Mode): Booking -> real {
    b => ValueByMode(b, mode)
  }

  /** `(a, b) => a.__aankomst - b.__aankomst` as an order: earlier arrivals first. */
  function ArrivalLe(): (Booking, Booking) -> bool {
    (a: Booking, b: Booking) => a.arrival <= b.arrival
  }

  /** `[...rows].sort((a, b) => a.__aankomst - b.__aankomst)`. */
  function SortByArrival(rows: seq<Booking>): seq<Booking> {
    SortBy(rows, ArrivalLe())
  }

  // --------------------------------------------------------------- lemmas

  /** Sorting by arrival keeps every booking and puts them in arrival order. */
  lemma SortByArrivalSorted(rows: seq<Booking>)
    ensures multiset(SortByArrival(rows)) == multiset(rows) && |SortByArrival(rows)| == |rows|
    ensures forall i, j :: 0 <= i < j < |rows| ==> SortByArrival(rows)[i].arrival <= SortByArrival(rows)[j].arrival
  {
    assert IsTotalPreorder(ArrivalLe());
    SortBySorted(rows, ArrivalLe());
  }

  /** A normalised row keeps its raw cells and satisfies the record invariant. */
  lemma NormalizeOk(r: RawRow, host: HostDateParser)
    requires NormalizeRow(r, host).Some?
    ensures WellFormed(NormalizeRow(r, host).value)
    ensures NormalizeRow(r, host).value.raw == r
  {
    var b := NormalizeRow(r, host).value;
    if !b.owner {
      if GuessChannel(Field(r, "Boeking")) == Owner {
        OwnerChannelOnlyForOwner(r);
      }
    }
  }

  /** A row is kept exactly when its arrival date parses, and then it arrives on that date. */
  lemma NormalizeRowKeeps(r: RawRow, host: HostDateParser)
    ensures NormalizeRow(r, host).Some? <==> ToDate(Field(r, "Aankomst"), host).Some?
    ensures NormalizeRow(r, host).Some? ==> NormalizeRow(r, host).value.arrival == ToDate(Field(r, "Aankomst"), host).value
  {
  }

  /** The parts of a spreadsheet are normalised independently and stay in input order. */
  lemma {:induction false} NormalizeRowsAppend(a: seq<RawRow>, b: seq<RawRow>, host: HostDateParser)
    ensures NormalizeRows(a + b, host) == NormalizeRows(a, host) + NormalizeRows(b, host)
    decreases |b|
  {
    if b == [] {
      assert a + b == a;
    } else {
      var b' := b[..|b| - 1];
      assert (a + b)[..|a + b| - 1] == a + b';
      assert (a + b)[|a + b| - 1] == b[|b| - 1];
      NormalizeRowsAppend(a, b', host);
    }
  }

  /** One row becomes no record or exactly its own record. */
  lemma NormalizeRowsSingle(r: RawRow, host: HostDateParser)
    ensures NormalizeRows([r], host) == (match NormalizeRow(r, host) case None => [] case Some(b) => [b])
  {
    assert [r][..0] == [];
  }

  /** Exactly the rows with a readable arrival date come out, one record each. */
  lemma {:induction false} NormalizeRowsCount(rows: seq<RawRow>, host: HostDateParser)
    ensures |NormalizeRows(rows, host)| == |Filter(rows, (r: RawRow) => ToDate(Field(r, "Aankomst"), host).Some?)|
  {
    var p := (r: RawRow) => ToDate(Field(r, "Aankomst"), host).Some?;
    if rows != [] {
      var init, last := rows[..|rows| - 1], rows[|rows| - 1];
      assert rows == init + [last];
      NormalizeRowsCount(init, host);
      FilterAppend(init, [last], p);
      assert Filter([last], p) == (if p(last) then [last] else []);
    }
  }

  /** Every record comes from some input row, and every arrival parsed from it. */
  lemma {:induction false} NormalizeRowsFrom(rows: seq<RawRow>, host: HostDateParser, i: nat)
    requires i < |NormalizeRows(rows, host)|
    ensures NormalizeRows(rows, host)[i].raw in rows
    ensures NormalizeRow(NormalizeRows(rows, host)[i].raw, host) == Some(NormalizeRows(rows, host)[i])
  {
    var init, last := rows[..|rows| - 1], rows[|rows| - 1];
    var out := NormalizeRows(rows, host);
    if i < |NormalizeRows(init, host)| {
      NormalizeRowsFrom(init, host, i);
      assert out[i] == NormalizeRows(init, host)[i];
    } else {
      NormalizeOk(last, host);
    }
  }

  /** Revenue under either mode of a well-formed record: net is 76% of gross, and owner bookings count 0. */
  lemma ValueByModeOfWellFormed(b: Booking, mode: Mode)
    requires WellFormed(b)
    ensures ValueByMode(b, Net) == NET_FACTOR * ValueByMode(b, Gross)
    ensures b.owner ==> ValueByMode(b, mode) == 0.0
  {
  }
}
