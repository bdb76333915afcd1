/**
 * Which platform a booking came through (`guessChannel`) and whether the
 * house owner booked it for themselves (`isOwnerBooking`), both read from the
 * free-text `Boeking` column and the `Inkomsten` (revenue) column.
 */
module Classify {
  import opened Text
  import opened Parsers

  datatype Channel = Owner | VillaForYou | BookingCom | Airbnb | Other | Unknown

  /** The label the dashboard shows for a channel. */
  function Label(c: Channel): (r: string)
    ensures r != []
  {
    match c
    case Owner => "Huiseigenaar"
    case VillaForYou => "Villa for You"
    case BookingCom => "Booking.com"
    case Airbnb => "Airbnb"
    case Other => "Overig"
    case Unknown => "Onbekend"
  }

  /** `guessChannel(boekingStr)`: the first keyword found, in priority order. */
  function GuessChannel(boeking: Cell): Channel {
    var s := Lower(SafeStr(boeking));
    if s == "" then Unknown
    else if Contains(s, "huiseigenaar") then Owner
    else if Contains(s, "villa for you") || Contains(s, "villaforyou") then VillaForYou
    else if Contains(s, "booking") then BookingCom
    else if Contains(s, "airbnb") then Airbnb
    else Other
  }

  /** `isOwnerBooking(row)`: a revenue cell of just `-`, or an owner keyword in the booking text. */
  predicate IsOwnerBooking(row: RawRow) {
    var inc := Field(row, "Inkomsten");
    (inc.Text? && Trim(inc.s) == "-")
    || Contains(Lower(SafeStr(Field(row, "Boeking"))), "huiseigenaar")
  }

  // --------------------------------------------------------------- lemmas

  /** `guessChannel` lower-cases first, so the case of the booking text never matters. */
  lemma GuessChannelIgnoresCase(s: string)
    ensures GuessChannel(Text(s)) == GuessChannel(Text(Lower(s)))
  {
    LowerIdempotent(s);
  }

  /** Only an empty booking text is of unknown channel. */
  lemma GuessChannelUnknown(c: Cell)
    ensures GuessChannel(c) == Unknown <==> SafeStr(c) == ""
  {
    assert |Lower(SafeStr(c))| == |SafeStr(c)|;
  }

  /** Each platform label is recognised as its own channel; only "Onbekend", which is not empty, is not. */
  lemma GuessChannelOfLabel(c: Channel)
    requires c != Unknown
    ensures GuessChannel(Text(Label(c))) == c
  {
    match c
    case Owner => LabelOwner();
    case VillaForYou => LabelVillaForYou();
    case BookingCom => LabelBookingCom();
    case Airbnb => LabelAirbnb();
    case Other => LabelOther();
  }

  lemma LabelOwner()
    ensures Lower("Huiseigenaar") == "huiseigenaar"
    ensures GuessChannel(Text("Huiseigenaar")) == Owner
  {
    ContainsPrefix("huiseigenaar", "");
    assert "huiseigenaar" + "" == "huiseigenaar";
  }

  lemma LabelVillaForYou()
    ensures GuessChannel(Text("Villa for You")) == VillaForYou
  {
    var s := "villa for you";
    assert Lower("Villa for You") == s;
    NotContainsMissingChar(s, "huiseigenaar", 'h');
    ContainsPrefix(s, "");
    assert s + "" == s;
  }

  lemma LabelBookingCom()
    ensures GuessChannel(Text("Booking.com")) == BookingCom
  {
    var s := "booking.com";
    assert Lower("Booking.com") == s;
    NotContainsMissingChar(s, "huiseigenaar", 'h');
    NotContainsMissingChar(s, "villa for you", 'v');
    NotContainsMissingChar(s, "villaforyou", 'v');
    ContainsPrefix("booking", ".com");
    assert "booking" + ".com" == s;
  }

  lemma LabelAirbnb()
    ensures GuessChannel(Text("Airbnb")) == Airbnb
  {
    var s := "airbnb";
    assert Lower("Airbnb") == s;
    NotContainsMissingChar(s, "huiseigenaar", 'h');
    NotContainsMissingChar(s, "villa for you", 'v');
    NotContainsMissingChar(s, "villaforyou", 'v');
    NotContainsMissingChar(s, "booking", 'k');
    ContainsPrefix(s, "");
    assert s + "" == s;
  }

  lemma LabelOther()
    ensures GuessChannel(Text("Overig")) == Other
  {
    var s := "overig";
    assert Lower("Overig") == s;
    NotContainsMissingChar(s, "huiseigenaar", 'h');
    NotContainsMissingChar(s, "villa for you", 'l');
    NotContainsMissingChar(s, "villaforyou", 'l');
    NotContainsMissingChar(s, "booking", 'k');
    NotContainsMissingChar(s, "airbnb", 'a');
  }

  /** Different channels are shown under different labels. */
  lemma LabelInjective(a: Channel, b: Channel)
    requires Label(a) == Label(b)
    ensures a == b
  {
    assert Label(a)[0] == Label(b)[0] && |Label(a)| == |Label(b)|;
  }

  /** A booking text the channel rules read as the owner's also makes the row an owner booking. */
  lemma OwnerChannelOnlyForOwner(row: RawRow)
    requires GuessChannel(Field(row, "Boeking")) == Owner
    ensures IsOwnerBooking(row)
  {
  }

  /** A revenue of `-` (with any surrounding blanks) marks an owner booking, whatever the booking text. */
  lemma DashMarksOwner(row: RawRow, v: string)
    requires Trim(v) == "-"
    ensures IsOwnerBooking(row["Inkomsten" := Text(v)])
  {
    assert Field(row["Inkomsten" := Text(v)], "Inkomsten") == Text(v);
  }

  /** An EMPTY revenue cell is not the owner marker: only `-` is. */
  lemma EmptyRevenueIsNotOwner()
    ensures !IsOwnerBooking(map["Inkomsten" := Text("")])
  {
    var row := map["Inkomsten" := Text("")];
    assert Field(row, "Boeking") == Missing;
    assert Trim("") == "";
  }
}
