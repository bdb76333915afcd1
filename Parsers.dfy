/**
 * Spreadsheet cells and the scalar parsers `toNumber` and `toDate`.
 *
 * A cell is what the spreadsheet reader delivers for one column of one row:
 * nothing (the column is absent), a string, a finite number, a date (as its
 * local day) or a boolean. Both parsers answer `None` (JavaScript's `null`)
 * on anything they cannot read and never fail.
 */
module Parsers {
  import opened Wrappers
  import opened Text
  import opened Calendar

  datatype Cell = Missing | Text(s: string) | Num(x: real) | When(day: Day) | Flag(b: bool)

  /** A raw spreadsheet row: column name to cell. */
  type RawRow = map<string, Cell>

  /** `row[name]`, with an absent column read as `Missing`. */
  function Field(row: RawRow, name: string): Cell {
    if name in row then row[name] else Missing
  }

  /**
   * `String(v ?? "")`. The text JavaScript gives a number or a date is not
   * modelled; it stands in as a non-empty string of no letters, which is all
   * the keyword tests downstream depend on.
   */
  function SafeStr(c: Cell): string {
    match c
    case Missing => ""
    case Text(s) => s
    case Flag(b) => if b then "true" else "false"
    case Num(_) => "#"
    case When(_) => "#"
  }

  // ---------------------------------------------------------------- numbers

  /** `m * 10^e`. */
  function Scale(m: nat, e: int): real {
    if e >= 0 then (m * Power10(e)) as real else m as real / Power10(-e) as real
  }

  /** The index of the first character of `s` in `cs`, or `|s|`. */
  function IndexOfAny(s: string, cs: set<char>): (i: nat)
    ensures i <= |s|
    ensures forall k :: 0 <= k < i ==> s[k] !in cs
    ensures i < |s| ==> s[i] in cs
  {
    if s == [] || s[0] in cs then 0 else 1 + IndexOfAny(s[1..], cs)
  }

  /** An exponent `[+-]?digits`, at least one digit. */
  function ParseExponent(t: string): Option<int> {
    var neg := t != [] && t[0] == '-';
    var digits := if t != [] && (t[0] == '-' || t[0] == '+') then t[1..] else t;
    if digits == [] || !AllDigits(digits) then None
    else
      var e: int := DigitsValue(digits);
      Some(if neg then -e else e)
  }

  /**
   * An unsigned StrDecimalLiteral of ECMAScript: `digits [. digits]`
   * or `. digits`, at least one digit in all, then an optional exponent.
   */
  function ParseUnsignedDecimal(t: string): Option<real> {
    var ei := IndexOfAny(t, {'e', 'E'});
    var mantissa := t[..ei];
    var exponent := if ei == |t| then Some(0) else ParseExponent(t[ei + 1..]);
    var di := IndexOfAny(mantissa, {'.'});
    var whole := mantissa[..di];
    var fraction := if di == |mantissa| then "" else mantissa[di + 1..];
    if exponent.None? || !AllDigits(whole) || !AllDigits(fraction) || |whole| + |fraction| == 0 then None
    else Some(Scale(DigitsValue(whole + fraction), exponent.value - |fraction|))
  }

  function RadixDigit(c: char): int {
    if '0' <= c <= '9' then c as int - '0' as int
    else if 'a' <= c <= 'f' then c as int - 'a' as int + 10
    else if 'A' <= c <= 'F' then c as int - 'A' as int + 10
    else 99
  }

  /** The value of `s` read in base `b`, or `None` if some character is not a digit of that base. */
  function RadixValue(s: string, b: nat): Option<nat>
    requires 2 <= b <= 16
  {
    if s == [] then Some(0)
    else
      var d := RadixDigit(s[|s| - 1]);
      match RadixValue(s[..|s| - 1], b)
      case None => None
      case Some(v) => if 0 <= d < b then Some(v * b + d) else None
  }

  /**
   * `Number(s)` kept when finite, for a non-empty string: a `0x`, `0o` or `0b`
   * integer, or a signed decimal. The strings `Infinity`, `+Infinity` and
   * `-Infinity` give an infinite number, which `toNumber` rejects, so they
   * fall under "not a decimal" here.
   */
  function NumberOf(s: string): Option<real> {
    var t := Trim(s);
    if t == [] then Some(0.0)
    else if |t| > 2 && t[0] == '0' && t[1] in {'x', 'X', 'o', 'O', 'b', 'B'} then
      var base := if t[1] in {'x', 'X'} then 16 else if t[1] in {'o', 'O'} then 8 else 2;
      match RadixValue(t[2..], base)
      case None => None
      case Some(v) => Some(v as real)
    else if t[0] == '-' then
      match ParseUnsignedDecimal(t[1..])
      case None => None
      case Some(v) => Some(-v)
    else if t[0] == '+' then ParseUnsignedDecimal(t[1..])
    else ParseUnsignedDecimal(t)
  }

  /** `toNumber(v)`. */
  function ToNumber(c: Cell): Option<real> {
    match c
    case Num(x) => Some(x)
    case Text(v) =>
      var s := Trim(v);
      if s == "" || s == "-" then None else NumberOf(ReplaceFirst(s, ',', '.'))
    case _ => None
  }

  // ------------------------------------------------------------------ dates

  /** `^(\d{1,2})-(\d{1,2})-(\d{4})$`: day, month and year, each as written. */
  function MatchDmy(s: string): Option<(nat, nat, nat)> {
    var a := BeforeChar(s, '-');
    if |a| == |s| then None
    else
      var rest := s[|a| + 1..];
      var b := BeforeChar(rest, '-');
      if |b| == |rest| then None
      else
        var c := rest[|b| + 1..];
        if 1 <= |a| <= 2 && 1 <= |b| <= 2 && |c| == 4 && AllDigits(a) && AllDigits(b) && AllDigits(c)
        then Some((DigitsValue(a), DigitsValue(b), DigitsValue(c)))
        else None
  }

  /** The host's `new Date(v)` string parser, which the model does not interpret. */
  type HostDateParser = string -> Option<Day>

  /** `new Date(yyyy, mm - 1, dd)` of a matched `(dd, mm, yyyy)`. */
  function DmyDay(dmy: (nat, nat, nat)): Day {
    LocalDate(dmy.2, dmy.1 - 1, dmy.0)
  }

  /** `toDate(v)`; `host` stands for the fallback `new Date(v)`. */
  function ToDate(c: Cell, host: HostDateParser): Option<Day> {
    match c
    case When(d) => Some(d)
    case Text(v) =>
      var onlyDate := Trim(BeforeChar(v, ' '));
      (match MatchDmy(onlyDate)
       case Some(dmy) => Some(DmyDay(dmy))
       case None => host(v))
    case _ => None
  }

  // --------------------------------------------------------------- lemmas

  /** A blank string and the placeholder `-` read as no number. */
  lemma ToNumberBlank(v: string)
    requires Trim(v) == "" || Trim(v) == "-"
    ensures ToNumber(Text(v)) == None
  {
  }

  /** Only strings and numbers can be numbers. */
  lemma ToNumberOtherCells(c: Cell)
    requires !c.Text? && !c.Num?
    ensures ToNumber(c) == None
  {
  }

  lemma DigitIsPlain(c: char)
    requires IsDigit(c)
    ensures !IsWhitespace(c) && c !in {',', '.', '-', '+', 'e', 'E', ' ', 'x', 'X', 'o', 'O', 'b', 'B'}
  {
  }

  lemma IndexOfAnyAbsent(s: string, cs: set<char>)
    requires forall k :: 0 <= k < |s| ==> s[k] !in cs
    ensures IndexOfAny(s, cs) == |s|
  {
  }

  lemma {:induction false} IndexOfAnyAt(s: string, cs: set<char>, i: nat)
    requires i < |s| && s[i] in cs
    requires forall k :: 0 <= k < i ==> s[k] !in cs
    ensures IndexOfAny(s, cs) == i
  {
    if i > 0 {
      IndexOfAnyAt(s[1..], cs, i - 1);
    }
  }

  /** A digit string has no whitespace at either end, so `trim` keeps it. */
  lemma TrimDigits(t: string)
    requires t != [] && AllDigits(t)
    ensures Trim(t) == t
  {
    DigitIsPlain(t[0]);
    DigitIsPlain(t[|t| - 1]);
    TrimNoop(t);
  }

  /** An unsigned decimal without an exponent: the digits on both sides of the point read together, scaled down by the length of the fraction. */
  lemma ParseDecimal(whole: string, fraction: string)
    requires AllDigits(whole) && AllDigits(fraction) && whole != []
    ensures AllDigits(whole + fraction)
    ensures ParseUnsignedDecimal(whole + "." + fraction) == Some(Scale(DigitsValue(whole + fraction), -|fraction|))
  {
    var t := whole + "." + fraction;
    DecimalNoExponent(whole, fraction);
    assert t[..|t|] == t;
    DecimalPoint(whole, fraction);
    DigitsValueAppend(whole, fraction);
  }

  lemma DecimalPoint(whole: string, fraction: string)
    requires AllDigits(whole)
    ensures var t := whole + "." + fraction;
            IndexOfAny(t, {'.'}) == |whole| && t[..|whole|] == whole && t[|whole| + 1..] == fraction
  {
    var t := whole + "." + fraction;
    forall k | 0 <= k < |whole|
      ensures t[k] !in {'.'}
    {
      assert t[k] == whole[k];
      DigitIsPlain(whole[k]);
    }
    assert t[|whole|] == '.';
    IndexOfAnyAt(t, {'.'}, |whole|);
    assert t[..|whole|] == whole;
    assert t[|whole| + 1..] == fraction;
  }

  lemma DecimalNoExponent(whole: string, fraction: string)
    requires AllDigits(whole) && AllDigits(fraction)
    ensures IndexOfAny(whole + "." + fraction, {'e', 'E'}) == |whole + "." + fraction|
  {
    var t := whole + "." + fraction;
    forall k | 0 <= k < |t|
      ensures t[k] !in {'e', 'E'}
    {
      if k < |whole| {
        assert t[k] == whole[k];
        DigitIsPlain(whole[k]);
      } else if k > |whole| {
        assert t[k] == fraction[k - |whole| - 1];
        DigitIsPlain(fraction[k - |whole| - 1]);
      }
    }
    IndexOfAnyAbsent(t, {'e', 'E'});
  }

  /** A run of decimal digits reads as its own value. */
  lemma ParseDigits(t: string)
    requires t != [] && AllDigits(t)
    ensures ParseUnsignedDecimal(t) == Some(DigitsValue(t) as real)
  {
    forall k | 0 <= k < |t|
      ensures t[k] !in {'e', 'E'} && t[k] !in {'.'}
    {
      DigitIsPlain(t[k]);
    }
    IndexOfAnyAbsent(t, {'e', 'E'});
    IndexOfAnyAbsent(t, {'.'});
    assert t[..|t|] == t;
    assert t + "" == t;
  }

  /** Digits and a decimal point that start with a digit are read as a decimal, not as a `0x`/`0o`/`0b` literal or a signed one. */
  lemma NumberOfPlain(t: string)
    requires |t| >= 1 && IsDigit(t[0]) && (|t| >= 2 ==> (IsDigit(t[1]) || t[1] == '.'))
    requires !IsWhitespace(t[|t| - 1])
    ensures NumberOf(t) == ParseUnsignedDecimal(t)
  {
    DigitIsPlain(t[0]);
    if |t| >= 2 && IsDigit(t[1]) { DigitIsPlain(t[1]); }
    TrimNoop(t);
  }

  /** A string of decimal digits is read as its value. */
  lemma ToNumberDigits(t: string)
    requires t != [] && AllDigits(t)
    ensures ToNumber(Text(t)) == Some(DigitsValue(t) as real)
  {
    TrimDigits(t);
    NoCharInDigits(t, ',');
    DigitIsPlain(t[0]);
    DigitIsPlain(t[|t| - 1]);
    NumberOfPlain(t);
    ParseDigits(t);
  }

  /** `String(n)` reads back as `n`. */
  lemma ToNumberNatural(n: nat)
    ensures ToNumber(Text(NatToString(n))) == Some(n as real)
  {
    ToNumberDigits(NatToString(n));
    NatToStringRoundTrip(n);
  }

  /** The first comma is the decimal separator: `whole,fraction` reads as the digits together scaled down by `10^|fraction|`. */
  lemma ToNumberDecimalComma(whole: string, fraction: string)
    requires whole != [] && fraction != [] && AllDigits(whole) && AllDigits(fraction)
    ensures AllDigits(whole + fraction)
    ensures ToNumber(Text(whole + "," + fraction)) == Some(Scale(DigitsValue(whole + fraction), -|fraction|))
  {
    var v := whole + "," + fraction;
    assert v == whole + [','] + fraction;
    DigitIsPlain(whole[0]);
    DigitIsPlain(fraction[|fraction| - 1]);
    assert v[0] == whole[0] && v[|v| - 1] == fraction[|fraction| - 1];
    TrimNoop(v);
    NoCharInDigits(whole, ',');
    ReplaceFirstAt(whole, fraction, ',', '.');
    var t := whole + "." + fraction;
    assert t == whole + ['.'] + fraction;
    assert t[0] == whole[0] && t[|t| - 1] == fraction[|fraction| - 1];
    if |whole| >= 2 { assert t[1] == whole[1]; } else { assert t[1] == '.'; }
    NumberOfPlain(t);
    ParseDecimal(whole, fraction);
  }

  /** `12,5` is twelve and a half. */
  lemma ToNumberTwelveAndAHalf()
    ensures ToNumber(Text("12,5")) == Some(12.5)
  {
    ToNumberDecimalComma("12", "5");
    TwelveAndAHalfText();
    TwelveAndAHalfValue();
  }

  lemma TwelveAndAHalfValue()
    ensures Scale(125, -1) == 12.5
  {
    assert Power10(1) == 10;
  }

  lemma TwelveAndAHalfText()
    ensures "12,5" == "12" + "," + "5"
    ensures "12" + "5" == "125" && DigitsValue("125") == 125
  {
    assert "125"[..2] == "12" && "12"[..1] == "1";
  }

  /** A Dutch thousands separator is not understood: `1.234,50` is no number at all. */
  lemma ToNumberThousands()
    ensures ToNumber(Text("1.234,50")) == None
  {
    ThousandsText();
    TrimNoop("1.234,50");
    ReplaceFirstAt("1.234", "50", ',', '.');
    TwoPoints();
  }

  lemma ThousandsText()
    ensures "1.234,50" == "1.234" + [','] + "50"
    ensures "1.234" + ['.'] + "50" == "1.234.50"
    ensures ',' !in "1.234"
    ensures !IsWhitespace('1') && !IsWhitespace('0')
  {
  }

  /** Two decimal points make the text no decimal. */
  lemma TwoPoints()
    ensures NumberOf("1.234.50") == None
  {
    ThousandsParts();
    NumberOfPlain("1.234.50");
    DigitsWithPoints("1", "234", "50");
  }

  lemma ThousandsParts()
    ensures "1.234.50" == "1" + "." + "234" + "." + "50"
    ensures AllDigits("1") && AllDigits("234") && AllDigits("50")
  {
  }

  /** `a.b.c` with digit strings `a`, `b`, `c` has no exponent and two decimal points. */
  lemma DigitsWithPoints(a: string, b: string, c: string)
    requires AllDigits(a) && AllDigits(b) && AllDigits(c)
    ensures ParseUnsignedDecimal(a + "." + b + "." + c) == None
  {
    var t := a + "." + b + "." + c;
    forall k | 0 <= k < |t|
      ensures t[k] != 'e' && t[k] != 'E'
    {
      if k < |a| { assert t[k] == a[k]; }
      else if |a| < k < |a| + 1 + |b| { assert t[k] == b[k - |a| - 1]; }
      else if k > |a| + 1 + |b| { assert t[k] == c[k - |a| - |b| - 2]; }
    }
    TwoPointsNoDecimal(t, |a|, |a| + 1 + |b|);
  }

  /** A second decimal point, with no exponent, makes the text no decimal: after the first point only digits may follow. */
  lemma TwoPointsNoDecimal(t: string, i: nat, j: nat)
    requires forall k :: 0 <= k < |t| ==> t[k] != 'e' && t[k] != 'E'
    requires i < j < |t| && t[i] == '.' && t[j] == '.'
    ensures ParseUnsignedDecimal(t) == None
  {
    IndexOfAnyAbsent(t, {'e', 'E'});
    assert t[..|t|] == t;
    var di := IndexOfAny(t, {'.'});
    assert di <= i;
    assert t[di + 1..][j - di - 1] == '.';
  }

  /**
   * `dd-mm-yyyy`, one or two digits for the day and the month and four for
   * the year, optionally followed by a space and a note, is read as
   * `new Date(yyyy, mm - 1, dd)` whatever the host parser would say.
   */
  lemma ToDateDmyText(dd: string, mm: string, yyyy: string, note: string, host: HostDateParser)
    requires 1 <= |dd| <= 2 && 1 <= |mm| <= 2 && |yyyy| == 4
    requires AllDigits(dd) && AllDigits(mm) && AllDigits(yyyy)
    requires note == [] || note[0] == ' '
    ensures ToDate(Text(dd + "-" + mm + "-" + yyyy + note), host)
         == Some(DmyDay((DigitsValue(dd), DigitsValue(mm), DigitsValue(yyyy))))
  {
    var dateText := dd + "-" + mm + "-" + yyyy;
    DmyTextShape(dd, mm, yyyy);
    BeforeCharAt(dateText, note, ' ');
    DmyTrim(dd, mm, yyyy);
    DmyMatches(dd, mm, yyyy);
    ToDateOfToken(dateText + note, dateText, (DigitsValue(dd), DigitsValue(mm), DigitsValue(yyyy)), host);
  }

  /** A text whose part before the first space trims to a `dd-mm-yyyy` match is that local date. */
  lemma ToDateOfToken(v: string, token: string, dmy: (nat, nat, nat), host: HostDateParser)
    requires Trim(BeforeChar(v, ' ')) == token
    requires MatchDmy(token) == Some(dmy)
    ensures ToDate(Text(v), host) == Some(DmyDay(dmy))
  {
  }

  lemma DmyTrim(dd: string, mm: string, yyyy: string)
    requires 1 <= |dd| && |yyyy| == 4
    requires AllDigits(dd) && AllDigits(yyyy)
    ensures Trim(dd + "-" + mm + "-" + yyyy) == dd + "-" + mm + "-" + yyyy
  {
    var dateText := dd + "-" + mm + "-" + yyyy;
    DigitIsPlain(dd[0]);
    DigitIsPlain(yyyy[3]);
    assert dateText[0] == dd[0] && dateText[|dateText| - 1] == yyyy[3];
    TrimNoop(dateText);
  }

  lemma DmyTextShape(dd: string, mm: string, yyyy: string)
    requires AllDigits(dd) && AllDigits(mm) && AllDigits(yyyy)
    ensures ' ' !in dd + "-" + mm + "-" + yyyy
  {
    NoCharInDigits(dd, ' ');
    NoCharInDigits(mm, ' ');
    NoCharInDigits(yyyy, ' ');
  }

  lemma DmyMatches(dd: string, mm: string, yyyy: string)
    requires 1 <= |dd| <= 2 && 1 <= |mm| <= 2 && |yyyy| == 4
    requires AllDigits(dd) && AllDigits(mm) && AllDigits(yyyy)
    ensures MatchDmy(dd + "-" + mm + "-" + yyyy) == Some((DigitsValue(dd), DigitsValue(mm), DigitsValue(yyyy)))
  {
    NoCharInDigits(dd, '-');
    NoCharInDigits(mm, '-');
    var tail := mm + "-" + yyyy;
    SplitAtDash(mm, yyyy);
    SplitAtDash(dd, tail);
    Regroup(dd, "-", mm, "-", yyyy);
  }

  /** Cutting `p-q` at its first `-` gives back `p` and `q`. */
  lemma SplitAtDash(p: string, q: string)
    requires '-' !in p
    ensures BeforeChar(p + "-" + q, '-') == p
    ensures |p| < |p + "-" + q| && (p + "-" + q)[|p| + 1..] == q
  {
    assert p + "-" + q == p + ("-" + q);
    BeforeCharAt(p, "-" + q, '-');
  }

  lemma Regroup(a: string, b: string, c: string, d: string, e: string)
    ensures a + b + c + d + e == a + b + (c + d + e)
  {
  }

  /** A calendar date written `dd-mm-yyyy` reads back as that same date. */
  lemma ToDateRoundTrip(d: nat, m: nat, y: nat, note: string, host: HostDateParser)
    requires ValidDate(Date(y, m, d)) && 1000 <= y <= 9999
    requires note == [] || note[0] == ' '
    ensures ToDate(Text(Pad2(d) + "-" + Pad2(m) + "-" + NatToString(y) + note), host) == Some(DayNumber(Date(y, m, d)))
    ensures Civil(DayNumber(Date(y, m, d))) == Date(y, m, d)
  {
    Pad2Value(d);
    Pad2Value(m);
    NatToStringRoundTrip(y);
    FourDigits(y);
    ToDateDmyText(Pad2(d), Pad2(m), NatToString(y), note, host);
    var text := Pad2(d) + "-" + Pad2(m) + "-" + NatToString(y) + note;
    DmyDayOfValid(ToDate(Text(text), host), (DigitsValue(Pad2(d)), DigitsValue(Pad2(m)), DigitsValue(NatToString(y))), Date(y, m, d));
    CivilOfDayNumber(Date(y, m, d));
  }

  lemma DmyDayOfValid(r: Option<Day>, dmy: (nat, nat, nat), dt: Date)
    requires r == Some(DmyDay(dmy))
    requires dmy.0 == dt.day && dmy.1 == dt.month && dmy.2 == dt.year
    requires ValidDate(dt) && !(0 <= dt.year <= 99)
    ensures r == Some(DayNumber(dt))
  {
    LocalDateOfValid(dt);
  }

  lemma FourDigits(y: nat)
    requires 1000 <= y <= 9999
    ensures |NatToString(y)| == 4
  {
    assert NatToString(y) == NatToString(y / 10) + [DigitChar(y % 10)];
    assert NatToString(y / 10) == NatToString(y / 100) + [DigitChar(y / 10 % 10)];
    assert NatToString(y / 100) == NatToString(y / 1000) + [DigitChar(y / 100 % 10)];
  }

  /** A day past the end of its month rolls over: 31-02-2026 is 3 March 2026. */
  lemma ToDateRollOver(host: HostDateParser)
    ensures ToDate(Text("31-02-2026"), host) == Some(DayNumber(Date(2026, 3, 3)))
  {
    ToDateDmyText("31", "02", "2026", "", host);
    RollOverText();
    RollOverDay();
  }

  lemma RollOverText()
    ensures "31-02-2026" == "31" + "-" + "02" + "-" + "2026" + ""
    ensures DigitsValue("31") == 31 && DigitsValue("02") == 2 && DigitsValue("2026") == 2026
  {
    assert "2026"[..3] == "202" && "202"[..2] == "20" && "20"[..1] == "2";
  }

  lemma RollOverDay()
    ensures DmyDay((31, 2, 2026)) == DayNumber(Date(2026, 3, 3))
  {
    assert YearStart(2026) == 20454;
    assert LocalDate(2026, 1, 31) == MonthStart(2026, 2) + 30;
    assert MonthStart(2026, 2) + 30 == MonthStart(2026, 3) + 2;
  }

  /** The year 0026 is read as 1926, as `new Date(yyyy, mm, dd)` does with years 0..99; the note after the space is ignored. */
  lemma ToDateEarlyYear(host: HostDateParser)
    ensures ToDate(Text("05-06-0026 (middag)"), host) == Some(DayNumber(Date(1926, 6, 5)))
  {
    ToDateDmyText("05", "06", "0026", " (middag)", host);
    EarlyYearText();
    EarlyYearDay();
  }

  lemma EarlyYearDay()
    ensures DmyDay((5, 6, 26)) == DayNumber(Date(1926, 6, 5))
  {
    LocalDateOfEarlyYear(Date(26, 6, 5));
  }

  lemma EarlyYearText()
    ensures "05-06-0026 (middag)" == "05" + "-" + "06" + "-" + "0026" + " (middag)"
    ensures DigitsValue("05") == 5 && DigitsValue("06") == 6 && DigitsValue("0026") == 26
  {
    assert "0026"[..3] == "002" && "002"[..2] == "00" && "00"[..1] == "0";
  }

  /**
   * Whatever `dd-mm-yyyy` text matches, `new Date(yyyy, mm - 1, dd)` lies well
   * inside the range of valid JavaScript dates (100 000 000 days either side
   * of the epoch), so the branch never falls through to the host parser.
   */
  lemma DmyAlwaysValid(s: string)
    requires MatchDmy(s).Some?
    ensures var dmy := MatchDmy(s).value;
            -100000000 <= DmyDay(dmy) <= 100000000
  {
    MatchDmyBounds(s);
    var dmy := MatchDmy(s).value;
    LocalDateInRange(dmy.2, dmy.1 as int - 1, dmy.0);
  }

  /** The pattern's day and month have at most two digits and its year four. */
  lemma MatchDmyBounds(s: string)
    requires MatchDmy(s).Some?
    ensures MatchDmy(s).value.0 < 100 && MatchDmy(s).value.1 < 100 && MatchDmy(s).value.2 < 10000
  {
    var a := BeforeChar(s, '-');
    var rest := s[|a| + 1..];
    var b := BeforeChar(rest, '-');
    var c := rest[|b| + 1..];
    DigitsValueBound(a);
    DigitsValueBound(b);
    DigitsValueBound(c);
    assert Power10(2) == 100 && Power10(4) == 10000;
  }

  /** `new Date(y, mi, d)` of a year below 10000, a month index below 99 and a day below 100. */
  lemma LocalDateInRange(y: int, mi: int, d: int)
    requires 0 <= y < 10000 && -1 <= mi < 99 && 0 <= d < 100
    ensures -100000000 <= LocalDate(y, mi, d) <= 100000000
  {
    var yr: int := if y <= 99 then 1900 + y else y;
    var yy := yr + mi / 12;
    var m := mi % 12 + 1;
    assert 99 <= yy <= 10007 && 1 <= m <= 12;
    assert LocalDate(y, mi, d) == YearStart(yy) + DaysBeforeMonth(yy, m) + d - 1;
    assert 0 <= DaysBeforeMonth(yy, m) <= 335;
    if yy > 99 { YearStartMonotone(99, yy); }
    YearStartMonotone(yy, 10008);
    assert YearStart(99) >= -700000;
    assert YearStart(10008) <= 3000000;
  }
}
