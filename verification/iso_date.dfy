/** Calendar dates as the usage log's file names carry them: the date part
    of JavaScript's `Date.prototype.toISOString` (`YYYY-MM-DD`, or a signed
    six-digit year outside 0..9999), the date-only forms `new Date(s)`
    reads as midnight UTC, and the day count that turns a proleptic
    Gregorian date into that instant. Which date "now" is comes from the
    clock and is not computed here. */
module IsoDate {
  import opened Wrappers
  import opened Text

  const DayMs: int := 86_400_000

  datatype CivilDate = CivilDate(year: int, month: int, day: int)

  predicate IsLeapYear(y: int) {
    (y % 4 == 0 && y % 100 != 0) || y % 400 == 0
  }

  function DaysInMonth(y: int, m: int): int
    requires 1 <= m <= 12
  {
    if m == 2 then (if IsLeapYear(y) then 29 else 28)
    else if m == 4 || m == 6 || m == 9 || m == 11 then 30
    else 31
  }

  /** A real calendar day whose year the extended ISO format can write. */
  predicate ValidDate(c: CivilDate) {
    -999_999 <= c.year <= 999_999 && 1 <= c.month <= 12 && 1 <= c.day <= DaysInMonth(c.year, c.month)
  }

  function Pad(n: nat, width: nat): string {
    PadStart(Decimal(n), width, '0')
  }

  /** The year as `toISOString` writes it. */
  function YearText(y: int): string
    requires -999_999 <= y <= 999_999
  {
    if 0 <= y <= 9999 then Pad(y, 4)
    else if y > 0 then "+" + Pad(y, 6)
    else "-" + Pad(-y, 6)
  }

  /** `date.toISOString().split("T")[0]` for an instant on day `c` (UTC). */
  function DateText(c: CivilDate): string
    requires ValidDate(c)
  {
    YearText(c.year) + "-" + Pad(c.month, 2) + "-" + Pad(c.day, 2)
  }

  /** Fields the date parser accepts: a month from 1 to 12 and a day from
      1 to 31 whatever the month. A day past the month's end is not an
      error there; it runs on into the next month, which is what the day
      count below does with it. */
  predicate DateFields(c: CivilDate) {
    -999_999 <= c.year <= 999_999 && 1 <= c.month <= 12 && 1 <= c.day <= 31
  }

  function MakeDate(y: Option<nat>, m: Option<nat>, d: Option<nat>, negative: bool): (r: Option<CivilDate>)
    ensures r.Some? ==> DateFields(r.value)
  {
    if y.Some? && m.Some? && d.Some? then
      var c := CivilDate(if negative then -(y.value as int) else y.value, m.value, d.value);
      if DateFields(c) then Some(c) else None
    else None
  }

  /** `new Date(s)` on the date-only forms of the ECMAScript date time
      string format (section 21.4.1.32 of ECMA-262): a four-digit year, or
      a sign and six digits, then optionally `-MM` and then `-DD`. A
      missing month or day is the first one, and the result is that day's
      midnight UTC. `None` is an Invalid Date; the extended year
      `-000000` (minus zero) is one. */
  function ParseDateText(s: string): (r: Option<CivilDate>)
    ensures r.Some? ==> DateFields(r.value)
  {
    if s != [] && (s[0] == '+' || s[0] == '-') then
      if |s| < 7 || s[..7] == "-000000" then None
      else MonthAndDay(ParseNat(s[1..7]), s[7..], s[0] == '-')
    else if |s| < 4 then None
    else MonthAndDay(ParseNat(s[..4]), s[4..], false)
  }

  /** What may follow the year: nothing, `-MM`, or `-MM-DD`. */
  function MonthAndDay(y: Option<nat>, rest: string, negative: bool): (r: Option<CivilDate>)
    ensures r.Some? ==> DateFields(r.value)
  {
    if rest == [] then MakeDate(y, Some(1), Some(1), negative)
    else if |rest| == 3 && rest[0] == '-' then MakeDate(y, ParseNat(rest[1..]), Some(1), negative)
    else if |rest| == 6 && rest[0] == '-' && rest[3] == '-' then MakeDate(y, ParseNat(rest[1..3]), ParseNat(rest[4..]), negative)
    else None
  }

  /** Days from 1970-01-01 to `c` in the proleptic Gregorian calendar
      (the civil-to-days algorithm, with floor division). */
  function DaysFromCivil(c: CivilDate): int {
    var y := if c.month <= 2 then c.year - 1 else c.year;
    var era := y / 400;
    var yoe := y - era * 400;
    var mp := if c.month > 2 then c.month - 3 else c.month + 9;
    var doy := (153 * mp + 2) / 5 + c.day - 1;
    var doe := yoe * 365 + yoe / 4 - yoe / 100 + doy;
    era * 146097 + doe - 719468
  }

  /** The instant, in milliseconds since the epoch, of midnight UTC that
      begins day `c`: what `new Date("YYYY-MM-DD")` yields. */
  function MidnightUtc(c: CivilDate): int {
    DaysFromCivil(c) * DayMs
  }

  /** Only digits and the separators `-` and `+` appear in a date text. */
  lemma DateTextChars(c: CivilDate)
    requires ValidDate(c)
    ensures forall i :: 0 <= i < |DateText(c)| ==> IsDigit(DateText(c)[i]) || DateText(c)[i] in "-+"
  {
  }

  lemma {:induction false} YearTextShape(y: int)
    requires -999_999 <= y <= 999_999
    ensures 0 <= y <= 9999 ==> |YearText(y)| == 4 && ParseNat(YearText(y)) == Some(y)
    ensures !(0 <= y <= 9999) ==> |YearText(y)| == 7 && YearText(y)[0] == (if y > 0 then '+' else '-')
    ensures y > 9999 ==> ParseNat(YearText(y)[1..]) == Some(y)
    ensures y < 0 ==> ParseNat(YearText(y)[1..]) == Some(-y) && YearText(y) != "-000000"
  {
    assert Pow10(4) == 10000;
    assert Pow10(6) == 1000000;
    if 0 <= y <= 9999 {
      PaddedDecimal(y, 4);
    } else if y > 0 {
      PaddedDecimal(y, 6);
      assert YearText(y)[1..] == Pad(y, 6);
    } else {
      PaddedDecimal(-y, 6);
      assert YearText(y)[1..] == Pad(-y, 6);
      assert ParseNat("000000") == Some(0) by {
        assert AllDigits("000000");
        assert DigitsValue("000000") == 0 by {
          ZerosValue(6);
          assert seq(6, _ => '0') == "000000";
        }
      }
    }
  }

  lemma FullMonthAndDay(y: Option<nat>, mt: string, dt: string, negative: bool)
    requires |mt| == 2 && |dt| == 2
    ensures MonthAndDay(y, "-" + mt + "-" + dt, negative) == MakeDate(y, ParseNat(mt), ParseNat(dt), negative)
  {
    var rest := "-" + mt + "-" + dt;
    assert rest[1..3] == mt && rest[4..] == dt;
  }

  lemma ParseShortForm(yt: string, mt: string, dt: string)
    requires |yt| == 4 && AllDigits(yt) && |mt| == 2 && |dt| == 2
    ensures ParseDateText(yt + "-" + mt + "-" + dt) == MakeDate(ParseNat(yt), ParseNat(mt), ParseNat(dt), false)
  {
    var s := yt + "-" + mt + "-" + dt;
    assert s[0] == yt[0] && IsDigit(yt[0]);
    assert s[..4] == yt && s[4..] == "-" + mt + "-" + dt;
    FullMonthAndDay(ParseNat(yt), mt, dt, false);
  }

  lemma ParseLongForm(yt: string, mt: string, dt: string)
    requires |yt| == 7 && (yt[0] == '+' || yt[0] == '-') && yt != "-000000" && |mt| == 2 && |dt| == 2
    ensures ParseDateText(yt + "-" + mt + "-" + dt) == MakeDate(ParseNat(yt[1..]), ParseNat(mt), ParseNat(dt), yt[0] == '-')
  {
    var s := yt + "-" + mt + "-" + dt;
    assert s[..7] == yt && s[1..7] == yt[1..] && s[7..] == "-" + mt + "-" + dt;
    assert s[0] == yt[0];
    FullMonthAndDay(ParseNat(yt[1..]), mt, dt, yt[0] == '-');
  }

  lemma YearOnlyForm(yt: string)
    requires |yt| == 4 && AllDigits(yt)
    ensures ParseDateText(yt) == MakeDate(ParseNat(yt), Some(1), Some(1), false)
  {
    assert IsDigit(yt[0]);
    assert yt[..4] == yt && yt[4..] == [];
  }

  lemma YearMonthForm(yt: string, mt: string)
    requires |yt| == 4 && AllDigits(yt) && |mt| == 2
    ensures ParseDateText(yt + "-" + mt) == MakeDate(ParseNat(yt), ParseNat(mt), Some(1), false)
  {
    var s := yt + "-" + mt;
    assert s[0] == yt[0] && IsDigit(yt[0]);
    assert s[..4] == yt && s[4..] == "-" + mt;
    assert ("-" + mt)[1..] == mt;
  }

  /** A name that stops after the year or the month still reads as a day:
      the first of that year or month. */
  lemma PartialFormsRead(y: nat, m: nat)
    requires y <= 9999 && 1 <= m <= 12
    ensures ParseDateText(Pad(y, 4)) == Some(CivilDate(y, 1, 1))
    ensures ParseDateText(Pad(y, 4) + "-" + Pad(m, 2)) == Some(CivilDate(y, m, 1))
  {
    assert Pow10(4) == 10000 && Pow10(2) == 100;
    PaddedDecimal(y, 4);
    PaddedDecimal(m, 2);
    YearOnlyForm(Pad(y, 4));
    YearMonthForm(Pad(y, 4), Pad(m, 2));
  }

  lemma MakeDateOf(c: CivilDate, y: nat)
    requires ValidDate(c) && y == (if c.year < 0 then -c.year else c.year)
    ensures MakeDate(Some(y), Some(c.month as nat), Some(c.day as nat), c.year < 0) == Some(c)
  {
  }

  lemma ShortFormRoundTrip(c: CivilDate)
    requires ValidDate(c) && 0 <= c.year <= 9999
    ensures ParseDateText(DateText(c)) == Some(c)
  {
    var yt, mt, dt := YearText(c.year), Pad(c.month, 2), Pad(c.day, 2);
    assert DateText(c) == yt + "-" + mt + "-" + dt;
    assert Pow10(2) == 100;
    PaddedDecimal(c.month, 2);
    PaddedDecimal(c.day, 2);
    YearTextShape(c.year);
    assert AllDigits(yt);
    ParseShortForm(yt, mt, dt);
    MakeDateOf(c, c.year);
  }

  lemma LongFormRoundTrip(c: CivilDate)
    requires ValidDate(c) && !(0 <= c.year <= 9999)
    ensures ParseDateText(DateText(c)) == Some(c)
  {
    var yt, mt, dt := YearText(c.year), Pad(c.month, 2), Pad(c.day, 2);
    assert DateText(c) == yt + "-" + mt + "-" + dt;
    assert Pow10(2) == 100;
    PaddedDecimal(c.month, 2);
    PaddedDecimal(c.day, 2);
    YearTextShape(c.year);
    var y: nat := if c.year < 0 then -c.year else c.year;
    assert ParseNat(yt[1..]) == Some(y);
    assert (yt[0] == '-') == (c.year < 0);
    ParseLongForm(yt, mt, dt);
    MakeDateOf(c, y);
  }

  /** Round trip: parsing the date text of a valid day gives the day back. */
  lemma ParseDateTextRoundTrip(c: CivilDate)
    requires ValidDate(c)
    ensures ParseDateText(DateText(c)) == Some(c)
  {
    if 0 <= c.year <= 9999 {
      ShortFormRoundTrip(c);
    } else {
      LongFormRoundTrip(c);
    }
  }
}
