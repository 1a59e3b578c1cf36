/** The App Usage view of the renderer: it sanitises and ranks the summary
    rows the main process answers with, sorts a copy of them by the column
    header the user last clicked, and exports the sorted rows as CSV text.
    A CSV reader in the manner of RFC 4180 (section 2) states what the
    exported text means: it reads back the header and one record of three
    fields per row. */
module AppUsageView {
  import opened Wrappers
  import opened Text
  import opened Sorting
  import opened AppUsageIpc
  import opened Focus

  // ---------------------------------------------------------------------
  // Loading: sanitise and rank
  // ---------------------------------------------------------------------

  /** `sanitizeUsage`: the rows the Focus view would keep, by non-increasing
      duration. */
  function SanitizeUsage(data: Option<seq<RawRow>>): (r: seq<Row>)
    ensures data.None? ==> r == []
    ensures multiset(r) == multiset(SanitizeRows(data))
    ensures forall x :: x in r ==> Shown(x)
    ensures Sorted(r, ByDurationDesc)
  {
    var kept := SanitizeRows(data);
    SortBySorted(kept, ByDurationDesc);
    var sorted := SortBy(kept, ByDurationDesc);
    assert forall x :: x in sorted ==> x in multiset(kept);
    sorted
  }

  /** `usage.reduce((sum, row) => sum + row.duration, 0)`. */
  function TotalDuration(usage: seq<Row>): int {
    SumBy(usage, RowDuration)
  }

  /** The ranked rows are the kept rows, each shown and none lost, in
      non-increasing order of duration, and they add up to the clamped
      durations of the answer. */
  lemma SanitizeUsageProperties(data: Option<seq<RawRow>>)
    ensures data.None? ==> SanitizeUsage(data) == []
    ensures multiset(SanitizeUsage(data)) == multiset(SanitizeRows(data))
    ensures forall r :: r in SanitizeUsage(data) ==> Shown(r)
    ensures Sorted(SanitizeUsage(data), ByDurationDesc)
    ensures TotalDuration(SanitizeUsage(data)) == if data.None? then 0 else SumBy(data.value, RawDuration)
  {
    var kept := SanitizeRows(data);
    SortBySorted(kept, ByDurationDesc);
    SumByPermutation(kept, SanitizeUsage(data), RowDuration);
    forall r | r in SanitizeUsage(data) ensures Shown(r) {
      assert r in multiset(kept);
    }
    if data.Some? {
      SanitizeAllSum(data.value);
    }
  }

  /** A row is listed exactly when some answered row sanitises to it. */
  lemma SanitizeUsageMembers(rows: seq<RawRow>, x: Row)
    ensures x in SanitizeUsage(Some(rows)) <==> exists i :: 0 <= i < |rows| && KeptAs(rows[i], x)
  {
    var kept := SanitizeRows(Some(rows));
    assert x in SanitizeUsage(Some(rows)) <==> x in multiset(kept);
    SanitizeAllMembers(rows, x);
  }

  // ---------------------------------------------------------------------
  // Fixed-point text: `toFixed(2)`
  // ---------------------------------------------------------------------

  function Abs(x: int): nat {
    if x < 0 then -x else x
  }

  /** The number of hundredths `(num / den).toFixed(2)` prints for the
      exact quotient: its magnitude times 100, rounded to the nearest
      integer, halves upwards. */
  function Hundredths(num: int, den: int): nat
    requires den != 0
  {
    (200 * Abs(num) + Abs(den)) / (2 * Abs(den))
  }

  /** The quotient is negative: `toFixed` then prints a minus sign before
      the digits of its magnitude, even when they are all zero. */
  predicate Negative(num: int, den: int) {
    num != 0 && (num < 0) != (den < 0)
  }

  /** The rounded quotient in hundredths, with its sign. */
  function SignedHundredths(num: int, den: int): int
    requires den != 0
  {
    var h: int := Hundredths(num, den);
    if Negative(num, den) then -h else h
  }

  /** `(num / den).toFixed(2)`: sign, whole part, point, two digits. */
  function FixedText(num: int, den: int): string
    requires den != 0
  {
    var h := Hundredths(num, den);
    (if Negative(num, den) then "-" else "") + Decimal(h / 100) + "." + PadStart(Decimal(h % 100), 2, '0')
  }

  /** The hundredths are within half a hundredth of the exact magnitude
      `|num / den| * 100`, and a tie goes to the larger one. */
  lemma HundredthsNearest(num: int, den: int)
    requires den != 0
    ensures 2 * Abs(den) * Hundredths(num, den) <= 200 * Abs(num) + Abs(den)
    ensures 200 * Abs(num) + Abs(den) < 2 * Abs(den) * (Hundredths(num, den) + 1)
  {
    var x := 200 * Abs(num) + Abs(den);
    var y := 2 * Abs(den);
    var q := x / y;
    assert x == y * q + x % y;
    assert y * (q + 1) == y * q + y;
  }

  /** Reads digits, a point and two digits back as a number of
      hundredths. */
  function ParseUnsigned(t: string): Option<nat> {
    if |t| >= 4 && t[|t| - 3] == '.' then
      var whole := ParseNat(t[..|t| - 3]);
      var frac := ParseNat(t[|t| - 2..]);
      if whole.Some? && frac.Some? then Some(whole.value * 100 + frac.value) else None
    else None
  }

  /** Reads a `toFixed(2)` text back as a signed number of hundredths. */
  function ParseFixed(t: string): Option<int> {
    if t != [] && t[0] == '-' then
      var v := ParseUnsigned(t[1..]);
      if v.Some? then Some(-(v.value as int)) else None
    else
      var v := ParseUnsigned(t);
      if v.Some? then Some(v.value as int) else None
  }

  /** No character that ends or quotes a CSV field: a field written as is
      reads back as itself. */
  predicate Plain(s: string) {
    forall i :: 0 <= i < |s| ==> s[i] != ',' && s[i] != '"' && s[i] != '\r'
  }

  lemma PlainConcat(a: string, b: string)
    requires Plain(a) && Plain(b)
    ensures Plain(a + b)
  {
    forall i | 0 <= i < |a + b| ensures (a + b)[i] != ',' && (a + b)[i] != '"' && (a + b)[i] != '\r' {
      if i < |a| {
        assert (a + b)[i] == a[i];
      } else {
        assert (a + b)[i] == b[i - |a|];
      }
    }
  }

  lemma DigitsPlain(s: string)
    requires AllDigits(s)
    ensures Plain(s)
  {
    forall i | 0 <= i < |s| ensures s[i] != ',' && s[i] != '"' && s[i] != '\r' {
      assert IsDigit(s[i]);
    }
  }

  /** A fixed-point text is a plain field of at least four characters with
      the point third from the end. */
  lemma FixedTextPlain(num: int, den: int)
    requires den != 0
    ensures var t := FixedText(num, den); Plain(t) && |t| >= 4 && t[|t| - 3] == '.'
  {
    var h := Hundredths(num, den);
    var whole := Decimal(h / 100);
    var frac := PadStart(Decimal(h % 100), 2, '0');
    var sign := if Negative(num, den) then "-" else "";
    assert |frac| == 2 && Plain(frac) by {
      assert Pow10(2) == 100;
      PaddedDecimal(h % 100, 2);
      DigitsPlain(frac);
    }
    assert Plain(whole) by {
      DigitsPlain(whole);
    }
    PlainConcat(sign, whole);
    PlainConcat(sign + whole, ".");
    PlainConcat(sign + whole + ".", frac);
    assert FixedText(num, den) == sign + whole + "." + frac;
  }

  /** A whole part, a point and two digits read back as their value in
      hundredths. */
  lemma ParseUnsignedOf(whole: string, frac: string, v: nat)
    requires whole != [] && AllDigits(whole) && |frac| == 2 && AllDigits(frac)
    requires DigitsValue(whole) * 100 + DigitsValue(frac) == v
    ensures ParseUnsigned(whole + "." + frac) == Some(v)
  {
    var body := whole + "." + frac;
    assert body[..|body| - 3] == whole;
    assert body[|body| - 2..] == frac;
  }

  /** With or without a minus sign in front. */
  lemma ParseFixedOf(neg: bool, u: string, v: nat)
    requires u != [] && u[0] != '-' && ParseUnsigned(u) == Some(v)
    ensures var w: int := v; ParseFixed((if neg then "-" else "") + u) == Some(if neg then -w else w)
  {
    if neg {
      assert ("-" + u)[1..] == u;
    } else {
      assert "" + u == u;
    }
  }

  /** The digits of a fixed-point text read back as its hundredths. */
  lemma FixedDigitsParse(h: nat)
    ensures var u := Decimal(h / 100) + "." + PadStart(Decimal(h % 100), 2, '0');
      u != [] && u[0] != '-' && ParseUnsigned(u) == Some(h)
  {
    var whole := Decimal(h / 100);
    var frac := PadStart(Decimal(h % 100), 2, '0');
    assert |frac| == 2 && AllDigits(frac) && DigitsValue(frac) == h % 100 by {
      assert Pow10(2) == 100;
      PaddedDecimal(h % 100, 2);
    }
    DecimalValue(h / 100);
    ParseUnsignedOf(whole, frac, h);
    assert IsDigit(whole[0]);
    assert (whole + "." + frac)[0] == whole[0];
  }

  /** A fixed-point text reads back as the signed hundredths. */
  lemma FixedTextParses(num: int, den: int)
    requires den != 0
    ensures ParseFixed(FixedText(num, den)) == Some(SignedHundredths(num, den))
  {
    var h := Hundredths(num, den);
    var u := Decimal(h / 100) + "." + PadStart(Decimal(h % 100), 2, '0');
    var sign := if Negative(num, den) then "-" else "";
    FixedDigitsParse(h);
    ParseFixedOf(Negative(num, den), u, h);
    assert FixedText(num, den) == sign + u;
  }

  // ---------------------------------------------------------------------
  // CSV text: `formatCsv`
  // ---------------------------------------------------------------------

  /** `"Application,Duration (minutes),Share (%)"`. */
  const Header: string := "Application" + "," + "Duration (minutes)" + "," + "Share (%)"

  /** The three column names of `Header`. */
  const HeaderFields: seq<string> := ["Application", "Duration (minutes)", "Share (%)"]

  /** `(row.duration / 60000).toFixed(2)`. */
  function MinutesField(duration: int): string {
    FixedText(duration, 60000)
  }

  /** `total === 0 ? "0" : ((row.duration / total) * 100).toFixed(2)`:
      the text is `"0"` exactly when the total is zero. */
  function ShareField(duration: int, total: int): (r: string)
    ensures r == "0" <==> total == 0
  {
    if total == 0 then "0"
    else
      FixedTextPlain(duration * 100, total);
      FixedText(duration * 100, total)
  }

  /** `replace(/"/g, '""')`: every quote doubled. */
  function DoubleQuotes(s: string): (r: string)
    ensures |r| >= |s|
  {
    if s == [] then []
    else (if s[0] == '"' then "\"\"" else [s[0]]) + DoubleQuotes(s[1..])
  }

  /** A name with a comma is quoted, its quotes doubled; any other name is
      written as it is. */
  function EscapeApp(app: string): (r: string)
    ensures ',' in app ==> |r| >= |app| + 2 && r[0] == '"' && r[|r| - 1] == '"'
    ensures ',' !in app ==> r == app
  {
    if ',' in app then "\"" + DoubleQuotes(app) + "\"" else app
  }

  /** One data line: application, minutes and share. */
  function CsvLine(row: Row, total: int): string {
    EscapeApp(row.app) + "," + MinutesField(row.duration) + "," + ShareField(row.duration, total)
  }

  function CsvLines(rows: seq<Row>, total: int): (r: seq<string>)
    ensures |r| == |rows|
    ensures forall i :: 0 <= i < |rows| ==> r[i] == CsvLine(rows[i], total)
  {
    if rows == [] then [] else [CsvLine(rows[0], total)] + CsvLines(rows[1..], total)
  }

  /** `lines.join("\r\n")`. */
  function JoinCrlf(lines: seq<string>): string {
    if lines == [] then ""
    else if |lines| == 1 then lines[0]
    else lines[0] + "\r\n" + JoinCrlf(lines[1..])
  }

  /** Joining puts the first line at the front, and anything after it
      makes the text longer. */
  lemma JoinCrlfFirst(first: string, rest: seq<string>)
    ensures StartsWith(JoinCrlf([first] + rest), first)
    ensures rest == [] <==> JoinCrlf([first] + rest) == first
  {
    var lines := [first] + rest;
    if rest != [] {
      assert lines[1..] == rest;
      assert JoinCrlf(lines) == first + "\r\n" + JoinCrlf(rest);
      assert JoinCrlf(lines)[..|first|] == first;
    }
  }

  /** `formatCsv(rows, total)`: the header, then one line per row. */
  function FormatCsv(rows: seq<Row>, total: int): (csv: string)
    ensures StartsWith(csv, Header)
    ensures csv == Header <==> rows == []
  {
    JoinCrlfFirst(Header, CsvLines(rows, total));
    JoinCrlf([Header] + CsvLines(rows, total))
  }

  /** The record each row should read back as. */
  function RowFields(rows: seq<Row>, total: int): (r: seq<seq<string>>)
    ensures |r| == |rows|
    ensures forall i :: 0 <= i < |rows| ==>
      r[i] == [rows[i].app, MinutesField(rows[i].duration), ShareField(rows[i].duration, total)]
  {
    if rows == [] then []
    else [[rows[0].app, MinutesField(rows[0].duration), ShareField(rows[0].duration, total)]] + RowFields(rows[1..], total)
  }

  // ---------------------------------------------------------------------
  // Reading CSV text back
  // ---------------------------------------------------------------------

  /** The rest of a quoted field after its opening quote: the content, with
      each doubled quote read as one, and what follows the closing quote. */
  function QuotedRest(s: string): (r: Option<(string, string)>)
    ensures r.Some? ==> |r.value.1| < |s|
    decreases |s|
  {
    if s == [] then None
    else if s[0] == '"' then
      if |s| >= 2 && s[1] == '"' then
        match QuotedRest(s[2..])
        case Some((c, rest)) => Some(("\"" + c, rest))
        case None => None
      else Some(([], s[1..]))
    else
      match QuotedRest(s[1..])
      case Some((c, rest)) => Some(([s[0]] + c, rest))
      case None => None
  }

  /** An unquoted field: everything up to a comma, a carriage return or the
      end. */
  function PlainField(s: string): (r: (string, string))
    ensures |r.1| <= |s|
  {
    if s == [] || s[0] == ',' || s[0] == '\r' then ([], s)
    else
      var (c, rest) := PlainField(s[1..]);
      ([s[0]] + c, rest)
  }

  function Field(s: string): (r: Option<(string, string)>)
    ensures r.Some? ==> |r.value.1| <= |s|
  {
    if s != [] && s[0] == '"' then QuotedRest(s[1..]) else Some(PlainField(s))
  }

  /** One record: its fields and the text after its line break. */
  function Record(s: string): (r: Option<(seq<string>, string)>)
    ensures r.Some? ==> |r.value.1| <= |s| && (s != [] ==> |r.value.1| < |s|)
    decreases |s|
  {
    match Field(s)
    case None => None
    case Some((f, rest)) =>
      if rest == [] then Some(([f], []))
      else if rest[0] == ',' then
        match Record(rest[1..])
        case Some((fs, after)) => Some(([f] + fs, after))
        case None => None
      else if |rest| >= 2 && rest[0] == '\r' && rest[1] == '\n' then Some(([f], rest[2..]))
      else None
  }

  /** All records of a CSV text. */
  function ReadCsv(s: string): Option<seq<seq<string>>>
    decreases |s|
  {
    if s == [] then Some([])
    else
      match Record(s)
      case None => None
      case Some((fs, after)) =>
        match ReadCsv(after)
        case Some(rs) => Some([fs] + rs)
        case None => None
  }

  /** What may follow a field: nothing, a comma or a line break. */
  predicate FieldEnd(rest: string) {
    rest == [] || rest[0] == ',' || rest[0] == '\r'
  }

  /** The text after a record: the end, or a line break and more. */
  function Terminator(after: Option<string>): string {
    if after.None? then "" else "\r\n" + after.value
  }

  function Remaining(after: Option<string>): string {
    if after.None? then "" else after.value
  }

  /** A quoted field with its quotes doubled reads back as the original. */
  lemma {:induction false} QuotedRoundTrip(a: string, rest: string)
    requires rest == [] || rest[0] != '"'
    ensures QuotedRest(DoubleQuotes(a) + "\"" + rest) == Some((a, rest))
    decreases |a|
  {
    var s := DoubleQuotes(a) + "\"" + rest;
    if a == [] {
      assert s == "\"" + rest;
      assert s[1..] == rest;
    } else {
      QuotedRoundTrip(a[1..], rest);
      var tail := DoubleQuotes(a[1..]) + "\"" + rest;
      if a[0] == '"' {
        assert s == "\"\"" + tail;
        assert s[2..] == tail;
      } else {
        assert s == [a[0]] + tail;
        assert s[1..] == tail;
      }
      assert [a[0]] + a[1..] == a;
    }
  }

  lemma {:induction false} PlainRoundTrip(a: string, rest: string)
    requires Plain(a) && FieldEnd(rest)
    ensures PlainField(a + rest) == (a, rest)
    decreases |a|
  {
    if a == [] {
      assert a + rest == rest;
    } else {
      assert (a + rest)[1..] == a[1..] + rest;
      PlainRoundTrip(a[1..], rest);
      assert [a[0]] + a[1..] == a;
    }
  }

  lemma FieldOfPlain(a: string, rest: string)
    requires Plain(a) && FieldEnd(rest)
    ensures Field(a + rest) == Some((a, rest))
  {
    PlainRoundTrip(a, rest);
    if a == [] {
      assert a + rest == rest;
    }
  }

  /** A name the reader gets back: one with a comma (quoted), or a plain
      one. */
  predicate SafeName(app: string) {
    ',' in app || Plain(app)
  }

  lemma FieldOfQuoted(q: string)
    ensures Field("\"" + q) == QuotedRest(q)
  {
    assert ("\"" + q)[1..] == q;
  }

  /** The application field reads back as the application name. */
  lemma FieldOfApp(app: string, rest: string)
    requires SafeName(app) && FieldEnd(rest)
    ensures Field(EscapeApp(app) + rest) == Some((app, rest))
  {
    if ',' in app {
      var q := DoubleQuotes(app) + "\"" + rest;
      assert EscapeApp(app) + rest == "\"" + q;
      FieldOfQuoted(q);
      QuotedRoundTrip(app, rest);
    } else {
      FieldOfPlain(app, rest);
    }
  }

  /** A field that ends at a comma, followed by the rest of the record. */
  lemma FieldThenRecord(s: string, f: string, tail: string)
    requires Field(s + ("," + tail)) == Some((f, "," + tail))
    ensures Record(s + ("," + tail)) ==
      if Record(tail).Some? then Some(([f] + Record(tail).value.0, Record(tail).value.1)) else None
  {
    assert ("," + tail)[1..] == tail;
  }

  /** A last field, followed by the end of the text or a line break. */
  lemma LastField(z: string, after: Option<string>)
    requires Plain(z)
    ensures Record(z + Terminator(after)) == Some(([z], Remaining(after)))
  {
    var term := Terminator(after);
    FieldOfPlain(z, term);
    if after.Some? {
      assert term[2..] == after.value;
    }
  }

  /** A line whose first field reads back as `x` and whose other two are
      plain reads back as the three fields. */
  lemma ThreeFields(e: string, x: string, y: string, z: string, after: Option<string>)
    requires Plain(y) && Plain(z)
    requires Field(e + ("," + (y + ("," + (z + Terminator(after)))))) == Some((x, "," + (y + ("," + (z + Terminator(after))))))
    ensures Record(e + ("," + (y + ("," + (z + Terminator(after)))))) == Some(([x, y, z], Remaining(after)))
  {
    var zt := z + Terminator(after);
    LastField(z, after);
    FieldOfPlain(y, "," + zt);
    FieldThenRecord(y, y, zt);
    FieldThenRecord(e, x, y + ("," + zt));
    assert [x] + ([y] + [z]) == [x, y, z];
  }

  lemma LineShape(x: string, y: string, z: string, t: string)
    ensures x + "," + y + "," + z + t == x + ("," + (y + ("," + (z + t))))
  {
  }

  /** A line of a name and two plain fields reads back as the three. */
  lemma RecordOfFields(app: string, m: string, sh: string, after: Option<string>)
    requires SafeName(app) && Plain(m) && Plain(sh)
    ensures Record(EscapeApp(app) + "," + m + "," + sh + Terminator(after)) == Some(([app, m, sh], Remaining(after)))
  {
    var e := EscapeApp(app);
    var rest := "," + (m + ("," + (sh + Terminator(after))));
    FieldOfApp(app, rest);
    ThreeFields(e, app, m, sh, after);
    LineShape(e, m, sh, Terminator(after));
  }

  lemma RecordOfLine(row: Row, total: int, after: Option<string>)
    requires SafeName(row.app)
    ensures Record(CsvLine(row, total) + Terminator(after)) ==
      Some(([row.app, MinutesField(row.duration), ShareField(row.duration, total)], Remaining(after)))
  {
    FixedTextPlain(row.duration, 60000);
    if total != 0 {
      FixedTextPlain(row.duration * 100, total);
    }
    RecordOfFields(row.app, MinutesField(row.duration), ShareField(row.duration, total), after);
  }

  /** The header line reads back as the three column names. */
  lemma HeaderRecord(after: Option<string>)
    ensures Record(Header + Terminator(after)) == Some((HeaderFields, Remaining(after)))
  {
    var x, y, z := "Application", "Duration (minutes)", "Share (%)";
    var rest := "," + (y + ("," + (z + Terminator(after))));
    assert Plain(x) && Plain(y) && Plain(z);
    FieldOfPlain(x, rest);
    ThreeFields(x, x, y, z, after);
    LineShape(x, y, z, Terminator(after));
  }

  /** A text that starts with a record reads as that record, then the
      records of the rest. */
  lemma ReadCsvCons(s: string, fs: seq<string>, after: string)
    requires s != [] && Record(s) == Some((fs, after))
    ensures ReadCsv(s) == if ReadCsv(after).Some? then Some([fs] + ReadCsv(after).value) else None
  {
  }

  /** Lines that each read back as a record, whatever follows them, read
      back joined as those records. */
  lemma {:induction false} LinesReadBack(lines: seq<string>, recs: seq<seq<string>>)
    requires |lines| == |recs| > 0
    requires forall i :: 0 <= i < |lines| ==> lines[i] != []
    requires forall i, after :: 0 <= i < |lines| ==>
      Record(lines[i] + Terminator(after)) == Some((recs[i], Remaining(after)))
    ensures ReadCsv(JoinCrlf(lines)) == Some(recs)
    decreases |lines|
  {
    var after: Option<string> := if |lines| == 1 then None else Some(JoinCrlf(lines[1..]));
    assert Record(lines[0] + Terminator(after)) == Some((recs[0], Remaining(after)));
    assert JoinCrlf(lines) == lines[0] + Terminator(after);
    ReadCsvCons(lines[0] + Terminator(after), recs[0], Remaining(after));
    if |lines| == 1 {
      assert Remaining(after) == [];
      assert ReadCsv(Remaining(after)) == Some([]);
      assert [recs[0]] + [] == recs;
    } else {
      LinesReadBack(lines[1..], recs[1..]);
      assert recs == [recs[0]] + recs[1..];
    }
  }

  /** The exported text reads back, in the manner of RFC 4180, as the
      header and then, row by row, the application name, the minutes and
      the share, provided each name has a comma or is plain. */
  lemma CsvReadsBack(rows: seq<Row>, total: int)
    requires forall i :: 0 <= i < |rows| ==> SafeName(rows[i].app)
    ensures ReadCsv(FormatCsv(rows, total)) == Some([HeaderFields] + RowFields(rows, total))
  {
    var lines := [Header] + CsvLines(rows, total);
    var recs := [HeaderFields] + RowFields(rows, total);
    assert FormatCsv(rows, total) == JoinCrlf(lines);
    forall i, after | 0 <= i < |lines|
      ensures Record(lines[i] + Terminator(after)) == Some((recs[i], Remaining(after)))
    {
      if i == 0 {
        HeaderRecord(after);
      } else {
        RecordOfLine(rows[i - 1], total, after);
      }
    }
    forall i | 0 <= i < |lines| ensures lines[i] != [] {
      if i > 0 {
        assert lines[i] == CsvLine(rows[i - 1], total);
      }
    }
    LinesReadBack(lines, recs);
  }

  /** Each data record has the name, and minutes and share that read back
      as the rounded hundredths of `duration / 60000` and of
      `duration / total * 100`. */
  lemma CsvFieldValues(row: Row, total: int)
    ensures ParseFixed(MinutesField(row.duration)) == Some(SignedHundredths(row.duration, 60000))
    ensures total != 0 ==>
      ParseFixed(ShareField(row.duration, total)) == Some(SignedHundredths(row.duration * 100, total))
  {
    FixedTextParses(row.duration, 60000);
    if total != 0 {
      FixedTextParses(row.duration * 100, total);
    }
  }

  // ---------------------------------------------------------------------
  // Sorting by a column
  // ---------------------------------------------------------------------

  datatype SortKey = ByApp | ByDuration | ByShare
  datatype Direction = Asc | Desc
  datatype SortState = SortState(key: SortKey, direction: Direction)

  /** The view opens sorted by duration, descending. */
  const InitialSort: SortState := SortState(ByDuration, Desc)

  /** `handleSort(key)`: the same column again flips the direction; a new
      column starts ascending for the name and descending otherwise. */
  function HandleSort(prev: SortState, key: SortKey): (next: SortState)
    ensures next.key == key
    ensures prev.key == key ==> next.direction != prev.direction
    ensures prev.key != key ==> next.direction == if key == ByApp then Asc else Desc
  {
    if prev.key == key then SortState(key, if prev.direction == Asc then Desc else Asc)
    else SortState(key, if key == ByApp then Asc else Desc)
  }

  /** Clicking a column twice restores the sort exactly when it was the
      current column. */
  lemma HandleSortTwice(s: SortState, key: SortKey)
    ensures HandleSort(HandleSort(s, key), key) == s <==> s.key == key
  {
  }

  /** `localeCompare` as the model sees it: a comparison whose sign is
      antisymmetric and whose "not after" is transitive. */
  ghost predicate Collation(cmp: (string, string) -> int) {
    (forall a, b :: cmp(a, b) <= 0 <==> cmp(b, a) >= 0) &&
    (forall a, b, c :: cmp(a, b) <= 0 && cmp(b, c) <= 0 ==> cmp(a, c) <= 0)
  }

  /** The comparator of `sortedUsage`: the column's difference, negated
      for a descending sort (`modifier`). The share column compares
      `duration * total`, whose differences have the sign of the share
      differences `duration / total`; with a zero total every share is 0. */
  function Compare(sort: SortState, total: int, cmp: (string, string) -> int, a: Row, b: Row): (c: int)
    ensures sort.key == ByApp ==> c == if sort.direction == Asc then cmp(a.app, b.app) else -cmp(a.app, b.app)
    ensures sort.key == ByDuration ==> (c == 0 <==> a.duration == b.duration)
    ensures sort.key == ByDuration ==> (c < 0 <==> if sort.direction == Asc then a.duration < b.duration else a.duration > b.duration)
    ensures sort.key == ByShare ==> (c == 0 <==> total == 0 || a.duration == b.duration)
    ensures sort.key == ByShare && total > 0 ==>
      (c < 0 <==> if sort.direction == Asc then a.duration < b.duration else a.duration > b.duration)
  {
    ShareDifferenceSign(a.duration, b.duration, total);
    var diff :=
      match sort.key
      case ByApp => cmp(a.app, b.app)
      case ByDuration => a.duration - b.duration
      case ByShare => if total == 0 then 0 else a.duration * total - b.duration * total;
    if sort.direction == Asc then diff else -diff
  }

  /** Scaling both durations by the total keeps their order when the total
      is positive, and ties them only when they are equal. */
  lemma ShareDifferenceSign(x: int, y: int, total: int)
    ensures total != 0 ==> (x * total - y * total == 0 <==> x == y)
    ensures total > 0 ==> (x * total - y * total < 0 <==> x < y)
  {
    assert x * total - y * total == (x - y) * total;
    if total != 0 && x != y {
      assert (x - y) * total != 0;
    }
    if total > 0 {
      if x < y {
        assert (x - y) * total < 0;
      } else {
        assert (x - y) * total >= 0;
      }
    }
  }

  /** `a` may precede `b` in the sorted copy. */
  function UsageOrder(sort: SortState, total: int, cmp: (string, string) -> int): (Row, Row) -> bool {
    (a: Row, b: Row) => Compare(sort, total, cmp, a, b) <= 0
  }

  /** Every column and direction gives a consistent comparator, so the
      sort is well defined. */
  lemma UsageOrderPreorder(sort: SortState, total: int, cmp: (string, string) -> int)
    requires Collation(cmp)
    ensures TotalPreorder(UsageOrder(sort, total, cmp))
  {
    var le := UsageOrder(sort, total, cmp);
    forall a: Row, b: Row ensures le(a, b) || le(b, a) {
      if sort.key == ByApp {
        assert cmp(a.app, b.app) <= 0 <==> cmp(b.app, a.app) >= 0;
      }
    }
    forall a: Row, b: Row, c: Row | le(a, b) && le(b, c) ensures le(a, c) {
      if sort.key == ByApp {
        var x, y, z := a.app, b.app, c.app;
        if sort.direction == Desc {
          assert cmp(y, x) <= 0 && cmp(z, y) <= 0;
          assert cmp(z, x) <= 0;
          assert cmp(x, z) >= 0;
        }
      }
    }
  }

  /** The initial sort ranks exactly as the loaded rows already are. */
  lemma InitialOrderIsRanking(usage: seq<Row>, total: int, cmp: (string, string) -> int)
    ensures Sorted(usage, UsageOrder(InitialSort, total, cmp)) <==> Sorted(usage, ByDurationDesc)
  {
  }

  /** `sortedUsage`: sorts a copy of the rows in place by the current
      column. The result holds the same rows with the same total, in the
      column's order, and rows already in that order keep their places. */
  method SortedUsage(usage: seq<Row>, sort: SortState, total: int, cmp: (string, string) -> int)
    returns (sorted: seq<Row>)
    requires Collation(cmp)
    ensures multiset(sorted) == multiset(usage)
    ensures Sorted(sorted, UsageOrder(sort, total, cmp))
    ensures Sorted(usage, UsageOrder(sort, total, cmp)) ==> sorted == usage
    ensures TotalDuration(sorted) == TotalDuration(usage)
  {
    var copy := new Row[|usage|](i requires 0 <= i < |usage| => usage[i]);
    assert copy[..] == usage;
    UsageOrderPreorder(sort, total, cmp);
    SortInPlace(copy, UsageOrder(sort, total, cmp));
    sorted := copy[..];
    SumByPermutation(usage, sorted, RowDuration);
  }

  // ---------------------------------------------------------------------
  // Export and copy
  // ---------------------------------------------------------------------

  /** `handleExportCsv` and `handleCopy`: nothing for an empty table,
      otherwise the CSV of the sorted rows. */
  function ExportText(sorted: seq<Row>, total: int): (csv: Option<string>)
    ensures csv.None? <==> sorted == []
  {
    if |sorted| == 0 then None else Some(FormatCsv(sorted, total))
  }

  /** What the view exports reads back as the header and one record per
      sorted row, in the sorted order. */
  lemma ExportReadsBack(sorted: seq<Row>, total: int)
    requires sorted != []
    requires forall i :: 0 <= i < |sorted| ==> SafeName(sorted[i].app)
    ensures ReadCsv(ExportText(sorted, total).value) == Some([HeaderFields] + RowFields(sorted, total))
    ensures |ReadCsv(ExportText(sorted, total).value).value| == |sorted| + 1
  {
    CsvReadsBack(sorted, total);
  }
}
