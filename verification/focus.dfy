/** The Focus view's helpers: reading the stored productivity tags,
    cleaning the summary rows it receives, formatting durations, cleaning
    window titles, the per-title breakdown of one application's records,
    and the two reducers over the ranked rows (tag auto-fill and the
    productivity totals). Values that arrive as `unknown` are modelled by
    the shapes the checks in the code can tell apart. */
module Focus {
  import opened Wrappers
  import opened Text
  import opened Sorting
  import opened Usage
  import opened Grouping
  import opened AppUsageIpc

  // ---------------------------------------------------------------------
  // Productivity tags
  // ---------------------------------------------------------------------

  datatype Tag = Productive | Unproductive | Neutral

  /** The string a tag is stored as. */
  function TagText(t: Tag): string {
    match t
    case Productive => "productive"
    case Unproductive => "unproductive"
    case Neutral => "neutral"
  }

  /** A stored value read back as a tag: a value that is not one of the
      three tag strings, or not a string at all (`None`), reads as
      `Neutral`. */
  function ParseTag(v: Option<string>): (t: Tag)
    ensures v.Some? && v.value == "productive" ==> t == Productive
    ensures v.Some? && v.value == "unproductive" ==> t == Unproductive
    ensures !(v.Some? && v.value in {"productive", "unproductive"}) ==> t == Neutral
  {
    if v == Some("productive") then Productive
    else if v == Some("unproductive") then Unproductive
    else Neutral
  }

  /** What `loadStoredTags` finds: no browser window, no stored item
      (`getItem` gives `null`), or the stored text together with the
      `Object.entries` view of its `JSON.parse` reading. That view is `None`
      when parsing or `Object.entries` throws (bad JSON, `null`). Otherwise
      it maps each own key to its value, `None` for a value that is not a
      string: an object gives its properties, an array or a string its
      indices (`"\"ab\""` gives `"0"` and `"1"`), a number or boolean
      nothing. */
  datatype Stored =
    | NoWindow
    | Absent
    | Item(text: string, parsed: Option<map<string, Option<string>>>)

  /** A stored item that yields entries: present, non-empty, and an object. */
  predicate Readable(s: Stored) {
    s.Item? && s.text != [] && s.parsed.Some?
  }

  /** `loadStoredTags()`: the stored object with every value that is not a
      tag replaced by `"neutral"`; an empty map when there is nothing
      readable. */
  function LoadStoredTags(s: Stored): (tags: map<string, Tag>)
    ensures !Readable(s) ==> tags == map[]
    ensures Readable(s) ==> tags.Keys == s.parsed.value.Keys
    ensures Readable(s) ==> forall a :: a in tags ==> tags[a] == ParseTag(s.parsed.value[a])
  {
    if !Readable(s) then map[]
    else map a | a in s.parsed.value :: ParseTag(s.parsed.value[a])
  }

  /** The object the `localStorage.setItem` effect saves for `tags`. */
  function Saved(tags: map<string, Tag>): map<string, Option<string>> {
    map a | a in tags :: Some(TagText(tags[a]))
  }

  /** Every tag reads back as itself. */
  lemma ParseTagText(t: Tag)
    ensures ParseTag(Some(TagText(t))) == t
  {
  }

  /** Saving the tags and loading them again gives the same tags: the
      stored text (`JSON.stringify` of an object) is never empty. */
  lemma SavedTagsReload(tags: map<string, Tag>, text: string)
    requires text != []
    ensures LoadStoredTags(Item(text, Some(Saved(tags)))) == tags
  {
    var loaded := LoadStoredTags(Item(text, Some(Saved(tags))));
    forall a | a in tags ensures loaded[a] == tags[a] {
      ParseTagText(tags[a]);
    }
  }

  // ---------------------------------------------------------------------
  // Summary rows
  // ---------------------------------------------------------------------

  /** One element of the summary array as the view receives it: `app` is
      `None` when it is not a string, `duration` is `None` when it is not
      a finite number after `Number(...)`. */
  datatype RawRow = RawRow(app: Option<string>, duration: Option<int>)

  /** The application shown for a name: a string that is not blank after
      `trim`, else `"Unknown"`. */
  function AppName(app: Option<string>): (name: string)
    ensures !IsBlank(name)
    ensures app.Some? && !IsBlank(app.value) ==> name == app.value
  {
    if app.Some? && !IsBlank(app.value) then app.value
    else assert !IsSpace("Unknown"[0]); "Unknown"
  }

  /** `Number.isFinite(d) ? Math.max(d, 0) : 0`. */
  function Clamp(d: Option<int>): (c: nat)
    ensures d.Some? && d.value >= 0 ==> c == d.value
    ensures d.None? || d.value <= 0 ==> c == 0
  {
    if d.Some? && d.value > 0 then d.value else 0
  }

  function RawDuration(r: RawRow): int {
    Clamp(r.duration)
  }

  function SanitizeRow(r: RawRow): Row {
    Row(AppName(r.app), Clamp(r.duration))
  }

  /** A row as the view shows it: a non-blank name and a positive time. */
  predicate Shown(r: Row) {
    !IsBlank(r.app) && r.duration > 0
  }

  /** The `map` then `filter` of `sanitizeRows` on an array. */
  function SanitizeAll(rows: seq<RawRow>): (r: seq<Row>)
    ensures |r| <= |rows|
  {
    if rows == [] then []
    else
      var last := rows[|rows| - 1];
      SanitizeAll(rows[..|rows| - 1]) + (if Clamp(last.duration) > 0 then [SanitizeRow(last)] else [])
  }

  /** `sanitizeRows(rows)`, with `None` for a value that is not an array. */
  function SanitizeRows(data: Option<seq<RawRow>>): (r: seq<Row>)
    ensures data.None? ==> r == []
    ensures forall i :: 0 <= i < |r| ==> Shown(r[i])
  {
    if data.None? then [] else SanitizeAllShown(data.value); SanitizeAll(data.value)
  }

  lemma {:induction false} SanitizeAllShown(rows: seq<RawRow>)
    ensures forall i :: 0 <= i < |SanitizeAll(rows)| ==> Shown(SanitizeAll(rows)[i])
  {
    if rows != [] {
      SanitizeAllShown(rows[..|rows| - 1]);
    }
  }

  /** Cleaning works element by element: it keeps the input's order. */
  lemma {:induction false} SanitizeAllConcat(a: seq<RawRow>, b: seq<RawRow>)
    ensures SanitizeAll(a + b) == SanitizeAll(a) + SanitizeAll(b)
  {
    if b == [] {
      assert a + b == a;
    } else {
      var ab := a + b;
      var init := b[..|b| - 1];
      var last := b[|b| - 1];
      var kept := if Clamp(last.duration) > 0 then [SanitizeRow(last)] else [];
      assert ab[..|ab| - 1] == a + init;
      assert SanitizeAll(ab) == SanitizeAll(a + init) + kept;
      SanitizeAllConcat(a, init);
    }
  }

  /** Element `r` is kept, as `x`. */
  predicate KeptAs(r: RawRow, x: Row) {
    Clamp(r.duration) > 0 && SanitizeRow(r) == x
  }

  /** A row is kept exactly when it is the cleaned form of an element with
      a positive clamped duration. */
  lemma {:induction false} SanitizeAllMembers(rows: seq<RawRow>, x: Row)
    ensures x in SanitizeAll(rows) <==> exists i :: 0 <= i < |rows| && KeptAs(rows[i], x)
  {
    if rows != [] {
      var init := rows[..|rows| - 1];
      var last := rows[|rows| - 1];
      var kept := if Clamp(last.duration) > 0 then [SanitizeRow(last)] else [];
      SanitizeAllMembers(init, x);
      assert SanitizeAll(rows) == SanitizeAll(init) + kept;
      assert x in kept <==> KeptAs(last, x);
      if exists i :: 0 <= i < |init| && KeptAs(init[i], x) {
        var i :| 0 <= i < |init| && KeptAs(init[i], x);
        assert rows[i] == init[i];
      }
      if exists i :: 0 <= i < |rows| && KeptAs(rows[i], x) {
        var i :| 0 <= i < |rows| && KeptAs(rows[i], x);
        if i < |init| {
          assert init[i] == rows[i];
        }
      }
    }
  }

  /** Dropping the rows of zero time loses no time. */
  lemma {:induction false} SanitizeAllSum(rows: seq<RawRow>)
    ensures SumBy(SanitizeAll(rows), RowDuration) == SumBy(rows, RawDuration)
  {
    if rows != [] {
      var init := rows[..|rows| - 1];
      var last := rows[|rows| - 1];
      SanitizeAllSum(init);
      var kept := if Clamp(last.duration) > 0 then [SanitizeRow(last)] else [];
      SumByConcat(SanitizeAll(init), kept, RowDuration);
      assert [SanitizeRow(last)][..0] == [];
    }
  }

  /** A shown row sent back as raw data. */
  function Unclean(r: Row): RawRow {
    RawRow(Some(r.app), Some(r.duration))
  }

  function UncleanAll(rows: seq<Row>): (r: seq<RawRow>)
    ensures |r| == |rows|
  {
    if rows == [] then [] else UncleanAll(rows[..|rows| - 1]) + [Unclean(rows[|rows| - 1])]
  }

  /** Cleaning rows that are already clean changes nothing. */
  lemma {:induction false} SanitizeRowsIdempotent(rows: seq<Row>)
    requires forall i :: 0 <= i < |rows| ==> Shown(rows[i])
    ensures SanitizeRows(Some(UncleanAll(rows))) == rows
  {
    if rows != [] {
      var init := rows[..|rows| - 1];
      SanitizeRowsIdempotent(init);
      var raw := UncleanAll(rows);
      assert raw[..|raw| - 1] == UncleanAll(init);
      var last := rows[|rows| - 1];
    }
  }

  // ---------------------------------------------------------------------
  // Durations as text
  // ---------------------------------------------------------------------

  /** JavaScript's `a % b` for a positive `b`: the remainder takes the sign
      of `a`. */
  function JsRem(a: int, b: int): (r: int)
    requires b > 0
    ensures a >= 0 ==> 0 <= r < b
    ensures a < 0 ==> -b < r <= 0
  {
    if a >= 0 then a % b else -((-a) % b)
  }

  /** The text for a whole number of minutes. */
  function MinutesText(totalMinutes: int): (r: string)
    ensures |r| >= 2 && r[|r| - 1] == 'm'
    ensures IndexOf(r, "h ").Some? <==> !(0 <= totalMinutes < 60)
  {
    var hours := totalMinutes / 60;
    var minutes := JsRem(totalMinutes, 60);
    IntTextHasNoHourLetter(minutes);
    IntTextHasNoHourLetter(hours);
    if hours == 0 then
      var r := IntText(minutes) + "m";
      HourMarkAbsent(r);
      r
    else
      var rest := PadStart(IntText(minutes), 2, '0') + "m";
      IndexOfAfter(IntText(hours), "h ", rest);
      IntText(hours) + "h " + rest
  }

  /** `formatDuration(ms)`: whole minutes, as `"{m}m"` below an hour and as
      `"{h}h {mm}m"` from an hour on. `Math.floor` of a quotient by a
      positive number is Dafny's `/`. */
  function FormatDuration(ms: int): (r: string)
    ensures |r| >= 2 && r[|r| - 1] == 'm'
    ensures IndexOf(r, "h ").Some? <==> !(0 <= ms < 3600000)
  {
    MinutesText(ms / 60000)
  }

  /** Reads a text `FormatDuration` writes back as a count of minutes. */
  function ParseDuration(text: string): Option<int> {
    if |text| < 2 || text[|text| - 1] != 'm' then None
    else ParseMinutes(text[..|text| - 1])
  }

  /** Reads `"{m}"` or `"{h}h {mm}"`. */
  function ParseMinutes(body: string): Option<int> {
    match IndexOf(body, "h ")
    case None => if ParseNat(body).Some? then Some(ParseNat(body).value) else None
    case Some(k) => ParseHoursMinutes(body[..k], body[k + 2..])
  }

  function ParseHoursMinutes(hs: string, ms: string): Option<int> {
    if ParseNat(hs).Some? && ParseNat(ms).Some? then Some(ParseNat(hs).value * 60 + ParseNat(ms).value)
    else None
  }

  /** A text without the letter `h` has no hour mark. */
  lemma HourMarkAbsent(s: string)
    requires 'h' !in s
    ensures IndexOf(s, "h ") == None
  {
    forall k: nat ensures !OccursAt(s, "h ", k) {
      if k + 2 <= |s| {
        assert s[k..k + 2][0] == s[k];
      }
    }
  }

  /** An integer's text is a sign and digits, so it holds no `h`. */
  lemma IntTextHasNoHourLetter(i: int)
    ensures 'h' !in IntText(i)
  {
    var d := Decimal(if i < 0 then -i else i);
    assert forall k :: 0 <= k < |d| ==> IsDigit(d[k]);
    assert IntText(i) == d || IntText(i) == "-" + d;
  }

  lemma MinutesOnlyRoundTrip(m: nat)
    ensures ParseDuration(Decimal(m) + "m") == Some(m)
  {
    var text := Decimal(m) + "m";
    assert text[..|text| - 1] == Decimal(m);
    IntTextHasNoHourLetter(m);
    HourMarkAbsent(Decimal(m));
    ParseDecimal(m);
  }

  lemma HoursBodyParse(hs: string, mm: string)
    requires hs != [] && AllDigits(hs) && mm != [] && AllDigits(mm)
    ensures ParseMinutes(hs + "h " + mm) == Some(DigitsValue(hs) * 60 + DigitsValue(mm))
  {
    var body := hs + "h " + mm;
    forall i | 0 <= i < |hs| ensures hs[i] != 'h' {
      assert IsDigit(hs[i]);
    }
    IndexOfAfter(hs, "h ", mm);
    assert IndexOf(body, "h ") == Some(|hs|);
    assert body[..|hs|] == hs;
    assert body[|hs| + 2..] == mm;
    assert ParseMinutes(body) == ParseHoursMinutes(hs, mm);
  }

  lemma HoursBodyRoundTrip(h: nat, m: nat)
    requires m < 100
    ensures ParseMinutes(Decimal(h) + "h " + PadStart(Decimal(m), 2, '0')) == Some(h * 60 + m)
  {
    var hs := Decimal(h);
    var mm := PadStart(Decimal(m), 2, '0');
    assert mm != [] && AllDigits(mm) && DigitsValue(mm) == m by {
      assert Pow10(2) == 100;
      PaddedDecimal(m, 2);
    }
    DecimalValue(h);
    HoursBodyParse(hs, mm);
  }

  /** The final `m` is stripped before the body is read. */
  lemma ParseDurationBody(body: string)
    ensures ParseDuration(body + "m") == ParseMinutes(body)
  {
    assert (body + "m")[..|body|] == body;
  }

  lemma HoursRoundTrip(h: nat, m: nat)
    requires m < 100
    ensures ParseDuration(Decimal(h) + "h " + PadStart(Decimal(m), 2, '0') + "m") == Some(h * 60 + m)
  {
    HoursBodyRoundTrip(h, m);
    ParseDurationBody(Decimal(h) + "h " + PadStart(Decimal(m), 2, '0'));
  }

  /** The two shapes of a non-negative number of minutes' text. */
  lemma MinutesTextShape(t: nat)
    ensures t < 60 ==> MinutesText(t) == Decimal(t) + "m"
    ensures t >= 60 ==> MinutesText(t) == Decimal(t / 60) + "h " + PadStart(Decimal(t % 60), 2, '0') + "m"
  {
    assert JsRem(t, 60) == t % 60;
    assert IntText(t % 60) == Decimal(t % 60) && IntText(t / 60) == Decimal(t / 60);
  }

  /** The text of a non-negative number of minutes reads back as it. */
  lemma MinutesTextRoundTrip(t: nat)
    ensures ParseDuration(MinutesText(t)) == Some(t)
  {
    MinutesTextShape(t);
    if t < 60 {
      MinutesOnlyRoundTrip(t);
    } else {
      assert t == t / 60 * 60 + t % 60;
      HoursRoundTrip(t / 60, t % 60);
    }
  }

  /** A duration's text names its whole minutes: for a non-negative
      duration, reading the text back gives `floor(ms / 60000)`. */
  lemma FormatDurationRoundTrip(ms: int)
    requires ms >= 0
    ensures ParseDuration(FormatDuration(ms)) == Some(ms / 60000)
  {
    MinutesTextRoundTrip(ms / 60000);
  }

  // ---------------------------------------------------------------------
  // Window titles
  // ---------------------------------------------------------------------

  /** The ending `sanitizeTitleForApp` strips: `" - {app}"`. */
  function AppSuffix(app: string): (suffix: string)
    ensures |suffix| >= 3 && IsSpace(suffix[0])
  {
    " - " + app
  }

  /** Strips `suffix` from the end of `cleaned` and trims, as long as
      `cleaned` ends with it. */
  function StripSuffixes(cleaned: string, suffix: string): (r: string)
    requires suffix != [] && IsSpace(suffix[0])
    decreases |cleaned|
    ensures !EndsWith(r, suffix)
    ensures Trimmed(cleaned) && cleaned != [] ==> Trimmed(r) && r != []
  {
    if EndsWith(cleaned, suffix) then
      var prefix := cleaned[..|cleaned| - |suffix|];
      assert Trimmed(cleaned) && cleaned != [] ==> prefix != [] && !IsBlank(prefix) by {
        if Trimmed(cleaned) && cleaned != [] {
          assert cleaned[|cleaned| - |suffix|] == suffix[0];
          assert prefix[0] == cleaned[0];
        }
      }
      StripSuffixes(Trim(prefix), suffix)
    else cleaned
  }

  /** `sanitizeTitleForApp(title, app)`, with `None` for a title that is
      not a string. */
  function TitleFor(title: Option<string>, app: string): string {
    if title.None? || Trim(title.value) == [] then "Unknown"
    else
      var cleaned := StripSuffixes(Trim(title.value), AppSuffix(app));
      if |cleaned| > 0 then cleaned else app
  }

  /** The method form of `sanitizeTitleForApp`, with its loop. */
  method SanitizeTitleForApp(title: Option<string>, app: string) returns (r: string)
    ensures r == TitleFor(title, app)
  {
    if title.None? || Trim(title.value) == [] {
      return "Unknown";
    }
    var cleaned := Trim(title.value);
    var suffix := " - " + app;
    while EndsWith(cleaned, suffix)
      invariant StripSuffixes(cleaned, suffix) == StripSuffixes(Trim(title.value), suffix)
      decreases |cleaned|
    {
      cleaned := Trim(cleaned[..|cleaned| - |suffix|]);
    }
    r := if |cleaned| > 0 then cleaned else app;
  }

  /** A cleaned title is `"Unknown"` for a missing or blank title, and
      otherwise non-empty, trimmed and free of the application's suffix.
      So the closing fallback to `app` is never taken: a trimmed,
      non-empty title stays non-empty however often the suffix is
      stripped, since the suffix starts with a space. */
  lemma TitleForClean(title: Option<string>, app: string)
    ensures TitleFor(title, app) != [] && Trimmed(TitleFor(title, app))
    ensures !EndsWith(TitleFor(title, app), AppSuffix(app))
    ensures title.None? || IsBlank(title.value) ==> TitleFor(title, app) == "Unknown"
  {
  }

  /** Cleaning a cleaned title changes nothing. */
  lemma TitleForIdempotent(title: Option<string>, app: string)
    ensures TitleFor(Some(TitleFor(title, app)), app) == TitleFor(title, app)
  {
    var r := TitleFor(title, app);
    TitleForClean(title, app);
    TrimTrimmed(r);
  }

  // ---------------------------------------------------------------------
  // Per-title breakdown of one application
  // ---------------------------------------------------------------------

  /** One line of the breakdown: a cleaned title, its time and how many
      records it came from. */
  datatype DetailRow = DetailRow(title: string, duration: int, occurrences: int)

  function DetailTitle(r: DetailRow): string { r.title }

  function DetailDuration(r: DetailRow): int { r.duration }

  function DetailOccurrences(r: DetailRow): int { r.occurrences }

  /** `(a, b) => b.duration - a.duration`. */
  predicate DetailByDurationDesc(a: DetailRow, b: DetailRow) {
    a.duration >= b.duration
  }

  /** A record's time as the breakdown counts it, negative and unreadable
      durations counting as 0. */
  function EntryTime(e: Entry): int {
    Clamp(e.duration)
  }

  /** 1 for a record the breakdown counts, 0 for one it skips. */
  function Counted(e: Entry): int {
    if EntryTime(e) > 0 then 1 else 0
  }

  /** The title a record is grouped under, or `None` for a record the loop
      skips because its time is 0. */
  function TitleOf(app: string, e: Entry): Option<string> {
    if EntryTime(e) == 0 then None else Some(TitleFor(e.title, app))
  }

  function TitleKey(app: string): Entry -> Option<string> {
    (e: Entry) => TitleOf(app, e)
  }

  /** The row of title `t` after the records `es`, grouped by `key`. */
  function DetailOf(es: seq<Entry>, key: Entry -> Option<string>, t: string): DetailRow {
    DetailRow(t, Total(es, key, EntryTime, t), Total(es, key, One, t))
  }

  /** `Array.from(map.values())` for the titles `ts`, in that order. */
  function DetailRows(ts: seq<string>, es: seq<Entry>, key: Entry -> Option<string>): (rows: seq<DetailRow>)
    ensures |rows| == |ts|
  {
    if ts == [] then [] else DetailRows(ts[..|ts| - 1], es, key) + [DetailOf(es, key, ts[|ts| - 1])]
  }

  /** The rows `aggregateDetails` returns for an array of records. */
  function Details(es: seq<Entry>, app: string): seq<DetailRow> {
    SortBy(DetailRows(Keys(es, TitleKey(app)), es, TitleKey(app)), DetailByDurationDesc)
  }

  /** The loop's state after the records `es`: the titles in order of
      first appearance, and for each the row of its time and count. */
  ghost predicate Tallied(es: seq<Entry>, key: Entry -> Option<string>, byTitle: map<string, DetailRow>, order: seq<string>) {
    order == Keys(es, key) &&
    (forall t :: t in byTitle <==> t in order) &&
    (forall t :: t in byTitle ==> byTitle[t] == DetailOf(es, key, t))
  }

  /** `aggregateDetails(entries, app)`, with `None` for a value that is not
      an array: a `Map` from cleaned title to row, filled in record order,
      and the running total. */
  method AggregateDetails(entries: Option<seq<Entry>>, app: string) returns (rows: seq<DetailRow>, total: int)
    ensures entries.None? ==> rows == [] && total == 0
    ensures entries.Some? ==> rows == Details(entries.value, app)
    ensures entries.Some? ==> total == SumBy(entries.value, EntryTime)
  {
    if entries.None? {
      return [], 0;
    }
    var es := entries.value;
    var byTitle: map<string, DetailRow> := map[];
    var order: seq<string> := [];
    total := 0;
    var i := 0;
    while i < |es|
      invariant 0 <= i <= |es|
      invariant Tallied(es[..i], TitleKey(app), byTitle, order)
      invariant total == SumBy(es[..i], EntryTime)
    {
      var e := es[i];
      var duration := Clamp(e.duration);
      if duration != 0 {
        var title := SanitizeTitleForApp(e.title, app);
        total := total + duration;
        var existing := Current(byTitle, title);
        existing := existing.(duration := existing.duration + duration, occurrences := existing.occurrences + 1);
        DetailCount(es, i, TitleKey(app), title, existing, byTitle, order);
        byTitle := byTitle[title := existing];
        if title !in order {
          order := order + [title];
        }
      } else {
        DetailSkip(es, i, TitleKey(app), byTitle, order);
      }
      i := i + 1;
    }
    assert es[..i] == es;
    var listed := seq(|order|, j requires 0 <= j < |order| => byTitle[order[j]]);
    DetailRowsAt(order, es, TitleKey(app));
    assert listed == DetailRows(order, es, TitleKey(app));
    rows := SortBy(listed, DetailByDurationDesc);
  }

  /** A record the loop skips changes nothing. */
  lemma DetailSkip(all: seq<Entry>, i: nat, key: Entry -> Option<string>, byTitle: map<string, DetailRow>, order: seq<string>)
    requires i < |all| && Tallied(all[..i], key, byTitle, order)
    requires key(all[i]) == None && EntryTime(all[i]) == 0
    ensures Tallied(all[..i + 1], key, byTitle, order)
    ensures SumBy(all[..i + 1], EntryTime) == SumBy(all[..i], EntryTime)
  {
    var es, e := all[..i], all[i];
    assert all[..i + 1] == es + [e];
    KeysLast(es, e, key);
    forall t {
      TotalLast(es, e, key, EntryTime, t);
    }
    forall t {
      TotalLast(es, e, key, One, t);
    }
  }

  /** `map.get(title) ?? { title, duration: 0, occurrences: 0 }`. */
  function Current(byTitle: map<string, DetailRow>, title: string): DetailRow {
    if title in byTitle then byTitle[title] else DetailRow(title, 0, 0)
  }

  /** A counted record adds its time and one occurrence to its title's
      row, creating the row, at the end of the order, if the title is
      new. */
  lemma DetailCount(all: seq<Entry>, i: nat, key: Entry -> Option<string>, title: string, row: DetailRow,
                    byTitle: map<string, DetailRow>, order: seq<string>)
    requires i < |all| && Tallied(all[..i], key, byTitle, order)
    requires key(all[i]) == Some(title)
    requires row == Current(byTitle, title).(duration := Current(byTitle, title).duration + EntryTime(all[i]),
                                             occurrences := Current(byTitle, title).occurrences + 1)
    ensures Tallied(all[..i + 1], key, byTitle[title := row], if title in order then order else order + [title])
    ensures SumBy(all[..i + 1], EntryTime) == SumBy(all[..i], EntryTime) + EntryTime(all[i])
  {
    var es, e := all[..i], all[i];
    assert all[..i + 1] == es + [e];
    KeysLast(es, e, key);
    forall t {
      TotalLast(es, e, key, EntryTime, t);
    }
    forall t {
      TotalLast(es, e, key, One, t);
    }
    if title !in byTitle {
      AbsentKeyTotal(es, key, EntryTime, title);
      AbsentKeyTotal(es, key, One, title);
    }
  }

  lemma {:induction false} DetailRowsAt(ts: seq<string>, es: seq<Entry>, key: Entry -> Option<string>)
    ensures forall j :: 0 <= j < |ts| ==> DetailRows(ts, es, key)[j] == DetailOf(es, key, ts[j])
  {
    if ts != [] {
      DetailRowsAt(ts[..|ts| - 1], es, key);
    }
  }

  lemma {:induction false} DetailRowsSums(ts: seq<string>, es: seq<Entry>, key: Entry -> Option<string>)
    ensures SumBy(DetailRows(ts, es, key), DetailDuration) == KeyTotals(ts, es, key, EntryTime)
    ensures SumBy(DetailRows(ts, es, key), DetailOccurrences) == KeyTotals(ts, es, key, One)
  {
    if ts != [] {
      DetailRowsSums(ts[..|ts| - 1], es, key);
      var rows := DetailRows(ts, es, key);
      assert rows[..|rows| - 1] == DetailRows(ts[..|ts| - 1], es, key);
    }
  }

  /** Some row is about title `t`. */
  predicate ListsTitle(rows: seq<DetailRow>, t: string) {
    exists j :: 0 <= j < |rows| && rows[j].title == t
  }

  /** The breakdown's rows carry distinct titles, are ordered by time
      from the largest, and add up to the counted records' time and
      number. */
  lemma DetailsShape(es: seq<Entry>, app: string)
    ensures DistinctBy(Details(es, app), DetailTitle)
    ensures Sorted(Details(es, app), DetailByDurationDesc)
    ensures SumBy(Details(es, app), DetailDuration) == SumBy(es, EntryTime)
    ensures SumBy(Details(es, app), DetailOccurrences) == SumBy(es, Counted)
  {
    var ts := Keys(es, TitleKey(app));
    var listed := DetailRows(ts, es, TitleKey(app));
    KeysExact(es, TitleKey(app));
    DetailRowsAt(ts, es, TitleKey(app));
    forall i, j | 0 <= i < j < |listed| ensures DetailTitle(listed[i]) != DetailTitle(listed[j]) {
      assert listed[i].title == ts[i] && listed[j].title == ts[j];
    }
    DistinctByPermutation(listed, Details(es, app), DetailTitle);
    SortBySorted(listed, DetailByDurationDesc);
    SumByPermutation(listed, Details(es, app), DetailDuration);
    SumByPermutation(listed, Details(es, app), DetailOccurrences);
    DetailRowsSums(ts, es, TitleKey(app));
    GroupSum(es, TitleKey(app), EntryTime);
    GroupSum(es, TitleKey(app), One);
    KeyedSumAsSum(es, TitleKey(app), EntryTime, EntryTime);
    KeyedSumAsSum(es, TitleKey(app), One, Counted);
  }

  /** Every row's title is a cleaned title of a counted record, and every
      counted record's cleaned title has a row. */
  lemma DetailsCover(es: seq<Entry>, app: string, t: string)
    ensures ListsTitle(Details(es, app), t) <==> Mentions(es, TitleKey(app), t)
  {
    var ts := Keys(es, TitleKey(app));
    var listed := DetailRows(ts, es, TitleKey(app));
    var rows := Details(es, app);
    KeysExact(es, TitleKey(app));
    DetailRowsAt(ts, es, TitleKey(app));
    if Mentions(es, TitleKey(app), t) {
      assert t in Keys(es, TitleKey(app));
      var p :| 0 <= p < |ts| && ts[p] == t;
      assert listed[p] in multiset(rows);
      var j :| 0 <= j < |rows| && rows[j] == listed[p];
    }
    if ListsTitle(rows, t) {
      var j :| 0 <= j < |rows| && rows[j].title == t;
      assert rows[j] in multiset(listed);
      var p :| 0 <= p < |listed| && listed[p] == rows[j];
      assert ts[p] in Keys(es, TitleKey(app));
    }
  }

  /** A record the breakdown counts is grouped under a non-empty title
      that no longer ends with the application's suffix. */
  lemma GroupedTitleClean(es: seq<Entry>, app: string, t: string)
    requires Mentions(es, TitleKey(app), t)
    ensures t != [] && Trimmed(t) && !EndsWith(t, AppSuffix(app))
  {
    var i :| 0 <= i < |es| && TitleKey(app)(es[i]) == Some(t);
    assert t == TitleFor(es[i].title, app);
    TitleForClean(es[i].title, app);
  }

  // ---------------------------------------------------------------------
  // Ranked rows and their total
  // ---------------------------------------------------------------------

  /** `sortedRows`: a copy of the rows by non-increasing duration. */
  function SortedRows(rows: seq<Row>): seq<Row> {
    SortBy(rows, ByDurationDesc)
  }

  /** The ranked rows are the same rows in order of duration; `totalMs`
      and every tag total are the same whichever order they are summed in. */
  lemma SortedRowsProperties(rows: seq<Row>, tags: map<string, Tag>)
    ensures multiset(SortedRows(rows)) == multiset(rows)
    ensures Sorted(SortedRows(rows), ByDurationDesc)
    ensures SumBy(SortedRows(rows), RowDuration) == SumBy(rows, RowDuration)
    ensures forall t :: SumBy(SortedRows(rows), TagTime(tags, t)) == SumBy(rows, TagTime(tags, t))
  {
    SortBySorted(rows, ByDurationDesc);
    SumByPermutation(rows, SortedRows(rows), RowDuration);
    forall t {
      SumByPermutation(rows, SortedRows(rows), TagTime(tags, t));
    }
  }

  // ---------------------------------------------------------------------
  // Productivity totals
  // ---------------------------------------------------------------------

  /** `tags[app] ?? "neutral"`: an application without a tag is neutral. */
  function TagOf(tags: map<string, Tag>, app: string): Tag {
    if app in tags then tags[app] else Neutral
  }

  /** A row's contribution to the total of tag `t`. */
  function TagTime(tags: map<string, Tag>, t: Tag): Row -> int {
    (r: Row) => if TagOf(tags, r.app) == t then r.duration else 0
  }

  /** The `productivityTotals` reducer: each row's time is added to the
      accumulator of its application's tag. */
  method ProductivityTotals(rows: seq<Row>, tags: map<string, Tag>) returns (productive: int, unproductive: int, neutral: int)
    ensures productive == SumBy(rows, TagTime(tags, Productive))
    ensures unproductive == SumBy(rows, TagTime(tags, Unproductive))
    ensures neutral == SumBy(rows, TagTime(tags, Neutral))
  {
    productive, unproductive, neutral := 0, 0, 0;
    for i := 0 to |rows|
      invariant productive == SumBy(rows[..i], TagTime(tags, Productive))
      invariant unproductive == SumBy(rows[..i], TagTime(tags, Unproductive))
      invariant neutral == SumBy(rows[..i], TagTime(tags, Neutral))
    {
      assert rows[..i + 1][..i] == rows[..i];
      var tag := TagOf(tags, rows[i].app);
      match tag
      case Productive => productive := productive + rows[i].duration;
      case Unproductive => unproductive := unproductive + rows[i].duration;
      case Neutral => neutral := neutral + rows[i].duration;
    }
    assert rows[..|rows|] == rows;
  }

  /** The three totals split the total time: every row counts under
      exactly one tag. */
  lemma {:induction false} TagTimesAddUp(rows: seq<Row>, tags: map<string, Tag>)
    ensures SumBy(rows, TagTime(tags, Productive)) + SumBy(rows, TagTime(tags, Unproductive))
      + SumBy(rows, TagTime(tags, Neutral)) == SumBy(rows, RowDuration)
  {
    if rows != [] {
      TagTimesAddUp(rows[..|rows| - 1], tags);
    }
  }

  /** With no application tagged, all time is neutral. */
  lemma {:induction false} UntaggedIsNeutral(rows: seq<Row>, tags: map<string, Tag>)
    requires forall i :: 0 <= i < |rows| ==> rows[i].app !in tags
    ensures SumBy(rows, TagTime(tags, Neutral)) == SumBy(rows, RowDuration)
    ensures SumBy(rows, TagTime(tags, Productive)) == 0
    ensures SumBy(rows, TagTime(tags, Unproductive)) == 0
  {
    if rows != [] {
      UntaggedIsNeutral(rows[..|rows| - 1], tags);
    }
  }

  // ---------------------------------------------------------------------
  // Tag auto-fill and tag changes
  // ---------------------------------------------------------------------

  /** The applications of the rows. */
  function Apps(rows: seq<Row>): set<string> {
    set i | 0 <= i < |rows| :: rows[i].app
  }

  /** Every application of the rows has a tag. */
  predicate AllTagged(tags: map<string, Tag>, rows: seq<Row>) {
    forall i :: 0 <= i < |rows| ==> rows[i].app in tags
  }

  /** The tags with `"neutral"` added for every application of the rows
      that has none. A stored tag is a non-empty string, so the code's
      `!next[row.app]` is the absence of a tag. */
  function Filled(prev: map<string, Tag>, rows: seq<Row>): map<string, Tag> {
    map a | a in prev.Keys + Apps(rows) :: if a in prev then prev[a] else Neutral
  }

  /** The tag auto-fill effect: with no rows it does nothing; otherwise it
      copies the map, adds `"neutral"` for each untagged application and
      reports whether it added any; when it added none, the state keeps
      the previous map. */
  method AutoFillTags(prev: map<string, Tag>, rows: seq<Row>) returns (tags: map<string, Tag>, mutated: bool)
    ensures tags == Filled(prev, rows)
    ensures mutated <==> !AllTagged(prev, rows)
    ensures !mutated ==> tags == prev
  {
    if |rows| == 0 {
      assert Filled(prev, rows) == prev;
      return prev, false;
    }
    var next := prev;
    mutated := false;
    for i := 0 to |rows|
      invariant next == Filled(prev, rows[..i])
      invariant mutated <==> !AllTagged(prev, rows[..i])
    {
      FilledStep(prev, rows[..i], rows[i]);
      assert rows[..i + 1] == rows[..i] + [rows[i]];
      if rows[i].app !in next {
        next := next[rows[i].app := Neutral];
        mutated := true;
      }
    }
    assert rows[..|rows|] == rows;
    tags := if mutated then next else prev;
    if !mutated {
      AllTaggedFilled(prev, rows);
    }
  }

  lemma FilledStep(prev: map<string, Tag>, rows: seq<Row>, r: Row)
    ensures Filled(prev, rows + [r]) ==
      if r.app in Filled(prev, rows) then Filled(prev, rows) else Filled(prev, rows)[r.app := Neutral]
    ensures AllTagged(prev, rows + [r]) <==> AllTagged(prev, rows) && r.app in prev
  {
    var rs := rows + [r];
    assert Apps(rs) == Apps(rows) + {r.app} by {
      forall a | a in Apps(rs) ensures a in Apps(rows) + {r.app} {
        var i :| 0 <= i < |rs| && rs[i].app == a;
        if i < |rows| {
          assert rows[i] == rs[i];
        }
      }
      forall a | a in Apps(rows) ensures a in Apps(rs) {
        var i :| 0 <= i < |rows| && rows[i].app == a;
        assert rs[i] == rows[i];
      }
      assert rs[|rows|] == r;
    }
    if AllTagged(prev, rows) && r.app in prev {
      forall i | 0 <= i < |rs| ensures rs[i].app in prev {
        if i < |rows| {
          assert rs[i] == rows[i];
        }
      }
    }
    if AllTagged(prev, rs) {
      forall i | 0 <= i < |rows| ensures rows[i].app in prev {
        assert rs[i] == rows[i];
      }
      assert rs[|rows|] == r;
    }
  }

  /** When every application is tagged, filling changes nothing. */
  lemma AllTaggedFilled(prev: map<string, Tag>, rows: seq<Row>)
    requires AllTagged(prev, rows)
    ensures Filled(prev, rows) == prev
  {
    assert Filled(prev, rows).Keys == prev.Keys;
  }

  /** Auto-fill never changes a tag, gives every new application
      `"neutral"`, leaves every shown application tagged, and doing it
      again changes nothing. */
  lemma FilledProperties(prev: map<string, Tag>, rows: seq<Row>)
    ensures forall a :: a in prev ==> a in Filled(prev, rows) && Filled(prev, rows)[a] == prev[a]
    ensures forall a :: a in Filled(prev, rows) && a !in prev ==> Filled(prev, rows)[a] == Neutral
    ensures forall a :: a in Filled(prev, rows) ==> a in prev || a in Apps(rows)
    ensures AllTagged(Filled(prev, rows), rows)
    ensures Filled(Filled(prev, rows), rows) == Filled(prev, rows)
  {
    var next := Filled(prev, rows);
    forall i | 0 <= i < |rows| ensures rows[i].app in next {
      assert rows[i].app in Apps(rows);
    }
    AllTaggedFilled(next, rows);
  }

  /** `handleTagChange(app, tag)`: the application gets the chosen tag,
      every other tag stays. */
  function SetTag(prev: map<string, Tag>, app: string, tag: Tag): (next: map<string, Tag>)
    ensures next.Keys == prev.Keys + {app}
    ensures next[app] == tag
    ensures forall a :: a in prev && a != app ==> next[a] == prev[a]
  {
    prev[app := tag]
  }

  /** A tag the user chose survives the next auto-fill. */
  lemma ChosenTagSurvivesFill(prev: map<string, Tag>, app: string, tag: Tag, rows: seq<Row>)
    ensures Filled(SetTag(prev, app, tag), rows)[app] == tag
  {
  }
}
