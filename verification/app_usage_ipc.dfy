/** The main process's usage queries: per-application totals over a set of
    records (`aggregate`), and the three request handlers that choose which
    day files to read. The clock readings a handler takes (`now`, the UTC
    date of `now`, and the instant one calendar month before `now`) are its
    parameters. */
module AppUsageIpc {
  import opened Wrappers
  import opened Usage
  import opened Sorting
  import opened IsoDate
  import opened JsonStorage
  import opened Grouping

  /** One line of a summary: an application and its total time in ms. */
  datatype Row = Row(app: string, duration: int)

  function RowApp(r: Row): string { r.app }

  function RowDuration(r: Row): int { r.duration }

  /** `(a, b) => b.duration - a.duration`: `a` may precede `b` when its
      duration is not smaller. */
  predicate ByDurationDesc(a: Row, b: Row) {
    a.duration >= b.duration
  }

  /** The `summary` key a record adds to: its application name, unless
      `if (!e.app) continue;` skips it for lack of a non-empty name. */
  function AppKey(e: Entry): Option<string> {
    if e.app.Some? && e.app.value != "" then Some(e.app.value) else None
  }

  /** Total duration of the records of application `app`. */
  function AppTotal(es: seq<Entry>, app: string): int {
    Total(es, AppKey, EntryDuration, app)
  }

  /** `Object.entries(summary).map(...)` for the keys `keys`. */
  function Rows(keys: seq<string>, es: seq<Entry>): (rows: seq<Row>)
    ensures |rows| == |keys|
  {
    if keys == [] then []
    else Rows(keys[..|keys| - 1], es) + [Row(keys[|keys| - 1], AppTotal(es, keys[|keys| - 1]))]
  }

  /** Row `j` is the `j`-th key with its total. */
  lemma {:induction false} RowsAt(keys: seq<string>, es: seq<Entry>)
    ensures forall j :: 0 <= j < |keys| ==> Rows(keys, es)[j] == Row(keys[j], AppTotal(es, keys[j]))
  {
    if keys != [] {
      RowsAt(keys[..|keys| - 1], es);
    }
  }

  lemma {:induction false} RowsSum(keys: seq<string>, es: seq<Entry>)
    ensures SumBy(Rows(keys, es), RowDuration) == KeyTotals(keys, es, AppKey, EntryDuration)
  {
    if keys != [] {
      RowsSum(keys[..|keys| - 1], es);
      var rows := Rows(keys, es);
      assert rows[..|rows| - 1] == Rows(keys[..|keys| - 1], es);
    }
  }

  /** What `aggregate` returns. */
  function Aggregate(es: seq<Entry>): seq<Row> {
    SortBy(Rows(Keys(es, AppKey), es), ByDurationDesc)
  }

  /** `aggregate(entries)`: the loop fills `summary` and remembers the order
      in which its keys were created; then the rows are listed in that
      order and sorted. */
  method AggregateEntries(entries: seq<Entry>) returns (rows: seq<Row>)
    ensures rows == Aggregate(entries)
    ensures Sorted(rows, ByDurationDesc)
    ensures SumBy(rows, RowDuration) == KeyedSum(entries, AppKey, EntryDuration)
  {
    var summary: map<string, int> := map[];
    var keys: seq<string> := [];
    var i := 0;
    while i < |entries|
      invariant 0 <= i <= |entries|
      invariant Tallied(entries[..i], summary, keys)
    {
      var e := entries[i];
      if e.app.Some? && e.app.value != "" {
        var app := e.app.value;
        var total := (if app in summary then summary[app] else 0) + EntryDuration(e);
        TallyCount(entries, i, summary, keys, app, total);
        summary := summary[app := total];
        if app !in keys {
          keys := keys + [app];
        }
      } else {
        TallySkip(entries, i, summary, keys);
      }
      i := i + 1;
    }
    assert entries[..i] == entries;
    var listed := seq(|keys|, j requires 0 <= j < |keys| => Row(keys[j], summary[keys[j]]));
    RowsAt(keys, entries);
    assert listed == Rows(keys, entries);
    rows := SortBy(listed, ByDurationDesc);
    AggregateProperties(entries);
  }

  /** The loop's state after the records `es`: `keys` are the names in
      order of first appearance, and `summary` maps each to its total. */
  ghost predicate Tallied(es: seq<Entry>, summary: map<string, int>, keys: seq<string>) {
    keys == Keys(es, AppKey) &&
    (forall a :: a in summary <==> a in keys) &&
    (forall a :: a in summary ==> summary[a] == AppTotal(es, a))
  }

  /** A record with a name adds its duration to that name's entry,
      creating it last if it is new. */
  lemma TallyCount(all: seq<Entry>, i: nat, summary: map<string, int>, keys: seq<string>, app: string, total: int)
    requires i < |all| && Tallied(all[..i], summary, keys)
    requires AppKey(all[i]) == Some(app)
    requires total == (if app in summary then summary[app] else 0) + EntryDuration(all[i])
    ensures Tallied(all[..i + 1], summary[app := total], if app in keys then keys else keys + [app])
  {
    var es := all[..i];
    var e := all[i];
    assert all[..i + 1] == es + [e];
    KeysLast(es, e, AppKey);
    forall a {
      TotalLast(es, e, AppKey, EntryDuration, a);
    }
    if app !in summary {
      AbsentKeyTotal(es, AppKey, EntryDuration, app);
    }
  }

  /** A record without a name changes nothing. */
  lemma TallySkip(all: seq<Entry>, i: nat, summary: map<string, int>, keys: seq<string>)
    requires i < |all| && Tallied(all[..i], summary, keys)
    requires AppKey(all[i]).None?
    ensures Tallied(all[..i + 1], summary, keys)
  {
    var es := all[..i];
    var e := all[i];
    assert all[..i + 1] == es + [e];
    KeysLast(es, e, AppKey);
    forall a {
      TotalLast(es, e, AppKey, EntryDuration, a);
    }
  }

  /** Some row is about application `app`. */
  predicate Lists(rows: seq<Row>, app: string) {
    exists j :: 0 <= j < |rows| && rows[j].app == app
  }

  /** Every row of a summary carries a counted application and that
      application's total. */
  lemma AggregateRowTotals(es: seq<Entry>)
    ensures forall r :: r in Aggregate(es) ==> r.app != "" && r.duration == AppTotal(es, r.app)
  {
    var keys := Keys(es, AppKey);
    KeysExact(es, AppKey);
    var listed := Rows(keys, es);
    RowsAt(keys, es);
    assert multiset(Aggregate(es)) == multiset(listed);
    forall r | r in Aggregate(es) ensures r.app != "" && r.duration == AppTotal(es, r.app) {
      assert r in multiset(listed);
      var j :| 0 <= j < |listed| && listed[j] == r;
      assert r == Row(keys[j], AppTotal(es, keys[j]));
      assert keys[j] in Keys(es, AppKey);
      assert Mentions(es, AppKey, keys[j]);
    }
  }

  /** A summary lists an application exactly when some record carries it
      as a non-empty name: no positivity filter applies to the totals. */
  lemma AggregateCovers(es: seq<Entry>)
    ensures forall a :: Lists(Aggregate(es), a) <==> Mentions(es, AppKey, a)
  {
    var keys := Keys(es, AppKey);
    KeysExact(es, AppKey);
    var listed := Rows(keys, es);
    RowsAt(keys, es);
    var rows := Aggregate(es);
    forall a ensures Lists(rows, a) <==> Mentions(es, AppKey, a) {
      if Mentions(es, AppKey, a) {
        assert a in Keys(es, AppKey);
        var p :| 0 <= p < |keys| && keys[p] == a;
        assert listed[p] in multiset(rows);
        var j :| 0 <= j < |rows| && rows[j] == listed[p];
      }
      if Lists(rows, a) {
        var j :| 0 <= j < |rows| && rows[j].app == a;
        assert rows[j] in multiset(listed);
        var p :| 0 <= p < |listed| && listed[p] == rows[j];
        assert keys[p] in Keys(es, AppKey);
      }
    }
  }

  /** One row per distinct counted application. */
  lemma AggregateDistinct(es: seq<Entry>)
    ensures DistinctBy(Aggregate(es), RowApp)
    ensures |Aggregate(es)| == |Keys(es, AppKey)|
  {
    var keys := Keys(es, AppKey);
    KeysExact(es, AppKey);
    var listed := Rows(keys, es);
    RowsAt(keys, es);
    forall i, j | 0 <= i < j < |listed| ensures RowApp(listed[i]) != RowApp(listed[j]) {
      assert listed[i].app == keys[i] && listed[j].app == keys[j];
    }
    DistinctByPermutation(listed, Aggregate(es), RowApp);
  }

  /** The rows of a summary: one per counted application, each with that
      application's total, in non-increasing order of duration, adding up
      to the durations of the records that have an application name. */
  lemma AggregateProperties(es: seq<Entry>)
    ensures |Aggregate(es)| == |Keys(es, AppKey)|
    ensures forall r :: r in Aggregate(es) ==> r.app != "" && r.duration == AppTotal(es, r.app)
    ensures forall a :: Lists(Aggregate(es), a) <==> Mentions(es, AppKey, a)
    ensures DistinctBy(Aggregate(es), RowApp)
    ensures Sorted(Aggregate(es), ByDurationDesc)
    ensures SumBy(Aggregate(es), RowDuration) == KeyedSum(es, AppKey, EntryDuration)
  {
    var listed := Rows(Keys(es, AppKey), es);
    AggregateRowTotals(es);
    AggregateCovers(es);
    AggregateDistinct(es);
    SortBySorted(listed, ByDurationDesc);
    SumByPermutation(listed, Aggregate(es), RowDuration);
    RowsSum(Keys(es, AppKey), es);
    GroupSum(es, AppKey, EntryDuration);
  }

  /** `entries.filter((entry) => entry?.app === app)`. */
  function WithApp(es: seq<Entry>, app: string): (r: seq<Entry>)
    ensures |r| <= |es|
    ensures forall e :: e in r <==> e in es && e.app == Some(app)
  {
    if es == [] then []
    else WithApp(es[..|es| - 1], app) + (if es[|es| - 1].app == Some(app) then [es[|es| - 1]] else [])
  }

  /** The filter distributes over concatenation, so the kept records stay
      in their original order. */
  lemma {:induction false} WithAppConcat(es: seq<Entry>, fs: seq<Entry>, app: string)
    ensures WithApp(es + fs, app) == WithApp(es, app) + WithApp(fs, app)
  {
    if fs == [] {
      assert es + fs == es;
    } else {
      var gs := es + fs;
      var x := fs[|fs| - 1];
      var kept := if x.app == Some(app) then [x] else [];
      assert gs[..|gs| - 1] == es + fs[..|fs| - 1] && gs[|gs| - 1] == x;
      assert WithApp(gs, app) == WithApp(es + fs[..|fs| - 1], app) + kept;
      assert WithApp(fs, app) == WithApp(fs[..|fs| - 1], app) + kept;
      WithAppConcat(es, fs[..|fs| - 1], app);
    }
  }

  /** The filter keeps exactly the records of `app`, each as often as it
      occurs. */
  lemma {:induction false} WithAppCount(es: seq<Entry>, app: string, e: Entry)
    ensures multiset(WithApp(es, app))[e] == if e.app == Some(app) then multiset(es)[e] else 0
  {
    if es != [] {
      var init := es[..|es| - 1];
      WithAppCount(init, app, es[|es| - 1]);
      WithAppCount(init, app, e);
      assert es == init + [es[|es| - 1]];
    }
  }

  /** The kept records' durations add up to the application's total. */
  lemma {:induction false} WithAppTotal(es: seq<Entry>, app: string)
    requires app != ""
    ensures SumBy(WithApp(es, app), EntryDuration) == AppTotal(es, app)
  {
    if es != [] {
      var init := es[..|es| - 1];
      var x := es[|es| - 1];
      WithAppTotal(init, app);
      TotalLast(init, x, AppKey, EntryDuration, app);
      assert es == init + [x];
      var kept := if x.app == Some(app) then [x] else [];
      SumByConcat(WithApp(init, app), kept, EntryDuration);
      assert [x][..0] == [];
    }
  }

  /** Which records a request covers. `Day` reads today's file; the others
      load a range ending now. */
  datatype Range = Day | Week | Month

  /** The range's start: a week back for `Week` (`setDate(getDate() - 7)`),
      one calendar month back for `Month`, and `now` itself for a range
      the summary handler does not recognise. */
  function RangeStart(range: Range, now: int, monthAgo: int): (start: int)
    ensures range == Week ==> start == now - 7 * DayMs
    ensures range == Month ==> start == monthAgo
    ensures range == Day ==> start == now
  {
    match range
    case Week => now - 7 * DayMs
    case Month => monthAgo
    case Day => now
  }

  /** Which day files a range reads, for an instant `now` strictly inside
      its UTC day `today`: the week reads exactly today's file and those of
      the six days before, and a range the summary handler does not
      recognise reads none, since no file's midnight equals `now`. */
  lemma WeekRangeDays(today: CivilDate, d: CivilDate, now: int, monthAgo: int)
    requires ValidDate(today) && ValidDate(d)
    requires MidnightUtc(today) < now < MidnightUtc(today) + DayMs
    ensures InRange(TodayFileName(d), RangeStart(Week, now, monthAgo), now) <==>
      DaysFromCivil(today) - 7 < DaysFromCivil(d) <= DaysFromCivil(today)
    ensures !InRange(TodayFileName(d), RangeStart(Day, now, monthAgo), now)
  {
    TodayFileDate(d);
    var t, e := DaysFromCivil(today), DaysFromCivil(d);
    assert MidnightUtc(d) == e * DayMs && MidnightUtc(today) == t * DayMs;
    if e <= t {
      assert e * DayMs <= t * DayMs;
    } else {
      assert (t + 1) * DayMs <= e * DayMs;
    }
    if e > t - 7 {
      assert (t - 6) * DayMs <= e * DayMs;
    } else {
      assert e * DayMs <= (t - 7) * DayMs;
    }
  }

  function MapRows(r: Result<seq<Entry>, StoreError>): Result<seq<Row>, StoreError> {
    match r
    case Ok(es) => Ok(Aggregate(es))
    case Err(e) => Err(e)
  }

  /** `usage:getTodaySummary`. */
  method GetTodaySummary(store: UsageLogDir, today: CivilDate) returns (r: Result<seq<Row>, StoreError>)
    requires ValidDate(today)
    ensures TodayFileName(today) !in store.files ==> r == Ok([])
    ensures r == MapRows(LoadFile(store.files, TodayFileName(today)))
  {
    var loaded := store.LoadJson(TodayFileName(today));
    if loaded.Err? {
      return Err(loaded.error);
    }
    var rows := AggregateEntries(loaded.value);
    return Ok(rows);
  }

  /** `usage:getSummary`: the summary of the records whose day falls
      between the range's start and `now`. */
  method GetSummary(store: UsageLogDir, range: Range, now: int, monthAgo: int) returns (r: Result<seq<Row>, StoreError>)
    ensures r == MapRows(RangeLoad(store.files, store.listing, RangeStart(range, now, monthAgo), now))
  {
    var start := RangeStart(range, now, monthAgo);
    var loaded := store.LoadUsageRange(start, now);
    if loaded.Err? {
      return Err(loaded.error);
    }
    var rows := AggregateEntries(loaded.value);
    return Ok(rows);
  }

  /** The records a `usage:getEntries` request reads before filtering. */
  function Loaded(files: map<string, FileContent>, listing: seq<string>, range: Range, today: CivilDate, now: int, monthAgo: int): Result<seq<Entry>, StoreError>
    requires ValidDate(today)
  {
    if range == Day then LoadFile(files, TodayFileName(today))
    else RangeLoad(files, listing, RangeStart(range, now, monthAgo), now)
  }

  /** `usage:getEntries`: the records of the range, narrowed to one
      application when a non-empty name is given. */
  method GetEntries(store: UsageLogDir, range: Range, app: Option<string>, today: CivilDate, now: int, monthAgo: int)
    returns (r: Result<seq<Entry>, StoreError>)
    requires ValidDate(today)
    ensures var loaded := Loaded(store.files, store.listing, range, today, now, monthAgo);
      r.Err? <==> loaded.Err?
    ensures var loaded := Loaded(store.files, store.listing, range, today, now, monthAgo);
      r.Ok? && app.Some? && app.value != "" ==> r.value == WithApp(loaded.value, app.value)
    ensures var loaded := Loaded(store.files, store.listing, range, today, now, monthAgo);
      r.Ok? && (app.None? || app.value == "") ==> r.value == loaded.value
  {
    var entries: seq<Entry>;
    if range == Day {
      var loaded := store.LoadJson(TodayFileName(today));
      if loaded.Err? {
        return Err(loaded.error);
      }
      entries := loaded.value;
    } else {
      var loaded := store.LoadUsageRange(RangeStart(range, now, monthAgo), now);
      if loaded.Err? {
        return Err(loaded.error);
      }
      entries := loaded.value;
    }
    if app.Some? && app.value != "" {
      entries := WithApp(entries, app.value);
    }
    return Ok(entries);
  }

  /** A per-application total of a summary equals the sum of the durations
      `usage:getEntries` returns for that application over the same range. */
  lemma SummaryMatchesEntries(es: seq<Entry>, r: Row)
    requires r in Aggregate(es)
    ensures SumBy(WithApp(es, r.app), EntryDuration) == r.duration
  {
    AggregateProperties(es);
    WithAppTotal(es, r.app);
  }
}
