/** The day-partitioned usage log: one JSON file per UTC day, named
    `usage-YYYY-MM-DD.json`, in one flat directory. The directory is a map
    from file name to what the file holds plus the order in which a
    directory listing returns the names. A file either parses as an array
    of records or does not; a file that does not parse makes every read of
    it fail, and so every append to it and every range load over it. */
module JsonStorage {
  import opened Wrappers
  import opened Text
  import opened IsoDate
  import opened Usage

  const FilePrefix: string := "usage-"
  const FileSuffix: string := ".json"

  datatype FileContent = Parsed(entries: seq<Entry>) | Unparsable

  /** `JSON.parse` threw on the named file. */
  datatype StoreError = ParseError(file: string)

  /** The name `getTodayFilePath` gives today's file (the directory part is
      left out): the ISO date of the current instant, in UTC. */
  function TodayFileName(today: CivilDate): string
    requires ValidDate(today)
  {
    FilePrefix + DateText(today) + FileSuffix
  }

  /** Today's name is the prefix, the date's text and the suffix. */
  lemma TodayFileNameParts(today: CivilDate)
    requires ValidDate(today)
    ensures var name := TodayFileName(today);
      StartsWith(name, FilePrefix) && EndsWith(name, FileSuffix) &&
      name[|FilePrefix|..|name| - |FileSuffix|] == DateText(today)
  {
    Framed(FilePrefix, DateText(today), FileSuffix);
  }

  /** The day `loadUsageRange` reads from a file name: `None` for a name
      that does not start with `usage-` or end with `.json`, or whose
      middle (the name with the first `usage-` and then the first `.json`
      removed) is not a date. */
  function FileDate(name: string): (d: Option<CivilDate>)
    ensures d.Some? ==> StartsWith(name, FilePrefix) && EndsWith(name, FileSuffix) && DateFields(d.value)
  {
    if !StartsWith(name, FilePrefix) || !EndsWith(name, FileSuffix) then None
    else ParseDateText(RemoveFirst(RemoveFirst(name, FilePrefix), FileSuffix))
  }

  /** Whether `loadUsageRange(start, end)` reads the file: its date, taken
      as midnight UTC, lies in the inclusive interval. */
  predicate InRange(name: string, start: int, end: int) {
    FileDate(name).Some? && start <= MidnightUtc(FileDate(name).value) <= end
  }

  /** `loadJSON` on a directory state: a missing file reads as empty. */
  function LoadFile(files: map<string, FileContent>, name: string): Result<seq<Entry>, StoreError> {
    if name !in files then Ok([])
    else match files[name]
      case Parsed(es) => Ok(es)
      case Unparsable => Err(ParseError(name))
  }

  /** Two loads one after the other: the contents concatenated, or the
      first failure. */
  function Join(r1: Result<seq<Entry>, StoreError>, r2: Result<seq<Entry>, StoreError>): Result<seq<Entry>, StoreError> {
    match r1
    case Err(e) => Err(e)
    case Ok(x) =>
      match r2
      case Err(e) => Err(e)
      case Ok(y) => Ok(x + y)
  }

  /** What file `name` adds to a range load: nothing unless it is in range. */
  function Contribution(files: map<string, FileContent>, name: string, start: int, end: int): Result<seq<Entry>, StoreError> {
    if InRange(name, start, end) then LoadFile(files, name) else Ok([])
  }

  /** What `loadUsageRange` returns after visiting `names` in order: the
      contents of the files in range, concatenated, or the failure of the
      first one in range that does not parse. */
  function RangeLoad(files: map<string, FileContent>, names: seq<string>, start: int, end: int): Result<seq<Entry>, StoreError>
  {
    if names == [] then Ok([])
    else Join(RangeLoad(files, names[..|names| - 1], start, end), Contribution(files, names[|names| - 1], start, end))
  }

  /** A file in range that does not parse. */
  predicate BadInRange(files: map<string, FileContent>, name: string, start: int, end: int) {
    InRange(name, start, end) && name in files && files[name].Unparsable?
  }

  /** The directory `files`/`listing` after writing record `e` to the file
      `name` of the directory `files0`/`listing0`: the file's records
      followed by `e`, a new file listed last; nothing changes when the
      file's old contents do not parse. */
  predicate AppendedTo(files0: map<string, FileContent>, listing0: seq<string>, name: string, e: Entry,
                       files: map<string, FileContent>, listing: seq<string>)
  {
    match LoadFile(files0, name)
    case Ok(es) =>
      files == files0[name := Parsed(es + [e])] &&
      listing == (if name in files0 then listing0 else listing0 + [name])
    case Err(_) =>
      files == files0 && listing == listing0
  }

  /** The usage-log directory. */
  class UsageLogDir {
    var files: map<string, FileContent>
    var listing: seq<string>

    /** The listing names every file exactly once. */
    ghost predicate Valid()
      reads this
    {
      (forall i, j :: 0 <= i < j < |listing| ==> listing[i] != listing[j]) &&
      (forall n :: n in files <==> n in listing)
    }

    constructor (files0: map<string, FileContent>, listing0: seq<string>)
      requires forall i, j :: 0 <= i < j < |listing0| ==> listing0[i] != listing0[j]
      requires forall n :: n in files0 <==> n in listing0
      ensures Valid() && files == files0 && listing == listing0
    {
      files := files0;
      listing := listing0;
    }

    /** `loadJSON(filePath)`. */
    method LoadJson(name: string) returns (r: Result<seq<Entry>, StoreError>)
      ensures name !in files ==> r == Ok([])
      ensures name in files ==> (r.Ok? <==> files[name].Parsed?)
      ensures name in files && r.Ok? ==> r.value == files[name].entries
      ensures r == LoadFile(files, name)
    {
      if name !in files {
        return Ok([]);
      }
      match files[name]
      case Parsed(es) => r := Ok(es);
      case Unparsable => r := Err(ParseError(name));
    }

    /** `appendToTodayLog(entry)`: read today's file, add the entry stamped
        with the write time, write the whole file back. A file that does
        not parse is left alone and the failure is returned. */
    method AppendToTodayLog(entry: Entry, today: CivilDate, now: int) returns (r: Result<(), StoreError>)
      requires Valid() && ValidDate(today)
      modifies this
      ensures Valid()
      ensures var name := TodayFileName(today);
        AppendedTo(old(files), old(listing), name, Stamp(entry, now), files, listing) &&
        (r.Ok? <==> LoadFile(old(files), name).Ok?) &&
        (r.Err? ==> r.error == LoadFile(old(files), name).error)
    {
      var name := TodayFileName(today);
      var data := LoadJson(name);
      if data.Err? {
        return Err(data.error);
      }
      var isNew := name !in files;
      files := files[name := Parsed(data.value + [Stamp(entry, now)])];
      if isNew {
        listing := listing + [name];
      }
      r := Ok(());
    }

    /** `loadUsageRange(start, end)`, with instants in milliseconds. */
    method LoadUsageRange(start: int, end: int) returns (r: Result<seq<Entry>, StoreError>)
      ensures r == RangeLoad(files, listing, start, end)
    {
      var all: seq<Entry> := [];
      var i := 0;
      while i < |listing|
        invariant 0 <= i <= |listing|
        invariant RangeLoad(files, listing[..i], start, end) == Ok(all)
      {
        var f := listing[i];
        assert listing[..i + 1][..i] == listing[..i];
        if StartsWith(f, FilePrefix) && EndsWith(f, FileSuffix) {
          var dateStr := RemoveFirst(RemoveFirst(f, FilePrefix), FileSuffix);
          var fileDate := ParseDateText(dateStr);
          if fileDate.Some? && start <= MidnightUtc(fileDate.value) && MidnightUtc(fileDate.value) <= end {
            var loaded := LoadJson(f);
            if loaded.Err? {
              assert listing == listing[..i + 1] + listing[i + 1..];
              RangeLoadConcat(files, listing[..i + 1], listing[i + 1..], start, end);
              return Err(loaded.error);
            }
            all := all + loaded.value;
          } else {
            assert all + [] == all;
          }
        } else {
          assert all + [] == all;
        }
        i := i + 1;
      }
      assert listing[..i] == listing;
      r := Ok(all);
    }
  }

  /** Today's file name is one the range load recognises, and it carries
      today's date. */
  lemma TodayFileDate(today: CivilDate)
    requires ValidDate(today)
    ensures StartsWith(TodayFileName(today), FilePrefix) && EndsWith(TodayFileName(today), FileSuffix)
    ensures FileDate(TodayFileName(today)) == Some(today)
  {
    var d := DateText(today);
    var name := TodayFileName(today);
    assert name == FilePrefix + (d + FileSuffix);
    assert name[..|FilePrefix|] == FilePrefix;
    assert name[|name| - |FileSuffix|..] == FileSuffix;
    RemoveFirstPrefix(name, FilePrefix);
    assert name[|FilePrefix|..] == d + FileSuffix;
    DateTextChars(today);
    assert '.' !in d by {
      forall i | 0 <= i < |d| ensures d[i] != '.' {
        assert IsDigit(d[i]) || d[i] in "-+";
      }
    }
    RemoveFirstSuffix(d, FileSuffix);
    ParseDateTextRoundTrip(today);
  }

  /** When `today` is the UTC date of `now`, the week range
      `[now - 7 days, now]` reads today's file. */
  lemma TodayInWeek(today: CivilDate, now: int)
    requires ValidDate(today)
    requires MidnightUtc(today) <= now < MidnightUtc(today) + DayMs
    ensures InRange(TodayFileName(today), now - 7 * DayMs, now)
  {
    TodayFileDate(today);
  }

  lemma JoinEmpty(r: Result<seq<Entry>, StoreError>)
    ensures Join(r, Ok([])) == r
  {
    if r.Ok? {
      assert r.value + [] == r.value;
    }
  }

  lemma JoinAssoc(r1: Result<seq<Entry>, StoreError>, r2: Result<seq<Entry>, StoreError>, r3: Result<seq<Entry>, StoreError>)
    ensures Join(Join(r1, r2), r3) == Join(r1, Join(r2, r3))
  {
    if r1.Ok? && r2.Ok? && r3.Ok? {
      assert r1.value + r2.value + r3.value == r1.value + (r2.value + r3.value);
    }
  }

  /** The range load splits over a split listing. */
  lemma {:induction false} RangeLoadConcat(files: map<string, FileContent>, a: seq<string>, b: seq<string>, start: int, end: int)
    ensures RangeLoad(files, a + b, start, end) == Join(RangeLoad(files, a, start, end), RangeLoad(files, b, start, end))
    decreases |b|
  {
    if b == [] {
      assert a + b == a;
      JoinEmpty(RangeLoad(files, a, start, end));
    } else {
      assert (a + b)[..|a + b| - 1] == a + b[..|b| - 1];
      RangeLoadConcat(files, a, b[..|b| - 1], start, end);
      JoinAssoc(RangeLoad(files, a, start, end), RangeLoad(files, b[..|b| - 1], start, end), Contribution(files, b[|b| - 1], start, end));
    }
  }

  /** A name the range load does not read can be dropped from the listing
      without changing the result: names without the `usage-` prefix or
      the `.json` suffix are among them. */
  lemma SkippedNameIrrelevant(files: map<string, FileContent>, a: seq<string>, n: string, b: seq<string>, start: int, end: int)
    requires !InRange(n, start, end)
    ensures RangeLoad(files, a + [n] + b, start, end) == RangeLoad(files, a + b, start, end)
  {
    RangeLoadConcat(files, a + [n], b, start, end);
    RangeLoadConcat(files, a, b, start, end);
    assert (a + [n])[..|a + [n]| - 1] == a;
    JoinEmpty(RangeLoad(files, a, start, end));
  }

  /** The range load fails exactly when a file in range does not parse. */
  lemma {:induction false} RangeLoadFails(files: map<string, FileContent>, names: seq<string>, start: int, end: int)
    ensures RangeLoad(files, names, start, end).Err? <==>
      exists i :: 0 <= i < |names| && BadInRange(files, names[i], start, end)
  {
    if names != [] {
      var init, n := names[..|names| - 1], names[|names| - 1];
      assert names == init + [n];
      RangeLoadFails(files, init, start, end);
      assert (exists i :: 0 <= i < |names| && BadInRange(files, names[i], start, end)) <==>
        (exists i :: 0 <= i < |init| && BadInRange(files, init[i], start, end)) || BadInRange(files, n, start, end);
    }
  }

  /** A file in range that parses and holds `e`. */
  predicate Contributes(files: map<string, FileContent>, name: string, start: int, end: int, e: Entry) {
    InRange(name, start, end) && name in files && files[name].Parsed? && e in files[name].entries
  }

  /** A successful range load holds exactly the records of the files in
      range: every record came from such a file, and every such file's
      records are all there. */
  lemma {:induction false} RangeLoadMembers(files: map<string, FileContent>, names: seq<string>, start: int, end: int, e: Entry)
    requires RangeLoad(files, names, start, end).Ok?
    ensures e in RangeLoad(files, names, start, end).value <==>
      exists i :: 0 <= i < |names| && Contributes(files, names[i], start, end, e)
  {
    if names != [] {
      var init, n := names[..|names| - 1], names[|names| - 1];
      assert names == init + [n];
      RangeLoadMembers(files, init, start, end, e);
      assert (exists i :: 0 <= i < |names| && Contributes(files, names[i], start, end, e)) <==>
        (exists i :: 0 <= i < |init| && Contributes(files, init[i], start, end, e)) || Contributes(files, n, start, end, e);
    }
  }

  /** After an append, reading today's file gives its old records followed
      by the stamped entry. */
  lemma AppendThenLoad(files: map<string, FileContent>, today: CivilDate, entry: Entry, now: int)
    requires ValidDate(today) && LoadFile(files, TodayFileName(today)).Ok?
    ensures var name := TodayFileName(today);
      var es := LoadFile(files, name).value;
      LoadFile(files[name := Parsed(es + [Stamp(entry, now)])], name) == Ok(es + [Stamp(entry, now)])
  {
  }

  /** After an append on day `today`, a successful range load whose
      interval holds today's midnight contains the stamped entry. */
  lemma AppendVisibleInRange(files: map<string, FileContent>, listing: seq<string>, today: CivilDate, entry: Entry, now: int, start: int, end: int)
    requires ValidDate(today) && TodayFileName(today) in listing
    requires LoadFile(files, TodayFileName(today)).Ok?
    requires start <= MidnightUtc(today) <= end
    requires var name := TodayFileName(today);
      RangeLoad(files[name := Parsed(LoadFile(files, name).value + [Stamp(entry, now)])], listing, start, end).Ok?
    ensures var name := TodayFileName(today);
      Stamp(entry, now) in RangeLoad(files[name := Parsed(LoadFile(files, name).value + [Stamp(entry, now)])], listing, start, end).value
  {
    var name := TodayFileName(today);
    var files' := files[name := Parsed(LoadFile(files, name).value + [Stamp(entry, now)])];
    TodayFileDate(today);
    var i :| 0 <= i < |listing| && listing[i] == name;
    RangeLoadMembers(files', listing, start, end, Stamp(entry, now));
  }
}
