/** The values that flow from the foreground probe through the tracker into
    the day files and out to the views. */
module Usage {
  import opened Wrappers

  /** The process owning a window: its display name and its executable
      path, the path being the identity the tracker compares. */
  datatype Owner = Owner(name: string, path: string)

  /** What the foreground probe reports. `owner` is absent when the probe
      could not tell which process owns the window. */
  datatype Window = Window(title: string, owner: Option<Owner>)

  /** One usage record as it sits in a day file. The files are JSON, so any
      field may be missing; `duration` is in milliseconds and `timestamp`
      is the instant the record was written, in milliseconds since the
      epoch (the file holds its ISO text). */
  datatype Entry = Entry(
    app: Option<string>,
    title: Option<string>,
    path: Option<string>,
    duration: Option<int>,
    timestamp: Option<int>)

  /** `e.duration || 0`: a record's duration, a missing one counting as 0. */
  function EntryDuration(e: Entry): int {
    e.duration.GetOr(0)
  }

  /** `{ ...entry, timestamp }`: the record with its write time set. */
  function Stamp(e: Entry, now: int): (r: Entry)
    ensures r.timestamp == Some(now)
    ensures r.app == e.app && r.title == e.title && r.path == e.path && r.duration == e.duration
  {
    e.(timestamp := Some(now))
  }
}
