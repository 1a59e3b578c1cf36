/** The active-window tracker. Every tick it asks the foreground probe for
    the active window; when the owning executable's path differs from the
    one seen at the previous usable tick, it writes one record for the
    window that just lost focus, timed from the last such change. The probe
    result and the clock reading are the tick's parameters; the interval
    timer that drives the ticks is not modelled. */
module AppUsageService {
  import opened Wrappers
  import opened Usage
  import opened IsoDate
  import opened JsonStorage
  import opened Sorting

  /** The module variables `lastApp` and `lastChange`. */
  datatype TrackerState = TrackerState(lastApp: Option<Window>, lastChange: int)

  /** `lastApp` is only ever set to a window that has an owner. */
  predicate WellFormed(s: TrackerState) {
    s.lastApp.Some? ==> s.lastApp.value.owner.Some?
  }

  /** A probe result the tick acts on: a window with an owner. */
  predicate Usable(probe: Option<Window>) {
    probe.Some? && probe.value.owner.Some?
  }

  function PathOf(w: Window): string
    requires w.owner.Some?
  {
    w.owner.value.path
  }

  /** The record written for `last` after it held focus for `duration` ms. */
  function Record(last: Window, duration: int): Entry
    requires last.owner.Some?
  {
    Entry(Some(last.owner.value.name), Some(last.title), Some(last.owner.value.path), Some(duration), None)
  }

  /** The result of one tick: the new state and the record handed to the
      store, if any. */
  datatype Outcome = Outcome(state: TrackerState, emitted: Option<Entry>)

  /** One tick, when the store accepts the record. The source reads the
      clock twice on a change: `now` for the record's duration before the
      append, and `after` for the new `lastChange` once the append has
      returned. */
  function Step(s: TrackerState, probe: Option<Window>, now: int, after: int): (o: Outcome)
    requires WellFormed(s)
    ensures WellFormed(o.state)
    ensures !Usable(probe) ==> o == Outcome(s, None)
    ensures Usable(probe) ==> o.state.lastApp == probe
    ensures o.emitted.Some? <==>
      Usable(probe) && s.lastApp.Some? && PathOf(probe.value) != PathOf(s.lastApp.value)
    ensures o.emitted.Some? ==>
      o.emitted.value == Record(s.lastApp.value, now - s.lastChange) && o.state.lastChange == after
    ensures o.emitted.None? ==> o.state.lastChange == s.lastChange
  {
    if !Usable(probe) then Outcome(s, None)
    else if s.lastApp.Some? && PathOf(probe.value) != PathOf(s.lastApp.value) then
      Outcome(TrackerState(probe, after), Some(Record(s.lastApp.value, now - s.lastChange)))
    else Outcome(TrackerState(probe, s.lastChange), None)
  }

  /** One sampling: the probe's answer and the two clock readings of the
      tick (the second only matters when a record is written). */
  datatype Observation = Observation(probe: Option<Window>, now: int, after: int)

  /** Where a run ends: the tracker state, the records in the order
      written, and the time spent between reading the clock for a record
      and reading it again for `lastChange`, which no record covers. */
  datatype Trace = Trace(state: TrackerState, log: seq<Entry>, unlogged: int)

  /** The state after a run of ticks whose records all reach the store. */
  function Run(s: TrackerState, obs: seq<Observation>): (t: Trace)
    requires WellFormed(s)
    ensures WellFormed(t.state)
    ensures |t.log| <= |obs|
    ensures t.state.lastApp.Some? <==> s.lastApp.Some? || Paths(obs) != []
    ensures Paths(obs) == [] ==> t == Trace(s, [], 0)
  {
    if obs == [] then Trace(s, [], 0)
    else
      var prev := Run(s, obs[..|obs| - 1]);
      var ob := obs[|obs| - 1];
      var o := Step(prev.state, ob.probe, ob.now, ob.after);
      Trace(o.state, prev.log + (if o.emitted.Some? then [o.emitted.value] else []),
            prev.unlogged + (if o.emitted.Some? then ob.after - ob.now else 0))
  }

  /** The owner paths of the usable observations, in order. */
  function Paths(obs: seq<Observation>): seq<string> {
    if obs == [] then []
    else
      var last := obs[|obs| - 1].probe;
      Paths(obs[..|obs| - 1]) + (if Usable(last) then [PathOf(last.value)] else [])
  }

  /** The number of adjacent positions where the path changes. */
  function Changes(paths: seq<string>): nat {
    if |paths| < 2 then 0
    else Changes(paths[..|paths| - 1]) + (if paths[|paths| - 2] != paths[|paths| - 1] then 1 else 0)
  }

  /** One more path adds one change exactly when it differs from the last. */
  lemma ChangesSnoc(p: seq<string>, x: string)
    ensures Changes(p + [x]) == Changes(p) + (if p != [] && p[|p| - 1] != x then 1 else 0)
  {
    var q := p + [x];
    if p != [] {
      assert q[..|q| - 1] == p;
      assert q[|q| - 2] == p[|p| - 1];
    }
  }

  /** From a fresh tracker, the records written count the path changes
      among the usable observations, and the last window remembered is the
      last usable one. */
  lemma {:induction false} RunCountsChanges(s: TrackerState, obs: seq<Observation>)
    requires WellFormed(s) && s.lastApp.None?
    ensures |Run(s, obs).log| == Changes(Paths(obs))
    ensures Run(s, obs).state.lastApp.Some? <==> Paths(obs) != []
    ensures Paths(obs) != [] ==> PathOf(Run(s, obs).state.lastApp.value) == Paths(obs)[|Paths(obs)| - 1]
  {
    if obs != [] {
      var init := obs[..|obs| - 1];
      var ob := obs[|obs| - 1];
      RunCountsChanges(s, init);
      var p := Paths(init);
      var prev := Run(s, init);
      var o := Step(prev.state, ob.probe, ob.now, ob.after);
      assert Run(s, obs).state == o.state;
      assert |Run(s, obs).log| == |prev.log| + (if o.emitted.Some? then 1 else 0);
      if Usable(ob.probe) {
        var x := PathOf(ob.probe.value);
        assert Paths(obs) == p + [x];
        ChangesSnoc(p, x);
        assert prev.state.lastApp.Some? <==> p != [];
        assert prev.state.lastApp.Some? ==> PathOf(prev.state.lastApp.value) == p[|p| - 1];
        assert o.emitted.Some? <==> p != [] && p[|p| - 1] != x;
        assert (p + [x])[|p + [x]| - 1] == x;
      } else {
        assert Paths(obs) == p + [] == p;
        assert o == Outcome(prev.state, None);
      }
    }
  }

  /** The logged durations telescope: together with the unlogged append
      time they add up to the time from the initial `lastChange` to the
      last one. */
  lemma {:induction false} RunTelescopes(s: TrackerState, obs: seq<Observation>)
    requires WellFormed(s)
    ensures SumBy(Run(s, obs).log, EntryDuration) + Run(s, obs).unlogged == Run(s, obs).state.lastChange - s.lastChange
  {
    if obs != [] {
      var init := obs[..|obs| - 1];
      var ob := obs[|obs| - 1];
      RunTelescopes(s, init);
      var prev := Run(s, init);
      var o := Step(prev.state, ob.probe, ob.now, ob.after);
      if o.emitted.Some? {
        var log := prev.log + [o.emitted.value];
        assert log[..|log| - 1] == prev.log;
        assert Run(s, obs) == Trace(o.state, log, prev.unlogged + (ob.after - ob.now));
      } else {
        assert Run(s, obs) == Trace(o.state, prev.log, prev.unlogged) by {
          assert prev.log + [] == prev.log;
        }
      }
    }
  }

  /** With a clock that does not run backwards within a tick, no run
      has negative unlogged time. */
  lemma {:induction false} RunUnloggedNonNegative(s: TrackerState, obs: seq<Observation>)
    requires WellFormed(s)
    requires forall i :: 0 <= i < |obs| ==> obs[i].now <= obs[i].after
    ensures 0 <= Run(s, obs).unlogged
  {
    if obs != [] {
      var init := obs[..|obs| - 1];
      assert forall i :: 0 <= i < |init| ==> init[i] == obs[i];
      RunUnloggedNonNegative(s, init);
    }
  }

  /** The records cover the elapsed time exactly up to the unlogged append
      time, and so at most the elapsed time when the clock does not run
      backwards within a tick. */
  lemma RunDurations(s: TrackerState, obs: seq<Observation>)
    requires WellFormed(s)
    ensures SumBy(Run(s, obs).log, EntryDuration) == Run(s, obs).state.lastChange - s.lastChange - Run(s, obs).unlogged
    ensures (forall i :: 0 <= i < |obs| ==> obs[i].now <= obs[i].after) ==>
      SumBy(Run(s, obs).log, EntryDuration) <= Run(s, obs).state.lastChange - s.lastChange
  {
    RunTelescopes(s, obs);
    if forall i :: 0 <= i < |obs| ==> obs[i].now <= obs[i].after {
      RunUnloggedNonNegative(s, obs);
    }
  }

  /** A record never describes the window that is current at its tick: its
      path is the previously remembered one, which differs from the new. */
  lemma RecordIsPreviousWindow(s: TrackerState, probe: Option<Window>, now: int, after: int)
    requires WellFormed(s)
    requires Step(s, probe, now, after).emitted.Some?
    ensures Step(s, probe, now, after).emitted.value.path == Some(PathOf(s.lastApp.value))
    ensures Step(s, probe, now, after).emitted.value.title == Some(s.lastApp.value.title)
    ensures Step(s, probe, now, after).emitted.value.path != Some(PathOf(probe.value))
  {
  }

  /** The bookkeeping a tracker keeps: the written durations and the
      append time between a record's two clock readings add up to the time
      since start-up that has been accounted for, and one record was
      written per change of path among the ticks that took effect. */
  ghost predicate Accounted(s: TrackerState, startedAt: int, log: seq<Entry>, unlogged: int, seen: seq<string>) {
    WellFormed(s) &&
    SumBy(log, EntryDuration) + unlogged == s.lastChange - startedAt &&
    |log| == Changes(seen) &&
    (s.lastApp.Some? <==> seen != []) &&
    (s.lastApp.Some? ==> PathOf(s.lastApp.value) == seen[|seen| - 1])
  }

  /** A tick that writes its record keeps the bookkeeping: the record adds
      its duration and the append time joins the unaccounted time. */
  lemma AccountedAfterRecord(s: TrackerState, current: Window, now: int, after: int,
                             startedAt: int, log: seq<Entry>, unlogged: int, seen: seq<string>)
    requires Accounted(s, startedAt, log, unlogged, seen)
    requires current.owner.Some? && s.lastApp.Some? && PathOf(current) != PathOf(s.lastApp.value)
    ensures Accounted(TrackerState(Some(current), after), startedAt, log + [Record(s.lastApp.value, now - s.lastChange)],
                      unlogged + (after - now), seen + [PathOf(current)])
  {
    var path := PathOf(current);
    var record := Record(s.lastApp.value, now - s.lastChange);
    ChangesSnoc(seen, path);
    assert (seen + [path])[|seen|] == path;
    assert (log + [record])[..|log|] == log;
  }

  /** A tick that takes effect without a record keeps the bookkeeping. */
  lemma AccountedAfterQuiet(s: TrackerState, probe: Option<Window>, now: int, after: int,
                            startedAt: int, log: seq<Entry>, unlogged: int, seen: seq<string>)
    requires Accounted(s, startedAt, log, unlogged, seen)
    requires Usable(probe) && Step(s, probe, now, after).emitted.None?
    ensures Accounted(Step(s, probe, now, after).state, startedAt, log, unlogged, seen + [PathOf(probe.value)])
  {
    var path := PathOf(probe.value);
    ChangesSnoc(seen, path);
    assert (seen + [path])[|seen|] == path;
  }

  /** The tracker: its two variables, the log directory it writes to, and
      as ghost state the records it has written and the owner paths of the
      ticks that took effect. */
  class WindowTracker {
    var lastApp: Option<Window>
    var lastChange: int
    const store: UsageLogDir
    ghost const startedAt: int
    ghost var log: seq<Entry>
    ghost var unlogged: int
    ghost var seen: seq<string>

    function State(): TrackerState
      reads this
    {
      TrackerState(lastApp, lastChange)
    }

    /** The written durations and the append time between a record's two
        clock readings add up to the time since start-up that has been
        accounted for, and one record was written per change of path among
        the ticks that took effect. */
    ghost predicate Valid()
      reads this, store
    {
      store.Valid() && Accounted(TrackerState(lastApp, lastChange), startedAt, log, unlogged, seen)
    }

    /** Module load: `lastApp = null`, `lastChange = Date.now()`. */
    constructor (store: UsageLogDir, loadTime: int)
      requires store.Valid()
      ensures Valid() && this.store == store
      ensures lastApp == None && lastChange == loadTime && log == [] && unlogged == 0 && seen == []
    {
      this.store := store;
      lastApp := None;
      lastChange := loadTime;
      startedAt := loadTime;
      log := [];
      unlogged := 0;
      seen := [];
    }

    /** One tick of the interval callback, with the probe's answer, the
        clock reading taken for the duration, the one taken for
        `lastChange` after the append, and the UTC date the append files
        the record under. When the store refuses the record, the
        exception is caught and the tick leaves the tracker as it was. */
    method Tick(probe: Option<Window>, now: int, after: int, today: CivilDate)
      requires Valid() && ValidDate(today)
      modifies this, store
      ensures Valid()
      ensures var o := Step(old(State()), probe, now, after);
        o.emitted.None? ==>
          State() == o.state && log == old(log) && unlogged == old(unlogged) &&
          store.files == old(store.files) && store.listing == old(store.listing)
      ensures var o := Step(old(State()), probe, now, after);
        o.emitted.Some? ==>
          AppendedTo(old(store.files), old(store.listing), TodayFileName(today), Stamp(o.emitted.value, now),
                     store.files, store.listing)
      ensures var o := Step(old(State()), probe, now, after);
        o.emitted.Some? && LoadFile(old(store.files), TodayFileName(today)).Ok? ==>
          State() == o.state && log == old(log) + [o.emitted.value] && unlogged == old(unlogged) + (after - now)
      ensures var o := Step(old(State()), probe, now, after);
        o.emitted.Some? && LoadFile(old(store.files), TodayFileName(today)).Err? ==>
          State() == old(State()) && log == old(log) && unlogged == old(unlogged)
    {
      ghost var o := Step(State(), probe, now, after);
      if probe.None? || probe.value.owner.None? {
        return;
      }
      var current := probe.value;
      var path := current.owner.value.path;
      if lastApp.Some? && path != lastApp.value.owner.value.path {
        assert o.emitted == Some(Record(lastApp.value, now - lastChange));
        LogChange(current, now, after, today);
      } else {
        assert o == Outcome(TrackerState(probe, lastChange), None);
        AccountedAfterQuiet(State(), probe, now, after, startedAt, log, unlogged, seen);
        lastApp := Some(current);
        seen := seen + [path];
      }
    }

    /** The "window changed" branch of a tick: the record of the previous
        window is appended, then `lastChange` is read again and the new
        window remembered. A refused append leaves the tracker as it was. */
    method LogChange(current: Window, now: int, after: int, today: CivilDate)
      requires Valid() && ValidDate(today) && current.owner.Some?
      requires lastApp.Some? && PathOf(current) != PathOf(lastApp.value)
      modifies this, store
      ensures Valid()
      ensures var record := Record(old(lastApp).value, now - old(lastChange));
        var name := TodayFileName(today);
        AppendedTo(old(store.files), old(store.listing), name, Stamp(record, now), store.files, store.listing) &&
        if LoadFile(old(store.files), name).Ok? then
          lastApp == Some(current) && lastChange == after &&
          log == old(log) + [record] && unlogged == old(unlogged) + (after - now)
        else
          lastApp == old(lastApp) && lastChange == old(lastChange) && log == old(log) && unlogged == old(unlogged)
    {
      var record := Record(lastApp.value, now - lastChange);
      var written := store.AppendToTodayLog(record, today, now);
      if written.Err? {
        return;
      }
      var path := current.owner.value.path;
      assert store.Valid();
      AccountedAfterRecord(TrackerState(lastApp, lastChange), current, now, after, startedAt, log, unlogged, seen);
      log := log + [record];
      unlogged := unlogged + (after - now);
      lastChange := after;
      lastApp := Some(current);
      seen := seen + [path];
    }
  }
}
