/** The watcher object: the four per-path tables and the shared polling interval, updated in
    place by `startWatching`, `start`, `adjustInterval`, `poll` and the rename handler. Each
    method is proved to do what the pure transitions of `Cycle` say, and `PollStep` and
    `HookRename` to take one `Traces.Step`, so every property proved of runs there holds of
    every sequence of `PollStep` and `HookRename` calls after `Start`. The phase methods are
    the source's private closures: called on their own they reach states no run reaches. */
module Watchr {
  import opened Wrappers
  import opened Reader
  import opened Interval
  import opened Events
  import opened Cycle
  import opened Traces

  /** The options object; a missing option takes its default. */
  datatype Options = Options(initialInterval: Option<real>, minInterval: Option<real>, maxInterval: Option<real>)

  const DefaultInitialInterval: real := 1000.0
  const DefaultMinInterval: real := 500.0
  const DefaultMaxInterval: real := 5000.0

  /** `Map.prototype.set`: the table with `k` bound to `v`. When `k` already holds `v` the
      result is the very same table, so writing an unchanged entry needs no reasoning about
      map equality. */
  function MapSet<V(==)>(m: map<string, V>, k: string, v: V): (r: map<string, V>)
    ensures r == m[k := v]
  {
    if k in m && m[k] == v then
      assert m[k := v] == m;
      m
    else m[k := v]
  }

  /** The table with `k`'s entry made `o`: bound to its value, or missing. */
  function Put<V(==)>(m: map<string, V>, k: string, o: Option<V>): (r: map<string, V>)
    ensures Get(r, k) == o
    ensures forall q :: q != k ==> Get(r, q) == Get(m, q)
  {
    if Get(m, k) == o then m else if o.Some? then m[k := o.value] else m - {k}
  }

  /** The four tables read as one record per watched path. */
  function Tables(exists_: map<string, bool>, sizes: map<string, nat>, mtimes: map<string, int>, counts: map<string, nat>): (f: map<string, PathState>)
    requires exists_.Keys <= counts.Keys
    ensures f.Keys == exists_.Keys
  {
    map q | q in exists_ :: PathState(exists_[q], Get(sizes, q), Get(mtimes, q), counts[q])
  }

  /** Writing one path's record into the four tables changes that path's record only. */
  lemma TablesUpdate(exists_: map<string, bool>, sizes: map<string, nat>, mtimes: map<string, int>, counts: map<string, nat>,
                     path: string, s: PathState)
    requires exists_.Keys <= counts.Keys
    ensures Tables(MapSet(exists_, path, s.present), Put(sizes, path, s.lastSize), Put(mtimes, path, s.lastMTime), MapSet(counts, path, s.activity))
         == Tables(exists_, sizes, mtimes, counts)[path := s]
  {
  }

  /** Two writes of one key: the second wins. */
  lemma MapSetTwice<V>(m: map<string, V>, k: string, a: V, b: V)
    ensures MapSet(MapSet(m, k, a), k, b) == MapSet(m, k, b)
  {
  }

  /** Two writes of one key's entry: the second wins. */
  lemma PutTwice<V>(m: map<string, V>, k: string, a: Option<V>, b: Option<V>)
    ensures Put(Put(m, k, a), k, b) == Put(m, k, b)
  {
    if b.Some? {
      assert Put(Put(m, k, a), k, b) == m[k := b.value];
    } else {
      assert Put(Put(m, k, a), k, b) == m - {k};
    }
  }

  class FileWatchr {
    const filePaths: seq<string>
    const minInterval: real
    const maxInterval: real
    /** shared by every path */
    var pollingInterval: real
    var fileExists: map<string, bool>
    var lastSizes: map<string, nat>
    var lastMTimes: map<string, int>
    var activityCounts: map<string, nat>

    /** Every path with an entry is watched, and every watched path has an activity count. */
    ghost predicate Valid()
      reads this
    {
      fileExists.Keys <= activityCounts.Keys &&
      lastSizes.Keys <= fileExists.Keys &&
      lastMTimes.Keys <= fileExists.Keys
    }

    /** Each watched path's entries in the four tables, as one record. */
    ghost function Files(): map<string, PathState>
      reads this
      requires Valid()
    {
      Tables(fileExists, lastSizes, lastMTimes, activityCounts)
    }

    /** `path`'s entries in the four tables. */
    ghost function StateOf(path: string): PathState
      reads this
      requires Valid() && path in fileExists
    {
      PathState(fileExists[path], Get(lastSizes, path), Get(lastMTimes, path), activityCounts[path])
    }

    /** The four tables hold `s` as `path`'s entries and are otherwise as they were. */
    twostate predicate Stored(path: string, s: PathState)
      reads this
    {
      fileExists == MapSet(old(fileExists), path, s.present) &&
      lastSizes == Put(old(lastSizes), path, s.lastSize) &&
      lastMTimes == Put(old(lastMTimes), path, s.lastMTime) &&
      activityCounts == MapSet(old(activityCounts), path, s.activity)
    }

    /** The tables and the interval together. */
    ghost function Abstract(): State
      reads this
      requires Valid()
    {
      State(Files(), pollingInterval)
    }

    function Cfg(): Config
    {
      Config(minInterval, maxInterval)
    }

    constructor (filePaths: seq<string>, options: Options)
      ensures Valid() && Files() == map[]
      ensures this.filePaths == filePaths
      ensures pollingInterval == options.initialInterval.GetOr(DefaultInitialInterval)
      ensures minInterval == options.minInterval.GetOr(DefaultMinInterval)
      ensures maxInterval == options.maxInterval.GetOr(DefaultMaxInterval)
    {
      this.filePaths := filePaths;
      minInterval := options.minInterval.GetOr(DefaultMinInterval);
      maxInterval := options.maxInterval.GetOr(DefaultMaxInterval);
      pollingInterval := options.initialInterval.GetOr(DefaultInitialInterval);
      fileExists, lastSizes, lastMTimes, activityCounts := map[], map[], map[], map[];
    }

    /** Registers `path`: absent and quiet; sizes and times are left as they are. */
    method StartWatching(path: string)
      requires Valid()
      modifies this
      ensures Valid() && Files() == Register(old(Files()), path)
      ensures pollingInterval == old(pollingInterval)
      ensures lastSizes == old(lastSizes) && lastMTimes == old(lastMTimes)
    {
      TablesUpdate(fileExists, lastSizes, lastMTimes, activityCounts, path,
                   PathState(false, Get(lastSizes, path), Get(lastMTimes, path), 0));
      fileExists := MapSet(fileExists, path, false);
      activityCounts := MapSet(activityCounts, path, 0);
    }

    /** Registers every path in order. The first poll of each path is a stat whose result
        arrives later, as a call of `PollStep`. */
    method Start()
      requires Valid()
      modifies this
      ensures Valid() && Files() == RegisterAll(old(Files()), filePaths)
      ensures pollingInterval == old(pollingInterval)
    {
      for i := 0 to |filePaths|
        invariant Valid() && Files() == RegisterAll(old(Files()), filePaths[..i])
        invariant pollingInterval == old(pollingInterval)
      {
        assert filePaths[..i + 1][..i] == filePaths[..i];
        StartWatching(filePaths[i]);
      }
      assert filePaths[..|filePaths|] == filePaths;
    }

    /** Halves or doubles the shared interval by `path`'s activity count, then resets the
        count. */
    method AdjustInterval(path: string)
      requires Valid() && path in fileExists
      modifies this
      ensures Valid()
      ensures pollingInterval == NextInterval(old(activityCounts[path]), old(pollingInterval), minInterval, maxInterval)
      ensures Stored(path, old(StateOf(path)).(activity := 0))
    {
      if activityCounts[path] > HighActivity {
        pollingInterval := MaxReal(minInterval, pollingInterval / 2.0);
      } else {
        pollingInterval := MinReal(maxInterval, pollingInterval * 2.0);
      }
      activityCounts := MapSet(activityCounts, path, 0);
    }

    /** The existence check of a successful poll of `path`. */
    method CheckAppearance(path: string, currentSize: nat, currentMTime: int) returns (events: seq<Event>)
      requires Valid() && path in fileExists
      modifies this
      ensures Valid()
      ensures var t := Appear(path, old(StateOf(path)), currentSize, currentMTime);
              Stored(path, t.state) && events == t.events
      ensures pollingInterval == old(pollingInterval)
    {
      events := [];
      if !fileExists[path] {
        fileExists := MapSet(fileExists, path, true);
        lastSizes := MapSet(lastSizes, path, currentSize);
        lastMTimes := MapSet(lastMTimes, path, currentMTime);
        events := events + [Event(path, Create, NoPayload)];
      }
    }

    /** The event a change of modification time of `path` to `currentMTime` at size
        `currentSize` is reported as, by comparing the size with the recorded one. */
    method ChangeFor(path: string, currentSize: nat, currentMTime: int, contents: seq<byte>) returns (e: Event)
      requires Valid() && path in fileExists
      ensures e == ChangeEvent(path, Get(lastSizes, path), currentSize, currentMTime, contents)
    {
      if path in lastSizes && currentSize > lastSizes[path] {
        e := ReadNewContent(path, Write, Get(lastSizes, path), currentSize, contents);
      } else if path in lastSizes && currentSize < lastSizes[path] {
        e := Event(path, Truncate, Truncated(currentSize, currentMTime));
      } else {
        e := ReadNewContent(path, Append, Get(lastSizes, path), currentSize, contents);
      }
    }

    /** The change check of a successful poll of `path`: counts, classifies and records a
        change of modification time. */
    method CheckChange(path: string, currentSize: nat, currentMTime: int, contents: seq<byte>) returns (events: seq<Event>)
      requires Valid() && path in fileExists
      modifies this
      ensures Valid()
      ensures var t := Detect(path, old(StateOf(path)), currentSize, currentMTime, contents);
              Stored(path, t.state) && events == t.events
      ensures pollingInterval == old(pollingInterval)
    {
      events := [];
      if path !in lastMTimes || currentMTime != lastMTimes[path] {
        activityCounts := MapSet(activityCounts, path, activityCounts[path] + 1);
        var e := ChangeFor(path, currentSize, currentMTime, contents);
        events := events + [e];
        lastSizes := MapSet(lastSizes, path, currentSize);
        lastMTimes := MapSet(lastMTimes, path, currentMTime);
      }
    }

    /** The failure branch of a poll of `path`: a missing file is marked absent (with a
        delete if it was present); any other failure is reported. */
    method ReportFailure(path: string, code: string) returns (events: seq<Event>)
      requires Valid() && path in fileExists
      modifies this
      ensures Valid()
      ensures var o := Poll(path, old(StateOf(path)), old(pollingInterval), Cfg(), StatError(code), []);
              Stored(path, o.state) && events == o.events
      ensures pollingInterval == old(pollingInterval)
    {
      events := [];
      if code == NotFoundCode {
        if fileExists[path] {
          fileExists := MapSet(fileExists, path, false);
          events := events + [Event(path, Delete, NoPayload)];
        }
      } else {
        events := events + [Event(path, Error, Cause(code))];
      }
    }

    /** The poll cycle of `path` once its stat has reported `r`; `contents` are the bytes a
        content stream opened now reads. Returns the events in emission order and the delay the
        cycle re-arms itself with, if it does. */
    method PollStep(path: string, r: StatResult, contents: seq<byte>) returns (events: seq<Event>, rearm: Option<real>)
      requires Valid() && path in fileExists
      modifies this
      ensures Valid()
      ensures var o := Poll(path, old(StateOf(path)), old(pollingInterval), Cfg(), r, contents);
              Stored(path, o.state) && pollingInterval == o.interval && events == o.events && rearm == o.rearm
      ensures Trace(Abstract(), events) == Step(old(Abstract()), Cfg(), Polled(path, r, contents))
    {
      ghost var e0, s0, m0, c0 := fileExists, lastSizes, lastMTimes, activityCounts;
      TablesUpdate(e0, s0, m0, c0, path, Poll(path, StateOf(path), pollingInterval, Cfg(), r, contents).state);
      if r.StatError? {
        events := ReportFailure(path, r.code);
        return events, None;
      }
      var created := CheckAppearance(path, r.size, r.mtime);
      ghost var seen := StateOf(path);
      var changed := CheckChange(path, r.size, r.mtime, contents);
      ghost var detected := StateOf(path);
      events := created + changed;
      AdjustInterval(path);
      rearm := Some(pollingInterval);
      MapSetTwice(e0, path, seen.present, detected.present);
      PutTwice(s0, path, seen.lastSize, detected.lastSize);
      PutTwice(m0, path, seen.lastMTime, detected.lastMTime);
      MapSetTwice(c0, path, seen.activity, detected.activity);
      MapSetTwice(e0, path, detected.present, detected.present);
      PutTwice(s0, path, detected.lastSize, detected.lastSize);
      PutTwice(m0, path, detected.lastMTime, detected.lastMTime);
      MapSetTwice(c0, path, detected.activity, 0);
    }

    /** The handler of a filesystem notification of type `eventType` for `path`; `accessible`
        is the outcome of its access check. */
    method HookRename(path: string, eventType: string, accessible: bool) returns (events: seq<Event>)
      requires Valid() && path in fileExists
      modifies this
      ensures Valid()
      ensures var t := Hook(path, old(StateOf(path)), eventType, accessible);
              Stored(path, t.state) && events == t.events
      ensures pollingInterval == old(pollingInterval)
      ensures Trace(Abstract(), events) == Step(old(Abstract()), Cfg(), Notified(path, eventType, accessible))
    {
      TablesUpdate(fileExists, lastSizes, lastMTimes, activityCounts, path, Hook(path, StateOf(path), eventType, accessible).state);
      events := [];
      if eventType == RenameType {
        if !accessible {
          if fileExists[path] {
            fileExists := MapSet(fileExists, path, false);
            events := events + [Event(path, Delete, NoPayload)];
          }
        } else {
          if !fileExists[path] {
            fileExists := MapSet(fileExists, path, true);
            events := events + [Event(path, Create, NoPayload)];
          }
        }
      }
    }
  }
}
