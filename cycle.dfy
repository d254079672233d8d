/** One path's change detection, as pure transitions: what a poll cycle and a rename
    notification do to the path's entries in the watcher's tables, which events they emit, and
    how the shared polling interval moves. The watcher class is proved to follow these. */
module Cycle {
  import opened Wrappers
  import opened Reader
  import opened Interval
  import opened Events

  /** A path's entries in the four tables: `fileExists`, `lastSizes`, `lastMTimes` and
      `activityCounts`. A missing size or time entry is `None`. */
  datatype PathState = PathState(present: bool, lastSize: Option<nat>, lastMTime: Option<int>, activity: nat)

  /** What `fs.stat` reported: an error carrying its code, or the size and modification time
      in milliseconds. */
  datatype StatResult = StatError(code: string) | Stats(size: nat, mtime: int)

  /** The error code that means "no such file". */
  const NotFoundCode: string := "ENOENT"

  /** The notification type that triggers an existence check. */
  const RenameType: string := "rename"

  datatype Config = Config(minInterval: real, maxInterval: real)

  /** A poll cycle's result: the path's new entries, the new shared interval, the events in
      emission order, and the delay the cycle re-arms itself with (`None`: not re-armed). */
  datatype Outcome = Outcome(state: PathState, interval: real, events: seq<Event>, rearm: Option<real>)

  /** A notification's result: the path's new entries and the events emitted. */
  datatype Transition = Transition(state: PathState, events: seq<Event>)

  /** The kind of change a stat with a new modification time reports. */
  datatype Change = Written | Truncation | Appended

  /** Classifies a change by the size delta. A missing last size compares false both ways in
      the source, so it falls through to an append. */
  function Classify(lastSize: Option<nat>, size: nat): (c: Change)
    ensures c == Written <==> lastSize.Some? && size > lastSize.value
    ensures c == Truncation <==> lastSize.Some? && size < lastSize.value
    ensures c == Appended <==> lastSize.None? || size == lastSize.value
  {
    if lastSize.Some? && size > lastSize.value then Written
    else if lastSize.Some? && size < lastSize.value then Truncation
    else Appended
  }

  /** The event carrying a content stream over the bytes from the last known size (from the
      beginning of the file when there is none) up to the current size. */
  function ReadNewContent(path: string, kind: EventKind, lastSize: Option<nat>, size: nat, contents: seq<byte>): (e: Event)
    ensures e.path == path && e.kind == kind && e.payload.Content?
    ensures e.payload.start == lastSize.GetOr(0) && e.payload.end == size
    // the stream yields the bytes from the start offset up to the current size, nothing past
    // the end of the file, and nothing when it starts at or past the current size
    ensures lastSize.GetOr(0) <= size <= |contents| ==> e.payload.bytes == contents[lastSize.GetOr(0)..size]
    ensures size <= lastSize.GetOr(0) ==> e.payload.bytes == []
  {
    var start := lastSize.GetOr(0);
    Event(path, kind, Content(start, size, ReadRange(contents, start, size)))
  }

  /** The event a change with the given last size, current size and time produces. */
  function ChangeEvent(path: string, lastSize: Option<nat>, size: nat, mtime: int, contents: seq<byte>): (e: Event)
    ensures e.path == path
    // growth: a write whose stream starts at the old size and ends at the new one
    ensures lastSize.Some? && size > lastSize.value ==>
      e.kind == Write && e.payload.Content? &&
      e.payload.start == lastSize.value && e.payload.end == size &&
      (size <= |contents| ==> e.payload.bytes == contents[lastSize.value..size])
    // shrinkage: a truncation reporting the new size and time, with no stream
    ensures lastSize.Some? && size < lastSize.value ==> e == Event(path, Truncate, Truncated(size, mtime))
    // same size: an append over an empty range
    ensures lastSize.Some? && size == lastSize.value ==> e == Event(path, Append, Content(size, size, []))
    // no known size: an append streaming the file from its first byte
    ensures lastSize.None? ==>
      e.kind == Append && e.payload.Content? && e.payload.start == 0 && e.payload.end == size &&
      (size <= |contents| ==> e.payload.bytes == contents[..size])
  {
    match Classify(lastSize, size)
    case Written => ReadNewContent(path, Write, lastSize, size, contents)
    case Truncation => Event(path, Truncate, Truncated(size, mtime))
    case Appended => ReadNewContent(path, Append, lastSize, size, contents)
  }

  /** One poll cycle of `path` whose stat reported `r`; `contents` are the bytes a content
      stream opened in this cycle reads. */
  function Poll(path: string, s: PathState, interval: real, cfg: Config, r: StatResult, contents: seq<byte>): (o: Outcome)
    // error cycles keep sizes, times, activity and interval, and do not re-arm
    ensures r.StatError? ==>
      o.rearm.None? && o.interval == interval && o.state.lastSize == s.lastSize &&
      o.state.lastMTime == s.lastMTime && o.state.activity == s.activity
    // a missing file emits a delete exactly when it was present, and is then absent
    ensures r.StatError? && r.code == NotFoundCode ==>
      !o.state.present && o.events == (if s.present then [Event(path, Delete, NoPayload)] else [])
    // any other failure emits exactly one error and changes nothing
    ensures r.StatError? && r.code != NotFoundCode ==>
      o.state == s && o.events == [Event(path, Error, Cause(r.code))]
    // a successful cycle leaves the file present and quiet, and re-arms with the new interval
    ensures r.Stats? ==> o.state.present && o.state.activity == 0 && o.rearm == Some(o.interval)
    // the cycle that sees a file appear records what it saw and reports nothing but the creation
    ensures r.Stats? && !s.present ==>
      o.events == [Event(path, Create, NoPayload)] &&
      o.state.lastSize == Some(r.size) && o.state.lastMTime == Some(r.mtime)
    // an unchanged time on a present file: nothing emitted, nothing recorded
    ensures r.Stats? && s.present && s.lastMTime == Some(r.mtime) ==>
      o.events == [] && o.state.lastSize == s.lastSize && o.state.lastMTime == s.lastMTime
    // a changed time on a present file: one classified change, then the new size and time
    ensures r.Stats? && s.present && s.lastMTime != Some(r.mtime) ==>
      o.events == [ChangeEvent(path, s.lastSize, r.size, r.mtime, contents)] &&
      o.state.lastSize == Some(r.size) && o.state.lastMTime == Some(r.mtime)
    // a path that was quiet before the cycle always backs off: double, capped at the maximum
    ensures r.Stats? && s.activity == 0 ==> o.interval == MinReal(cfg.maxInterval, interval * 2.0)
  {
    match r
    case StatError(code) =>
      if code == NotFoundCode then
        if s.present then Outcome(s.(present := false), interval, [Event(path, Delete, NoPayload)], None)
        else Outcome(s, interval, [], None)
      else Outcome(s, interval, [Event(path, Error, Cause(code))], None)
    case Stats(size, mtime) =>
      var seen := Appear(path, s, size, mtime);
      var changed := Detect(path, seen.state, size, mtime, contents);
      var next := NextInterval(changed.state.activity, interval, cfg.minInterval, cfg.maxInterval);
      Outcome(changed.state.(activity := 0), next, seen.events + changed.events, Some(next))
  }

  /** The existence check of a successful cycle: a file seen for the first time is marked
      present, its size and time recorded, and a create emitted. */
  function Appear(path: string, s: PathState, size: nat, mtime: int): (t: Transition)
    ensures t.state.present && t.state.activity == s.activity
    ensures s.present ==> t == Transition(s, [])
    ensures !s.present ==> t.state.lastSize == Some(size) && t.state.lastMTime == Some(mtime) &&
                           t.events == [Event(path, Create, NoPayload)]
  {
    if s.present then Transition(s, [])
    else Transition(PathState(true, Some(size), Some(mtime), s.activity), [Event(path, Create, NoPayload)])
  }

  /** The change check of a successful cycle: a modification time other than the recorded one
      counts one change, emits its classified event, and records the new size and time. */
  function Detect(path: string, s: PathState, size: nat, mtime: int, contents: seq<byte>): (t: Transition)
    ensures t.state.present == s.present
    ensures s.lastMTime == Some(mtime) ==> t == Transition(s, [])
    ensures s.lastMTime != Some(mtime) ==>
      t.state.lastSize == Some(size) && t.state.lastMTime == Some(mtime) && t.state.activity == s.activity + 1 &&
      t.events == [ChangeEvent(path, s.lastSize, size, mtime, contents)]
  {
    if s.lastMTime == Some(mtime) then Transition(s, [])
    else Transition(s.(lastSize := Some(size), lastMTime := Some(mtime), activity := s.activity + 1),
                    [ChangeEvent(path, s.lastSize, size, mtime, contents)])
  }

  // ---------------------------------------------------------------------------------------
  // The change check as written, with the stream's range validation

  /** Whether `createReadStream` accepts the range a change stream is opened with: `end` is
      `size - 1`, which must not be negative, and `start` is the recorded size, which must not
      exceed `end` (an unrecorded size passes `start: undefined`, which is not checked). */
  predicate StreamOpens(lastSize: Option<nat>, size: nat)
  {
    size >= 1 && (lastSize.None? || lastSize.value <= size - 1)
  }

  /** The change check as the source runs it: either it completes, or opening the content
      stream throws inside the stat callback after the count was raised, so nothing after
      that point runs. */
  datatype Attempt = Completed(t: Transition) | Threw(state: PathState)

  function DetectAsWritten(path: string, s: PathState, size: nat, mtime: int, contents: seq<byte>): (a: Attempt)
    // an unchanged time, and every change that completes, is exactly the modelled check
    ensures a.Completed? ==> a.t == Detect(path, s, size, mtime, contents)
    // a throw leaves the size and time as they were, with the count raised and nothing emitted
    ensures a.Threw? ==> a.state == s.(activity := s.activity + 1)
  {
    if s.lastMTime == Some(mtime) then Completed(Transition(s, []))
    else if Classify(s.lastSize, size) != Truncation && !StreamOpens(s.lastSize, size) then
      Threw(s.(activity := s.activity + 1))
    else Completed(Detect(path, s, size, mtime, contents))
  }

  /** The change check throws exactly when the time changed and the size is the recorded one, or
      no size is recorded and the file is empty: growth and truncation never throw. */
  lemma DetectThrowsExactly(path: string, s: PathState, size: nat, mtime: int, contents: seq<byte>)
    ensures DetectAsWritten(path, s, size, mtime, contents).Threw? <==>
      s.lastMTime != Some(mtime) && (s.lastSize == Some(size) || (s.lastSize.None? && size == 0))
  {
  }

  /** `touch` on a watched file of 10 bytes: the source's stream rejects `start: 10, end: 9`, so
      the cycle emits nothing and records neither the size nor the new time, while the modelled
      check reports an append over the empty range and records both. */
  lemma TouchThrows(contents: seq<byte>)
    ensures var s := PathState(true, Some(10), Some(1000), 0);
            var a := DetectAsWritten("log", s, 10, 2000, contents);
            var t := Detect("log", s, 10, 2000, contents);
            a == Threw(PathState(true, Some(10), Some(1000), 1)) &&
            t.events == [Event("log", Append, Content(10, 10, []))] && t.state.lastMTime == Some(2000)
  {
  }

  /** The handler of a filesystem notification of type `eventType` for `path`; `accessible`
      is the outcome of the access check it runs. */
  function Hook(path: string, s: PathState, eventType: string, accessible: bool): (t: Transition)
    // only the existence flag can change
    ensures t.state.lastSize == s.lastSize && t.state.lastMTime == s.lastMTime && t.state.activity == s.activity
    // a rename sets the flag to the outcome of the access check; anything else is ignored
    ensures t.state.present == if eventType == RenameType then accessible else s.present
    // create or delete is emitted exactly on a real transition, and matches its direction
    ensures t.events == if t.state.present == s.present then []
                        else [Event(path, if t.state.present then Create else Delete, NoPayload)]
  {
    if eventType != RenameType then Transition(s, [])
    else if !accessible then
      if s.present then Transition(s.(present := false), [Event(path, Delete, NoPayload)])
      else Transition(s, [])
    else
      if !s.present then Transition(s.(present := true), [Event(path, Create, NoPayload)])
      else Transition(s, [])
  }

  /** `startWatching` for `path`: absent and quiet; sizes and times are kept when the path was
      already in the tables and missing otherwise. */
  function Register(files: map<string, PathState>, path: string): (f: map<string, PathState>)
    ensures f.Keys == files.Keys + {path}
    ensures !f[path].present && f[path].activity == 0
    ensures path in files ==> f[path].lastSize == files[path].lastSize && f[path].lastMTime == files[path].lastMTime
    ensures path !in files ==> f[path].lastSize.None? && f[path].lastMTime.None?
    ensures forall q :: q in files && q != path ==> f[q] == files[q]
  {
    var s := if path in files then files[path].(present := false, activity := 0) else PathState(false, None, None, 0);
    files[path := s]
  }

  /** `start`: every path in order goes through `startWatching`. The watched paths are then
      the old ones and the listed ones. */
  function RegisterAll(files: map<string, PathState>, paths: seq<string>): (f: map<string, PathState>)
    ensures f.Keys == files.Keys + set p | p in paths
  {
    if paths == [] then files
    else
      var init, last := paths[..|paths| - 1], paths[|paths| - 1];
      assert paths == init + [last];
      assert (set p | p in paths) == (set p | p in init) + {last};
      Register(RegisterAll(files, init), last)
  }

  /** After `start` every listed path is absent and has a zero activity count. */
  lemma {:induction false} RegisterAllQuiet(files: map<string, PathState>, paths: seq<string>)
    ensures forall p :: p in paths ==> p in RegisterAll(files, paths) && !RegisterAll(files, paths)[p].present && RegisterAll(files, paths)[p].activity == 0
  {
    if paths != [] {
      var init := paths[..|paths| - 1];
      RegisterAllQuiet(files, init);
      assert paths == init + [paths[|paths| - 1]];
    }
  }

  /** On first start a listed path has no size or time recorded. */
  lemma {:induction false} RegisterAllFresh(files: map<string, PathState>, paths: seq<string>)
    ensures forall p :: p in paths && p !in files ==>
      p in RegisterAll(files, paths) && RegisterAll(files, paths)[p].lastSize.None? && RegisterAll(files, paths)[p].lastMTime.None?
  {
    if paths != [] {
      var init := paths[..|paths| - 1];
      RegisterAllFresh(files, init);
      assert paths == init + [paths[|paths| - 1]];
    }
  }

  /** `start` touches no path it does not list. */
  lemma {:induction false} RegisterAllOthers(files: map<string, PathState>, paths: seq<string>)
    ensures forall q :: q in files && q !in paths ==> q in RegisterAll(files, paths) && RegisterAll(files, paths)[q] == files[q]
  {
    if paths != [] {
      var init := paths[..|paths| - 1];
      RegisterAllOthers(files, init);
      assert paths == init + [paths[|paths| - 1]];
    }
  }

  /** After `start` every listed path is absent and quiet, no other path is touched, and on
      first start no path has a size or time recorded. */
  lemma RegisterAllState(files: map<string, PathState>, paths: seq<string>)
    ensures RegisterAll(files, paths).Keys == files.Keys + set p | p in paths
    ensures forall p :: p in paths ==> !RegisterAll(files, paths)[p].present && RegisterAll(files, paths)[p].activity == 0
    ensures forall p :: p in paths && p !in files ==>
      RegisterAll(files, paths)[p].lastSize.None? && RegisterAll(files, paths)[p].lastMTime.None?
    ensures forall q :: q in files && q !in paths ==> RegisterAll(files, paths)[q] == files[q]
  {
    RegisterAllQuiet(files, paths);
    RegisterAllFresh(files, paths);
    RegisterAllOthers(files, paths);
  }

  /** Observing the same successful stat twice in a row: the second cycle emits nothing and
      records nothing new. */
  lemma PollRepeated(path: string, s: PathState, interval: real, cfg: Config, size: nat, mtime: int, contents: seq<byte>)
    ensures var o1 := Poll(path, s, interval, cfg, Stats(size, mtime), contents);
            var o2 := Poll(path, o1.state, o1.interval, cfg, Stats(size, mtime), contents);
            o2.events == [] && o2.state == o1.state
  {
  }

  /** Delivering the same notification twice: the second emits nothing and changes nothing. */
  lemma HookRepeated(path: string, s: PathState, eventType: string, accessible: bool)
    ensures var t1 := Hook(path, s, eventType, accessible);
            var t2 := Hook(path, t1.state, eventType, accessible);
            t2.events == [] && t2.state == t1.state
  {
  }
}
