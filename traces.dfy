/** Runs of the watcher: sequences of observations (stat results delivered to poll cycles,
    notifications delivered to the rename handler) over all watched paths, with the shared
    interval threaded through. The properties here hold of every interleaving. */
module Traces {
  import opened Wrappers
  import opened Reader
  import opened Interval
  import opened Events
  import opened Cycle

  /** What the filesystem tells the watcher next: a stat result for one path's poll cycle, or
      a notification for one path's handler together with its access check's outcome. */
  datatype Observation =
    | Polled(path: string, stat: StatResult, contents: seq<byte>)
    | Notified(path: string, eventType: string, accessible: bool)

  /** All paths' table entries and the shared polling interval. */
  datatype State = State(files: map<string, PathState>, interval: real)

  datatype Trace = Trace(state: State, events: seq<Event>)

  /** One observation. A path that is not watched has no poll cycle and no handler. */
  function Step(st: State, cfg: Config, ob: Observation): (t: Trace)
    ensures t.state.files.Keys == st.files.Keys
    ensures forall q :: q in st.files && q != ob.path ==> t.state.files[q] == st.files[q]
    ensures forall i :: 0 <= i < |t.events| ==> t.events[i].path == ob.path
    ensures ob.path !in st.files ==> t == Trace(st, [])
  {
    if ob.path !in st.files then Trace(st, [])
    else
      match ob
      case Polled(p, r, c) =>
        var o := Poll(p, st.files[p], st.interval, cfg, r, c);
        Trace(State(st.files[p := o.state], o.interval), o.events)
      case Notified(p, k, a) =>
        var h := Hook(p, st.files[p], k, a);
        Trace(State(st.files[p := h.state], st.interval), h.events)
  }

  /** The observations in order; the events are emitted in order too. */
  function Execute(st: State, cfg: Config, obs: seq<Observation>): (t: Trace)
    ensures t.state.files.Keys == st.files.Keys
    decreases |obs|
  {
    if obs == [] then Trace(st, [])
    else
      var first := Step(st, cfg, obs[0]);
      var rest := Execute(first.state, cfg, obs[1..]);
      Trace(rest.state, first.events + rest.events)
  }

  // ---------------------------------------------------------------------------------------
  // Existence: the events of a path replay its existence flag

  /** `events` are what a consumer of path `q` may see, starting from existence `present`:
      create only when absent, delete only when present, content and truncation only when
      present; errors at any time. */
  predicate Consistent(events: seq<Event>, q: string, present: bool)
    decreases |events|
  {
    if events == [] then true
    else
      var e := events[0];
      if e.path != q || e.kind == Error then Consistent(events[1..], q, present)
      else if e.kind == Create then !present && Consistent(events[1..], q, true)
      else if e.kind == Delete then present && Consistent(events[1..], q, false)
      else present && Consistent(events[1..], q, present)
  }

  /** Path `q`'s existence after a consumer has seen `events`. */
  function Presence(events: seq<Event>, q: string, present: bool): bool
    decreases |events|
  {
    if events == [] then present
    else
      var e := events[0];
      var now := if e.path == q && e.kind == Create then true
                 else if e.path == q && e.kind == Delete then false
                 else present;
      Presence(events[1..], q, now)
  }

  lemma {:induction false} ConsistentAppend(a: seq<Event>, b: seq<Event>, q: string, present: bool)
    ensures Consistent(a + b, q, present) <==> Consistent(a, q, present) && Consistent(b, q, Presence(a, q, present))
    ensures Presence(a + b, q, present) == Presence(b, q, Presence(a, q, present))
    decreases |a|
  {
    if a == [] {
      assert a + b == b;
    } else {
      assert (a + b)[0] == a[0];
      assert (a + b)[1..] == a[1..] + b;
      var e := a[0];
      var now := if e.path == q && e.kind == Create then true
                 else if e.path == q && e.kind == Delete then false
                 else present;
      ConsistentAppend(a[1..], b, q, now);
    }
  }

  /** Events of other paths say nothing about `q`. */
  lemma {:induction false} OtherPathEvents(events: seq<Event>, q: string, present: bool)
    requires forall i :: 0 <= i < |events| ==> events[i].path != q
    ensures Consistent(events, q, present) && Presence(events, q, present) == present
    decreases |events|
  {
    if events != [] {
      OtherPathEvents(events[1..], q, present);
    }
  }

  /** One observation keeps path `q`'s events consistent with its flag. */
  lemma StepConsistent(st: State, cfg: Config, ob: Observation, q: string)
    requires q in st.files
    ensures var t := Step(st, cfg, ob);
            Consistent(t.events, q, st.files[q].present) &&
            Presence(t.events, q, st.files[q].present) == t.state.files[q].present
  {
    var t := Step(st, cfg, ob);
    if ob.path != q || ob.path !in st.files {
      OtherPathEvents(t.events, q, st.files[q].present);
    } else {
      var s := st.files[q];
      assert |t.events| <= 1;
      if |t.events| == 1 {
        assert t.events[1..] == [];
      }
    }
  }

  /** In every run, every path's events replay its existence flag: the flag at the end is the
      one the events lead a consumer to, and no event of the path contradicts it. */
  lemma {:induction false} ExecuteConsistent(st: State, cfg: Config, obs: seq<Observation>, q: string)
    requires q in st.files
    ensures var t := Execute(st, cfg, obs);
            Consistent(t.events, q, st.files[q].present) &&
            Presence(t.events, q, st.files[q].present) == t.state.files[q].present
    decreases |obs|
  {
    if obs != [] {
      var first := Step(st, cfg, obs[0]);
      StepConsistent(st, cfg, obs[0], q);
      ExecuteConsistent(first.state, cfg, obs[1..], q);
      var rest := Execute(first.state, cfg, obs[1..]);
      ConsistentAppend(first.events, rest.events, q, st.files[q].present);
    }
  }

  /** The kinds of path `q`'s create and delete events, in order. */
  function Lifecycle(events: seq<Event>, q: string): seq<EventKind>
    decreases |events|
  {
    if events == [] then []
    else
      var e := events[0];
      (if e.path == q && (e.kind == Create || e.kind == Delete) then [e.kind] else []) + Lifecycle(events[1..], q)
  }

  /** Creates and deletes strictly alternate, beginning with the one the flag allows. */
  predicate Alternating(kinds: seq<EventKind>, present: bool)
    decreases |kinds|
  {
    kinds == [] || (kinds[0] == (if present then Delete else Create) && Alternating(kinds[1..], !present))
  }

  lemma {:induction false} ConsistentAlternates(events: seq<Event>, q: string, present: bool)
    requires Consistent(events, q, present)
    ensures Alternating(Lifecycle(events, q), present)
    decreases |events|
  {
    if events != [] {
      var e := events[0];
      if e.path == q && e.kind == Create {
        ConsistentAlternates(events[1..], q, true);
        assert Lifecycle(events, q) == [Create] + Lifecycle(events[1..], q);
      } else if e.path == q && e.kind == Delete {
        ConsistentAlternates(events[1..], q, false);
        assert Lifecycle(events, q) == [Delete] + Lifecycle(events[1..], q);
      } else {
        ConsistentAlternates(events[1..], q, present);
        assert Lifecycle(events, q) == Lifecycle(events[1..], q);
      }
    }
  }

  /** No two creates and no two deletes follow one another. */
  lemma {:induction false} AlternatingNoRepeat(kinds: seq<EventKind>, present: bool)
    requires Alternating(kinds, present)
    ensures forall i :: 0 <= i < |kinds| - 1 ==> kinds[i] != kinds[i + 1]
    decreases |kinds|
  {
    if kinds != [] {
      AlternatingNoRepeat(kinds[1..], !present);
      forall i | 0 <= i < |kinds| - 1
        ensures kinds[i] != kinds[i + 1]
      {
        if i > 0 {
          assert kinds[i] == kinds[1..][i - 1] && kinds[i + 1] == kinds[1..][i];
        } else {
          assert kinds[1] == kinds[1..][0];
        }
      }
    }
  }

  /** In every run, each path's creates and deletes alternate, starting from its flag, and never
      repeat. */
  lemma ExecuteAlternates(st: State, cfg: Config, obs: seq<Observation>, q: string)
    requires q in st.files
    ensures var kinds := Lifecycle(Execute(st, cfg, obs).events, q);
            Alternating(kinds, st.files[q].present) &&
            forall i :: 0 <= i < |kinds| - 1 ==> kinds[i] != kinds[i + 1]
  {
    var t := Execute(st, cfg, obs);
    ExecuteConsistent(st, cfg, obs, q);
    ConsistentAlternates(t.events, q, st.files[q].present);
    AlternatingNoRepeat(Lifecycle(t.events, q), st.files[q].present);
  }

  // ---------------------------------------------------------------------------------------
  // The shared interval

  /** Every path's activity count is zero, as it is between cycles. */
  predicate Quiet(files: map<string, PathState>)
  {
    forall q :: q in files ==> files[q].activity == 0
  }

  /** The number of successful stats of watched paths among `obs`. */
  function Successes(obs: seq<Observation>, watched: set<string>): nat
    decreases |obs|
  {
    if obs == [] then 0
    else (if obs[0].Polled? && obs[0].stat.Stats? && obs[0].path in watched then 1 else 0) + Successes(obs[1..], watched)
  }

  /** Between cycles every count is zero, so no cycle counts more than one change before it
      adjusts: the interval is doubled (capped) once per successful stat and untouched
      otherwise; it is never halved. */
  lemma {:induction false} ExecuteInterval(st: State, cfg: Config, obs: seq<Observation>)
    requires Quiet(st.files)
    ensures var t := Execute(st, cfg, obs);
            Quiet(t.state.files) &&
            t.state.interval == Grown(st.interval, cfg.maxInterval, Successes(obs, st.files.Keys))
    decreases |obs|
  {
    if obs != [] {
      var first := Step(st, cfg, obs[0]);
      assert Quiet(first.state.files);
      ExecuteInterval(first.state, cfg, obs[1..]);
    }
  }

  /** A bounded interval moves only up in a run and stays within the bounds. */
  lemma ExecuteIntervalBounded(st: State, cfg: Config, obs: seq<Observation>)
    requires Quiet(st.files)
    requires 0.0 <= cfg.minInterval <= st.interval <= cfg.maxInterval
    ensures st.interval <= Execute(st, cfg, obs).state.interval <= cfg.maxInterval
  {
    ExecuteInterval(st, cfg, obs);
    GrownBounded(st.interval, cfg.minInterval, cfg.maxInterval, Successes(obs, st.files.Keys));
  }

  // ---------------------------------------------------------------------------------------
  // From start

  /** The state `start` leaves: every listed path registered, the initial interval. */
  function Started(paths: seq<string>, initialInterval: real): State
  {
    State(RegisterAll(map[], paths), initialInterval)
  }

  /** From start, for every watched path and every run: its first lifecycle event is a create,
      creates and deletes then alternate, and the interval is the initial one doubled (capped)
      once per successful stat. */
  lemma RunFromStart(paths: seq<string>, initialInterval: real, cfg: Config, obs: seq<Observation>, q: string)
    requires q in paths
    ensures var st := Started(paths, initialInterval);
            var t := Execute(st, cfg, obs);
            Alternating(Lifecycle(t.events, q), false) &&
            t.state.interval == Grown(initialInterval, cfg.maxInterval, Successes(obs, set p | p in paths))
  {
    var st := Started(paths, initialInterval);
    RegisterAllState(map[], paths);
    assert st.files.Keys == set p | p in paths;
    assert Quiet(st.files);
    ExecuteAlternates(st, cfg, obs, q);
    ExecuteInterval(st, cfg, obs);
  }

  // ---------------------------------------------------------------------------------------
  // Tailing a growing file

  /** A stat of a file plus the bytes it then holds. */
  datatype Snapshot = Snapshot(contents: seq<byte>, mtime: int)

  /** Poll cycles of `q` that see the snapshots in turn. */
  function Polls(q: string, snaps: seq<Snapshot>): (obs: seq<Observation>)
    ensures |obs| == |snaps|
    decreases |snaps|
  {
    if snaps == [] then []
    else [Polled(q, Stats(|snaps[0].contents|, snaps[0].mtime), snaps[0].contents)] + Polls(q, snaps[1..])
  }

  /** Each snapshot's contents extend the previous one's: the file is only appended to. */
  predicate Extends(before: seq<byte>, snaps: seq<Snapshot>)
    decreases |snaps|
  {
    snaps == [] || (before <= snaps[0].contents && Extends(snaps[0].contents, snaps[1..]))
  }

  /** The contents at the last snapshot. */
  function Latest(before: seq<byte>, snaps: seq<Snapshot>): seq<byte>
    decreases |snaps|
  {
    if snaps == [] then before else Latest(snaps[0].contents, snaps[1..])
  }

  lemma {:induction false} LatestExtends(before: seq<byte>, snaps: seq<Snapshot>)
    requires Extends(before, snaps)
    ensures before <= Latest(before, snaps)
    decreases |snaps|
  {
    if snaps != [] {
      LatestExtends(snaps[0].contents, snaps[1..]);
    }
  }

  /** The bytes path `q`'s write and append streams yield, concatenated in order. */
  function Delivered(events: seq<Event>, q: string): seq<byte>
    decreases |events|
  {
    if events == [] then []
    else
      var e := events[0];
      (if e.path == q && (e.kind == Write || e.kind == Append) && e.payload.Content? then e.payload.bytes else [])
      + Delivered(events[1..], q)
  }

  lemma {:induction false} DeliveredAppend(a: seq<Event>, b: seq<Event>, q: string)
    ensures Delivered(a + b, q) == Delivered(a, q) + Delivered(b, q)
    decreases |a|
  {
    if a == [] {
      assert a + b == b;
    } else {
      assert (a + b)[0] == a[0];
      assert (a + b)[1..] == a[1..] + b;
      DeliveredAppend(a[1..], b, q);
    }
  }

  /** Every event is a write or an append. */
  predicate OnlyContent(events: seq<Event>)
  {
    forall i :: 0 <= i < |events| ==> events[i].kind == Write || events[i].kind == Append
  }

  /** Joining two slices of a file that meet at `mid`, the first taken before the file grew. */
  lemma JoinSlices(c: seq<byte>, latest: seq<byte>, size: nat, mid: nat, end: nat)
    requires c <= latest && size <= mid <= |c| && mid <= end <= |latest|
    ensures c[size..mid] + latest[mid..end] == latest[size..end]
  {
    assert c[size..mid] == latest[size..mid];
  }

  /** One cycle over an appended-to present file: it delivers the bytes from the known size
      to the size it records, which is the stat's size when the time changed and the old one
      otherwise, and emits nothing but content events. */
  lemma PollAppended(st: State, cfg: Config, q: string, c: seq<byte>, mtime: int)
    requires q in st.files && st.files[q].present
    requires st.files[q].lastSize.Some? && st.files[q].lastSize.value <= |c|
    ensures var first := Step(st, cfg, Polled(q, Stats(|c|, mtime), c));
            var s := first.state.files[q];
            s.present && s.lastSize.Some? &&
            st.files[q].lastSize.value <= s.lastSize.value <= |c| &&
            Delivered(first.events, q) == c[st.files[q].lastSize.value..s.lastSize.value] &&
            OnlyContent(first.events)
  {
    var size := st.files[q].lastSize.value;
    var first := Step(st, cfg, Polled(q, Stats(|c|, mtime), c));
    if first.events != [] {
      assert first.events == [ChangeEvent(q, Some(size), |c|, mtime, c)];
      assert first.events[1..] == [];
    }
  }

  /** Tailing a present file that is only appended to: the streams of its write and append
      events deliver, in order and exactly once, the bytes from the size known at the start to
      the size known at the end, and no create, delete or truncate is emitted. Bytes the last
      cycles did not see (their time had not changed) are those past the final known size. */
  lemma {:induction false} ExecuteDeliversAppended(st: State, cfg: Config, q: string, before: seq<byte>, snaps: seq<Snapshot>)
    requires q in st.files && st.files[q].present
    requires st.files[q].lastSize.Some? && st.files[q].lastSize.value <= |before|
    requires Extends(before, snaps)
    ensures var t := Execute(st, cfg, Polls(q, snaps));
            var s := t.state.files[q];
            s.present && s.lastSize.Some? &&
            st.files[q].lastSize.value <= s.lastSize.value <= |Latest(before, snaps)| &&
            Delivered(t.events, q) == Latest(before, snaps)[st.files[q].lastSize.value..s.lastSize.value] &&
            OnlyContent(t.events)
    decreases |snaps|
  {
    if snaps != [] {
      var obs := Polls(q, snaps);
      var c := snaps[0].contents;
      var first := Step(st, cfg, obs[0]);
      PollAppended(st, cfg, q, c, snaps[0].mtime);
      assert obs[1..] == Polls(q, snaps[1..]);
      ExecuteDeliversAppended(first.state, cfg, q, c, snaps[1..]);
      var rest := Execute(first.state, cfg, obs[1..]);
      DeliveredAppend(first.events, rest.events, q);
      LatestExtends(c, snaps[1..]);
      JoinSlices(c, Latest(c, snaps[1..]), st.files[q].lastSize.value,
                 first.state.files[q].lastSize.value, rest.state.files[q].lastSize.value);
      assert OnlyContent(first.events + rest.events) by {
        var all := first.events + rest.events;
        forall i | 0 <= i < |all|
          ensures all[i].kind == Write || all[i].kind == Append
        {
          if i >= |first.events| {
            assert all[i] == rest.events[i - |first.events|];
          }
        }
      }
    }
  }
}
