# file-watchr: the change-detection state machine

file-watchr watches an explicit list of files for:

- creation, deletion, growth, truncation and in-place rewrites;
- the bytes appended to each file.

It polls each file with `fs.stat`. The delay between polls is meant to adapt to how active the files are; in fact every successful poll doubles it, capped at the maximum (see "Consequences of the code worth knowing" below). A filesystem notification (`fs.watch`) for a path triggers an extra existence check.

This project models the watcher's state and the transitions on it:

- the four per-path tables `fileExists`, `lastSizes`, `lastMTimes` and `activityCounts`;
- the single `pollingInterval` shared by every path;
- one poll cycle;
- the rename handler;
- `startWatching` and `start`;
- `adjustInterval`;
- the byte range a content stream reads.

Every filesystem call is an input to the model: the stat result, the outcome of the access check, and the bytes the file holds when a content stream is opened.

The project has seven modules:

- `Wrappers`: `Option`, and `Get` as the model of `Map.prototype.get`. A missing entry is `None`, where JavaScript gives `undefined`.
- `Reader`: `ReadRange`, the bytes a read stream yields between two offsets, and how adjacent reads join.
- `Interval`: the adaptive interval rule, `NextInterval`.
- `Events`: the emitted events, a path, a kind (`create`, `delete`, `write`, `append`, `truncate`, `error`) and a payload:
  - a write or append carries its byte range and the bytes;
  - a truncate carries `{size, mtime}`;
  - an error carries its code.
- `Cycle`: one path's transitions as pure functions. These are `Poll` and its phases `Appear` and `Detect`, the classifier `Classify`/`ChangeEvent`, the rename handler `Hook`, and registration `Register`/`RegisterAll`.
- `Traces`: runs, meaning arbitrary interleavings of stat results and notifications over all watched paths. They carry the shared interval from step to step. The properties proved over every run:
  - a path's creates and deletes alternate;
  - the interval grows only, once per successful stat, up to the maximum;
  - tailing an append-only file delivers exactly the appended bytes.
- `Watchr`: the class `FileWatchr`. Its fields are the four tables and the interval, and its methods update them in place as `createFileWatchr`'s closures do. Each method is proved to follow the `Cycle` function for its part of the source. `PollStep` and `HookRename` are also proved to match one `Traces.Step` on the abstract state, so everything proved of runs holds of every sequence of `PollStep` and `HookRename` calls after `Start`. The phase methods (`CheckAppearance`, `CheckChange`, `ReportFailure`, `AdjustInterval`) are the source's private closures; called on their own, outside a `PollStep`, they can reach states no run reaches. For example, six `CheckChange` calls with new times and then `AdjustInterval` halve the interval.

JavaScript's `undefined` is modelled explicitly. The rename handler can mark a path present before any poll has recorded its size. The next poll then reads as follows:

- `currentMTime !== undefined` holds;
- `size > undefined` and `size < undefined` are both false;
- so the change is an append;
- its stream has `start: undefined` and therefore reads from the first byte.

`Classify`, `ChangeEvent` and `ReadNewContent` follow this.

## Model

| member | source | states |
|---|---|---|
| Wrappers.Get | src/index.js:101-106 | a map lookup is `Some` exactly when the key is present, and then holds its value; a missing entry is `None` (`undefined`) |
| Reader.ReadRange | src/index.js:127-131 | the bytes a stream over `[start, end - 1]` would yield: the file's bytes from `start` up to `end` or the end of file, whichever is first, index by index; it is nothing when it starts at or past either; within the file it is the slice `contents[start..end]` |
| Reader.ReadRangeAdjacent | src/index.js:126-131 | a read resuming where the previous one stopped neither skips nor repeats a byte: reads over adjacent ranges concatenate to the read over the joined range |
| Reader.ReadRangeOfPrefix | src/index.js:126-131 | a read ending within the old contents gives the same bytes after the file grew |
| Reader.ReadRangeYieldsAppended | src/index.js:126-131 | reading a grown file from the old length to the new one yields exactly the appended bytes |
| Interval.NextInterval | src/index.js:63-70 | activity above 5 halves the interval, floored at the minimum; otherwise it doubles, capped at the maximum; a bounded interval stays in `[min, max]`; halving never lengthens and doubling never shortens |
| Interval.GrownBounded | src/index.js:68 | any number of capped doublings keep a bounded interval between its start value and the maximum |
| Cycle.Classify | src/index.js:103-112 | a change is a write iff the size grew, a truncation iff it shrank, and otherwise an append: same size, or no size recorded |
| Cycle.ReadNewContent | src/index.js:126-131 | the event carries the stream over `[lastSize, size - 1]`, starting from byte 0 when no size is recorded (`start: undefined`); its bytes are the file's slice from the start to the current size, and nothing when the start is at or past the current size |
| Cycle.ChangeEvent | src/index.js:101-112 | growth gives a write streaming `[lastSize, size)`; shrinkage gives a truncate with `{size, mtime}` and no stream; same size gives an append with an empty range; no recorded size gives an append streaming from byte 0 |
| Cycle.Poll | src/index.js:75-123 | error cycles keep size, time, count and interval and do not re-arm; ENOENT emits a delete iff the file was present and leaves it absent; any other error emits exactly one error event and changes nothing; a successful cycle leaves the file present with count 0 and re-arms with the new interval; the cycle that sees the file appear records the size and time and emits only the create; an unchanged time emits nothing; a changed time emits the one classified change and records the new size and time; a quiet path doubles the interval, capped |
| Cycle.Appear | src/index.js:90-96 | a file already present is untouched; a file not present is marked present, its size and time are recorded and one create is emitted; the count is kept |
| Cycle.Detect | src/index.js:101-116 | an unchanged time changes nothing and emits nothing; a changed time adds one to the count, records the new size and time, and emits the classified change computed from the size recorded before |
| Cycle.DetectAsWritten | src/index.js:101-116 | the change check as the source runs it: when it completes it is exactly `Cycle.Detect`; when the stream's range check throws, the size and time stay as they were, the count is raised and nothing is emitted |
| Cycle.DetectThrowsExactly | src/index.js:101-131 | the check as written throws exactly when the time changed and the size equals the recorded one, or no size is recorded and the file is empty; growth and truncation never throw |
| Cycle.TouchThrows | src/index.js:109-115 | touching a watched 10-byte file: the code as written throws, recording nothing but the raised count, while the modelled check emits an append over `[10, 10)` and records the new time |
| Cycle.Hook | src/index.js:38-53 | only the existence flag can change; after a rename the flag is the access check's outcome; other types change nothing; a create or delete is emitted exactly on a real transition of the flag |
| Cycle.Register | src/index.js:57-59 | the path is watched, absent and has count 0; its recorded size and time are kept (none on first registration); no other path changes |
| Cycle.RegisterAll | src/index.js:20-25 | `start` registers the listed paths in order; the watched paths are then the old ones plus the listed ones (the lemmas below carry the rest of its contract) |
| Cycle.RegisterAllQuiet | src/index.js:20-25 | after `start` every listed path is absent with count 0 |
| Cycle.RegisterAllFresh | src/index.js:20-25 | after `start`, a path not watched before has no size or time recorded |
| Cycle.RegisterAllOthers | src/index.js:20-25 | `start` leaves every unlisted path untouched |
| Cycle.RegisterAllState | src/index.js:20-25 | the key set and the three facts above together |
| Cycle.PollRepeated | src/index.js:90-116 | a second cycle seeing the same stat emits nothing and leaves the path's entries as they are |
| Cycle.HookRepeated | src/index.js:38-53 | delivering the same notification twice: the second emits nothing and changes nothing |
| Traces.Step | src/index.js:36-123 | one observation keeps the set of watched paths, leaves every other path alone and emits only events of its own path; an unwatched path has no cycle and no handler |
| Traces.Execute | src/index.js:36-123 | a run keeps the set of watched paths |
| Traces.StepConsistent | src/index.js:38-96 | one observation's events for a path agree with its existence flag before, and lead to the flag after |
| Traces.ExecuteConsistent | src/index.js:38-96 | in every run, a path's create only comes when it is absent and delete only when present; content and truncation events only come when it is present; replaying the events gives the final flag |
| Traces.ExecuteAlternates | src/index.js:38-96 | in every run a path's creates and deletes alternate, starting with the one its flag allows, and never repeat |
| Traces.ExecuteInterval | src/index.js:101-121 | with every count at 0 between cycles, a run keeps them 0 and its interval is the start value doubled (capped) once per successful stat of a watched path; the halving branch is never taken |
| Traces.ExecuteIntervalBounded | src/index.js:63-72 | in a run a bounded interval only grows, and stays at most the maximum |
| Traces.RunFromStart | src/index.js:20-25 | from `start`, in every run, each listed path's first lifecycle event is a create and creates and deletes alternate after it; the interval is the initial one doubled (capped) once per successful stat |
| Traces.PollAppended | src/index.js:101-116 | one cycle over a present, appended-to file streams exactly the bytes from the recorded size to the size it records, and emits only content events |
| Traces.ExecuteDeliversAppended | src/index.js:101-131 | tailing a present file that is only appended to: the write and append streams deliver, in order and exactly once, the bytes between the size recorded at the start and the size recorded at the end; no create, delete or truncate is emitted |
| Watchr.MapSet | src/index.js:58-59 | `Map.prototype.set`: the table with the key bound to the value and every other entry kept |
| Watchr.Tables | src/index.js:10-14 | the four tables read as one record per watched path, keyed by the paths `fileExists` holds |
| Watchr.TablesUpdate | src/index.js:10-14 | writing one path's record into the four tables changes that path's record and no other |
| Watchr.FileWatchr.constructor | src/index.js:6-14 | no path is watched; the interval and its bounds are the options', defaulting to 1000, 500 and 5000 |
| Watchr.FileWatchr.StartWatching | src/index.js:57-59 | the tables become `Cycle.Register` of the old ones; the interval, sizes and times are untouched |
| Watchr.FileWatchr.Start | src/index.js:20-25 | registers the paths in order: the tables become `Cycle.RegisterAll` of the old ones; the interval is untouched |
| Watchr.FileWatchr.AdjustInterval | src/index.js:63-72 | the interval becomes `NextInterval` of the path's count; the count becomes 0; nothing else changes |
| Watchr.FileWatchr.CheckAppearance | src/index.js:90-96 | the tables and events are those of `Cycle.Appear`; the interval is untouched |
| Watchr.FileWatchr.ChangeFor | src/index.js:103-112 | the event the size comparison picks is `Cycle.ChangeEvent` for the size recorded so far; nothing changes |
| Watchr.FileWatchr.CheckChange | src/index.js:101-116 | the tables and events are those of `Cycle.Detect`; the interval is untouched |
| Watchr.FileWatchr.ReportFailure | src/index.js:77-88 | the tables and events are those of `Cycle.Poll` for that stat error; the interval is untouched |
| Watchr.FileWatchr.PollStep | src/index.js:75-123 | the tables, interval, events and re-arm delay are exactly those of `Cycle.Poll`; the abstract state and events are one `Traces.Step` of the old abstract state |
| Watchr.FileWatchr.HookRename | src/index.js:38-53 | the tables and events are those of `Cycle.Hook`; the interval is untouched; the abstract state and events are one `Traces.Step` |

## Consequences of the code worth knowing

- The interval is one field, `logWatchr.pollingInterval` (src/index.js:65, 68, 166). Every path's cycles read and overwrite it; there is no interval per path.
- An error cycle, ENOENT included, returns at src/index.js:87, before the `setTimeout` at line 121. That path's poll loop therefore ends, and a failed stat is never retried. In the model an error outcome has no re-arm delay (`Cycle.Poll`).
- The activity count goes up at most once per cycle (line 102) and is reset at every adjustment (line 71). So it is at most 1 when `adjustInterval` reads it, and the halving branch (lines 64-66) is unreachable through `poll`: every successful cycle doubles the interval, capped (`Traces.ExecuteInterval`).

## Findings

| source | as written | input that shows it | evidently intended | confidence | as-written member | corrected member |
|---|---|---|---|---|---|---|
| src/index.js:109-111 | a change with an unchanged size goes to the append branch, which opens `createReadStream` with `start: lastSize` and `end: currentSize - 1`; Node rejects `start > end` and a negative `end` synchronously, so the stat callback throws before lines 114-121 | `touch` on a watched 10-byte file: stat reports size 10 with a new time, the stream gets `start: 10, end: 9` (`Cycle.TouchThrows`); also an empty file polled with no size recorded (`end: -1`) | report the change as an append with an empty stream, record the new time and go on polling: the branch's log line and event name call it an append | not executed; depends on Node's documented range check | Cycle.DetectAsWritten | Cycle.Detect |

## Left out

- `fs.watch` registration, the `watchers` table, and the notification callback's registration are not modelled: notifications are inputs (`Observation.Notified`). `fs.watch` throws when a file is missing at `start`, which is not modelled. `start` then stops at the first missing path, so that path and every later one are never registered or polled. A path that is absent right after `start` (`Traces.RunFromStart`) therefore arises in the source only for a file deleted after `start` registered it.
- `stop` (src/index.js:28-33) closes watchers and removes listeners. It is runtime interaction with no state in the model.
- `fs.stat`, `fs.access` and the file's contents are inputs. Their timing relative to the poll cycles is not modelled; each observation is handled atomically.
- Stream plumbing and UTF-8 decoding (src/index.js:133-162) are not modelled. The stream's content is the byte slice `Reader.ReadRange`. Read errors that the stream mirrors to `error` events are left out.
- Cycle.Poll, Cycle.ChangeEvent, Cycle.ReadNewContent, Reader.ReadRange: Node's `createReadStream` throws synchronously when `end` is negative or `start` is past `end`. This happens in two cases:
  - a present file's time changes but its size stays `n`, as after `touch`: line 111 opens the stream with `start: n` and `end: n - 1` (lines 128-129);
  - no size is recorded and the file is empty (`end: -1`).

  In the source the exception escapes the stat callback:
  - the `append` emit at line 149 is never reached;
  - lines 114-121 never run, so the new size and time are not recorded, the count stays raised, `adjustInterval` is not called and the loop does not re-arm;
  - the exception is uncaught, so by default the Node process exits.

  The model follows the evidently intended behaviour instead (see "## Findings"): it emits an append over the empty range (`Content(n, n, [])`), records the new size and time, adjusts the interval and re-arms. `Cycle.DetectAsWritten` models the code as written. Each member below inherits this difference.
- Cycle.Detect: on such a change it records the new size and time and emits the empty append. The source throws before lines 114-115, so neither is recorded and the count stays raised (`Cycle.DetectAsWritten`).
- Watchr.FileWatchr.ChangeFor: on such a change it returns the empty append. The source's `createReadStream` throws instead of returning an event.
- Watchr.FileWatchr.CheckChange: on such a change it records the size and time as `Cycle.Detect` does. The source throws before recording them.
- Watchr.FileWatchr.PollStep: on such a change it records, adjusts the interval and re-arms. The source aborts the cycle there: no adjustment, no re-arm, and by default no process.
- Traces.ExecuteInterval: its "once per successful stat" also counts such a cycle. In the source that cycle throws before `adjustInterval`, so the interval is not doubled and that path's loop ends.
- Traces.RunFromStart: its interval clause counts such cycles as well, for the same reason.
- Traces.PollAppended: its requires allow a stat whose size equals the recorded one with a new time, as after `touch`. There the source throws and records nothing, while the lemma reports an empty delivery and a recorded time.
- Traces.ExecuteDeliversAppended: a snapshot whose contents are unchanged but whose time is new (a `touch` of the tailed file) ends the source's cycle with the exception. The lemma's run goes on polling and delivering after it.
- The event names `${filePath}:kind` and the `EventEmitter` are represented by the `Event` datatype. Console logging is dropped.
- `setTimeout` is represented by the re-arm delay a cycle returns. The time that passes is not modelled.
- Calling `start` twice resets `fileExists` with no delete event and registers a second watcher. It also calls `poll` again for each path (line 23), so every path then has two poll loops. Each loop doubles the shared interval on each successful stat, so the interval reaches its maximum twice as fast. The model covers the table updates (`Cycle.Register` keeps sizes and times); it does not track how many loops a path has. Observations in `Traces` interleave arbitrarily, so the extra loop's cycles are runs the model already covers.
- Watchr.FileWatchr.CheckAppearance, Watchr.FileWatchr.CheckChange, Watchr.FileWatchr.ReportFailure, Watchr.FileWatchr.AdjustInterval: these are public in the model but private in the source. Dafny has no private methods, so nothing stops a caller from invoking them outside `PollStep`.
- `pollingInterval` is a public property that callers may overwrite. The model only changes it through `adjustInterval`.
- JavaScript numbers are modelled as unbounded integers (sizes, times, counts) and exact reals (the interval). Floating-point rounding of halved and doubled intervals is not modelled.
- Interval.NextInterval: the bounds and direction clauses assume a non-negative minimum or interval. Intervals are durations, and with negative values doubling shortens.
- Interval.GrownBounded: assumes a non-negative interval, for the same reason.
- Traces.ExecuteIntervalBounded: assumes a non-negative minimum, for the same reason.
- Watchr.FileWatchr.Valid: requires only that every watched path has a count and that sizes and times are recorded only for watched paths. Those are the facts the source's updates maintain. A watched path can lack a size and a time, for example after the rename handler marked it present.
