# Resilient event logging: a Dafny model

This project models the logging core of the traceability application
(`logger.py`). It covers three state machines and two helpers:

- **the buffered sink** (`_BufferedSink`). It appends log lines to a dated
  file `<app><suffix>_<YYYY-MM-DD>.log` under `<root>/logs`. While the
  destination refuses writes, it keeps records in a bounded FIFO queue that
  drops the oldest records first. It replays the queue in order once writes
  land again, and it tracks `offline`, `last_error`, `last_path` and
  `just_recovered`.
- **the connectivity tracker** (`_update_status`, the `_safe_note_*`
  re-entrancy guards, and the ok/error decision of `_handle_sink_result`).
  Each kind (network, disk) has a tri-state status. The tracker announces one
  `<kind>_connection_available|restored|lost` event per actual change.
- **the key-sequence coalescer** (the key branch of `log_event` and
  `_flush_key_buffer`). It gathers keystrokes from one user in one widget,
  each within 1000 ms of the previous one, into one `key_sequence` record
  with a flush reason.
- the payload merge (`_merge_payload`) and the dated file name (`_filename`).

The model is functional. Sinks, trackers and coalescer states are immutable
datatypes, and every operation is a pure function from the old state to the
new one. The file system is a `Store`: a map from file to its lines, plus a
script of fates (`Lands` or `Refused(reason)`) that decides each append
attempt in order. Attempts past the end of the script land. A root that is
missing or empty has no `logs` directory, so every attempt under it fails
with "Logs directory not configured" and never consults the script. A record
is a pair of an opaque line and its date as an already formatted
`YYYY-MM-DD` string. Timestamps in the coalescer are integer milliseconds.
`str.isprintable` is a parameter `printable: string -> bool`.

Files: `wrappers.dfy` (Option), `destination.dfy` (paths, file names, the
store and its fates), `buffered_sink.dfy`, `connectivity.dfy`,
`key_coalescer.dfy`, `payload.dfy`.

In these places the code does something other than one might assume, and the
model follows the code:

- `write` returns the result of the replay that follows a successful direct
  write, not the result of the direct write. A landed line followed by a
  refused replay gives `false` (`BufferedSink.Write`).
- A successful `write` puts the new line on the destination before the older
  queued lines (`BufferedSink.Write`: the delivered run is `[rec] +` the
  replayed prefix).
- A key that arrives more than 1000 ms after the last one flushes the old
  sequence with reason `timeout`, not `sequence_break`. The
  `sequence_break` reason only arises when the user or the widget changes
  within the timeout (`KeyCoalescer.TypingKeyCases`).
- A key that types nothing, arriving within the timeout, flushes the pending
  sequence with reason `non_textual_key`, because it goes through the
  general pending-event flush (`KeyCoalescer.InterruptionCases`).
- The recovery marker `just_recovered` never changes which event is
  announced. `_update_status` is silent when the status does not change,
  and a success on a kind already up is no change
  (`Connectivity.RecoveryMarkerNeverChangesEvents`).

## Model

| member | source | states |
|---|---|---|
| `Destination.LogsDir` | logger.py:53-56 | there is a logs directory exactly when the root is present and non-empty |
| `Destination.DateFileName` | logger.py:58-62 | with or without a suffix, the name is `<app><suffix>_<date>.log` |
| `Destination.DateRoundTrip` | logger.py:58-62 | the date can be read back from every dated file name |
| `Destination.DistinctDatesDistinctFiles` | logger.py:58-62 | two file names of one sink are equal exactly when their dates are equal |
| `Destination.WriteDirect` | logger.py:64-73 | with no logs directory the attempt fails with "Logs directory not configured" and changes nothing; otherwise the next fate decides; a landed line is added at the end of its file and its path is reported; a refused attempt leaves the files alone and reports the refusal |
| `Destination.DeliverRoutes` | logger.py:70-72 | after a run of appends, every file holds its old lines followed by exactly the run's lines for that file, in run order |
| `Destination.LeadingLands` | logger.py:88-95 | the replay stops at the first refused attempt: every earlier attempt landed, and the one at the stopping index (if any) was refused |
| `BufferedSink.Create` | logger.py:31-40 | a new sink is valid, with an empty queue, online, with no error, no path and no recovery |
| `BufferedSink.Configure` | logger.py:42-51 | configuring always clears the recovery marker; a missing root empties the queue and clears offline, error and path; a present root keeps the queue and error state; validity is preserved |
| `BufferedSink.AppendBuffer` | logger.py:75-79 | the queue becomes the longest suffix of (old queue + new record) that fits the bound, so its length is min(old + 1, bound) and the newest records are kept in order |
| `BufferedSink.AppendBufferAsWritten` | logger.py:75-79 | the trim exactly as written (a slice from minus the bound); for every bound of at least 1 it agrees with the corrected trim |
| `BufferedSink.ZeroBoundKeepsEverything` | logger.py:77-79 | with a bound of 0, the trim as written keeps every record, so the queue grows past its bound |
| `BufferedSink.Drain` | logger.py:86-95 | the number of records written is the index of the first refused attempt; exactly that prefix reaches the destination, in order; an error is reported exactly when the prefix is not all of the queue, and it is the text of the refusal (or "Logs directory not configured" when there is no logs directory); one fate is consumed per attempt, up to and including the refused one, and none without a logs directory; the last path is the path of the last record written |
| `BufferedSink.FlushBuffer` | logger.py:81-98 | with first refusal at k of n queued records, records [0, k) are delivered in order, min(k + 1, n) fates are consumed, the queue becomes exactly the records from k on, and the sink is offline with an error exactly when k < n, that error being the text of the k-th attempt's refusal; the last path is that of record k - 1, or unchanged when k = 0; an empty queue, or a replay where all land, gives an empty queue, online, no error and true |
| `BufferedSink.Landed` | logger.py:108-117 | once the new record has landed, it and the replayed prefix of the queue reach the destination in that order, the rest stays queued, the result is true exactly when the whole queue landed, offline and the error follow the result, and recovery is marked exactly on true from an offline or non-empty sink |
| `BufferedSink.Write` | logger.py:100-117 | a sink with no root returns true and changes nothing; a failed direct write queues the record within the bound, sets offline and the refusal's text as the error, consumes one fate (none without a logs directory), keeps the last path, leaves the files alone and returns false; a landed write delivers the new line first, then the replayed prefix, and returns the replay's result; a true result always leaves the sink online with no error; recovery is marked exactly when the call returns true and the sink was offline or had records queued; validity is preserved |
| `BufferedSink.WriteBookkeeping` | logger.py:104-117 | after a landed write with first refused queued record at k of n, 1 + min(k + 1, n) fates are consumed; a refusal leaves the sink offline with that refusal's text as the error; the last path is the last landed record's, the new record's when none of the queue landed |
| `BufferedSink.TryFlush` | logger.py:119-128 | a sink with no root returns true and changes nothing; otherwise the queue's landing prefix (k of n) is delivered in order, min(k + 1, n) fates are consumed, the rest stays queued, offline and the error follow the result, the error being the refusal's text, the last path is that of the last landed record, and recovery is marked exactly on a true result from an offline or non-empty sink; validity is preserved |
| `BufferedSink.UnreachableKeepsNewest` | logger.py:100-113 | any number of writes to a destination that refuses everything leave exactly the newest `max_buffer` records of (old queue + new records) queued, in original order, with no file touched and the writes reporting failure |
| `BufferedSink.ReachableFlushDrainsAll` | logger.py:119-128 | when every attempt lands, a flush delivers the whole queue in order, empties it, sets the sink online and marks recovery exactly when it was offline or non-empty |
| `BufferedSink.PartialReplayResumes` | logger.py:86-95 | a replay stopped by a refusal keeps the rest queued, and a later replay on which every attempt lands delivers that rest, so across both the whole original queue reaches the destination in order, each record once |
| `BufferedSink.OfflineRecordsReplayInOrder` | logger.py:100-128 | records written while the destination refuses everything are delivered, once it accepts again, in the exact order they were produced (the newest `max_buffer` of them), and the sink reports recovery |
| `BufferedSink.NewDayNewFile` | logger.py:58-73 | two records of different dates that both land go to two different files, each to the file of its own date |
| `Connectivity.UpdateStatus` | logger.py:515-532 | the status becomes the observation; an event is announced exactly when the observation differs from the known status; it names the kind, is up exactly when the observation is ok, and is `available` exactly for an ok first observation; its name is `<kind>_connection_lost` for a failure, `_available` for a first success and `_restored` for a later one |
| `Connectivity.SafeNote` | logger.py:148-189 | while the kind's guard is raised an observation changes nothing and announces nothing; otherwise only the kind's status changes, to the observation, and an event is announced exactly when that is a change (lost, available for a first success, restored for a later one); the guards are as before afterwards |
| `Connectivity.NestedNoteIsSilent` | logger.py:148-189 | while the event of one kind is being logged, further observations of that kind are dropped, and the other kind is unaffected |
| `Connectivity.HandleSinkResult` | logger.py:192-228 | no sink, no effect; otherwise (guard lowered) the status becomes the sink's result, an event is announced exactly when that changes the status (lost, available or restored), a success clears the sink's recovery marker and a failure leaves the sink alone; with the kind's guard raised the tracker is unchanged; the other kind's status and both guards are untouched |
| `Connectivity.RecoveryMarkerNeverChangesEvents` | logger.py:192-228 | the tracker and the announced event do not depend on the sink's recovery marker |
| `Connectivity.EventsCountChanges` | logger.py:515-532 | over any series of observations of one kind, the number of events equals the number of actual changes of value, the first observation after unknown counting as one |
| `Connectivity.RunKinds` | logger.py:526-530 | every event of a series names the observed kind |
| `Connectivity.RunEnds` | logger.py:515-532 | the first event of a series differs from the prior status, and the status ends at the last observation, which is the last event's state |
| `Connectivity.EventsAlternate` | logger.py:525-530 | consecutive events of a series alternate between up and lost |
| `Connectivity.OnlyFirstIsAvailable` | logger.py:525-530 | only an ok first observation from unknown is `available`; every later recovery is `restored` |
| `KeyCoalescer.FlushKeyBuffer` | logger.py:378-405 | an idle coalescer emits nothing; otherwise exactly one `key_sequence` record goes out, carrying the text, its length, the user, the widget, the first and last key moments, the keys, the level and the reason; afterwards the coalescer is idle |
| `KeyCoalescer.LogEvent` | logger.py:445-512 | after a call a sequence is pending exactly when the call was a key that typed printable text |
| `KeyCoalescer.LogEventKeepsWellFormed` | logger.py:471-512 | every call keeps the pending sequence well formed (text = keys' texts in order, start and end = first and last key, each key within 1000 ms of the previous one) and every flushed sequence is well formed with length = text length |
| `KeyCoalescer.TypingKeyCases` | logger.py:471-512 | a typing key after a gap over 1000 ms flushes the old sequence as `timeout`; within the gap, the same user and widget extend it; a different user or widget flushes it as `sequence_break`; an idle coalescer starts a sequence; the raw key is always logged first |
| `KeyCoalescer.InterruptionCases` | logger.py:408-481 | idle or not, a key that types nothing is logged raw, flushes the pending sequence if any (`timeout` past the gap, else `non_textual_key`), then the sinks, then goes out itself; any other event flushes the pending sequence if any as `non_key_event`, then the sinks, then goes out; the coalescer ends idle |
| `KeyCoalescer.NoTypedTextLost` | logger.py:456-512 | over any series of events, the flushed sequence texts followed by the pending text are the earlier pending text followed by everything typed, in order |
| `KeyCoalescer.StepKeepsText` | logger.py:456-512 | one call hands on, as flushed sequence text followed by pending text, exactly the earlier pending text followed by what the call typed |
| `KeyCoalescer.StepAttributed` | logger.py:490-512 | after one call, every key of the pending sequence and of each flushed sequence was typed, by a key event so far, by that sequence's user into its widget |
| `KeyCoalescer.KeysShareUserAndWidget` | logger.py:490-512 | over any series of calls, every flushed or pending sequence holds only keys typed by its own user into its own widget: a sequence never mixes users or widgets |
| `KeyCoalescer.TypingExample` | logger.py:238-512 | keys a, b, c at 0, 300, 900 ms and d at 2500 ms give one `abc` sequence flushed as `timeout` and a pending `d` |
| `Payload.Coerce` | logger.py:349-353 | the coerced value is always representable; a representable value is kept as it is and a foreign one becomes its text |
| `Payload.MergePayload` | logger.py:347-353 | the merged payload has the keys of both; caller fields override, coerced to representable values; other payload fields stay; a representable payload stays representable |
| `Payload.MergeSerializableIsOverride` | logger.py:347-353 | merging representable fields is plain map override |
| `Payload.MergeIdempotent` | logger.py:347-353 | merging the same fields twice is the same as merging them once |

## Findings

| source | as written | input that shows it | evidently intended | confidence | as-written member | corrected member |
|---|---|---|---|---|---|---|
| logger.py:77-79 | the overflow trim slices the list from minus `max_buffer`; for `max_buffer == 0` that is a slice from 0, i.e. the whole list | a sink built with `max_buffer=0` whose direct write fails: its queue holds 1 record, and 2 after a second failure | keep the newest `max_buffer` records, i.e. none for a bound of 0 | low: no caller passes 0 (they pass 20000 and 50000); not executed | `BufferedSink.ZeroBoundKeepsEverything` | `BufferedSink.AppendBuffer` |

The sink model uses the corrected trim. `BufferedSink.AppendBufferAsWritten`
shows that for every bound of at least 1 the two trims agree, so every
configuration the application uses behaves as written.

## Left out

- `path_hint` (logger.py:130-137): it is used only for diagnostic details of status events.
- `_format_line`, JSON serialisation and `datetime` formatting: a log line is an opaque string, and a record carries its date as an already formatted string.
- Real file I/O in `_write_direct`: it is replaced by the store and its script of fates. A refused attempt writes nothing, so a line cut off between the text and the newline is not modelled.
- `KeyCoalescer.LogEvent`: the flushes that `_rotate_if_needed` (reason `date_change`, on a change of date) and the exit hook (reason `atexit`) trigger are not modelled. In particular two keys within 1000 ms on either side of midnight end up in two sequences in the source, not the one `KeyCoalescer.TypingKeyCases` describes.
- `threading.Lock` and concurrency: every sink operation is atomic and sequential. The unlocked `root is None` checks in `write` and `try_flush` are a concurrency detail.
- The `logging` handlers, `_create_file_handler`, `_ensure`, `_emit`, `init_logging`, `_rotate_if_needed`, `set_extra_log_dir`, `get_logger`, the session id (`uuid`) and `atexit`: these are process-wide wiring around the modelled cores. Because of this, the reset of the network status to unknown on (re)initialisation (logger.py:271, 563) is not modelled.
- `flush_pending_events` and `_write_keypress_log` appear in the coalescer only as the outputs `SinksFlushed(reason)` and `KeyLogged(event)`. The sink replay they trigger is `BufferedSink.TryFlush` and `BufferedSink.Write`.
- The announced status event is returned, not logged. Logging it through `log_event`, which writes to the sinks and re-enters the tracker, is represented only by the raised guard (`Connectivity.NestedNoteIsSilent`). The `stage`, path and error details attached to status events are left out.
- `_update_status` treats any kind other than "network" as the disk. The model has exactly the two kinds its callers use.
- `BufferedSink.Write`: with `max_buffer` 0 a failed write follows the corrected trim and queues nothing, so the sink is offline with an empty queue, where the code as written would queue the record (see Findings).
- `BufferedSink.Create`: a negative `max_buffer`, which the trim as written would turn into dropping records from the front, is excluded by the type `nat`.
- `KeyCoalescer.LogEvent`: the raw key write (`_write_keypress_log`) and the sink flush are assumed not to change a connectivity status. When one does, the status event is logged through `log_event` under a non-key name before the key is coalesced, so the pending sequence is flushed as `non_key_event` and the key starts a new sequence; `KeyCoalescer.TypingKeyCases` covers only the case without a status change.
- `KeyCoalescer.LogEvent`: `lower()` of the level is modelled for ASCII letters only, and `str.isprintable` is an arbitrary predicate given as a parameter.
- `Payload.MergePayload`: values are scalars or foreign objects. Containers, and the text Python gives a container that holds a foreign object, are not modelled. The `ValueError` that `json.dumps` raises for a circular structure is not caught by the source and is not modelled.
- Wall-clock time: every moment is a parameter (an integer of milliseconds, or a date string).
