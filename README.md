# Per-minute moving average of translation delivery times

This project models `calculate_moving_average` from `unbabel_cli.py` in Dafny and proves properties of the model. The function reads a stream of translation-delivered events, each with a timestamp and a duration. For every minute it prints the mean duration of the events in a trailing window of `window_size` minutes.

The function keeps exactly two pieces of state:

- a window of admitted events, a double-ended queue;
- a minute cursor, `current_minute`.

For each event it does four things:

1. It truncates the event's timestamp to the minute.
2. On the first event only, it starts the cursor at that minute.
3. For every minute from the cursor up to and including the event's minute, it:
   - pops expired events off the head of the window;
   - emits the mean duration of what is left, or 0 if the window is empty;
   - advances the cursor one minute.
4. It appends the event to the window.

How the model encodes this:

- **Timestamps** are integer microseconds since a minute-aligned epoch.
- **Minutes** are whole minutes since that epoch. `Events.MinuteOf` is floor division by 60 000 000, which matches `replace(second=0, microsecond=0)`.
- **Records** carry their minute and the mean, an exact `real`.
- **Input and output** are sequences: the input is a sequence of events instead of lines of a file, and the output is a sequence of records instead of printed JSON.

The project has seven modules:

- `Optional`: an option type.
- `Events`: events, records and minute truncation.
- `Window`: the eviction test, head eviction, the mean-or-zero value, and the reference set of events a record should average over.
- `Aggregator`, the model itself. It contains:
  - the reference fold (`Advance` for the per-minute loop, `Consume` for one event, `Run` and `MovingAverage` for the whole stream);
  - the imperative version with the source's three loops, as the methods `EvictExpired`, `EmitMinutes` and `CalculateMovingAverage`. Each is proved to compute the corresponding reference function.
- `Properties`: facts for any input order, and, for time-ordered input, where the output stops.
- `Membership`: the main theorem for time-ordered input. Each record's value is the mean of exactly the events strictly inside the window that ends at its minute.
- `Scenario`: the repository's unit-test stream, with its full output derived from the theorems.

Three behaviours of the code, as the model states them:

- **No drain.** Output stops at the last event's minute (`Properties.NoDrainAfterLastEvent`). The repository's test expects ten more records after it (tests/test_your_script.py:27-36). `Scenario.SampleOutput` shows that the code as written yields only the first thirteen records the test expects (lines 14-26).
- **A strict lower bound.** The code evicts an event whose age is at least `window_size` minutes (unbabel_cli.py:32). So an event exactly `window_size` minutes before the start of minute M is already out, and the proved window is `M − window_size < ts < M`.
- **Any window size.** The code does not check `window_size`. The model accepts any integer; a window size of zero or less evicts everything.

## Model

| member | source | states |
|---|---|---|
| Events.MinuteOf | unbabel_cli.py:25 | the minute of a timestamp is the m with m·60 000 000 ≤ ts < (m+1)·60 000 000: seconds and microseconds are zeroed |
| Events.MinuteOfUnique | unbabel_cli.py:25 | that minute is the only one whose span contains the timestamp |
| Events.MinuteOfMonotone | unbabel_cli.py:25 | truncation to the minute preserves the order of timestamps |
| Window.Expired | unbabel_cli.py:32 | the eviction test: an event is expired at minute M when its age at the start of M is at least `window_size` minutes; specified through `Window.Evicted` and `Window.InWindowMembers` |
| Window.Evict | unbabel_cli.py:32-33 | the window after eviction, the rest after the `Window.Evicted` head: `Aggregator.EvictExpired` computes it and `Membership.EvictSelectsWindow` states which events it keeps |
| Window.Evicted | unbabel_cli.py:32-33 | eviction pops a prefix of the window (`Evict` keeps the rest): every popped event is expired, and the first kept event, if any, is not |
| Aggregator.EvictExpired | unbabel_cli.py:32-33 | the popleft loop leaves exactly `Evict` of the window |
| Window.Sum | unbabel_cli.py:37 | the total duration of a window; `Window.MeanIsAverage` and `Window.SumBounds` specify it |
| Window.Mean | unbabel_cli.py:36-39 | the reported value of an empty window is exactly 0 |
| Window.MeanIsAverage | unbabel_cli.py:37 | for a nonempty window, value × number of events = total duration |
| Window.MeanBounds | unbabel_cli.py:36-39 | a value lies between the smallest and the largest duration averaged |
| Window.InWindow | unbabel_cli.py:32 | reference definition of the events a record should average over: its ensures keep only events strictly inside (M − window_size, M); `Window.InWindowMembers` gives both directions |
| Window.InWindowMembers | unbabel_cli.py:32 | the reference window holds an event of the stream exactly when its timestamp is strictly inside (M − window_size, M) |
| Window.InWindowIgnoresLater | unbabel_cli.py:49 | an event at or after the start of minute M does not change the window that ends at M |
| Aggregator.Advance | unbabel_cli.py:30-47 | the per-minute loop as a recursive sweep; specified by `Aggregator.AdvanceCount`, `Aggregator.AdvanceMinutes`, `Aggregator.AdvanceKeepsSuffix` and `Membership.AdvanceAverages` |
| Aggregator.AdvanceCount | unbabel_cli.py:30-47 | the per-minute loop emits one record for each minute from the cursor to the event's minute inclusive, none if the cursor is already past it, and leaves the cursor one minute past the last record |
| Aggregator.AdvanceMinutes | unbabel_cli.py:30-47 | the k-th record of one run of the per-minute loop is for the cursor's minute plus k |
| Aggregator.AdvanceKeepsSuffix | unbabel_cli.py:30-47 | the per-minute loop only drops events from the head of the window |
| Aggregator.ResumeAppends | unbabel_cli.py:30-47 | running the loop with records already emitted places the loop's records after them, with the same final window and cursor |
| Aggregator.ResumeIsAdvance | unbabel_cli.py:30-47 | the loop, started with nothing emitted, computes the recursive per-minute sweep |
| Aggregator.EmitMinutes | unbabel_cli.py:30-47 | the while loop over minutes returns exactly the sweep: final window, final cursor and emitted records |
| Aggregator.Consume | unbabel_cli.py:25-49 | one event: cursor start, per-minute sweep, append; specified by `Aggregator.ConsumeFacts`, `Aggregator.ConsumeCursor`, `Aggregator.ConsumeWindow` and `Properties.ConsumeShape` |
| Aggregator.ConsumeFacts | unbabel_cli.py:25-49 | consuming one event only appends records, leaves the cursor past the event's minute (one past it for the first event), does nothing but append an event that is behind the cursor, and ends the window with the event after a suffix of the old window |
| Aggregator.ConsumeCursor | unbabel_cli.py:25-30 | after one event the cursor is past the event's minute, one past it for the first event, and an event behind the cursor leaves cursor, records and window but for the append unchanged |
| Aggregator.ConsumeWindow | unbabel_cli.py:30-49 | after one event the window is a suffix of the old window followed by the event |
| Aggregator.WindowIsSuffixOfInput | unbabel_cli.py:30-49 | the window is always the last \|window\| consumed events, so it never holds more events than were consumed and each event enters it once |
| Aggregator.Run | unbabel_cli.py:17-49 | the state after a prefix of the input, one `Consume` per event; specified by `Properties.RunCursor`, `Properties.RunShape`, `Aggregator.WindowIsSuffixOfInput` and `Membership.RunSettled` |
| Aggregator.MovingAverage | unbabel_cli.py:17-49 | the records of the whole input; specified by `Membership.MovingAverageIsWindowMean`, `Properties.NoDrainAfterLastEvent` and `Properties.ConsecutiveMinutes` |
| Aggregator.CalculateMovingAverage | unbabel_cli.py:17-49 | the loop over events returns exactly the records of the reference fold `MovingAverage` |
| Properties.EmptyInputEmitsNothing | unbabel_cli.py:22-49 | no input, no records |
| Properties.FirstConsume | unbabel_cli.py:27-39 | the first event starts the cursor at its minute, emits exactly one record for that minute with value 0, and leaves the cursor one minute later |
| Properties.ConsumeShape | unbabel_cli.py:27-47 | from cursor c, an event at minute m moves the cursor to max(c, m + 1) and emits the records for minutes c … m |
| Properties.RunCursor | unbabel_cli.py:22-49 | for any input order, the cursor ends one minute past the latest event minute |
| Properties.RunShape | unbabel_cli.py:22-49 | for any input order, the records are for the consecutive minutes from the first event's minute to the latest event minute |
| Properties.FirstRecordIsZero | unbabel_cli.py:27-39 | the first record is for the first event's minute and has value 0 |
| Properties.ConsecutiveMinutes | unbabel_cli.py:47 | consecutive records are exactly one minute apart, with no gaps and no repeats |
| Properties.CursorPastConsumed | unbabel_cli.py:27-49 | after any input, every consumed event, and so every event in the window, lies before the start of the cursor's minute |
| Properties.LateEventEmitsNothing | unbabel_cli.py:30 | an event whose minute was already emitted emits no record and is only appended to the window |
| Properties.SameMinuteEmitsOnce | unbabel_cli.py:30-47 | a second event in the same minute as the previous one emits no record, so each minute is emitted once |
| Properties.NoDrainAfterLastEvent | unbabel_cli.py:22-49 | for time-ordered input there is one record per minute from the first event's minute to the last event's, and the last record is for the last event's minute: nothing is emitted after the final event |
| Membership.EvictSelectsWindow | unbabel_cli.py:32-33 | once settled, eviction at minute M leaves exactly the consumed events strictly inside (M − window_size, M) |
| Membership.AdvanceSettled | unbabel_cli.py:30-47 | the per-minute loop keeps the window settled: a tail of the consumed events, whose evicted part is all expired, before the cursor |
| Membership.AdvanceAverages | unbabel_cli.py:30-47 | from a settled state, each record of the per-minute loop is the mean of the consumed events inside its minute's window |
| Membership.SettledAppend | unbabel_cli.py:49 | appending an event before the cursor keeps the window settled |
| Membership.RunSettled | unbabel_cli.py:22-49 | after any time-ordered input, the window is settled at the cursor |
| Membership.NewRecordAverages | unbabel_cli.py:30-49 | the records emitted for an event are means of windows that the event, appended afterwards, does not enter |
| Membership.OldRecordAverages | unbabel_cli.py:49 | records emitted earlier keep their meaning when a later event is consumed |
| Membership.RunAverages | unbabel_cli.py:22-49 | every record of a time-ordered run is the mean of its window over the input so far |
| Membership.MovingAverageIsWindowMean | unbabel_cli.py:17-49 | for time-ordered input, the value for minute M is the mean duration of exactly the events with M − window_size < ts < M, and 0 when there are none |
| Scenario.SampleMembership | tests/test_your_script.py:7-9 | which minutes' windows each of the three test events lies in |
| Scenario.SampleSelection | tests/test_your_script.py:7-9 | the window of the test stream is the in-window test events, in stream order |
| Scenario.SampleWindows | tests/test_your_script.py:7-26 | which of the three test events lie in each window from 18:11 to 18:23 |
| Scenario.SampleMinutes | tests/test_your_script.py:14-26 | the test stream yields thirteen records, for 18:11 to 18:23 |
| Scenario.SampleOutput | tests/test_your_script.py:14-26 | the test stream yields exactly 0, then 20 four times, then 25.5 six times, then 31 twice |

## Left out

- Command-line parsing and `main` (unbabel_cli.py:8-12, 51-56): these are argument plumbing.
- File reading, line splitting, `json.loads`, `json.dumps` and `print` (unbabel_cli.py:21-23, 42-45): these are I/O and serialisation. The input is a sequence of events and the output a sequence of records.
- `strptime` and `strftime` (unbabel_cli.py:15, 43): timestamps are integer microseconds and a record's date is a minute number. Date parsing and formatting are not modelled.
- Timestamps and minutes are unbounded integers. Python's `datetime` covers only the years 1 to 9999: `strptime` rejects later dates, and `current_minute += timedelta(minutes=1)` (unbabel_cli.py:47) raises `OverflowError` right after the record for 9999-12-31 23:59 is emitted. The model has no such error and keeps emitting.
- Window.Expired: compares exact integer ages with `window_size` minutes. The source divides floating-point `total_seconds()` by 60, and that rounding is not modelled.
- Window.Mean: is the exact rational mean. The source's floating-point division, `round(avg, 1)`, and the difference between printing `0` and `20.0` are not modelled.
- Durations are integers. Fractional durations in the input are not modelled.
- The post-input drain that the test expects (tests/test_your_script.py:27-36): it is not in the code, so it is not in the model.
- Membership.MovingAverageIsWindowMean: holds for time-ordered input only. For out-of-order input the code evicts stopping at the first young head, and the model proves only the shapes in `Properties` for that case.
