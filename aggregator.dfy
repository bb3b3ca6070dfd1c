/**
 * The per-minute sliding-window moving average: the reference fold over the
 * event stream (Advance, Consume, Run) and the loop-based computation
 * CalculateMovingAverage that is proved to produce the same records.
 */
module Aggregator {

  import opened Optional
  import opened Events
  import opened Window

  /** What one run of the per-minute emission loop leaves behind. */
  datatype Sweep = Sweep(window: seq<Event>, cursor: int, records: seq<Record>)

  /** The aggregation state between two input events. */
  datatype State = State(window: seq<Event>, cursor: Option<int>, records: seq<Record>)

  /**
   * The per-minute loop: for every minute from the cursor up to and including
   * `minute`, evict, emit the mean of what is left, advance by one minute.
   */
  function Advance(window: seq<Event>, cursor: int, minute: int, windowSize: int): (r: Sweep)
    decreases minute + 1 - cursor
  {
    if cursor > minute then
      Sweep(window, cursor, [])
    else
      var kept := Evict(window, cursor, windowSize);
      var rest := Advance(kept, cursor + 1, minute, windowSize);
      Sweep(rest.window, rest.cursor, [Record(cursor, Mean(kept))] + rest.records)
  }

  /**
   * The sweep emits one record for each minute from the cursor up to and
   * including `minute`, none when the cursor is already past it, and leaves
   * the cursor one minute past the last record.
   */
  lemma {:induction false} AdvanceCount(window: seq<Event>, cursor: int, minute: int, windowSize: int, r: Sweep)
    requires r == Advance(window, cursor, minute, windowSize)
    ensures cursor > minute ==> r == Sweep(window, cursor, [])
    ensures |r.records| == if cursor <= minute then minute + 1 - cursor else 0
    ensures r.cursor == cursor + |r.records|
    decreases minute + 1 - cursor
  {
    if cursor <= minute {
      var kept := Evict(window, cursor, windowSize);
      AdvanceCount(kept, cursor + 1, minute, windowSize, Advance(kept, cursor + 1, minute, windowSize));
    }
  }

  /** The sweep emits one record per minute, from the cursor up to `minute`. */
  lemma {:induction false} AdvanceMinutes(window: seq<Event>, cursor: int, minute: int, windowSize: int, r: Sweep)
    requires r == Advance(window, cursor, minute, windowSize)
    ensures forall k :: 0 <= k < |r.records| ==> r.records[k].minute == cursor + k
    decreases minute + 1 - cursor
  {
    if cursor <= minute {
      var kept := Evict(window, cursor, windowSize);
      var rest := Advance(kept, cursor + 1, minute, windowSize);
      AdvanceMinutes(kept, cursor + 1, minute, windowSize, rest);
      assert r.records == [Record(cursor, Mean(kept))] + rest.records;
      forall k | 0 < k < |r.records|
        ensures r.records[k].minute == cursor + k
      {
        assert r.records[k] == rest.records[k - 1];
      }
    }
  }

  /** The sweep only drops events from the head of the window. */
  lemma {:induction false} AdvanceKeepsSuffix(window: seq<Event>, cursor: int, minute: int, windowSize: int, r: Sweep)
    requires r == Advance(window, cursor, minute, windowSize)
    ensures IsSuffix(r.window, window)
    decreases minute + 1 - cursor
  {
    if cursor <= minute {
      var kept := Evict(window, cursor, windowSize);
      AdvanceKeepsSuffix(kept, cursor + 1, minute, windowSize, Advance(kept, cursor + 1, minute, windowSize));
      SuffixTransitive(r.window, kept, window);
    }
  }

  /**
   * Consuming one event: the first event sets the cursor to its minute; the
   * minutes up to the event's own are emitted; then the event is appended.
   */
  function Consume(s: State, e: Event, windowSize: int): (r: State)
  {
    var minute := MinuteOf(e.timestamp);
    var cursor := if s.cursor.None? then minute else s.cursor.value;
    var sweep := Advance(s.window, cursor, minute, windowSize);
    State(sweep.window + [e], Some(sweep.cursor), s.records + sweep.records)
  }

  /**
   * What one consumed event does to the state: records are only appended,
   * the cursor ends past the event's minute (at one minute past it for the
   * first event), an event behind the cursor emits nothing and is only
   * appended, and the new window is a suffix of the old one plus the event.
   */
  lemma ConsumeFacts(s: State, e: Event, windowSize: int, r: State)
    requires r == Consume(s, e, windowSize)
    ensures |s.records| <= |r.records| && forall k :: 0 <= k < |s.records| ==> r.records[k] == s.records[k]
    ensures r.cursor.Some? && r.cursor.value > MinuteOf(e.timestamp)
    ensures s.cursor.None? ==> r.cursor.value == MinuteOf(e.timestamp) + 1
    ensures s.cursor.Some? && s.cursor.value > MinuteOf(e.timestamp) ==> r == State(s.window + [e], s.cursor, s.records)
    ensures 1 <= |r.window| && r.window[|r.window| - 1] == e && IsSuffix(r.window[..|r.window| - 1], s.window)
  {
    ConsumeKeepsRecords(s, e, windowSize, r);
    ConsumeCursor(s, e, windowSize, r);
    ConsumeWindow(s, e, windowSize, r);
  }

  /** The cursor after one event: past the event's minute, and untouched by an event behind it. */
  lemma ConsumeCursor(s: State, e: Event, windowSize: int, r: State)
    requires r == Consume(s, e, windowSize)
    ensures r.cursor.Some? && r.cursor.value > MinuteOf(e.timestamp)
    ensures s.cursor.None? ==> r.cursor.value == MinuteOf(e.timestamp) + 1
    ensures s.cursor.Some? && s.cursor.value > MinuteOf(e.timestamp) ==> r == State(s.window + [e], s.cursor, s.records)
  {
    var minute := MinuteOf(e.timestamp);
    var cursor := if s.cursor.None? then minute else s.cursor.value;
    AdvanceCount(s.window, cursor, minute, windowSize, Advance(s.window, cursor, minute, windowSize));
  }

  /** The window after one event: a suffix of the old window, then the event. */
  lemma ConsumeWindow(s: State, e: Event, windowSize: int, r: State)
    requires r == Consume(s, e, windowSize)
    ensures 1 <= |r.window| && r.window[|r.window| - 1] == e && IsSuffix(r.window[..|r.window| - 1], s.window)
  {
    var minute := MinuteOf(e.timestamp);
    var cursor := if s.cursor.None? then minute else s.cursor.value;
    var sweep := Advance(s.window, cursor, minute, windowSize);
    AdvanceKeepsSuffix(s.window, cursor, minute, windowSize, sweep);
    assert r.window[..|r.window| - 1] == sweep.window;
  }

  /** Consuming an event only appends records. */
  lemma ConsumeKeepsRecords(s: State, e: Event, windowSize: int, r: State)
    requires r == Consume(s, e, windowSize)
    ensures |s.records| <= |r.records| && forall k :: 0 <= k < |s.records| ==> r.records[k] == s.records[k]
  {
  }

  lemma LastSplit(events: seq<Event>)
    requires events != []
    ensures events[..|events| - 1] + [events[|events| - 1]] == events
  {
  }

  /** Appending the same event to a suffix of a suffix of a stream and to the stream keeps the suffix relation. */
  lemma AppendKeepsSuffix(p: seq<Event>, w: seq<Event>, x: seq<Event>, e: Event)
    requires IsSuffix(w, p)
    requires x != [] && x[|x| - 1] == e && IsSuffix(x[..|x| - 1], w)
    ensures IsSuffix(x, p + [e])
  {
    var v := x[..|x| - 1];
    assert v == p[|p| - |v|..];
    assert x == v + [e];
  }

  lemma AppendAssociates(a: seq<Record>, b: seq<Record>, c: seq<Record>)
    ensures (a + b) + c == a + (b + c)
  {
  }

  /**
   * The accumulator form of `Advance`, the emission loop as it runs:
   * `records` holds what was emitted before `cursor`, and each step evicts,
   * emits one record and moves the cursor. It serves only as the loop
   * invariant of `EmitMinutes`; `ResumeIsAdvance` ties it to `Advance`.
   */
  function Resume(records: seq<Record>, window: seq<Event>, cursor: int, minute: int, windowSize: int): (r: Sweep)
    decreases minute + 1 - cursor
  {
    if cursor > minute then
      Sweep(window, cursor, records)
    else
      var kept := Evict(window, cursor, windowSize);
      Resume(records + [Record(cursor, Mean(kept))], kept, cursor + 1, minute, windowSize)
  }

  /** Running the loop with some records already emitted puts the sweep's records after them. */
  lemma {:induction false} ResumeAppends(records: seq<Record>, window: seq<Event>, cursor: int, minute: int, windowSize: int)
    ensures Resume(records, window, cursor, minute, windowSize).window == Advance(window, cursor, minute, windowSize).window
    ensures Resume(records, window, cursor, minute, windowSize).cursor == Advance(window, cursor, minute, windowSize).cursor
    ensures Resume(records, window, cursor, minute, windowSize).records == records + Advance(window, cursor, minute, windowSize).records
    decreases minute + 1 - cursor
  {
    if cursor > minute {
      assert records + [] == records;
    } else {
      var kept := Evict(window, cursor, windowSize);
      var emitted := [Record(cursor, Mean(kept))];
      ResumeAppends(records + emitted, kept, cursor + 1, minute, windowSize);
      AppendAssociates(records, emitted, Advance(kept, cursor + 1, minute, windowSize).records);
    }
  }

  /** The loop, started with nothing emitted, computes the sweep. */
  lemma ResumeIsAdvance(window: seq<Event>, cursor: int, minute: int, windowSize: int)
    ensures Resume([], window, cursor, minute, windowSize) == Advance(window, cursor, minute, windowSize)
  {
    ResumeAppends([], window, cursor, minute, windowSize);
    assert [] + Advance(window, cursor, minute, windowSize).records == Advance(window, cursor, minute, windowSize).records;
  }

  /** The state after consuming the events in order, starting with no cursor. */
  function Run(events: seq<Event>, windowSize: int): (s: State)
  {
    if events == [] then
      State([], None, [])
    else
      var n := |events|;
      Consume(Run(events[..n - 1], windowSize), events[n - 1], windowSize)
  }

  /**
   * The window only loses events at its head and gains them at its tail: it
   * is always the last |window| consumed events, so it never holds more
   * events than were consumed and each event enters it once.
   */
  lemma {:induction false} WindowIsSuffixOfInput(events: seq<Event>, windowSize: int)
    ensures IsSuffix(Run(events, windowSize).window, events)
  {
    if events != [] {
      var n := |events|;
      var s := Run(events[..n - 1], windowSize);
      WindowIsSuffixOfInput(events[..n - 1], windowSize);
      ConsumeFacts(s, events[n - 1], windowSize, Run(events, windowSize));
      AppendKeepsSuffix(events[..n - 1], s.window, Run(events, windowSize).window, events[n - 1]);
      LastSplit(events);
    }
  }

  /** Consuming the next event extends the run over a prefix by one step. */
  lemma RunPrefixStep(events: seq<Event>, i: nat, windowSize: int)
    requires i < |events|
    ensures Run(events[..i + 1], windowSize) == Consume(Run(events[..i], windowSize), events[i], windowSize)
  {
    assert events[..i + 1][..i] == events[..i];
  }

  lemma PrefixIsAll(events: seq<Event>)
    ensures events[..|events|] == events
  {
  }

  /** Every record emitted for the whole input stream. */
  function MovingAverage(events: seq<Event>, windowSize: int): (records: seq<Record>)
  {
    Run(events, windowSize).records
  }

  /** The eviction loop: pops the head of the window while it is expired. */
  method EvictExpired(window: seq<Event>, cursor: int, windowSize: int) returns (kept: seq<Event>)
    ensures kept == Evict(window, cursor, windowSize)
  {
    kept := window;
    while kept != [] && Expired(cursor, kept[0], windowSize)
      invariant |kept| <= |window| && kept == window[|window| - |kept|..]
      invariant Evicted(window, cursor, windowSize) == |window| - |kept| + Evicted(kept, cursor, windowSize)
    {
      kept := kept[1..];
    }
  }

  /**
   * The emission loop: while the cursor has not passed `minute`, evicts,
   * emits the mean of the window for the cursor, and advances one minute.
   */
  method EmitMinutes(window: seq<Event>, cursor: int, minute: int, windowSize: int) returns (sweep: Sweep)
    ensures sweep == Advance(window, cursor, minute, windowSize)
  {
    var w, c, records := window, cursor, [];
    ResumeIsAdvance(window, cursor, minute, windowSize);
    while c <= minute
      invariant Resume(records, w, c, minute, windowSize) == Advance(window, cursor, minute, windowSize)
    {
      w := EvictExpired(w, c, windowSize);
      var average := Mean(w);
      records := records + [Record(c, average)];
      c := c + 1;
    }
    sweep := Sweep(w, c, records);
  }

  /**
   * The whole computation over an input stream: for each event, set the cursor
   * on the first one, run the emission loop up to the event's minute, then
   * append the event to the window.
   */
  method CalculateMovingAverage(events: seq<Event>, windowSize: int) returns (records: seq<Record>)
    ensures records == MovingAverage(events, windowSize)
  {
    var window: seq<Event> := [];
    var currentMinute: Option<int> := None;
    records := [];
    for i := 0 to |events|
      invariant State(window, currentMinute, records) == Run(events[..i], windowSize)
    {
      RunPrefixStep(events, i, windowSize);
      var event := events[i];
      var minute := MinuteOf(event.timestamp);
      if currentMinute.None? {
        currentMinute := Some(minute);
      }
      var sweep := EmitMinutes(window, currentMinute.value, minute, windowSize);
      records := records + sweep.records;
      currentMinute := Some(sweep.cursor);
      window := sweep.window + [event];
    }
    PrefixIsAll(events);
  }
}
