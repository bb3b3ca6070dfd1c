/**
 * What the records of a run promise for any input order: where they
 * start, that they cover consecutive minutes, where the cursor ends, what
 * an event behind the cursor does and, for a time-ordered stream, that the
 * output stops at the last event's minute.
 */
module Properties {

  import opened Optional
  import opened Events
  import opened Window
  import opened Aggregator

  /** With no input there is no cursor to start from, so nothing is emitted. */
  lemma EmptyInputEmitsNothing(windowSize: int)
    ensures MovingAverage([], windowSize) == []
  {
  }

  /** The latest minute among the events. */
  function MaxMinute(events: seq<Event>): (m: int)
    requires events != []
  {
    var n := |events|;
    var last := MinuteOf(events[n - 1].timestamp);
    if n == 1 then last
    else
      var earlier := MaxMinute(events[..n - 1]);
      if last > earlier then last else earlier
  }

  /** MaxMinute is the minute of some event, and no event's minute is later. */
  lemma {:induction false} MaxMinuteIsMax(events: seq<Event>, m: int)
    requires events != [] && m == MaxMinute(events)
    ensures forall j :: 0 <= j < |events| ==> MinuteOf(events[j].timestamp) <= m
    ensures exists j :: 0 <= j < |events| && m == MinuteOf(events[j].timestamp)
  {
    var n := |events|;
    if n > 1 {
      var p := events[..n - 1];
      MaxMinuteIsMax(p, MaxMinute(p));
      assert forall j :: 0 <= j < n - 1 ==> p[j] == events[j];
    }
  }

  /** In a time-ordered stream the latest minute is the last event's. */
  lemma {:induction false} MaxMinuteOfOrdered(events: seq<Event>)
    requires events != [] && NonDecreasing(events)
    ensures MaxMinute(events) == MinuteOf(events[|events| - 1].timestamp)
  {
    var n := |events|;
    if n > 1 {
      var p := events[..n - 1];
      assert NonDecreasing(p);
      MaxMinuteOfOrdered(p);
      MinuteOfMonotone(events[n - 2].timestamp, events[n - 1].timestamp);
    }
  }

  /**
   * One consumed event, from a cursor c: the cursor moves to one minute past
   * the event's minute unless already beyond it, and the new records are
   * for the consecutive minutes from c onwards.
   */
  lemma ConsumeShape(s: State, e: Event, windowSize: int, c: int, r: State)
    requires s.cursor == Some(c) && r == Consume(s, e, windowSize)
    ensures r.cursor == Some(if MinuteOf(e.timestamp) < c then c else MinuteOf(e.timestamp) + 1)
    ensures |r.records| - |s.records| == if MinuteOf(e.timestamp) < c then 0 else MinuteOf(e.timestamp) + 1 - c
    ensures forall k :: |s.records| <= k < |r.records| ==> r.records[k].minute == c + (k - |s.records|)
  {
    var m := MinuteOf(e.timestamp);
    var sweep := Advance(s.window, c, m, windowSize);
    AdvanceCount(s.window, c, m, windowSize, sweep);
    AdvanceMinutes(s.window, c, m, windowSize, sweep);
    assert r.records == s.records + sweep.records;
    forall k | |s.records| <= k < |r.records|
      ensures r.records[k].minute == c + (k - |s.records|)
    {
      assert r.records[k] == sweep.records[k - |s.records|];
    }
  }

  /** The first event emits the records for its own minute only, and sets the cursor one minute past it. */
  lemma FirstConsume(e: Event, windowSize: int)
    ensures Consume(State([], None, []), e, windowSize).cursor == Some(MinuteOf(e.timestamp) + 1)
    ensures Consume(State([], None, []), e, windowSize).records == [Record(MinuteOf(e.timestamp), 0.0)]
  {
    var m := MinuteOf(e.timestamp);
    var sweep := Advance([], m, m, windowSize);
    AdvanceCount([], m, m, windowSize, sweep);
    AdvanceCount([], m + 1, m, windowSize, Advance([], m + 1, m, windowSize));
    assert Evict([], m, windowSize) == [];
    assert sweep.records == [Record(m, Mean([]))] + [];
  }

  /** For any input order, the cursor ends one minute past the latest event minute. */
  lemma {:induction false} RunCursor(events: seq<Event>, windowSize: int, s: State)
    requires events != [] && s == Run(events, windowSize)
    ensures s.cursor == Some(MaxMinute(events) + 1)
  {
    var n := |events|;
    var p, e := events[..n - 1], events[n - 1];
    if n == 1 {
      FirstConsume(e, windowSize);
    } else {
      var before := Run(p, windowSize);
      RunCursor(p, windowSize, before);
      ConsumeShape(before, e, windowSize, MaxMinute(p) + 1, s);
    }
  }

  /**
   * For any input order, the records are for the consecutive minutes from
   * the first event's minute up to the latest event minute.
   */
  lemma {:induction false} RunShape(events: seq<Event>, windowSize: int, s: State)
    requires events != [] && s == Run(events, windowSize)
    ensures |s.records| == MaxMinute(events) - MinuteOf(events[0].timestamp) + 1
    ensures forall k :: 0 <= k < |s.records| ==> s.records[k].minute == MinuteOf(events[0].timestamp) + k
  {
    var n := |events|;
    var p, e := events[..n - 1], events[n - 1];
    if n == 1 {
      FirstConsume(e, windowSize);
    } else {
      assert p[0] == events[0];
      var before := Run(p, windowSize);
      RunShape(p, windowSize, before);
      RunCursor(p, windowSize, before);
      ConsumeShape(before, e, windowSize, MaxMinute(p) + 1, s);
      ConsumeKeepsRecords(before, e, windowSize, s);
    }
  }

  /** The first record is for the first event's minute, and its value is 0: the window is empty then. */
  lemma {:induction false} FirstRecordIsZero(events: seq<Event>, windowSize: int, records: seq<Record>)
    requires events != [] && records == MovingAverage(events, windowSize)
    ensures records != [] && records[0] == Record(MinuteOf(events[0].timestamp), 0.0)
  {
    var n := |events|;
    if n == 1 {
      RunPrefixStep(events, 0, windowSize);
      FirstConsume(events[0], windowSize);
    } else {
      var p := events[..n - 1];
      assert p[0] == events[0];
      FirstRecordIsZero(p, windowSize, MovingAverage(p, windowSize));
      ConsumeFacts(Run(p, windowSize), events[n - 1], windowSize, Run(events, windowSize));
    }
  }

  /** Consecutive records are exactly one minute apart: no gap and no repeat. */
  lemma ConsecutiveMinutes(events: seq<Event>, windowSize: int, records: seq<Record>)
    requires records == MovingAverage(events, windowSize)
    ensures forall k :: 0 < k < |records| ==> records[k].minute == records[k - 1].minute + 1
  {
    if events != [] {
      RunShape(events, windowSize, Run(events, windowSize));
    }
  }

  /**
   * After any input, every consumed event, and so every event still in the
   * window, lies strictly before the start of the cursor's minute.
   */
  lemma CursorPastConsumed(events: seq<Event>, windowSize: int, s: State)
    requires events != [] && s == Run(events, windowSize)
    ensures s.cursor.Some?
    ensures forall j :: 0 <= j < |events| ==> events[j].timestamp < s.cursor.value * 60_000_000
    ensures forall j :: 0 <= j < |s.window| ==> s.window[j].timestamp < s.cursor.value * 60_000_000
  {
    RunCursor(events, windowSize, s);
    MaxMinuteIsMax(events, MaxMinute(events));
    WindowIsSuffixOfInput(events, windowSize);
    forall j | 0 <= j < |s.window|
      ensures s.window[j].timestamp < s.cursor.value * 60_000_000
    {
      assert s.window[j] == events[|events| - |s.window| + j];
    }
  }

  /**
   * An event whose minute was already emitted emits nothing more; it is only
   * appended to the window.
   */
  lemma LateEventEmitsNothing(events: seq<Event>, i: nat, windowSize: int)
    requires 0 < i < |events|
    requires MinuteOf(events[i].timestamp) <= MaxMinute(events[..i])
    ensures Run(events[..i + 1], windowSize).records == Run(events[..i], windowSize).records
    ensures Run(events[..i + 1], windowSize).window == Run(events[..i], windowSize).window + [events[i]]
  {
    RunPrefixStep(events, i, windowSize);
    RunCursor(events[..i], windowSize, Run(events[..i], windowSize));
    ConsumeFacts(Run(events[..i], windowSize), events[i], windowSize, Run(events[..i + 1], windowSize));
  }

  /** A second event in the same minute as the one before it emits no record: each minute is emitted once. */
  lemma SameMinuteEmitsOnce(events: seq<Event>, i: nat, windowSize: int)
    requires 0 < i < |events| && MinuteOf(events[i].timestamp) == MinuteOf(events[i - 1].timestamp)
    ensures Run(events[..i + 1], windowSize).records == Run(events[..i], windowSize).records
  {
    var p := events[..i];
    MaxMinuteIsMax(p, MaxMinute(p));
    assert p[i - 1] == events[i - 1];
    LateEventEmitsNothing(events, i, windowSize);
  }

  /**
   * For a time-ordered stream the output stops at the last event's minute:
   * it runs from the first event's minute to the last event's, one record
   * per minute, and nothing is emitted after the final event.
   */
  lemma NoDrainAfterLastEvent(events: seq<Event>, windowSize: int, records: seq<Record>)
    requires events != [] && NonDecreasing(events) && records == MovingAverage(events, windowSize)
    ensures |records| == MinuteOf(events[|events| - 1].timestamp) - MinuteOf(events[0].timestamp) + 1
    ensures records[|records| - 1].minute == MinuteOf(events[|events| - 1].timestamp)
  {
    RunShape(events, windowSize, Run(events, windowSize));
    MaxMinuteOfOrdered(events);
  }
}
