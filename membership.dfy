/**
 * For a time-ordered stream, each record's value is the mean duration of
 * exactly the events whose timestamp lies strictly inside the windowSize
 * minutes that end at the start of the record's minute.
 */
module Membership {

  import opened Optional
  import opened Events
  import opened Window
  import opened Aggregator
  import opened Properties

  /**
   * What the window holds relative to the consumed events p at a cursor:
   * it is the tail of p, every event evicted from the head is expired at
   * the cursor, and every consumed event lies before the cursor.
   */
  ghost predicate Settled(p: seq<Event>, window: seq<Event>, cursor: int, windowSize: int)
  {
    && NonDecreasing(p)
    && IsSuffix(window, p)
    && (forall j :: 0 <= j < |p| - |window| ==> Expired(cursor, p[j], windowSize))
    && (forall j :: 0 <= j < |p| ==> p[j].timestamp < cursor * 60_000_000)
  }

  /** An event expired at one minute stays expired at every later minute. */
  lemma ExpiredLater(minute: int, later: int, e: Event, windowSize: int)
    requires minute <= later && Expired(minute, e, windowSize)
    ensures Expired(later, e, windowSize)
  {
  }

  /**
   * At a settled cursor, eviction leaves exactly the consumed events inside
   * the window that ends at the cursor, and the result is settled one
   * minute later.
   */
  lemma EvictSelectsWindow(p: seq<Event>, window: seq<Event>, cursor: int, windowSize: int, kept: seq<Event>)
    requires Settled(p, window, cursor, windowSize) && kept == Evict(window, cursor, windowSize)
    ensures kept == InWindow(p, cursor, windowSize)
    ensures Settled(p, kept, cursor + 1, windowSize)
  {
    var lo := |p| - |kept|;
    var off := |p| - |window|;
    assert kept == p[lo..];
    forall j | 0 <= j < lo
      ensures Expired(cursor, p[j], windowSize)
    {
      if j >= off {
        assert p[j] == window[j - off];
      }
    }
    forall j | lo <= j < |p|
      ensures InWindowAt(cursor, p[j], windowSize)
    {
      assert p[lo] == kept[0];
    }
    InWindowOfSplit(p, lo, cursor, windowSize);
    forall j | 0 <= j < lo
      ensures Expired(cursor + 1, p[j], windowSize)
    {
      ExpiredLater(cursor, cursor + 1, p[j], windowSize);
    }
  }

  /** From a settled cursor, the sweep ends settled. */
  lemma {:induction false} AdvanceSettled(p: seq<Event>, window: seq<Event>, cursor: int, minute: int, windowSize: int, r: Sweep)
    requires Settled(p, window, cursor, windowSize) && r == Advance(window, cursor, minute, windowSize)
    ensures Settled(p, r.window, r.cursor, windowSize)
    decreases minute + 1 - cursor
  {
    if cursor <= minute {
      var kept := Evict(window, cursor, windowSize);
      EvictSelectsWindow(p, window, cursor, windowSize, kept);
      AdvanceSettled(p, kept, cursor + 1, minute, windowSize, Advance(kept, cursor + 1, minute, windowSize));
    }
  }

  /**
   * From a settled cursor, every record the sweep emits is the mean of the
   * consumed events inside the window ending at its minute.
   */
  lemma {:induction false} AdvanceAverages(p: seq<Event>, window: seq<Event>, cursor: int, minute: int, windowSize: int, r: Sweep)
    requires Settled(p, window, cursor, windowSize) && r == Advance(window, cursor, minute, windowSize)
    ensures forall k :: 0 <= k < |r.records| ==> r.records[k].averageDeliveryTime == Mean(InWindow(p, r.records[k].minute, windowSize))
    decreases minute + 1 - cursor
  {
    if cursor <= minute {
      var kept := Evict(window, cursor, windowSize);
      var rest := Advance(kept, cursor + 1, minute, windowSize);
      EvictSelectsWindow(p, window, cursor, windowSize, kept);
      AdvanceAverages(p, kept, cursor + 1, minute, windowSize, rest);
      assert r.records == [Record(cursor, Mean(kept))] + rest.records;
      forall k | 0 < k < |r.records|
        ensures r.records[k].averageDeliveryTime == Mean(InWindow(p, r.records[k].minute, windowSize))
      {
        assert r.records[k] == rest.records[k - 1];
      }
    }
  }

  /** After any time-ordered input the window is settled at the cursor. */
  lemma {:induction false} RunSettled(events: seq<Event>, windowSize: int, s: State)
    requires events != [] && NonDecreasing(events) && s == Run(events, windowSize)
    ensures s.cursor.Some? && Settled(events, s.window, s.cursor.value, windowSize)
  {
    var n := |events|;
    var p, e := events[..n - 1], events[n - 1];
    var m := MinuteOf(e.timestamp);
    var before := Run(p, windowSize);
    var c: int;
    if n == 1 {
      assert p == [];
      c := m;
    } else {
      assert NonDecreasing(p);
      RunSettled(p, windowSize, before);
      c := before.cursor.value;
    }
    assert Settled(p, before.window, c, windowSize);
    var sweep := Advance(before.window, c, m, windowSize);
    AdvanceSettled(p, before.window, c, m, windowSize, sweep);
    ConsumeFacts(before, e, windowSize, s);
    LastSplit(events);
    SettledAppend(p, sweep.window, sweep.cursor, windowSize, e, s.window, s.cursor.value);
  }

  /** Appending an event before the cursor to a settled window keeps it settled. */
  lemma SettledAppend(p: seq<Event>, window: seq<Event>, cursor: int, windowSize: int, e: Event, window': seq<Event>, cursor': int)
    requires Settled(p, window, cursor, windowSize)
    requires NonDecreasing(p + [e]) && e.timestamp < cursor' * 60_000_000 && cursor <= cursor'
    requires window' == window + [e]
    ensures Settled(p + [e], window', cursor', windowSize)
  {
    var q := p + [e];
    assert q[..|p|] == p;
    forall j | 0 <= j < |q| - |window'|
      ensures Expired(cursor', q[j], windowSize)
    {
      ExpiredLater(cursor, cursor', q[j], windowSize);
    }
  }

  /**
   * The records emitted while consuming an event e from a settled state are
   * the means of the windows over the consumed events and e: e lies at or
   * after each of their minutes.
   */
  lemma NewRecordAverages(p: seq<Event>, e: Event, windowSize: int, before: State, c: int, s: State)
    requires Settled(p, before.window, c, windowSize)
    requires before.cursor == Some(c) || (before.cursor.None? && c == MinuteOf(e.timestamp))
    requires s == Consume(before, e, windowSize)
    ensures forall k :: |before.records| <= k < |s.records| ==>
      s.records[k].averageDeliveryTime == Mean(InWindow(p + [e], s.records[k].minute, windowSize))
  {
    var m := MinuteOf(e.timestamp);
    var sweep := Advance(before.window, c, m, windowSize);
    AdvanceAverages(p, before.window, c, m, windowSize, sweep);
    AdvanceMinutes(before.window, c, m, windowSize, sweep);
    AdvanceCount(before.window, c, m, windowSize, sweep);
    assert s.records == before.records + sweep.records;
    forall k | |before.records| <= k < |s.records|
      ensures s.records[k].averageDeliveryTime == Mean(InWindow(p + [e], s.records[k].minute, windowSize))
    {
      assert s.records[k] == sweep.records[k - |before.records|];
      InWindowIgnoresLater(p, e, s.records[k].minute, windowSize);
    }
  }

  /** Records emitted before an event whose minute they do not pass keep their meaning once it is consumed. */
  lemma OldRecordAverages(p: seq<Event>, e: Event, windowSize: int, before: State, s: State)
    requires forall k :: 0 <= k < |before.records| ==> before.records[k].minute * 60_000_000 <= e.timestamp
    requires forall k :: 0 <= k < |before.records| ==>
      before.records[k].averageDeliveryTime == Mean(InWindow(p, before.records[k].minute, windowSize))
    requires s == Consume(before, e, windowSize)
    ensures forall k :: 0 <= k < |before.records| ==>
      s.records[k].averageDeliveryTime == Mean(InWindow(p + [e], s.records[k].minute, windowSize))
  {
    ConsumeFacts(before, e, windowSize, s);
    forall k | 0 <= k < |before.records|
      ensures s.records[k].averageDeliveryTime == Mean(InWindow(p + [e], s.records[k].minute, windowSize))
    {
      InWindowIgnoresLater(p, e, before.records[k].minute, windowSize);
    }
  }

  /** In a time-ordered stream, no minute emitted so far is later than the next event. */
  lemma EmittedNotAfterNext(events: seq<Event>, windowSize: int, before: State)
    requires |events| > 1 && NonDecreasing(events) && before == Run(events[..|events| - 1], windowSize)
    ensures forall k :: 0 <= k < |before.records| ==> before.records[k].minute * 60_000_000 <= events[|events| - 1].timestamp
  {
    var n := |events|;
    var p := events[..n - 1];
    assert NonDecreasing(p);
    RunShape(p, windowSize, before);
    MaxMinuteOfOrdered(p);
    MinuteOfMonotone(events[n - 2].timestamp, events[n - 1].timestamp);
  }

  /** Every record of a time-ordered run is the mean of its window over the input so far. */
  lemma {:induction false} RunAverages(events: seq<Event>, windowSize: int, s: State)
    requires events != [] && NonDecreasing(events) && s == Run(events, windowSize)
    ensures forall k :: 0 <= k < |s.records| ==>
      s.records[k].averageDeliveryTime == Mean(InWindow(events, s.records[k].minute, windowSize))
  {
    var n := |events|;
    var p, e := events[..n - 1], events[n - 1];
    var before := Run(p, windowSize);
    LastSplit(events);
    if n == 1 {
      assert p == [];
      NewRecordAverages(p, e, windowSize, before, MinuteOf(e.timestamp), s);
    } else {
      assert NonDecreasing(p);
      RunAverages(p, windowSize, before);
      RunSettled(p, windowSize, before);
      EmittedNotAfterNext(events, windowSize, before);
      NewRecordAverages(p, e, windowSize, before, before.cursor.value, s);
      OldRecordAverages(p, e, windowSize, before, s);
    }
  }

  /**
   * The main theorem: for a time-ordered stream, the value reported for each
   * minute M is the mean duration of the events with timestamp strictly
   * between M - windowSize minutes and M, and 0 when there are none.
   */
  lemma MovingAverageIsWindowMean(events: seq<Event>, windowSize: int, records: seq<Record>)
    requires NonDecreasing(events) && records == MovingAverage(events, windowSize)
    ensures forall k :: 0 <= k < |records| ==>
      records[k].averageDeliveryTime == Mean(InWindow(events, records[k].minute, windowSize))
  {
    if events != [] {
      RunAverages(events, windowSize, Run(events, windowSize));
    }
  }
}
