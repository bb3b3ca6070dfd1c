/**
 * The three-event stream of the repository's unit test, with a window of
 * 10 minutes. Timestamps count microseconds from midnight of 2018-12-26, so
 * minute 1091 is 18:11 and minute 1103 is 18:23.
 */
module Scenario {

  import opened Events
  import opened Window
  import opened Aggregator
  import opened Properties
  import opened Membership

  /** 18:11:08.509654 / 20, 18:15:19.903159 / 31, 18:23:19.903159 / 54. */
  function SampleEvents(): seq<Event>
  {
    [Event(65_468_509_654, 20), Event(65_719_903_159, 31), Event(66_199_903_159, 54)]
  }

  /** One record per minute from 18:11 to 18:23, and nothing after the last event. */
  function SampleRecords(): seq<Record>
  {
    [ Record(1091, 0.0),
      Record(1092, 20.0), Record(1093, 20.0), Record(1094, 20.0), Record(1095, 20.0),
      Record(1096, 25.5), Record(1097, 25.5), Record(1098, 25.5), Record(1099, 25.5), Record(1100, 25.5), Record(1101, 25.5),
      Record(1102, 31.0), Record(1103, 31.0) ]
  }

  /** Which of the three events lie in the 10-minute window that ends at each emitted minute. */
  lemma SampleMembership(minute: int)
    requires 1091 <= minute <= 1103
    ensures InWindowAt(minute, SampleEvents()[0], 10) <==> 1092 <= minute <= 1101
    ensures InWindowAt(minute, SampleEvents()[1], 10) <==> 1096 <= minute
    ensures !InWindowAt(minute, SampleEvents()[2], 10)
  {
  }

  /** The window of the sample stream, event by event. */
  lemma SampleSelection(minute: int)
    ensures InWindow(SampleEvents(), minute, 10)
      == (if InWindowAt(minute, SampleEvents()[0], 10) then [SampleEvents()[0]] else [])
       + (if InWindowAt(minute, SampleEvents()[1], 10) then [SampleEvents()[1]] else [])
       + (if InWindowAt(minute, SampleEvents()[2], 10) then [SampleEvents()[2]] else [])
  {
    var events := SampleEvents();
    var e0, e1, e2 := events[0], events[1], events[2];
    InWindowSnoc([], e0, minute, 10);
    InWindowSnoc([e0], e1, minute, 10);
    InWindowSnoc([e0, e1], e2, minute, 10);
    assert [] + [e0] == [e0];
    assert [e0] + [e1] == [e0, e1];
    assert [e0, e1] + [e2] == events;
  }

  /** The events inside the 10-minute window that ends at each emitted minute. */
  lemma SampleWindows(minute: int)
    requires 1091 <= minute <= 1103
    ensures minute == 1091 ==> InWindow(SampleEvents(), minute, 10) == []
    ensures 1092 <= minute <= 1095 ==> InWindow(SampleEvents(), minute, 10) == [SampleEvents()[0]]
    ensures 1096 <= minute <= 1101 ==> InWindow(SampleEvents(), minute, 10) == [SampleEvents()[0], SampleEvents()[1]]
    ensures 1102 <= minute ==> InWindow(SampleEvents(), minute, 10) == [SampleEvents()[1]]
  {
    SampleMembership(minute);
    SampleSelection(minute);
  }

  /** The means reported for those windows. */
  lemma SampleMeans()
    ensures Mean([SampleEvents()[0]]) == 20.0
    ensures Mean([SampleEvents()[0], SampleEvents()[1]]) == 25.5
    ensures Mean([SampleEvents()[1]]) == 31.0
  {
    var e0, e1 := SampleEvents()[0], SampleEvents()[1];
    assert [e0][1..] == [] && [e1][1..] == [];
    assert [e0, e1][1..] == [e1];
    assert Sum([e0]) == 20 && Sum([e1]) == 31;
    assert Sum([e0, e1]) == 20 + Sum([e1]);
  }

  lemma SampleIsOrdered()
    ensures NonDecreasing(SampleEvents())
  {
  }

  /** Thirteen records, for the minutes 18:11 to 18:23. */
  lemma SampleMinutes(records: seq<Record>)
    requires records == MovingAverage(SampleEvents(), 10)
    ensures |records| == 13
    ensures forall k :: 0 <= k < 13 ==> records[k].minute == 1091 + k
  {
    SampleIsOrdered();
    NoDrainAfterLastEvent(SampleEvents(), 10, records);
    RunShape(SampleEvents(), 10, Run(SampleEvents(), 10));
  }

  /** The stream of the unit test yields exactly these thirteen records. */
  lemma SampleOutput(records: seq<Record>)
    requires records == MovingAverage(SampleEvents(), 10)
    ensures records == SampleRecords()
  {
    var events := SampleEvents();
    SampleIsOrdered();
    SampleMinutes(records);
    MovingAverageIsWindowMean(events, 10, records);
    SampleMeans();
    forall k | 0 <= k < 13
      ensures records[k] == SampleRecords()[k]
    {
      SampleWindows(1091 + k);
    }
  }
}
