/**
 * The window of admitted events: head eviction, the mean-or-zero value,
 * and the reference set of events a record is meant to average over.
 */
module Window {

  import opened Events

  /** The events of `w` are the last |w| events of `p`, in the same order. */
  ghost predicate IsSuffix(w: seq<Event>, p: seq<Event>)
  {
    |w| <= |p| && w == p[|p| - |w|..]
  }

  lemma SuffixTransitive(u: seq<Event>, v: seq<Event>, w: seq<Event>)
    requires IsSuffix(u, v) && IsSuffix(v, w)
    ensures IsSuffix(u, w)
  {
  }

  /**
   * The eviction test at the start of a minute: an event is expired once its
   * age, measured from the start of that minute to its full-precision
   * timestamp, is at least windowSize minutes, so one exactly windowSize
   * minutes old is out.
   */
  predicate Expired(minute: int, e: Event, windowSize: int)
  {
    minute * 60_000_000 - e.timestamp >= windowSize * 60_000_000
  }

  /**
   * How many events eviction pops off the head of the window: the expired
   * events before the first one that is still young.
   */
  function Evicted(window: seq<Event>, minute: int, windowSize: int): (n: nat)
    ensures n <= |window|
    ensures forall j :: 0 <= j < n ==> Expired(minute, window[j], windowSize)
    ensures n < |window| ==> !Expired(minute, window[n], windowSize)
  {
    if window != [] && Expired(minute, window[0], windowSize) then
      1 + Evicted(window[1..], minute, windowSize)
    else
      0
  }

  /** The window after eviction: what is left once the expired head is popped. */
  function Evict(window: seq<Event>, minute: int, windowSize: int): (kept: seq<Event>)
  {
    window[Evicted(window, minute, windowSize)..]
  }

  /** Sum of the durations of the events. */
  function Sum(window: seq<Event>): (total: int)
  {
    if window == [] then 0 else window[0].duration + Sum(window[1..])
  }

  /** The reported value: the mean duration, or exactly 0 for an empty window. */
  function Mean(window: seq<Event>): (average: real)
    ensures window == [] ==> average == 0.0
  {
    if window == [] then 0.0 else Sum(window) as real / |window| as real
  }

  /** For a nonempty window the value times the number of events is the total duration. */
  lemma MeanIsAverage(window: seq<Event>)
    requires window != []
    ensures Mean(window) * (|window| as real) == Sum(window) as real
  {
    var n := |window| as real;
    assert Mean(window) == Sum(window) as real / n;
  }

  lemma {:induction false} SumBounds(window: seq<Event>, low: int, high: int)
    requires forall j :: 0 <= j < |window| ==> low <= window[j].duration <= high
    ensures |window| * low <= Sum(window) <= |window| * high
  {
    if window != [] {
      SumBounds(window[1..], low, high);
    }
  }

  lemma CastProduct(n: int, x: int)
    ensures (n * x) as real == (n as real) * (x as real)
  {
  }

  lemma DivideBounds(total: real, n: real, low: real, high: real)
    requires n > 0.0 && n * low <= total <= n * high
    ensures low <= total / n <= high
  {
  }

  /** An integer total between n * low and n * high has a quotient by n between low and high. */
  lemma QuotientBounds(total: int, n: int, low: int, high: int)
    requires n > 0 && n * low <= total <= n * high
    ensures low as real <= total as real / n as real <= high as real
  {
    CastProduct(n, low);
    CastProduct(n, high);
    DivideBounds(total as real, n as real, low as real, high as real);
  }

  /** A mean lies between the smallest and the largest duration averaged. */
  lemma MeanBounds(window: seq<Event>, low: int, high: int)
    requires window != []
    requires forall j :: 0 <= j < |window| ==> low <= window[j].duration <= high
    ensures low as real <= Mean(window) <= high as real
  {
    SumBounds(window, low, high);
    QuotientBounds(Sum(window), |window|, low, high);
  }

  /** Whether an event lies in the trailing window of windowSize minutes that ends at the start of `minute`. */
  predicate InWindowAt(minute: int, e: Event, windowSize: int)
  {
    (minute - windowSize) * 60_000_000 < e.timestamp < minute * 60_000_000
  }

  /**
   * Reference definition: the events of a stream, in stream order, whose
   * timestamp lies strictly inside (minute - windowSize, minute).
   */
  function InWindow(events: seq<Event>, minute: int, windowSize: int): (inside: seq<Event>)
    ensures |inside| <= |events|
    ensures forall j :: 0 <= j < |inside| ==> InWindowAt(minute, inside[j], windowSize)
  {
    if events == [] then []
    else
      var last := events[|events| - 1];
      InWindow(events[..|events| - 1], minute, windowSize) + (if InWindowAt(minute, last, windowSize) then [last] else [])
  }

  /** An event of the stream is selected exactly when it lies in the window. */
  lemma {:induction false} InWindowMembers(events: seq<Event>, minute: int, windowSize: int, e: Event)
    ensures e in InWindow(events, minute, windowSize) <==> e in events && InWindowAt(minute, e, windowSize)
  {
    if events != [] {
      var n := |events|;
      InWindowMembers(events[..n - 1], minute, windowSize, e);
      assert events == events[..n - 1] + [events[n - 1]];
    }
  }

  lemma SliceOfLast(events: seq<Event>, lo: nat)
    requires lo < |events|
    ensures events[lo..] == events[..|events| - 1][lo..] + [events[|events| - 1]]
  {
  }

  /** A stream split into an out-of-window prefix and an in-window suffix filters to that suffix. */
  lemma {:induction false} InWindowOfSplit(events: seq<Event>, lo: nat, minute: int, windowSize: int)
    requires lo <= |events|
    requires forall j :: 0 <= j < lo ==> !InWindowAt(minute, events[j], windowSize)
    requires forall j :: lo <= j < |events| ==> InWindowAt(minute, events[j], windowSize)
    ensures InWindow(events, minute, windowSize) == events[lo..]
  {
    if events != [] {
      var n := |events|;
      var prefix := events[..n - 1];
      if lo == n {
        InWindowOfSplit(prefix, n - 1, minute, windowSize);
      } else {
        InWindowOfSplit(prefix, lo, minute, windowSize);
        SliceOfLast(events, lo);
      }
    }
  }

  /** Filtering a stream with one more event at its end. */
  lemma InWindowSnoc(events: seq<Event>, e: Event, minute: int, windowSize: int)
    ensures InWindow(events + [e], minute, windowSize)
      == InWindow(events, minute, windowSize) + (if InWindowAt(minute, e, windowSize) then [e] else [])
  {
    assert (events + [e])[..|events|] == events;
  }

  /** An event at or after the start of `minute` does not change the window that ends there. */
  lemma InWindowIgnoresLater(events: seq<Event>, e: Event, minute: int, windowSize: int)
    requires minute * 60_000_000 <= e.timestamp
    ensures InWindow(events + [e], minute, windowSize) == InWindow(events, minute, windowSize)
  {
    assert (events + [e])[..|events|] == events;
  }
}
