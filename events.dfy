/**
 * Delivery events, emitted records and minute arithmetic.
 *
 * A timestamp is an integer count of microseconds since a minute-aligned
 * epoch. A minute is an integer count of whole minutes since that epoch;
 * a minute has 60_000_000 microseconds, so minute m is the instant
 * m * 60_000_000, with seconds and microseconds zero. The factor is written
 * as a literal so that the solver sees every product with it as linear.
 */
module Events {

  /** One parsed input line: only the two fields the aggregation reads. */
  datatype Event = Event(timestamp: int, duration: int)

  /** One output line: the minute it is for and the mean delivery time. */
  datatype Record = Record(minute: int, averageDeliveryTime: real)

  /** The minute a timestamp falls in: the timestamp with seconds and microseconds zeroed. */
  function MinuteOf(timestamp: int): (m: int)
    ensures m * 60_000_000 <= timestamp < (m + 1) * 60_000_000
  {
    timestamp / 60_000_000
  }

  /** The minute is the only one whose span contains the timestamp. */
  lemma MinuteOfUnique(timestamp: int, m: int)
    requires m * 60_000_000 <= timestamp < (m + 1) * 60_000_000
    ensures MinuteOf(timestamp) == m
  {
  }

  /** Truncation to the minute preserves the order of timestamps. */
  lemma MinuteOfMonotone(a: int, b: int)
    requires a <= b
    ensures MinuteOf(a) <= MinuteOf(b)
  {
  }

  /** The input order the aggregation is designed for. */
  ghost predicate NonDecreasing(events: seq<Event>)
  {
    forall i, j :: 0 <= i <= j < |events| ==> events[i].timestamp <= events[j].timestamp
  }
}
