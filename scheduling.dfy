/**
 * The polling schedule shared by the collector workers and the live monitor's main loop:
 * each iteration sleeps for what is left of the interval after the poll's elapsed time.
 */
module Scheduling {
  /** `max(0, interval - elapsed)`: what is left of the interval, never negative. */
  function SleepTime(interval: real, elapsed: real): (s: real)
    ensures s >= 0.0
    ensures s == 0.0 <==> elapsed >= interval
    ensures s > 0.0 ==> s + elapsed == interval
  {
    if interval - elapsed > 0.0 then interval - elapsed else 0.0
  }

  /** A poll that took no negative time never sleeps longer than the interval. */
  lemma SleepWithinInterval(interval: real, elapsed: real)
    requires interval >= 0.0 && elapsed >= 0.0
    ensures SleepTime(interval, elapsed) <= interval
  {
  }

  /** A poll plus its sleep spans at least one interval. */
  lemma IterationSpansInterval(interval: real, elapsed: real)
    ensures elapsed + SleepTime(interval, elapsed) >= interval
  {
  }

  /** `max(1, int(args.interval))`: the live monitor's interval is at least one second. */
  function PollInterval(requested: int): (i: int)
    ensures i >= 1
    ensures requested >= 1 ==> i == requested
    ensures requested < 1 ==> i == 1
  {
    if requested > 1 then requested else 1
  }
}
