/**
 Repeating tasks: how ScheduleFunc asks a scheduler for the next execution time, from the nominal
 expiration of the timer and not from the time at which its task happened to run.
 Times are in nanoseconds, expirations in milliseconds.
 */
module Schedulers {
  import opened Wrappers
  import opened Truncation

  // ----- what the schedules are meant to be -----

  /** The expiration of the k-th execution of an EveryScheduler plan made at `now`, counted from 0. */
  function Every(now: int, interval: int, k: nat): int {
    if k == 0 then TimeToMs(now + interval) else TimeToMs(MsToTime(Every(now, interval, k - 1)) + interval)
  }

  /** The same for a BackOffScheduler plan. */
  function BackOff(now: int, intervals: seq<int>, k: nat): int
    requires k < |intervals|
  {
    TimeToMs((if k == 0 then now else MsToTime(BackOff(now, intervals, k - 1))) + intervals[k])
  }

  function Sum(xs: seq<int>): int {
    if xs == [] then 0 else Sum(xs[..|xs| - 1]) + xs[|xs| - 1]
  }

  /** Adding a whole number of milliseconds commutes with the conversion. */
  lemma WholeMs(t: int, interval: int)
    requires t >= 0 && interval >= 0 && interval % MILLISECOND == 0
    ensures TimeToMs(t + interval) == TimeToMs(t) + interval / MILLISECOND
  {
  }

  lemma FromMs(ms: int, interval: int)
    requires ms >= 0 && interval >= 0
    ensures TimeToMs(MsToTime(ms) + interval) == ms + interval / MILLISECOND
  {
  }

  /** An EveryScheduler plan advances by the whole milliseconds of its interval, however late it runs. */
  lemma {:induction false} EveryAdvances(now: int, interval: int, k: nat)
    requires now >= 0 && interval >= 0
    ensures Every(now, interval, k) == TimeToMs(now + interval) + k * (interval / MILLISECOND)
    decreases k
  {
    if k > 0 {
      EveryAdvances(now, interval, k - 1);
      var step := interval / MILLISECOND;
      assert (k - 1) * step >= 0;
      FromMs(Every(now, interval, k - 1), interval);
      assert k * step == (k - 1) * step + step;
    } else {
      assert 0 * (interval / MILLISECOND) == 0;
    }
  }

  /** When the interval has a fraction of a millisecond, a million executions later the plan is ahead. */
  lemma EveryDrifts(now: int, interval: int)
    requires now >= 0 && interval >= 0 && interval % MILLISECOND != 0
    ensures Every(now, interval, MILLISECOND) < TimeToMs(now + (MILLISECOND + 1) * interval)
  {
    var step, rest := interval / MILLISECOND, interval % MILLISECOND;
    EveryAdvances(now, interval, MILLISECOND);
    MultipleOfMs(now + interval, 1, interval);
    assert interval == MILLISECOND * step + rest;
  }

  lemma Regroup(k: int, m: int, a: int)
    ensures (k + 1) * (m * a) == m * a + m * (k * a)
  {
    assert k * (m * a) == (k * m) * a == m * (k * a);
  }

  lemma EveryStays(now: int, interval: int, k: nat)
    requires now >= 0 && interval >= 0 && interval % MILLISECOND == 0
    ensures Every(now, interval, k) == TimeToMs(now + (k + 1) * interval)
  {
    var step := interval / MILLISECOND;
    assert step >= 0 && interval == MILLISECOND * step;
    hide *;
    EveryAdvances(now, interval, k);
    MultipleOfMs(now + interval, k, step);
    Regroup(k, MILLISECOND, step);
  }

  /**
   The k-th execution stays at now + (k + 1) * interval for ever exactly when the interval is a whole
   number of milliseconds.
   */
  lemma EveryIsDriftFreeIff(now: int, interval: int)
    requires now >= 0 && interval >= 0
    ensures (forall k: nat :: Every(now, interval, k) == TimeToMs(now + (k + 1) * interval))
       <==> interval % MILLISECOND == 0
  {
    if interval % MILLISECOND == 0 {
      forall k: nat
        ensures Every(now, interval, k) == TimeToMs(now + (k + 1) * interval)
      {
        EveryStays(now, interval, k);
      }
    } else {
      EveryDrifts(now, interval);
    }
  }

  lemma MultipleOfMs(t: int, k: nat, step: int)
    requires t >= 0 && step >= 0
    ensures k * step >= 0
    ensures TimeToMs(t + MILLISECOND * (k * step)) == TimeToMs(t) + k * step
  {
    var n := k * step;
    assert n >= 0;
    assert (t + MILLISECOND * n) / MILLISECOND == t / MILLISECOND + n;
  }

  /** With whole milliseconds, a BackOffScheduler plan executes at the prefix sums of its intervals. */
  lemma {:induction false} BackOffIsPrefixSum(now: int, intervals: seq<int>, k: nat)
    requires now >= 0 && k < |intervals|
    requires forall i | i in intervals :: i >= 0 && i % MILLISECOND == 0
    ensures BackOff(now, intervals, k) == TimeToMs(now + Sum(intervals[..k + 1]))
    ensures Sum(intervals[..k + 1]) >= 0 && Sum(intervals[..k + 1]) % MILLISECOND == 0
    decreases k
  {
    assert intervals[k] in intervals;
    assert intervals[..k + 1][..k] == intervals[..k];
    if k == 0 {
      assert Sum(intervals[..0]) == 0;
    } else {
      BackOffIsPrefixSum(now, intervals, k - 1);
      var before := Sum(intervals[..k]);
      FromMs(BackOff(now, intervals, k - 1), intervals[k]);
      WholeMs(now + before, intervals[k]);
    }
  }

  // ----- the objects -----

  class BackOffScheduler {
    const intervals: seq<int>
    var current: nat

    constructor (intervals: seq<int>)
      ensures this.intervals == intervals && current == 0
    {
      this.intervals, current := intervals, 0;
    }

    /** The time after the next interval, or none when all have been used. */
    method Next(prev: int) returns (next: Option<int>)
      modifies this
      ensures old(current) < |intervals| ==> next == Some(prev + intervals[old(current)]) && current == old(current) + 1
      ensures old(current) >= |intervals| ==> next == None && current == old(current)
    {
      if current >= |intervals| {
        return None;
      }
      next := Some(prev + intervals[current]);
      current := current + 1;
    }
  }
}
