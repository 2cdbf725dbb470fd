/**
 ScheduleFunc on the objects of the timing wheel: one timer whose task asks the scheduler for the
 next time, adds the same timer again, and then calls the function. Each call is a step of the run
 that the wheel writes down, and the last section says when such a timer fires on every run.
 */
module Plans {
  import opened Truncation
  import opened Wrappers
  import opened Schedulers
  import opened TimingWheels
  import M = WheelModel
  import I = WheelInvariant
  import R = WheelRuns
  import T = WheelTimers

  /** The expirations with which the timer has been added to the wheel, and the firings it has had. */
  ghost function Added(w: TimingWheel, id: nat): seq<int>
    requires |w.states| == |w.steps| + 1
    reads w`states, w`steps
  {
    T.Plan(w.states, w.steps, |w.steps|, id)
  }

  ghost function Firings(w: TimingWheel, id: nat): seq<M.Firing>
    reads w`model
  {
    T.Firings(w.model.fired, id)
  }

  lemma RunLength(w: TimingWheel)
    requires w.Traced()
    ensures |w.states| == |w.steps| + 1
  {
  }

  lemma FiredInOrder(w: TimingWheel, id: nat)
    requires w.Traced()
    ensures |w.states| == |w.steps| + 1
    ensures var fs, added := Firings(w, id), Added(w, id);
            && |fs| <= |added| <= |fs| + 1
            && (forall k: nat | k < |fs| ::
                  fs[k].entry == M.Entry(id, added[k]) && Truncate(added[k], w.tick) <= fs[k].clock <= w.System().now)
            && (forall e: M.Entry | e.id == id ::
                  I.Held(w.model.levels, e) > 0 <==> |added| == |fs| + 1 && e.at == added[|fs|])
            && (|added| == |fs| + 1 ==> I.Held(w.model.levels, M.Entry(id, added[|fs|])) > 0)
  {
    T.FiresInOrderOfAdding(w.tick, w.wheelSize, w.start, w.states, w.steps, |w.steps|, id);
  }

  lemma ListedIsHeld(w: TimingWheel, t: Timer)
    requires w.Rep() && t in w.timers && t.bucket != null
    ensures I.Held(w.model.levels, t.Entry()) > 0
  {
    HeldTimer(w, t);
    var b := t.bucket;
    var m := M.At(w.model, b.level, b.slot);
    assert b.Shows(m, w.timers);
    var i: nat :| i < |b.timers| && b.timers[i] == t;
    assert m.timers[i] == t.Entry() && t.Entry() in m.timers;
    I.PutBucketHeld(w.model, b.level, b.slot, m, t.Entry());
  }

  /** A timer is in no bucket exactly when it has fired as often as it was added. */
  lemma FreeIffFired(w: TimingWheel, t: Timer)
    requires w.Rep() && w.Traced() && t in w.timers
    ensures |w.states| == |w.steps| + 1 && (t.bucket == null <==> |Firings(w, t.id)| == |Added(w, t.id)|)
  {
    FiredInOrder(w, t.id);
    TraceMeans(w);
    var fs, added := Firings(w, t.id), Added(w, t.id);
    hide T.Plan, T.Firings, R.SysInv, I.Inv, w.Rep;
    if t.bucket != null {
      ListedIsHeld(w, t);
    } else {
      SameIdentity(w, t);
      NotHeld(w, t.id);
    }
  }

  /** One addition of the timer, by a step that follows steps which leave it alone. */
  lemma OneMoreAdded(states: seq<R.System>, steps: seq<R.Step>, longer: seq<R.System>, more: seq<R.Step>, e: M.Entry)
    requires |states| == |steps| + 1 && |longer| == |more| + 1
    requires states <= longer && more == steps + [R.Arrive(e)]
    ensures T.Plan(longer, more, |more|, e.id) == T.Plan(states, steps, |steps|, e.id) + [e.at]
  {
    T.PlanOfPrefix(states, steps, longer, more, |steps|, e.id);
  }

  /** A new timer has never been added. */
  lemma NewIsNotAdded(w: TimingWheel, id: nat)
    requires w.Traced() && |w.timers| <= id && |w.states| == |w.steps| + 1
    ensures Added(w, id) == []
  {
    T.NothingPlanned(w.states, w.steps, |w.steps|, id);
  }

  /** What other timers do, and what the event loop does, adds nothing to a plan. */
  lemma AddedStays(states: seq<R.System>, steps: seq<R.Step>, w: TimingWheel, id: nat)
    requires |states| == |steps| + 1 && |w.states| == |w.steps| + 1 && states <= w.states && steps <= w.steps
    requires OnlyLooped(steps, w.steps) || T.LeftAlone(w.states, w.steps, |steps|, |w.steps|, id)
    ensures Added(w, id) == T.Plan(states, steps, |steps|, id)
  {
    T.PlanKept(w.states, w.steps, |steps|, |w.steps|, id);
    T.PlanOfPrefix(states, steps, w.states, w.steps, |steps|, id);
  }

  /** Since then the run has gone on by one addition of the timer, at the same time of the clock. */
  ghost predicate OneArrival(states: seq<R.System>, steps: seq<R.Step>, w: TimingWheel, t: Timer)
    reads w`states, w`steps, t`expiration
  {
    && 0 < |states| < |w.states| && states <= w.states && w.steps == steps + [R.Arrive(t.Entry())]
    && w.System().now == states[|states| - 1].now
  }

  /** What ScheduleFunc does with the first time of a plan: a new timer, added once. */
  method FirstAddition(wheel: TimingWheel, expiration: int) returns (t: Timer)
    requires wheel.Rep() && wheel.Traced()
    modifies wheel`model, wheel`chain, wheel`allBuckets, wheel`started, wheel`timers, wheel`states, wheel`steps
    modifies wheel.chain`overflowWheel, wheel.allBuckets, wheel.queue, wheel.queue.slots, wheel.queue.items
    ensures wheel.Rep() && wheel.Traced() && |wheel.states| == |wheel.steps| + 1
    ensures fresh(t) && wheel.timers == old(wheel.timers) + {t} && t.id == |old(wheel.timers)|
    ensures t.expiration == expiration && Added(wheel, t.id) == [expiration]
    ensures OneArrival(old(wheel.states), old(wheel.steps), wheel, t)
    ensures old(wheel.chain) <= wheel.chain
    ensures forall i: nat | i < |wheel.chain| :: wheel.chain[i] in old(wheel.chain) || fresh(wheel.chain[i])
    ensures old(wheel.allBuckets) <= wheel.allBuckets && fresh(wheel.allBuckets - old(wheel.allBuckets))
    ensures wheel.queue.slots == old(wheel.queue.slots) || fresh(wheel.queue.slots)
    ensures forall i: nat | i < |wheel.queue.items| ::
              wheel.queue.items[i] in old(wheel.queue.items) || fresh(wheel.queue.items[i])
  {
    hide wheel.Rep, wheel.Traced, M.AddOrRun, T.Plan, I.Inv;
    RunLength(wheel);
    NewIsNotAdded(wheel, |wheel.timers|);
    t := wheel.NewTimer(expiration);
    ghost var states, steps := wheel.states, wheel.steps;
    wheel.Arrive(t);
    RunLength(wheel);
    OneMoreAdded(states, steps, wheel.states, wheel.steps, t.Entry());
  }

  /** What the task of the timer does with the next time of its plan: the same timer is added again. */
  method NextAddition(wheel: TimingWheel, t: Timer, expiration: int)
    requires wheel.Rep() && wheel.Traced() && t in wheel.timers
    requires |wheel.states| == |wheel.steps| + 1 && |Firings(wheel, t.id)| >= |Added(wheel, t.id)|
    modifies t
    modifies wheel`model, wheel`chain, wheel`allBuckets, wheel`started, wheel`states, wheel`steps
    modifies wheel.chain`overflowWheel, wheel.allBuckets, wheel.queue, wheel.queue.slots, wheel.queue.items
    ensures wheel.Rep() && wheel.Traced() && |wheel.states| == |wheel.steps| + 1
    ensures t.expiration == expiration && Added(wheel, t.id) == old(Added(wheel, t.id)) + [expiration]
    ensures OneArrival(old(wheel.states), old(wheel.steps), wheel, t)
    ensures old(wheel.chain) <= wheel.chain
    ensures forall i: nat | i < |wheel.chain| :: wheel.chain[i] in old(wheel.chain) || fresh(wheel.chain[i])
    ensures old(wheel.allBuckets) <= wheel.allBuckets && fresh(wheel.allBuckets - old(wheel.allBuckets))
    ensures wheel.queue.slots == old(wheel.queue.slots) || fresh(wheel.queue.slots)
    ensures forall i: nat | i < |wheel.queue.items| ::
              wheel.queue.items[i] in old(wheel.queue.items) || fresh(wheel.queue.items[i])
  {
    hide wheel.Rep, wheel.Traced, M.AddOrRun, T.Plan, I.Inv;
    FiredInOrder(wheel, t.id);
    FreeIffFired(wheel, t);
    ghost var states, steps := wheel.states, wheel.steps;
    wheel.Reschedule(t, expiration);
    RunLength(wheel);
    OneMoreAdded(states, steps, wheel.states, wheel.steps, M.Entry(t.id, expiration));
  }

  // ----- at equal intervals -----

  /** The first n expirations of an EveryScheduler plan. */
  function EveryUpTo(start: int, interval: int, n: nat): (r: seq<int>)
    ensures |r| == n && forall k: nat | k < n :: r[k] == Every(start, interval, k)
  {
    seq(n, k requires 0 <= k < n => Every(start, interval, k))
  }

  lemma FirstOfEvery(start: int, interval: int)
    ensures Every(start, interval, 0) == TimeToMs(start + interval)
    ensures EveryUpTo(start, interval, 1) == [TimeToMs(start + interval)]
  {
  }

  lemma NextOfEvery(start: int, interval: int, n: nat)
    requires n > 0
    ensures Every(start, interval, n) == TimeToMs(MsToTime(Every(start, interval, n - 1)) + interval)
    ensures EveryUpTo(start, interval, n + 1) == EveryUpTo(start, interval, n) + [Every(start, interval, n)]
  {
  }

  /** A plan of ScheduleFunc over an EveryScheduler; `calls` counts the calls of its function. */
  class EveryPlan {
    const wheel: TimingWheel
    const interval: int
    const timer: Timer
    ghost const start: int
    var calls: nat

    /** The timer has been added at the first calls + 1 expirations of the schedule. */
    ghost predicate Valid()
      reads this`calls, wheel`timers, wheel`states, wheel`steps, timer`expiration
    {
      && timer in wheel.timers && |wheel.states| == |wheel.steps| + 1
      && timer.expiration == Every(start, interval, calls)
      && Added(wheel, timer.id) == EveryUpTo(start, interval, calls + 1)
    }

    /** ScheduleFunc at the time `now`. */
    constructor (wheel: TimingWheel, interval: int, now: int)
      requires wheel.Rep() && wheel.Traced()
      modifies wheel`model, wheel`chain, wheel`allBuckets, wheel`started, wheel`timers, wheel`states, wheel`steps
      modifies wheel.chain`overflowWheel, wheel.allBuckets, wheel.queue, wheel.queue.slots, wheel.queue.items
      ensures wheel.Rep() && wheel.Traced() && Valid() && calls == 0
      ensures this.wheel == wheel && this.interval == interval && start == now
      ensures fresh(timer) && wheel.timers == old(wheel.timers) + {timer} && timer.id == |old(wheel.timers)|
      ensures OneArrival(old(wheel.states), old(wheel.steps), wheel, timer)
      ensures old(wheel.chain) <= wheel.chain
      ensures forall i: nat | i < |wheel.chain| :: wheel.chain[i] in old(wheel.chain) || fresh(wheel.chain[i])
      ensures old(wheel.allBuckets) <= wheel.allBuckets && fresh(wheel.allBuckets - old(wheel.allBuckets))
      ensures wheel.queue.slots == old(wheel.queue.slots) || fresh(wheel.queue.slots)
      ensures forall i: nat | i < |wheel.queue.items| ::
                wheel.queue.items[i] in old(wheel.queue.items) || fresh(wheel.queue.items[i])
    {
      hide wheel.Rep, wheel.Traced, Every, T.Plan;
      var t := FirstAddition(wheel, TimeToMs(now + interval));
      FirstOfEvery(now, interval);
      this.wheel, this.interval, this.timer, this.start, calls := wheel, interval, t, now, 0;
    }

    /** The timer's task, which runs at any time after a firing of the timer. */
    method Run()
      requires wheel.Rep() && wheel.Traced() && Valid() && |Firings(wheel, timer.id)| > calls
      modifies this`calls, timer
      modifies wheel`model, wheel`chain, wheel`allBuckets, wheel`started, wheel`states, wheel`steps
      modifies wheel.chain`overflowWheel, wheel.allBuckets, wheel.queue, wheel.queue.slots, wheel.queue.items
      ensures wheel.Rep() && wheel.Traced() && Valid() && calls == old(calls) + 1
      ensures OneArrival(old(wheel.states), old(wheel.steps), wheel, timer)
      ensures old(wheel.chain) <= wheel.chain
      ensures forall i: nat | i < |wheel.chain| :: wheel.chain[i] in old(wheel.chain) || fresh(wheel.chain[i])
      ensures old(wheel.allBuckets) <= wheel.allBuckets && fresh(wheel.allBuckets - old(wheel.allBuckets))
      ensures wheel.queue.slots == old(wheel.queue.slots) || fresh(wheel.queue.slots)
      ensures forall i: nat | i < |wheel.queue.items| ::
                wheel.queue.items[i] in old(wheel.queue.items) || fresh(wheel.queue.items[i])
    {
      hide wheel.Rep, wheel.Traced, Every, T.Plan, T.Firings, OneArrival;
      NextAddition(wheel, timer, TimeToMs(MsToTime(timer.expiration) + interval));
      NextOfEvery(start, interval, calls + 1);
      calls := calls + 1;
    }
  }

  /** The wheel has gone on, by turns of the event loop or by anything else that leaves the timer alone. */
  twostate predicate WentOn(w: TimingWheel, t: Timer)
    reads w`timers, w`states, w`steps, t`expiration
  {
    && |old(w.states)| == |old(w.steps)| + 1 && |w.states| == |w.steps| + 1
    && old(w.timers) <= w.timers && t.expiration == old(t.expiration)
    && old(w.states) <= w.states && old(w.steps) <= w.steps
    && (OnlyLooped(old(w.steps), w.steps) || T.LeftAlone(w.states, w.steps, |old(w.steps)|, |w.steps|, t.id))
  }

  /** Whatever leaves its timer alone leaves the plan valid. */
  twostate lemma EveryPlanStays(p: EveryPlan)
    requires old(p.Valid()) && p.calls == old(p.calls) && WentOn(p.wheel, p.timer)
    ensures p.Valid()
  {
    AddedStays(old(p.wheel.states), old(p.wheel.steps), p.wheel, p.timer.id);
    hide Every, T.Plan;
  }

  /**
   The timer's k-th firing carries the k-th expiration of the schedule and does not come before that,
   truncated to the tick; of all firings at most one still waits for its task.
   */
  lemma EveryPlanFires(p: EveryPlan)
    requires p.wheel.Traced() && p.Valid()
    ensures var fs := Firings(p.wheel, p.timer.id);
            && p.calls <= |fs| <= p.calls + 1
            && forall k: nat | k < |fs| ::
                 && fs[k].entry == M.Entry(p.timer.id, Every(p.start, p.interval, k))
                 && Truncate(Every(p.start, p.interval, k), p.wheel.tick) <= fs[k].clock
  {
    FiredInOrder(p.wheel, p.timer.id);
    hide Every, T.Plan, T.Firings;
  }

  /**
   One reading of the clock: the event loop drains the queue, and then the timer's task runs if the
   timer has fired. When it does not run, the next expiration of the plan has not come yet.
   */
  method Serve(p: EveryPlan, now: int)
    requires p.wheel.Rep() && p.wheel.Traced() && p.Valid() && p.wheel.System().now <= now
    modifies p`calls, p.timer, p.wheel`model, p.wheel`chain, p.wheel`allBuckets, p.wheel`started
    modifies p.wheel`states, p.wheel`steps, p.wheel.chain`overflowWheel, p.wheel.chain`currentTime
    modifies p.wheel.allBuckets, p.wheel.timers`bucket, p.wheel.queue, p.wheel.queue.slots, p.wheel.queue.items
    ensures p.wheel.Rep() && p.wheel.Traced() && p.Valid() && p.wheel.System().now == now
    ensures old(p.calls) <= p.calls <= old(p.calls) + 1
    ensures p.calls == old(p.calls) ==> Truncate(Every(p.start, p.interval, p.calls), p.wheel.tick) > now
  {
    hide p.wheel.Rep, p.wheel.Traced, T.Plan, Every, M.AddOrRun, M.Geometry, I.Inv;
    RunLength(p.wheel);
    label before:
    p.wheel.Drain(now);
    RunLength(p.wheel);
    EveryPlanStays@before(p);
    FreeIffFired(p.wheel, p.timer);
    if p.timer.bucket == null {
      EveryPlanFires(p);
      p.Run();
    } else {
      ListedIsHeld(p.wheel, p.timer);
    }
  }

  // ----- at given intervals -----

  /** The first n expirations of a BackOffScheduler plan. */
  function BackOffUpTo(start: int, intervals: seq<int>, n: nat): (r: seq<int>)
    requires n <= |intervals|
    ensures |r| == n && forall k: nat | k < n :: r[k] == BackOff(start, intervals, k)
  {
    seq(n, k requires 0 <= k < n => BackOff(start, intervals, k))
  }

  lemma NextOfBackOff(start: int, intervals: seq<int>, n: nat)
    requires n < |intervals|
    ensures BackOff(start, intervals, n)
         == TimeToMs((if n == 0 then start else MsToTime(BackOff(start, intervals, n - 1))) + intervals[n])
    ensures BackOffUpTo(start, intervals, n + 1) == BackOffUpTo(start, intervals, n) + [BackOff(start, intervals, n)]
  {
  }

  /** A plan of ScheduleFunc over a BackOffScheduler; `calls` counts the calls of its function. */
  class BackOffPlan {
    const wheel: TimingWheel
    const scheduler: BackOffScheduler
    const timer: Timer
    ghost const start: int
    var calls: nat

    /** The timer has been added once more than its function was called, until the intervals are used up. */
    ghost predicate Valid()
      reads this`calls, scheduler, wheel`timers, wheel`states, wheel`steps, wheel`model, timer`expiration
    {
      var intervals := scheduler.intervals;
      && timer in wheel.timers && |wheel.states| == |wheel.steps| + 1
      && calls <= |intervals| && 1 <= scheduler.current <= |intervals|
      && scheduler.current == (if calls < |intervals| then calls + 1 else calls)
      && timer.expiration == BackOff(start, intervals, scheduler.current - 1)
      && Added(wheel, timer.id) == BackOffUpTo(start, intervals, scheduler.current)
      && (calls == |intervals| ==> |Firings(wheel, timer.id)| == calls)
    }

    constructor (wheel: TimingWheel, scheduler: BackOffScheduler, timer: Timer, now: int)
      ensures this.wheel == wheel && this.scheduler == scheduler && this.timer == timer
      ensures start == now && calls == 0
    {
      this.wheel, this.scheduler, this.timer, this.start, calls := wheel, scheduler, timer, now, 0;
    }

    /** The timer's task, which runs at any time after a firing of the timer. */
    method Run()
      requires wheel.Rep() && wheel.Traced() && Valid() && |Firings(wheel, timer.id)| > calls
      modifies this`calls, scheduler, timer
      modifies wheel`model, wheel`chain, wheel`allBuckets, wheel`started, wheel`states, wheel`steps
      modifies wheel.chain`overflowWheel, wheel.allBuckets, wheel.queue, wheel.queue.slots, wheel.queue.items
      ensures wheel.Rep() && wheel.Traced() && Valid() && calls == old(calls) + 1
      ensures if calls < |scheduler.intervals| then OneArrival(old(wheel.states), old(wheel.steps), wheel, timer)
              else wheel.states == old(wheel.states) && wheel.steps == old(wheel.steps)
      ensures old(wheel.chain) <= wheel.chain
      ensures forall i: nat | i < |wheel.chain| :: wheel.chain[i] in old(wheel.chain) || fresh(wheel.chain[i])
      ensures old(wheel.allBuckets) <= wheel.allBuckets && fresh(wheel.allBuckets - old(wheel.allBuckets))
      ensures wheel.queue.slots == old(wheel.queue.slots) || fresh(wheel.queue.slots)
      ensures forall i: nat | i < |wheel.queue.items| ::
                wheel.queue.items[i] in old(wheel.queue.items) || fresh(wheel.queue.items[i])
    {
      hide wheel.Rep, wheel.Traced, BackOff, T.Plan, T.Firings, OneArrival;
      FiredInOrder(wheel, timer.id);
      var next := scheduler.Next(MsToTime(timer.expiration));
      if next.Some? {
        NextAddition(wheel, timer, TimeToMs(next.value));
        NextOfBackOff(start, scheduler.intervals, calls + 1);
      }
      calls := calls + 1;
    }
  }

  /** ScheduleFunc at the time `now`; nothing is scheduled when there is no interval, an error in the source. */
  method ScheduleBackOff(wheel: TimingWheel, scheduler: BackOffScheduler, now: int) returns (plan: BackOffPlan?)
    requires wheel.Rep() && wheel.Traced() && scheduler.current == 0
    modifies scheduler
    modifies wheel`model, wheel`chain, wheel`allBuckets, wheel`started, wheel`timers, wheel`states, wheel`steps
    modifies wheel.chain`overflowWheel, wheel.allBuckets, wheel.queue, wheel.queue.slots, wheel.queue.items
    ensures wheel.Rep() && wheel.Traced() && (plan == null <==> scheduler.intervals == [])
    ensures plan == null ==>
              && wheel.model == old(wheel.model) && wheel.timers == old(wheel.timers)
              && wheel.states == old(wheel.states) && wheel.steps == old(wheel.steps)
    ensures plan != null ==>
              && fresh(plan) && plan.Valid() && plan.calls == 0 && plan.start == now
              && plan.wheel == wheel && plan.scheduler == scheduler
              && fresh(plan.timer) && wheel.timers == old(wheel.timers) + {plan.timer}
              && plan.timer.id == |old(wheel.timers)|
              && OneArrival(old(wheel.states), old(wheel.steps), wheel, plan.timer)
    ensures old(wheel.chain) <= wheel.chain
    ensures forall i: nat | i < |wheel.chain| :: wheel.chain[i] in old(wheel.chain) || fresh(wheel.chain[i])
    ensures old(wheel.allBuckets) <= wheel.allBuckets && fresh(wheel.allBuckets - old(wheel.allBuckets))
    ensures wheel.queue.slots == old(wheel.queue.slots) || fresh(wheel.queue.slots)
    ensures forall i: nat | i < |wheel.queue.items| ::
              wheel.queue.items[i] in old(wheel.queue.items) || fresh(wheel.queue.items[i])
  {
    hide wheel.Rep, wheel.Traced, BackOff, T.Plan, T.Firings;
    var next := scheduler.Next(now);
    if next == None {
      return null;
    }
    var t := FirstAddition(wheel, TimeToMs(next.value));
    NextOfBackOff(now, scheduler.intervals, 0);
    plan := new BackOffPlan(wheel, scheduler, t, now);
  }

  /**
   The k-th firing carries the k-th expiration of the schedule and does not come before that, truncated
   to the tick. The function has been called for all intervals exactly when nothing is left to happen:
   every addition has fired, and every firing has had its call.
   */
  lemma BackOffPlanFires(p: BackOffPlan)
    requires p.wheel.Traced() && p.Valid()
    ensures var fs, intervals := Firings(p.wheel, p.timer.id), p.scheduler.intervals;
            && p.calls <= |fs| <= p.calls + 1 && |fs| <= |intervals|
            && (forall k: nat | k < |fs| ::
                  && fs[k].entry == M.Entry(p.timer.id, BackOff(p.start, intervals, k))
                  && Truncate(BackOff(p.start, intervals, k), p.wheel.tick) <= fs[k].clock)
            && (p.calls == |intervals| <==> p.calls == |fs| == |Added(p.wheel, p.timer.id)|)
  {
    FiredInOrder(p.wheel, p.timer.id);
    hide BackOff, T.Plan, T.Firings;
  }

  lemma FiringsStay(w: TimingWheel, states: seq<R.System>, id: nat)
    requires w.Traced() && states != [] && states <= w.states
    ensures T.Firings(states[|states| - 1].wheel.fired, id) <= Firings(w, id)
  {
    R.StartInv(w.tick, w.wheelSize, w.start);
    R.RunLogGrows(w.states, w.steps, w.tick, |states| - 1, |w.states| - 1);
    var a, b := states[|states| - 1].wheel.fired, w.model.fired;
    T.FiringsJoin(a, b[|a|..], id);
    assert a + b[|a|..] == b;
  }

  /** Whatever leaves its timer alone leaves the plan valid. */
  twostate lemma BackOffPlanStays(p: BackOffPlan)
    requires old(p.wheel.Traced()) && p.wheel.Traced()
    requires old(p.Valid()) && p.calls == old(p.calls) && p.scheduler.current == old(p.scheduler.current)
    requires WentOn(p.wheel, p.timer)
    ensures p.Valid()
  {
    hide BackOff, T.Plan, T.Firings, T.LeftAlone, OnlyLooped, R.IsRun, R.Start, Identified;
    AddedStays(old(p.wheel.states), old(p.wheel.steps), p.wheel, p.timer.id);
    FiringsStay(p.wheel, old(p.wheel.states), p.timer.id);
    FiredInOrder(p.wheel, p.timer.id);
  }

  // ----- plans on every run -----

  /** Step n does not stop the timer, and adds it only for the next expiration of the schedule. */
  ghost predicate EveryAt(states: seq<R.System>, steps: seq<R.Step>, n: nat, id: nat, start: int, interval: int)
    requires |states| == |steps| + 1 && n < |steps|
  {
    && !T.Cancels(states[n], steps[n], id)
    && (steps[n].Arrive? && steps[n].e.id == id ==>
          steps[n].e.at == Every(start, interval, |T.Plan(states, steps, n, id)|))
  }

  /** The timer is never stopped, and its n-th addition is for the n-th expiration of the schedule. */
  ghost predicate FollowsEvery(states: seq<R.System>, steps: seq<R.Step>, id: nat, start: int, interval: int)
    requires |states| == |steps| + 1
  {
    forall n: nat | n < |steps| :: EveryAt(states, steps, n, id, start, interval)
  }

  lemma OneMorePlanned(states: seq<R.System>, steps: seq<R.Step>, n: nat, id: nat)
    requires |states| == |steps| + 1 && n < |steps| && !T.Cancels(states[n], steps[n], id)
    ensures T.Plan(states, steps, n + 1, id)
         == T.Plan(states, steps, n, id)
            + (if steps[n].Arrive? && steps[n].e.id == id then [steps[n].e.at] else [])
  {
  }

  lemma {:induction false} EveryIsPlanned(states: seq<R.System>, steps: seq<R.Step>, n: nat, id: nat,
                                          start: int, interval: int)
    requires |states| == |steps| + 1 && n <= |steps| && FollowsEvery(states, steps, id, start, interval)
    ensures var plan := T.Plan(states, steps, n, id); plan == EveryUpTo(start, interval, |plan|)
    decreases n
  {
    hide Every, T.Cancels, EveryUpTo, R.Next;
    if n > 0 {
      EveryIsPlanned(states, steps, n - 1, id, start, interval);
      assert EveryAt(states, steps, n - 1, id, start, interval);
      hide T.Plan;
      OneMorePlanned(states, steps, n - 1, id);
    }
  }

  /**
   On every run of the wheel, whatever other timers do and however late the event loop and the tasks
   are: the k-th firing of the timer carries the k-th expiration of the schedule, which for whole
   milliseconds is start + (k + 1) * interval, and comes no earlier than that, truncated to the tick.
   */
  lemma EveryFiresOnEveryRun(tick: int, size: nat, from: int, states: seq<R.System>, steps: seq<R.Step>, i: nat,
                             id: nat, start: int, interval: int)
    requires tick >= 1 && size >= 2 && from >= 0 && start >= 0 && interval >= 0
    requires R.IsRun(states, steps) && states[0] == R.Start(tick, size, from) && i < |states|
    requires |states| == |steps| + 1 && FollowsEvery(states, steps, id, start, interval)
    ensures var fs, plan := T.Firings(states[i].wheel.fired, id), T.Plan(states, steps, i, id);
            && |fs| <= |plan| <= |fs| + 1
            && forall k: nat | k < |fs| ::
                 && fs[k].entry == M.Entry(id, Every(start, interval, k))
                 && Truncate(Every(start, interval, k), tick) <= fs[k].clock <= states[i].now
                 && (interval % MILLISECOND == 0 ==> fs[k].entry.at == TimeToMs(start + (k + 1) * interval))
  {
    T.FiresInOrderOfAdding(tick, size, from, states, steps, i, id);
    EveryIsPlanned(states, steps, i, id, start, interval);
    var fs, plan := T.Firings(states[i].wheel.fired, id), T.Plan(states, steps, i, id);
    hide *;
    forall k: nat | k < |fs|
      ensures plan[k] == Every(start, interval, k)
      ensures interval % MILLISECOND == 0 ==> plan[k] == TimeToMs(start + (k + 1) * interval)
    {
      if interval % MILLISECOND == 0 { EveryStays(start, interval, k); }
    }
  }

  /** No interval is negative and all are whole milliseconds. */
  predicate AllWhole(intervals: seq<int>) {
    forall i | i in intervals :: i >= 0 && i % MILLISECOND == 0
  }

  /** `start` plus the first k + 1 intervals, in milliseconds. */
  function AtSum(start: int, intervals: seq<int>, k: nat): int
    requires k < |intervals|
  {
    TimeToMs(start + Sum(intervals[..k + 1]))
  }

  lemma WholeBackOff(start: int, intervals: seq<int>, k: nat)
    requires start >= 0 && k < |intervals|
    ensures AllWhole(intervals) ==> BackOff(start, intervals, k) == AtSum(start, intervals, k)
  {
    if AllWhole(intervals) { BackOffIsPrefixSum(start, intervals, k); }
    hide BackOff, Sum, TimeToMs;
  }

  /** Step n does not stop the timer, and adds it only for the next of the given intervals. */
  ghost predicate BackOffAt(states: seq<R.System>, steps: seq<R.Step>, n: nat, id: nat, start: int, intervals: seq<int>)
    requires |states| == |steps| + 1 && n < |steps|
  {
    && !T.Cancels(states[n], steps[n], id)
    && (steps[n].Arrive? && steps[n].e.id == id ==>
          && |T.Plan(states, steps, n, id)| < |intervals|
          && steps[n].e.at == BackOff(start, intervals, |T.Plan(states, steps, n, id)|))
  }

  /** The same for given intervals: no more additions than there are intervals. */
  ghost predicate FollowsBackOff(states: seq<R.System>, steps: seq<R.Step>, id: nat, start: int, intervals: seq<int>)
    requires |states| == |steps| + 1
  {
    forall n: nat | n < |steps| :: BackOffAt(states, steps, n, id, start, intervals)
  }

  lemma {:induction false} BackOffIsPlanned(states: seq<R.System>, steps: seq<R.Step>, n: nat, id: nat,
                                            start: int, intervals: seq<int>)
    requires |states| == |steps| + 1 && n <= |steps| && FollowsBackOff(states, steps, id, start, intervals)
    ensures var plan := T.Plan(states, steps, n, id);
            |plan| <= |intervals| && plan == BackOffUpTo(start, intervals, |plan|)
    decreases n
  {
    hide BackOff, T.Cancels, BackOffUpTo, R.Next;
    if n > 0 {
      BackOffIsPlanned(states, steps, n - 1, id, start, intervals);
      assert BackOffAt(states, steps, n - 1, id, start, intervals);
      hide T.Plan;
      OneMorePlanned(states, steps, n - 1, id);
    }
  }

  /**
   On every run of the wheel the k-th firing of the timer carries the k-th expiration of the schedule,
   which for whole milliseconds is start plus the sum of the first k + 1 intervals, and comes no
   earlier than that, truncated to the tick; there are no more firings than intervals.
   */
  lemma BackOffFiresOnEveryRun(tick: int, size: nat, from: int, states: seq<R.System>, steps: seq<R.Step>, i: nat,
                               id: nat, start: int, intervals: seq<int>)
    requires tick >= 1 && size >= 2 && from >= 0 && start >= 0
    requires R.IsRun(states, steps) && states[0] == R.Start(tick, size, from) && i < |states|
    requires |states| == |steps| + 1 && FollowsBackOff(states, steps, id, start, intervals)
    ensures var fs, plan := T.Firings(states[i].wheel.fired, id), T.Plan(states, steps, i, id);
            && |fs| <= |plan| <= |fs| + 1 && |plan| <= |intervals|
            && forall k: nat | k < |fs| ::
                 && fs[k].entry == M.Entry(id, BackOff(start, intervals, k))
                 && Truncate(BackOff(start, intervals, k), tick) <= fs[k].clock <= states[i].now
                 && (AllWhole(intervals) ==> fs[k].entry.at == AtSum(start, intervals, k))
  {
    T.FiresInOrderOfAdding(tick, size, from, states, steps, i, id);
    BackOffIsPlanned(states, steps, i, id, start, intervals);
    var fs, plan := T.Firings(states[i].wheel.fired, id), T.Plan(states, steps, i, id);
    hide *;
    forall k: nat | k < |fs|
      ensures k < |intervals| && plan[k] == BackOff(start, intervals, k)
      ensures AllWhole(intervals) ==> plan[k] == AtSum(start, intervals, k)
    {
      WholeBackOff(start, intervals, k);
    }
  }
}
