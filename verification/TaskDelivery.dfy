/**
 Tasks and the timing wheel together: Submit adds a timer to the wheel for each execution, and an
 execution runs after its timer has fired. Task numbers serve as the identities of the timers.
 */
module TaskDelivery {
  import opened Truncation
  import opened Wrappers
  import opened TaskModel
  import T = TaskRuns
  import W = WheelRuns
  import M = WheelModel
  import I = WheelInvariant
  import C = WheelCascade
  import K = WheelTimers
  import Nodes

  datatype Joint = Joint(wheel: W.System, tasks: T.System)

  datatype Step =
    | Wheel(w: W.Step)
    | Tasks(t: T.Step)

  function Number(s: T.System, step: T.Step): nat
    requires T.Enabled(s, step)
  {
    if step.Run? then s.store.flights[step.index].no else step.no
  }

  /** The execution that the step hands to AfterFunc, if any: it comes last in the list of executions. */
  function Launched(s: T.System, step: T.Step): Option<Task>
    requires T.Inv(s) && T.Enabled(s, step)
  {
    var before, after := s.store.flights, T.Do(s, step).store.flights;
    if after != [] && |after| > (if step.Run? then |before| - 1 else |before|)
    then Some(after[|after| - 1])
    else None
  }

  function Timer(t: Task): M.Entry {
    M.Entry(t.no, TimeToMs(t.nextRunAt))
  }

  function History(s: T.System, no: nat): seq<T.Attempt> {
    if no in s.store.rows && no in s.history then s.history[no] else []
  }

  function Plans(h: seq<T.Attempt>): (r: seq<int>)
    ensures |r| == |h| && forall k: nat | k < |h| :: r[k] == TimeToMs(h[k].plannedAt)
  {
    seq(|h|, k requires 0 <= k < |h| => TimeToMs(h[k].plannedAt))
  }

  /** The expirations for which the task's timers have been added so far. */
  function Planned(s: T.System, no: nat): (r: seq<int>)
    ensures |History(s, no)| <= |r|
    ensures forall k: nat | k < |History(s, no)| :: r[k] == TimeToMs(History(s, no)[k].plannedAt)
  {
    Plans(History(s, no))
    + (if T.InFlight(s.store.flights, no) && no in s.store.rows then [TimeToMs(s.store.rows[no].nextRunAt)] else [])
  }

  /** The timer of the task's next attempt has fired: the callback of AfterFunc is running. */
  predicate Started(s: Joint, no: nat) {
    |K.Firings(s.wheel.wheel.fired, no)| > |History(s.tasks, no)|
  }

  /** Attempts are made after firings, one for each; times in milliseconds. */
  predicate OnTime(s: Joint, no: nat) {
    var h, fs := History(s.tasks, no), K.Firings(s.wheel.wheel.fired, no);
    |h| <= |fs| && forall k: nat | k < |h| :: fs[k].clock <= TimeToMs(h[k].endedAt)
  }

  ghost predicate Linked(s: Joint, no: nat) {
    K.InTurn(s.wheel, Planned(s.tasks, no), no) && OnTime(s, no)
  }

  ghost predicate Inv(s: Joint, tick: int) {
    W.SysInv(s.wheel, tick) && T.Inv(s.tasks) && forall no: nat :: Linked(s, no)
  }

  /** The clock ticks and the event loop turns; a task's step reads the same clock, in nanoseconds. */
  ghost predicate Enabled(s: Joint, step: Step) {
    match step
    case Wheel(w) => (w.Tick? || w.Turn?) && W.Enabled(s.wheel, w)
    case Tasks(t) =>
      && T.Enabled(s.tasks, t) && TimeToMs(t.now) == s.wheel.now
      && (t.Run? ==> Started(s, Number(s.tasks, t)))
  }

  // ----- what a step does to one task -----

  lemma CreateIsLocal(s: T.System, step: T.Step)
    requires T.Inv(s) && T.Enabled(s, step) && step.Create?
    ensures var t, no, launched := T.Do(s, step), step.no, Launched(s, step);
            && T.OnlyTask(s, t, no) && no in t.store.rows
            && !T.InFlight(s.store.flights, no)
            && (T.InFlight(t.store.flights, no) <==> launched.Some?)
            && (launched.Some? ==> launched.value.no == no && launched.value.nextRunAt == t.store.rows[no].nextRunAt)
            && History(t, no) == History(s, no)
  {
    T.NotInFlight(s, step.no);
    T.Launch(s.store.flights, NewTask(step.no, step.delay, step.timeout, step.backoff, 0, step.now));
    hide T.Inv;
  }

  lemma PickIsLocal(s: T.System, step: T.Step)
    requires T.Inv(s) && T.Enabled(s, step) && step.Pick?
    ensures var t, no, launched := T.Do(s, step), step.no, Launched(s, step);
            && T.OnlyTask(s, t, no) && no in t.store.rows
            && !T.InFlight(s.store.flights, no)
            && (T.InFlight(t.store.flights, no) <==> launched.Some?)
            && (launched.Some? ==> launched.value.no == no && launched.value.nextRunAt == t.store.rows[no].nextRunAt)
            && History(t, no) == History(s, no)
  {
    hide T.RowOk, T.FlightOk, T.OnWheel;
    assert T.TaskOk(s, step.no);
    T.NotInFlight(s, step.no);
    T.FlownOnce(s);
    var r, created, h := s.store.rows[step.no], s.createdAt[step.no], s.history[step.no];
    var e, q := T.PickedRow(r, created, h, s.fastPath, step.no, step.now);
    T.Launch(s.store.flights, e);
    hide T.Inv, T.TaskOk;
    assert T.Do(s, step).store
        == Store(s.store.rows[step.no := q], if e.delayTime != 0 then s.store.flights + [e] else s.store.flights);
  }

  lemma RunIsLocal(s: T.System, step: T.Step)
    requires T.Inv(s) && T.Enabled(s, step) && step.Run?
    ensures var t, no, launched := T.Do(s, step), s.store.flights[step.index].no, Launched(s, step);
            && T.OnlyTask(s, t, no) && no in t.store.rows && no in s.store.rows && no in s.history
            && T.InFlight(s.store.flights, no)
            && (T.InFlight(t.store.flights, no) <==> launched.Some?)
            && (launched.Some? ==> launched.value.no == no && launched.value.nextRunAt == t.store.rows[no].nextRunAt)
            && History(t, no)
               == History(s, no) + [T.Attempt(s.store.rows[no].nextRunAt, step.now, step.outcome)]
  {
    var i, t := step.index, T.Do(s, step);
    var e := s.store.flights[i];
    var r, h, created := T.FlightMeans(s, i);
    T.RunMeans(s, i, step.outcome, step.now);
    var next := T.NextRow(r, e, s.fastPath, step.outcome, step.now);
    var flights := T.NextFlights([], e, s.fastPath, step.outcome, step.now);
    T.NextFlightOk(r, e, h, created, s.fastPath, step.outcome, step.now);
    T.FlownOnce(s);
    T.LandAndLaunch(s.store.flights, i, flights);
    hide T.Do, T.OncePerTask, T.Inv, T.RowOk;
    T.Changed(s, t, e.no, next, h + [T.Attempt(e.nextRunAt, step.now, step.outcome)], t.store.flights);
  }

  /** The step concerns one task; what it launches is that task's execution, planned as its row says. */
  lemma StepIsLocal(s: T.System, step: T.Step)
    requires T.Inv(s) && T.Enabled(s, step)
    ensures var t, no, launched := T.Do(s, step), Number(s, step), Launched(s, step);
            && T.OnlyTask(s, t, no) && no in t.store.rows
            && (T.InFlight(s.store.flights, no) <==> step.Run?)
            && (T.InFlight(t.store.flights, no) <==> launched.Some?)
            && (launched.Some? ==> launched.value.no == no && launched.value.nextRunAt == t.store.rows[no].nextRunAt)
            && (step.Run? ==> no in s.store.rows && no in s.history)
            && History(t, no) == History(s, no)
                 + (if step.Run? then [T.Attempt(s.store.rows[no].nextRunAt, step.now, step.outcome)] else [])
  {
    match step
    case Create(_, _, _, _, _, _) => CreateIsLocal(s, step);
    case Pick(_, _, _, _) => PickIsLocal(s, step);
    case Run(_, _, _) => RunIsLocal(s, step);
  }

  lemma OthersPlan(s: T.System, t: T.System, no: nat, n: nat)
    requires T.Inv(s) && T.OnlyTask(s, t, no) && n != no
    ensures History(t, n) == History(s, n) && Planned(t, n) == Planned(s, n)
  {
    if n in s.store.rows { assert T.TaskOk(s, n); }
    T.OtherInFlight(s, t, no, n);
    if T.InFlight(t.store.flights, n) {
      var i: nat :| i < |t.store.flights| && t.store.flights[i].no == n;
      var k: nat :| k < |s.store.flights| && s.store.flights[k] == t.store.flights[i];
    }
  }

  lemma PlannedMeans(s: T.System, no: nat)
    requires no in s.store.rows
    ensures Planned(s, no)
         == Plans(History(s, no))
            + (if T.InFlight(s.store.flights, no) then [TimeToMs(s.store.rows[no].nextRunAt)] else [])
  {
  }

  lemma OneMorePlan(h: seq<T.Attempt>, a: T.Attempt)
    ensures Plans(h + [a]) == Plans(h) + [TimeToMs(a.plannedAt)]
  {
  }

  lemma NothingPlanned(s: T.System, no: nat)
    requires no !in s.store.rows
    ensures Planned(s, no) == [] && History(s, no) == []
  {
  }

  /** A step adds to what its task has planned just what it launches. */
  lemma OwnPlan(s: T.System, step: T.Step)
    requires T.Inv(s) && T.Enabled(s, step)
    ensures var t, no, launched := T.Do(s, step), Number(s, step), Launched(s, step);
            && Planned(t, no) == Planned(s, no) + (if launched.Some? then [Timer(launched.value).at] else [])
            && (!step.Run? ==> History(t, no) == History(s, no) && |Planned(s, no)| == |History(s, no)|)
            && (step.Run? ==>
                  && |Planned(s, no)| == |History(s, no)| + 1
                  && |History(t, no)| == |History(s, no)| + 1 && History(t, no)[..|History(s, no)|] == History(s, no)
                  && History(t, no)[|History(s, no)|].endedAt == step.now)
  {
    StepIsLocal(s, step);
    hide T.Inv, T.Do, T.Enabled, T.InFlight, T.OnlyTask, Launched, Planned, Plans, History;
    var t, no := T.Do(s, step), Number(s, step);
    PlannedMeans(t, no);
    if no in s.store.rows {
      PlannedMeans(s, no);
    } else {
      NothingPlanned(s, no);
    }
    if step.Run? {
      OneMorePlan(History(s, no), T.Attempt(s.store.rows[no].nextRunAt, step.now, step.outcome));
    }
  }

  lemma StepPlans(s: T.System, step: T.Step, n: nat)
    requires T.Inv(s) && T.Enabled(s, step)
    ensures var t, no, launched := T.Do(s, step), Number(s, step), Launched(s, step);
            && Planned(t, n) == Planned(s, n) + (if n == no && launched.Some? then [Timer(launched.value).at] else [])
            && (launched.Some? ==> launched.value.no == no)
            && (n != no || !step.Run? ==> History(t, n) == History(s, n))
  {
    StepIsLocal(s, step);
    OwnPlan(s, step);
    hide T.Inv, T.Do, T.Enabled, T.InFlight, T.OnlyTask, Launched, Planned, History;
    if n != Number(s, step) {
      OthersPlan(s, T.Do(s, step), Number(s, step), n);
    }
  }

  lemma AllFiredIsAtRest(s: W.System, plan: seq<int>, no: nat)
    requires K.InTurn(s, plan, no) && |plan| <= |K.Firings(s.wheel.fired, no)|
    ensures K.AtRest(s, no)
  {
  }

  lemma CanArrive(s: W.System, e: M.Entry, tick: int)
    requires W.SysInv(s, tick) && K.AtRest(s, e.id)
    ensures I.Inv(s.wheel, I.Idle) && W.Enabled(s, W.Arrive(e))
  {
  }

  lemma InvMeans(s: Joint, tick: int, n: nat)
    requires Inv(s, tick)
    ensures W.SysInv(s.wheel, tick) && T.Inv(s.tasks)
    ensures K.InTurn(s.wheel, Planned(s.tasks, n), n) && OnTime(s, n)
  {
    assert Linked(s, n);
  }

  lemma EnabledMeans(s: Joint, step: T.Step)
    requires Enabled(s, Tasks(step))
    ensures T.Enabled(s.tasks, step) && TimeToMs(step.now) == s.wheel.now
    ensures step.Run? ==>
              |K.Firings(s.wheel.wheel.fired, Number(s.tasks, step))| > |History(s.tasks, Number(s.tasks, step))|
  {
  }

  lemma OnTimeMeans(s: Joint, no: nat)
    requires OnTime(s, no)
    ensures |History(s.tasks, no)| <= |K.Firings(s.wheel.wheel.fired, no)|
  {
  }

  lemma TimerMeans(t: Task)
    ensures Timer(t).id == t.no
  {
  }

  /** Before a step launches an execution of its task, no timer of that task is on the wheel. */
  lemma LaunchIsPossible(s: Joint, step: T.Step, tick: int)
    requires Inv(s, tick) && Enabled(s, Tasks(step))
    ensures I.Inv(s.wheel.wheel, I.Idle)
    ensures T.Inv(s.tasks) && T.Enabled(s.tasks, step)
    ensures Launched(s.tasks, step).Some? ==> W.Enabled(s.wheel, W.Arrive(Timer(Launched(s.tasks, step).value)))
  {
    hide *;
    EnabledMeans(s, step);
    var no := Number(s.tasks, step);
    InvMeans(s, tick, no);
    OnTimeMeans(s, no);
    OwnPlan(s.tasks, step);
    StepPlans(s.tasks, step, no);
    AllFiredIsAtRest(s.wheel, Planned(s.tasks, no), no);
    CanArrive(s.wheel, M.Entry(no, 0), tick);
    if Launched(s.tasks, step).Some? {
      TimerMeans(Launched(s.tasks, step).value);
      CanArrive(s.wheel, Timer(Launched(s.tasks, step).value), tick);
    }
  }

  ghost function Do(s: Joint, step: Step, tick: int): Joint
    requires Inv(s, tick) && Enabled(s, step)
  {
    match step
    case Wheel(w) => s.(wheel := W.Do(s.wheel, w))
    case Tasks(t) =>
      var launched := Launched(s.tasks, t);
      if launched.None? then s.(tasks := T.Do(s.tasks, t))
      else
        LaunchIsPossible(s, t, tick);
        Joint(W.Do(s.wheel, W.Arrive(Timer(launched.value))), T.Do(s.tasks, t))
  }

  /** A new task is planned on the wheel, in milliseconds, a thousand times its delay after it was added. */
  lemma CreatedIsPlanned(s: T.System, step: T.Step)
    requires T.Inv(s) && T.Enabled(s, step) && step.Create? && step.now >= 0 && step.delay >= 0
    ensures step.delay != 0 && step.delay * 1_000_000_000 <= s.fastPath ==>
              Planned(T.Do(s, step), step.no) == [TimeToMs(step.now) + 1000 * step.delay]
    ensures step.no in T.Do(s, step).store.rows
    ensures TimeToMs(T.Do(s, step).store.rows[step.no].nextRunAt) == TimeToMs(step.now) + 1000 * step.delay
  {
    var t := T.Do(s, step);
    T.CreateTakesPath(s, step);
    OwnPlan(s, step);
    assert TimeToMs(step.now + step.delay * SECOND) == TimeToMs(step.now) + 1000 * step.delay;
    hide T.Inv, Planned, TimeToMs;
  }

  // ----- every step keeps the link -----

  lemma FiringsGrow(s: W.System, step: W.Step, tick: int, no: nat)
    requires W.SysInv(s, tick) && W.Enabled(s, step)
    ensures K.Firings(s.wheel.fired, no) <= K.Firings(W.Do(s, step).wheel.fired, no)
  {
    assert I.Inv(s.wheel, I.Idle);
    hide W.SysInv, W.Enabled, W.Do, K.Firings, I.Inv;
    W.LogOnlyGrows(s, step, tick);
    var a, b := s.wheel.fired, W.Do(s, step).wheel.fired;
    K.FiringsJoin(a, b[|a|..], no);
    assert b == a + b[|a|..];
  }

  lemma OnTimeStill(s: Joint, t: Joint, no: nat)
    requires OnTime(s, no) && History(t.tasks, no) == History(s.tasks, no)
    requires K.Firings(s.wheel.wheel.fired, no) <= K.Firings(t.wheel.wheel.fired, no)
    ensures OnTime(t, no)
  {
  }

  lemma WheelStepKeeps(s: Joint, w: W.Step, tick: int)
    requires Inv(s, tick) && Enabled(s, Wheel(w))
    ensures Inv(Do(s, Wheel(w), tick), tick)
  {
    var t := Do(s, Wheel(w), tick);
    W.StepKeepsInv(s.wheel, w, tick);
    hide W.SysInv, T.Inv, W.Do, W.Enabled, K.InTurn, Planned, OnTime;
    forall no: nat
      ensures Linked(t, no)
    {
      assert Linked(s, no);
      K.StepInTurn(s.wheel, w, Planned(s.tasks, no), tick, no);
      FiringsGrow(s.wheel, w, tick, no);
      OnTimeStill(s, t, no);
    }
  }

  lemma FiringsInPast(s: W.System, tick: int, no: nat)
    requires W.SysInv(s, tick)
    ensures forall f | f in K.Firings(s.wheel.fired, no) ::
              f in s.wheel.fired && Truncate(f.entry.at, tick) <= f.clock <= s.now
  {
    K.FiringsAreLogged(s.wheel.fired, no);
    W.LogMeans(s, tick);
  }

  /** One more attempt, recorded at the time the clock shows, for one more firing. */
  lemma OneMoreOnTime(s: Joint, t: Joint, no: nat, now: int)
    requires OnTime(s, no) && |K.Firings(s.wheel.wheel.fired, no)| > |History(s.tasks, no)|
    requires K.Firings(s.wheel.wheel.fired, no) <= K.Firings(t.wheel.wheel.fired, no)
    requires |History(t.tasks, no)| == |History(s.tasks, no)| + 1
    requires History(t.tasks, no)[..|History(s.tasks, no)|] == History(s.tasks, no)
    requires History(t.tasks, no)[|History(s.tasks, no)|].endedAt == now
    requires forall f | f in K.Firings(s.wheel.wheel.fired, no) :: f.clock <= TimeToMs(now)
    ensures OnTime(t, no)
  {
    hide K.Firings, History;
    var h, more, fs := History(s.tasks, no), History(t.tasks, no), K.Firings(s.wheel.wheel.fired, no);
    assert fs[|h|] in fs;
    forall k: nat | k < |more|
      ensures K.Firings(t.wheel.wheel.fired, no)[k] == fs[k] && fs[k].clock <= TimeToMs(more[k].endedAt)
    {
      if k < |h| { assert more[k] == more[..|h|][k]; }
    }
  }

  /** The attempt that is recorded was started by the firing that comes next in its order. */
  lemma AttemptOnTime(s: Joint, t: Joint, step: T.Step, tick: int)
    requires Inv(s, tick) && Enabled(s, Tasks(step)) && step.Run?
    requires T.Inv(s.tasks) && T.Enabled(s.tasks, step) && t.tasks == T.Do(s.tasks, step)
    requires var no := Number(s.tasks, step); K.Firings(s.wheel.wheel.fired, no) <= K.Firings(t.wheel.wheel.fired, no)
    ensures OnTime(t, Number(s.tasks, step))
  {
    hide *;
    var no := Number(s.tasks, step);
    EnabledMeans(s, step);
    InvMeans(s, tick, no);
    OwnPlan(s.tasks, step);
    FiringsInPast(s.wheel, tick, no);
    OneMoreOnTime(s, t, no, step.now);
  }

  lemma DoMeans(s: Joint, step: T.Step, tick: int)
    requires Inv(s, tick) && Enabled(s, Tasks(step))
    ensures T.Inv(s.tasks) && T.Enabled(s.tasks, step) && I.Inv(s.wheel.wheel, I.Idle)
    ensures var t, launched := Do(s, Tasks(step), tick), Launched(s.tasks, step);
            && t.tasks == T.Do(s.tasks, step)
            && (launched.None? ==> t.wheel == s.wheel)
            && (launched.Some? ==>
                  && W.Enabled(s.wheel, W.Arrive(Timer(launched.value)))
                  && t.wheel == W.Do(s.wheel, W.Arrive(Timer(launched.value))))
  {
    LaunchIsPossible(s, step, tick);
    hide T.Inv, T.Do, T.Enabled, W.SysInv, W.Do, W.Enabled, Launched, Linked;
  }

  lemma PlanAfterArrival(plan: seq<int>, s: W.System, e: M.Entry, n: nat)
    ensures K.PlanAfter(plan, s, W.Arrive(e), n) == if e.id == n then plan + [e.at] else plan
  {
  }

  /** What the step does to the wheel keeps every task's timers in turn. */
  lemma TaskStepInTurn(s: Joint, step: T.Step, tick: int, n: nat)
    requires Inv(s, tick) && Enabled(s, Tasks(step))
    ensures var t := Do(s, Tasks(step), tick);
            && K.InTurn(t.wheel, Planned(t.tasks, n), n)
            && K.Firings(s.wheel.wheel.fired, n) <= K.Firings(t.wheel.wheel.fired, n)
  {
    hide *;
    InvMeans(s, tick, n);
    DoMeans(s, step, tick);
    StepPlans(s.tasks, step, n);
    var launched := Launched(s.tasks, step);
    assert Planned(s.tasks, n) + [] == Planned(s.tasks, n);
    if launched.Some? {
      TimerMeans(launched.value);
      var arrival := W.Arrive(Timer(launched.value));
      PlanAfterArrival(Planned(s.tasks, n), s.wheel, Timer(launched.value), n);
      K.StepInTurn(s.wheel, arrival, Planned(s.tasks, n), tick, n);
      FiringsGrow(s.wheel, arrival, tick, n);
    }
  }

  lemma TaskStepLinks(s: Joint, step: T.Step, tick: int, n: nat)
    requires Inv(s, tick) && Enabled(s, Tasks(step))
    ensures Linked(Do(s, Tasks(step), tick), n)
  {
    var t, no := Do(s, Tasks(step), tick), Number(s.tasks, step);
    TaskStepInTurn(s, step, tick, n);
    DoMeans(s, step, tick);
    InvMeans(s, tick, n);
    StepPlans(s.tasks, step, n);
    hide Inv, Do, T.Inv, T.Do, T.Enabled, W.SysInv, W.Do, W.Enabled;
    hide K.InTurn, K.Firings, Planned, OnTime, Launched, History;
    if n == no && step.Run? {
      AttemptOnTime(s, t, step, tick);
    } else {
      OnTimeStill(s, t, n);
    }
  }

  lemma StepKeepsInv(s: Joint, step: Step, tick: int)
    requires Inv(s, tick) && Enabled(s, step)
    ensures Inv(Do(s, step, tick), tick)
  {
    match step
    case Wheel(w) => WheelStepKeeps(s, w, tick);
    case Tasks(t) =>
      T.StepKeepsInv(s.tasks, t);
      LaunchIsPossible(s, t, tick);
      if Launched(s.tasks, t).Some? {
        W.StepKeepsInv(s.wheel, W.Arrive(Timer(Launched(s.tasks, t).value)), tick);
      }
      hide T.Inv, T.Do, T.Enabled, W.SysInv, W.Do, W.Enabled, Linked, Launched;
      forall n: nat
        ensures Linked(Do(s, step, tick), n)
      {
        TaskStepLinks(s, t, tick, n);
      }
  }

  // ----- runs -----

  ghost function Start(tick: int, size: nat, start: int, fastPath: int): Joint {
    Joint(W.Start(tick, size, start), T.Empty(fastPath))
  }

  ghost predicate Next(s: Joint, step: Step, t: Joint, tick: int) {
    Inv(s, tick) && Enabled(s, step) && t == Do(s, step, tick)
  }

  ghost predicate IsRun(states: seq<Joint>, steps: seq<Step>, tick: int) {
    |states| == |steps| + 1 && forall i: nat | i < |steps| :: Next(states[i], steps[i], states[i + 1], tick)
  }

  lemma StartInv(tick: int, size: nat, start: int, fastPath: int)
    requires tick >= 1 && size >= 2 && start >= 0
    ensures Inv(Start(tick, size, start, fastPath), tick)
  {
    W.StartInv(tick, size, start);
    forall no: nat
      ensures Linked(Start(tick, size, start, fastPath), no)
    {
      K.StartInTurn(tick, size, start, no);
    }
  }

  lemma {:induction false} RunKeepsInv(states: seq<Joint>, steps: seq<Step>, tick: int, i: nat)
    requires IsRun(states, steps, tick) && Inv(states[0], tick) && i < |states|
    ensures Inv(states[i], tick)
    decreases i
  {
    hide Inv, Enabled, Do;
    if i > 0 {
      assert Next(states[i - 1], steps[i - 1], states[i - 1 + 1], tick);
      RunKeepsInv(states, steps, tick, i - 1);
      StepKeepsInv(states[i - 1], steps[i - 1], tick);
    }
  }

  /**
   On every run of tasks and wheel together, for all wheels and fast-path times: each attempt of a task
   was started by a firing of its own, with the time that the retry schedule plans for it - the delay
   after the task was added, or the backoff after the failure of the attempt before. The firing is no
   earlier than that time, truncated to the tick, and the outcome is recorded no earlier than the firing.
   */
  lemma NoAttemptIsEarly(tick: int, size: nat, start: int, fastPath: int, states: seq<Joint>, steps: seq<Step>,
                         i: nat, no: nat, k: nat)
    requires tick >= 1 && size >= 2 && start >= 0
    requires IsRun(states, steps, tick) && states[0] == Start(tick, size, start, fastPath) && i < |states|
    requires no in states[i].tasks.store.rows && k < |History(states[i].tasks, no)|
    ensures no in states[i].tasks.createdAt
    ensures var r, h := states[i].tasks.store.rows[no], History(states[i].tasks, no);
            var fs := K.Firings(states[i].wheel.wheel.fired, no);
            && k <= |r.backoff| && k < |fs|
            && var planned := TimeToMs(T.PlannedAt(states[i].tasks.createdAt[no], r.delayTime, r.backoff, h, k));
               && fs[k].entry == M.Entry(no, planned)
               && Truncate(planned, tick) <= fs[k].clock <= TimeToMs(h[k].endedAt)
  {
    StartInv(tick, size, start, fastPath);
    RunKeepsInv(states, steps, tick, i);
    var s := states[i];
    InvMeans(s, tick, no);
    OnTimeMeans(s, no);
    assert T.TaskOk(s.tasks, no);
    FiringsInPast(s.wheel, tick, no);
    var fs := K.Firings(s.wheel.wheel.fired, no);
    assert fs[k] in fs;
    hide Inv, T.Inv, W.SysInv, K.Firings, T.Messages, T.AllFailed, T.PlannedAt, IsRun;
  }

  /** With nothing left to do for the event loop, an execution has started exactly when it is due. */
  lemma DueIsStarted(s: Joint, tick: int, no: nat)
    requires Inv(s, tick) && W.Drained(s.wheel)
    requires no in s.tasks.store.rows && T.InFlight(s.tasks.store.flights, no)
    ensures Started(s, no) <==> Truncate(TimeToMs(s.tasks.store.rows[no].nextRunAt), tick) <= s.wheel.now
  {
    InvMeans(s, tick, no);
    PlannedMeans(s.tasks, no);
    OnTimeMeans(s, no);
    var e := M.Entry(no, TimeToMs(s.tasks.store.rows[no].nextRunAt));
    var h, fs, plan := History(s.tasks, no), K.Firings(s.wheel.wheel.fired, no), Planned(s.tasks, no);
    assert |plan| == |h| + 1 && plan[|h|] == e.at;
    FiringsInPast(s.wheel, tick, no);
    hide Inv, T.Inv, K.Firings, T.InFlight, Planned, W.SysInv;
    if Started(s, no) {
      assert fs[|h|] in fs;
    } else {
      assert I.Held(s.wheel.wheel.levels, e) > 0;
      HeldIsNotDue(s.wheel, tick, e);
    }
  }

  lemma HeldIsNotDue(s: W.System, tick: int, e: M.Entry)
    requires W.SysInv(s, tick) && W.Drained(s) && I.Held(s.wheel.levels, e) > 0
    ensures !W.DueInCalendar(e, tick, s.now)
  {
    var q := W.HeldIsQueued(s.wheel, e);
  }

  /**
   Whenever the event loop has nothing left to do, exactly the executions whose planned time,
   truncated to the tick, has come have been started.
   */
  lemma DueAttemptsAreStarted(tick: int, size: nat, start: int, fastPath: int, states: seq<Joint>, steps: seq<Step>,
                              i: nat, no: nat)
    requires tick >= 1 && size >= 2 && start >= 0
    requires IsRun(states, steps, tick) && states[0] == Start(tick, size, start, fastPath) && i < |states|
    requires W.Drained(states[i].wheel)
    requires no in states[i].tasks.store.rows && T.InFlight(states[i].tasks.store.flights, no)
    ensures Started(states[i], no)
       <==> Truncate(TimeToMs(states[i].tasks.store.rows[no].nextRunAt), tick) <= states[i].wheel.now
  {
    StartInv(tick, size, start, fastPath);
    RunKeepsInv(states, steps, tick, i);
    DueIsStarted(states[i], tick, no);
  }

  // ----- progress -----

  function Last(states: seq<Joint>): Joint
    requires states != []
  {
    states[|states| - 1]
  }

  lemma RunGoesOn(states: seq<Joint>, steps: seq<Step>, step: Step, tick: int)
    requires IsRun(states, steps, tick) && states != [] && Inv(Last(states), tick) && Enabled(Last(states), step)
    ensures IsRun(states + [Do(Last(states), step, tick)], steps + [step], tick)
    ensures Inv(Do(Last(states), step, tick), tick)
  {
    hide Inv, Enabled, Do;
    StepKeepsInv(Last(states), step, tick);
    var more, all := states + [Do(Last(states), step, tick)], steps + [step];
    forall i: nat | i < |all|
      ensures Next(more[i], all[i], more[i + 1], tick)
    {
      if i < |steps| { assert Next(states[i], steps[i], states[i + 1], tick); }
    }
  }

  lemma TurnMeans(s: Joint, q: M.Queued, tick: int)
    requires Inv(s, tick) && W.Enabled(s.wheel, W.Turn(q))
    ensures Enabled(s, Wheel(W.Turn(q)))
    ensures var t := Do(s, Wheel(W.Turn(q)), tick);
            && t.tasks == s.tasks && t.wheel.now == s.wheel.now
            && 0 <= C.Work(t.wheel.wheel) < C.Work(s.wheel.wheel)
  {
    C.TurnKeepsInv(s.wheel.wheel, q);
    C.MovesNotNegative(W.Do(s.wheel, W.Turn(q)).wheel.levels);
  }

  /** The event loop can go on until nothing is left for it to do. */
  lemma {:induction false} LoopGoesOn(states: seq<Joint>, steps: seq<Step>, tick: int)
    returns (more: seq<Joint>, all: seq<Step>)
    requires IsRun(states, steps, tick) && states != [] && Inv(Last(states), tick)
    ensures IsRun(more, all, tick) && more != [] && more[0] == states[0] && Inv(Last(more), tick)
    ensures W.Drained(Last(more).wheel)
    ensures Last(more).tasks == Last(states).tasks && Last(more).wheel.now == Last(states).wheel.now
    decreases C.Work(Last(states).wheel.wheel)
  {
    var s := Last(states);
    W.DrainGoesOn(s.wheel);
    hide Inv, Do, Enabled, W.Enabled, W.Drained, IsRun, C.Work;
    if W.Drained(s.wheel) {
      more, all := states, steps;
    } else {
      var q :| W.Enabled(s.wheel, W.Turn(q));
      var step := Wheel(W.Turn(q));
      TurnMeans(s, q, tick);
      RunGoesOn(states, steps, step, tick);
      more, all := LoopGoesOn(states + [Do(s, step, tick)], steps + [step], tick);
    }
  }

  /** The task waits and will get on the wheel when it is fetched, or it has its execution. */
  predicate Unstalled(s: T.System, no: nat)
    requires no in s.store.rows
  {
    (s.store.rows[no].status == Waiting && s.store.rows[no].delayTime != 0) || T.InFlight(s.store.flights, no)
  }

  lemma TruncateAtMost(x: int, m: int, to: int)
    requires m > 0 && x <= to && 0 <= to
    ensures Truncate(x, m) <= to
  {
  }

  lemma SameMs(ms: int)
    ensures TimeToMs(MsToTime(ms)) == ms
  {
  }

  lemma TickMeans(s: Joint, to: int, tick: int)
    requires Inv(s, tick) && s.wheel.now <= to
    ensures tick > 0 && 0 <= s.wheel.now
    ensures Enabled(s, Wheel(W.Tick(to)))
    ensures Do(s, Wheel(W.Tick(to)), tick) == s.(wheel := s.wheel.(now := to))
  {
    assert M.LevelOk(s.wheel.wheel, 0);
  }

  /** A task that waits is fetched at the time the clock shows, by the node whose range holds its row. */
  lemma FetchMeans(s: Joint, no: nat, tick: int) returns (step: Step)
    requires Inv(s, tick) && no in s.tasks.store.rows
    requires s.tasks.store.rows[no].status == Waiting && s.tasks.store.rows[no].delayTime != 0
    ensures Enabled(s, step)
    ensures var t := Do(s, step, tick);
            && no in t.tasks.store.rows && T.InFlight(t.tasks.store.flights, no) && t.wheel.now == s.wheel.now
            && t.tasks.store.rows[no].nextRunAt == s.tasks.store.rows[no].nextRunAt
            && History(t.tasks, no) == History(s.tasks, no)
  {
    var r, now := s.tasks.store.rows[no], MsToTime(s.wheel.now);
    SameMs(s.wheel.now);
    var pick := T.Pick(no, Nodes.Range(r.lockedBy - 1, r.lockedBy), r.nextRunAt, now);
    step := Tasks(pick);
    DoMeans(s, pick, tick);
    PickLaunches(s.tasks, pick);
    StepIsLocal(s.tasks, pick);
    hide Inv, T.Inv, T.Do, Launched;
  }

  lemma PickLaunches(s: T.System, step: T.Step)
    requires T.Inv(s) && T.Enabled(s, step) && step.Pick? && s.store.rows[step.no].delayTime != 0
    ensures Launched(s, step).Some?
    ensures step.no in T.Do(s, step).store.rows
         && T.Do(s, step).store.rows[step.no].nextRunAt == s.store.rows[step.no].nextRunAt
  {
    hide T.Inv;
  }

  /** An execution that has been started ends with any outcome, at the time the clock shows. */
  lemma EndMeans(s: Joint, no: nat, outcome: Outcome, tick: int) returns (step: Step)
    requires Inv(s, tick) && no in s.tasks.store.rows && T.InFlight(s.tasks.store.flights, no) && Started(s, no)
    ensures Enabled(s, step)
    ensures var h, more := History(s.tasks, no), History(Do(s, step, tick).tasks, no);
            |more| == |h| + 1 && more[..|h|] == h && more[|h|].outcome == outcome
  {
    var now := MsToTime(s.wheel.now);
    SameMs(s.wheel.now);
    var i: nat :| i < |s.tasks.store.flights| && s.tasks.store.flights[i].no == no;
    step := Tasks(T.Run(i, outcome, now));
    DoMeans(s, step.t, tick);
    StepIsLocal(s.tasks, step.t);
    hide Inv, T.Inv, T.Do, Launched, History;
  }

  /** Time goes on to the planned time of the task, and its row is fetched if it waits. */
  lemma FlightIsReached(s: Joint, no: nat, tick: int) returns (states: seq<Joint>, steps: seq<Step>)
    requires Inv(s, tick) && no in s.tasks.store.rows && Unstalled(s.tasks, no)
    ensures IsRun(states, steps, tick) && states != [] && states[0] == s && Inv(Last(states), tick)
    ensures var t := Last(states);
            && no in t.tasks.store.rows && T.InFlight(t.tasks.store.flights, no)
            && Truncate(TimeToMs(t.tasks.store.rows[no].nextRunAt), tick) <= t.wheel.now
            && History(t.tasks, no) == History(s.tasks, no)
  {
    var at := TimeToMs(s.tasks.store.rows[no].nextRunAt);
    var to := if at <= s.wheel.now then s.wheel.now else at;
    TickMeans(s, to, tick);
    TruncateAtMost(at, tick, to);
    hide Inv, Enabled, Do, History, T.InFlight, Truncate, TimeToMs;
    var step := Wheel(W.Tick(to));
    states, steps := [s], [];
    RunGoesOn(states, steps, step, tick);
    states, steps := states + [Do(s, step, tick)], steps + [step];
    if !T.InFlight(s.tasks.store.flights, no) {
      step := FetchMeans(Last(states), no, tick);
      RunGoesOn(states, steps, step, tick);
      states, steps := states + [Do(Last(states), step, tick)], steps + [step];
    }
  }

  /**
   Progress: from every reachable state, for every task that is neither finished nor stalled and for
   every outcome, time and event loop can go on so that the task's next attempt is made and ends with
   that outcome.
   */
  lemma NextAttemptIsMade(s: Joint, no: nat, outcome: Outcome, tick: int) returns (states: seq<Joint>, steps: seq<Step>)
    requires Inv(s, tick) && no in s.tasks.store.rows && Unstalled(s.tasks, no)
    ensures IsRun(states, steps, tick) && states != [] && states[0] == s && Inv(Last(states), tick)
    ensures var h, more := History(s.tasks, no), History(Last(states).tasks, no);
            |more| == |h| + 1 && more[..|h|] == h && more[|h|].outcome == outcome
  {
    hide Inv, Enabled, Do, Started, History, T.InFlight, Truncate, TimeToMs, IsRun, Unstalled, W.Drained;
    states, steps := FlightIsReached(s, no, tick);
    states, steps := LoopGoesOn(states, steps, tick);
    DueIsStarted(Last(states), tick, no);
    var step := EndMeans(Last(states), no, outcome, tick);
    RunGoesOn(states, steps, step, tick);
    states, steps := states + [Do(Last(states), step, tick)], steps + [step];
  }
}
