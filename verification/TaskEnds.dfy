/**
 How the tasks of a run end: which tasks have an execution whenever their row is marked as running,
 shown on whole runs in both directions, and how many executions and fetches a task can have.
 */
module TaskEnds {
  import opened Nodes
  import opened Wrappers
  import opened TaskModel
  import opened TaskRuns

  /** The row is that of a task added with these parameters, which no update changes. */
  predicate IsTask(r: Row, delay: int, timeout: int, backoff: seq<int>) {
    r.delayTime == delay && r.timeout == timeout && r.backoff == backoff
  }

  lemma SameOnWheel(a: Row, b: Row, delay: int, timeout: int, backoff: seq<int>, n: nat, fastPath: int)
    requires IsTask(a, delay, timeout, backoff) && IsTask(b, delay, timeout, backoff)
    ensures OnWheel(a, n, fastPath) == OnWheel(b, n, fastPath)
  {
  }

  // ----- building runs -----

  function Last(states: seq<System>): System
    requires states != []
  {
    states[|states| - 1]
  }

  lemma RunGoesOn(states: seq<System>, steps: seq<Step>, step: Step)
    requires IsRun(states, steps) && states != [] && Inv(Last(states)) && Enabled(Last(states), step)
    ensures IsRun(states + [Do(Last(states), step)], steps + [step])
  {
    hide Inv, Enabled, Do;
    var t := Do(Last(states), step);
    var more, all := states + [t], steps + [step];
    forall i: nat | i < |all|
      ensures Next(more[i], all[i], more[i + 1])
    {
      if i < |steps| { assert Next(states[i], steps[i], states[i + 1]); }
    }
  }

  lemma {:induction false} SameFastPath(states: seq<System>, steps: seq<Step>, i: nat)
    requires IsRun(states, steps) && i < |states|
    ensures states[i].fastPath == states[0].fastPath
    decreases i
  {
    if i > 0 {
      RunStep(states, steps, i - 1);
      SameFastPath(states, steps, i - 1);
      hide Inv, Enabled, IsRun;
    }
  }

  /** The task `no` has n finished attempts and its row is as given. */
  predicate Reached(s: System, no: nat, delay: int, timeout: int, backoff: seq<int>, n: nat, status: set<Status>) {
    && no in s.store.rows && no in s.history && |s.history[no]| == n
    && IsTask(s.store.rows[no], delay, timeout, backoff) && s.store.rows[no].status in status
  }

  /** A row that waits is fetched when it is due, by the node whose range holds it. */
  lemma Fetched(states: seq<System>, steps: seq<Step>, no: nat, delay: int, timeout: int, backoff: seq<int>, n: nat)
    returns (more: seq<System>, all: seq<Step>)
    requires IsRun(states, steps) && states != [] && Inv(Last(states))
    requires Reached(Last(states), no, delay, timeout, backoff, n, {Waiting, Running})
    ensures IsRun(more, all) && more != [] && more[0] == states[0] && Inv(Last(more))
    ensures Reached(Last(more), no, delay, timeout, backoff, n, {Running})
  {
    var s := Last(states);
    var r := s.store.rows[no];
    if r.status == Running {
      more, all := states, steps;
    } else {
      var step := Pick(no, Range(r.lockedBy - 1, r.lockedBy), r.nextRunAt, r.nextRunAt);
      PickReaches(s, step, delay, timeout, backoff, n);
      RunGoesOn(states, steps, step);
      more, all := states + [Do(s, step)], steps + [step];
    }
  }

  lemma PickReaches(s: System, step: Step, delay: int, timeout: int, backoff: seq<int>, n: nat)
    requires Inv(s) && Enabled(s, step) && step.Pick?
    requires Reached(s, step.no, delay, timeout, backoff, n, {Waiting})
    ensures Inv(Do(s, step)) && Reached(Do(s, step), step.no, delay, timeout, backoff, n, {Running})
  {
    StepKeepsInv(s, step);
    hide Inv;
  }

  lemma CreateReaches(s: System, step: Step)
    requires Inv(s) && Enabled(s, step) && step.Create?
    ensures Inv(Do(s, step))
    ensures Reached(Do(s, step), step.no, step.delay, step.timeout, step.backoff, 0, {Waiting, Running})
  {
    StepKeepsInv(s, step);
    hide Inv;
  }

  /** An execution fails, at its planned time, while backoffs are left: the next attempt is reached. */
  lemma FailureReaches(s: System, no: nat, delay: int, timeout: int, backoff: seq<int>, n: nat) returns (step: Step)
    requires Inv(s) && n < |backoff| && Reached(s, no, delay, timeout, backoff, n, {Running})
    requires OnWheel(s.store.rows[no], n, s.fastPath)
    ensures Enabled(s, step) && Inv(Do(s, step))
    ensures Reached(Do(s, step), no, delay, timeout, backoff, n + 1, {Waiting, Running})
  {
    OneExecutionIff(s, no);
    var i: nat :| i < |s.store.flights| && s.store.flights[i].no == no;
    var e := s.store.flights[i];
    var r, h, created := FlightMeans(s, i);
    var failure := Failure(FailMsg("", ""));
    step := Run(i, failure, e.nextRunAt);
    StepKeepsInv(s, step);
    RunMeans(s, i, failure, e.nextRunAt);
    assert e.failCount == n && e.backoff == backoff;
    hide Inv, Do, OnSchedule, AllFailed, Messages, PlannedAt;
  }

  /** Every attempt before which no attempt has stalled is reached by some run, with the row running. */
  lemma {:induction false} AttemptIsReached(fastPath: int, no: nat, delay: int, timeout: int, backoff: seq<int>,
                                              r: Row, n: nat)
    returns (states: seq<System>, steps: seq<Step>)
    requires n <= |backoff| && IsTask(r, delay, timeout, backoff)
    requires forall k: nat | k < n :: OnWheel(r, k, fastPath)
    ensures IsRun(states, steps) && states != [] && states[0] == Empty(fastPath) && Inv(Last(states))
    ensures Reached(Last(states), no, delay, timeout, backoff, n, {Running})
    decreases n
  {
    hide Inv, Do, OnWheel, Eligible;
    var s, step;
    if n == 0 {
      EmptyInv(fastPath);
      states, steps := [Empty(fastPath)], [];
      s, step := Empty(fastPath), Create(no, delay, timeout, backoff, 0, 0);
      CreateReaches(s, step);
    } else {
      states, steps := AttemptIsReached(fastPath, no, delay, timeout, backoff, r, n - 1);
      s := Last(states);
      SameFastPath(states, steps, |states| - 1);
      SameOnWheel(r, s.store.rows[no], delay, timeout, backoff, n - 1, fastPath);
      step := FailureReaches(s, no, delay, timeout, backoff, n - 1);
    }
    RunGoesOn(states, steps, step);
    states, steps := Fetched(states + [Do(s, step)], steps + [step], no, delay, timeout, backoff, n);
  }

  // ----- which tasks are executed -----

  /** Whenever, on any run, the row of such a task is marked as running, an execution of it exists. */
  ghost predicate AlwaysExecuted(fastPath: int, no: nat, delay: int, timeout: int, backoff: seq<int>) {
    forall states: seq<System>, steps: seq<Step>, i: nat ::
      IsRun(states, steps) && i < |states| && states[0] == Empty(fastPath) ==>
        RunningIsExecuted(states[i], no, delay, timeout, backoff)
  }

  predicate RunningIsExecuted(s: System, no: nat, delay: int, timeout: int, backoff: seq<int>) {
    no in s.store.rows && IsTask(s.store.rows[no], delay, timeout, backoff) && s.store.rows[no].status == Running ==>
      InFlight(s.store.flights, no)
  }

  /**
   On every run, whenever the row of the task is marked as running the task has its execution, if and
   only if its delay is not 0 and no backoff of 0 can take the in-memory path.
   */
  lemma AlwaysExecutedIff(fastPath: int, no: nat, delay: int, timeout: int, backoff: seq<int>)
    ensures AlwaysExecuted(fastPath, no, delay, timeout, backoff)
       <==> delay != 0 && (0 <= fastPath ==> 0 !in backoff)
  {
    if delay != 0 && (0 <= fastPath ==> 0 !in backoff) {
      forall states: seq<System>, steps: seq<Step>, i: nat
        | IsRun(states, steps) && i < |states| && states[0] == Empty(fastPath)
        ensures RunningIsExecuted(states[i], no, delay, timeout, backoff)
      {
        var rows := states[i].store.rows;
        if no in rows && IsTask(rows[no], delay, timeout, backoff) && rows[no].status == Running {
          RunsExecute(states, steps, i, no);
        }
      }
    } else {
      var states, steps := TaskStalls(fastPath, no, delay, timeout, backoff);
    }
  }

  lemma RunsExecute(states: seq<System>, steps: seq<Step>, i: nat, no: nat)
    requires IsRun(states, steps) && i < |states| && states[0] == Empty(states[0].fastPath)
    requires no in states[i].store.rows && states[i].store.rows[no].status == Running
    requires states[i].store.rows[no].delayTime != 0
    requires 0 <= states[0].fastPath ==> 0 !in states[i].store.rows[no].backoff
    ensures InFlight(states[i].store.flights, no)
  {
    EmptyInv(states[0].fastPath);
    RunKeepsInv(states, steps, i);
    SameFastPath(states, steps, i);
    OneExecutionIff(states[i], no);
    AllOnWheelIff(states[i].store.rows[no], states[i].fastPath);
    assert TaskOk(states[i], no);
    hide AllFailed, Messages, PlannedAt;
  }

  /** The first attempt that does not get on the wheel. */
  lemma {:induction false} FirstOffWheel(r: Row, fastPath: int, n: nat) returns (k: nat)
    requires !OnWheel(r, n, fastPath)
    ensures k <= n && !OnWheel(r, k, fastPath) && forall m: nat | m < k :: OnWheel(r, m, fastPath)
    decreases n
  {
    if m: nat :| m < n && !OnWheel(r, m, fastPath) {
      k := FirstOffWheel(r, fastPath, m);
    } else {
      k := n;
    }
  }

  /** The inputs on which it fails: a run that ends with the row running and nothing on the wheel. */
  lemma TaskStalls(fastPath: int, no: nat, delay: int, timeout: int, backoff: seq<int>)
    returns (states: seq<System>, steps: seq<Step>)
    requires delay == 0 || (0 <= fastPath && 0 in backoff)
    ensures IsRun(states, steps) && states != [] && states[0] == Empty(fastPath)
    ensures !RunningIsExecuted(Last(states), no, delay, timeout, backoff)
  {
    var r := RowOf(NewTask(no, delay, timeout, backoff, 0, 0), Running, 0);
    AllOnWheelIff(r, fastPath);
    var n: nat :| n <= |backoff| && !OnWheel(r, n, fastPath);
    var k := FirstOffWheel(r, fastPath, n);
    states, steps := AttemptIsReached(fastPath, no, delay, timeout, backoff, r, k);
    SameFastPath(states, steps, |states| - 1);
    OneExecutionIff(Last(states), no);
  }

  // ----- how much there is to do for a task -----

  predicate Executes(s: System, step: Step, no: nat) {
    step.Run? && step.index < |s.store.flights| && s.store.flights[step.index].no == no
  }

  predicate Fetches(step: Step, no: nat) {
    step.Pick? && step.no == no
  }

  /** How many of the first n steps execute the task. */
  function Executions(states: seq<System>, steps: seq<Step>, n: nat, no: nat): nat
    requires n <= |steps| < |states|
  {
    if n == 0 then 0
    else Executions(states, steps, n - 1, no) + (if Executes(states[n - 1], steps[n - 1], no) then 1 else 0)
  }

  /** How many of the first n steps fetch the task from the table. */
  function Picks(steps: seq<Step>, n: nat, no: nat): nat
    requires n <= |steps|
  {
    if n == 0 then 0 else Picks(steps, n - 1, no) + (if Fetches(steps[n - 1], no) then 1 else 0)
  }

  /** So far each execution has made one attempt, and each fetch but the last has led to one. */
  predicate Counted(s: System, no: nat, executions: nat, picks: nat) {
    if no in s.store.rows && no in s.history then
      && executions == |s.history[no]|
      && picks <= executions + (if s.store.rows[no].status == Running then 1 else 0)
    else
      executions == picks == 0
  }

  lemma StepCounts(s: System, step: Step, no: nat, executions: nat, picks: nat)
    requires Inv(s) && Enabled(s, step) && Counted(s, no, executions, picks)
    ensures Counted(Do(s, step), no, executions + (if Executes(s, step, no) then 1 else 0),
                    picks + (if Fetches(step, no) then 1 else 0))
  {
    hide RowOk, FlightOk;
    if no in s.store.rows { assert TaskOk(s, no); }
    match step {
      case Run(i, outcome, now) => {
        RunMeans(s, i, outcome, now);
        assert FlightAtOk(s, i);
        hide Do;
      }
      case _ =>
    }
  }

  lemma {:induction false} RunCounts(states: seq<System>, steps: seq<Step>, n: nat, no: nat)
    requires IsRun(states, steps) && n <= |steps| && states[0] == Empty(states[0].fastPath)
    ensures |states| == |steps| + 1
    ensures Counted(states[n], no, Executions(states, steps, n, no), Picks(steps, n, no))
    decreases n
  {
    hide Inv, Do, Enabled, Counted, Next, Executes, Fetches;
    if n == 0 {
      NothingCounted(states[0].fastPath, no);
    } else {
      RunStep(states, steps, n - 1);
      RunCounts(states, steps, n - 1, no);
      StepCounts(states[n - 1], steps[n - 1], no, Executions(states, steps, n - 1, no), Picks(steps, n - 1, no));
    }
  }

  lemma NothingCounted(fastPath: int, no: nat)
    ensures Counted(Empty(fastPath), no, 0, 0)
  {
  }

  /** Some step is possible for the task: a fetch by the node that owns it, or an execution. */
  ghost predicate CanGoOn(s: System, no: nat) {
    exists step :: Enabled(s, step) && (Executes(s, step, no) || Fetches(step, no))
  }

  /**
   On every run, a task whose delay is not 0 and that has no backoff of 0 for the in-memory path is
   executed and fetched at most len(Backoff) + 1 times, once for each attempt, and it comes to a stop
   exactly when its row has status 2 or 3.
   */
  lemma TaskEndsFinished(fastPath: int, states: seq<System>, steps: seq<Step>, n: nat, no: nat)
    requires IsRun(states, steps) && states[0] == Empty(fastPath) && n < |states|
    requires no in states[n].store.rows
    requires var r := states[n].store.rows[no]; r.delayTime != 0 && (0 <= fastPath ==> 0 !in r.backoff)
    ensures |states| == |steps| + 1 && no in states[n].history
    ensures var r := states[n].store.rows[no];
            && Executions(states, steps, n, no) == |states[n].history[no]| <= |r.backoff| + 1
            && Picks(steps, n, no) <= |r.backoff| + 1
            && (CanGoOn(states[n], no) <==> r.status !in {Succeeded, Failed})
  {
    EmptyInv(fastPath);
    RunKeepsInv(states, steps, n);
    SameFastPath(states, steps, n);
    RunCounts(states, steps, n, no);
    var s := states[n];
    var r := s.store.rows[no];
    assert TaskOk(s, no);
    OneExecutionIff(s, no);
    AllOnWheelIff(r, fastPath);
    hide AllFailed, Messages, PlannedAt, IsRun;
    if r.status in {Waiting, Running} {
      var step := TaskGoesOn(s, no, Range(r.lockedBy - 1, r.lockedBy), r.nextRunAt, Success, 0);
      assert Executes(s, step, no) || Fetches(step, no);
    }
  }

  /**
   When all live nodes have the same list, a row that waits and is due is fetched by exactly one of
   them, whatever ranges they had before.
   */
  lemma OneNodeFetches(s: System, no: nat, ns: seq<int>, before: Range, until: int, now: int) returns (owner: int)
    requires no in s.store.rows && s.store.rows[no].status == Waiting && s.store.rows[no].nextRunAt <= until
    requires LiveList(ns) && ns != [] && 0 <= s.store.rows[no].lockedBy <= MAX_INT64
    ensures owner in ns
    ensures forall n | n in ns :: Enabled(s, Pick(no, RangeOf(ns, n, before), until, now)) <==> n == owner
    ensures s.store.rows[no].lockedBy in ns ==> owner == s.store.rows[no].lockedBy
  {
    owner := RangesPartition(ns, before, s.store.rows[no].lockedBy);
    hide RangeOf, LiveList;
  }

  /**
   On every run, while the node that created a task is alive and all live nodes have the same list, the
   task's row is fetched by that node and no other, as soon as it waits and is due.
   */
  lemma CreatorFetches(fastPath: int, states: seq<System>, steps: seq<Step>, k: nat, i: nat,
                       ns: seq<int>, before: Range, until: int, now: int)
    requires IsRun(states, steps) && states[0] == Empty(fastPath) && k < i < |states| && i <= |steps|
    requires steps[k].Create? && LiveList(ns) && steps[k].node in ns
    ensures steps[k].no in states[i].store.rows
    ensures var no, r := steps[k].no, states[i].store.rows[steps[k].no];
            forall n | n in ns ::
              Enabled(states[i], Pick(no, RangeOf(ns, n, before), until, now))
              <==> n == steps[k].node && r.status == Waiting && r.nextRunAt <= until
  {
    OwnerIsCreator(fastPath, states, steps, k, i);
    var no := steps[k].no;
    var r := states[i].store.rows[no];
    hide IsRun, RangeOf;
    if r.status == Waiting && r.nextRunAt <= until {
      var owner := OneNodeFetches(states[i], no, ns, before, until, now);
    }
  }
}
