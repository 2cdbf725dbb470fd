/**
 Whole runs of the task table, with any interleaving of additions, fetches by any node and
 executions: every task is attempted on one retry schedule, whichever mix of the in-memory path and
 the database path it takes.
 */
module TaskRuns {
  import opened Nodes
  import opened Wrappers
  import opened TaskModel

  /** A finished attempt: when it was meant to start, when its outcome was recorded, and the outcome. */
  datatype Attempt = Attempt(plannedAt: int, endedAt: int, outcome: Outcome)

  datatype System = System(store: Store, fastPath: int, createdAt: map<nat, int>, history: map<nat, seq<Attempt>>)

  datatype Step =
    | Create(no: nat, delay: int, timeout: int, backoff: seq<int>, node: int, now: int)
    | Pick(no: nat, range: Range, until: int, now: int)
    | Run(index: nat, outcome: Outcome, now: int)

  // ----- the schedule a task is meant to follow -----

  /** The first attempt after the delay, attempt k after Backoff[k-1] from the end of attempt k-1. */
  function PlannedAt(created: int, delay: int, backoff: seq<int>, h: seq<Attempt>, k: nat): int
    requires k <= |h| && k <= |backoff|
  {
    if k == 0 then created + delay * SECOND else h[k - 1].endedAt + backoff[k - 1] * SECOND
  }

  predicate AllFailed(h: seq<Attempt>) {
    forall a | a in h :: a.outcome.Failure?
  }

  /** At most one attempt more than there are backoffs, each at its time, none after a success. */
  predicate OnSchedule(created: int, delay: int, backoff: seq<int>, h: seq<Attempt>) {
    && |h| <= |backoff| + 1
    && (forall k: nat | k < |h| :: h[k].plannedAt == PlannedAt(created, delay, backoff, h, k))
    && (h != [] ==> AllFailed(h[..|h| - 1]))
  }

  function Messages(h: seq<Attempt>): seq<FailMsg> {
    if h == [] then []
    else Messages(h[..|h| - 1]) + (if h[|h| - 1].outcome.Failure? then [h[|h| - 1].outcome.msg] else [])
  }

  // ----- the invariant -----

  /** Whether Submit puts attempt n of the task on the wheel: not when the entity's delay is 0. */
  predicate OnWheel(r: Row, n: nat, fastPath: int) {
    if n == 0 then r.delayTime != 0
    else n <= |r.backoff| && (Fast(r.backoff[n - 1], fastPath) ==> r.backoff[n - 1] != 0)
  }

  /** The next attempt is planned in the row. */
  predicate NextPlanned(r: Row, created: int, h: seq<Attempt>) {
    && AllFailed(h) && |h| <= |r.backoff|
    && r.nextRunAt == PlannedAt(created, r.delayTime, r.backoff, h, |h|)
    && r.runTimeoutAt == r.nextRunAt + r.timeout * SECOND
    && (r.lastRetryAt.None? <==> h == [])
  }

  /** The delay before attempt n was too long for the in-memory path. */
  predicate Slow(r: Row, n: nat, fastPath: int) {
    n <= |r.backoff| && !Fast(if n == 0 then r.delayTime else r.backoff[n - 1], fastPath)
  }

  predicate RowOk(r: Row, created: int, h: seq<Attempt>, fastPath: int) {
    && OnSchedule(created, r.delayTime, r.backoff, h)
    && (h != [] ==> r.delayTime != 0)
    && r.failMsgs == Messages(h)
    && match r.status
       case Waiting => NextPlanned(r, created, h) && r.failCount == |h| - 1 && Slow(r, |h|, fastPath)
       case Running => NextPlanned(r, created, h) && r.failCount == |h|
       case Succeeded => h != [] && h[|h| - 1].outcome.Success?
       case Failed => |h| == |r.backoff| + 1 && AllFailed(h)
  }

  /** An execution carries what its running row says. */
  predicate FlightOk(t: Task, r: Row, h: seq<Attempt>, fastPath: int) {
    && r.status == Running && OnWheel(r, |h|, fastPath)
    && t.delayTime != 0 && (h == [] ==> t.delayTime == r.delayTime)
    && t == Loaded(t.no, r).(delayTime := t.delayTime)
  }

  predicate InFlight(flights: seq<Task>, no: nat) {
    exists i: nat | i < |flights| :: flights[i].no == no
  }

  predicate OncePerTask(flights: seq<Task>) {
    forall i: nat, k: nat | i < k < |flights| :: flights[i].no != flights[k].no
  }

  predicate MustFly(s: System, no: nat)
    requires no in s.store.rows && no in s.history
  {
    s.store.rows[no].status == Running && OnWheel(s.store.rows[no], |s.history[no]|, s.fastPath)
  }

  predicate TaskOk(s: System, no: nat)
    requires no in s.store.rows
  {
    && no in s.createdAt && no in s.history
    && RowOk(s.store.rows[no], s.createdAt[no], s.history[no], s.fastPath)
    && (MustFly(s, no) ==> InFlight(s.store.flights, no))
  }

  predicate FlightAtOk(s: System, i: nat)
    requires i < |s.store.flights|
  {
    var t := s.store.flights[i];
    && t.no in s.store.rows && t.no in s.history
    && FlightOk(t, s.store.rows[t.no], s.history[t.no], s.fastPath)
  }

  predicate Inv(s: System) {
    && OncePerTask(s.store.flights)
    && (forall no | no in s.store.rows :: TaskOk(s, no))
    && (forall i: nat | i < |s.store.flights| :: FlightAtOk(s, i))
  }

  // ----- the steps -----

  predicate Enabled(s: System, step: Step) {
    match step
    case Create(no, _, _, _, _, _) => no !in s.store.rows
    case Pick(no, range, until, _) => no in s.store.rows && Eligible(s.store.rows[no], range, until)
    case Run(i, _, _) => i < |s.store.flights|
  }

  /** What the run of execution t adds to the history of its task. */
  function Record(h: map<nat, seq<Attempt>>, t: Task, outcome: Outcome, now: int): map<nat, seq<Attempt>> {
    if t.no in h then h[t.no := h[t.no] + [Attempt(t.nextRunAt, now, outcome)]] else h
  }

  lemma FlightsCount(s: System, i: nat)
    requires Inv(s) && i < |s.store.flights|
    ensures 0 <= s.store.flights[i].failCount <= |s.store.flights[i].backoff|
    ensures Countable(s.store.flights[i])
  {
    assert FlightAtOk(s, i) && TaskOk(s, s.store.flights[i].no);
  }

  function Do(s: System, step: Step): System
    requires Inv(s) && Enabled(s, step)
  {
    match step
    case Create(no, delay, timeout, backoff, node, now) =>
      s.(store := Add(s.store, s.fastPath, no, delay, timeout, backoff, node, now),
         createdAt := s.createdAt[no := now], history := s.history[no := []])
    case Pick(no, _, _, now) =>
      s.(store := Fetch(s.store, no, now))
    case Run(i, outcome, now) =>
      FlightsCount(s, i);
      s.(store := Fire(s.store, s.fastPath, i, outcome, now),
         history := Record(s.history, s.store.flights[i], outcome, now))
  }

  // ----- one task changes at a time -----

  /** Apart from task `no`, rows and histories are as before, and so are the executions. */
  predicate OnlyTask(s: System, t: System, no: nat) {
    && t.fastPath == s.fastPath
    && (forall n | n in t.store.rows && n != no ::
          n in s.store.rows && t.store.rows[n] == s.store.rows[n])
    && (forall n | n in s.store.rows && n != no ::
          && n in t.store.rows
          && (n in s.createdAt ==> n in t.createdAt && t.createdAt[n] == s.createdAt[n])
          && (n in s.history ==> n in t.history && t.history[n] == s.history[n]))
    && (forall i: nat | i < |s.store.flights| && s.store.flights[i].no != no :: s.store.flights[i] in t.store.flights)
    && (forall i: nat | i < |t.store.flights| && t.store.flights[i].no != no :: t.store.flights[i] in s.store.flights)
  }

  /** It is enough to look at the task that a step concerns. */
  lemma OneTaskSuffices(s: System, t: System, no: nat)
    requires Inv(s) && OnlyTask(s, t, no) && OncePerTask(t.store.flights)
    requires no in t.store.rows && TaskOk(t, no)
    requires forall i: nat | i < |t.store.flights| && t.store.flights[i].no == no :: FlightAtOk(t, i)
    ensures Inv(t)
  {
    forall n | n in t.store.rows
      ensures TaskOk(t, n)
    {
      if n != no {
        assert TaskOk(s, n);
        OtherInFlight(s, t, no, n);
      }
    }
    forall i: nat | i < |t.store.flights|
      ensures FlightAtOk(t, i)
    {
      if t.store.flights[i].no != no {
        var k: nat :| k < |s.store.flights| && s.store.flights[k] == t.store.flights[i];
        assert FlightAtOk(s, k);
      }
    }
  }

  lemma OtherInFlight(s: System, t: System, no: nat, n: nat)
    requires OnlyTask(s, t, no) && n != no
    ensures InFlight(s.store.flights, n) ==> InFlight(t.store.flights, n)
  {
    if InFlight(s.store.flights, n) {
      var i: nat :| i < |s.store.flights| && s.store.flights[i].no == n;
      var k: nat :| k < |t.store.flights| && t.store.flights[k] == s.store.flights[i];
    }
  }

  lemma Launch(flights: seq<Task>, t: Task)
    requires OncePerTask(flights) && !InFlight(flights, t.no)
    ensures OncePerTask(flights + [t]) && InFlight(flights + [t], t.no)
    ensures forall i: nat | i < |flights| :: flights[i] in flights + [t]
    ensures forall i: nat | i < |flights + [t]| && (flights + [t])[i].no == t.no :: (flights + [t])[i] == t
  {
    assert (flights + [t])[|flights|] == t;
  }

  lemma Land(flights: seq<Task>, i: nat)
    requires OncePerTask(flights) && i < |flights|
    ensures var rest := flights[..i] + flights[i + 1..];
            && OncePerTask(rest) && !InFlight(rest, flights[i].no)
            && (forall k: nat | k < |rest| :: rest[k] in flights)
            && (forall k: nat | k < |flights| && k != i :: flights[k] in rest)
  {
    var rest := flights[..i] + flights[i + 1..];
    forall k: nat | k < |flights| && k != i
      ensures flights[k] in rest
    {
      assert rest[if k < i then k else k - 1] == flights[k];
    }
    forall k: nat | k < |rest|
      ensures rest[k] == flights[if k < i then k else k + 1]
    {
    }
  }

  lemma NotInFlight(s: System, no: nat)
    requires Inv(s) && (no in s.store.rows ==> s.store.rows[no].status != Running)
    ensures !InFlight(s.store.flights, no)
  {
    forall i: nat | i < |s.store.flights|
      ensures s.store.flights[i].no != no
    {
      assert FlightAtOk(s, i);
    }
  }

  // ----- each step keeps the invariant -----

  lemma CreateKeeps(s: System, step: Step)
    requires Inv(s) && Enabled(s, step) && step.Create?
    ensures Inv(Do(s, step))
  {
    var t := Do(s, step);
    NotInFlight(s, step.no);
    var e := NewTask(step.no, step.delay, step.timeout, step.backoff, 0, step.now);
    Launch(s.store.flights, e);
    assert TaskOk(t, step.no);
    assert OnlyTask(s, t, step.no);
    OneTaskSuffices(s, t, step.no);
  }

  /** A waiting row once it is picked, and the execution that the pick puts on the wheel. */
  lemma PickedRow(r: Row, created: int, h: seq<Attempt>, fastPath: int, no: nat, now: int) returns (e: Task, q: Row)
    requires RowOk(r, created, h, fastPath) && r.status == Waiting
    ensures e == Loaded(no, r).(failCount := r.failCount + 1) && e.no == no
    ensures q == r.(status := Running, failCount := e.failCount, lastRetryAt := q.lastRetryAt)
    ensures q.lastRetryAt == if e.failCount == 0 then None else Some(now)
    ensures RowOk(q, created, h, fastPath)
    ensures OnWheel(q, |h|, fastPath) <==> e.delayTime != 0
    ensures e.delayTime != 0 ==> FlightOk(e, q, h, fastPath)
  {
    hide OnSchedule, AllFailed, PlannedAt, Messages;
    e := Loaded(no, r).(failCount := r.failCount + 1);
    q := r.(status := Running, failCount := e.failCount, lastRetryAt := if e.failCount == 0 then None else Some(now));
  }

  lemma PickKeeps(s: System, step: Step)
    requires Inv(s) && Enabled(s, step) && step.Pick?
    ensures Inv(Do(s, step))
  {
    hide RowOk, FlightOk, OnWheel;
    var t := Do(s, step);
    assert TaskOk(s, step.no);
    NotInFlight(s, step.no);
    var r, created, h := s.store.rows[step.no], s.createdAt[step.no], s.history[step.no];
    var e, q := PickedRow(r, created, h, s.fastPath, step.no, step.now);
    assert t.store.rows == s.store.rows[step.no := q];
    Launch(s.store.flights, e);
    assert TaskOk(t, step.no);
    assert OnlyTask(s, t, step.no);
    OneTaskSuffices(s, t, step.no);
  }

  /** One more attempt at its planned time, after failures only. */
  lemma HistoryGrows(created: int, delay: int, backoff: seq<int>, h: seq<Attempt>, a: Attempt)
    requires OnSchedule(created, delay, backoff, h) && AllFailed(h) && |h| <= |backoff|
    requires a.plannedAt == PlannedAt(created, delay, backoff, h, |h|)
    ensures OnSchedule(created, delay, backoff, h + [a])
    ensures a.outcome.Failure? ==> AllFailed(h + [a]) && Messages(h + [a]) == Messages(h) + [a.outcome.msg]
    ensures a.outcome.Success? ==> Messages(h + [a]) == Messages(h)
  {
    hide AllFailed, PlannedAt, Messages;
    var more := h + [a];
    assert |more| == |h| + 1 && more[..|more| - 1] == h;
    PlanStays(created, delay, backoff, h, a);
    forall k: nat | k < |more|
      ensures more[k].plannedAt == PlannedAt(created, delay, backoff, more, k)
    {
      assert more[k] == if k < |h| then h[k] else a;
    }
    MessagesGrow(h, a);
    FailuresGrow(h, a);
  }

  lemma FailuresGrow(h: seq<Attempt>, a: Attempt)
    requires AllFailed(h)
    ensures AllFailed(h + [a]) == a.outcome.Failure?
  {
    assert (h + [a])[|h|] == a;
  }

  lemma PlanStays(created: int, delay: int, backoff: seq<int>, h: seq<Attempt>, a: Attempt)
    requires |h| <= |backoff|
    ensures forall k: nat | k <= |h| ::
              PlannedAt(created, delay, backoff, h + [a], k) == PlannedAt(created, delay, backoff, h, k)
  {
  }

  lemma MessagesGrow(h: seq<Attempt>, a: Attempt)
    ensures Messages(h + [a]) == Messages(h) + (if a.outcome.Failure? then [a.outcome.msg] else [])
  {
    assert (h + [a])[..|h|] == h;
  }

  /** What is known of the execution that runs and of its row. */
  lemma FlightMeans(s: System, i: nat) returns (r: Row, h: seq<Attempt>, created: int)
    requires Inv(s) && i < |s.store.flights|
    ensures var e := s.store.flights[i];
            && e.no in s.store.rows && e.no in s.history && e.no in s.createdAt
            && r == s.store.rows[e.no] && h == s.history[e.no] && created == s.createdAt[e.no]
            && r.status == Running && RowOk(r, created, h, s.fastPath) && FlightOk(e, r, h, s.fastPath)
  {
    var e := s.store.flights[i];
    assert FlightAtOk(s, i) && TaskOk(s, e.no);
    r, h, created := s.store.rows[e.no], s.history[e.no], s.createdAt[e.no];
  }

  /** The row of a running task after the outcome of its execution e is recorded. */
  function NextRow(r: Row, e: Task, fastPath: int, outcome: Outcome, now: int): Row
    requires 0 <= e.failCount
  {
    match outcome
    case Success => r.(status := Succeeded)
    case Failure(msg) =>
      if e.failCount < |e.backoff| then
        var fast := Fast(e.backoff[e.failCount], fastPath);
        var next := now + e.backoff[e.failCount] * SECOND;
        r.(status := if fast then Running else Waiting,
           failCount := if fast then e.failCount + 1 else e.failCount,
           failMsgs := e.failMsgs + [msg], nextRunAt := next, runTimeoutAt := next + e.timeout * SECOND,
           lastRetryAt := Some(now))
      else
        r.(status := Failed, failMsgs := e.failMsgs + [msg])
  }

  /** The entity of the next attempt, when it stays in memory. */
  function NextFlights(flights: seq<Task>, e: Task, fastPath: int, outcome: Outcome, now: int): seq<Task>
    requires 0 <= e.failCount
  {
    if outcome.Failure? && e.failCount < |e.backoff|
       && Fast(e.backoff[e.failCount], fastPath) && e.backoff[e.failCount] != 0 then
      var next := Retry(e.(failMsgs := e.failMsgs + [outcome.msg]), now);
      flights + [next.(failCount := next.failCount + 1)]
    else
      flights
  }

  /** Every guard on the status holds when the execution's row is running. */
  lemma ExecuteMeans(st: Store, e: Task, fastPath: int, outcome: Outcome, now: int)
    requires e.no in st.rows && st.rows[e.no].status == Running && 0 <= e.failCount
    ensures Execute(st, fastPath, e, outcome, now)
         == Store(st.rows[e.no := NextRow(st.rows[e.no], e, fastPath, outcome, now)],
                  NextFlights(st.flights, e, fastPath, outcome, now))
  {
  }

  lemma NextRowOk(r: Row, e: Task, h: seq<Attempt>, created: int, fastPath: int, outcome: Outcome, now: int)
    requires RowOk(r, created, h, fastPath) && FlightOk(e, r, h, fastPath)
    ensures 0 <= e.failCount
    ensures RowOk(NextRow(r, e, fastPath, outcome, now), created, h + [Attempt(e.nextRunAt, now, outcome)], fastPath)
  {
    hide AllFailed, Messages, OnSchedule;
    var a := Attempt(e.nextRunAt, now, outcome);
    HistoryGrows(created, r.delayTime, r.backoff, h, a);
    assert (h + [a])[|h|] == a;
  }

  lemma NextFlightOk(r: Row, e: Task, h: seq<Attempt>, created: int, fastPath: int, outcome: Outcome, now: int)
    requires RowOk(r, created, h, fastPath) && FlightOk(e, r, h, fastPath)
    ensures 0 <= e.failCount
    ensures var next, more := NextRow(r, e, fastPath, outcome, now), h + [Attempt(e.nextRunAt, now, outcome)];
            var flights := NextFlights([], e, fastPath, outcome, now);
            && |flights| <= 1
            && (forall f | f in flights :: f.no == e.no && FlightOk(f, next, more, fastPath))
            && (next.status == Running && OnWheel(next, |more|, fastPath) ==> |flights| == 1)
  {
    hide AllFailed, Messages, OnSchedule;
  }

  /** What a run changes: one row, one history, and the execution that lands. */
  lemma RunMeans(s: System, i: nat, outcome: Outcome, now: int)
    requires Inv(s) && i < |s.store.flights|
    ensures var e := s.store.flights[i];
            && e.no in s.store.rows && e.no in s.history && 0 <= e.failCount
            && var next := NextRow(s.store.rows[e.no], e, s.fastPath, outcome, now);
               var flights := NextFlights([], e, s.fastPath, outcome, now);
               Do(s, Run(i, outcome, now)) == s.(
                 store := Store(s.store.rows[e.no := next], s.store.flights[..i] + s.store.flights[i + 1..] + flights),
                 history := s.history[e.no := s.history[e.no] + [Attempt(e.nextRunAt, now, outcome)]])
  {
    var e := s.store.flights[i];
    var r, h, created := FlightMeans(s, i);
    FlightsCount(s, i);
    var rest := s.store.flights[..i] + s.store.flights[i + 1..];
    ExecuteMeans(Store(s.store.rows, rest), e, s.fastPath, outcome, now);
    var flights := NextFlights([], e, s.fastPath, outcome, now);
    assert NextFlights(rest, e, s.fastPath, outcome, now) == rest + flights;
  }

  lemma RunKeeps(s: System, step: Step)
    requires Inv(s) && Enabled(s, step) && step.Run?
    ensures Inv(Do(s, step))
  {
    var i, t := step.index, Do(s, step);
    var e := s.store.flights[i];
    var r, h, created := FlightMeans(s, i);
    RunMeans(s, i, step.outcome, step.now);
    hide Do, Execute, NextRow, NextFlights, RowOk, FlightOk, InFlight, OnWheel, Inv;
    var next := NextRow(r, e, s.fastPath, step.outcome, step.now);
    var flights := NextFlights([], e, s.fastPath, step.outcome, step.now);
    NextRowOk(r, e, h, created, s.fastPath, step.outcome, step.now);
    NextFlightOk(r, e, h, created, s.fastPath, step.outcome, step.now);
    FlownOnce(s);
    LandAndLaunch(s.store.flights, i, flights);
    hide OncePerTask;
    Changed(s, t, e.no, next, h + [Attempt(e.nextRunAt, step.now, step.outcome)], t.store.flights);
    OneTaskSuffices(s, t, e.no);
  }

  lemma FlownOnce(s: System)
    requires Inv(s)
    ensures OncePerTask(s.store.flights)
  {
  }

  /** Putting in one row and one history, and changing the executions of that task, is a change of one task. */
  lemma Changed(s: System, t: System, no: nat, r: Row, h: seq<Attempt>, flights: seq<Task>)
    requires t == s.(store := Store(s.store.rows[no := r], flights), history := s.history[no := h])
    requires forall k: nat | k < |s.store.flights| && s.store.flights[k].no != no :: s.store.flights[k] in flights
    requires forall k: nat | k < |flights| && flights[k].no != no :: flights[k] in s.store.flights
    ensures OnlyTask(s, t, no)
  {
  }

  lemma LandAndLaunch(flights: seq<Task>, i: nat, next: seq<Task>)
    requires OncePerTask(flights) && i < |flights| && |next| <= 1
    requires forall f | f in next :: f.no == flights[i].no
    ensures var after := flights[..i] + flights[i + 1..] + next;
            && OncePerTask(after) && (|next| == 1 ==> InFlight(after, flights[i].no))
            && (forall k: nat | k < |flights| && flights[k].no != flights[i].no :: flights[k] in after)
            && (forall k: nat | k < |after| && after[k].no != flights[i].no :: after[k] in flights)
            && (forall k: nat | k < |after| && after[k].no == flights[i].no :: after[k] in next)
  {
    var rest := flights[..i] + flights[i + 1..];
    Land(flights, i);
    if next != [] {
      assert next[0] in next;
      Launch(rest, next[0]);
      assert rest + next == rest + [next[0]];
    } else {
      assert rest + next == rest;
    }
  }

  lemma StepKeepsInv(s: System, step: Step)
    requires Inv(s) && Enabled(s, step)
    ensures Inv(Do(s, step))
  {
    match step
    case Create(_, _, _, _, _, _) => CreateKeeps(s, step);
    case Pick(_, _, _, _) => PickKeeps(s, step);
    case Run(_, _, _) => RunKeeps(s, step);
  }

  // ----- runs -----

  function Empty(fastPath: int): System {
    System(Store(map[], []), fastPath, map[], map[])
  }

  lemma EmptyInv(fastPath: int)
    ensures Inv(Empty(fastPath))
  {
  }

  predicate Next(s: System, step: Step, t: System) {
    Inv(s) && Enabled(s, step) && t == Do(s, step)
  }

  predicate IsRun(states: seq<System>, steps: seq<Step>) {
    |states| == |steps| + 1 && forall i: nat | i < |steps| :: Next(states[i], steps[i], states[i + 1])
  }

  lemma RunStep(states: seq<System>, steps: seq<Step>, i: nat)
    requires IsRun(states, steps) && i + 1 < |states|
    ensures |states| == |steps| + 1 && Inv(states[i]) && Enabled(states[i], steps[i])
    ensures states[i + 1] == Do(states[i], steps[i])
  {
    hide Inv, Enabled, Do;
    assert Next(states[i], steps[i], states[i + 1]);
  }

  lemma {:induction false} RunKeepsInv(states: seq<System>, steps: seq<Step>, i: nat)
    requires IsRun(states, steps) && Inv(states[0]) && i < |states|
    ensures Inv(states[i])
    decreases i
  {
    hide *;
    if i > 0 {
      RunStep(states, steps, i - 1);
      RunKeepsInv(states, steps, i - 1);
      StepKeepsInv(states[i - 1], steps[i - 1]);
    }
  }

  /**
   On every run, for every task: the finished attempts are those of the retry schedule, a row that
   waits or runs plans the schedule's next attempt, success and failure are recorded exactly when the
   schedule is over, and the messages of all failures are kept.
   */
  lemma EveryTaskFollowsSchedule(fastPath: int, states: seq<System>, steps: seq<Step>, i: nat, no: nat)
    requires IsRun(states, steps) && states[0] == Empty(fastPath) && i < |states|
    requires no in states[i].store.rows
    ensures no in states[i].createdAt && no in states[i].history
    ensures var r, h, created := states[i].store.rows[no], states[i].history[no], states[i].createdAt[no];
            && OnSchedule(created, r.delayTime, r.backoff, h)
            && r.failMsgs == Messages(h)
            && (r.status == Succeeded <==> h != [] && h[|h| - 1].outcome.Success?)
            && (r.status == Failed <==> |h| == |r.backoff| + 1 && AllFailed(h))
            && (r.status in {Waiting, Running} ==>
                  && r.nextRunAt == PlannedAt(created, r.delayTime, r.backoff, h, |h|)
                  && r.runTimeoutAt == r.nextRunAt + r.timeout * SECOND
                  && r.failCount == (if r.status == Waiting then |h| - 1 else |h|))
  {
    RunKeepsInv(states, steps, i);
    assert TaskOk(states[i], no);
    var h := states[i].history[no];
    assert h != [] ==> h[|h| - 1] in h;
  }

  /** The attempts ended at the same times with the same outcomes. */
  predicate SameEnds(a: seq<Attempt>, b: seq<Attempt>) {
    |a| == |b| && forall k: nat | k < |a| :: a[k].endedAt == b[k].endedAt && a[k].outcome == b[k].outcome
  }

  /** The number of the attempt that a row waits for or runs. */
  function NextAttempt(r: Row): int {
    if r.status == Waiting then r.failCount + 1 else r.failCount
  }

  lemma SamePlan(created: int, delay: int, backoff: seq<int>, a: seq<Attempt>, b: seq<Attempt>)
    requires OnSchedule(created, delay, backoff, a) && OnSchedule(created, delay, backoff, b) && SameEnds(a, b)
    ensures a == b
    ensures |a| <= |backoff| ==>
              PlannedAt(created, delay, backoff, a, |a|) == PlannedAt(created, delay, backoff, b, |b|)
  {
    forall k: nat | k < |a|
      ensures a[k] == b[k]
    {
      assert a[k].plannedAt == PlannedAt(created, delay, backoff, a, k);
      assert b[k].plannedAt == PlannedAt(created, delay, backoff, b, k);
    }
  }

  /**
   Path independence. Take any two runs with any two fast-path times, and in each of them a task added
   at the same time with the same delay, timeout and backoffs, whose attempts ended at the same times
   with the same outcomes. Then all attempts were planned for the same times, the messages are the
   same, both are finished in the same way or neither is, and the next attempt and its timeout are
   planned the same.
   */
  lemma PlanIsPathIndependent(fastA: int, statesA: seq<System>, stepsA: seq<Step>, i: nat, noA: nat,
                              fastB: int, statesB: seq<System>, stepsB: seq<Step>, k: nat, noB: nat)
    requires IsRun(statesA, stepsA) && statesA[0] == Empty(fastA) && i < |statesA|
    requires IsRun(statesB, stepsB) && statesB[0] == Empty(fastB) && k < |statesB|
    requires noA in statesA[i].store.rows && noB in statesB[k].store.rows
    requires var a, b := statesA[i].store.rows[noA], statesB[k].store.rows[noB];
             a.delayTime == b.delayTime && a.timeout == b.timeout && a.backoff == b.backoff
    requires noA in statesA[i].createdAt && noB in statesB[k].createdAt
    requires noA in statesA[i].history && noB in statesB[k].history
    requires statesA[i].createdAt[noA] == statesB[k].createdAt[noB]
    requires SameEnds(statesA[i].history[noA], statesB[k].history[noB])
    ensures statesA[i].history[noA] == statesB[k].history[noB]
    ensures var a, b := statesA[i].store.rows[noA], statesB[k].store.rows[noB];
            && a.failMsgs == b.failMsgs
            && (a.status == Succeeded <==> b.status == Succeeded) && (a.status == Failed <==> b.status == Failed)
            && (a.status in {Waiting, Running} ==>
                  && a.nextRunAt == b.nextRunAt && a.runTimeoutAt == b.runTimeoutAt
                  && NextAttempt(a) == NextAttempt(b) && (a.lastRetryAt.None? <==> b.lastRetryAt.None?))
  {
    EveryTaskFollowsSchedule(fastA, statesA, stepsA, i, noA);
    EveryTaskFollowsSchedule(fastB, statesB, stepsB, k, noB);
    RunKeepsInv(statesA, stepsA, i);
    RunKeepsInv(statesB, stepsB, k);
    assert TaskOk(statesA[i], noA) && TaskOk(statesB[k], noB);
    var a := statesA[i].store.rows[noA];
    SamePlan(statesA[i].createdAt[noA], a.delayTime, a.backoff, statesA[i].history[noA], statesB[k].history[noB]);
    hide Inv, IsRun, Messages, PlannedAt, AllFailed, OnSchedule;
  }

  // ----- the path that is taken -----

  /** A new task is submitted at once exactly when its delay, in nanoseconds, is within the fast-path time. */
  lemma CreateTakesPath(s: System, step: Step)
    requires Inv(s) && Enabled(s, step) && step.Create?
    ensures step.no in Do(s, step).store.rows
    ensures var r := Do(s, step).store.rows[step.no];
            && r.status == (if step.delay * 1_000_000_000 <= s.fastPath then Running else Waiting)
            && r.lockedBy == step.node && r.lastRetryAt == None
  {
  }

  /**
   After a failure with backoffs left the next attempt stays in memory exactly when its backoff, in
   nanoseconds, is within the fast-path time; otherwise the row waits. The time of the failure is kept.
   */
  lemma FailureTakesPath(s: System, i: nat, msg: FailMsg, now: int)
    requires Inv(s) && i < |s.store.flights|
    ensures var e := s.store.flights[i];
            && 0 <= e.failCount && e.no in Do(s, Run(i, Failure(msg), now)).store.rows
            && var r := Do(s, Run(i, Failure(msg), now)).store.rows[e.no];
               if e.failCount < |e.backoff| then
                 && r.status == (if e.backoff[e.failCount] * 1_000_000_000 <= s.fastPath then Running else Waiting)
                 && r.lastRetryAt == Some(now)
               else
                 r.status == Failed
  {
    RunMeans(s, i, Failure(msg), now);
    hide Inv, Do;
  }

  /** For an execution GetDelayTime is the delay that its planned time contains. */
  lemma DelayIsPlanned(s: System, i: nat)
    requires Inv(s) && i < |s.store.flights|
    ensures var e := s.store.flights[i];
            && Countable(e) && e.no in s.history && e.no in s.createdAt
            && var h := s.history[e.no];
               var from := if h == [] then s.createdAt[e.no] else h[|h| - 1].endedAt;
               e.nextRunAt == from + GetDelayTime(e) * 1_000_000_000
  {
    hide Inv, OnSchedule, AllFailed, Messages;
    var r, h, created := FlightMeans(s, i);
  }

  // ----- rows are fetched in time, and by their creator -----

  /** A row can be fetched exactly when it waits, its next attempt is planned by then, and it is in the range. */
  lemma PickIffPlanned(s: System, no: nat, range: Range, until: int, now: int)
    requires Inv(s) && no in s.store.rows
    ensures no in s.history && no in s.createdAt && |s.history[no]| <= |s.store.rows[no].backoff| + 1
    ensures var r, h := s.store.rows[no], s.history[no];
            Enabled(s, Pick(no, range, until, now))
            <==> && r.status == Waiting && |h| <= |r.backoff|
                 && PlannedAt(s.createdAt[no], r.delayTime, r.backoff, h, |h|) <= until
                 && range.lo < r.lockedBy <= range.hi
  {
    assert TaskOk(s, no);
    hide AllFailed, Messages, PlannedAt;
  }

  /** On every run: no fetch is made before the retry schedule plans the attempt that it launches. */
  lemma NoPickIsEarly(fastPath: int, states: seq<System>, steps: seq<Step>, i: nat)
    requires IsRun(states, steps) && states[0] == Empty(fastPath) && i < |steps| && steps[i].Pick?
    ensures i < |states| && steps[i].no in states[i].store.rows
    ensures var s, no := states[i], steps[i].no;
            && no in s.history && no in s.createdAt && |s.history[no]| <= |s.store.rows[no].backoff|
            && var r, h := s.store.rows[no], s.history[no];
               PlannedAt(s.createdAt[no], r.delayTime, r.backoff, h, |h|) <= steps[i].until
  {
    RunKeepsInv(states, steps, i);
    RunStep(states, steps, i);
    var step := steps[i];
    PickIffPlanned(states[i], step.no, step.range, step.until, step.now);
    hide Inv, Do, IsRun;
  }

  /** No step moves a row to another node, or takes it away. */
  lemma OwnerStays(s: System, step: Step, no: nat)
    requires Inv(s) && Enabled(s, step) && no in s.store.rows
    ensures no in Do(s, step).store.rows && Do(s, step).store.rows[no].lockedBy == s.store.rows[no].lockedBy
  {
    if step.Run? {
      RunMeans(s, step.index, step.outcome, step.now);
      hide Inv, Do;
    }
  }

  /** On every run a row belongs to the node that created it. */
  lemma {:induction false} OwnerIsCreator(fastPath: int, states: seq<System>, steps: seq<Step>, k: nat, i: nat)
    requires IsRun(states, steps) && states[0] == Empty(fastPath) && k < i < |states| && i <= |steps|
    requires steps[k].Create?
    ensures steps[k].no in states[i].store.rows && states[i].store.rows[steps[k].no].lockedBy == steps[k].node
    decreases i
  {
    hide Inv, Do, Enabled, Next;
    EmptyInv(fastPath);
    RunKeepsInv(states, steps, i - 1);
    RunStep(states, steps, i - 1);
    if k + 1 == i {
      CreateTakesPath(states[k], steps[k]);
    } else {
      OwnerIsCreator(fastPath, states, steps, k, i - 1);
      OwnerStays(states[i - 1], steps[i - 1], steps[k].no);
    }
  }

  // ----- executions -----

  /**
   Status 1 means exactly one execution, and any other status none - except that an attempt whose
   entity has delay 0 never gets on the wheel: a running row has its execution if and only if
   OnWheel holds of the attempt it is at.
   */
  lemma OneExecutionIff(s: System, no: nat)
    requires Inv(s) && no in s.store.rows
    ensures no in s.history
    ensures InFlight(s.store.flights, no)
       <==> s.store.rows[no].status == Running && OnWheel(s.store.rows[no], |s.history[no]|, s.fastPath)
    ensures forall i: nat, k: nat | i < |s.store.flights| && k < |s.store.flights| ::
              s.store.flights[i].no == no && s.store.flights[k].no == no ==> i == k
  {
    assert TaskOk(s, no);
    if InFlight(s.store.flights, no) {
      var i: nat :| i < |s.store.flights| && s.store.flights[i].no == no;
      assert FlightAtOk(s, i);
    }
  }

  /** Success and failure are final, although the update that gives up does not ask for the status. */
  lemma FinalIsFinal(s: System, step: Step, no: nat)
    requires Inv(s) && Enabled(s, step)
    requires no in s.store.rows && s.store.rows[no].status in {Succeeded, Failed}
    ensures no in Do(s, step).store.rows && Do(s, step).store.rows[no] == s.store.rows[no]
  {
    if step.Run? {
      assert FlightAtOk(s, step.index);
    }
  }

  /** A running row without an execution stays as it is for ever: no step touches it. */
  lemma StalledForEver(s: System, step: Step, no: nat)
    requires Inv(s) && Enabled(s, step)
    requires no in s.store.rows && s.store.rows[no].status == Running && !InFlight(s.store.flights, no)
    ensures no in Do(s, step).store.rows && Do(s, step).store.rows[no] == s.store.rows[no]
    ensures !InFlight(Do(s, step).store.flights, no)
  {
    if step.Run? {
      var i := step.index;
      assert s.store.flights[i].no != no;
      RunMeans(s, i, step.outcome, step.now);
      LandOthers(s.store.flights, i, NextFlights([], s.store.flights[i], s.fastPath, step.outcome, step.now), no);
    }
  }

  lemma LandOthers(flights: seq<Task>, i: nat, next: seq<Task>, no: nat)
    requires i < |flights| && !InFlight(flights, no)
    requires forall f | f in next :: f.no == flights[i].no
    ensures !InFlight(flights[..i] + flights[i + 1..] + next, no)
  {
    assert flights[i].no != no;
  }

  /**
   Every attempt that a task can come to is put on the wheel if and only if its delay is not 0 and no
   backoff of 0 can take the in-memory path.
   */
  lemma AllOnWheelIff(r: Row, fastPath: int)
    ensures (forall n: nat | n <= |r.backoff| :: OnWheel(r, n, fastPath))
       <==> r.delayTime != 0 && (0 <= fastPath ==> 0 !in r.backoff)
  {
    assert OnWheel(r, 0, fastPath) <==> r.delayTime != 0;
    if (forall n: nat | n <= |r.backoff| :: OnWheel(r, n, fastPath)) && 0 <= fastPath {
      forall k: nat | k < |r.backoff|
        ensures r.backoff[k] != 0
      {
        assert OnWheel(r, k + 1, fastPath);
      }
    }
  }

  /** A concrete input: a task created with delay 0 is marked as running and is never executed. */
  lemma ZeroDelayStalls(no: nat, backoff: seq<int>, now: int)
    ensures Inv(Empty(0)) && Enabled(Empty(0), Create(no, 0, 3, backoff, 0, now))
    ensures var s := Do(Empty(0), Create(no, 0, 3, backoff, 0, now));
            s.store.rows[no].status == Running && !InFlight(s.store.flights, no)
  {
  }

  /** A task that is neither finished nor stalled can always go on: some step for it is enabled. */
  lemma TaskGoesOn(s: System, no: nat, range: Range, until: int, outcome: Outcome, now: int) returns (step: Step)
    requires Inv(s) && no in s.store.rows && no in s.history
    requires s.store.rows[no].status == Waiting || MustFly(s, no)
    requires Contains(range, s.store.rows[no].lockedBy) && s.store.rows[no].nextRunAt <= until
    ensures Enabled(s, step)
    ensures step == Pick(no, range, until, now) || (step.Run? && s.store.flights[step.index].no == no)
  {
    if s.store.rows[no].status == Waiting {
      step := Pick(no, range, until, now);
    } else {
      assert TaskOk(s, no);
      var i: nat :| i < |s.store.flights| && s.store.flights[i].no == no;
      step := Run(i, outcome, now);
    }
  }
}
