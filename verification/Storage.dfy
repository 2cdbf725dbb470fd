/**
 The storage object: its table, the executions it has put on the timing wheel and its range of the
 table. The ghost field `model` is the Store of module TaskModel that the objects stand for.
 */
module TaskStorage {
  import opened Nodes
  import opened Wrappers
  import M = TaskModel
  import R = TaskRuns
  import E = TaskEnds

  /** The entity behind a pointer: one execution holds it and Failure rewrites it in place. */
  class TaskEntity {
    const taskNo: nat
    const timeout: int
    const backoff: seq<int>
    var delayTime: int
    var nextRunAt: int
    var runTimeoutAt: int
    var failCount: int
    var failMsgs: seq<M.FailMsg>

    constructor (t: M.Task)
      ensures Value() == t
    {
      taskNo, timeout, backoff := t.no, t.timeout, t.backoff;
      delayTime, nextRunAt, runTimeoutAt := t.delayTime, t.nextRunAt, t.runTimeoutAt;
      failCount, failMsgs := t.failCount, t.failMsgs;
    }

    function Value(): M.Task
      reads this
    {
      M.Task(taskNo, delayTime, timeout, backoff, nextRunAt, runTimeoutAt, failCount, failMsgs)
    }

    method WithFailMsg(msg: M.FailMsg)
      modifies this`failMsgs
      ensures failMsgs == old(failMsgs) + [msg]
    {
      failMsgs := failMsgs + [msg];
    }
  }

  // ----- pages of the table, for the pending loop -----

  lemma FirstIs(nodes: seq<int>, node: int, i: nat)
    requires i < |nodes| && nodes[i] >= node && forall k: nat | k < i :: nodes[k] < node
    ensures FirstAtLeast(nodes, node) == i
  {
  }

  /** The rounds of the pending loop, one after the other. */
  function FetchAll(st: M.Store, nos: seq<nat>, now: int): M.Store
    decreases |nos|
  {
    if nos == [] || nos[0] !in st.rows then st else FetchAll(M.Fetch(st, nos[0], now), nos[1..], now)
  }

  lemma FetchFirst(st: M.Store, nos: seq<nat>, now: int)
    requires nos != [] && nos[0] in st.rows
    ensures FetchAll(st, nos, now) == FetchAll(M.Fetch(st, nos[0], now), nos[1..], now)
  {
  }

  predicate PageOf(rows: map<nat, M.Row>, nos: seq<nat>, range: Range, until: int) {
    && (forall i: nat, k: nat | i < k < |nos| :: nos[i] != nos[k])
    && forall i: nat | i < |nos| :: nos[i] in rows && M.Eligible(rows[nos[i]], range, until)
  }

  /** These rows wait, are planned by then, and lie in the half-open range. */
  predicate AllDue(rows: map<nat, M.Row>, nos: seq<nat>, range: Range, until: int) {
    forall i: nat | i < |nos| ::
      && nos[i] in rows && rows[nos[i]].status == M.Waiting && rows[nos[i]].nextRunAt <= until
      && range.lo < rows[nos[i]].lockedBy <= range.hi
  }

  lemma PageIsDue(rows: map<nat, M.Row>, nos: seq<nat>, range: Range, until: int)
    requires PageOf(rows, nos, range, until)
    ensures AllDue(rows, nos, range, until)
  {
  }

  lemma NoRounds(s: R.System, now: int)
    requires R.Inv(s)
    ensures R.IsRun([s], []) && FetchAll(s.store, [], now) == s.store
  {
  }

  lemma RowsAreCountable(s: R.System, nos: seq<nat>, range: Range, until: int)
    requires R.Inv(s) && PageOf(s.store.rows, nos, range, until)
    ensures forall i: nat | i < |nos| ::
              nos[i] in s.store.rows && s.store.rows[nos[i]].failCount < |s.store.rows[nos[i]].backoff|
  {
    forall i: nat | i < |nos|
      ensures s.store.rows[nos[i]].failCount < |s.store.rows[nos[i]].backoff|
    {
      assert R.TaskOk(s, nos[i]);
    }
  }

  lemma PageShrinks(st: M.Store, nos: seq<nat>, range: Range, until: int, now: int)
    requires nos != [] && PageOf(st.rows, nos, range, until)
    ensures PageOf(M.Fetch(st, nos[0], now).rows, nos[1..], range, until)
  {
  }

  lemma FirstPick(s: R.System, nos: seq<nat>, range: Range, until: int, now: int)
    requires R.Inv(s) && nos != [] && PageOf(s.store.rows, nos, range, until)
    ensures var step := R.Pick(nos[0], range, until, now);
            && R.Enabled(s, step) && R.Inv(R.Do(s, step)) && R.Next(s, step, R.Do(s, step))
            && nos[0] in s.store.rows
            && R.Do(s, step) == s.(store := M.Fetch(s.store, nos[0], now))
            && PageOf(R.Do(s, step).store.rows, nos[1..], range, until)
  {
    R.StepKeepsInv(s, R.Pick(nos[0], range, until, now));
    PageShrinks(s.store, nos, range, until, now);
  }

  lemma RunPrefixed(s: R.System, step: R.Step, states: seq<R.System>, steps: seq<R.Step>)
    requires R.IsRun(states, steps) && |states| == |steps| + 1 && R.Next(s, step, states[0])
    ensures R.IsRun([s] + states, [step] + steps)
  {
    hide R.Next;
    var a, b := [s] + states, [step] + steps;
    forall i: nat | i < |b|
      ensures R.Next(a[i], b[i], a[i + 1])
    {
      if i > 0 { assert R.Next(states[i - 1], steps[i - 1], states[i - 1 + 1]); }
    }
  }

  /** The pending loop over a page is a run of Pick steps, and each row of the page meets what it needs. */
  lemma {:induction false} PageIsPicks(s: R.System, nos: seq<nat>, range: Range, until: int, now: int)
      returns (states: seq<R.System>, steps: seq<R.Step>)
    requires R.Inv(s) && PageOf(s.store.rows, nos, range, until)
    ensures forall i: nat | i < |nos| ::
              nos[i] in s.store.rows && s.store.rows[nos[i]].failCount < |s.store.rows[nos[i]].backoff|
    ensures R.IsRun(states, steps) && |states| == |steps| + 1 && states[0] == s
    ensures states[|steps|] == s.(store := FetchAll(s.store, nos, now))
    decreases |nos|
  {
    RowsAreCountable(s, nos, range, until);
    hide *;
    if nos == [] {
      NoRounds(s, now);
      states, steps := [s], [];
    } else {
      var step := R.Pick(nos[0], range, until, now);
      FirstPick(s, nos, range, until, now);
      var t := R.Do(s, step);
      FetchFirst(s.store, nos, now);
      var more, rest := PageIsPicks(t, nos[1..], range, until, now);
      RunPrefixed(s, step, more, rest);
      states, steps := [s] + more, [step] + rest;
    }
  }

  /** The steps that the pending loop takes. */
  function Picks(nos: seq<nat>, range: Range, until: int, now: int): seq<R.Step> {
    seq(|nos|, i requires 0 <= i < |nos| => R.Pick(nos[i], range, until, now))
  }

  lemma RowIsCountable(s: R.System, no: nat)
    requires R.Inv(s) && no in s.store.rows && s.store.rows[no].status == M.Waiting
    ensures s.store.rows[no].failCount < |s.store.rows[no].backoff|
  {
    assert R.TaskOk(s, no);
  }

  lemma CreateMeans(s: R.System, step: R.Step)
    requires R.Inv(s) && step.Create? && step.no !in s.store.rows
    ensures R.Enabled(s, step)
    ensures R.Do(s, step).store
         == M.Add(s.store, s.fastPath, step.no, step.delay, step.timeout, step.backoff, step.node, step.now)
  {
  }

  lemma PickMeans(s: R.System, no: nat, range: Range, until: int, now: int)
    requires R.Inv(s) && no in s.store.rows && M.Eligible(s.store.rows[no], range, until)
    ensures R.Enabled(s, R.Pick(no, range, until, now))
    ensures R.Do(s, R.Pick(no, range, until, now)).store == M.Fetch(s.store, no, now)
  {
  }

  lemma RunStepMeans(s: R.System, i: nat, outcome: M.Outcome, now: int)
    requires R.Inv(s) && i < |s.store.flights|
    ensures 0 <= s.store.flights[i].failCount && R.Enabled(s, R.Run(i, outcome, now))
    ensures R.Do(s, R.Run(i, outcome, now)).store == M.Fire(s.store, s.fastPath, i, outcome, now)
  {
    R.FlightsCount(s, i);
    hide R.Inv;
  }

  lemma TraceMeans(st: Storage)
    requires st.Traced()
    ensures R.Inv(st.System()) && st.System().store == st.model && st.System().fastPath == st.fastPathTime
    ensures st.TracedTo(st.System().store)
  {
    R.EmptyInv(st.fastPathTime);
    R.RunKeepsInv(st.states, st.steps, |st.states| - 1);
  }

  class Storage {
    const node: int
    const fastPathTime: int
    const advancePendingTime: int
    const pendingLimit: nat

    var ns: Range
    var table: map<nat, M.Row>
    /** The executions that wait on the wheel; each task number of the table is inserted once. */
    var wheel: seq<TaskEntity>
    ghost var model: M.Store
    /** The run of module TaskRuns that the calls have made so far. */
    ghost var states: seq<R.System>
    ghost var steps: seq<R.Step>

    ghost predicate Rep()
      reads this`model, this`table, this`wheel, wheel
    {
      && model.rows == table && |model.flights| == |wheel|
      && (forall i: nat | i < |wheel| :: wheel[i].Value() == model.flights[i])
      && forall i: nat, k: nat | i < k < |wheel| :: wheel[i] != wheel[k]
    }

    ghost predicate TracedTo(m: M.Store)
      reads this`states, this`steps
      ensures TracedTo(m) ==> states != []
    {
      && R.IsRun(states, steps) && states[0] == R.Empty(fastPathTime)
      && E.Last(states).store == m && E.Last(states).fastPath == fastPathTime
    }

    ghost predicate Traced()
      reads this`states, this`steps, this`model
      ensures Traced() ==> states != []
    {
      TracedTo(model)
    }

    /** The system of module TaskRuns that the calls have led to. */
    ghost function System(): R.System
      requires states != []
      reads this`states
    {
      E.Last(states)
    }

    /** The table has taken one more step of the run. */
    ghost method Record(step: R.Step)
      requires states != [] && TracedTo(System().store) && R.Inv(System()) && R.Enabled(System(), step)
      requires R.Do(System(), step).store == model
      modifies this`states, this`steps
      ensures Traced() && R.Inv(System()) && System() == R.Do(old(System()), step)
      ensures states == old(states) + [System()] && steps == old(steps) + [step]
    {
      hide R.IsRun, R.Inv, R.Enabled;
      R.StepKeepsInv(System(), step);
      E.RunGoesOn(states, steps, step);
      states, steps := states + [R.Do(System(), step)], steps + [step];
    }

    constructor (node: int, fastPathTime: int, advancePendingTime: int, pendingLimit: nat)
      requires node >= 0
      ensures Traced() && System() == R.Empty(fastPathTime)
      ensures Rep() && model == M.Store(map[], []) && wheel == []
      ensures this.node == node && this.fastPathTime == fastPathTime && ns == Range(-1, MAX_INT64)
      ensures this.advancePendingTime == advancePendingTime && this.pendingLimit == pendingLimit
    {
      this.node, this.fastPathTime, this.advancePendingTime := node, fastPathTime, advancePendingTime;
      this.pendingLimit, ns, table, wheel := pendingLimit, Range(0, 0), map[], [];
      model := M.Store(map[], []);
      states, steps := [R.Empty(fastPathTime)], [];
      new;
      SetNodes([node]);
    }

    // ----- the node's range -----

    /** The loop over the live ordinals with -1 put in front of them. */
    method SetNodes(live: seq<int>)
      requires node >= 0
      modifies this`ns
      ensures ns == RangeOf(live, node, old(ns))
    {
      var nodes := if |live| == 0 then [node] else live;
      var all := [-1] + nodes;
      var i: nat := 0;
      while i < |all|
        invariant i <= |all| && ns == old(ns)
        invariant forall k: nat | k < i :: all[k] < node
      {
        if all[i] >= node {
          forall k: nat | k < i - 1
            ensures nodes[k] < node
          {
            assert all[k + 1] == nodes[k];
          }
          FirstIs(nodes, node, i - 1);
          var end := if i == |all| - 1 then MAX_INT64 else all[i];
          ns := Range(all[i - 1], end);
          return;
        }
        i := i + 1;
      }
      forall k: nat | k < |nodes|
        ensures nodes[k] < node
      {
        assert all[k + 1] == nodes[k];
      }
    }

    // ----- submitting -----

    /** Submit; AfterFunc puts the entity on the wheel for its nextRunAt. */
    method Submit(task: TaskEntity, guard: Option<M.Status>, now: int)
      requires Rep() && task !in wheel && M.Countable(task.Value())
      modifies this`table, this`wheel, this`model
      ensures Rep() && model == M.Submit(old(model), task.Value(), guard, now)
      ensures wheel == if task.delayTime != 0 then old(wheel) + [task] else old(wheel)
    {
      var logged := M.GetDelayTime(task.Value());
      if guard.Some? {
        table := M.Submitted(table, task.Value(), guard.value, now);
      }
      if task.delayTime != 0 {
        wheel := wheel + [task];
      }
      model := M.Submit(model, task.Value(), guard, now);
    }

    /** What Add does with table and wheel. */
    method Insert(taskNo: nat, delayTime: int, timeout: int, backoff: seq<int>, now: int)
      requires Rep() && taskNo !in table
      modifies this`table, this`wheel, this`model
      ensures Rep() && model == M.Add(old(model), fastPathTime, taskNo, delayTime, timeout, backoff, node, now)
      ensures forall i: nat | i < |wheel| :: wheel[i] in old(wheel) || fresh(wheel[i])
    {
      var task := new TaskEntity(M.NewTask(taskNo, delayTime, timeout, backoff, -1, now));
      var flag := false;
      var status := M.Waiting;
      if delayTime * M.SECOND <= fastPathTime {
        flag := true;
        status := M.Running;
        task.failCount := 0;
      }
      table := table[taskNo := M.RowOf(task.Value(), status, node)];
      model := model.(rows := table);
      if flag {
        Submit(task, None, now);
      }
    }

    /** Add, for a task number that the snowflake node has just generated. */
    method Add(taskNo: nat, delayTime: int, timeout: int, backoff: seq<int>, now: int)
      requires Rep() && Traced() && taskNo !in table
      modifies this`table, this`wheel, this`model, this`states, this`steps
      ensures Rep() && Traced()
      ensures old(states) <= states
      ensures steps == old(steps) + [R.Create(taskNo, delayTime, timeout, backoff, node, now)]
      ensures taskNo in table && table[taskNo].lockedBy == node
      ensures table[taskNo].status == if delayTime * 1_000_000_000 <= fastPathTime then M.Running else M.Waiting
      ensures model == M.Add(old(model), fastPathTime, taskNo, delayTime, timeout, backoff, node, now)
      ensures forall i: nat | i < |wheel| :: wheel[i] in old(wheel) || fresh(wheel[i])
    {
      TraceMeans(this);
      ghost var step := R.Create(taskNo, delayTime, timeout, backoff, node, now);
      CreateMeans(System(), step);
      R.CreateTakesPath(System(), step);
      hide R.Inv, R.Do, R.IsRun, R.Enabled, M.Add;
      Insert(taskNo, delayTime, timeout, backoff, now);
      Record(step);
    }

    /** What the query for pending tasks may return. */
    ghost predicate IsPage(nos: seq<nat>, until: int)
      reads this`table, this`ns
    {
      |nos| <= pendingLimit && PageOf(table, nos, ns, until)
    }

    /** The pending loop over one page of the table. */
    method Pending(nos: seq<nat>, now: int)
      requires Rep() && Traced() && IsPage(nos, now + advancePendingTime)
      modifies this`table, this`wheel, this`model, this`states, this`steps
      ensures Rep() && Traced() && model == FetchAll(old(model), nos, now)
      ensures old(states) <= states && steps == old(steps) + Picks(nos, ns, now + advancePendingTime, now)
      ensures AllDue(old(table), nos, ns, now + advancePendingTime)
      ensures forall i: nat | i < |wheel| :: wheel[i] in old(wheel) || fresh(wheel[i])
    {
      hide AllDue, M.Submit, M.Eligible, TracedTo, Traced, R.Inv;
      PageIsDue(table, nos, ns, now + advancePendingTime);
      ghost var until := now + advancePendingTime;
      for i := 0 to |nos|
        invariant Rep() && Traced()
        invariant forall k: nat | i <= k < |nos| :: nos[k] in table && table[nos[k]] == old(table)[nos[k]]
        invariant FetchAll(model, nos[i..], now) == FetchAll(old(model), nos, now)
        invariant old(states) <= states && steps == old(steps) + Picks(nos[..i], ns, until, now)
        invariant forall k: nat | k < |wheel| :: wheel[k] in old(wheel) || fresh(wheel[k])
      {
        FetchFirst(model, nos[i..], now);
        assert nos[i..][1..] == nos[i + 1..];
        assert nos[..i + 1] == nos[..i] + [nos[i]];
        FetchOne(nos[i], until, now);
      }
      assert nos[..|nos|] == nos;
    }

    /** One round of the loop: load the row, count the attempt, submit. */
    method SubmitRow(no: nat, now: int)
      requires Rep() && no in table && table[no].failCount < |table[no].backoff|
      modifies this`table, this`wheel, this`model
      ensures Rep() && no in old(model).rows && model == M.Fetch(old(model), no, now)
      ensures forall n | n in old(table) && n != no :: n in table && table[n] == old(table)[n]
      ensures forall k: nat | k < |wheel| :: wheel[k] in old(wheel) || fresh(wheel[k])
    {
      var task := new TaskEntity(M.Loaded(no, table[no]));
      task.failCount := task.failCount + 1;
      Submit(task, Some(M.Waiting), now);
    }

    method FetchOne(no: nat, ghost until: int, now: int)
      requires Rep() && Traced() && no in table && M.Eligible(table[no], ns, until)
      modifies this`table, this`wheel, this`model, this`states, this`steps
      ensures Rep() && Traced() && no in old(model).rows && model == M.Fetch(old(model), no, now)
      ensures old(states) <= states && steps == old(steps) + [R.Pick(no, ns, until, now)]
      ensures forall n | n in old(table) && n != no :: n in table && table[n] == old(table)[n]
      ensures forall k: nat | k < |wheel| :: wheel[k] in old(wheel) || fresh(wheel[k])
    {
      TraceMeans(this);
      RowIsCountable(System(), no);
      PickMeans(System(), no, ns, until, now);
      hide R.Inv, R.Do, R.IsRun, R.Enabled, M.Fetch;
      SubmitRow(no, now);
      Record(R.Pick(no, ns, until, now));
    }

    // ----- executing -----

    method Success(task: TaskEntity)
      requires Rep() && M.Countable(task.Value())
      modifies this`table, this`model
      ensures Rep() && model == old(model).(rows := M.Succeed(old(model).rows, task.taskNo))
    {
      var logged := M.GetDelayTime(task.Value());
      table := M.Succeed(table, task.taskNo);
      model := model.(rows := table);
    }

    /** Failure: retry in memory, retry through the table, or give up. */
    method Failure(task: TaskEntity, now: int)
      requires Rep() && task !in wheel && 0 <= task.failCount && M.Countable(task.Value())
      modifies this`table, this`wheel, this`model, task
      ensures Rep() && model == M.Fail(old(model), fastPathTime, old(task.Value()), now)
      ensures task.taskNo in old(table) && old(table)[task.taskNo].status == M.Running ==>
                && task.taskNo in table
                && table[task.taskNo].status ==
                     if old(task.failCount) == |task.backoff| then M.Failed
                     else if task.backoff[old(task.failCount)] * 1_000_000_000 <= fastPathTime then M.Running
                     else M.Waiting
      ensures forall i: nat | i < |wheel| :: wheel[i] in old(wheel) || wheel[i] == task
    {
      var logged := M.GetDelayTime(task.Value());
      if task.failCount < |task.backoff| {
        task.delayTime := task.backoff[task.failCount];
        task.nextRunAt := now + task.delayTime * M.SECOND;
        task.runTimeoutAt := task.nextRunAt + task.timeout * M.SECOND;
        if task.delayTime * M.SECOND <= fastPathTime {
          task.failCount := task.failCount + 1;
          Submit(task, Some(M.Running), now);
          return;
        }
        table := M.Postponed(table, task.Value(), now);
        model := model.(rows := table);
        return;
      }
      table := M.GivenUp(table, task.Value());
      model := model.(rows := table);
    }

    method Execute(task: TaskEntity, outcome: M.Outcome, now: int)
      requires Rep() && task !in wheel && 0 <= task.failCount && M.Countable(task.Value())
      modifies this`table, this`wheel, this`model, task
      ensures Rep() && model == M.Execute(old(model), fastPathTime, old(task.Value()), outcome, now)
      ensures forall i: nat | i < |wheel| :: wheel[i] in old(wheel) || wheel[i] == task
    {
      var logged := M.GetDelayTime(task.Value());
      match outcome {
        case Success =>
          Success(task);
        case Failure(msg) =>
          task.WithFailMsg(msg);
          Failure(task, now);
      }
    }

    /** The timer of the i-th execution fires: it leaves the wheel and its task runs. */
    method Fire(i: nat, outcome: M.Outcome, now: int)
      requires Rep() && Traced() && i < |wheel|
      modifies this`table, this`wheel, this`model, this`states, this`steps, wheel
      ensures Rep() && Traced() && i < |old(model).flights| && 0 <= old(model).flights[i].failCount
      ensures model == M.Fire(old(model), fastPathTime, i, outcome, now)
      ensures old(states) <= states && steps == old(steps) + [R.Run(i, outcome, now)]
    {
      TraceMeans(this);
      R.FlightsCount(System(), i);
      RunStepMeans(System(), i, outcome, now);
      hide R.Inv, R.Do, R.IsRun, R.Enabled;
      var task := wheel[i];
      wheel := wheel[..i] + wheel[i + 1..];
      model := model.(flights := model.flights[..i] + model.flights[i + 1..]);
      Execute(task, outcome, now);
      Record(R.Run(i, outcome, now));
    }
  }

  /**
   What is proved of all runs holds of the object: the row of every task is on the retry schedule of
   the attempts made so far, and a row that is marked as running has its entity on the wheel, provided
   that the task's delay is not 0 and no backoff of 0 can take the in-memory path.
   */
  lemma TableFollowsSchedule(st: Storage, no: nat)
    requires st.Rep() && st.Traced() && no in st.table
    ensures var s := st.System();
            no in s.store.rows && s.store.rows[no] == st.table[no] && no in s.createdAt && no in s.history
    ensures var r, h, created := st.table[no], st.System().history[no], st.System().createdAt[no];
            && R.OnSchedule(created, r.delayTime, r.backoff, h) && r.failMsgs == R.Messages(h)
            && (r.status == M.Succeeded <==> h != [] && h[|h| - 1].outcome.Success?)
            && (r.status == M.Failed <==> |h| == |r.backoff| + 1 && R.AllFailed(h))
            && (r.status in {M.Waiting, M.Running} ==>
                  r.nextRunAt == R.PlannedAt(created, r.delayTime, r.backoff, h, |h|))
            && (r.status == M.Running && r.delayTime != 0 && (0 <= st.fastPathTime ==> 0 !in r.backoff) ==>
                  exists i: nat | i < |st.wheel| :: st.wheel[i].taskNo == no)
  {
    R.EveryTaskFollowsSchedule(st.fastPathTime, st.states, st.steps, |st.states| - 1, no);
    var r := st.table[no];
    if r.status == M.Running && r.delayTime != 0 && (0 <= st.fastPathTime ==> 0 !in r.backoff) {
      E.RunsExecute(st.states, st.steps, |st.states| - 1, no);
      var i: nat :| i < |st.model.flights| && st.model.flights[i].no == no;
      assert st.wheel[i].Value() == st.model.flights[i];
    }
  }
}
