/**
 Tasks and their retries: the table of rows and the executions that wait on the timing wheel.
 The functions follow Add, the pending loop, Submit, Execute, Success and Failure; the class of
 module TaskStorage is proved to compute them. Times are in nanoseconds, delays in seconds.
 */
module TaskModel {
  import opened Nodes
  import opened Wrappers

  const SECOND := 1_000_000_000

  /** The values 0, 1, 2 and 3 of the column `status`. */
  datatype Status = Waiting | Running | Succeeded | Failed

  datatype FailMsg = FailMsg(resp: string, err: string)

  datatype Row = Row(
    delayTime: int, timeout: int, backoff: seq<int>, status: Status,
    nextRunAt: int, runTimeoutAt: int, failCount: int, lastRetryAt: Option<int>,
    lockedBy: int, failMsgs: seq<FailMsg>)

  /** The entity that one execution on the wheel holds on to. */
  datatype Task = Task(
    no: nat, delayTime: int, timeout: int, backoff: seq<int>,
    nextRunAt: int, runTimeoutAt: int, failCount: int, failMsgs: seq<FailMsg>)

  /** `flights` are the executions on the wheel or running, in the order they were submitted. */
  datatype Store = Store(rows: map<nat, Row>, flights: seq<Task>)

  /** What the callback answered: SUCCESS, or anything else together with its error. */
  datatype Outcome = Success | Failure(msg: FailMsg)

  // ----- Submit -----

  /** The index that GetDelayTime uses into the backoff list is valid. */
  predicate Countable(t: Task) {
    t.failCount <= |t.backoff|
  }

  function GetDelayTime(t: Task): int
    requires Countable(t)
  {
    if t.failCount > 0 then t.backoff[t.failCount - 1] else t.delayTime
  }

  /** UPDATE ... SET status=1 ... WHERE task_no=? AND status=? */
  function Submitted(rows: map<nat, Row>, t: Task, guard: Status, now: int): map<nat, Row> {
    if t.no in rows && rows[t.no].status == guard then
      rows[t.no := rows[t.no].(
        status := Running, failCount := t.failCount, failMsgs := t.failMsgs,
        nextRunAt := t.nextRunAt, runTimeoutAt := t.runTimeoutAt,
        lastRetryAt := if t.failCount == 0 then None else Some(now))]
    else rows
  }

  /** Submit; nothing goes on the wheel when the entity's delay is 0. Without a guard no row is updated. */
  function Submit(st: Store, t: Task, guard: Option<Status>, now: int): Store {
    Store(
      if guard.Some? then Submitted(st.rows, t, guard.value, now) else st.rows,
      if t.delayTime != 0 then st.flights + [t] else st.flights)
  }

  // ----- Add -----

  predicate Fast(delay: int, fastPath: int) {
    delay * SECOND <= fastPath
  }

  function NewTask(no: nat, delay: int, timeout: int, backoff: seq<int>, failCount: int, now: int): Task {
    var nextRun := now + delay * SECOND;
    Task(no, delay, timeout, backoff, nextRun, nextRun + timeout * SECOND, failCount, [])
  }

  function RowOf(t: Task, status: Status, lockedBy: int): Row {
    Row(t.delayTime, t.timeout, t.backoff, status, t.nextRunAt, t.runTimeoutAt, t.failCount, None, lockedBy, t.failMsgs)
  }

  function Add(st: Store, fastPath: int, no: nat, delay: int, timeout: int, backoff: seq<int>,
               node: int, now: int): Store
  {
    var fast := Fast(delay, fastPath);
    var t := NewTask(no, delay, timeout, backoff, if fast then 0 else -1, now);
    var added := st.(rows := st.rows[no := RowOf(t, if fast then Running else Waiting, node)]);
    if fast then Submit(added, t, None, now) else added
  }

  // ----- the pending loop -----

  function Loaded(no: nat, r: Row): Task {
    Task(no, r.delayTime, r.timeout, r.backoff, r.nextRunAt, r.runTimeoutAt, r.failCount, r.failMsgs)
  }

  /** The condition of the query: waiting, due within the advance, and in the node's range. */
  predicate Eligible(r: Row, range: Range, until: int) {
    r.status == Waiting && r.nextRunAt <= until && Contains(range, r.lockedBy)
  }

  /** One round of the pending loop. */
  function Fetch(st: Store, no: nat, now: int): Store
    requires no in st.rows
  {
    var t := Loaded(no, st.rows[no]);
    Submit(st, t.(failCount := t.failCount + 1), Some(Waiting), now)
  }

  // ----- Execute -----

  function Succeed(rows: map<nat, Row>, no: nat): map<nat, Row> {
    if no in rows && rows[no].status == Running then rows[no := rows[no].(status := Succeeded)] else rows
  }

  /** The entity as Failure prepares it for the next attempt. */
  function Retry(t: Task, now: int): Task
    requires 0 <= t.failCount < |t.backoff|
  {
    var delay := t.backoff[t.failCount];
    var next := now + delay * SECOND;
    t.(delayTime := delay, nextRunAt := next, runTimeoutAt := next + t.timeout * SECOND)
  }

  /** The update of the slow path: back to waiting, with the fail count not yet increased. */
  function Postponed(rows: map<nat, Row>, t: Task, now: int): map<nat, Row> {
    if t.no in rows && rows[t.no].status == Running then
      rows[t.no := rows[t.no].(
        status := Waiting, failCount := t.failCount, failMsgs := t.failMsgs,
        nextRunAt := t.nextRunAt, runTimeoutAt := t.runTimeoutAt, lastRetryAt := Some(now))]
    else rows
  }

  /** The update that gives up; it has no guard on the status. */
  function GivenUp(rows: map<nat, Row>, t: Task): map<nat, Row> {
    if t.no in rows then rows[t.no := rows[t.no].(status := Failed, failMsgs := t.failMsgs)] else rows
  }

  function Fail(st: Store, fastPath: int, t: Task, now: int): Store
    requires 0 <= t.failCount
  {
    if t.failCount < |t.backoff| then
      var next := Retry(t, now);
      if Fast(next.delayTime, fastPath) then
        Submit(st, next.(failCount := next.failCount + 1), Some(Running), now)
      else
        st.(rows := Postponed(st.rows, next, now))
    else
      st.(rows := GivenUp(st.rows, t))
  }

  /** Execute, with the answer of the callback. */
  function Execute(st: Store, fastPath: int, t: Task, outcome: Outcome, now: int): Store
    requires 0 <= t.failCount
  {
    match outcome
    case Success => st.(rows := Succeed(st.rows, t.no))
    case Failure(msg) => Fail(st, fastPath, t.(failMsgs := t.failMsgs + [msg]), now)
  }

  /** The i-th execution leaves the wheel and runs. */
  function Fire(st: Store, fastPath: int, i: nat, outcome: Outcome, now: int): Store
    requires i < |st.flights| && 0 <= st.flights[i].failCount
  {
    Execute(st.(flights := st.flights[..i] + st.flights[i + 1..]), fastPath, st.flights[i], outcome, now)
  }
}
