/**
 One timer over a whole run: a timer that is added again and again, such as that of ScheduleFunc,
 fires once for each addition that was not stopped, in the order of the additions.
 */
module WheelTimers {
  import opened Truncation
  import opened WheelModel
  import opened WheelInvariant
  import opened WheelCascade
  import opened WheelRuns

  /** The firings of one timer, in order. */
  function Firings(fired: seq<Firing>, id: nat): seq<Firing> {
    if fired == [] then []
    else Firings(fired[..|fired| - 1], id)
         + (if fired[|fired| - 1].entry.id == id then [fired[|fired| - 1]] else [])
  }

  /** The step takes the timer out of its bucket. */
  predicate Cancels(s: System, step: Step, id: nat) {
    match step
    case Cancel(j, x, i) =>
      InRange(s.wheel, j, x) && i < |At(s.wheel, j, x).timers| && At(s.wheel, j, x).timers[i].id == id
    case _ => false
  }

  /** The expirations with which the timer was added, when the step is taken after those of `plan`. */
  function PlanAfter(plan: seq<int>, s: System, step: Step, id: nat): seq<int> {
    if step.Arrive? && step.e.id == id then plan + [step.e.at]
    else if plan != [] && Cancels(s, step, id) then plan[..|plan| - 1]
    else plan
  }

  /** The expirations with which the first n steps added the timer, less those that were stopped. */
  function Plan(states: seq<System>, steps: seq<Step>, n: nat, id: nat): seq<int>
    requires n <= |steps| && n <= |states|
  {
    if n == 0 then [] else PlanAfter(Plan(states, steps, n - 1, id), states[n - 1], steps[n - 1], id)
  }

  /** The timer is held with this expiration and no other, or not at all. */
  ghost predicate Pending(s: System, id: nat, at: int) {
    forall e: Entry | e.id == id :: Held(s.wheel.levels, e) > 0 <==> e == Entry(id, at)
  }

  ghost predicate AtRest(s: System, id: nat) {
    forall e: Entry | e.id == id :: Held(s.wheel.levels, e) == 0
  }

  predicate Fired(fs: seq<Firing>, plan: seq<int>, id: nat) {
    |fs| <= |plan| && forall k: nat | k < |fs| :: fs[k].entry == Entry(id, plan[k])
  }

  /** All that was added has fired, in that order, save the last addition, which may be pending. */
  ghost predicate InTurn(s: System, plan: seq<int>, id: nat) {
    var fs := Firings(s.wheel.fired, id);
    && Fired(fs, plan, id) && |plan| <= |fs| + 1
    && (if |plan| == |fs| then AtRest(s, id) else Pending(s, id, plan[|fs|]))
  }

  // ----- firings, counted and listed -----

  lemma {:induction false} FiringsJoin(a: seq<Firing>, b: seq<Firing>, id: nat)
    ensures Firings(a + b, id) == Firings(a, id) + Firings(b, id)
    ensures forall e :: FiredCount(a + b, e) == FiredCount(a, e) + FiredCount(b, e)
    decreases |b|
  {
    if b == [] {
      assert a + b == a;
    } else {
      FiringsJoin(a, b[..|b| - 1], id);
      assert (a + b)[..|a + b| - 1] == a + b[..|b| - 1];
    }
  }

  /** Firings that count none of a timer's entries list none; if they count one, they list that one. */
  lemma {:induction false} FiringsOf(fs: seq<Firing>, id: nat, at: int)
    requires forall e: Entry | e.id == id && e != Entry(id, at) :: FiredCount(fs, e) == 0
    requires FiredCount(fs, Entry(id, at)) <= 1
    ensures |Firings(fs, id)| == FiredCount(fs, Entry(id, at))
    ensures forall f | f in Firings(fs, id) :: f.entry == Entry(id, at)
    ensures forall f | f in Firings(fs, id) :: f in fs
    decreases |fs|
  {
    if fs != [] {
      var f, before := fs[|fs| - 1], fs[..|fs| - 1];
      assert forall e :: FiredCount(before, e) <= FiredCount(fs, e);
      if f.entry.id == id { assert FiredCount(fs, f.entry) >= 1; }
      FiringsOf(before, id, at);
    }
  }

  // ----- the steps -----

  /** What left the buckets has fired: the timer is where it was in its turn. */
  lemma MoreFired(s: System, t: System, more: seq<Firing>, plan: seq<int>, id: nat)
    requires InTurn(s, plan, id) && t.wheel.fired == s.wheel.fired + more
    requires forall e: Entry | e.id == id ::
               Held(t.wheel.levels, e) + FiredCount(more, e) == Held(s.wheel.levels, e) <= 1
    ensures InTurn(t, plan, id)
  {
    hide Firings, FiredCount, Held;
    var fs := Firings(s.wheel.fired, id);
    var at := if |plan| == |fs| then 0 else plan[|fs|];
    FiringsJoin(s.wheel.fired, more, id);
    FiringsOf(more, id, at);
    if Firings(more, id) == [] {
      assert Firings(t.wheel.fired, id) == fs;
    } else {
      var f := Firings(more, id)[0];
      assert f in Firings(more, id) && Firings(t.wheel.fired, id) == fs + [f];
    }
  }

  lemma OneFiring(f: Firing, id: nat)
    ensures Firings([f], id) == if f.entry.id == id then [f] else []
  {
    assert Firings([f][..0], id) == [];
  }

  /** The timer was at rest when it was added, and is held or has fired. */
  lemma OneAdded(s: System, t: System, e: Entry, ran: bool, plan: seq<int>, f: Firing)
    requires InTurn(s, plan, e.id) && AtRest(s, e.id) && f.entry == e
    requires t.wheel.fired == if ran then s.wheel.fired + [f] else s.wheel.fired
    requires forall g: Entry | g.id == e.id :: Held(t.wheel.levels, g) == if g == e && !ran then 1 else 0
    ensures InTurn(t, plan + [e.at], e.id)
  {
    hide Held, Firings;
    OneFiring(f, e.id);
    FiringsJoin(s.wheel.fired, [f], e.id);
    PendingIsHeld(s, plan, e.id);
  }

  lemma PendingIsHeld(s: System, plan: seq<int>, id: nat)
    requires InTurn(s, plan, id)
    ensures var fs := Firings(s.wheel.fired, id);
            |plan| == |fs| || (|fs| < |plan| && Held(s.wheel.levels, Entry(id, plan[|fs|])) > 0)
  {
  }

  lemma ArriveInTurn(s: System, e: Entry, plan: seq<int>, tick: int, id: nat)
    requires SysInv(s, tick) && Enabled(s, Arrive(e)) && InTurn(s, plan, id)
    ensures InTurn(Do(s, Arrive(e)), PlanAfter(plan, s, Arrive(e), id), id)
  {
    var st, t := s.wheel, Do(s, Arrive(e));
    var ran := ArrivalMeans(st, e);
    var f := Firing(e, st.levels[0].clock, OnArrival);
    assert AtRest(s, e.id);
    hide AddOrRun, Inv, Conserved, LogOk, InTurn, Firings;
    if e.id == id {
      OneAdded(s, t, e, ran, plan, f);
    } else {
      var more := if ran then [f] else [];
      assert t.wheel.fired == st.fired + more;
      forall g: Entry | g.id == id
        ensures FiredCount(more, g) == 0 && Held(t.wheel.levels, g) == Held(st.levels, g)
      {
        if ran { assert more[..0] == []; }
      }
      AtMostOnce(s, tick);
      MoreFired(s, t, more, plan, id);
    }
  }

  lemma AtMostOnce(s: System, tick: int)
    requires SysInv(s, tick)
    ensures forall e :: Held(s.wheel.levels, e) <= 1
  {
  }

  lemma CancelInTurn(s: System, j: nat, x: nat, i: nat, plan: seq<int>, tick: int, id: nat)
    requires SysInv(s, tick) && Enabled(s, Cancel(j, x, i)) && InTurn(s, plan, id)
    ensures InTurn(Do(s, Cancel(j, x, i)), PlanAfter(plan, s, Cancel(j, x, i), id), id)
  {
    var st, t := s.wheel, Do(s, Cancel(j, x, i));
    var e := At(st, j, x).timers[i];
    CancelTakesOut(s, j, x, i, tick);
    forall f
      ensures Held(t.wheel.levels, f) == Held(st.levels, f) - (if f == e then 1 else 0)
    {
      RemoveHolds(st, j, x, i, f);
    }
    hide RemoveTimer, Inv, Conserved, LogOk;
  }

  lemma TurnInTurn(s: System, q: Queued, plan: seq<int>, tick: int, id: nat)
    requires SysInv(s, tick) && Enabled(s, Turn(q)) && InTurn(s, plan, id)
    ensures InTurn(Do(s, Turn(q)), plan, id)
  {
    TurnKeepsInv(s.wheel, q);
    AtMostOnce(s, tick);
    var t := Do(s, Turn(q));
    var st, r := s.wheel, t.wheel;
    var more := r.fired[|st.fired|..];
    hide Expire, Inv, LogOk, FiredOnTime, Conserved, InTurn, Firings, Held, FiredCount;
    assert r.fired == st.fired + more;
    FiringsJoin(st.fired, more, id);
    forall e
      ensures Held(r.levels, e) + FiredCount(more, e) == Held(st.levels, e)
    {
      assert Known(r, e) == Known(st, e);
    }
    MoreFired(s, t, more, plan, id);
  }

  lemma StepInTurn(s: System, step: Step, plan: seq<int>, tick: int, id: nat)
    requires SysInv(s, tick) && Enabled(s, step) && InTurn(s, plan, id)
    ensures InTurn(Do(s, step), PlanAfter(plan, s, step, id), id)
  {
    match step
    case Tick(_) => hide SysInv, Firings;
    case Arrive(e) => ArriveInTurn(s, e, plan, tick, id);
    case Cancel(j, x, i) => CancelInTurn(s, j, x, i, plan, tick, id);
    case Turn(q) => TurnInTurn(s, q, plan, tick, id);
  }

  // ----- runs -----

  lemma {:induction false} RunInTurn(states: seq<System>, steps: seq<Step>, tick: int, i: nat, id: nat)
    requires IsRun(states, steps) && SysInv(states[0], tick) && i < |states|
    requires InTurn(states[0], [], id)
    ensures |states| == |steps| + 1 && InTurn(states[i], Plan(states, steps, i, id), id)
    decreases i
  {
    hide SysInv, InTurn, Do, Enabled, Next, PlanAfter;
    if i > 0 {
      RunStep(states, steps, i - 1);
      RunKeepsInv(states, steps, tick, i - 1);
      RunInTurn(states, steps, tick, i - 1, id);
      StepInTurn(states[i - 1], steps[i - 1], Plan(states, steps, i - 1, id), tick, id);
    }
  }

  lemma StartInTurn(tick: int, size: nat, start: int, id: nat)
    requires tick >= 1 && size >= 2 && start >= 0
    ensures InTurn(Start(tick, size, start), [], id)
  {
    NewWheelInv(tick, size, start);
    hide NewWheel, Inv;
  }

  lemma {:induction false} FiringsAreLogged(fired: seq<Firing>, id: nat)
    ensures forall f | f in Firings(fired, id) :: f in fired
    decreases |fired|
  {
    if fired != [] {
      FiringsAreLogged(fired[..|fired| - 1], id);
    }
  }

  /**
   On every run, for every timer however often it is added and stopped: its k-th firing carries the
   k-th expiration with which it was added and not stopped, and does not come before that expiration
   truncated to the tick; only the last addition may not have fired yet, and then it is held.
   */
  lemma FiresInOrderOfAdding(tick: int, size: nat, start: int, states: seq<System>, steps: seq<Step>, i: nat, id: nat)
    requires tick >= 1 && size >= 2 && start >= 0
    requires IsRun(states, steps) && states[0] == Start(tick, size, start) && i < |states|
    ensures |states| == |steps| + 1
    ensures var fs, plan := Firings(states[i].wheel.fired, id), Plan(states, steps, i, id);
            && |fs| <= |plan| <= |fs| + 1
            && (forall k: nat | k < |fs| ::
                  fs[k].entry == Entry(id, plan[k]) && Truncate(plan[k], tick) <= fs[k].clock <= states[i].now)
            && (forall e: Entry | e.id == id ::
                  Held(states[i].wheel.levels, e) > 0 <==> |plan| == |fs| + 1 && e.at == plan[|fs|])
  {
    StartInv(tick, size, start);
    StartInTurn(tick, size, start, id);
    RunInTurn(states, steps, tick, i, id);
    RunKeepsInv(states, steps, tick, i);
    LogMeans(states[i], tick);
    FiringsAreLogged(states[i].wheel.fired, id);
    hide SysInv, IsRun, Firings, Plan;
  }

  // ----- plans of longer runs -----

  lemma {:induction false} PlanOfPrefix(states: seq<System>, steps: seq<Step>, longer: seq<System>, more: seq<Step>,
                                        n: nat, id: nat)
    requires n <= |steps| && n <= |states| && states <= longer && steps <= more
    ensures Plan(longer, more, n, id) == Plan(states, steps, n, id)
    decreases n
  {
    if n > 0 {
      PlanOfPrefix(states, steps, longer, more, n - 1, id);
    }
  }

  /** Between the steps m and n the timer is neither added nor stopped. */
  ghost predicate LeftAlone(states: seq<System>, steps: seq<Step>, m: nat, n: nat, id: nat)
    requires n <= |steps| && n <= |states|
  {
    forall k: nat | m <= k < n :: !Cancels(states[k], steps[k], id) && (steps[k].Arrive? ==> steps[k].e.id != id)
  }

  lemma {:induction false} PlanKept(states: seq<System>, steps: seq<Step>, m: nat, n: nat, id: nat)
    requires m <= n <= |steps| && n <= |states| && LeftAlone(states, steps, m, n, id)
    ensures Plan(states, steps, n, id) == Plan(states, steps, m, id)
    decreases n
  {
    if m < n {
      PlanKept(states, steps, m, n - 1, id);
    }
  }

  lemma {:induction false} NothingPlanned(states: seq<System>, steps: seq<Step>, n: nat, id: nat)
    requires n <= |steps| && n <= |states|
    requires forall k: nat | k < n && steps[k].Arrive? :: steps[k].e.id != id
    ensures Plan(states, steps, n, id) == []
    decreases n
  {
    if n > 0 {
      NothingPlanned(states, steps, n - 1, id);
    }
  }
}
