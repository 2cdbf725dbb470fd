/**
 Whole runs of the wheel: any interleaving of arriving timers, cancelled timers, clock ticks and
 turns of the event loop. The flat calendar that the wheel has to agree with is a statement about
 the timers alone: what was added, minus what was stopped, is due at its truncated expiration.
 */
module WheelRuns {
  import opened Truncation
  import opened WheelModel
  import opened WheelInvariant
  import opened WheelCascade

  /** A wheel, the wall clock, and the history of additions and successful stops. */
  datatype System = System(wheel: State, now: int, added: multiset<Entry>, stopped: multiset<Entry>)

  datatype Step =
    | Tick(to: int)
    | Arrive(e: Entry)
    | Cancel(level: nat, slot: nat, index: nat)
    | Turn(q: Queued)

  ghost function Start(tick: int, size: nat, now: int): System {
    System(NewWheel(tick, size, now), now, multiset{}, multiset{})
  }

  /** An arriving timer is not on the wheel already; a cancelled one is; a turn takes a due head. */
  ghost predicate Enabled(s: System, step: Step) {
    match step
    case Tick(to) => s.now <= to
    case Arrive(e) => forall f :: Held(s.wheel.levels, f) > 0 ==> f.id != e.id
    case Cancel(j, x, i) => InRange(s.wheel, j, x) && i < |At(s.wheel, j, x).timers|
    case Turn(q) => Due(s.wheel, q, s.now)
  }

  ghost function Do(s: System, step: Step): (r: System)
    requires Inv(s.wheel, Idle) && Enabled(s, step)
  {
    match step
    case Tick(to) => s.(now := to)
    case Arrive(e) => s.(wheel := AddOrRun(s.wheel, e, OnArrival), added := s.added + multiset{e})
    case Cancel(j, x, i) =>
      s.(wheel := RemoveTimer(s.wheel, j, x, i), stopped := s.stopped + multiset{At(s.wheel, j, x).timers[i]})
    case Turn(q) =>
      TurnKeepsInv(s.wheel, q);
      s.(wheel := Expire(s.wheel, q))
  }

  // ----- what every step keeps -----

  /** Added timers are held, fired or stopped, each exactly once; no identity is held twice. */
  ghost predicate Conserved(s: System) {
    && (forall e :: Known(s.wheel, e) + s.stopped[e] == s.added[e])
    && (forall e :: Held(s.wheel.levels, e) <= 1)
    && (forall e, f :: Held(s.wheel.levels, e) > 0 && Held(s.wheel.levels, f) > 0 && e.id == f.id ==> e == f)
  }

  /** A task never starts before its truncated expiration, and one from a bucket exactly at it. */
  predicate StartedOk(f: Firing, tick: int, clock: int) {
    && f.clock <= clock
    && Truncate(f.entry.at, tick) <= f.clock
    && (f.cause == OnFlush ==> Truncate(f.entry.at, tick) == f.clock)
  }

  predicate LogOk(fired: seq<Firing>, tick: int, clock: int) {
    && (forall f | f in fired :: StartedOk(f, tick, clock))
    && (forall i: nat, j: nat | i < j < |fired| :: fired[i].clock <= fired[j].clock)
  }

  ghost predicate SysInv(s: System, tick: int) {
    && Inv(s.wheel, Idle)
    && s.wheel.levels[0].tick == tick
    && s.wheel.levels[0].clock <= s.now
    && Conserved(s)
    && LogOk(s.wheel.fired, tick, s.wheel.levels[0].clock)
  }

  lemma StartInv(tick: int, size: nat, now: int)
    requires tick >= 1 && size >= 2 && now >= 0
    ensures SysInv(Start(tick, size, now), tick)
  {
    NewWheelInv(tick, size, now);
    TruncateMeans(now, tick, Truncate(now, tick));
  }

  lemma TruncateOfPast(at: int, tick: int, clock: int)
    requires tick >= 1 && clock >= 0 && Aligned(clock, tick) && at < clock + tick
    ensures Truncate(at, tick) <= clock
  {
    if at >= 0 {
      TruncateMeans(at, tick, Truncate(at, tick));
      if clock < Truncate(at, tick) { AlignedGap(clock, Truncate(at, tick), tick); }
    }
  }

  /** What an arrival does: the timer starts at once, or is held at one more place. */
  lemma ArrivalMeans(st: State, e: Entry) returns (ran: bool)
    requires Inv(st, Idle)
    ensures var r := AddOrRun(st, e, OnArrival);
            && Inv(r, Idle)
            && r.levels != [] && r.levels[0].tick == st.levels[0].tick && r.levels[0].clock == st.levels[0].clock
            && (ran <==> e.at < st.levels[0].clock + st.levels[0].tick)
            && (ran ==> r == st.(fired := st.fired + [Firing(e, st.levels[0].clock, OnArrival)]))
            && (!ran ==> r.fired == st.fired)
            && (!ran ==> forall f :: Held(r.levels, f) == Held(st.levels, f) + (if e == f then 1 else 0))
  {
    AddOrRunKeepsInv(st, Idle, e, OnArrival);
    ran := e.at < st.levels[0].clock + st.levels[0].tick;
    if !ran {
      var m, g := AddPlaces(st, Idle, 0, e);
      assert g.levels[..|st.levels|][0] == st.levels[0];
      forall f
        ensures Held(InsertAt(g, m, e).levels, f) == Held(st.levels, f) + (if e == f then 1 else 0)
      {
        InsertHolds(g, m, e, f);
      }
    }
  }

  lemma LogAppend(fired: seq<Firing>, f: Firing, tick: int, clock: int)
    requires LogOk(fired, tick, clock) && f.clock == clock && StartedOk(f, tick, clock)
    ensures LogOk(fired + [f], tick, clock)
  {
    var r := fired + [f];
    forall i: nat | i < |r|
      ensures StartedOk(r[i], tick, clock)
    {
      if i < |fired| { assert r[i] == fired[i] && fired[i] in fired; }
    }
  }

  lemma ArrivalCounts(st: State, e: Entry, f: Entry)
    requires Inv(st, Idle)
    ensures Known(AddOrRun(st, e, OnArrival), f) == Known(st, f) + (if e == f then 1 else 0)
    ensures Held(AddOrRun(st, e, OnArrival).levels, f) <= Held(st.levels, f) + (if e == f then 1 else 0)
  {
    var ran := ArrivalMeans(st, e);
    hide AddOrRun, Inv;
    FiredAppend(st.fired, Firing(e, st.levels[0].clock, OnArrival), f);
  }

  /** Holding one more timer, whose identity is not held yet, conserves the timers. */
  lemma ConservedWith(s: System, r: System, e: Entry)
    requires Conserved(s) && forall f :: Held(s.wheel.levels, f) > 0 ==> f.id != e.id
    requires forall f :: Known(r.wheel, f) + r.stopped[f] == r.added[f]
    requires forall f :: Held(r.wheel.levels, f) <= Held(s.wheel.levels, f) + (if e == f then 1 else 0)
    ensures Conserved(r)
  {
    hide Known, Held;
    forall f
      ensures Held(r.wheel.levels, f) <= 1
      ensures Held(r.wheel.levels, f) > 0 ==> f == e || (Held(s.wheel.levels, f) > 0 && f.id != e.id)
    {
      assert Held(s.wheel.levels, e) == 0;
      assert Held(s.wheel.levels, f) <= 1;
    }
  }

  lemma ArriveConserves(s: System, e: Entry)
    requires Inv(s.wheel, Idle) && Conserved(s) && Enabled(s, Arrive(e))
    ensures Conserved(Do(s, Arrive(e)))
  {
    var r := Do(s, Arrive(e));
    hide AddOrRun, Inv, Known, Held;
    forall f
      ensures Known(r.wheel, f) + r.stopped[f] == r.added[f]
      ensures Held(r.wheel.levels, f) <= Held(s.wheel.levels, f) + (if e == f then 1 else 0)
    {
      ArrivalCounts(s.wheel, e, f);
      assert Known(s.wheel, f) + s.stopped[f] == s.added[f];
    }
    ConservedWith(s, r, e);
  }

  lemma ArriveKeeps(s: System, e: Entry, tick: int)
    requires SysInv(s, tick) && Enabled(s, Arrive(e))
    ensures SysInv(Do(s, Arrive(e)), tick)
  {
    var st := s.wheel;
    ArriveConserves(s, e);
    var ran := ArrivalMeans(st, e);
    if ran {
      ClockBounds(st, 0);
      TruncateOfPast(e.at, tick, st.levels[0].clock);
      LogAppend(st.fired, Firing(e, st.levels[0].clock, OnArrival), tick, st.levels[0].clock);
    }
    hide AddOrRun, Inv, LogOk, Conserved;
  }

  /** Moving one occurrence between what is held, fired and stopped conserves the timers. */
  lemma StillConserved(s: System, r: System)
    requires Conserved(s)
    requires forall e :: Known(r.wheel, e) + r.stopped[e] == r.added[e]
    requires forall e :: Held(r.wheel.levels, e) <= Held(s.wheel.levels, e)
    ensures Conserved(r)
  {
    hide Known;
    assert forall e :: Held(r.wheel.levels, e) > 0 ==> Held(s.wheel.levels, e) > 0;
  }

  lemma CancelConserves(s: System, j: nat, x: nat, i: nat, tick: int)
    requires SysInv(s, tick) && Enabled(s, Cancel(j, x, i))
    ensures Conserved(Do(s, Cancel(j, x, i)))
  {
    var st, r := s.wheel, Do(s, Cancel(j, x, i));
    var e := At(st, j, x).timers[i];
    assert Geometry(st);
    hide RemoveTimer, Inv, LogOk, Geometry;
    forall f
      ensures Known(r.wheel, f) + r.stopped[f] == r.added[f]
      ensures Held(r.wheel.levels, f) <= Held(st.levels, f)
    {
      RemoveHolds(st, j, x, i, f);
      assert Known(st, f) + s.stopped[f] == s.added[f];
    }
    StillConserved(s, r);
  }

  lemma CancelKeeps(s: System, j: nat, x: nat, i: nat, tick: int)
    requires SysInv(s, tick) && Enabled(s, Cancel(j, x, i))
    ensures SysInv(Do(s, Cancel(j, x, i)), tick)
  {
    RemoveKeepsInv(s.wheel, Idle, j, x, i);
    CancelConserves(s, j, x, i, tick);
    hide Inv, LogOk, Conserved;
  }

  lemma LogExtends(a: seq<Firing>, b: seq<Firing>, tick: int, clock: int, later: int)
    requires LogOk(a, tick, clock) && clock <= later
    requires |a| <= |b| && b[..|a|] == a && FiredOnTime(b[|a|..], tick, later)
    ensures LogOk(b, tick, later)
  {
    forall i: nat | i < |b|
      ensures StartedOk(b[i], tick, later)
      ensures i < |a| ==> b[i].clock <= clock
      ensures i >= |a| ==> b[i].clock == later
    {
      if i < |a| {
        assert b[i] == a[i] && StartedOk(a[i], tick, clock);
      } else {
        assert b[i] == b[|a|..][i - |a|];
      }
    }
    forall i: nat, j: nat | i < j < |b|
      ensures b[i].clock <= b[j].clock
    {
      if j < |a| { assert b[i] == a[i] && b[j] == a[j]; }
    }
  }

  lemma TurnConserves(s: System, q: Queued, tick: int)
    requires SysInv(s, tick) && Enabled(s, Turn(q))
    ensures Conserved(Do(s, Turn(q)))
  {
    TurnKeepsInv(s.wheel, q);
    var r := Do(s, Turn(q));
    hide Expire, Inv, LogOk, FiredOnTime;
    forall e
      ensures Known(r.wheel, e) + r.stopped[e] == r.added[e]
      ensures Held(r.wheel.levels, e) <= Held(s.wheel.levels, e)
    {
      assert Known(s.wheel, e) + s.stopped[e] == s.added[e];
    }
    StillConserved(s, r);
  }

  lemma TurnKeeps(s: System, q: Queued, tick: int)
    requires SysInv(s, tick) && Enabled(s, Turn(q))
    ensures SysInv(Do(s, Turn(q)), tick)
  {
    TurnKeepsInv(s.wheel, q);
    TurnConserves(s, q, tick);
    var r := Do(s, Turn(q));
    hide Expire, Inv, LogOk, FiredOnTime, Conserved, Accounted, Work;
    LogExtends(s.wheel.fired, r.wheel.fired, tick, s.wheel.levels[0].clock, q.priority);
  }

  /** Every step keeps the invariant of the whole system. */
  lemma StepKeepsInv(s: System, step: Step, tick: int)
    requires SysInv(s, tick) && Enabled(s, step)
    ensures SysInv(Do(s, step), tick)
  {
    match step
    case Tick(to) =>
    case Arrive(e) => ArriveKeeps(s, e, tick);
    case Cancel(j, x, i) => CancelKeeps(s, j, x, i, tick);
    case Turn(q) => TurnKeeps(s, q, tick);
  }

  lemma LogOnlyGrows(s: System, step: Step, tick: int)
    requires SysInv(s, tick) && Enabled(s, step)
    ensures s.wheel.fired <= Do(s, step).wheel.fired
  {
    match step
    case Tick(_) =>
    case Arrive(e) => var ran := ArrivalMeans(s.wheel, e);
    case Cancel(_, _, _) =>
    case Turn(q) => TurnKeepsInv(s.wheel, q);
  }

  // ----- runs -----

  ghost predicate Next(s: System, step: Step, t: System) {
    Inv(s.wheel, Idle) && Enabled(s, step) && t == Do(s, step)
  }

  ghost predicate IsRun(states: seq<System>, steps: seq<Step>) {
    |states| == |steps| + 1 && forall i: nat | i < |steps| :: Next(states[i], steps[i], states[i + 1])
  }

  lemma RunStep(states: seq<System>, steps: seq<Step>, i: nat)
    requires IsRun(states, steps) && i + 1 < |states|
    ensures |states| == |steps| + 1
    ensures Inv(states[i].wheel, Idle) && Enabled(states[i], steps[i])
    ensures states[i + 1] == Do(states[i], steps[i])
  {
    hide Inv, Enabled, Do;
    assert Next(states[i], steps[i], states[i + 1]);
  }

  lemma RunGoesOn(states: seq<System>, steps: seq<Step>, step: Step)
    requires IsRun(states, steps) && states != []
    requires Inv(states[|states| - 1].wheel, Idle) && Enabled(states[|states| - 1], step)
    ensures IsRun(states + [Do(states[|states| - 1], step)], steps + [step])
  {
    hide Inv, Enabled, Do;
    var more, all := states + [Do(states[|states| - 1], step)], steps + [step];
    forall i: nat | i < |all|
      ensures Next(more[i], all[i], more[i + 1])
    {
      if i < |steps| { assert Next(states[i], steps[i], states[i + 1]); }
    }
  }

  lemma {:induction false} RunKeepsInv(states: seq<System>, steps: seq<Step>, tick: int, i: nat)
    requires IsRun(states, steps) && SysInv(states[0], tick) && i < |states|
    ensures SysInv(states[i], tick)
    decreases i
  {
    hide *;
    if i > 0 {
      RunStep(states, steps, i - 1);
      RunKeepsInv(states, steps, tick, i - 1);
      StepKeepsInv(states[i - 1], steps[i - 1], tick);
    }
  }

  /** Along a run the log only grows. */
  lemma {:induction false} RunLogGrows(states: seq<System>, steps: seq<Step>, tick: int, first: nat, last: nat)
    requires IsRun(states, steps) && SysInv(states[0], tick) && first <= last < |states|
    ensures states[first].wheel.fired <= states[last].wheel.fired
    decreases last
  {
    hide SysInv, Inv, Do, Enabled, Next;
    if first < last {
      RunStep(states, steps, last - 1);
      RunKeepsInv(states, steps, tick, last - 1);
      LogOnlyGrows(states[last - 1], steps[last - 1], tick);
      RunLogGrows(states, steps, tick, first, last - 1);
    }
  }

  /** The event loop has nothing left to do at time `now`. */
  predicate Drained(s: System) {
    forall q | q in s.wheel.queue :: q.priority > s.now
  }

  /** In the flat calendar: due at `now` when the truncated expiration has been reached. */
  predicate DueInCalendar(e: Entry, tick: int, now: int) {
    Truncate(e.at, tick) <= now
  }

  /** A timer that is still held belongs to a bucket that expires no later than the timer is due. */
  lemma HeldIsQueued(st: State, e: Entry) returns (q: Queued)
    requires Inv(st, Idle) && Held(st.levels, e) > 0
    ensures q in st.queue && q.priority <= Truncate(e.at, st.levels[0].tick)
  {
    var j, s := WhereIs(st.levels, e);
    assert InRange(st, j, s) && BucketOk(st, j, s) && Enqueued(st, Idle, j, s);
    q := Queued(j, s, At(st, j, s).expiration);
    assert ItemOk(st, Idle, q);
    var k := TickDivides(st, 0, j);
    var tick := st.levels[0].tick;
    assert LevelOk(st, 0);
    AlignedToFactor(q.priority, tick, k);
    TruncateMeans(e.at, tick, Truncate(e.at, tick));
    if Truncate(e.at, tick) < q.priority {
      AlignedGap(Truncate(e.at, tick), q.priority, tick);
    }
  }

  lemma {:induction false} FiredIsLogged(fs: seq<Firing>, e: Entry) returns (f: Firing)
    requires FiredCount(fs, e) > 0
    ensures f in fs && f.entry == e
  {
    f := fs[|fs| - 1];
    if f.entry != e {
      f := FiredIsLogged(fs[..|fs| - 1], e);
    }
  }

  lemma DrainedIsCalendar(s: System, tick: int, e: Entry)
    requires SysInv(s, tick) && Drained(s)
    ensures if DueInCalendar(e, tick, s.now)
            then FiredCount(s.wheel.fired, e) + s.stopped[e] == s.added[e]
            else FiredCount(s.wheel.fired, e) == 0 && Held(s.wheel.levels, e) + s.stopped[e] == s.added[e]
  {
    assert Known(s.wheel, e) + s.stopped[e] == s.added[e];
    if Held(s.wheel.levels, e) > 0 {
      var q := HeldIsQueued(s.wheel, e);
      assert !DueInCalendar(e, tick, s.now);
    }
    if FiredCount(s.wheel.fired, e) > 0 {
      var f := FiredIsLogged(s.wheel.fired, e);
      assert StartedOk(f, tick, s.wheel.levels[0].clock);
    }
  }

  /**
   The wheel refines the flat calendar. On every run, whatever the wheel size, the number of levels
   and the interleaving: whenever the queue is drained at `now`, exactly the timers that were added,
   not stopped, and are due in the calendar have fired, each as often as it was added.
   */
  lemma WheelRefinesCalendar(tick: int, size: nat, start: int, states: seq<System>, steps: seq<Step>, i: nat, e: Entry)
    requires tick >= 1 && size >= 2 && start >= 0
    requires IsRun(states, steps) && states[0] == Start(tick, size, start)
    requires i < |states| && Drained(states[i])
    ensures var s := states[i];
            if DueInCalendar(e, tick, s.now)
            then FiredCount(s.wheel.fired, e) + s.stopped[e] == s.added[e]
            else FiredCount(s.wheel.fired, e) == 0 && Held(s.wheel.levels, e) + s.stopped[e] == s.added[e]
  {
    StartInv(tick, size, start);
    RunKeepsInv(states, steps, tick, i);
    DrainedIsCalendar(states[i], tick, e);
  }

  /** Two wheels of different sizes that saw the same timers have fired the same tasks. */
  lemma SizeDoesNotMatter(a: System, b: System, tick: int, e: Entry)
    requires SysInv(a, tick) && SysInv(b, tick) && Drained(a) && Drained(b)
    requires a.now == b.now && a.added == b.added && a.stopped == b.stopped
    ensures FiredCount(a.wheel.fired, e) == FiredCount(b.wheel.fired, e)
  {
    DrainedIsCalendar(a, tick, e);
    DrainedIsCalendar(b, tick, e);
  }

  /**
   On every run, drained or not: the log is ordered. Nothing starts early, tasks that come from
   buckets start in the order of their truncated expirations, and every timer that was added is
   held, fired or stopped, counted exactly.
   */
  lemma FiringOrder(tick: int, size: nat, start: int, states: seq<System>, steps: seq<Step>, i: nat)
    requires tick >= 1 && size >= 2 && start >= 0
    requires IsRun(states, steps) && states[0] == Start(tick, size, start) && i < |states|
    ensures var s := states[i];
            var fired := s.wheel.fired;
            && (forall f | f in fired :: Truncate(f.entry.at, tick) <= f.clock <= s.now)
            && (forall a: nat, b: nat | a < b < |fired| && fired[a].cause == fired[b].cause == OnFlush ::
                  Truncate(fired[a].entry.at, tick) <= Truncate(fired[b].entry.at, tick))
            && (forall e :: Held(s.wheel.levels, e) + FiredCount(fired, e) + s.stopped[e] == s.added[e])
            && (forall e :: Held(s.wheel.levels, e) <= 1)
  {
    StartInv(tick, size, start);
    RunKeepsInv(states, steps, tick, i);
    LogMeans(states[i], tick);
  }

  lemma LogMeans(s: System, tick: int)
    requires SysInv(s, tick)
    ensures var fired := s.wheel.fired;
            && (forall f | f in fired :: Truncate(f.entry.at, tick) <= f.clock <= s.now)
            && (forall a: nat, b: nat | a < b < |fired| && fired[a].cause == fired[b].cause == OnFlush ::
                  Truncate(fired[a].entry.at, tick) <= Truncate(fired[b].entry.at, tick))
            && (forall e :: Held(s.wheel.levels, e) + FiredCount(fired, e) + s.stopped[e] == s.added[e])
            && (forall e :: Held(s.wheel.levels, e) <= 1)
  {
    var fired, clock := s.wheel.fired, s.wheel.levels[0].clock;
    assert forall e :: Known(s.wheel, e) + s.stopped[e] == s.added[e];
    hide Inv;
    forall f | f in fired
      ensures Truncate(f.entry.at, tick) <= f.clock <= s.now
    {
      assert StartedOk(f, tick, clock);
    }
    forall a: nat, b: nat | a < b < |fired| && fired[a].cause == fired[b].cause == OnFlush
      ensures Truncate(fired[a].entry.at, tick) <= Truncate(fired[b].entry.at, tick)
    {
      assert StartedOk(fired[a], tick, clock) && StartedOk(fired[b], tick, clock);
    }
  }

  /** A timer that is not held and does not arrive again is neither held nor fired by a step. */
  lemma StepLeavesGone(s: System, step: Step, tick: int, e: Entry)
    requires SysInv(s, tick) && Enabled(s, step) && step != Arrive(e)
    requires Held(s.wheel.levels, e) == 0
    ensures Held(Do(s, step).wheel.levels, e) == 0
    ensures FiredCount(Do(s, step).wheel.fired, e) == FiredCount(s.wheel.fired, e)
  {
    match step
    case Tick(_) =>
    case Arrive(f) =>
      ArrivalCounts(s.wheel, f, e);
      assert Known(s.wheel, e) == FiredCount(s.wheel.fired, e);
      ArrivalKeepsFired(s.wheel, f, e);
    case Cancel(j, x, i) => RemoveHolds(s.wheel, j, x, i, e);
    case Turn(q) =>
      TurnKeepsInv(s.wheel, q);
      hide Expire, Inv, Conserved, LogOk;
      assert Known(Expire(s.wheel, q), e) == Known(s.wheel, e);
  }

  lemma ArrivalKeepsFired(st: State, f: Entry, e: Entry)
    requires Inv(st, Idle) && e != f
    ensures FiredCount(AddOrRun(st, f, OnArrival).fired, e) == FiredCount(st.fired, e)
  {
    var ran := ArrivalMeans(st, f);
    hide AddOrRun, Inv;
    FiredAppend(st.fired, Firing(f, st.levels[0].clock, OnArrival), e);
  }

  /**
   A stopped timer never fires: after it has been cancelled, for as long as it is not added again, its
   firings do not increase, although the bucket it was in is still queued and flushed.
   */
  lemma {:induction false} StoppedNeverFires(states: seq<System>, steps: seq<Step>, tick: int,
                                             at: nat, later: nat, j: nat, x: nat, i: nat)
    requires IsRun(states, steps) && |states| == |steps| + 1 && SysInv(states[0], tick)
    requires at < later < |states| && steps[at] == Cancel(j, x, i)
    requires InRange(states[at].wheel, j, x) && i < |At(states[at].wheel, j, x).timers|
    requires forall k: nat | at < k < later :: steps[k] != Arrive(At(states[at].wheel, j, x).timers[i])
    ensures var e := At(states[at].wheel, j, x).timers[i];
            && Held(states[at].wheel.levels, e) == 1 && Held(states[later].wheel.levels, e) == 0
            && FiredCount(states[later].wheel.fired, e) == FiredCount(states[at].wheel.fired, e)
    decreases later
  {
    hide SysInv, Inv, Do, Enabled, IsRun, Next;
    RunStep(states, steps, later - 1);
    RunKeepsInv(states, steps, tick, later - 1);
    var e := At(states[at].wheel, j, x).timers[i];
    if at + 1 == later {
      CancelTakesOut(states[at], j, x, i, tick);
    } else {
      StoppedNeverFires(states, steps, tick, at, later - 1, j, x, i);
      StepLeavesGone(states[later - 1], steps[later - 1], tick, e);
    }
  }

  lemma CancelTakesOut(s: System, j: nat, x: nat, i: nat, tick: int)
    requires SysInv(s, tick) && Enabled(s, Cancel(j, x, i))
    requires InRange(s.wheel, j, x) && i < |At(s.wheel, j, x).timers|
    ensures var e := At(s.wheel, j, x).timers[i];
            && Held(s.wheel.levels, e) == 1 && Held(Do(s, Cancel(j, x, i)).wheel.levels, e) == 0
            && Do(s, Cancel(j, x, i)).wheel.fired == s.wheel.fired
  {
    var e := At(s.wheel, j, x).timers[i];
    RemoveHolds(s.wheel, j, x, i, e);
    PutBucketHeld(s.wheel, j, x, At(s.wheel, j, x), e);
    assert e in At(s.wheel, j, x).timers;
  }

  // ----- draining -----

  /** A run of turns only, such as the event loop makes while the clock stands still. */
  ghost predicate IsDrain(states: seq<System>, qs: seq<Queued>) {
    |states| == |qs| + 1 && forall i: nat | i < |qs| :: Next(states[i], Turn(qs[i]), states[i + 1])
  }

  /** Draining ends: it takes at most one turn per queue item and per level above a held timer. */
  lemma {:induction false} DrainIsBounded(states: seq<System>, qs: seq<Queued>)
    requires IsDrain(states, qs)
    ensures |qs| <= Work(states[0].wheel)
    decreases |qs|
  {
    MovesNotNegative(states[0].wheel.levels);
    if qs != [] {
      assert Next(states[0], Turn(qs[0]), states[0 + 1]);
      TurnKeepsInv(states[0].wheel, qs[0]);
      assert IsDrain(states[1..], qs[1..]) by {
        forall i: nat | i < |qs[1..]|
          ensures Next(states[1..][i], Turn(qs[1..][i]), states[1..][i + 1])
        {
          assert Next(states[i + 1], Turn(qs[i + 1]), states[i + 1 + 1]);
        }
      }
      DrainIsBounded(states[1..], qs[1..]);
    }
  }

  lemma {:induction false} HasEarliest(queue: multiset<Queued>) returns (q: Queued)
    requires queue != multiset{}
    ensures q in queue && forall p | p in queue :: q.priority <= p.priority
    decreases |queue|
  {
    q :| q in queue;
    var rest := queue - multiset{q};
    assert forall x | x in queue :: x == q || x in rest;
    if rest != multiset{} {
      var p := HasEarliest(rest);
      if p.priority < q.priority { q := p; }
    }
  }

  /** The loop never stops too soon: while anything is due, some turn is enabled. */
  lemma DrainGoesOn(s: System)
    ensures !Drained(s) <==> exists q :: Enabled(s, Turn(q))
  {
    if !Drained(s) {
      var q := HasEarliest(s.wheel.queue);
      assert Enabled(s, Turn(q));
    }
  }

  // ----- a timer only ever moves down -----

  /** Bucket (i, x) is bucket (j, y) or lies on a strictly lower level. */
  predicate NotAbove(i: nat, x: nat, j: nat, y: nat) {
    i < j || (i, x) == (j, y)
  }

  /** A step leaves a held timer where it is or puts it on a strictly lower level. */
  lemma StepOnlyDown(s: System, step: Step, tick: int, i: nat, x: nat, e: Entry)
    requires SysInv(s, tick) && Enabled(s, step)
    requires Inside(Do(s, step).wheel, i, x, e)
    requires step.Arrive? ==> step.e != e
    ensures exists j: nat, y: nat :: Inside(s.wheel, j, y, e) && NotAbove(i, x, j, y)
  {
    var st, r := s.wheel, Do(s, step).wheel;
    match step
    case Tick(_) =>
      assert Inside(st, i, x, e);
    case Cancel(j, y, k) =>
      RemoveInside(st, j, y, k, i, x, e);
    case Turn(q) =>
      TurnKeepsInv(st, q);
      TurnMovesOnlyDown(st, q);
      hide Expire, Popped, Inv, Conserved, LogOk;
      assert Inside(st, i, x, e) || (i < q.level && Inside(st, q.level, q.slot, e));
    case Arrive(f) =>
      ArriveInside(st, f, i, x, e);
  }

  lemma RemoveInside(st: State, j: nat, y: nat, k: nat, i: nat, x: nat, e: Entry)
    requires Geometry(st) && InRange(st, j, y) && k < |At(st, j, y).timers|
    requires Inside(RemoveTimer(st, j, y, k), i, x, e)
    ensures Inside(st, i, x, e)
  {
    var ts := At(st, j, y).timers;
    assert forall f | f in ts[..k] + ts[k + 1..] :: f in ts;
  }

  lemma ArriveInside(st: State, f: Entry, i: nat, x: nat, e: Entry)
    requires Inv(st, Idle) && e != f && Inside(AddOrRun(st, f, OnArrival), i, x, e)
    ensures Inside(st, i, x, e)
  {
    if f.at >= st.levels[0].clock + st.levels[0].tick {
      var m, g := AddPlaces(st, Idle, 0, f);
      ArriveElsewhere(st, g, m, f, i, x, e);
    }
  }

  lemma ArriveElsewhere(st: State, g: State, m: nat, f: Entry, i: nat, x: nat, e: Entry)
    requires Inv(st, Idle) && Inv(g, Idle) && Grown(st, g) && Fits(g, m, f) && LevelOk(g, m)
    requires e != f && Inside(InsertAt(g, m, f), i, x, e)
    ensures Inside(st, i, x, e)
  {
    assert Inside(g, i, x, e) by {
      if i == m { assert e in At(g, i, x).timers + [f] ==> e in At(g, i, x).timers; }
    }
    if i < |st.levels| {
      assert g.levels[..|st.levels|][i] == st.levels[i];
    } else {
      GrownLevelsAreEmpty(st, g, i, x, e);
    }
  }

  lemma {:induction false} HeldPrefix(levels: seq<Level>, n: nat, e: Entry)
    requires n <= |levels|
    ensures Held(levels[..n], e) <= Held(levels, e)
    ensures forall i: nat, x: nat | n <= i < |levels| && x < |levels[i].buckets| && e in levels[i].buckets[x].timers ::
              Held(levels[..n], e) < Held(levels, e)
    decreases |levels|
  {
    if n < |levels| {
      var m := |levels| - 1;
      HeldPrefix(levels[..m], n, e);
      assert levels[..m][..n] == levels[..n];
      forall x: nat | x < |levels[m].buckets| && e in levels[m].buckets[x].timers
        ensures CountIn(levels[m].buckets, e) > 0
      {
        CountPut(levels[m].buckets, x, levels[m].buckets[x], e);
      }
    } else {
      assert levels[..n] == levels;
    }
  }

  lemma GrownLevelsAreEmpty(st: State, g: State, i: nat, x: nat, e: Entry)
    requires Grown(st, g) && |st.levels| <= i
    ensures !Inside(g, i, x, e)
  {
    HeldPrefix(g.levels, |st.levels|, e);
  }

  /** The bucket that a timer is in: its level and its slot. */
  datatype Place = Place(level: nat, slot: nat)

  lemma TwoPlaces(st: State, i: nat, x: nat, j: nat, y: nat, e: Entry)
    requires Inside(st, i, x, e) && Inside(st, j, y, e) && (i, x) != (j, y)
    ensures Held(st.levels, e) >= 2
  {
    var r := PutBucket(st, i, x, Bucket(-1, []));
    PutBucketHeld(st, i, x, Bucket(-1, []), e);
    assert At(r, j, y) == At(st, j, y);
    PutBucketHeld(r, j, y, At(r, j, y), e);
  }

  lemma OnePlace(s: System, tick: int, i: nat, x: nat, j: nat, y: nat, e: Entry)
    requires SysInv(s, tick) && Inside(s.wheel, i, x, e) && Inside(s.wheel, j, y, e)
    ensures (i, x) == (j, y)
  {
    if (i, x) != (j, y) {
      TwoPlaces(s.wheel, i, x, j, y, e);
    }
  }

  /** How often the timer went to another bucket. */
  function Changes(places: seq<Place>): nat {
    if |places| <= 1 then 0
    else Changes(places[..|places| - 1]) + (if places[|places| - 2] == places[|places| - 1] then 0 else 1)
  }

  lemma OnePlaceNoChange(p: Place)
    ensures Changes([p]) == 0
  {
  }

  lemma OneMoreChange(places: seq<Place>, p: Place)
    requires places != []
    ensures Changes(places + [p]) == Changes(places) + if places[|places| - 1] == p then 0 else 1
  {
    assert (places + [p])[..|places|] == places;
  }

  /** Of all buckets, the timer is in the one at this place. */
  ghost predicate IsIn(s: System, e: Entry, p: Place) {
    Inside(s.wheel, p.level, p.slot, e) && forall j: nat, y: nat :: Inside(s.wheel, j, y, e) ==> p == Place(j, y)
  }

  lemma InsideIsIn(s: System, tick: int, i: nat, x: nat, e: Entry)
    requires SysInv(s, tick) && Inside(s.wheel, i, x, e)
    ensures IsIn(s, e, Place(i, x))
  {
    forall j: nat, y: nat | Inside(s.wheel, j, y, e)
      ensures Place(i, x) == Place(j, y)
    {
      OnePlace(s, tick, i, x, j, y, e);
    }
  }

  /**
   Follow a timer that is held at the moment `last` back to any moment `first` since which it has not
   been added: at each moment it was in exactly one bucket, it never rose, and it changed bucket at
   most once for each level that it has come down. A timer on level k moves at most k times.
   */
  lemma {:induction false} LevelNeverRises(states: seq<System>, steps: seq<Step>, tick: int,
                                           first: nat, last: nat, i: nat, x: nat, e: Entry)
    returns (places: seq<Place>)
    requires IsRun(states, steps) && SysInv(states[0], tick) && first <= last < |states|
    requires |states| == |steps| + 1
    requires forall k: nat | first <= k < last :: steps[k] != Arrive(e)
    requires Inside(states[last].wheel, i, x, e)
    ensures |places| == last - first + 1 && places[last - first] == Place(i, x)
    ensures forall k: nat | k < |places| :: IsIn(states[first + k], e, places[k])
    ensures forall k: nat | 0 < k < |places| :: places[k].level <= places[k - 1].level
    ensures Changes(places) + i <= places[0].level
    decreases last
  {
    hide Inv, SysInv, Do, Enabled, Inside, IsRun, Next, IsIn, Changes;
    OnePlaceNoChange(Place(i, x));
    RunKeepsInv(states, steps, tick, last);
    InsideIsIn(states[last], tick, i, x, e);
    if first == last {
      places := [Place(i, x)];
    } else {
      RunStep(states, steps, last - 1);
      RunKeepsInv(states, steps, tick, last - 1);
      StepOnlyDown(states[last - 1], steps[last - 1], tick, i, x, e);
      var j: nat, y: nat :| Inside(states[last - 1].wheel, j, y, e) && NotAbove(i, x, j, y);
      var before := LevelNeverRises(states, steps, tick, first, last - 1, j, y, e);
      places := before + [Place(i, x)];
      OneMoreChange(before, Place(i, x));
    }
  }
}
