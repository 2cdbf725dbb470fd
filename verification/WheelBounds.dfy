/** How high the stack of levels grows, when its recursion ends, and why 64-bit integers suffice. */
module WheelBounds {
  import opened Truncation
  import opened WheelModel
  import opened WheelInvariant
  import opened WheelCascade
  import opened WheelRuns

  function Pow(base: int, n: nat): int {
    if n == 0 then 1 else base * Pow(base, n - 1)
  }

  /** Level j ticks once per tick * size^j milliseconds. */
  lemma {:induction false} TickIsPower(st: State, j: nat)
    requires Geometry(st) && j < |st.levels|
    ensures st.levels[j].tick == st.levels[0].tick * Pow(st.size, j)
    decreases j
  {
    if j > 0 {
      TickIsPower(st, j - 1);
      assert TickStep(st, j);
      var a, p, w := st.levels[0].tick, Pow(st.size, j - 1), st.size;
      assert (a * p) * w == a * (w * p);
    }
  }

  lemma StepSize(s: System, step: Step)
    requires Inv(s.wheel, Idle) && Enabled(s, step)
    ensures Do(s, step).wheel.size == s.wheel.size
  {
    if step.Turn? {
      TurnKeepsInv(s.wheel, step.q);
    }
  }

  /** The wheels of a run have as many buckets as the wheel that it starts with. */
  lemma {:induction false} RunSize(states: seq<System>, steps: seq<Step>, tick: int, i: nat)
    requires IsRun(states, steps) && SysInv(states[0], tick) && i < |states|
    ensures states[i].wheel.size == states[0].wheel.size
    decreases i
  {
    hide SysInv, Inv, Do, Enabled;
    if i > 0 {
      RunStep(states, steps, i - 1);
      RunSize(states, steps, tick, i - 1);
      StepSize(states[i - 1], steps[i - 1]);
    }
  }

  /**
   The shape of the wheel on every run: every level has `size` buckets, level j ticks once per
   tick * size^j and shows the base clock truncated to that; a bucket is at rest, empty and not
   queued, or it is in the queue exactly once, with the multiple of its level's tick that its slot
   stands for, and holds only timers of that tick.
   */
  lemma EveryBucketOnEveryRun(tick: int, size: nat, start: int, states: seq<System>, steps: seq<Step>,
                              i: nat, j: nat, s: nat)
    requires tick >= 1 && size >= 2 && start >= 0
    requires IsRun(states, steps) && states[0] == Start(tick, size, start) && i < |states|
    requires InRange(states[i].wheel, j, s)
    ensures var st := states[i].wheel;
            var l, b, base := st.levels[j], At(st, j, s), st.levels[0].clock;
            && st.size == size && |l.buckets| == size
            && l.tick >= 1 && l.tick == tick * Pow(size, j) && l.clock == Truncate(base, l.tick)
            && (if b.expiration == -1 then
                  b.timers == [] && forall q | q in st.queue :: (q.level, q.slot) != (j, s)
                else
                  && Aligned(b.expiration, l.tick) && Slot(b.expiration, l.tick, size) == s
                  && base <= b.expiration < l.clock + l.tick * size
                  && (forall e | e in b.timers :: b.expiration <= e.at < b.expiration + l.tick)
                  && st.queue[Queued(j, s, b.expiration)] == 1
                  && forall q | q in st.queue :: (q.level, q.slot) == (j, s) ==> q.priority == b.expiration)
  {
    StartInv(tick, size, start);
    RunKeepsInv(states, steps, tick, i);
    RunSize(states, steps, tick, i);
    SysInvMeans(states[i], tick);
    var st := states[i].wheel;
    TickIsPower(st, j);
    assert LevelOk(st, j) && BucketOk(st, j, s) && Enqueued(st, Idle, j, s);
    forall q | q in st.queue && (q.level, q.slot) == (j, s)
      ensures q.priority == At(st, j, s).expiration && q.priority != -1
    {
      assert ItemOk(st, Idle, q);
    }
  }

  /**
   add chooses the lowest level that reaches far enough, and only the base level can find a timer
   expired; a timer put on level m >= 1 lies more than size - 1 ticks of level m - 1 ahead.
   */
  lemma PlacedFarAhead(st: State, e: Entry) returns (m: nat, g: State)
    requires Inv(st, Idle) && st.levels[0].clock + st.levels[0].tick <= e.at
    ensures Grown(st, g) && Inv(g, Idle) && Fits(g, m, e)
    ensures LevelOk(g, m) && AddOrRun(st, e, OnArrival) == InsertAt(g, m, e)
    ensures forall i: nat | i < m :: Horizon(g, i) <= e.at
    ensures |g.levels| == if m < |st.levels| then |st.levels| else m + 1
    ensures m >= 1 ==>
      e.at - st.levels[0].clock > st.levels[0].tick * Pow(st.size, m - 1) * (st.size - 1)
  {
    m, g := AddPlaces(st, Idle, 0, e);
    SameBase(st, g);
    hide Inv, Grown, Add, Fits, Held;
    if m >= 1 {
      assert Horizon(g, m - 1) <= e.at;
      BeyondLevel(g, m - 1, e);
    }
  }

  lemma SameBase(st: State, g: State)
    requires Inv(g, Idle) && Grown(st, g) && st.levels != []
    ensures Geometry(g) && g.size == st.size && g.levels[0] == st.levels[0]
  {
    assert g.levels[..|st.levels|][0] == st.levels[0];
  }

  /** What lies beyond the horizon of level k is more than size - 1 of its ticks ahead of the base clock. */
  lemma BeyondLevel(st: State, k: nat, e: Entry)
    requires Geometry(st) && k < |st.levels| && Horizon(st, k) <= e.at
    ensures e.at - st.levels[0].clock > st.levels[0].tick * Pow(st.size, k) * (st.size - 1)
  {
    TickIsPower(st, k);
    ClockBounds(st, k);
    Distribute(st.levels[k].tick, st.size, 1);
  }

  // ----- the recursion of add -----

  /** The level that add reaches after n overflows, when every level above is still to be created. */
  function Tower(l: Level, size: nat, n: nat): Level
    decreases n
  {
    if n == 0 then l else Tower(NewLevel(l.tick * size, size, l.clock), size, n - 1)
  }

  function Reach(l: Level, size: nat): int {
    l.clock + l.tick * size
  }

  lemma {:induction false} TowerGrows(l: Level, size: nat, n: nat)
    requires size >= 2 && l.tick >= 1 && l.clock >= 0 && Truncate(l.clock, l.tick) == l.clock
    ensures Reach(Tower(l, size, n), size) >= Reach(l, size) + n
    decreases n
  {
    if n > 0 {
      var up := NewLevel(l.tick * size, size, l.clock);
      HorizonGrows(l.clock, l.tick, size);
      TruncateNested(l.clock, l.tick, size);
      TruncateMeans(l.clock, up.tick, up.clock);
      TruncateMeans(up.clock, up.tick, up.clock);
      TowerGrows(up, size, n - 1);
    }
  }

  lemma {:induction false} TowerOfOne(l: Level, n: nat)
    requires l.tick >= 1 && l.clock >= 0 && Truncate(l.clock, l.tick) == l.clock
    ensures Reach(Tower(l, 1, n), 1) == Reach(l, 1)
    decreases n
  {
    if n > 0 {
      TowerOfOne(NewLevel(l.tick * 1, 1, l.clock), n - 1);
    }
  }

  /** The overflow recursion of add ends for every expiration exactly when a level has two buckets. */
  lemma OverflowEndsIff(l: Level, size: nat, at: int)
    requires size >= 1 && l.tick >= 1 && l.clock >= 0 && Truncate(l.clock, l.tick) == l.clock
    requires at >= Reach(l, size)
    ensures (exists n: nat :: at < Reach(Tower(l, size, n), size)) <==> size >= 2
  {
    if size >= 2 {
      var n: nat := at - Reach(l, size) + 1;
      TowerGrows(l, size, n);
    } else {
      forall n: nat
        ensures at >= Reach(Tower(l, size, n), size)
      {
        TowerOfOne(l, n);
      }
    }
  }

  // ----- 64-bit arithmetic -----

  /** Every level above the base ticks no slower than once per x milliseconds. */
  predicate TicksWithin(st: State, x: int) {
    forall j: nat | 1 <= j < |st.levels| :: st.levels[j].tick <= x
  }

  lemma TicksDetermined(a: State, b: State, x: int)
    requires Geometry(a) && Geometry(b) && a.size == b.size && |a.levels| == |b.levels|
    requires a.levels[0].tick == b.levels[0].tick && TicksWithin(a, x)
    ensures TicksWithin(b, x)
  {
    forall j: nat | 1 <= j < |b.levels|
      ensures b.levels[j].tick <= x
    {
      TickIsPower(a, j);
      TickIsPower(b, j);
    }
  }

  lemma ArriveTicks(st: State, e: Entry, x: int)
    requires Inv(st, Idle) && TicksWithin(st, x) && e.at <= x
    ensures TicksWithin(AddOrRun(st, e, OnArrival), x)
  {
    if st.levels[0].clock + st.levels[0].tick <= e.at {
      var m, g := PlacedFarAhead(st, e);
      var r := InsertAt(g, m, e);
      forall j: nat | 1 <= j < |r.levels|
        ensures r.levels[j].tick <= x
      {
        if j < |st.levels| {
          assert g.levels[..|st.levels|][j] == st.levels[j];
        } else {
          assert TickStep(g, j) && LevelOk(g, j - 1);
          ClockBounds(g, j - 1);
          assert Horizon(g, j - 1) <= e.at;
        }
      }
    }
  }

  /** All expirations and clock readings of the step stay within x. */
  predicate StepWithin(step: Step, x: int) {
    match step
    case Tick(to) => to <= x
    case Arrive(e) => e.at <= x
    case _ => true
  }

  lemma StepTicks(s: System, step: Step, tick: int, x: int)
    requires SysInv(s, tick) && Enabled(s, step) && StepWithin(step, x)
    requires s.now <= x && TicksWithin(s.wheel, x)
    ensures Do(s, step).now <= x && TicksWithin(Do(s, step).wheel, x)
  {
    StepSize(s, step);
    StepKeepsInv(s, step, tick);
    match step
    case Tick(_) =>
    case Arrive(e) => ArriveTicks(s.wheel, e, x);
    case Cancel(_, _, _) => TicksDetermined(s.wheel, Do(s, step).wheel, x);
    case Turn(q) =>
      TurnKeepsInv(s.wheel, q);
      TicksDetermined(s.wheel, Do(s, step).wheel, x);
  }

  lemma {:induction false} RunTicks(states: seq<System>, steps: seq<Step>, tick: int, x: int, i: nat)
    requires IsRun(states, steps) && SysInv(states[0], tick) && |states| == |steps| + 1 && i < |states|
    requires states[0].now <= x && TicksWithin(states[0].wheel, x)
    requires forall k: nat | k < |steps| :: StepWithin(steps[k], x)
    ensures states[i].now <= x && TicksWithin(states[i].wheel, x)
    decreases i
  {
    hide Inv, SysInv, Do, Enabled, IsRun, Next, TicksWithin, StepWithin;
    if i > 0 {
      RunStep(states, steps, i - 1);
      RunKeepsInv(states, steps, tick, i - 1);
      RunTicks(states, steps, tick, x, i - 1);
      StepTicks(states[i - 1], steps[i - 1], tick, x);
    }
  }

  /**
   On every run whose clock readings and expirations stay within x, every sum and product that the
   levels compute (clock + tick, tick * size, clock + interval) stays within x + tick * size or
   (size + 1) * x: when these two fit an int64, nothing overflows.
   */
  lemma NothingOverflows(tick: int, size: nat, start: int, states: seq<System>, steps: seq<Step>,
                         x: int, i: nat, j: nat)
    requires tick >= 1 && size >= 2 && 0 <= start <= x
    requires IsRun(states, steps) && states[0] == Start(tick, size, start)
    requires |states| == |steps| + 1 && i < |states|
    requires forall k: nat | k < |steps| :: StepWithin(steps[k], x)
    requires j < |states[i].wheel.levels|
    ensures var st := states[i].wheel;
            && 0 <= st.levels[j].clock + st.levels[j].tick <= Horizon(st, j)
            && 0 <= Interval(st, j) <= Horizon(st, j)
            && (Horizon(st, j) <= x + tick * size || Horizon(st, j) <= (size + 1) * x)
  {
    hide Pow, Inv, IsRun, StepWithin;
    StartInv(tick, size, start);
    RunTicks(states, steps, tick, x, i);
    RunSize(states, steps, tick, i);
    RunKeepsInv(states, steps, tick, i);
    var st := states[i].wheel;
    SysInvMeans(states[i], tick);
    LevelWithin(st, j, x);
  }

  lemma SysInvMeans(s: System, tick: int)
    requires SysInv(s, tick)
    ensures Geometry(s.wheel) && s.wheel.levels[0].tick == tick && s.wheel.levels[0].clock <= s.now
  {
  }

  lemma LevelWithin(st: State, j: nat, x: int)
    requires Geometry(st) && j < |st.levels| && TicksWithin(st, x) && st.levels[0].clock <= x
    ensures 0 <= st.levels[j].clock + st.levels[j].tick <= Horizon(st, j)
    ensures 0 <= Interval(st, j) <= Horizon(st, j)
    ensures Horizon(st, j) <= (if j == 0 then x + st.levels[0].tick * st.size else (st.size + 1) * x)
  {
    ClockBounds(st, j);
    var l := st.levels[j];
    assert l.tick >= 1 by { assert LevelOk(st, j); }
    SmallMultiple(l.tick, st.size - 1);
    Distribute(l.tick, st.size, 1);
    NotNegativeProduct(l.tick, st.size - 1);
    if j > 0 {
      SmallMultipleOrder(st.size, l.tick, x);
      assert (st.size + 1) * x == st.size * x + x;
    }
  }

  lemma SmallMultipleOrder(m: int, a: int, b: int)
    requires m >= 0 && a <= b
    ensures m * a <= m * b
  {
    NotNegativeProduct(m, b - a);
    Distribute(m, b, a);
  }
}
