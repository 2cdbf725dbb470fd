/**
 The hierarchical timing wheel as a value: a stack of levels, each with its tick, its clock and
 its buckets, over one shared queue of buckets. The functions below follow add, addOrRun,
 advanceClock, Flush and Stop branch by branch; the classes of module TimingWheels are proved
 to compute them.
 */
module WheelModel {
  import opened Truncation

  /** A timer as the wheel sees it: its identity and its expiration in milliseconds. */
  datatype Entry = Entry(id: nat, at: int)

  /** `expiration` is -1 exactly while the bucket is not waiting in the queue. */
  datatype Bucket = Bucket(expiration: int, timers: seq<Entry>)

  datatype Level = Level(tick: int, clock: int, buckets: seq<Bucket>)

  /** A queue item: which bucket, and the priority it was offered with. */
  datatype Queued = Queued(level: nat, slot: nat, priority: int)

  /** Whether a task was started because its timer arrived late or because its bucket came due. */
  datatype Cause = OnArrival | OnFlush

  /** One start of a task; `clock` is the clock of the base level at that moment. */
  datatype Firing = Firing(entry: Entry, clock: int, cause: Cause)

  datatype State = State(size: int, levels: seq<Level>, queue: multiset<Queued>, fired: seq<Firing>)

  // ----- geometry -----

  predicate InRange(st: State, j: nat, s: nat) {
    j < |st.levels| && s < |st.levels[j].buckets|
  }

  function At(st: State, j: nat, s: nat): Bucket
    requires InRange(st, j, s)
  {
    st.levels[j].buckets[s]
  }

  /** Level j shows the base clock, truncated to its own tick. */
  predicate LevelOk(st: State, j: nat)
    requires j < |st.levels|
  {
    var l := st.levels[j];
    l.tick >= 1 && |l.buckets| == st.size && l.clock == Truncate(st.levels[0].clock, l.tick)
  }

  /** The tick of a level is the interval of the level below. */
  predicate TickStep(st: State, i: nat)
    requires 1 <= i < |st.levels|
  {
    st.levels[i].tick == st.levels[i - 1].tick * st.size
  }

  predicate Geometry(st: State) {
    && st.size >= 2
    && |st.levels| >= 1
    && st.levels[0].clock >= 0
    && (forall j: nat | j < |st.levels| :: LevelOk(st, j))
    && (forall i: nat | 1 <= i < |st.levels| :: TickStep(st, i))
  }

  function Interval(st: State, k: nat): int
    requires k < |st.levels|
  {
    st.levels[k].tick * st.size
  }

  /** The first instant that does not fit level k any more. */
  function Horizon(st: State, k: nat): int
    requires k < |st.levels|
  {
    st.levels[k].clock + Interval(st, k)
  }

  // ----- construction -----

  function NewLevel(tick: int, size: nat, start: int): Level {
    Level(tick, Truncate(start, tick), seq(size, _ => Bucket(-1, [])))
  }

  function NewWheel(tick: int, size: nat, start: int): State {
    State(size, [NewLevel(tick, size, start)], multiset{}, [])
  }

  /** The overflow wheel that the topmost level creates for itself. */
  function Grow(st: State): State
    requires |st.levels| >= 1 && st.size >= 0
  {
    var top := |st.levels| - 1;
    st.(levels := st.levels + [NewLevel(Interval(st, top), st.size, st.levels[top].clock)])
  }

  lemma TickDivides(st: State, i: nat, j: nat) returns (k: int)
    requires Geometry(st) && i <= j < |st.levels|
    ensures k >= 1 && st.levels[j].tick == st.levels[i].tick * k
    ensures i < j ==> k >= st.size
    decreases j
  {
    if i == j {
      k := 1;
    } else {
      var below := TickDivides(st, i, j - 1);
      assert TickStep(st, j);
      k := below * st.size;
      assert st.levels[i].tick * below * st.size == st.levels[i].tick * k;
      SmallMultiple(st.size, below - 1);
      assert k >= st.size by { assert st.size * (below - 1) >= 0; }
    }
  }

  lemma GrowKeepsGeometry(st: State)
    requires Geometry(st)
    ensures Geometry(Grow(st))
    ensures Horizon(st, |st.levels| - 1) < Horizon(Grow(st), |st.levels|)
  {
    var g, n := Grow(st), |st.levels|;
    var low, high := st.levels[n - 1], g.levels[n];
    assert LevelOk(st, n - 1);
    TruncateNested(st.levels[0].clock, low.tick, st.size);
    HorizonGrows(st.levels[0].clock, low.tick, st.size);
    assert high.clock == Truncate(g.levels[0].clock, high.tick);
    forall j: nat | j < |g.levels|
      ensures LevelOk(g, j)
    {
      if j < n { assert LevelOk(st, j); }
    }
    forall i: nat | 1 <= i < |g.levels|
      ensures TickStep(g, i)
    {
      if i < n { assert TickStep(st, i); }
    }
  }

  /** With at least two buckets a level, each level reaches further than the one below. */
  lemma HorizonGrows(clock: int, tick: int, size: int)
    requires clock >= 0 && tick >= 1 && size >= 2
    ensures tick * size >= 1
    ensures Truncate(clock, tick) + tick * size
            < Truncate(clock, tick * size) + tick * size * size
  {
    var wide := tick * size;
    SmallMultiple(tick, size - 1);
    Distribute(tick, size, 1);
    assert wide >= tick >= 1;
    TruncateMeans(clock, tick, Truncate(clock, tick));
    TruncateMeans(clock, wide, Truncate(clock, wide));
    assert wide * size == 2 * wide + wide * (size - 2);
    SmallMultiple(wide, size - 2);
  }

  // ----- add -----

  /** b.Add(t), b.SetExpiration and, when the expiration changed, queue.Offer. */
  function InsertAt(st: State, k: nat, e: Entry): State
    requires k < |st.levels| && st.levels[k].tick >= 1 && st.size >= 1
    requires |st.levels[k].buckets| == st.size
  {
    var l := st.levels[k];
    var s, expiration := Slot(e.at, l.tick, st.size), e.at / l.tick * l.tick;
    var b := l.buckets[s];
    var levels := st.levels[k := l.(buckets := l.buckets[s := Bucket(expiration, b.timers + [e])])];
    State(st.size, levels,
          if b.expiration != expiration then st.queue + multiset{Queued(k, s, expiration)} else st.queue,
          st.fired)
  }

  lemma InsertKeepsGeometry(st: State, k: nat, e: Entry)
    requires Geometry(st) && k < |st.levels| && LevelOk(st, k)
    ensures Geometry(InsertAt(st, k, e))
  {
    var r := InsertAt(st, k, e);
    forall j: nat | j < |r.levels|
      ensures LevelOk(r, j)
    {
      assert LevelOk(st, j);
    }
    forall i: nat | 1 <= i < |r.levels|
      ensures TickStep(r, i)
    {
      assert TickStep(st, i);
    }
  }

  datatype Added = Added(state: State, ok: bool)

  /** TimingWheel.add on level k: `ok` is false when the timer has already expired there. */
  function Add(st: State, k: nat, e: Entry): (r: Added)
    requires Geometry(st) && k < |st.levels|
    ensures Geometry(r.state)
    ensures r.state.size == st.size && |r.state.levels| >= |st.levels|
    decreases e.at - Horizon(st, k)
  {
    var l := st.levels[k];
    assert LevelOk(st, k);
    if e.at < l.clock + l.tick then
      Added(st, false)
    else if e.at < Horizon(st, k) then
      InsertKeepsGeometry(st, k, e);
      Added(InsertAt(st, k, e), true)
    else if k + 1 == |st.levels| then
      GrowKeepsGeometry(st);
      Add(Grow(st), k + 1, e)
    else
      HorizonGrowsAt(st, k);
      Add(st, k + 1, e)
  }

  lemma HorizonGrowsAt(st: State, k: nat)
    requires Geometry(st) && k + 1 < |st.levels|
    ensures Horizon(st, k) < Horizon(st, k + 1)
  {
    assert LevelOk(st, k) && LevelOk(st, k + 1) && TickStep(st, k + 1);
    HorizonGrows(st.levels[0].clock, st.levels[k].tick, st.size);
  }

  /** TimingWheel.addOrRun; running a task only records that it started. */
  function AddOrRun(st: State, e: Entry, cause: Cause): (r: State)
    requires Geometry(st)
    ensures Geometry(r) && r.size == st.size && |r.levels| >= |st.levels|
  {
    var added := Add(st, 0, e);
    if added.ok then
      added.state
    else
      var r := added.state.(fired := added.state.fired + [Firing(e, added.state.levels[0].clock, cause)]);
      assert Geometry(r) by { SameLevels(added.state, r); }
      r
  }

  lemma SameLevels(a: State, b: State)
    requires Geometry(a) && a.levels == b.levels && a.size == b.size
    ensures Geometry(b)
  {
    forall j: nat | j < |b.levels|
      ensures LevelOk(b, j)
    {
      assert LevelOk(a, j);
    }
    forall i: nat | 1 <= i < |b.levels|
      ensures TickStep(b, i)
    {
      assert TickStep(a, i);
    }
  }

  // ----- clock, flush, stop -----

  /** TimingWheel.advanceClock from level k upwards. */
  function Advance(levels: seq<Level>, k: nat, x: int): (r: seq<Level>)
    ensures |r| == |levels|
    decreases |levels| - k
  {
    if k < |levels| && x >= levels[k].clock + levels[k].tick then
      var clock := Truncate(x, levels[k].tick);
      Advance(levels[k := levels[k].(clock := clock)], k + 1, clock)
    else
      levels
  }

  function PutBucket(st: State, j: nat, s: nat, b: Bucket): State
    requires InRange(st, j, s)
  {
    st.(levels := st.levels[j := st.levels[j].(buckets := st.levels[j].buckets[s := b])])
  }

  lemma PutKeepsGeometry(st: State, j: nat, s: nat, b: Bucket)
    requires Geometry(st) && InRange(st, j, s)
    ensures Geometry(PutBucket(st, j, s, b))
  {
    var r := PutBucket(st, j, s, b);
    forall i: nat | i < |r.levels|
      ensures LevelOk(r, i)
    {
      assert LevelOk(st, i);
    }
    forall i: nat | 1 <= i < |r.levels|
      ensures TickStep(r, i)
    {
      assert TickStep(st, i);
    }
  }

  /** Bucket.remove of the timer at position i of its list. */
  function RemoveTimer(st: State, j: nat, s: nat, i: nat): (r: State)
    requires Geometry(st) && InRange(st, j, s) && i < |At(st, j, s).timers|
    ensures Geometry(r) && InRange(r, j, s) && r.size == st.size
  {
    var b := At(st, j, s);
    PutKeepsGeometry(st, j, s, b.(timers := b.timers[..i] + b.timers[i + 1..]));
    PutBucket(st, j, s, b.(timers := b.timers[..i] + b.timers[i + 1..]))
  }

  /** One round of the loop of Bucket.Flush: take the first timer out and reinsert it. */
  function ReinsertFirst(st: State, j: nat, s: nat): (r: State)
    requires Geometry(st) && InRange(st, j, s) && At(st, j, s).timers != []
    ensures Geometry(r) && InRange(r, j, s) && r.size == st.size
  {
    var e := At(st, j, s).timers[0];
    var r := AddOrRun(RemoveTimer(st, j, s, 0), e, OnFlush);
    assert LevelOk(st, j) && LevelOk(r, j);
    r
  }

  function Reinsert(st: State, j: nat, s: nat, n: nat): (r: State)
    requires Geometry(st) && InRange(st, j, s)
    ensures Geometry(r) && InRange(r, j, s) && r.size == st.size
    decreases n
  {
    if n == 0 || At(st, j, s).timers == [] then st else Reinsert(ReinsertFirst(st, j, s), j, s, n - 1)
  }

  /** Bucket.Flush: all timers that were in the list, then SetExpiration(-1). */
  function Flush(st: State, j: nat, s: nat): (r: State)
    requires Geometry(st) && InRange(st, j, s)
    ensures Geometry(r) && r.size == st.size
  {
    var r := Reinsert(st, j, s, |At(st, j, s).timers|);
    PutKeepsGeometry(r, j, s, At(r, j, s).(expiration := -1));
    PutBucket(r, j, s, At(r, j, s).(expiration := -1))
  }

  /** What the event loop does before the flush: take q off the queue and advance the clocks. */
  function Popped(st: State, q: Queued): State
    requires InRange(st, q.level, q.slot)
  {
    State(st.size, Advance(st.levels, 0, At(st, q.level, q.slot).expiration), st.queue - multiset{q}, st.fired)
  }

  /** One turn of the event loop for the queue item q. */
  function Expire(st: State, q: Queued): State
    requires InRange(st, q.level, q.slot)
    requires Geometry(Popped(st, q)) && InRange(Popped(st, q), q.level, q.slot)
  {
    Flush(Popped(st, q), q.level, q.slot)
  }

  /** q is a head that PeekAndShift(now) may return. */
  predicate Due(st: State, q: Queued, now: int) {
    q in st.queue && q.priority <= now && forall p | p in st.queue :: q.priority <= p.priority
  }
}
