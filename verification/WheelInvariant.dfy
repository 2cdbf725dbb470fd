/** What every step of the wheel keeps: buckets, queue, clocks, and the timers themselves. */
module WheelInvariant {
  import opened Truncation
  import opened WheelModel

  // ----- the timers held by the buckets, counted -----

  function CountIn(bs: seq<Bucket>, e: Entry): nat {
    if bs == [] then 0 else CountIn(bs[..|bs| - 1], e) + multiset(bs[|bs| - 1].timers)[e]
  }

  /** How often e is in the buckets of these levels. */
  function Held(levels: seq<Level>, e: Entry): nat {
    if levels == [] then 0
    else Held(levels[..|levels| - 1], e) + CountIn(levels[|levels| - 1].buckets, e)
  }

  /** How often e has fired. */
  function FiredCount(fs: seq<Firing>, e: Entry): nat {
    if fs == [] then 0 else FiredCount(fs[..|fs| - 1], e) + (if fs[|fs| - 1].entry == e then 1 else 0)
  }

  function TimerCount(bs: seq<Bucket>): nat {
    if bs == [] then 0 else TimerCount(bs[..|bs| - 1]) + |bs[|bs| - 1].timers|
  }

  /** The moves that the timers of these levels may still make: a timer on level j counts j. */
  function Moves(levels: seq<Level>): int {
    if levels == [] then 0
    else Moves(levels[..|levels| - 1]) + (|levels| - 1) * TimerCount(levels[|levels| - 1].buckets)
  }

  lemma {:induction false} CountPut(bs: seq<Bucket>, s: nat, b: Bucket, e: Entry)
    requires s < |bs|
    ensures CountIn(bs[s := b], e) == CountIn(bs, e) - multiset(bs[s].timers)[e] + multiset(b.timers)[e]
    ensures multiset(bs[s].timers)[e] <= CountIn(bs, e)
  {
    var n := |bs| - 1;
    if s == n {
      assert bs[s := b][..n] == bs[..n];
    } else {
      CountPut(bs[..n], s, b, e);
      assert bs[s := b][..n] == bs[..n][s := b];
    }
  }

  lemma {:induction false} TimerCountPut(bs: seq<Bucket>, s: nat, b: Bucket)
    requires s < |bs|
    ensures TimerCount(bs[s := b]) == TimerCount(bs) - |bs[s].timers| + |b.timers|
  {
    var n := |bs| - 1;
    if s == n {
      assert bs[s := b][..n] == bs[..n];
    } else {
      TimerCountPut(bs[..n], s, b);
      assert bs[s := b][..n] == bs[..n][s := b];
    }
  }

  lemma {:induction false} HeldPut(levels: seq<Level>, j: nat, l: Level, e: Entry)
    requires j < |levels|
    ensures Held(levels[j := l], e) == Held(levels, e) - CountIn(levels[j].buckets, e) + CountIn(l.buckets, e)
    ensures CountIn(levels[j].buckets, e) <= Held(levels, e)
  {
    var n := |levels| - 1;
    if j == n {
      assert levels[j := l][..n] == levels[..n];
    } else {
      HeldPut(levels[..n], j, l, e);
      assert levels[j := l][..n] == levels[..n][j := l];
    }
  }

  lemma OneMore(j: int, c: int)
    ensures j * (c + 1) == j * c + j
  {
  }

  lemma {:induction false} MovesPut(levels: seq<Level>, j: nat, l: Level, more: int)
    requires j < |levels| && -1 <= more <= 1
    requires TimerCount(l.buckets) == TimerCount(levels[j].buckets) + more
    ensures Moves(levels[j := l])
         == (if more == 1 then Moves(levels) + j else if more == 0 then Moves(levels) else Moves(levels) - j)
  {
    var n := |levels| - 1;
    if j == n {
      assert levels[j := l][..n] == levels[..n];
      OneMore(j, TimerCount(levels[j].buckets));
      OneMore(j, TimerCount(l.buckets));
    } else {
      MovesPut(levels[..n], j, l, more);
      assert levels[j := l][..n] == levels[..n][j := l];
    }
  }

  lemma PutBucketHeld(st: State, j: nat, s: nat, b: Bucket, e: Entry)
    requires InRange(st, j, s)
    ensures Held(PutBucket(st, j, s, b).levels, e)
         == Held(st.levels, e) - multiset(At(st, j, s).timers)[e] + multiset(b.timers)[e]
    ensures multiset(At(st, j, s).timers)[e] <= Held(st.levels, e)
  {
    var l := st.levels[j];
    CountPut(l.buckets, s, b, e);
    HeldPut(st.levels, j, l.(buckets := l.buckets[s := b]), e);
  }

  lemma PutBucketMoves(st: State, j: nat, s: nat, b: Bucket, more: int)
    requires InRange(st, j, s) && -1 <= more <= 1
    requires |b.timers| == |At(st, j, s).timers| + more
    ensures Moves(PutBucket(st, j, s, b).levels)
         == (if more == 1 then Moves(st.levels) + j else if more == 0 then Moves(st.levels) else Moves(st.levels) - j)
  {
    var l := st.levels[j];
    TimerCountPut(l.buckets, s, b);
    MovesPut(st.levels, j, l.(buckets := l.buckets[s := b]), more);
  }

  lemma {:induction false} NoTimers(bs: seq<Bucket>, e: Entry)
    requires forall b | b in bs :: b.timers == []
    ensures CountIn(bs, e) == 0 && TimerCount(bs) == 0
  {
    if bs != [] {
      NoTimers(bs[..|bs| - 1], e);
    }
  }

  lemma GrowHolds(st: State, e: Entry)
    requires |st.levels| >= 1 && st.size >= 0
    ensures Held(Grow(st).levels, e) == Held(st.levels, e) && Moves(Grow(st).levels) == Moves(st.levels)
  {
    var g, n := Grow(st), |st.levels|;
    NoTimers(g.levels[n].buckets, e);
    assert g.levels[..n] == st.levels;
  }

  lemma {:induction false} WhichBucket(bs: seq<Bucket>, e: Entry) returns (s: nat)
    requires CountIn(bs, e) > 0
    ensures s < |bs| && e in bs[s].timers
  {
    var n := |bs| - 1;
    if e in bs[n].timers {
      s := n;
    } else {
      s := WhichBucket(bs[..n], e);
    }
  }

  /** Every timer that is held is in some bucket. */
  lemma {:induction false} WhereIs(levels: seq<Level>, e: Entry) returns (j: nat, s: nat)
    requires Held(levels, e) > 0
    ensures j < |levels| && s < |levels[j].buckets| && e in levels[j].buckets[s].timers
  {
    var n := |levels| - 1;
    if CountIn(levels[n].buckets, e) > 0 {
      j := n;
      s := WhichBucket(levels[n].buckets, e);
    } else {
      j, s := WhereIs(levels[..n], e);
    }
  }

  // ----- the invariant -----

  /** The bucket that the event loop has taken off the queue and is flushing, if any. */
  datatype Busy = Idle | Flushing(level: nat, slot: nat)

  predicate BucketOk(st: State, j: nat, s: nat)
    requires InRange(st, j, s)
  {
    var l, b := st.levels[j], At(st, j, s);
    && l.tick >= 1
    && st.size >= 1
    && if b.expiration == -1 then
      b.timers == []
    else
      && Aligned(b.expiration, l.tick)
      && Slot(b.expiration, l.tick, st.size) == s
      && st.levels[0].clock <= b.expiration < Horizon(st, j)
      && forall e | e in b.timers :: b.expiration <= e.at < b.expiration + l.tick
  }

  /** A bucket with an expiration is in the queue once, unless it is the one being flushed. */
  predicate Enqueued(st: State, busy: Busy, j: nat, s: nat)
    requires InRange(st, j, s)
  {
    var b := At(st, j, s);
    b.expiration == -1 || busy == Flushing(j, s) || st.queue[Queued(j, s, b.expiration)] == 1
  }

  /** A queue item names a bucket that expires at its priority. */
  predicate ItemOk(st: State, busy: Busy, q: Queued) {
    && InRange(st, q.level, q.slot)
    && busy != Flushing(q.level, q.slot)
    && q.priority != -1
    && At(st, q.level, q.slot).expiration == q.priority
  }

  /** The bucket being flushed expires at the very time that the base clock shows. */
  predicate BusyOk(st: State, busy: Busy) {
    busy.Flushing? ==>
      && st.levels != []
      && InRange(st, busy.level, busy.slot)
      && At(st, busy.level, busy.slot).expiration == st.levels[0].clock
  }

  ghost predicate Inv(st: State, busy: Busy) {
    && Geometry(st)
    && (forall j: nat, s: nat | InRange(st, j, s) :: BucketOk(st, j, s) && Enqueued(st, busy, j, s))
    && (forall q | q in st.queue :: ItemOk(st, busy, q))
    && BusyOk(st, busy)
  }

  lemma NewWheelInv(tick: int, size: nat, start: int)
    requires tick >= 1 && size >= 2 && start >= 0
    ensures Inv(NewWheel(tick, size, start), Idle)
    ensures forall e :: Held(NewWheel(tick, size, start).levels, e) == 0
  {
    var st := NewWheel(tick, size, start);
    TruncateNotNegative(start, tick);
    TruncateMeans(start, tick, Truncate(start, tick));
    TruncateMeans(Truncate(start, tick), tick, Truncate(start, tick));
    forall e
      ensures Held(st.levels, e) == 0
    {
      NoTimers(st.levels[0].buckets, e);
      assert Held(st.levels[..0], e) == 0;
    }
  }

  // ----- clocks -----

  lemma ClockBounds(st: State, j: nat)
    requires Geometry(st) && j < |st.levels|
    ensures Aligned(st.levels[j].clock, st.levels[j].tick)
    ensures 0 <= st.levels[j].clock <= st.levels[0].clock < st.levels[j].clock + st.levels[j].tick
  {
    assert LevelOk(st, j);
    TruncateMeans(st.levels[0].clock, st.levels[j].tick, st.levels[j].clock);
    TruncateNotNegative(st.levels[0].clock, st.levels[j].tick);
  }

  lemma BaseClock(st: State)
    requires Geometry(st)
    ensures Aligned(st.levels[0].clock, st.levels[0].tick)
  {
    ClockBounds(st, 0);
  }

  // ----- add -----

  lemma GrowKeepsInv(st: State, busy: Busy)
    requires Inv(st, busy)
    ensures Inv(Grow(st), busy)
  {
    var g := Grow(st);
    GrowKeepsGeometry(st);
    forall j: nat, s: nat | InRange(g, j, s)
      ensures BucketOk(g, j, s) && Enqueued(g, busy, j, s)
    {
      if j < |st.levels| {
        assert InRange(st, j, s) && BucketOk(st, j, s) && Enqueued(st, busy, j, s);
      }
    }
    forall q | q in g.queue
      ensures ItemOk(g, busy, q)
    {
      assert ItemOk(st, busy, q);
    }
  }

  /** The timer fits level k: it is past the level's current tick and before its horizon. */
  predicate Fits(st: State, k: nat, e: Entry) {
    k < |st.levels| && st.levels[k].clock + st.levels[k].tick <= e.at < Horizon(st, k)
  }

  lemma TargetTime(st: State, k: nat, e: Entry)
    requires Geometry(st) && Fits(st, k, e) && LevelOk(st, k)
    ensures var l := st.levels[k];
            var t := e.at / l.tick * l.tick;
            && t == Truncate(e.at, l.tick)
            && Aligned(t, l.tick)
            && Slot(t, l.tick, st.size) == Slot(e.at, l.tick, st.size)
            && st.levels[0].clock < t <= e.at < t + l.tick
            && t < Horizon(st, k)
  {
    var l := st.levels[k];
    ClockBounds(st, k);
    var q := e.at / l.tick;
    MultipleIsAligned(q, l.tick);
    assert e.at == l.tick * q + e.at % l.tick;
    TruncateMeans(e.at, l.tick, l.tick * q);
    AlignedGap(l.clock, l.tick * q, l.tick) by {
      assert l.tick * q > e.at - l.tick >= l.clock;
    }
  }

  /** A bucket that is not at rest and shares the target's slot expires at the target time. */
  lemma SameSlotSameTime(st: State, busy: Busy, k: nat, e: Entry)
    requires Inv(st, busy) && Fits(st, k, e) && LevelOk(st, k)
    ensures var s := Slot(e.at, st.levels[k].tick, st.size);
            && At(st, k, s).expiration in {-1, e.at / st.levels[k].tick * st.levels[k].tick}
            && busy != Flushing(k, s)
  {
    var l := st.levels[k];
    var s, t := Slot(e.at, l.tick, st.size), e.at / l.tick * l.tick;
    assert InRange(st, k, s) && BucketOk(st, k, s);
    TargetTime(st, k, e);
    ClockBounds(st, k);
    if At(st, k, s).expiration != -1 {
      SlotNamesOneTime(At(st, k, s).expiration, t, l.clock, l.tick, st.size);
    }
  }

  lemma InsertKeepsInv(st: State, busy: Busy, k: nat, e: Entry)
    requires Inv(st, busy) && Fits(st, k, e) && LevelOk(st, k)
    ensures Inv(InsertAt(st, k, e), busy)
  {
    var r := InsertAt(st, k, e);
    var l := st.levels[k];
    var s, t := Slot(e.at, l.tick, st.size), e.at / l.tick * l.tick;
    InsertKeepsGeometry(st, k, e);
    TargetTime(st, k, e);
    SameSlotSameTime(st, busy, k, e);
    assert InRange(st, k, s) && BucketOk(st, k, s) && Enqueued(st, busy, k, s);
    assert Queued(k, s, t) in st.queue ==> ItemOk(st, busy, Queued(k, s, t));
    assert At(r, k, s) == Bucket(t, At(st, k, s).timers + [e]);
    assert r.queue[Queued(k, s, t)] == 1;
    assert BucketOk(r, k, s) by {
      assert forall f | f in At(r, k, s).timers :: f in At(st, k, s).timers || f == e;
    }
    hide Geometry, LevelOk, Fits, Slot;
    forall i: nat, x: nat | InRange(r, i, x)
      ensures BucketOk(r, i, x) && Enqueued(r, busy, i, x)
    {
      assert InRange(st, i, x) && BucketOk(st, i, x) && Enqueued(st, busy, i, x);
      assert (i, x) != (k, s) ==> At(r, i, x) == At(st, i, x);
    }
    forall q | q in r.queue
      ensures ItemOk(r, busy, q)
    {
      if q != Queued(k, s, t) {
        assert ItemOk(st, busy, q);
        assert (q.level, q.slot) == (k, s) ==> q.priority == t;
      }
    }
  }

  lemma InsertHolds(st: State, k: nat, e: Entry, f: Entry)
    requires Geometry(st) && k < |st.levels| && LevelOk(st, k)
    ensures Held(InsertAt(st, k, e).levels, f) == Held(st.levels, f) + (if e == f then 1 else 0)
    ensures Moves(InsertAt(st, k, e).levels) == Moves(st.levels) + k
  {
    var l := st.levels[k];
    var s, t := Slot(e.at, l.tick, st.size), e.at / l.tick * l.tick;
    var was := At(st, k, s);
    var b := Bucket(t, was.timers + [e]);
    PutBucketHeld(st, k, s, b, f);
    PutBucketMoves(st, k, s, b, 1);
    assert InsertAt(st, k, e).levels == PutBucket(st, k, s, b).levels;
    assert multiset(b.timers) == multiset(was.timers) + multiset{e};
  }

  /** Levels may have been put on top; nothing else differs. */
  ghost predicate Grown(st: State, g: State) {
    && g.size == st.size && g.queue == st.queue && g.fired == st.fired
    && |g.levels| >= |st.levels| && g.levels[..|st.levels|] == st.levels
    && (forall e :: Held(g.levels, e) == Held(st.levels, e))
    && Moves(g.levels) == Moves(st.levels)
  }

  /**
   Where `add` puts a timer that has not expired on level k: on the lowest level whose horizon
   lies beyond the expiration, creating the levels up to it when they do not exist yet.
   */
  lemma {:induction false} AddPlaces(st: State, busy: Busy, k: nat, e: Entry) returns (m: nat, g: State)
    requires Inv(st, busy) && k < |st.levels|
    requires st.levels[k].clock + st.levels[k].tick <= e.at
    ensures Inv(g, busy) && Grown(st, g) && k <= m && Fits(g, m, e) && LevelOk(g, m)
    ensures Add(st, k, e) == Added(InsertAt(g, m, e), true)
    ensures forall i: nat | k <= i < m :: Horizon(g, i) <= e.at
    ensures m < |st.levels| ==> g == st
    ensures m >= |st.levels| ==> |g.levels| == m + 1
    decreases e.at - Horizon(st, k)
  {
    assert LevelOk(st, k);
    if e.at < Horizon(st, k) {
      m, g := k, st;
    } else {
      var next := AddOverflows(st, busy, k, e);
      m, g := AddPlaces(next, busy, k + 1, e);
      GrownTwice(st, next, g);
    }
  }

  lemma GrownTwice(st: State, g: State, h: State)
    requires Grown(st, g) && Grown(g, h)
    ensures Grown(st, h)
    ensures forall i: nat | i < |st.levels| :: h.levels[i] == st.levels[i]
  {
    assert h.levels[..|st.levels|] == h.levels[..|g.levels|][..|st.levels|];
  }

  /** `add` hands what lies beyond the horizon of level k to level k + 1. */
  lemma AddOverflows(st: State, busy: Busy, k: nat, e: Entry) returns (next: State)
    requires Inv(st, busy) && k < |st.levels| && Horizon(st, k) <= e.at
    requires LevelOk(st, k)
    ensures Inv(next, busy) && Grown(st, next) && k + 1 < |next.levels|
    ensures next.levels[k] == st.levels[k]
    ensures Horizon(st, k) < Horizon(next, k + 1)
    ensures next.levels[k + 1].clock + next.levels[k + 1].tick <= e.at
    ensures Add(st, k, e) == Add(next, k + 1, e)
    ensures if k + 1 < |st.levels| then next == st else |next.levels| == k + 2
  {
    next := st;
    ClockBounds(st, k);
    SmallMultiple(st.levels[k].tick, st.size - 1);
    Distribute(st.levels[k].tick, st.size, 1);
    if k + 1 == |st.levels| {
      GrowKeepsInv(st, busy);
      GrowKeepsGeometry(st);
      next := Grow(st);
      forall f
        ensures Held(next.levels, f) == Held(st.levels, f)
      {
        GrowHolds(st, f);
      }
      GrowHolds(st, e);
      assert next.levels[..|st.levels|] == st.levels;
    } else {
      HorizonGrowsAt(st, k);
      assert st.levels[..|st.levels|] == st.levels;
    }
    NextLevelNotExpired(next, k, e);
  }

  /** What lies beyond the horizon of a level has not expired on the next one. */
  lemma NextLevelNotExpired(st: State, k: nat, e: Entry)
    requires Geometry(st) && k + 1 < |st.levels| && Horizon(st, k) <= e.at
    ensures st.levels[k + 1].clock + st.levels[k + 1].tick <= e.at
  {
    assert TickStep(st, k + 1) && LevelOk(st, k) && LevelOk(st, k + 1);
    TruncateNested(st.levels[0].clock, st.levels[k].tick, st.size);
  }

  lemma AddOrRunKeepsInv(st: State, busy: Busy, e: Entry, cause: Cause)
    requires Inv(st, busy)
    ensures Inv(AddOrRun(st, e, cause), busy)
  {
    if st.levels[0].clock + st.levels[0].tick <= e.at {
      var m, g := AddPlaces(st, busy, 0, e);
      InsertKeepsInv(g, busy, m, e);
    } else {
      SameBuckets(st, AddOrRun(st, e, cause), busy);
    }
  }

  lemma SameBuckets(st: State, r: State, busy: Busy)
    requires Inv(st, busy) && r == st.(fired := r.fired)
    ensures Inv(r, busy)
  {
    SameLevels(st, r);
    forall j: nat, s: nat | InRange(r, j, s)
      ensures BucketOk(r, j, s) && Enqueued(r, busy, j, s)
    {
      assert InRange(st, j, s) && BucketOk(st, j, s) && Enqueued(st, busy, j, s);
    }
    forall q | q in r.queue
      ensures ItemOk(r, busy, q)
    {
      assert ItemOk(st, busy, q);
    }
  }

  // ----- stop -----

  lemma RemoveKeepsInv(st: State, busy: Busy, j: nat, s: nat, i: nat)
    requires Inv(st, busy) && InRange(st, j, s) && i < |At(st, j, s).timers|
    ensures Inv(RemoveTimer(st, j, s, i), busy)
  {
    var r := RemoveTimer(st, j, s, i);
    assert BucketOk(st, j, s) && Enqueued(st, busy, j, s);
    forall k: nat, x: nat | InRange(r, k, x)
      ensures BucketOk(r, k, x) && Enqueued(r, busy, k, x)
    {
      assert InRange(st, k, x) && BucketOk(st, k, x) && Enqueued(st, busy, k, x);
      if (k, x) == (j, s) {
        assert forall e | e in At(r, j, s).timers :: e in At(st, j, s).timers;
      }
    }
    forall q | q in r.queue
      ensures ItemOk(r, busy, q)
    {
      assert ItemOk(st, busy, q);
    }
  }

  lemma RemoveHolds(st: State, j: nat, s: nat, i: nat, e: Entry)
    requires Geometry(st) && InRange(st, j, s) && i < |At(st, j, s).timers|
    ensures Held(RemoveTimer(st, j, s, i).levels, e)
         == Held(st.levels, e) - (if e == At(st, j, s).timers[i] then 1 else 0)
    ensures Moves(RemoveTimer(st, j, s, i).levels) == Moves(st.levels) - j
  {
    var b := At(st, j, s);
    var rest := b.timers[..i] + b.timers[i + 1..];
    PutBucketHeld(st, j, s, b.(timers := rest), e);
    PutBucketMoves(st, j, s, b.(timers := rest), -1);
    assert b.timers == b.timers[..i] + [b.timers[i]] + b.timers[i + 1..];
    assert multiset(b.timers)[e] == multiset(rest)[e] + multiset{b.timers[i]}[e];
  }

  // ----- the clock -----

  lemma {:induction false} AdvanceLevels(levels: seq<Level>, size: int, k: nat, from: int, to: int, x: int)
    requires 0 <= from <= to && size >= 2 && k <= |levels|
    requires forall j: nat | j < |levels| :: levels[j].tick >= 1
    requires forall i: nat, j: nat | i < j < |levels| :: Divides(levels[i].tick, levels[j].tick)
    requires forall j: nat | j < k :: levels[j].clock == Truncate(to, levels[j].tick)
    requires forall j: nat | k <= j < |levels| :: levels[j].clock == Truncate(from, levels[j].tick)
    requires x == if k == 0 then to else Truncate(to, levels[k - 1].tick)
    ensures forall j: nat | j < |levels| ::
              Advance(levels, k, x)[j] == levels[j].(clock := Truncate(to, levels[j].tick))
    decreases |levels| - k
  {
    if k == |levels| {
      return;
    }
    var l := levels[k];
    TruncateMeans(from, l.tick, l.clock);
    TruncateMeans(to, l.tick, Truncate(to, l.tick));
    if k > 0 {
      assert Divides(levels[k - 1].tick, l.tick);
      var m: int :| m >= 1 && IsProduct(levels[k - 1].tick, m, l.tick);
      TruncateNested(to, levels[k - 1].tick, m);
    }
    assert Truncate(x, l.tick) == Truncate(to, l.tick);
    if x >= l.clock + l.tick {
      var moved := levels[k := l.(clock := Truncate(to, l.tick))];
      AdvanceLevels(moved, size, k + 1, from, to, Truncate(to, l.tick));
    } else {
      TruncateNotNegative(to, levels[if k == 0 then 0 else k - 1].tick);
      StaysBehind(levels, k, from, to, x);
    }
  }

  /** When level k keeps its clock, so do all levels above it. */
  lemma StaysBehind(levels: seq<Level>, k: nat, from: int, to: int, x: int)
    requires 0 <= from <= to && k < |levels| && 0 <= x < levels[k].clock + levels[k].tick
    requires forall j: nat | j < |levels| :: levels[j].tick >= 1
    requires forall i: nat, j: nat | i < j < |levels| :: Divides(levels[i].tick, levels[j].tick)
    requires forall j: nat | k <= j < |levels| :: levels[j].clock == Truncate(from, levels[j].tick)
    requires Truncate(x, levels[k].tick) == Truncate(to, levels[k].tick)
    ensures forall j: nat | k <= j < |levels| :: levels[j].clock == Truncate(to, levels[j].tick)
  {
    var l := levels[k];
    TruncateMeans(from, l.tick, l.clock);
    TruncateMeans(to, l.tick, Truncate(to, l.tick));
    TruncateMeans(x, l.tick, Truncate(x, l.tick));
    if l.clock < Truncate(to, l.tick) {
      AlignedGap(l.clock, Truncate(to, l.tick), l.tick);
    } else if Truncate(to, l.tick) < l.clock {
      AlignedGap(Truncate(to, l.tick), l.clock, l.tick);
    }
    forall j: nat | k < j < |levels|
      ensures levels[j].clock == Truncate(to, levels[j].tick)
    {
      assert Divides(l.tick, levels[j].tick);
      var m: int :| m >= 1 && IsProduct(l.tick, m, levels[j].tick);
      TruncateNested(from, l.tick, m);
      TruncateNested(to, l.tick, m);
    }
  }

  /** advanceClock moves every level to the truncation of the same time. */
  lemma AdvanceMeans(st: State, x: int)
    requires Geometry(st) && x >= st.levels[0].clock
    ensures var r := Advance(st.levels, 0, x);
            forall j: nat | j < |st.levels| ::
              r[j] == st.levels[j].(clock := Truncate(x, st.levels[j].tick))
  {
    forall i: nat, j: nat | i < j < |st.levels|
      ensures Divides(st.levels[i].tick, st.levels[j].tick)
    {
      var m := TickDivides(st, i, j);
      assert LevelOk(st, i) && IsProduct(st.levels[i].tick, m, st.levels[j].tick);
    }
    forall j: nat | j < |st.levels|
      ensures st.levels[j].tick >= 1 && st.levels[j].clock == Truncate(st.levels[0].clock, st.levels[j].tick)
    {
      assert LevelOk(st, j);
    }
    AdvanceLevels(st.levels, st.size, 0, st.levels[0].clock, x, x);
  }

  /** No queue item is due before q. */
  predicate Earliest(st: State, q: Queued) {
    q in st.queue && forall p | p in st.queue :: q.priority <= p.priority
  }

  lemma PoppedGeometry(st: State, q: Queued)
    requires Inv(st, Idle) && Earliest(st, q)
    ensures InRange(st, q.level, q.slot) && InRange(Popped(st, q), q.level, q.slot)
    ensures Geometry(Popped(st, q)) && Popped(st, q).levels[0].clock == q.priority
    ensures q.priority >= st.levels[0].clock
    ensures forall j: nat | j < |st.levels| ::
              Popped(st, q).levels[j] == st.levels[j].(clock := Truncate(q.priority, st.levels[j].tick))
  {
    assert ItemOk(st, Idle, q) && BucketOk(st, q.level, q.slot);
    var r := Popped(st, q);
    AdvanceMeans(st, q.priority);
    var k := TickDivides(st, 0, q.level);
    assert LevelOk(st, 0) && LevelOk(st, q.level);
    AlignedToFactor(q.priority, st.levels[0].tick, k);
    TruncateMeans(q.priority, st.levels[0].tick, q.priority);
    forall j: nat | j < |r.levels|
      ensures LevelOk(r, j)
    {
      assert LevelOk(st, j);
    }
    forall i: nat | 1 <= i < |r.levels|
      ensures TickStep(r, i)
    {
      assert TickStep(st, i);
    }
  }

  lemma PoppedInv(st: State, q: Queued)
    requires Inv(st, Idle) && Earliest(st, q)
    requires InRange(st, q.level, q.slot)
    ensures Inv(Popped(st, q), Flushing(q.level, q.slot))
  {
    var r, busy := Popped(st, q), Flushing(q.level, q.slot);
    PoppedGeometry(st, q);
    assert ItemOk(st, Idle, q) && BucketOk(st, q.level, q.slot) && Enqueued(st, Idle, q.level, q.slot);
    forall j: nat, s: nat | InRange(r, j, s)
      ensures BucketOk(r, j, s) && Enqueued(r, busy, j, s)
    {
      assert InRange(st, j, s) && BucketOk(st, j, s) && Enqueued(st, Idle, j, s);
      assert LevelOk(st, j) && LevelOk(r, j);
      TruncateOrder(st.levels[0].clock, q.priority, st.levels[j].tick);
      if At(st, j, s).expiration != -1 {
        assert Queued(j, s, At(st, j, s).expiration) in st.queue;
      }
    }
    forall p | p in r.queue
      ensures ItemOk(r, busy, p)
    {
      assert p in st.queue && ItemOk(st, Idle, p);
    }
  }

  lemma TruncateOrder(x: int, y: int, m: int)
    requires 0 <= x <= y && m > 0
    ensures Truncate(x, m) <= Truncate(y, m)
  {
    var a, b := Truncate(x, m), Truncate(y, m);
    TruncateMeans(x, m, a);
    TruncateMeans(y, m, b);
    if b < a { AlignedGap(b, a, m); }
  }
}
