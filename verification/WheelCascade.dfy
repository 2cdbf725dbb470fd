/** Flushing a due bucket: what fires, what moves down, and what the event loop keeps. */
module WheelCascade {
  import opened Truncation
  import opened WheelModel
  import opened WheelInvariant

  /** Queue items plus the moves still possible; every turn of the event loop lowers it. */
  function Work(st: State): int {
    |st.queue| + Moves(st.levels)
  }

  lemma {:induction false} MovesNotNegative(levels: seq<Level>)
    ensures Moves(levels) >= 0
  {
    if levels != [] {
      MovesNotNegative(levels[..|levels| - 1]);
      NotNegativeProduct(|levels| - 1, TimerCount(levels[|levels| - 1].buckets));
    }
  }

  lemma NotNegativeProduct(a: int, b: int)
    requires a >= 0 && b >= 0
    ensures a * b >= 0
  {
  }

  /** The ticks, clocks and bucket counts of two states agree. */
  predicate SameShape(a: State, b: State) {
    && a.size == b.size && |a.levels| == |b.levels|
    && forall j: nat | j < |a.levels| ::
         a.levels[j].tick == b.levels[j].tick && a.levels[j].clock == b.levels[j].clock
  }

  // ----- one timer of the flushed bucket -----

  /** A timer that is not run belongs on a level below the bucket it comes from. */
  lemma BelowTheBucket(st: State, j: nat, s: nat, m: nat, e: Entry)
    requires Inv(st, Flushing(j, s)) && InRange(st, j, s)
    requires e.at < At(st, j, s).expiration + st.levels[j].tick
    requires st.levels[0].clock + st.levels[0].tick <= e.at
    requires forall i: nat | i < m && i < |st.levels| :: Horizon(st, i) <= e.at
    ensures m < j
  {
    assert BucketOk(st, j, s) && BusyOk(st, Flushing(j, s));
    if j > 0 {
      assert LevelOk(st, j) && LevelOk(st, j - 1) && TickStep(st, j);
      AlignedToFactor(st.levels[0].clock, st.levels[j - 1].tick, st.size);
      TruncateMeans(st.levels[0].clock, st.levels[j - 1].tick, st.levels[0].clock);
      assert Horizon(st, j - 1) > e.at;
    }
  }

  /** What one round of the flush loop does with the first timer e of the bucket. */
  datatype Round = Ran | MovedTo(level: nat)

  lemma TakeFirst(st: State, busy: Busy, j: nat, s: nat)
    requires Inv(st, busy) && InRange(st, j, s) && At(st, j, s).timers != []
    ensures var rest := RemoveTimer(st, j, s, 0);
            && Inv(rest, busy) && SameShape(st, rest) && InRange(rest, j, s)
            && At(rest, j, s) == At(st, j, s).(timers := At(st, j, s).timers[1..])
            && rest.levels != [] && rest.levels[0].clock == st.levels[0].clock
            && rest.queue == st.queue && rest.fired == st.fired
            && forall i: nat, x: nat | InRange(rest, i, x) && (i, x) != (j, s) ::
                 InRange(st, i, x) && At(rest, i, x) == At(st, i, x)
  {
    RemoveKeepsInv(st, busy, j, s, 0);
    assert At(st, j, s).timers[..0] + At(st, j, s).timers[1..] == At(st, j, s).timers[1..];
  }

  /** Reinserting e, taken from the bucket under flush, into a state without it. */
  lemma Reinserted(rest: State, j: nat, s: nat, e: Entry) returns (round: Round)
    requires Inv(rest, Flushing(j, s)) && InRange(rest, j, s)
    requires At(rest, j, s).expiration <= e.at < At(rest, j, s).expiration + rest.levels[j].tick
    ensures var r := AddOrRun(rest, e, OnFlush);
            && Inv(r, Flushing(j, s)) && SameShape(rest, r) && InRange(r, j, s)
            && At(r, j, s) == At(rest, j, s)
            && match round {
                 case Ran =>
                   r == rest.(fired := rest.fired + [Firing(e, rest.levels[0].clock, OnFlush)])
                   && Truncate(e.at, rest.levels[0].tick) == rest.levels[0].clock
                 case MovedTo(m) =>
                   m < j && LevelOk(rest, m) && r == InsertAt(rest, m, e)
               }
  {
    AddOrRunKeepsInv(rest, Flushing(j, s), e, OnFlush);
    assert BusyOk(rest, Flushing(j, s)) && LevelOk(rest, 0);
    if e.at < rest.levels[0].clock + rest.levels[0].tick {
      round := Ran;
      BaseClock(rest);
      TruncateMeans(e.at, rest.levels[0].tick, rest.levels[0].clock);
    } else {
      var m := MovesDown(rest, j, s, e);
      round := MovedTo(m);
    }
  }

  lemma MovesDown(rest: State, j: nat, s: nat, e: Entry) returns (m: nat)
    requires Inv(rest, Flushing(j, s)) && InRange(rest, j, s)
    requires e.at < At(rest, j, s).expiration + rest.levels[j].tick
    requires rest.levels[0].clock + rest.levels[0].tick <= e.at
    ensures m < j && LevelOk(rest, m) && AddOrRun(rest, e, OnFlush) == InsertAt(rest, m, e)
  {
    var g;
    m, g := AddPlaces(rest, Flushing(j, s), 0, e);
    forall i: nat | i < m && i < |rest.levels|
      ensures Horizon(rest, i) <= e.at
    {
      assert g.levels[..|rest.levels|][i] == rest.levels[i];
      assert Horizon(g, i) <= e.at;
    }
    BelowTheBucket(rest, j, s, if m < |rest.levels| then m else |rest.levels|, e);
  }

  /** One round of the flush loop, for the first timer e of the bucket. */
  lemma RoundMeans(st: State, j: nat, s: nat) returns (round: Round)
    requires Inv(st, Flushing(j, s)) && InRange(st, j, s) && At(st, j, s).timers != []
    ensures var e := At(st, j, s).timers[0];
            var rest := RemoveTimer(st, j, s, 0);
            var r := ReinsertFirst(st, j, s);
            && Inv(r, Flushing(j, s)) && SameShape(st, r)
            && At(r, j, s) == At(st, j, s).(timers := At(st, j, s).timers[1..])
            && match round {
                 case Ran =>
                   r == rest.(fired := st.fired + [Firing(e, st.levels[0].clock, OnFlush)])
                   && Truncate(e.at, st.levels[0].tick) == st.levels[0].clock
                 case MovedTo(m) =>
                   m < j && m < |rest.levels| && LevelOk(rest, m) && r == InsertAt(rest, m, e)
               }
  {
    assert BucketOk(st, j, s) && At(st, j, s).timers[0] in At(st, j, s).timers && BusyOk(st, Flushing(j, s));
    ClockBounds(st, 0);
    TakeFirst(st, Flushing(j, s), j, s);
    round := Reinserted(RemoveTimer(st, j, s, 0), j, s, At(st, j, s).timers[0]);
  }

  /** What is held and what has fired, together. */
  function Known(st: State, e: Entry): nat {
    Held(st.levels, e) + FiredCount(st.fired, e)
  }

  lemma FiredAppend(fs: seq<Firing>, f: Firing, e: Entry)
    ensures FiredCount(fs + [f], e) == FiredCount(fs, e) + (if f.entry == e then 1 else 0)
  {
    assert (fs + [f])[..|fs|] == fs;
  }

  lemma RoundAccounts(st: State, j: nat, s: nat, f: Entry)
    requires Inv(st, Flushing(j, s)) && InRange(st, j, s) && At(st, j, s).timers != []
    ensures Known(ReinsertFirst(st, j, s), f) == Known(st, f)
    ensures Held(ReinsertFirst(st, j, s).levels, f) <= Held(st.levels, f)
  {
    var round := RoundMeans(st, j, s);
    var e, rest := At(st, j, s).timers[0], RemoveTimer(st, j, s, 0);
    RemoveHolds(st, j, s, 0, f);
    match round {
      case Ran => FiredAppend(st.fired, Firing(e, st.levels[0].clock, OnFlush), f);
      case MovedTo(m) => InsertHolds(rest, m, e, f);
    }
  }

  lemma RoundWorks(st: State, j: nat, s: nat)
    requires Inv(st, Flushing(j, s)) && InRange(st, j, s) && At(st, j, s).timers != []
    ensures Work(ReinsertFirst(st, j, s)) <= Work(st)
  {
    var round := RoundMeans(st, j, s);
    var e, rest := At(st, j, s).timers[0], RemoveTimer(st, j, s, 0);
    RemoveHolds(st, j, s, 0, e);
    match round {
      case Ran =>
      case MovedTo(m) => InsertHolds(rest, m, e, e);
    }
  }

  // ----- the whole bucket -----

  /** The tasks started by a flush all belong to the time the clock shows. */
  predicate FiredOnTime(fs: seq<Firing>, tick: int, clock: int) {
    forall f | f in fs :: f.clock == clock && f.cause == OnFlush && Truncate(f.entry.at, tick) == clock
  }

  /** The log of `r` continues the log of `st` with firings of the time the clock shows. */
  predicate LogGrows(st: State, r: State) {
    && st.levels != []
    && |st.fired| <= |r.fired| && r.fired[..|st.fired|] == st.fired
    && FiredOnTime(r.fired[|st.fired|..], st.levels[0].tick, st.levels[0].clock)
  }

  /** Every timer is accounted for, and none comes back. */
  ghost predicate Accounted(st: State, r: State) {
    forall e :: Known(r, e) == Known(st, e) && Held(r.levels, e) <= Held(st.levels, e)
  }

  /** What the rounds of a flush may change, seen from outside the flushed bucket. */
  ghost predicate Cascaded(st: State, r: State) {
    SameShape(st, r) && LogGrows(st, r) && Accounted(st, r) && Work(r) <= Work(st)
  }

  lemma RoundCascades(st: State, j: nat, s: nat)
    requires Inv(st, Flushing(j, s)) && InRange(st, j, s) && At(st, j, s).timers != []
    ensures Cascaded(st, ReinsertFirst(st, j, s))
  {
    var r := ReinsertFirst(st, j, s);
    var round := RoundMeans(st, j, s);
    assert LogGrows(st, r) by { assert r.fired[..|st.fired|] == st.fired; }
    assert SameShape(st, r);
    hide ReinsertFirst, SameShape, LogGrows, Inv, Work;
    RoundWorks(st, j, s);
    forall e
      ensures Known(r, e) == Known(st, e) && Held(r.levels, e) <= Held(st.levels, e)
    {
      RoundAccounts(st, j, s, e);
    }
  }

  lemma LogGrowsTwice(st: State, r: State, t: State)
    requires LogGrows(st, r) && LogGrows(r, t) && SameShape(st, r)
    ensures LogGrows(st, t)
  {
    assert t.fired[..|st.fired|] == t.fired[..|r.fired|][..|st.fired|];
    assert t.fired[|st.fired|..] == r.fired[|st.fired|..] + t.fired[|r.fired|..];
  }

  lemma CascadedTwice(st: State, r: State, t: State)
    requires Cascaded(st, r) && Cascaded(r, t)
    ensures Cascaded(st, t)
  {
    LogGrowsTwice(st, r, t);
    assert forall e :: Known(r, e) == Known(st, e) && Held(r.levels, e) <= Held(st.levels, e);
  }

  lemma InvGeometry(st: State, busy: Busy)
    requires Inv(st, busy)
    ensures Geometry(st)
  {
  }

  lemma CascadedNothing(st: State)
    requires Geometry(st)
    ensures Cascaded(st, st)
  {
    assert st.levels != [];
    hide Geometry, Known, Work;
  }

  lemma ReinsertUnfolds(st: State, j: nat, s: nat, n: nat)
    requires Geometry(st) && InRange(st, j, s)
    ensures Reinsert(st, j, s, 0) == st
    ensures n > 0 && At(st, j, s).timers != []
            ==> Reinsert(st, j, s, n) == Reinsert(ReinsertFirst(st, j, s), j, s, n - 1)
  {
  }

  lemma {:induction false} ReinsertKeepsInv(st: State, j: nat, s: nat, n: nat)
    requires Inv(st, Flushing(j, s)) && InRange(st, j, s) && n <= |At(st, j, s).timers|
    ensures Inv(Reinsert(st, j, s, n), Flushing(j, s)) && Cascaded(st, Reinsert(st, j, s, n))
    ensures At(Reinsert(st, j, s, n), j, s) == At(st, j, s).(timers := At(st, j, s).timers[n..])
    decreases n
  {
    hide *;
    InvGeometry(st, Flushing(j, s));
    CascadedNothing(st);
    ReinsertUnfolds(st, j, s, n);
    if n > 0 {
      var r := ReinsertFirst(st, j, s);
      RoundInv(st, j, s);
      RoundCascades(st, j, s);
      ReinsertKeepsInv(r, j, s, n - 1);
      CascadedTwice(st, r, Reinsert(r, j, s, n - 1));
      assert At(st, j, s).timers[1..][n - 1..] == At(st, j, s).timers[n..];
    }
  }

  lemma RoundInv(st: State, j: nat, s: nat)
    requires Inv(st, Flushing(j, s)) && InRange(st, j, s) && At(st, j, s).timers != []
    ensures Inv(ReinsertFirst(st, j, s), Flushing(j, s))
    ensures At(ReinsertFirst(st, j, s), j, s) == At(st, j, s).(timers := At(st, j, s).timers[1..])
  {
    var round := RoundMeans(st, j, s);
  }

  /** Putting the emptied bucket to rest. */
  lemma RestKeepsInv(st: State, j: nat, s: nat)
    requires Inv(st, Flushing(j, s)) && InRange(st, j, s) && At(st, j, s).timers == []
    ensures Inv(PutBucket(st, j, s, At(st, j, s).(expiration := -1)), Idle)
  {
    var r := PutBucket(st, j, s, At(st, j, s).(expiration := -1));
    PutKeepsGeometry(st, j, s, At(st, j, s).(expiration := -1));
    forall i: nat, x: nat | InRange(r, i, x)
      ensures BucketOk(r, i, x) && Enqueued(r, Idle, i, x)
    {
      assert InRange(st, i, x) && BucketOk(st, i, x) && Enqueued(st, Flushing(j, s), i, x);
    }
    forall q | q in r.queue
      ensures ItemOk(r, Idle, q)
    {
      assert ItemOk(st, Flushing(j, s), q);
    }
  }

  lemma RestCascades(st: State, j: nat, s: nat)
    requires InRange(st, j, s) && Geometry(st)
    ensures Cascaded(st, PutBucket(st, j, s, At(st, j, s).(expiration := -1)))
  {
    var b := At(st, j, s).(expiration := -1);
    var r := PutBucket(st, j, s, b);
    assert LogGrows(st, r) && SameShape(st, r);
    PutBucketMoves(st, j, s, b, 0);
    forall e
      ensures Known(r, e) == Known(st, e) && Held(r.levels, e) <= Held(st.levels, e)
    {
      PutBucketHeld(st, j, s, b, e);
    }
  }

  lemma FlushKeepsInv(st: State, j: nat, s: nat)
    requires Inv(st, Flushing(j, s)) && InRange(st, j, s)
    ensures Inv(Flush(st, j, s), Idle) && Cascaded(st, Flush(st, j, s))
  {
    assert Geometry(st);
    hide Inv, Cascaded;
    var n := |At(st, j, s).timers|;
    ReinsertKeepsInv(st, j, s, n);
    RestKeepsInv(Reinsert(st, j, s, n), j, s);
    RestCascades(Reinsert(st, j, s, n), j, s);
    CascadedTwice(st, Reinsert(st, j, s, n), Flush(st, j, s));
  }

  lemma {:induction false} SameBucketsHold(a: seq<Level>, b: seq<Level>, e: Entry)
    requires |a| == |b| && forall j: nat | j < |a| :: a[j].buckets == b[j].buckets
    ensures Held(a, e) == Held(b, e) && Moves(a) == Moves(b)
  {
    if a != [] {
      SameBucketsHold(a[..|a| - 1], b[..|b| - 1], e);
    }
  }

  lemma PoppedAccounts(st: State, q: Queued)
    requires Inv(st, Idle) && Earliest(st, q) && InRange(st, q.level, q.slot)
    ensures Accounted(st, Popped(st, q)) && Work(Popped(st, q)) < Work(st)
  {
    PoppedGeometry(st, q);
    var p := Popped(st, q);
    forall e
      ensures Known(p, e) == Known(st, e) && Held(p.levels, e) <= Held(st.levels, e)
      ensures Moves(p.levels) == Moves(st.levels)
    {
      SameBucketsHold(st.levels, p.levels, e);
    }
    SameBucketsHold(st.levels, p.levels, Entry(0, 0));
    assert |p.queue| == |st.queue| - 1;
  }

  /**
   One turn of the event loop: the invariant holds again, no timer is lost or duplicated, exactly
   timers of the popped time have fired, and there is less work left.
   */
  lemma TurnKeepsInv(st: State, q: Queued)
    requires Inv(st, Idle) && Earliest(st, q)
    ensures InRange(st, q.level, q.slot)
    ensures Geometry(Popped(st, q)) && InRange(Popped(st, q), q.level, q.slot)
    ensures var r := Expire(st, q);
            && Inv(r, Idle)
            && st.levels[0].clock <= q.priority == r.levels[0].clock
            && r.levels[0].tick == st.levels[0].tick
            && |r.levels| == |st.levels|
            && Accounted(st, r)
            && Work(r) < Work(st)
            && |st.fired| <= |r.fired| && r.fired[..|st.fired|] == st.fired
            && FiredOnTime(r.fired[|st.fired|..], st.levels[0].tick, q.priority)
  {
    PoppedGeometry(st, q);
    PoppedInv(st, q);
    PoppedAccounts(st, q);
    var p := Popped(st, q);
    FlushKeepsInv(p, q.level, q.slot);
    AccountedTwice(st, p, Expire(st, q));
  }

  lemma AccountedTwice(st: State, p: State, r: State)
    requires Accounted(st, p) && Accounted(p, r)
    ensures Accounted(st, r)
  {
    assert forall e :: Known(p, e) == Known(st, e) && Held(p.levels, e) <= Held(st.levels, e);
  }

  // ----- where the timers of the flushed bucket go -----

  predicate Inside(st: State, i: nat, x: nat, e: Entry) {
    InRange(st, i, x) && e in At(st, i, x).timers
  }

  /** Everything in a bucket was there before, or came down from bucket (j, s) to a lower level. */
  ghost predicate OnlyDown(st: State, r: State, j: nat, s: nat) {
    forall i: nat, x: nat, e :: Inside(r, i, x, e) ==> Inside(st, i, x, e) || (i < j && Inside(st, j, s, e))
  }

  lemma RoundOnlyDown(st: State, j: nat, s: nat)
    requires Inv(st, Flushing(j, s)) && InRange(st, j, s) && At(st, j, s).timers != []
    ensures OnlyDown(st, ReinsertFirst(st, j, s), j, s)
  {
    var e, rest := At(st, j, s).timers[0], RemoveTimer(st, j, s, 0);
    var round := RoundMeans(st, j, s);
    TakeFirst(st, Flushing(j, s), j, s);
    assert forall i: nat, x: nat, f :: Inside(rest, i, x, f) ==> Inside(st, i, x, f) by {
      hide RemoveTimer, ReinsertFirst, Inv;
      assert forall f | f in At(rest, j, s).timers :: f in At(st, j, s).timers;
    }
    match round {
      case Ran =>
      case MovedTo(m) => InsertInside(rest, m, e);
    }
  }

  lemma InsertInside(rest: State, m: nat, e: Entry)
    requires Geometry(rest) && m < |rest.levels| && LevelOk(rest, m)
    ensures forall i: nat, x: nat, f :: Inside(InsertAt(rest, m, e), i, x, f) ==>
              Inside(rest, i, x, f) || (f == e && i == m)
  {
    var l := rest.levels[m];
    var s := Slot(e.at, l.tick, rest.size);
    var r := InsertAt(rest, m, e);
    assert At(r, m, s).timers == At(rest, m, s).timers + [e];
    assert forall i: nat, x: nat | InRange(r, i, x) && (i, x) != (m, s) :: At(r, i, x) == At(rest, i, x);
    hide InsertAt, Geometry, LevelOk, Slot;
    forall i: nat, x: nat, f | Inside(r, i, x, f)
      ensures Inside(rest, i, x, f) || (f == e && i == m)
    {
      if (i, x) == (m, s) { assert f in At(rest, m, s).timers + [e]; }
    }
  }

  lemma OnlyDownNothing(st: State, j: nat, s: nat)
    ensures OnlyDown(st, st, j, s)
  {
  }

  lemma OnlyDownTwice(st: State, r: State, t: State, j: nat, s: nat)
    requires OnlyDown(st, r, j, s) && OnlyDown(r, t, j, s)
    ensures OnlyDown(st, t, j, s)
  {
    forall i: nat, x: nat, e | Inside(t, i, x, e)
      ensures Inside(st, i, x, e) || (i < j && Inside(st, j, s, e))
    {
      assert Inside(r, i, x, e) || (i < j && Inside(r, j, s, e));
    }
  }

  lemma {:induction false} ReinsertOnlyDown(st: State, j: nat, s: nat, n: nat)
    requires Inv(st, Flushing(j, s)) && InRange(st, j, s) && n <= |At(st, j, s).timers|
    ensures OnlyDown(st, Reinsert(st, j, s, n), j, s)
    decreases n
  {
    hide *;
    InvGeometry(st, Flushing(j, s));
    OnlyDownNothing(st, j, s);
    ReinsertUnfolds(st, j, s, n);
    if n > 0 {
      var r := ReinsertFirst(st, j, s);
      RoundInv(st, j, s);
      RoundOnlyDown(st, j, s);
      ReinsertOnlyDown(r, j, s, n - 1);
      OnlyDownTwice(st, r, Reinsert(r, j, s, n - 1), j, s);
    }
  }

  /**
   The strict cascade: after the turn for q every pending timer is in the bucket it was in before,
   or it was in the flushed bucket and is now on a level strictly below; the flushed bucket itself
   ends empty and at rest, so no reinsertion came back to it.
   */
  lemma TurnMovesOnlyDown(st: State, q: Queued)
    requires Inv(st, Idle) && Earliest(st, q)
    requires InRange(st, q.level, q.slot)
    requires Geometry(Popped(st, q)) && InRange(Popped(st, q), q.level, q.slot)
    ensures OnlyDown(st, Expire(st, q), q.level, q.slot)
    ensures InRange(Expire(st, q), q.level, q.slot)
    ensures At(Expire(st, q), q.level, q.slot) == Bucket(-1, [])
  {
    PoppedGeometry(st, q);
    PoppedInv(st, q);
    var p := Popped(st, q);
    var n := |At(p, q.level, q.slot).timers|;
    ReinsertKeepsInv(p, q.level, q.slot, n);
    ReinsertOnlyDown(p, q.level, q.slot, n);
    var r, f := Reinsert(p, q.level, q.slot, n), Expire(st, q);
    hide Inv, Geometry, Reinsert, Cascaded;
    forall i: nat, x: nat, e | Inside(f, i, x, e)
      ensures Inside(st, i, x, e) || (i < q.level && Inside(st, q.level, q.slot, e))
    {
      assert Inside(r, i, x, e);
      assert Inside(p, i, x, e) || (i < q.level && Inside(p, q.level, q.slot, e));
    }
  }
}
