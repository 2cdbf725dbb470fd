/**
 The timing wheel as objects: timers, buckets and a chain of wheels that share one queue, updated
 in place. The ghost field `model` of the base wheel is the value of module WheelModel that the
 objects stand for; every method is proved to change it as the model's function says.
 */
module TimingWheels {
  import opened Truncation
  import opened PriorityQueues
  import M = WheelModel
  import I = WheelInvariant
  import C = WheelCascade
  import R = WheelRuns

  class Timer {
    ghost const id: nat
    var expiration: int
    var bucket: Bucket?

    constructor (ghost id: nat, expiration: int)
      ensures this.id == id && this.expiration == expiration && bucket == null
    {
      this.id, this.expiration, bucket := id, expiration, null;
    }

    ghost function Entry(): M.Entry
      reads this`expiration
    {
      M.Entry(id, expiration)
    }
  }

  /** The list of timers without t. */
  function Without(ts: seq<Timer>, t: Timer): seq<Timer> {
    if ts == [] then [] else if ts[0] == t then ts[1..] else [ts[0]] + Without(ts[1..], t)
  }

  lemma {:induction false} WithoutAt(ts: seq<Timer>, t: Timer) returns (i: nat)
    requires t in ts
    ensures i < |ts| && ts[i] == t && Without(ts, t) == ts[..i] + ts[i + 1..]
  {
    if ts[0] == t {
      i := 0;
    } else {
      var k := WithoutAt(ts[1..], t);
      i := k + 1;
      assert ts[..i] == [ts[0]] + ts[1..][..k];
    }
  }

  class Bucket {
    ghost const level: nat
    ghost const slot: nat
    var expiration: int
    var timers: seq<Timer>

    constructor (ghost level: nat, ghost slot: nat)
      ensures this.level == level && this.slot == slot && expiration == -1 && timers == []
    {
      this.level, this.slot, expiration, timers := level, slot, -1, [];
    }

    method SetExpiration(expiration: int) returns (changed: bool)
      modifies this`expiration
      ensures this.expiration == expiration && changed == (old(this.expiration) != expiration)
    {
      changed := this.expiration != expiration;
      this.expiration := expiration;
    }

    method Add(t: Timer)
      modifies this`timers, t`bucket
      ensures timers == old(timers) + [t] && t.bucket == this
    {
      timers := timers + [t];
      t.bucket := this;
    }

    method Remove(t: Timer) returns (removed: bool)
      modifies this`timers, t`bucket
      ensures removed == (old(t.bucket) == this)
      ensures removed ==> timers == Without(old(timers), t) && t.bucket == null
      ensures !removed ==> timers == old(timers) && t.bucket == old(t.bucket)
    {
      if t.bucket != this {
        return false;
      }
      timers := Without(timers, t);
      t.bucket := null;
      return true;
    }

    /** The bucket holds exactly the model's timers, each once and each pointing back. */
    ghost predicate Shows(m: M.Bucket, all: set<Timer>)
      reads this, all
    {
      && expiration == m.expiration && |timers| == |m.timers|
      && (forall i: nat | i < |timers| ::
            timers[i] in all && timers[i].bucket == this && timers[i].Entry() == m.timers[i])
      && (forall i: nat, k: nat | i < k < |timers| :: timers[i] != timers[k])
    }
  }

  // ----- the chain of wheels and what it stands for -----

  /** The parts of wheel j that never change. */
  ghost predicate BuiltAt(chain: seq<TimingWheel>, m: M.State, j: nat)
    requires j < |chain| == |m.levels|
  {
    var w, l := chain[j], m.levels[j];
    && w.level == j && w.wheelSize == m.size && w.queue == chain[0].queue
    && w.tick == l.tick && w.interval == w.tick * w.wheelSize
    && |w.buckets| == w.wheelSize == |l.buckets|
    && forall s: nat | s < |w.buckets| :: w.buckets[s].level == j && w.buckets[s].slot == s
  }

  ghost predicate Built(chain: seq<TimingWheel>, m: M.State) {
    1 <= |chain| == |m.levels| && forall j: nat | j < |chain| :: BuiltAt(chain, m, j)
  }

  ghost predicate ShowsClocks(chain: seq<TimingWheel>, m: M.State)
    reads chain`currentTime
  {
    |chain| == |m.levels| && forall j: nat | j < |chain| :: chain[j].currentTime == m.levels[j].clock
  }

  ghost predicate Chained(chain: seq<TimingWheel>)
    reads chain`overflowWheel
  {
    forall j: nat | j < |chain| :: chain[j].overflowWheel == (if j + 1 < |chain| then chain[j + 1] else null)
  }

  ghost predicate Wired(chain: seq<TimingWheel>, m: M.State)
    reads chain`overflowWheel, chain`currentTime
  {
    Built(chain, m) && ShowsClocks(chain, m) && Chained(chain)
  }

  /** b is the bucket of the chain at its own level and slot. */
  ghost predicate Placed(chain: seq<TimingWheel>, b: Bucket) {
    b.level < |chain| && b.slot < |chain[b.level].buckets| && chain[b.level].buckets[b.slot] == b
  }

  ghost predicate ShowsBuckets(chain: seq<TimingWheel>, m: M.State, all: set<Bucket>, timers: set<Timer>)
    reads all, timers
  {
    forall j: nat, s: nat | j < |chain| && s < |chain[j].buckets| && M.InRange(m, j, s) ::
      chain[j].buckets[s] in all && chain[j].buckets[s].Shows(M.At(m, j, s), timers)
  }

  /** Back-pointers are right: a timer names a bucket exactly when that bucket lists it. */
  ghost predicate BackPointers(chain: seq<TimingWheel>, all: set<Bucket>, timers: set<Timer>)
    reads all, timers
  {
    forall t | t in timers && t.bucket != null ::
      Placed(chain, t.bucket) && t.bucket in all && t in t.bucket.timers
  }

  ghost function Key(x: Item<Bucket>): M.Queued {
    M.Queued(x.value.level, x.value.slot, x.priority)
  }

  ghost predicate Represented(items: seq<Item<Bucket>>, q: M.Queued) {
    exists x :: x in items && Key(x) == q
  }

  /** The items of the heap are the model's queue, one for one. */
  ghost predicate ShowsQueue(items: seq<Item<Bucket>>, chain: seq<TimingWheel>, queue: multiset<M.Queued>) {
    && (forall x | x in items :: Placed(chain, x.value) && Key(x) in queue)
    && (forall q | q in queue :: queue[q] == 1 && Represented(items, q))
    && (forall x, y | x in items && y in items && Key(x) == Key(y) :: x == y)
  }

  // ----- facts about the objects, for the methods below -----

  /** Every timer has its own identity, and the next one has never been used. */
  ghost predicate Identified(timers: set<Timer>, steps: seq<R.Step>) {
    && (forall t | t in timers :: t.id < |timers|)
    && (forall t, u | t in timers && u in timers && t.id == u.id :: t == u)
    && forall k: nat | k < |steps| && steps[k].Arrive? :: steps[k].e.id < |timers|
  }

  /** What the calendar says of an entry once nothing is due. */
  ghost predicate Calendar(s: R.System, e: M.Entry, tick: int) {
    if R.DueInCalendar(e, tick, s.now)
    then I.FiredCount(s.wheel.fired, e) + s.stopped[e] == s.added[e]
    else I.FiredCount(s.wheel.fired, e) == 0 && I.Held(s.wheel.levels, e) + s.stopped[e] == s.added[e]
  }

  /** Nothing but readings of the clock and turns of the event loop has been added. */
  ghost predicate OnlyLooped(before: seq<R.Step>, steps: seq<R.Step>) {
    before <= steps && forall k: nat | |before| <= k < |steps| :: steps[k].Tick? || steps[k].Turn?
  }

  lemma NotLooped(steps: seq<R.Step>)
    ensures OnlyLooped(steps, steps)
  {
  }

  lemma LoopedOn(before: seq<R.Step>, steps: seq<R.Step>, now: int, turn: seq<R.Step>)
    requires OnlyLooped(before, steps) && (turn == [] || exists q :: turn == [R.Turn(q)])
    ensures OnlyLooped(before, steps + [R.Tick(now)] + turn)
  {
  }

  lemma TraceMeans(w: TimingWheel)
    requires w.Traced()
    ensures R.SysInv(w.System(), w.tick) && w.System().wheel == w.model && w.TracedTo(w.System().wheel)
    ensures I.Inv(w.model, I.Idle) && M.Geometry(w.model)
  {
    R.StartInv(w.tick, w.wheelSize, w.start);
    R.RunKeepsInv(w.states, w.steps, w.tick, |w.states| - 1);
  }

  lemma IdentifiedStill(timers: set<Timer>, steps: seq<R.Step>, step: R.Step)
    requires Identified(timers, steps) && (step.Arrive? ==> step.e.id < |timers|)
    ensures Identified(timers, steps + [step])
  {
  }

  lemma RunMeans(w: TimingWheel, m: M.State)
    requires w.TracedTo(m)
    ensures w.RunTo(m)
  {
  }

  lemma RunHolds(w: TimingWheel, m: M.State)
    requires w.RunTo(m) && Identified(w.timers, w.steps)
    ensures w.TracedTo(m) && (m == w.model ==> w.Traced())
  {
  }

  lemma StillTraced(w: TimingWheel, m: M.State)
    requires w.TracedTo(m)
    ensures w.System().wheel == m && w.TracedTo(w.System().wheel)
  {
  }

  lemma TickMeans(s: R.System, now: int)
    requires I.Inv(s.wheel, I.Idle) && s.now <= now
    ensures R.Enabled(s, R.Tick(now)) && R.Do(s, R.Tick(now)) == s.(now := now)
  {
  }

  lemma TurnMeans(s: R.System, q: M.Queued)
    requires I.Inv(s.wheel, I.Idle) && M.Due(s.wheel, q, s.now) && M.InRange(s.wheel, q.level, q.slot)
    requires M.Geometry(M.Popped(s.wheel, q)) && M.InRange(M.Popped(s.wheel, q), q.level, q.slot)
    ensures R.Enabled(s, R.Turn(q)) && R.Do(s, R.Turn(q)) == s.(wheel := M.Expire(s.wheel, q))
  {
  }

  lemma ArriveMeans(s: R.System, e: M.Entry)
    requires I.Inv(s.wheel, I.Idle) && M.Geometry(s.wheel)
    requires forall f :: I.Held(s.wheel.levels, f) > 0 ==> f.id != e.id
    ensures R.Enabled(s, R.Arrive(e)) && R.Do(s, R.Arrive(e)).wheel == M.AddOrRun(s.wheel, e, M.OnArrival)
    ensures R.Do(s, R.Arrive(e)).now == s.now
  {
  }

  lemma CancelMeans(s: R.System, j: nat, x: nat, i: nat)
    requires I.Inv(s.wheel, I.Idle) && M.Geometry(s.wheel)
    requires M.InRange(s.wheel, j, x) && i < |M.At(s.wheel, j, x).timers|
    ensures R.Enabled(s, R.Cancel(j, x, i)) && R.Do(s, R.Cancel(j, x, i)).wheel == M.RemoveTimer(s.wheel, j, x, i)
  {
  }

  lemma CalendarHolds(s: R.System, tick: int)
    requires R.SysInv(s, tick) && forall p | p in s.wheel.queue :: p.priority > s.now
    ensures forall e :: Calendar(s, e, tick)
  {
    forall e
      ensures Calendar(s, e, tick)
    {
      R.DrainedIsCalendar(s, tick, e);
    }
  }

  /** An identity none of whose timers is in a bucket is not held. */
  lemma NotHeld(w: TimingWheel, id: nat)
    requires w.Rep() && I.Inv(w.model, I.Idle)
    requires forall t | t in w.timers && t.id == id :: t.bucket == null
    ensures forall f :: I.Held(w.model.levels, f) > 0 ==> f.id != id
  {
    forall f | I.Held(w.model.levels, f) > 0
      ensures f.id != id
    {
      var j, s := I.WhereIs(w.model.levels, f);
      assert BuiltAt(w.chain, w.model, j) && M.InRange(w.model, j, s);
      var b := w.chain[j].buckets[s];
      assert b.Shows(M.At(w.model, j, s), w.timers);
      var i: nat :| i < |M.At(w.model, j, s).timers| && M.At(w.model, j, s).timers[i] == f;
      assert b.timers[i] in w.timers;
    }
  }

  lemma SameIdentity(w: TimingWheel, t: Timer)
    requires w.Traced() && t in w.timers && t.bucket == null
    ensures t.id < |w.timers| && forall u | u in w.timers && u.id == t.id :: u.bucket == null
  {
  }

  /** A timer with the next identity can be added and is not held. */
  lemma NewIdentity(w: TimingWheel, t: Timer)
    requires w.Rep() && w.Traced() && t !in w.timers && t.id == |w.timers|
    ensures Identified(w.timers + {t}, w.steps)
    ensures forall f :: I.Held(w.model.levels, f) > 0 ==> f.id != t.id
  {
    TraceMeans(w);
    NotHeld(w, t.id);
    hide w.Rep, I.Inv, I.Held;
    assert |w.timers + {t}| == |w.timers| + 1;
  }

  /** A bucket that lists ts without position i shows the model's list without it. */
  lemma ShownWithout(b: Bucket, m: M.Bucket, timers: set<Timer>, ts: seq<Timer>, i: nat)
    requires i < |ts| == |m.timers| && b.timers == ts[..i] + ts[i + 1..] && b.expiration == m.expiration
    requires forall k: nat | k < |ts| && k != i ::
               ts[k] in timers && ts[k].bucket == b && ts[k].Entry() == m.timers[k]
    requires forall k: nat, l: nat | k < l < |ts| :: ts[k] != ts[l]
    ensures b.Shows(m.(timers := m.timers[..i] + m.timers[i + 1..]), timers)
  {
    assert forall k: nat | k < |b.timers| :: b.timers[k] == ts[if k < i then k else k + 1];
  }

  /** A bucket of the chain, read through the representation. */
  lemma ShownAt(w: TimingWheel, b: Bucket)
    requires w.Rep() && Placed(w.chain, b)
    ensures M.InRange(w.model, b.level, b.slot) && b in w.allBuckets
    ensures b.expiration == M.At(w.model, b.level, b.slot).expiration
    ensures |b.timers| == |M.At(w.model, b.level, b.slot).timers|
    ensures forall t | t in b.timers :: t in w.timers && t.bucket == b
    ensures forall i: nat, k: nat | i < k < |b.timers| :: b.timers[i] != b.timers[k]
  {
    assert BuiltAt(w.chain, w.model, b.level);
    assert w.chain[b.level].buckets[b.slot].Shows(M.At(w.model, b.level, b.slot), w.timers);
  }

  lemma HeldTimer(w: TimingWheel, t: Timer)
    requires w.Rep() && t in w.timers && t.bucket != null
    ensures Placed(w.chain, t.bucket) && t.bucket in w.allBuckets
    ensures M.InRange(w.model, t.bucket.level, t.bucket.slot)
  {
    ShownAt(w, t.bucket);
  }

  lemma NewTimerShown(chain: seq<TimingWheel>, m: M.State, all: set<Bucket>, timers: set<Timer>, t: Timer)
    requires ShowsBuckets(chain, m, all, timers) && BackPointers(chain, all, timers) && t.bucket == null
    ensures ShowsBuckets(chain, m, all, timers + {t}) && BackPointers(chain, all, timers + {t})
  {
  }

  /** What turns at `now` have started: tasks due by then, appended to the log. */
  ghost predicate OnlyDueStarted(m: M.State, r: M.State, now: int) {
    && |m.fired| <= |r.fired| && r.fired[..|m.fired|] == m.fired
    && r.levels != []
    && forall f | f in r.fired[|m.fired|..] :: R.DueInCalendar(f.entry, r.levels[0].tick, now)
  }

  ghost predicate Drained(m: M.State, r: M.State, now: int) {
    C.Accounted(m, r) && OnlyDueStarted(m, r, now) && m.levels != [] && r.levels[0].tick == m.levels[0].tick
  }

  lemma NoTurnYet(m: M.State, now: int)
    requires M.Geometry(m)
    ensures Drained(m, m, now)
  {
  }

  lemma LevelsExist(m: M.State)
    requires I.Inv(m, I.Idle)
    ensures m.levels != []
  {
  }

  lemma WorkMeans(m: M.State)
    ensures C.Work(m) == |m.queue| + I.Moves(m.levels)
  {
  }

  lemma DueMeans(m: M.State, q: M.Queued, now: int)
    requires M.Due(m, q, now)
    ensures I.Earliest(m, q) && q.priority <= now
  {
  }

  lemma DrainedFurther(m: M.State, before: M.State, r: M.State, clock: int, now: int)
    requires Drained(m, before, now) && C.Accounted(before, r) && r.levels != []
    requires r.levels[0].tick == before.levels[0].tick && clock <= now
    requires |before.fired| <= |r.fired| && r.fired[..|before.fired|] == before.fired
    requires C.FiredOnTime(r.fired[|before.fired|..], before.levels[0].tick, clock)
    ensures Drained(m, r, now)
  {
    C.AccountedTwice(m, before, r);
    hide C.Accounted;
    assert r.fired[..|m.fired|] == r.fired[..|before.fired|][..|m.fired|];
    assert r.fired[|m.fired|..] == before.fired[|m.fired|..] + r.fired[|before.fired|..];
  }

  lemma AfterTurn(m: M.State, before: M.State, q: M.Queued, now: int)
    requires Drained(m, before, now) && I.Inv(before, I.Idle) && M.Due(before, q, now)
    requires M.InRange(before, q.level, q.slot)
    requires M.Geometry(M.Popped(before, q)) && M.InRange(M.Popped(before, q), q.level, q.slot)
    ensures Drained(m, M.Expire(before, q), now)
    ensures 0 <= C.Work(M.Expire(before, q)) < C.Work(before)
  {
    hide *;
    DueMeans(before, q, now);
    C.TurnKeepsInv(before, q);
    var r := M.Expire(before, q);
    C.MovesNotNegative(r.levels);
    LevelsExist(before);
    LevelsExist(r);
    DrainedFurther(m, before, r, q.priority, now);
    WorkMeans(r);
  }

  lemma AfterDrain(m: M.State, r: M.State, now: int)
    requires Drained(m, r, now) && I.Inv(r, I.Idle) && forall p | p in r.queue :: p.priority > now
    ensures r.levels != [] && m.levels != [] && r.levels[0].tick == m.levels[0].tick
    ensures C.Accounted(m, r) && OnlyDueStarted(m, r, now)
    ensures forall e: M.Entry | I.Held(r.levels, e) > 0 :: !R.DueInCalendar(e, r.levels[0].tick, now)
  {
    forall e: M.Entry | I.Held(r.levels, e) > 0
      ensures !R.DueInCalendar(e, r.levels[0].tick, now)
    {
      var q := R.HeldIsQueued(r, e);
    }
  }

  lemma StartTraced(w: TimingWheel)
    requires w.tick >= 1 && w.wheelSize >= 2 && w.start >= 0 && w.timers == {} && w.steps == []
    requires w.states == [R.Start(w.tick, w.wheelSize, w.start)] && w.model == M.NewWheel(w.tick, w.wheelSize, w.start)
    ensures w.Traced() && w.System() == R.Start(w.tick, w.wheelSize, w.start)
  {
  }

  ghost predicate ShowsStarted(started: seq<Timer>, fired: seq<M.Firing>) {
    |started| == |fired| && forall i: nat | i < |started| :: started[i].id == fired[i].entry.id
  }

  lemma BaseShown(w: TimingWheel, start: int)
    requires w.level == 0 && |w.buckets| == w.wheelSize && w.interval == w.tick * w.wheelSize
    requires w.currentTime == Truncate(start, w.tick) && w.overflowWheel == null
    requires forall s: nat | s < w.wheelSize ::
               && w.buckets[s].level == 0 && w.buckets[s].slot == s
               && w.buckets[s].expiration == -1 && w.buckets[s].timers == []
    ensures var m, all := M.NewWheel(w.tick, w.wheelSize, start), set s: nat | s < |w.buckets| :: w.buckets[s];
            && Wired([w], m) && ShowsBuckets([w], m, all, {}) && BackPointers([w], all, {})
            && ShowsQueue([], [w], m.queue) && ShowsStarted([], m.fired)
  {
    assert BuiltAt([w], M.NewWheel(w.tick, w.wheelSize, start), 0);
  }

  lemma NothingDue(items: seq<Item<Bucket>>, chain: seq<TimingWheel>, queue: multiset<M.Queued>, now: int)
    requires ShowsQueue(items, chain, queue) && forall x | x in items :: x.priority > now
    ensures forall q | q in queue :: q.priority > now
  {
    forall q | q in queue
      ensures q.priority > now
    {
      assert Represented(items, q);
    }
  }

  lemma QueueLoses(before: seq<Item<Bucket>>, x: Item<Bucket>, after: seq<Item<Bucket>>,
                   chain: seq<TimingWheel>, m: M.State, now: int)
    requires ShowsQueue(before, chain, m.queue) && x in before && x.priority <= now
    requires multiset(after) == multiset(before) - multiset{x}
    requires forall i: nat, k: nat | i < k < |before| :: before[i] != before[k]
    requires forall y | y in before :: x.priority <= y.priority
    ensures ShowsQueue(after, chain, m.queue - multiset{Key(x)})
    ensures M.Due(m, Key(x), now) && Placed(chain, x.value)
  {
    OthersRemain(before, x, after);
    var less := m.queue - multiset{Key(x)};
    assert forall q :: q in less <==> q in m.queue && q != Key(x);
    forall q | q in m.queue
      ensures Key(x).priority <= q.priority
      ensures q != Key(x) ==> Represented(after, q)
    {
      assert Represented(before, q);
      var y :| y in before && Key(y) == q;
      assert q != Key(x) ==> y in after;
    }
  }

  /** What the model does with the popped item. */
  lemma PoppedMeans(m: M.State, q: M.Queued, now: int)
    requires I.Inv(m, I.Idle) && M.Due(m, q, now)
    ensures M.InRange(m, q.level, q.slot)
    ensures M.Geometry(M.Popped(m, q)) && M.InRange(M.Popped(m, q), q.level, q.slot)
    ensures I.Inv(M.Popped(m, q), I.Flushing(q.level, q.slot))
    ensures var popped := m.(queue := m.queue - multiset{q});
            M.InRange(popped, q.level, q.slot) && M.At(popped, q.level, q.slot).expiration == q.priority
    ensures M.Popped(m, q)
         == m.(queue := m.queue - multiset{q}, levels := M.Advance(m.levels, 0, q.priority))
    ensures M.Expire(m, q) == M.Flush(M.Popped(m, q), q.level, q.slot)
    ensures I.Inv(M.Expire(m, q), I.Idle) && M.Geometry(M.Expire(m, q))
  {
    C.TurnKeepsInv(m, q);
    I.PoppedInv(m, q);
    assert I.ItemOk(m, I.Idle, q);
  }

  lemma PlacedOn(chain: seq<TimingWheel>, longer: seq<TimingWheel>, b: Bucket)
    requires Placed(chain, b) && chain <= longer
    ensures Placed(longer, b)
  {
  }

  lemma PutMeans(m: M.State, j: nat, s: nat, b: M.Bucket, chain: seq<TimingWheel>)
    requires M.InRange(m, j, s)
    ensures var r := M.PutBucket(m, j, s, b);
            r.queue == m.queue && r.fired == m.fired && (Wired(chain, m) ==> Wired(chain, r))
  {
    if Wired(chain, m) {
      forall k: nat | k < |chain|
        ensures BuiltAt(chain, M.PutBucket(m, j, s, b), k)
      {
        assert BuiltAt(chain, m, k);
      }
    }
  }

  /** Removing a timer touches one bucket of the model, and nothing that the wiring shows. */
  lemma RemoveMeans(m: M.State, j: nat, s: nat, i: nat, chain: seq<TimingWheel>)
    requires M.Geometry(m) && M.InRange(m, j, s) && i < |M.At(m, j, s).timers|
    ensures var b, r := M.At(m, j, s), M.RemoveTimer(m, j, s, i);
            && r == M.PutBucket(m, j, s, b.(timers := b.timers[..i] + b.timers[i + 1..]))
            && M.Geometry(r) && r.queue == m.queue && r.fired == m.fired
            && (Wired(chain, m) ==> Wired(chain, r))
  {
    var b := M.At(m, j, s);
    PutMeans(m, j, s, b.(timers := b.timers[..i] + b.timers[i + 1..]), chain);
  }

  lemma ReinsertMeans(m: M.State, j: nat, s: nat)
    requires M.Geometry(m) && M.InRange(m, j, s) && M.At(m, j, s).timers != []
    ensures var r := M.ReinsertFirst(m, j, s);
            && r == M.AddOrRun(M.RemoveTimer(m, j, s, 0), M.At(m, j, s).timers[0], M.OnFlush)
            && M.Geometry(r) && M.InRange(r, j, s)
  {
  }

  lemma FlushMeans(m: M.State, j: nat, s: nat)
    requires M.Geometry(m) && M.InRange(m, j, s)
    ensures var r := M.Reinsert(m, j, s, |M.At(m, j, s).timers|);
            M.Flush(m, j, s) == M.PutBucket(r, j, s, M.At(r, j, s).(expiration := -1))
  {
  }

  lemma AdvanceUnfolds(levels: seq<M.Level>, k: nat, x: int)
    ensures k >= |levels| ==> M.Advance(levels, k, x) == levels
    ensures k < |levels| ==>
              var l := levels[k];
              M.Advance(levels, k, x) ==
                if x >= l.clock + l.tick
                then M.Advance(levels[k := l.(clock := Truncate(x, l.tick))], k + 1, Truncate(x, l.tick))
                else levels
  {
  }

  /** After both clocks of level k have moved, the objects show the model again. */
  lemma ClockMoved(root: TimingWheel, m: M.State, k: nat)
    requires Built(root.chain, m) && Chained(root.chain) && k < |root.chain|
    requires root.model == m.(levels := m.levels[k := m.levels[k].(clock := root.chain[k].currentTime)])
    requires forall j: nat | j < |root.chain| && j != k :: root.chain[j].currentTime == m.levels[j].clock
    requires ShowsBuckets(root.chain, m, root.allBuckets, root.timers)
    ensures Wired(root.chain, root.model) && ShowsBuckets(root.chain, root.model, root.allBuckets, root.timers)
  {
    forall j: nat | j < |root.chain|
      ensures BuiltAt(root.chain, root.model, j)
    {
      assert BuiltAt(root.chain, m, j);
    }
    forall j: nat, s: nat | j < |root.chain| && s < |root.chain[j].buckets| && M.InRange(root.model, j, s)
      ensures root.chain[j].buckets[s] in root.allBuckets
      ensures root.chain[j].buckets[s].Shows(M.At(root.model, j, s), root.timers)
    {
      assert M.InRange(m, j, s);
    }
  }

  lemma AddOrRunMeans(m: M.State, e: M.Entry, cause: M.Cause)
    requires M.Geometry(m)
    ensures var a, r := M.Add(m, 0, e), M.AddOrRun(m, e, cause);
            && |a.state.levels| > 0
            && (a.ok ==> r == a.state)
            && (!a.ok ==> r == a.state.(fired := a.state.fired + [M.Firing(e, a.state.levels[0].clock, cause)]))
  {
  }

  lemma StartedMore(started: seq<Timer>, fired: seq<M.Firing>, t: Timer, clock: int, cause: M.Cause)
    requires ShowsStarted(started, fired)
    ensures ShowsStarted(started + [t], fired + [M.Firing(M.Entry(t.id, t.expiration), clock, cause)])
  {
  }

  lemma SameLevelsShown(chain: seq<TimingWheel>, all: set<Bucket>, timers: set<Timer>, a: M.State, b: M.State)
    requires a.levels == b.levels && a.size == b.size
    requires Wired(chain, a) && ShowsBuckets(chain, a, all, timers)
    ensures Wired(chain, b) && ShowsBuckets(chain, b, all, timers)
  {
    forall j: nat | j < |chain|
      ensures BuiltAt(chain, b, j)
    {
      assert BuiltAt(chain, a, j);
    }
  }

  lemma BaseMeans(w: TimingWheel)
    requires w.Rep()
    ensures w.level == 0 < |w.chain| == |w.model.levels| && w.chain[0] == w
  {
    assert BuiltAt(w.chain, w.model, 0);
  }

  lemma EntryMeans(t: Timer)
    ensures t.Entry() == M.Entry(t.id, t.expiration)
  {
  }

  lemma HorizonMeans(m: M.State, k: nat)
    requires k < |m.levels|
    ensures M.Horizon(m, k) == m.levels[k].clock + M.Interval(m, k)
  {
  }

  lemma InvMeans(m: M.State, busy: I.Busy, k: nat)
    requires I.Inv(m, busy) && k < |m.levels|
    ensures M.Geometry(m) && M.LevelOk(m, k) && m.levels[k].tick >= 1
  {
  }

  /** The branches of the model's Add, with the reach of the next level. */
  lemma AddUnfolds(m: M.State, k: nat, e: M.Entry)
    requires M.Geometry(m) && k < |m.levels| && M.LevelOk(m, k)
    ensures var l := m.levels[k];
            && M.Horizon(m, k) == l.clock + M.Interval(m, k)
            && (e.at < l.clock + l.tick ==> M.Add(m, k, e) == M.Added(m, false))
            && (l.clock + l.tick <= e.at < M.Horizon(m, k) ==>
                  I.Fits(m, k, e) && M.Add(m, k, e) == M.Added(M.InsertAt(m, k, e), true))
            && (l.clock + l.tick <= e.at && M.Horizon(m, k) <= e.at && k + 1 < |m.levels| ==>
                  M.Add(m, k, e) == M.Add(m, k + 1, e) && M.Horizon(m, k) < M.Horizon(m, k + 1))
            && (l.clock + l.tick <= e.at && M.Horizon(m, k) <= e.at && k + 1 == |m.levels| ==>
                  && M.Geometry(M.Grow(m)) && k + 1 < |M.Grow(m).levels| && M.Add(m, k, e) == M.Add(M.Grow(m), k + 1, e)
                  && M.Horizon(m, k) < M.Horizon(M.Grow(m), k + 1))
  {
    if k + 1 == |m.levels| {
      M.GrowKeepsGeometry(m);
    } else {
      M.HorizonGrowsAt(m, k);
    }
  }

  /** The fields of a wheel of the chain, in terms of the model. */
  lemma WheelMeans(w: TimingWheel, root: TimingWheel)
    requires root.Rep() && w.level < |root.chain| && root.chain[w.level] == w
    ensures |root.chain| == |root.model.levels|
    ensures var l := root.model.levels[w.level];
            && w.tick == l.tick && w.currentTime == l.clock
            && w.wheelSize == root.model.size && w.interval == M.Interval(root.model, w.level)
            && w.queue == root.queue
    ensures w.overflowWheel == null <==> w.level + 1 == |root.chain|
    ensures w.overflowWheel != null ==>
              w.overflowWheel == root.chain[w.level + 1] && w.overflowWheel.level == w.level + 1
  {
    assert BuiltAt(root.chain, root.model, w.level) && BuiltAt(root.chain, root.model, 0);
    if w.level + 1 < |root.chain| {
      assert BuiltAt(root.chain, root.model, w.level + 1);
    }
  }

  lemma AllDifferent(chain: seq<TimingWheel>, m: M.State)
    requires Built(chain, m)
    ensures m.size >= 0 && |chain| == |m.levels| >= 1
    ensures forall i: nat, j: nat | i < j < |chain| :: chain[i] != chain[j]
    ensures forall j: nat | j < |chain| :: chain[j].interval == M.Interval(m, j)
  {
    assert BuiltAt(chain, m, 0);
    forall j: nat | j < |chain|
      ensures chain[j].level == j && chain[j].interval == M.Interval(m, j) && m.size >= 0
    {
      assert BuiltAt(chain, m, j);
    }
  }

  lemma WiredMeans(chain: seq<TimingWheel>, m: M.State)
    requires Wired(chain, m)
    ensures Built(chain, m) && Chained(chain) && |chain| == |m.levels|
    ensures forall j: nat | j < |chain| :: chain[j].currentTime == m.levels[j].clock
    ensures forall i: nat, j: nat | i < j < |chain| :: chain[i] != chain[j]
  {
    AllDifferent(chain, m);
  }

  lemma GrowBuilt(chain: seq<TimingWheel>, w: TimingWheel, m: M.State)
    requires Built(chain, m) && m.size >= 0
    requires w.level == |chain| && w.wheelSize == m.size && w.queue == chain[0].queue
    requires w.tick == chain[|chain| - 1].interval && w.interval == w.tick * w.wheelSize && |w.buckets| == w.wheelSize
    requires forall s: nat | s < |w.buckets| :: w.buckets[s].level == w.level && w.buckets[s].slot == s
    ensures Built(chain + [w], M.Grow(m))
  {
    var n := |chain|;
    assert BuiltAt(chain, m, n - 1);
    forall j: nat | j < n + 1
      ensures BuiltAt(chain + [w], M.Grow(m), j)
    {
      if j < n { assert BuiltAt(chain, m, j); }
    }
  }

  lemma GrowBuckets(chain: seq<TimingWheel>, w: TimingWheel, m: M.State, all: set<Bucket>, timers: set<Timer>)
    requires Built(chain, m) && m.size >= 0 && |w.buckets| == m.size
    requires ShowsBuckets(chain, m, all, timers) && BackPointers(chain, all, timers)
    requires forall s: nat | s < |w.buckets| :: w.buckets[s].expiration == -1 && w.buckets[s].timers == []
    ensures var more := all + set s: nat | s < |w.buckets| :: w.buckets[s];
            ShowsBuckets(chain + [w], M.Grow(m), more, timers) && BackPointers(chain + [w], more, timers)
  {
    forall j: nat, s: nat | j < |chain| && s < |chain[j].buckets| && M.InRange(M.Grow(m), j, s)
      ensures chain[j].buckets[s] in all && chain[j].buckets[s].Shows(M.At(M.Grow(m), j, s), timers)
    {
      assert M.InRange(m, j, s);
    }
  }

  lemma GrowQueue(chain: seq<TimingWheel>, w: TimingWheel, m: M.State, items: seq<Item<Bucket>>)
    requires |m.levels| >= 1 && m.size >= 0 && ShowsQueue(items, chain, m.queue)
    ensures ShowsQueue(items, chain + [w], M.Grow(m).queue)
  {
  }

  lemma ChainedOn(chain: seq<TimingWheel>, w: TimingWheel)
    requires chain != [] && chain[|chain| - 1].overflowWheel == w && w.overflowWheel == null
    requires forall j: nat | j < |chain| - 1 :: chain[j].overflowWheel == chain[j + 1]
    ensures Chained(chain + [w])
  {
  }

  lemma RepMeans(w: TimingWheel)
    requires w.Rep()
    ensures w.chain != [] && Wired(w.chain, w.model) && w.chain[0] == w
    ensures ShowsBuckets(w.chain, w.model, w.allBuckets, w.timers) && BackPointers(w.chain, w.allBuckets, w.timers)
    ensures w.queue.Valid() && ShowsQueue(w.queue.items, w.chain, w.model.queue)
    ensures ShowsStarted(w.started, w.model.fired)
  {
  }

  lemma RepHolds(w: TimingWheel)
    requires w.chain != [] && Wired(w.chain, w.model) && w.chain[0] == w
    requires ShowsBuckets(w.chain, w.model, w.allBuckets, w.timers) && BackPointers(w.chain, w.allBuckets, w.timers)
    requires w.queue.Valid() && ShowsQueue(w.queue.items, w.chain, w.model.queue)
    requires ShowsStarted(w.started, w.model.fired)
    ensures w.Rep()
  {
  }

  /** A bucket whose expiration is about to change is at rest, and nothing is queued for its new time. */
  lemma SlotIsFree(m: M.State, busy: I.Busy, k: nat, e: M.Entry)
    requires I.Inv(m, busy) && I.Fits(m, k, e) && M.LevelOk(m, k)
    ensures var s, t := Slot(e.at, m.levels[k].tick, m.size), e.at / m.levels[k].tick * m.levels[k].tick;
            M.At(m, k, s).expiration != t ==> M.Queued(k, s, t) !in m.queue
  {
    var s, t := Slot(e.at, m.levels[k].tick, m.size), e.at / m.levels[k].tick * m.levels[k].tick;
    if M.Queued(k, s, t) in m.queue {
      assert I.ItemOk(m, busy, M.Queued(k, s, t));
    }
  }

  /** The bucket that add picks is the one the model inserts into. */
  lemma TargetBucket(w: TimingWheel, t: Timer, root: TimingWheel, busy: I.Busy)
    requires root.Rep() && I.Inv(root.model, busy)
    requires w.level < |root.chain| && root.chain[w.level] == w
    requires I.Fits(root.model, w.level, t.Entry()) && M.LevelOk(root.model, w.level)
    ensures var m, k := root.model, w.level;
            var l := m.levels[k];
            && w.tick == l.tick >= 1 && w.wheelSize == m.size == |l.buckets| == |w.buckets| && m.size >= 1
            && w.queue == root.queue && t.Entry() == M.Entry(t.id, t.expiration)
            && var s, time := Slot(t.expiration, l.tick, m.size), t.expiration / l.tick * l.tick;
               var b := w.buckets[s];
               && s == t.expiration / w.tick % w.wheelSize
               && b.level == k && b.slot == s && Placed(root.chain, b) && b in root.allBuckets
               && M.InRange(m, k, s)
               && b.expiration == M.At(m, k, s).expiration
               && (b.expiration != time ==> M.Queued(k, s, time) !in m.queue)
  {
    var m, k := root.model, w.level;
    assert BuiltAt(root.chain, m, k) && BuiltAt(root.chain, m, 0);
    SlotIsFree(m, busy, k, t.Entry());
    var s := Slot(t.expiration, w.tick, m.size);
    assert root.chain[k].buckets[s].Shows(M.At(m, k, s), root.timers);
  }

  ghost function Linked(m: M.State, j: nat, s: nat, expiration: int, e: M.Entry): M.State
    requires M.InRange(m, j, s)
  {
    M.PutBucket(m, j, s, M.Bucket(expiration, M.At(m, j, s).timers + [e]))
  }

  /** The model's insertion changes the bucket as Link does, and nothing that the wiring shows. */
  lemma InsertIsLinked(m: M.State, k: nat, e: M.Entry, chain: seq<TimingWheel>, all: set<Bucket>, timers: set<Timer>)
    requires k < |m.levels| && m.levels[k].tick >= 1 && m.size >= 1 && |m.levels[k].buckets| == m.size
    ensures var l := m.levels[k];
            var s, t := Slot(e.at, l.tick, m.size), e.at / l.tick * l.tick;
            && M.InRange(m, k, s)
            && M.InsertAt(m, k, e).levels == Linked(m, k, s, t, e).levels
            && M.InsertAt(m, k, e).fired == m.fired
            && M.InsertAt(m, k, e).queue
               == (if M.At(m, k, s).expiration != t then m.queue + multiset{M.Queued(k, s, t)} else m.queue)
            && (ShowsBuckets(chain, Linked(m, k, s, t, e), all, timers) ==>
                  ShowsBuckets(chain, M.InsertAt(m, k, e), all, timers))
            && (Wired(chain, m) ==> Wired(chain, M.InsertAt(m, k, e)))
  {
    var r := M.InsertAt(m, k, e);
    if Wired(chain, m) {
      forall j: nat | j < |chain|
        ensures BuiltAt(chain, r, j)
      {
        assert BuiltAt(chain, m, j);
      }
    }
  }

  lemma PermutesAfter<T>(a: seq<T>, x: T, b: seq<T>)
    requires multiset(b) == multiset(a) + multiset{x}
    ensures Permutes(a + [x], b)
  {
    assert multiset(a + [x]) == multiset(b);
    assert |multiset(b)| == |b| && |multiset(a + [x])| == |a + [x]|;
  }

  lemma KeyMeans(x: Item<Bucket>)
    ensures Key(x) == M.Queued(x.value.level, x.value.slot, x.priority)
  {
  }

  lemma NewMember<T>(s: seq<T>, x: T)
    ensures forall y :: y in s + [x] <==> y in s || y == x
  {
  }

  lemma OneMoreKey(queue: multiset<M.Queued>, q: M.Queued)
    requires q !in queue
    ensures forall p :: p in queue + multiset{q} <==> p in queue || p == q
    ensures (queue + multiset{q})[q] == 1 && forall p | p in queue :: (queue + multiset{q})[p] == queue[p]
  {
  }

  lemma QueueGains(items: seq<Item<Bucket>>, x: Item<Bucket>, chain: seq<TimingWheel>, queue: multiset<M.Queued>)
    requires ShowsQueue(items, chain, queue) && Placed(chain, x.value) && Key(x) !in queue
    ensures ShowsQueue(items + [x], chain, queue + multiset{Key(x)})
  {
    var more := items + [x];
    NewMember(items, x);
    OneMoreKey(queue, Key(x));
    hide Key, Placed;
    forall q | q in queue + multiset{Key(x)}
      ensures Represented(more, q)
    {
      if q != Key(x) {
        assert Represented(items, q);
        var y :| y in items && Key(y) == q;
        assert y in more;
      }
    }
  }

  lemma SameItems(a: seq<Item<Bucket>>, b: seq<Item<Bucket>>, chain: seq<TimingWheel>, queue: multiset<M.Queued>)
    requires Permutes(a, b) && ShowsQueue(a, chain, queue)
    ensures ShowsQueue(b, chain, queue)
  {
    SameMembers(a, b);
    forall q | q in queue
      ensures Represented(b, q)
    {
      assert Represented(a, q);
    }
  }

  class TimingWheel {
    const tick: int
    const wheelSize: nat
    const interval: int
    const buckets: seq<Bucket>
    const queue: PriorityQueue<Bucket>
    var currentTime: int
    var overflowWheel: TimingWheel?

    /** Tasks started so far, in order; used by the base wheel. */
    var started: seq<Timer>

    ghost const level: nat
    // The following are used by the base wheel only.
    ghost var chain: seq<TimingWheel>
    ghost var timers: set<Timer>
    ghost var allBuckets: set<Bucket>
    ghost var model: M.State
    /** The run that the calls of the base wheel have made so far. */
    ghost const start: int
    ghost var states: seq<R.System>
    ghost var steps: seq<R.Step>

    /** newTimingWheel. */
    constructor (tick: int, wheelSize: nat, start: int, queue: PriorityQueue<Bucket>, ghost level: nat)
      ensures this.tick == tick && this.wheelSize == wheelSize && this.interval == tick * wheelSize
      ensures this.queue == queue && this.level == level && this.start == start
      ensures currentTime == Truncate(start, tick) && overflowWheel == null && started == [] && timers == {}
      ensures |buckets| == wheelSize
      ensures forall s: nat | s < wheelSize :: fresh(buckets[s])
      ensures forall s: nat | s < wheelSize ::
                && buckets[s].level == level && buckets[s].slot == s
                && buckets[s].expiration == -1 && buckets[s].timers == []
    {
      var bs: seq<Bucket> := [];
      for i := 0 to wheelSize
        invariant |bs| == i && forall s: nat | s < i :: fresh(bs[s])
        invariant forall s: nat | s < i ::
                    bs[s].level == level && bs[s].slot == s && bs[s].expiration == -1 && bs[s].timers == []
      {
        var b := new Bucket(level, i);
        bs := bs + [b];
      }
      this.tick, this.wheelSize, this.interval := tick, wheelSize, tick * wheelSize;
      this.buckets, this.queue, this.level, this.start := bs, queue, level, start;
      currentTime, overflowWheel, started := Truncate(start, tick), null, [];
      chain, timers, allBuckets, model := [], {}, {}, M.State(0, [], multiset{}, []);
      states, steps := [], [];
    }

    ghost predicate Rep()
      reads this`chain, this`model, this`allBuckets, this`timers, this`started
      reads chain`overflowWheel, chain`currentTime, allBuckets, timers, queue, queue.slots, queue.items
    {
      && Wired(chain, model) && chain[0] == this
      && ShowsBuckets(chain, model, allBuckets, timers)
      && BackPointers(chain, allBuckets, timers)
      && queue.Valid() && ShowsQueue(queue.items, chain, model.queue)
      && ShowsStarted(started, model.fired)
    }

    /**
     The calls so far are a run of module WheelRuns from the new wheel to m, and every timer that
     AfterFunc has created has its own identity.
     */
    ghost predicate TracedTo(m: M.State)
      reads this`states, this`steps, this`timers
      ensures TracedTo(m) ==> states != []
    {
      RunTo(m) && Identified(timers, steps)
    }

    ghost predicate RunTo(m: M.State)
      reads this`states, this`steps
      ensures RunTo(m) ==> states != []
    {
      && tick >= 1 && wheelSize >= 2 && start >= 0
      && R.IsRun(states, steps) && states[0] == R.Start(tick, wheelSize, start)
      && states[|states| - 1].wheel == m
    }

    ghost predicate Traced()
      reads this`model, this`states, this`steps, this`timers
      ensures Traced() ==> states != []
    {
      TracedTo(model)
    }

    /** The system of module WheelRuns that the calls have led to. */
    ghost function System(): R.System
      requires states != []
      reads this`states
    {
      states[|states| - 1]
    }

    /** The objects have taken one more step of the run. */
    ghost method Record(step: R.Step)
      requires states != [] && TracedTo(System().wheel)
      requires I.Inv(System().wheel, I.Idle) && R.Enabled(System(), step) && R.Do(System(), step).wheel == model
      requires step.Arrive? ==> step.e.id < |timers|
      modifies this`states, this`steps
      ensures Traced() && System() == R.Do(old(System()), step) && System().wheel == model && TracedTo(System().wheel)
      ensures states == old(states) + [System()] && steps == old(steps) + [step]
    {
      hide R.IsRun, R.Do, R.Enabled, R.Start, I.Inv, Identified;
      R.RunGoesOn(states, steps, step);
      IdentifiedStill(timers, steps, step);
      states, steps := states + [R.Do(System(), step)], steps + [step];
    }

    // ----- add -----

    /** b.Add(t) and b.SetExpiration(expiration) on the bucket that the model inserts into. */
    method Link(b: Bucket, t: Timer, expiration: int, ghost root: TimingWheel) returns (changed: bool)
      requires Wired(root.chain, root.model) && ShowsBuckets(root.chain, root.model, root.allBuckets, root.timers)
      requires BackPointers(root.chain, root.allBuckets, root.timers)
      requires Placed(root.chain, b) && M.InRange(root.model, b.level, b.slot)
      requires t in root.timers && t.bucket == null
      modifies b, t`bucket
      ensures ShowsBuckets(root.chain, Linked(root.model, b.level, b.slot, expiration, t.Entry()),
                           root.allBuckets, root.timers)
      ensures BackPointers(root.chain, root.allBuckets, root.timers)
      ensures changed == (old(b.expiration) != expiration) && b.expiration == expiration
    {
      ghost var m, chain, timers := root.model, root.chain, root.timers;
      label before:
      b.Add(t);
      changed := b.SetExpiration(expiration);
      forall j: nat, s: nat | j < |chain| && s < |chain[j].buckets| && M.InRange(m, j, s)
        ensures chain[j].buckets[s] in root.allBuckets
        ensures chain[j].buckets[s].Shows(M.At(Linked(m, b.level, b.slot, expiration, t.Entry()), j, s), timers)
      {
        var c := chain[j].buckets[s];
        assert BuiltAt(chain, m, j);
        assert old@before(c.Shows(M.At(m, j, s), timers));
        assert t !in old@before(c.timers);
        if c == b {
          assert (j, s) == (b.level, b.slot);
        } else {
          assert (j, s) != (b.level, b.slot);
        }
      }
    }

    /** queue.Offer(b, b.Expiration()). */
    method Enqueue(b: Bucket, ghost chain: seq<TimingWheel>, ghost q: multiset<M.Queued>)
      requires queue.Valid() && ShowsQueue(queue.items, chain, q) && Placed(chain, b)
      requires M.Queued(b.level, b.slot, b.expiration) !in q
      modifies queue, queue.slots, queue.items
      ensures queue.Valid()
      ensures ShowsQueue(queue.items, chain, q + multiset{M.Queued(b.level, b.slot, b.expiration)})
      ensures queue.slots == old(queue.slots) || fresh(queue.slots)
      ensures forall i: nat | i < |queue.items| :: queue.items[i] in old(queue.items) || fresh(queue.items[i])
    {
      hide *;
      ghost var items := queue.items;
      var item := new Item(b, b.expiration);
      KeyMeans(item);
      QueueGains(items, item, chain, q);
      queue.Offer(item);
      PermutesAfter(items, item, queue.items);
      SameItems(items + [item], queue.items, chain, q + multiset{Key(item)});
    }

    /** The middle branch of add: the timer fits this wheel. */
    method Put(t: Timer, ghost root: TimingWheel, ghost busy: I.Busy)
      requires root.Rep() && I.Inv(root.model, busy)
      requires level < |root.chain| && root.chain[level] == this
      requires t in root.timers && t.bucket == null && I.Fits(root.model, level, t.Entry())
      requires M.LevelOk(root.model, level)
      modifies root`model, root.allBuckets, t`bucket, queue, queue.slots, queue.items
      ensures root.Rep() && root.model == M.InsertAt(old(root.model), level, t.Entry())
      ensures queue.slots == old(queue.slots) || fresh(queue.slots)
      ensures forall i: nat | i < |queue.items| :: queue.items[i] in old(queue.items) || fresh(queue.items[i])
    {
      hide *;
      ghost var m, e := root.model, t.Entry();
      RepMeans(root);
      TargetBucket(this, t, root, busy);
      var virtualID := t.expiration / tick;
      var b := buckets[virtualID % wheelSize];
      InsertIsLinked(m, level, e, root.chain, root.allBuckets, root.timers);
      var changed := Link(b, t, virtualID * tick, root);
      InsertIsLinked(m, level, e, root.chain, root.allBuckets, root.timers);
      assert ShowsBuckets(root.chain, M.InsertAt(m, level, e), root.allBuckets, root.timers);
      if changed {
        Enqueue(b, root.chain, m.queue);
      }
      root.model := M.InsertAt(m, level, e);
      RepHolds(root);
    }

    /** What add does first at the top of the chain: create the overflow wheel. */
    method CreateOverflow(ghost root: TimingWheel)
      requires root.Rep() && M.Geometry(root.model)
      requires level < |root.chain| && root.chain[level] == this && overflowWheel == null
      modifies this`overflowWheel, root`chain, root`model, root`allBuckets
      ensures root.Rep() && root.model == M.Grow(old(root.model))
      ensures overflowWheel != null && fresh(overflowWheel) && root.chain == old(root.chain) + [overflowWheel]
      ensures overflowWheel.level == level + 1 == |old(root.chain)|
      ensures old(root.allBuckets) <= root.allBuckets && fresh(root.allBuckets - old(root.allBuckets))
    {
      hide Built, ShowsBuckets, BackPointers, ShowsQueue, M.Geometry, Rep;
      ghost var m, chain := root.model, root.chain;
      RepMeans(root);
      WheelMeans(this, root);
      AllDifferent(chain, m);
      var w := new TimingWheel(interval, wheelSize, currentTime, queue, level + 1);
      overflowWheel := w;
      root.chain := chain + [w];
      root.model := M.Grow(m);
      root.allBuckets := root.allBuckets + (set s: nat | s < |w.buckets| :: w.buckets[s]);
      GrowBuilt(chain, w, m);
      GrowBuckets(chain, w, m, old(root.allBuckets), root.timers);
      GrowQueue(chain, w, m, root.queue.items);
      ChainedOn(chain, w);
      RepHolds(root);
    }

    /** The overflow wheel of this wheel, created if there is none yet. */
    method Overflow(ghost e: M.Entry, ghost root: TimingWheel, ghost busy: I.Busy) returns (w: TimingWheel)
      requires root.Rep() && I.Inv(root.model, busy) && M.Geometry(root.model)
      requires level < |root.chain| && root.chain[level] == this
      requires currentTime + tick <= e.at && currentTime + interval <= e.at
      modifies root`model, root`chain, root`allBuckets, this`overflowWheel
      ensures root.Rep() && I.Inv(root.model, busy) && M.Geometry(root.model)
      ensures |old(root.model).levels| == |old(root.chain)|
      ensures w.level == level + 1 < |root.chain| == |root.model.levels| && root.chain[w.level] == w && w.queue == queue
      ensures M.Add(root.model, w.level, e) == M.Add(old(root.model), level, e)
      ensures currentTime + interval < w.currentTime + w.interval
      ensures root.chain == old(root.chain) || (root.chain == old(root.chain) + [w] && fresh(w))
      ensures old(root.allBuckets) <= root.allBuckets && fresh(root.allBuckets - old(root.allBuckets))
    {
      hide *;
      ghost var m := root.model;
      WheelMeans(this, root);
      InvMeans(m, busy, level);
      AddUnfolds(m, level, e);
      HorizonMeans(m, level);
      if overflowWheel == null {
        I.GrowKeepsInv(m, busy);
        CreateOverflow(root);
      }
      w := overflowWheel;
      WheelMeans(w, root);
      HorizonMeans(root.model, level + 1);
    }

    /**
     TimingWheel.add on this wheel of the chain of `root`. It changes the objects exactly as the
     model's Add changes the model, and reports the same result.
     */
    method Add(t: Timer, ghost root: TimingWheel, ghost busy: I.Busy) returns (ok: bool)
      requires root.Rep() && I.Inv(root.model, busy) && M.Geometry(root.model)
      requires level < |root.chain| == |root.model.levels| && root.chain[level] == this
      requires t in root.timers && t.bucket == null
      modifies root`model, root`chain, root`allBuckets, root.chain`overflowWheel
      modifies root.allBuckets, t`bucket, queue, queue.slots, queue.items
      ensures root.Rep()
      ensures M.Added(root.model, ok) == M.Add(old(root.model), level, t.Entry())
      ensures old(root.chain) <= root.chain
      ensures forall i: nat | i < |root.chain| :: root.chain[i] in old(root.chain) || fresh(root.chain[i])
      ensures old(root.allBuckets) <= root.allBuckets && fresh(root.allBuckets - old(root.allBuckets))
      ensures queue.slots == old(queue.slots) || fresh(queue.slots)
      ensures forall i: nat | i < |queue.items| :: queue.items[i] in old(queue.items) || fresh(queue.items[i])
      decreases t.expiration - currentTime - interval
    {
      hide *;
      ghost var m, e := root.model, t.Entry();
      WheelMeans(this, root);
      InvMeans(m, busy, level);
      AddUnfolds(m, level, e);
      EntryMeans(t);
      if t.expiration < currentTime + tick {
        ok := false;
      } else if t.expiration < currentTime + interval {
        Put(t, root, busy);
        ok := true;
      } else {
        var w := Overflow(e, root, busy);
        ok := w.Add(t, root, busy);
      }
    }

    /** addOrRun on the base wheel; starting a task is recorded in `started`. */
    method AddOrRun(t: Timer, ghost busy: I.Busy, ghost cause: M.Cause)
      requires Rep() && I.Inv(model, busy) && M.Geometry(model)
      requires t in timers && t.bucket == null
      modifies this`model, this`chain, this`allBuckets, this`started, chain`overflowWheel
      modifies allBuckets, t`bucket, queue, queue.slots, queue.items
      ensures Rep() && model == M.AddOrRun(old(model), t.Entry(), cause)
      ensures old(chain) <= chain && forall i: nat | i < |chain| :: chain[i] in old(chain) || fresh(chain[i])
      ensures old(allBuckets) <= allBuckets && fresh(allBuckets - old(allBuckets))
      ensures queue.slots == old(queue.slots) || fresh(queue.slots)
      ensures forall i: nat | i < |queue.items| :: queue.items[i] in old(queue.items) || fresh(queue.items[i])
    {
      hide *;
      ghost var m := model;
      BaseMeans(this);
      AddOrRunMeans(m, t.Entry(), cause);
      var ok := Add(t, this, busy);
      if !ok {
        RepMeans(this);
        ghost var added := model;
        StartedMore(started, added.fired, t, added.levels[0].clock, cause);
        EntryMeans(t);
        started := started + [t];
        model := M.AddOrRun(m, t.Entry(), cause);
        SameLevelsShown(chain, allBuckets, timers, added, model);
        RepHolds(this);
      }
    }

    // ----- the event loop -----

    /** advanceClock on this wheel of the chain of `root`. */
    method AdvanceClock(expiration: int, ghost root: TimingWheel)
      requires root.Rep() && level < |root.chain| == |root.model.levels| && root.chain[level] == this
      modifies root.chain`currentTime, root`model
      ensures root.Rep()
      ensures root.model == old(root.model).(levels := M.Advance(old(root.model).levels, level, expiration))
      decreases |root.chain| - level
    {
      hide *;
      ghost var m := root.model;
      WheelMeans(this, root);
      AdvanceUnfolds(m.levels, level, expiration);
      if expiration >= currentTime + tick {
        RepMeans(root);
        WiredMeans(root.chain, m);
        ghost var moved := m.(levels := m.levels[level := m.levels[level].(clock := Truncate(expiration, tick))]);
        currentTime := Truncate(expiration, tick);
        root.model := moved;
        ClockMoved(root, m, level);
        RepHolds(root);
        WheelMeans(this, root);
        if overflowWheel != null {
          overflowWheel.AdvanceClock(currentTime, root);
        } else {
          AdvanceUnfolds(moved.levels, level + 1, currentTime);
        }
      }
    }

    /** Bucket.remove of a listed timer, as the model removes it from its position. */
    method Unlink(b: Bucket, t: Timer, ghost root: TimingWheel) returns (removed: bool, ghost i: nat)
      requires Wired(root.chain, root.model) && ShowsBuckets(root.chain, root.model, root.allBuckets, root.timers)
      requires BackPointers(root.chain, root.allBuckets, root.timers)
      requires Placed(root.chain, b) && M.InRange(root.model, b.level, b.slot)
      requires t in root.timers && t.bucket == b
      modifies b`timers, t`bucket
      ensures removed && t.bucket == null
      ensures i < |old(b.timers)| && old(b.timers)[i] == t
      ensures var m, ts := root.model, M.At(root.model, b.level, b.slot).timers;
              && i < |ts| && ts[i] == t.Entry()
              && var left := M.At(m, b.level, b.slot).(timers := ts[..i] + ts[i + 1..]);
                 ShowsBuckets(root.chain, M.PutBucket(m, b.level, b.slot, left), root.allBuckets, root.timers)
      ensures BackPointers(root.chain, root.allBuckets, root.timers)
      ensures b.timers == old(b.timers)[..i] + old(b.timers)[i + 1..]
    {
      hide ShowsClocks, Chained;
      ghost var m, chain, timers := root.model, root.chain, root.timers;
      assert b.Shows(M.At(m, b.level, b.slot), timers);
      i := WithoutAt(b.timers, t);
      ghost var ts := M.At(m, b.level, b.slot).timers;
      ghost var r := M.PutBucket(m, b.level, b.slot, M.At(m, b.level, b.slot).(timers := ts[..i] + ts[i + 1..]));
      label before:
      removed := b.Remove(t);
      ShownWithout(b, M.At(m, b.level, b.slot), timers, old(b.timers), i);
      forall j: nat, s: nat | j < |chain| && s < |chain[j].buckets| && M.InRange(m, j, s)
        ensures chain[j].buckets[s] in root.allBuckets
        ensures chain[j].buckets[s].Shows(M.At(r, j, s), timers)
      {
        var c := chain[j].buckets[s];
        assert BuiltAt(chain, m, j);
        assert old@before(c.Shows(M.At(m, j, s), timers));
        assert c == b <==> (j, s) == (b.level, b.slot);
      }
    }

    /** The b.SetExpiration(-1) that ends a flush. */
    method Rest(b: Bucket, ghost root: TimingWheel)
      requires Built(root.chain, root.model)
      requires ShowsBuckets(root.chain, root.model, root.allBuckets, root.timers)
      requires BackPointers(root.chain, root.allBuckets, root.timers)
      requires Placed(root.chain, b) && M.InRange(root.model, b.level, b.slot)
      modifies b`expiration
      ensures var rested := M.At(root.model, b.level, b.slot).(expiration := -1);
              ShowsBuckets(root.chain, M.PutBucket(root.model, b.level, b.slot, rested), root.allBuckets, root.timers)
      ensures BackPointers(root.chain, root.allBuckets, root.timers)
    {
      ghost var m, chain, timers := root.model, root.chain, root.timers;
      ghost var r := M.PutBucket(m, b.level, b.slot, M.At(m, b.level, b.slot).(expiration := -1));
      label before:
      var changed := b.SetExpiration(-1);
      forall j: nat, s: nat | j < |chain| && s < |chain[j].buckets| && M.InRange(m, j, s)
        ensures chain[j].buckets[s] in root.allBuckets
        ensures chain[j].buckets[s].Shows(M.At(r, j, s), timers)
      {
        var c := chain[j].buckets[s];
        assert BuiltAt(chain, m, j);
        assert old@before(c.Shows(M.At(m, j, s), timers));
        assert c == b <==> (j, s) == (b.level, b.slot);
      }
    }

    /** One round of Bucket.Flush(tw.addOrRun): remove the first timer and reinsert it. */
    method FlushFirst(b: Bucket)
      requires Rep() && I.Inv(model, I.Flushing(b.level, b.slot)) && M.Geometry(model)
      requires Placed(chain, b) && M.InRange(model, b.level, b.slot) && b in allBuckets && b.timers != []
      modifies this`model, this`chain, this`allBuckets, this`started, chain`overflowWheel
      modifies allBuckets, timers`bucket, queue, queue.slots, queue.items
      ensures Rep() && I.Inv(model, I.Flushing(b.level, b.slot)) && M.Geometry(model)
      ensures Placed(chain, b) && M.InRange(model, b.level, b.slot) && b in allBuckets
      ensures M.At(old(model), b.level, b.slot).timers != []
      ensures model == M.ReinsertFirst(old(model), b.level, b.slot)
      ensures |b.timers| == |old(b.timers)| - 1
      ensures old(chain) <= chain && forall i: nat | i < |chain| :: chain[i] in old(chain) || fresh(chain[i])
      ensures old(allBuckets) <= allBuckets && fresh(allBuckets - old(allBuckets))
      ensures queue.slots == old(queue.slots) || fresh(queue.slots)
      ensures forall i: nat | i < |queue.items| :: queue.items[i] in old(queue.items) || fresh(queue.items[i])
    {
      hide *;
      ghost var m, busy := model, I.Flushing(b.level, b.slot);
      RepMeans(this);
      ShownAt(this, b);
      var t := b.timers[0];
      var removed, i := Unlink(b, t, this);
      I.RemoveKeepsInv(m, busy, b.level, b.slot, i);
      RemoveMeans(m, b.level, b.slot, i, chain);
      model := M.RemoveTimer(m, b.level, b.slot, i);
      RepHolds(this);
      AddOrRun(t, busy, M.OnFlush);
      C.RoundInv(m, b.level, b.slot);
      ReinsertMeans(m, b.level, b.slot);
      PlacedOn(old(chain), chain, b);
      ShownAt(this, b);
    }

    /** The loop of Bucket.Flush(tw.addOrRun). */
    method FlushTimers(b: Bucket)
      requires Rep() && I.Inv(model, I.Flushing(b.level, b.slot)) && M.Geometry(model)
      requires Placed(chain, b) && M.InRange(model, b.level, b.slot) && b in allBuckets
      modifies this`model, this`chain, this`allBuckets, this`started, chain`overflowWheel
      modifies allBuckets, timers`bucket, queue, queue.slots, queue.items
      ensures Rep() && M.Geometry(model) && Placed(chain, b) && M.InRange(model, b.level, b.slot)
      ensures model == M.Reinsert(old(model), b.level, b.slot, |old(b.timers)|) && b.timers == []
      ensures old(chain) <= chain && forall i: nat | i < |chain| :: chain[i] in old(chain) || fresh(chain[i])
      ensures old(allBuckets) <= allBuckets && fresh(allBuckets - old(allBuckets))
      ensures queue.slots == old(queue.slots) || fresh(queue.slots)
      ensures forall i: nat | i < |queue.items| :: queue.items[i] in old(queue.items) || fresh(queue.items[i])
    {
      hide *;
      ghost var j, s, n := b.level, b.slot, |b.timers|;
      while b.timers != []
        invariant Rep() && I.Inv(model, I.Flushing(j, s)) && M.Geometry(model)
        invariant Placed(chain, b) && M.InRange(model, j, s) && b in allBuckets
        invariant M.Reinsert(model, j, s, |b.timers|) == M.Reinsert(old(model), j, s, n)
        invariant old(chain) <= chain && forall i: nat | i < |chain| :: chain[i] in old(chain) || fresh(chain[i])
        invariant old(allBuckets) <= allBuckets && fresh(allBuckets - old(allBuckets)) && timers == old(timers)
        invariant queue.slots == old(queue.slots) || fresh(queue.slots)
        invariant forall i: nat | i < |queue.items| :: queue.items[i] in old(queue.items) || fresh(queue.items[i])
        decreases |b.timers|
      {
        C.ReinsertUnfolds(model, j, s, |b.timers|);
        FlushFirst(b);
      }
      C.ReinsertUnfolds(model, j, s, 0);
    }

    /** Bucket.Flush(tw.addOrRun), after which the bucket is at rest. */
    method Flush(b: Bucket)
      requires Rep() && I.Inv(model, I.Flushing(b.level, b.slot)) && M.Geometry(model)
      requires Placed(chain, b) && M.InRange(model, b.level, b.slot) && b in allBuckets
      modifies this`model, this`chain, this`allBuckets, this`started, chain`overflowWheel
      modifies allBuckets, timers`bucket, queue, queue.slots, queue.items
      ensures Rep() && model == M.Flush(old(model), b.level, b.slot)
      ensures old(chain) <= chain && forall i: nat | i < |chain| :: chain[i] in old(chain) || fresh(chain[i])
      ensures old(allBuckets) <= allBuckets && fresh(allBuckets - old(allBuckets))
      ensures queue.slots == old(queue.slots) || fresh(queue.slots)
      ensures forall i: nat | i < |queue.items| :: queue.items[i] in old(queue.items) || fresh(queue.items[i])
    {
      hide *;
      ghost var j, s := b.level, b.slot;
      ShownAt(this, b);
      FlushMeans(model, j, s);
      FlushTimers(b);
      RepMeans(this);
      WiredMeans(chain, model);
      PutMeans(model, j, s, M.At(model, j, s).(expiration := -1), chain);
      Rest(b, this);
      model := M.Flush(old(model), j, s);
      RepHolds(this);
    }

    /** Take the head off the queue if it is due; its bucket is then no longer queued in the model. */
    method Pop(now: int) returns (b: Bucket?, ghost q: M.Queued)
      requires Rep() && I.Inv(model, I.Idle) && M.Geometry(model)
      modifies this`model, queue, queue.slots, queue.items
      ensures Rep()
      ensures b == null ==> model == old(model) && forall p | p in model.queue :: p.priority > now
      ensures b != null ==>
                && M.Due(old(model), q, now) && q == M.Queued(b.level, b.slot, q.priority)
                && model == old(model).(queue := old(model).queue - multiset{q})
                && Placed(chain, b) && b.expiration == q.priority && b in allBuckets
      ensures queue.slots == old(queue.slots) || fresh(queue.slots)
      ensures forall i: nat | i < |queue.items| :: queue.items[i] in old(queue.items) || fresh(queue.items[i])
    {
      hide *;
      RepMeans(this);
      ghost var items := queue.items;
      ghost var m := model;
      queue.AllDistinct();
      var item, delta := queue.PeekAndShift(now);
      if item == null {
        NothingDue(items, chain, model.queue, now);
        RepHolds(this);
        b, q := null, M.Queued(0, 0, 0);
      } else {
        b := item.value;
        q := Key(item);
        KeyMeans(item);
        QueueLoses(items, item, queue.items, chain, model, now);
        ghost var popped := model.(queue := model.queue - multiset{q});
        SameLevelsShown(chain, allBuckets, timers, model, popped);
        model := popped;
        RepHolds(this);
        PoppedMeans(m, q, now);
        ShownAt(this, b);
      }
    }

    /**
     What a turn of the event loop does: when the earliest bucket is due, the clocks of all wheels are
     advanced to it and it is flushed. This is the model's Expire for a due head of its queue.
     */
    method Expire(now: int) returns (ran: bool, ghost q: M.Queued)
      requires Rep() && I.Inv(model, I.Idle) && M.Geometry(model)
      modifies this`model, this`chain, this`allBuckets, this`started, chain`overflowWheel, chain`currentTime
      modifies allBuckets, timers`bucket, queue, queue.slots, queue.items
      ensures Rep() && I.Inv(model, I.Idle) && M.Geometry(model)
      ensures !ran ==> model == old(model) && forall p | p in model.queue :: p.priority > now
      ensures ran ==>
                && M.Due(old(model), q, now) && M.InRange(old(model), q.level, q.slot)
                && M.Geometry(M.Popped(old(model), q)) && M.InRange(M.Popped(old(model), q), q.level, q.slot)
                && model == M.Expire(old(model), q)
      ensures old(chain) <= chain && forall i: nat | i < |chain| :: chain[i] in old(chain) || fresh(chain[i])
      ensures old(allBuckets) <= allBuckets && fresh(allBuckets - old(allBuckets))
      ensures queue.slots == old(queue.slots) || fresh(queue.slots)
      ensures forall i: nat | i < |queue.items| :: queue.items[i] in old(queue.items) || fresh(queue.items[i])
    {
      hide *;
      ghost var m := model;
      BaseMeans(this);
      var b;
      b, q := Pop(now);
      ran := b != null;
      if ran {
        PoppedMeans(m, q, now);
        BaseMeans(this);
        AdvanceClock(b.expiration, this);
        Flush(b);
      }
    }

    /** One turn of the event loop, which reads the clock first. */
    method Turn(now: int) returns (ran: bool, ghost q: M.Queued)
      requires Rep() && Traced() && System().now <= now
      modifies this`model, this`chain, this`allBuckets, this`started, chain`overflowWheel, chain`currentTime
      modifies this`states, this`steps, allBuckets, timers`bucket, queue, queue.slots, queue.items
      ensures Rep() && Traced() && I.Inv(model, I.Idle) && M.Geometry(model)
      ensures !ran ==> model == old(model) && forall p | p in model.queue :: p.priority > now
      ensures ran ==>
                && M.Due(old(model), q, now) && M.InRange(old(model), q.level, q.slot)
                && M.Geometry(M.Popped(old(model), q)) && M.InRange(M.Popped(old(model), q), q.level, q.slot)
                && model == M.Expire(old(model), q)
      ensures steps == old(steps) + [R.Tick(now)] + if ran then [R.Turn(q)] else []
      ensures old(states) <= states && System() == old(System()).(now := now, wheel := model)
      ensures old(chain) <= chain && forall i: nat | i < |chain| :: chain[i] in old(chain) || fresh(chain[i])
      ensures old(allBuckets) <= allBuckets && fresh(allBuckets - old(allBuckets))
      ensures queue.slots == old(queue.slots) || fresh(queue.slots)
      ensures forall i: nat | i < |queue.items| :: queue.items[i] in old(queue.items) || fresh(queue.items[i])
    {
      hide *;
      TraceMeans(this);
      ghost var s := System();
      TickMeans(s, now);
      Record(R.Tick(now));
      ran, q := Expire(now);
      if ran {
        TurnMeans(R.Do(s, R.Tick(now)), q);
        StillTraced(this, R.Do(s, R.Tick(now)).wheel);
        Record(R.Turn(q));
      }
    }

    /**
     The event loop at a time `now` that stands still: turns until nothing is due. It ends, loses
     no timer, starts tasks only when they are due, and leaves no timer that is due in the calendar.
     */
    method Drain(now: int)
      requires Rep() && Traced() && System().now <= now
      modifies this`model, this`chain, this`allBuckets, this`started, chain`overflowWheel, chain`currentTime
      modifies this`states, this`steps, allBuckets, timers`bucket, queue, queue.slots, queue.items
      ensures Rep() && Traced() && I.Inv(model, I.Idle) && M.Geometry(model)
      ensures old(states) <= states && System() == old(System()).(now := now, wheel := model)
      ensures OnlyLooped(old(steps), steps)
      ensures model.levels[0].tick == old(model).levels[0].tick == tick
      ensures C.Accounted(old(model), model) && OnlyDueStarted(old(model), model, now)
      ensures forall e: M.Entry | I.Held(model.levels, e) > 0 :: !R.DueInCalendar(e, tick, now)
      ensures forall e :: Calendar(System(), e, tick)
      ensures old(chain) <= chain && forall i: nat | i < |chain| :: chain[i] in old(chain) || fresh(chain[i])
      ensures old(allBuckets) <= allBuckets && fresh(allBuckets - old(allBuckets))
      ensures queue.slots == old(queue.slots) || fresh(queue.slots)
      ensures forall i: nat | i < |queue.items| :: queue.items[i] in old(queue.items) || fresh(queue.items[i])
    {
      hide *;
      TraceMeans(this);
      ghost var m, s := model, System();
      NoTurnYet(m, now);
      NotLooped(steps);
      var ran := true;
      while ran
        invariant Rep() && Traced() && I.Inv(model, I.Idle) && M.Geometry(model)
        invariant Drained(m, model, now)
        invariant old(states) <= states && System().now <= now && System() == s.(now := System().now, wheel := model)
        invariant OnlyLooped(old(steps), steps)
        invariant !ran ==> System().now == now && forall p | p in model.queue :: p.priority > now
        invariant old(chain) <= chain && forall i: nat | i < |chain| :: chain[i] in old(chain) || fresh(chain[i])
        invariant old(allBuckets) <= allBuckets && fresh(allBuckets - old(allBuckets)) && timers == old(timers)
        invariant queue.slots == old(queue.slots) || fresh(queue.slots)
        invariant forall i: nat | i < |queue.items| :: queue.items[i] in old(queue.items) || fresh(queue.items[i])
        decreases C.Work(model), ran
      {
        ghost var before, q, taken := model, M.Queued(0, 0, 0), steps;
        ran, q := Turn(now);
        LoopedOn(old(steps), taken, now, if ran then [R.Turn(q)] else []);
        if ran {
          AfterTurn(m, before, q, now);
        }
      }
      AfterDrain(m, model, now);
      TraceMeans(this);
      CalendarHolds(System(), tick);
    }

    /** bucket.NewTimer: the timer gets an identity of its own. */
    method NewTimer(expiration: int) returns (t: Timer)
      requires Rep() && Traced()
      modifies this`timers
      ensures Rep() && Traced()
      ensures fresh(t) && timers == old(timers) + {t} && t.bucket == null
      ensures t.id == |old(timers)| && t.expiration == expiration
    {
      hide *;
      RepMeans(this);
      t := new Timer(|timers|, expiration);
      NewIdentity(this, t);
      TraceMeans(this);
      RunMeans(this, model);
      NewTimerShown(chain, model, allBuckets, timers, t);
      timers := timers + {t};
      RunHolds(this, model);
      RepHolds(this);
    }

    /** tw.addOrRun(t) for a timer that is in no bucket: one arrival in the run. */
    method Arrive(t: Timer)
      requires Rep() && Traced() && t in timers && t.bucket == null
      modifies this`model, this`chain, this`allBuckets, this`started, chain`overflowWheel
      modifies this`states, this`steps, allBuckets, t`bucket, queue, queue.slots, queue.items
      ensures Rep() && Traced() && I.Inv(model, I.Idle)
      ensures M.Geometry(old(model)) && model == M.AddOrRun(old(model), t.Entry(), M.OnArrival)
      ensures steps == old(steps) + [R.Arrive(t.Entry())] && old(states) <= states && System().now == old(System()).now
      ensures old(chain) <= chain && forall i: nat | i < |chain| :: chain[i] in old(chain) || fresh(chain[i])
      ensures old(allBuckets) <= allBuckets && fresh(allBuckets - old(allBuckets))
      ensures queue.slots == old(queue.slots) || fresh(queue.slots)
      ensures forall i: nat | i < |queue.items| :: queue.items[i] in old(queue.items) || fresh(queue.items[i])
    {
      hide *;
      TraceMeans(this);
      ghost var m, e := model, t.Entry();
      EntryMeans(t);
      SameIdentity(this, t);
      NotHeld(this, t.id);
      I.AddOrRunKeepsInv(m, I.Idle, e, M.OnArrival);
      AddOrRun(t, I.Idle, M.OnArrival);
      EntryMeans(t);
      ArriveMeans(System(), e);
      StillTraced(this, m);
      Record(R.Arrive(e));
    }

    /** AfterFunc, at the time `now` and for the duration d, both in nanoseconds. */
    method AfterFunc(now: int, d: int) returns (t: Timer)
      requires Rep() && Traced() && System().now <= TimeToMs(now)
      modifies this`model, this`chain, this`allBuckets, this`started, this`timers, chain`overflowWheel
      modifies this`states, this`steps, allBuckets, queue, queue.slots, queue.items
      ensures Rep() && Traced() && I.Inv(model, I.Idle)
      ensures fresh(t) && timers == old(timers) + {t} && t.id == |old(timers)| && t.expiration == TimeToMs(now + d)
      ensures M.Geometry(old(model)) && model == M.AddOrRun(old(model), t.Entry(), M.OnArrival)
      ensures steps == old(steps) + [R.Tick(TimeToMs(now)), R.Arrive(t.Entry())]
      ensures old(states) <= states && System().now == TimeToMs(now)
      ensures old(chain) <= chain && forall i: nat | i < |chain| :: chain[i] in old(chain) || fresh(chain[i])
      ensures old(allBuckets) <= allBuckets && fresh(allBuckets - old(allBuckets))
      ensures queue.slots == old(queue.slots) || fresh(queue.slots)
      ensures forall i: nat | i < |queue.items| :: queue.items[i] in old(queue.items) || fresh(queue.items[i])
    {
      hide *;
      TraceMeans(this);
      TickMeans(System(), TimeToMs(now));
      Record(R.Tick(TimeToMs(now)));
      t := NewTimer(TimeToMs(now + d));
      Arrive(t);
    }

    /** What a task of ScheduleFunc does when it runs: set the next expiration and add the timer again. */
    method Reschedule(t: Timer, expiration: int)
      requires Rep() && Traced() && t in timers && t.bucket == null
      modifies this`model, this`chain, this`allBuckets, this`started, chain`overflowWheel
      modifies this`states, this`steps, allBuckets, t, queue, queue.slots, queue.items
      ensures Rep() && Traced() && I.Inv(model, I.Idle)
      ensures M.Geometry(old(model)) && model == M.AddOrRun(old(model), M.Entry(t.id, expiration), M.OnArrival)
      ensures t.expiration == expiration
      ensures steps == old(steps) + [R.Arrive(M.Entry(t.id, expiration))]
      ensures old(states) <= states && System().now == old(System()).now
      ensures old(chain) <= chain && forall i: nat | i < |chain| :: chain[i] in old(chain) || fresh(chain[i])
      ensures old(allBuckets) <= allBuckets && fresh(allBuckets - old(allBuckets))
      ensures queue.slots == old(queue.slots) || fresh(queue.slots)
      ensures forall i: nat | i < |queue.items| :: queue.items[i] in old(queue.items) || fresh(queue.items[i])
    {
      hide *;
      RepMeans(this);
      TraceMeans(this);
      SetTimer(t, expiration, this);
      RepHolds(this);
      EntryMeans(t);
      Arrive(t);
      EntryMeans(t);
    }

    method SetTimer(t: Timer, expiration: int, ghost root: TimingWheel)
      requires ShowsBuckets(root.chain, root.model, root.allBuckets, root.timers)
      requires BackPointers(root.chain, root.allBuckets, root.timers)
      requires Built(root.chain, root.model) && t in root.timers && t.bucket == null
      modifies t`expiration
      ensures ShowsBuckets(root.chain, root.model, root.allBuckets, root.timers)
      ensures BackPointers(root.chain, root.allBuckets, root.timers) && t.expiration == expiration
    {
      ghost var m, chain, timers := root.model, root.chain, root.timers;
      label before:
      t.expiration := expiration;
      forall j: nat, s: nat | j < |chain| && s < |chain[j].buckets| && M.InRange(m, j, s)
        ensures chain[j].buckets[s] in root.allBuckets && chain[j].buckets[s].Shows(M.At(m, j, s), timers)
      {
        assert old@before(chain[j].buckets[s].Shows(M.At(m, j, s), timers));
      }
    }

    /** b.Remove(t) as Timer.Stop calls it: one cancellation in the run. */
    method Take(b: Bucket, t: Timer) returns (stopped: bool, ghost j: nat, ghost s: nat, ghost i: nat)
      requires Rep() && Traced() && t in timers && t.bucket == b && b in allBuckets
      modifies this`model, this`states, this`steps, b`timers, t`bucket
      ensures Rep() && Traced() && I.Inv(model, I.Idle) && t.bucket == null && stopped
      ensures M.InRange(old(model), j, s) && i < |M.At(old(model), j, s).timers|
      ensures M.At(old(model), j, s).timers[i] == t.Entry()
      ensures M.Geometry(old(model)) && model == M.RemoveTimer(old(model), j, s, i)
      ensures steps == old(steps) + [R.Cancel(j, s, i)] && old(states) <= states
    {
      hide *;
      ghost var m := model;
      RepMeans(this);
      HeldTimer(this, t);
      TraceMeans(this);
      stopped, i := Unlink(b, t, this);
      j, s := b.level, b.slot;
      I.RemoveKeepsInv(m, I.Idle, j, s, i);
      RemoveMeans(m, j, s, i, chain);
      model := M.RemoveTimer(m, j, s, i);
      RepHolds(this);
      CancelMeans(System(), j, s, i);
      StillTraced(this, m);
      Record(R.Cancel(j, s, i));
    }

    /**
     Timer.Stop: true exactly when the timer was pending; it is then in no bucket, so that it never
     fires, while its bucket stays queued with the expiration it had.
     */
    method Stop(t: Timer) returns (stopped: bool, ghost j: nat, ghost s: nat, ghost i: nat)
      requires Rep() && Traced() && t in timers
      modifies this`model, this`states, this`steps, allBuckets, t`bucket
      ensures Rep() && Traced() && I.Inv(model, I.Idle) && t.bucket == null
      ensures stopped == (old(t.bucket) != null)
      ensures !stopped ==> model == old(model) && states == old(states) && steps == old(steps)
      ensures stopped ==>
                && M.InRange(old(model), j, s) && i < |M.At(old(model), j, s).timers|
                && M.At(old(model), j, s).timers[i] == t.Entry()
                && M.Geometry(old(model)) && model == M.RemoveTimer(old(model), j, s, i)
                && steps == old(steps) + [R.Cancel(j, s, i)] && old(states) <= states
    {
      hide *;
      TraceMeans(this);
      stopped, j, s, i := false, 0, 0, 0;
      var b := t.bucket;
      if b != null {
        HeldTimer(this, t);
      }
      while b != null
        invariant Rep() && Traced() && I.Inv(model, I.Idle) && M.Geometry(model) && t in timers && b == t.bucket
        invariant b != null ==> b == old(t.bucket) && !stopped && b in allBuckets
        invariant b == null ==> stopped == (old(t.bucket) != null)
        invariant !stopped ==> model == old(model) && states == old(states) && steps == old(steps)
        invariant stopped ==>
                    && M.InRange(old(model), j, s) && i < |M.At(old(model), j, s).timers|
                    && M.At(old(model), j, s).timers[i] == t.Entry()
                    && M.Geometry(old(model)) && model == M.RemoveTimer(old(model), j, s, i)
                    && steps == old(steps) + [R.Cancel(j, s, i)] && old(states) <= states
        decreases if b == null then 0 else 1
      {
        stopped, j, s, i := Take(b, t);
        b := t.bucket;
      }
    }
  }

  /** New: the base wheel with its own queue. */
  method NewTimingWheel(tick: int, wheelSize: nat, start: int) returns (w: TimingWheel)
    requires tick >= 1 && wheelSize >= 2 && start >= 0
    ensures fresh(w) && w.Rep() && w.Traced() && I.Inv(w.model, I.Idle)
    ensures w.System() == R.Start(tick, wheelSize, start) && w.steps == []
    ensures w.chain == [w] && fresh(w.allBuckets) && fresh(w.queue) && fresh(w.queue.slots) && w.queue.items == []
    ensures w.model == M.NewWheel(tick, wheelSize, start) && w.timers == {}
  {
    hide *;
    var queue := new PriorityQueue<Bucket>(wheelSize);
    w := new TimingWheel(tick, wheelSize, start, queue, 0);
    w.chain, w.model := [w], M.NewWheel(tick, wheelSize, start);
    w.allBuckets := set s: nat | s < |w.buckets| :: w.buckets[s];
    I.NewWheelInv(tick, wheelSize, start);
    BaseShown(w, start);
    w.states, w.steps := [R.Start(tick, wheelSize, start)], [];
    StartTraced(w);
    RepHolds(w);
  }
}
