/**
 The sleep and wake-up protocol of DelayQueue: one goroutine in Poll and any number of goroutines
 in Offer, one transition for each lock, unlock, atomic operation and channel operation. The heap
 is the multiset of its priorities; module PriorityQueues is proved to provide its two operations.
 */
module Handshake {
  import opened Wrappers

  /** The program counter of Poll. A deadline is the priority of the head that was not yet due. */
  datatype Poller =
    | Top
    | Clocked(now: int)
    | Peeking(now: int)
    | Missed(deadline: Option<int>)
    | Slept(deadline: Option<int>)
    | Found(priority: int)
    | Sending(priority: int)
    | Waiting(deadline: Option<int>)
    | TimedOut
    | Draining

  /** The program counter of one call of Offer; calls that have returned are forgotten. */
  datatype Offerer =
    | Starting(priority: int)
    | Holding(priority: int)
    | Pushed(first: bool)
    | Trying
    | Committed

  datatype Owner = Free | ByPoller | ByOfferer(id: nat)

  datatype State = State(
    queue: multiset<int>, sleeping: int, mutex: Owner, clock: int,
    poller: Poller, offerers: map<nat, Offerer>,
    inserted: multiset<int>, delivered: multiset<int>)

  datatype Step =
    | Tick(to: int)
    | ReadClock | Lock | PeekEmpty | PeekEarly(head: int) | PeekDue(head: int) | StoreSleeping | Unlock
    | Deliver | TimerFires | SwapSleeping
    | Call(id: nat, priority: int) | OfferLock(id: nat) | Push(id: nat) | OfferUnlock(id: nat) | CompareAndSwap(id: nat)
    | Rendezvous(id: nat)

  const INITIAL := State(multiset{}, 0, Free, 0, Top, map[], multiset{}, multiset{})

  // ----- the two heap operations -----

  predicate Least(queue: multiset<int>, x: int) {
    x in queue && forall y | y in queue :: x <= y
  }

  /** heap.Push leaves the new item at index 0 exactly when it is earlier than all others. */
  predicate Earliest(queue: multiset<int>, x: int) {
    forall y | y in queue :: x < y
  }

  // ----- the transitions -----

  predicate At(s: State, id: nat, pc: Offerer) {
    id in s.offerers && s.offerers[id] == pc
  }

  /** Poll is at a select statement, or drains: it can take a value from wakeupC. */
  predicate Receiving(p: Poller) {
    p.Waiting? || p.Draining?
  }

  predicate Enabled(s: State, step: Step) {
    match step
    case Tick(to) => s.clock <= to
    case ReadClock => s.poller.Top?
    case Lock => s.poller.Clocked? && s.mutex.Free?
    case PeekEmpty => s.poller.Peeking? && s.queue == multiset{}
    case PeekEarly(head) => s.poller.Peeking? && Least(s.queue, head) && head > s.poller.now
    case PeekDue(head) => s.poller.Peeking? && Least(s.queue, head) && head <= s.poller.now
    case StoreSleeping => s.poller.Missed?
    case Unlock => s.poller.Slept? || s.poller.Found?
    case Deliver => s.poller.Sending?
    case TimerFires => s.poller.Waiting? && s.poller.deadline.Some? && s.poller.deadline.value <= s.clock
    case SwapSleeping => s.poller.TimedOut?
    case Call(id, priority) => id !in s.offerers
    case OfferLock(id) => id in s.offerers && s.offerers[id].Starting? && s.mutex.Free?
    case Push(id) => id in s.offerers && s.offerers[id].Holding?
    case OfferUnlock(id) => id in s.offerers && s.offerers[id].Pushed?
    case CompareAndSwap(id) => At(s, id, Trying)
    case Rendezvous(id) => At(s, id, Committed) && Receiving(s.poller)
  }

  function Do(s: State, step: Step): State
    requires Enabled(s, step)
  {
    match step
    case Tick(to) => s.(clock := to)
    case ReadClock => s.(poller := Clocked(s.clock))
    case Lock => s.(poller := Peeking(s.poller.now), mutex := ByPoller)
    case PeekEmpty => s.(poller := Missed(None))
    case PeekEarly(head) => s.(poller := Missed(Some(s.poller.now + (head - s.poller.now))))
    case PeekDue(head) => s.(poller := Found(head), queue := s.queue - multiset{head})
    case StoreSleeping => s.(poller := Slept(s.poller.deadline), sleeping := 1)
    case Unlock =>
      s.(poller := if s.poller.Slept? then Waiting(s.poller.deadline) else Sending(s.poller.priority), mutex := Free)
    case Deliver => s.(poller := Top, delivered := s.delivered + multiset{s.poller.priority})
    case TimerFires => s.(poller := TimedOut)
    case SwapSleeping => s.(poller := if s.sleeping == 0 then Draining else Top, sleeping := 0)
    case Call(id, priority) =>
      s.(offerers := s.offerers[id := Starting(priority)])
    case OfferLock(id) => s.(offerers := s.offerers[id := Holding(s.offerers[id].priority)], mutex := ByOfferer(id))
    case Push(id) =>
      var x := s.offerers[id].priority;
      s.(offerers := s.offerers[id := Pushed(Earliest(s.queue, x))], queue := s.queue + multiset{x},
         inserted := s.inserted + multiset{x})
    case OfferUnlock(id) =>
      s.(offerers := if s.offerers[id].first then s.offerers[id := Trying] else s.offerers - {id}, mutex := Free)
    case CompareAndSwap(id) =>
      if s.sleeping == 1 then s.(offerers := s.offerers[id := Committed], sleeping := 0)
      else s.(offerers := s.offerers - {id})
    case Rendezvous(id) => s.(offerers := s.offerers - {id}, poller := Top)
  }

  // ----- the invariant -----

  /** The calls of Offer that have promised to send on wakeupC. */
  function Senders(s: State): set<nat> {
    set id | id in s.offerers && s.offerers[id] == Committed
  }

  /** Poll has announced that it sleeps and has not been woken or drained since. */
  predicate Listening(p: Poller) {
    p.Slept? || p.Waiting? || p.TimedOut? || p.Draining?
  }

  /** While Poll listens exactly one of the flag and a sender stands for its wake-up; otherwise none. */
  predicate OneWakeup(s: State) {
    && 0 <= s.sleeping <= 1
    && s.sleeping + |Senders(s)| == (if Listening(s.poller) then 1 else 0)
    && (s.poller.Draining? ==> s.sleeping == 0)
  }

  predicate LockOk(s: State) {
    && (s.mutex.ByPoller? <==> s.poller.Peeking? || s.poller.Missed? || s.poller.Slept? || s.poller.Found?)
    && (s.mutex.ByOfferer? ==> s.mutex.id in s.offerers)
    && forall id | id in s.offerers ::
         s.mutex == ByOfferer(id) <==> s.offerers[id].Holding? || s.offerers[id].Pushed?
  }

  /** This call has found a new head and has not yet given up the chance to wake Poll. */
  predicate Alarming(pc: Offerer) {
    pc == Pushed(true) || pc == Trying || pc == Committed
  }

  predicate Alarm(s: State) {
    exists id | id in s.offerers :: Alarming(s.offerers[id])
  }

  /** x would have to be handled before the deadline. */
  predicate Before(x: int, deadline: Option<int>) {
    deadline.None? || x < deadline.value
  }

  /** The deadline is that of the least item, or there is neither. */
  predicate Exact(queue: multiset<int>, deadline: Option<int>) {
    if deadline.None? then queue == multiset{} else Least(queue, deadline.value)
  }

  predicate NoLostWakeup(s: State) {
    && (s.poller.Missed? || s.poller.Slept? ==> Exact(s.queue, s.poller.deadline))
    && (s.poller.Waiting? ==>
          && (s.poller.deadline.Some? ==> s.poller.deadline.value in s.queue)
          && forall x | x in s.queue && Before(x, s.poller.deadline) :: Alarm(s))
  }

  /** Item x is in the heap, in Poll's hand or delivered, as often as it was inserted. */
  predicate Kept(s: State, x: int) {
    s.inserted[x] == s.queue[x] + (if InHand(s.poller, x) then 1 else 0) + s.delivered[x]
  }

  /** x is the item that Poll has taken off the heap and not yet delivered. */
  predicate InHand(p: Poller, x: int) {
    (p.Found? || p.Sending?) && p.priority == x
  }

  /** No item is lost or invented, and none is taken before its time. */
  ghost predicate ItemsOk(s: State) {
    OnTime(s) && forall x :: Kept(s, x)
  }

  /** What Poll takes is the earliest item of the heap, and its timer fires only when an item is due. */
  predicate TakesLeast(s: State) {
    && (s.poller.Found? ==> forall y | y in s.queue :: s.poller.priority <= y)
    && (s.poller.TimedOut? ==> exists y | y in s.queue :: y <= s.clock)
  }

  ghost predicate Inv(s: State) {
    OneWakeup(s) && LockOk(s) && NoLostWakeup(s) && ItemsOk(s) && TakesLeast(s)
  }

  lemma InitialInv()
    ensures Inv(INITIAL)
  {
    assert Senders(INITIAL) == {};
  }

  /** Only a successful swap makes a sender, and only its rendezvous ends it. */
  lemma SendersAfter(s: State, step: Step)
    requires Enabled(s, step)
    ensures Senders(Do(s, step)) ==
      match step
      case CompareAndSwap(id) => if s.sleeping == 1 then Senders(s) + {id} else Senders(s)
      case Rendezvous(id) => Senders(s) - {id}
      case _ => Senders(s)
    ensures step.CompareAndSwap? ==> step.id !in Senders(s)
    ensures step.Rendezvous? ==> step.id in Senders(s)
  {
  }

  lemma KeepsOneWakeup(s: State, step: Step)
    requires OneWakeup(s) && Enabled(s, step)
    ensures OneWakeup(Do(s, step))
  {
    SendersAfter(s, step);
    hide Senders;
  }

  /** The steps of a call of Offer. */
  predicate ByCall(step: Step) {
    step.Call? || step.OfferLock? || step.Push? || step.OfferUnlock? || step.CompareAndSwap? || step.Rendezvous?
  }

  lemma OfferLockKeepsLock(s: State, step: Step)
    requires LockOk(s) && Enabled(s, step) && step.OfferLock?
    ensures LockOk(Do(s, step))
  {
  }

  lemma PushKeepsLock(s: State, step: Step)
    requires LockOk(s) && Enabled(s, step) && step.Push?
    ensures LockOk(Do(s, step))
  {
  }

  lemma OfferUnlockKeepsLock(s: State, step: Step)
    requires LockOk(s) && Enabled(s, step) && step.OfferUnlock?
    ensures LockOk(Do(s, step))
  {
  }

  lemma CallKeepsLock(s: State, step: Step)
    requires LockOk(s) && Enabled(s, step) && step.Call?
    ensures LockOk(Do(s, step))
  {
  }

  lemma SwapKeepsLock(s: State, step: Step)
    requires LockOk(s) && Enabled(s, step) && (step.CompareAndSwap? || step.Rendezvous?)
    ensures LockOk(Do(s, step))
  {
  }

  lemma PollKeepsLock(s: State, step: Step)
    requires LockOk(s) && Enabled(s, step) && !ByCall(step)
    ensures LockOk(Do(s, step))
  {
    assert Do(s, step).offerers == s.offerers;
  }

  lemma KeepsLock(s: State, step: Step)
    requires LockOk(s) && Enabled(s, step)
    ensures LockOk(Do(s, step))
  {
    hide LockOk, Enabled, Do;
    match step
    case OfferLock(_) => OfferLockKeepsLock(s, step);
    case Push(_) => PushKeepsLock(s, step);
    case OfferUnlock(_) => OfferUnlockKeepsLock(s, step);
    case Call(_, _) => CallKeepsLock(s, step);
    case CompareAndSwap(_) => SwapKeepsLock(s, step);
    case Rendezvous(_) => SwapKeepsLock(s, step);
    case _ => PollKeepsLock(s, step);
  }

  lemma PushKeepsItem(s: State, id: nat, x: int)
    requires Enabled(s, Push(id)) && Kept(s, x)
    ensures Kept(Do(s, Push(id)), x)
  {
  }

  lemma PopKeepsItem(s: State, head: int, x: int)
    requires Enabled(s, PeekDue(head)) && Kept(s, x)
    ensures Kept(Do(s, PeekDue(head)), x)
  {
  }

  lemma DeliverKeepsItem(s: State, x: int)
    requires Enabled(s, Deliver) && Kept(s, x)
    ensures Kept(Do(s, Deliver), x)
  {
  }

  /** All other steps leave the items where they are. */
  lemma OthersKeepItem(s: State, step: Step, x: int)
    requires Enabled(s, step) && Kept(s, x) && !step.Push? && !step.PeekDue? && !step.Deliver?
    ensures Kept(Do(s, step), x)
  {
    var t := Do(s, step);
    assert t.queue == s.queue && t.inserted == s.inserted && t.delivered == s.delivered;
    assert InHand(t.poller, x) == InHand(s.poller, x);
    hide Do, Enabled, InHand;
  }

  lemma StepKeepsItem(s: State, step: Step, x: int)
    requires Enabled(s, step) && Kept(s, x)
    ensures Kept(Do(s, step), x)
  {
    hide *;
    match step
    case Push(id) => PushKeepsItem(s, id, x);
    case PeekDue(head) => PopKeepsItem(s, head, x);
    case Deliver => DeliverKeepsItem(s, x);
    case _ => OthersKeepItem(s, step, x);
  }

  /** Nothing is in hand or delivered before its time. */
  predicate OnTime(s: State) {
    && (s.poller.Clocked? || s.poller.Peeking? ==> s.poller.now <= s.clock)
    && (s.poller.Found? || s.poller.Sending? ==> s.poller.priority <= s.clock)
    && forall x | x in s.delivered :: x <= s.clock
  }

  lemma KeepsOnTime(s: State, step: Step)
    requires OnTime(s) && Enabled(s, step)
    ensures OnTime(Do(s, step))
  {
    var t := Do(s, step);
    assert t.delivered == if step.Deliver? then s.delivered + multiset{s.poller.priority} else s.delivered;
    assert s.clock <= t.clock;
  }

  lemma KeepsItems(s: State, step: Step)
    requires ItemsOk(s) && Enabled(s, step)
    ensures ItemsOk(Do(s, step))
  {
    hide Do, Enabled, Kept, OnTime;
    KeepsOnTime(s, step);
    forall x
      ensures Kept(Do(s, step), x)
    {
      StepKeepsItem(s, step, x);
    }
  }

  /** The alarm of a call other than `id` survives what `id` does. */
  lemma OtherAlarm(s: State, t: State, id: nat, other: nat)
    requires other in s.offerers && other != id && Alarming(s.offerers[other])
    requires other in t.offerers && t.offerers[other] == s.offerers[other]
    ensures Alarm(t)
  {
  }

  /** A swap that finds the flag down loses no alarm: whoever took it down is still sending. */
  lemma SwapKeepsAlarm(s: State, id: nat)
    requires Inv(s) && Enabled(s, CompareAndSwap(id)) && Listening(s.poller)
    ensures Alarm(Do(s, CompareAndSwap(id)))
  {
    var t := Do(s, CompareAndSwap(id));
    if s.sleeping == 1 {
      assert Alarming(t.offerers[id]);
    } else {
      var other :| other in Senders(s);
      OtherAlarm(s, t, id, other);
    }
  }

  /** An item that is not put at the head has an item at least as early before it. */
  lemma PushKeepsAlarm(s: State, id: nat, x: int)
    requires Inv(s) && Enabled(s, Push(id)) && s.poller.Waiting?
    requires x in Do(s, Push(id)).queue && Before(x, s.poller.deadline)
    ensures Alarm(Do(s, Push(id)))
  {
    var t := Do(s, Push(id));
    var p := s.offerers[id].priority;
    if Earliest(s.queue, p) {
      assert Alarming(t.offerers[id]);
    } else {
      var y :| y in s.queue && y <= p;
      assert Before(if x in s.queue then x else y, s.poller.deadline);
      assert Alarm(s);
      var other :| other in s.offerers && Alarming(s.offerers[other]);
      OtherAlarm(s, t, id, other);
    }
  }

  lemma UnlockKeepsAlarm(s: State, id: nat)
    requires Inv(s) && Enabled(s, OfferUnlock(id)) && Alarm(s)
    ensures Alarm(Do(s, OfferUnlock(id)))
  {
    var t := Do(s, OfferUnlock(id));
    var other :| other in s.offerers && Alarming(s.offerers[other]);
    if other == id {
      assert Alarming(t.offerers[id]);
    } else {
      OtherAlarm(s, t, id, other);
    }
  }

  lemma LockKeepsAlarm(s: State, step: Step)
    requires Inv(s) && Enabled(s, step) && (step.Call? || step.OfferLock?) && Alarm(s)
    ensures Alarm(Do(s, step))
  {
    var other :| other in s.offerers && Alarming(s.offerers[other]);
    OtherAlarm(s, Do(s, step), step.id, other);
  }

  lemma KeepsNoLostWakeup(s: State, step: Step)
    requires Inv(s) && Enabled(s, step)
    ensures NoLostWakeup(Do(s, step))
  {
    var t := Do(s, step);
    if t.poller.Waiting? && s.poller.Waiting? {
      forall x | x in t.queue && Before(x, t.poller.deadline)
        ensures Alarm(t)
      {
        match step
        case Push(id) => PushKeepsAlarm(s, id, x);
        case CompareAndSwap(id) => SwapKeepsAlarm(s, id);
        case OfferUnlock(id) => UnlockKeepsAlarm(s, id);
        case Call(_, _) => LockKeepsAlarm(s, step);
        case OfferLock(_) => LockKeepsAlarm(s, step);
        case _ => assert Alarm(s);
      }
    }
  }

  /** Only Poll takes items off the heap, and none are put on it while Poll holds the lock. */
  lemma QueueAfter(s: State, step: Step)
    requires LockOk(s) && Enabled(s, step)
    ensures !step.PeekDue? ==> s.queue <= Do(s, step).queue && s.clock <= Do(s, step).clock
    ensures s.poller.Found? && !step.PeekDue? ==> Do(s, step).queue == s.queue
    ensures !step.PeekDue? && !step.TimerFires? ==>
              (Do(s, step).poller.Found? || Do(s, step).poller.TimedOut? ==> Do(s, step).poller == s.poller)
  {
  }

  lemma KeepsTakesLeast(s: State, step: Step)
    requires LockOk(s) && NoLostWakeup(s) && TakesLeast(s) && Enabled(s, step)
    ensures TakesLeast(Do(s, step))
  {
    if step.PeekDue? {
      assert Do(s, step).queue == s.queue - multiset{step.head};
    } else if step.TimerFires? {
      assert s.poller.deadline.value in Do(s, step).queue;
    } else {
      QueueAfter(s, step);
      hide Enabled, Do, LockOk, NoLostWakeup;
    }
  }

  lemma StepKeepsInv(s: State, step: Step)
    requires Inv(s) && Enabled(s, step)
    ensures Inv(Do(s, step))
  {
    KeepsTakesLeast(s, step);
    KeepsOneWakeup(s, step);
    KeepsLock(s, step);
    KeepsItems(s, step);
    KeepsNoLostWakeup(s, step);
  }

  // ----- runs -----

  predicate Next(s: State, step: Step, t: State) {
    Enabled(s, step) && t == Do(s, step)
  }

  predicate IsRun(states: seq<State>, steps: seq<Step>) {
    |states| == |steps| + 1 && forall i: nat | i < |steps| :: Next(states[i], steps[i], states[i + 1])
  }

  lemma {:induction false} RunKeepsInv(states: seq<State>, steps: seq<Step>, i: nat)
    requires IsRun(states, steps) && Inv(states[0]) && i < |states|
    ensures Inv(states[i])
    decreases i
  {
    if i > 0 {
      RunKeepsInv(states, steps, i - 1);
      assert Next(states[i - 1], steps[i - 1], states[i - 1 + 1]);
      StepKeepsInv(states[i - 1], steps[i - 1]);
    }
  }

  /**
   On every run from the start, with any number of calls of Offer in any interleaving: no wake-up is
   lost, at most one is ever under way, and a call that has promised to send has Poll on its way to
   receive, also when the timer fires first.
   */
  lemma WakeupsAreSafe(states: seq<State>, steps: seq<Step>, i: nat)
    requires IsRun(states, steps) && states[0] == INITIAL && i < |states|
    ensures var s := states[i];
            && (s.poller.Waiting? ==>
                  forall x | x in s.queue && Before(x, s.poller.deadline) :: Alarm(s))
            && s.sleeping + |Senders(s)| <= 1
            && (!Listening(s.poller) ==> s.sleeping == 0 && Senders(s) == {})
            && (Senders(s) != {} ==> Listening(s.poller))
            && (forall x :: Kept(s, x))
            && (forall x | x in s.delivered :: x <= s.clock)
            && (s.poller.Found? ==> forall y | y in s.queue :: s.poller.priority <= y)
            && (s.poller.TimedOut? ==> exists y | y in s.queue :: y <= s.clock)
  {
    InitialInv();
    RunKeepsInv(states, steps, i);
  }

  /**
   What Poll does under the lock is decided by what is due at the time it has read: it takes the earliest
   item if any is due, and otherwise goes to sleep until the earliest item, or for good when there is none.
   */
  lemma PeekDecides(s: State, step: Step)
    requires Enabled(s, step) && s.poller.Peeking? && (step.PeekEmpty? || step.PeekEarly? || step.PeekDue?)
    ensures var now, t := s.poller.now, Do(s, step);
            if exists y :: y in s.queue && y <= now then
              && t.poller.Found? && t.poller.priority in s.queue
              && (forall y | y in s.queue :: t.poller.priority <= y)
              && t.queue == s.queue - multiset{t.poller.priority}
            else
              && t.queue == s.queue
              && (t.poller == Missed(None) <==> s.queue == multiset{})
              && (s.queue != multiset{} ==>
                    t.poller.Missed? && t.poller.deadline.Some? && t.poller.deadline.value in s.queue
                    && forall y | y in s.queue :: t.poller.deadline.value <= y)
  {
  }

  /** A call tries to wake Poll exactly when its item is earlier than all that are in the heap. */
  lemma OnlyNewHeadAlarms(s: State, id: nat, p: int)
    requires At(s, id, Holding(p))
    ensures Enabled(s, Push(id)) && Enabled(Do(s, Push(id)), OfferUnlock(id))
    ensures var t := Do(Do(s, Push(id)), OfferUnlock(id));
            if forall y | y in s.queue :: p < y then At(t, id, Trying) else id !in t.offerers
  {
  }

  // ----- what is offered -----

  /** The priority that the last of the first n steps to make a call with this identity passes to Offer. */
  function LastCall(steps: seq<Step>, n: nat, id: nat): Option<int>
    requires n <= |steps|
  {
    if n == 0 then None
    else if steps[n - 1].Call? && steps[n - 1].id == id then Some(steps[n - 1].priority)
    else LastCall(steps, n - 1, id)
  }

  /** How many calls with this identity the first n steps have begun but not yet inserted. */
  function Open(steps: seq<Step>, n: nat, id: nat): int
    requires n <= |steps|
  {
    if n == 0 then 0
    else Open(steps, n - 1, id)
         + (if steps[n - 1].Call? && steps[n - 1].id == id then 1 else if steps[n - 1] == Push(id) then -1 else 0)
  }

  /** The priorities passed by the calls whose items have been inserted. */
  function Offered(steps: seq<Step>, n: nat): multiset<int>
    requires n <= |steps|
  {
    if n == 0 then multiset{}
    else
      var last := if steps[n - 1].Push? then LastCall(steps, n - 1, steps[n - 1].id) else None;
      Offered(steps, n - 1) + (if last.Some? then multiset{last.value} else multiset{})
  }

  /** A call that has not inserted its item yet holds the priority that it was passed. */
  predicate HoldsOwn(s: State, id: nat, last: Option<int>, open: int) {
    if id in s.offerers && (s.offerers[id].Starting? || s.offerers[id].Holding?) then
      open == 1 && last == Some(s.offerers[id].priority)
    else
      open == 0
  }

  lemma StepHoldsOwn(s: State, step: Step, id: nat, last: Option<int>, open: int)
    requires Enabled(s, step) && HoldsOwn(s, id, last, open)
    ensures HoldsOwn(Do(s, step), id,
                     if step.Call? && step.id == id then Some(step.priority) else last,
                     open + (if step.Call? && step.id == id then 1 else if step == Push(id) then -1 else 0))
  {
  }

  lemma {:induction false} RunHoldsOwn(states: seq<State>, steps: seq<Step>, i: nat, id: nat)
    requires IsRun(states, steps) && states[0] == INITIAL && i < |states|
    ensures i <= |steps| && HoldsOwn(states[i], id, LastCall(steps, i, id), Open(steps, i, id))
    decreases i
  {
    if i > 0 {
      RunHoldsOwn(states, steps, i - 1, id);
      assert Next(states[i - 1], steps[i - 1], states[i - 1 + 1]);
      hide HoldsOwn, Enabled, Do;
      StepHoldsOwn(states[i - 1], steps[i - 1], id, LastCall(steps, i - 1, id), Open(steps, i - 1, id));
    }
  }

  lemma InsertedAfter(s: State, step: Step, last: Option<int>, open: int)
    requires Enabled(s, step) && (step.Push? ==> HoldsOwn(s, step.id, last, open))
    ensures Do(s, step).inserted == if step.Push? && last.Some? then s.inserted + multiset{last.value} else s.inserted
    ensures step.Push? ==> last.Some?
  {
  }

  /**
   On every run: what has been inserted into the heap is, call by call, what was passed to Offer; every
   call inserts once, and until then holds the priority it was passed. With the conservation of items,
   all that was offered is in the heap, in Poll's hand or delivered, with its own priority.
   */
  lemma {:induction false} OfferedIsInserted(states: seq<State>, steps: seq<Step>, i: nat)
    requires IsRun(states, steps) && states[0] == INITIAL && i < |states|
    ensures i <= |steps| && states[i].inserted == Offered(steps, i)
    ensures forall id: nat :: HoldsOwn(states[i], id, LastCall(steps, i, id), Open(steps, i, id))
    decreases i
  {
    forall id: nat
      ensures HoldsOwn(states[i], id, LastCall(steps, i, id), Open(steps, i, id))
    {
      RunHoldsOwn(states, steps, i, id);
    }
    if i > 0 {
      OfferedIsInserted(states, steps, i - 1);
      assert Next(states[i - 1], steps[i - 1], states[i - 1 + 1]);
      var step := steps[i - 1];
      var id := if step.Push? then step.id else 0;
      hide Enabled, Do, HoldsOwn;
      InsertedAfter(states[i - 1], step, LastCall(steps, i - 1, id), Open(steps, i - 1, id));
    }
  }

  // ----- progress -----

  /** The step by which Poll, on its own, comes to a receive on wakeupC, when it is not at one yet. */
  function TowardsReceive(s: State): State
    requires Inv(s) && Listening(s.poller) && Senders(s) != {}
  {
    if s.poller.Slept? then Do(s, Unlock)
    else if s.poller.TimedOut? then Do(s, SwapSleeping)
    else s
  }

  /** A call that blocks on wakeupC is received after at most one step of Poll alone. */
  lemma SenderIsReceived(s: State, id: nat)
    requires Inv(s) && At(s, id, Committed)
    ensures id in Senders(s) && Listening(s.poller)
    ensures Enabled(TowardsReceive(s), Rendezvous(id))
    ensures Do(TowardsReceive(s), Rendezvous(id)).poller.Top?
  {
    assert id in Senders(s);
  }

  /** Steps of a single call of Offer and of the rendezvous it leads to. */
  predicate IsStepOf(step: Step, id: nat) {
    step == OfferUnlock(id) || step == CompareAndSwap(id) || step == Rendezvous(id)
  }

  /**
   When Poll waits and an item has to be handled earlier, some call of Offer wakes it by at most
   three steps of its own, whatever the other calls have done before.
   */
  lemma AlarmWakesPoll(s: State, x: int) returns (id: nat, states: seq<State>, steps: seq<Step>)
    requires Inv(s) && s.poller.Waiting? && x in s.queue && Before(x, s.poller.deadline)
    ensures IsRun(states, steps) && states[0] == s && states[|steps|].poller.Top?
    ensures 1 <= |steps| <= 3 && forall i: nat | i < |steps| :: IsStepOf(steps[i], id)
  {
    assert Alarm(s);
    states, steps := [s], [];
    if s.sleeping == 0 {
      id :| id in Senders(s);
    } else {
      id :| id in s.offerers && Alarming(s.offerers[id]);
      if s.offerers[id] == Pushed(true) {
        StepKeepsInv(s, OfferUnlock(id));
        states, steps := [s, Do(s, OfferUnlock(id))], [OfferUnlock(id)];
      }
      var m := states[|steps|];
      assert id !in Senders(s);
      states, steps := states + [Do(m, CompareAndSwap(id))], steps + [CompareAndSwap(id)];
    }
    var m := states[|steps|];
    states, steps := states + [Do(m, Rendezvous(id))], steps + [Rendezvous(id)];
  }

  // ----- delivery -----

  /** How many steps the call that holds the lock needs to give it back. */
  function ToRelease(s: State): nat {
    if s.mutex.ByOfferer? && s.mutex.id in s.offerers then
      (if s.offerers[s.mutex.id].Holding? then 2 else 1)
    else 0
  }

  /** How many steps of its own a call needs to be blocked on wakeupC. */
  function ToCommit(s: State): nat {
    if s.sleeping == 0 then 0 else if exists id | id in s.offerers :: s.offerers[id] == Trying then 1 else 2
  }

  /** How many steps are left until Poll delivers an item, when x is due. */
  function ToDeliver(s: State, x: int): nat {
    match s.poller
    case Sending(_) => 1
    case Found(_) => 2
    case Peeking(now) => if exists y | y in s.queue :: y <= now then 3 else 15
    case Clocked(now) => ToRelease(s) + (if x <= now then 4 else 16)
    case Top => 7
    case Draining => 8
    case TimedOut => 9
    case Waiting(_) => 10 + ToCommit(s)
    case Slept(_) => 13
    case Missed(_) => 14
  }

  lemma HasMember(queue: multiset<int>)
    ensures queue == multiset{} || exists x :: x in queue
  {
    if forall x :: x !in queue {
      assert queue == multiset{};
    }
  }

  lemma {:induction false} HasLeast(queue: multiset<int>) returns (x: int)
    requires queue != multiset{}
    ensures Least(queue, x)
    decreases |queue|
  {
    HasMember(queue);
    x :| x in queue;
    var rest := queue - multiset{x};
    assert forall y | y in queue :: y == x || y in rest;
    if rest != multiset{} {
      var y := HasLeast(rest);
      if y < x { x := y; }
    }
  }

  /** Neither time passes nor is Offer called. */
  predicate Internal(step: Step) {
    !step.Tick? && !step.Call?
  }

  /** One step nearer to a delivery: Poll's own, or one of the call that it has to wait for. */
  predicate Nearer(s: State, step: Step, x: int)
    requires Enabled(s, step)
  {
    var t := Do(s, step);
    && Internal(step) && ToDeliver(t, x) < ToDeliver(s, x)
    && t.clock == s.clock && t.delivered == s.delivered
    && (t.poller.Found? || t.poller.Sending? || x in t.queue)
    && (t.poller.Found? ==> t.poller.priority <= x)
    && (t.poller.Sending? ==> s.poller == Found(t.poller.priority))
  }

  lemma NearerFromWaiting(s: State, x: int) returns (step: Step)
    requires Inv(s) && s.poller.Waiting? && x in s.queue && x <= s.clock
    ensures Enabled(s, step) && Nearer(s, step, x)
  {
    if s.poller.deadline.Some? && s.poller.deadline.value <= s.clock {
      step := TimerFires;
    } else if s.sleeping == 0 {
      var id :| id in Senders(s);
      step := Rendezvous(id);
    } else {
      assert Alarm(s);
      assert Senders(s) == {};
      if id :| id in s.offerers && s.offerers[id] == Trying {
        step := CompareAndSwap(id);
      } else {
        var id :| id in s.offerers && Alarming(s.offerers[id]);
        assert id !in Senders(s);
        step := OfferUnlock(id);
        assert Do(s, step).offerers[id] == Trying;
      }
    }
  }

  lemma NearerFromLock(s: State, x: int) returns (step: Step)
    requires Inv(s) && s.poller.Clocked? && x in s.queue && x <= s.clock
    ensures Enabled(s, step) && Nearer(s, step, x)
  {
    if s.mutex.Free? {
      step := Lock;
    } else if s.offerers[s.mutex.id].Holding? {
      step := Push(s.mutex.id);
    } else {
      step := OfferUnlock(s.mutex.id);
    }
  }

  lemma NearerStep(s: State, x: int) returns (step: Step)
    requires Inv(s) && x <= s.clock && !s.poller.Sending? && (x in s.queue || s.poller.Found?)
    ensures Enabled(s, step) && Nearer(s, step, x)
  {
    match s.poller {
      case Found(_) => step := Unlock;
      case Top => step := ReadClock;
      case Clocked(_) => step := NearerFromLock(s, x);
      case Peeking(now) =>
        var head := HasLeast(s.queue);
        step := if head <= now then PeekDue(head) else PeekEarly(head);
      case Missed(_) => step := StoreSleeping;
      case Slept(_) => step := Unlock;
      case Waiting(_) => step := NearerFromWaiting(s, x);
      case TimedOut => step := SwapSleeping;
      case Draining =>
        var id :| id in Senders(s);
        step := Rendezvous(id);
    }
  }

  lemma RunPrefixed(s: State, step: Step, states: seq<State>, steps: seq<Step>)
    requires Enabled(s, step) && IsRun(states, steps) && states[0] == Do(s, step)
    ensures IsRun([s] + states, [step] + steps)
  {
    hide Enabled, Do;
    var a, b := [s] + states, [step] + steps;
    forall i: nat | i < |b|
      ensures Next(a[i], b[i], a[i + 1])
    {
      if i > 0 { assert Next(states[i - 1], steps[i - 1], states[i - 1 + 1]); }
    }
  }

  /** The item that Poll has in hand, or else x. */
  function InHandOr(s: State, x: int): int {
    if s.poller.Found? || s.poller.Sending? then s.poller.priority else x
  }

  lemma DeliverStep(s: State, x: int)
    requires Inv(s) && s.poller.Sending?
    ensures Enabled(s, Deliver) && Internal(Deliver) && IsRun([Do(s, Deliver)], []) && ToDeliver(s, x) == 1
    ensures Do(s, Deliver).delivered == s.delivered + multiset{s.poller.priority} && s.poller.priority <= s.clock
  {
  }

  lemma NearerMeans(s: State, step: Step, x: int)
    requires Inv(s) && Enabled(s, step) && Nearer(s, step, x) && !s.poller.Sending? && x <= s.clock
    ensures var t := Do(s, step);
            var due := InHandOr(t, x);
            && Internal(step) && t.clock == s.clock && t.delivered == s.delivered
            && due <= t.clock && (due in t.queue || InHand(t.poller, due))
            && ToDeliver(t, due) < ToDeliver(s, x) <= 18
            && (s.poller.Found? ==> due == s.poller.priority && t.poller.Sending?)
            && (!s.poller.Found? ==> due <= x)
  {
    StepKeepsInv(s, step);
  }

  /**
   From every reachable state in which an item is due, and whatever Poll and the calls of Offer are
   just doing: Poll delivers an item after at most 18 steps, which are its own and those of calls that
   it waits for. The item is no later than the due one, unless Poll had an item in hand already.
   */
  lemma {:induction false} DueItemIsDelivered(s: State, x: int) returns (states: seq<State>, steps: seq<Step>, y: int)
    requires Inv(s) && x <= s.clock && (x in s.queue || InHand(s.poller, x))
    ensures IsRun(states, steps) && states[0] == s && 1 <= |steps| <= ToDeliver(s, x) <= 18
    ensures forall i: nat | i < |steps| :: Internal(steps[i])
    ensures states[|steps|].delivered == s.delivered + multiset{y} && y <= s.clock
    ensures if s.poller.Found? || s.poller.Sending? then InHand(s.poller, y) else y <= x
    decreases ToDeliver(s, x)
  {
    hide Inv, Enabled, Do, ToDeliver, Internal, IsRun, Nearer;
    var step;
    if s.poller.Sending? {
      DeliverStep(s, x);
      step, y := Deliver, s.poller.priority;
      states, steps := [Do(s, step)], [];
    } else {
      step := NearerStep(s, x);
      var t := Do(s, step);
      NearerMeans(s, step, x);
      StepKeepsInv(s, step);
      states, steps, y := DueItemIsDelivered(t, InHandOr(t, x));
    }
    RunPrefixed(s, step, states, steps);
    states, steps := [s] + states, [step] + steps;
  }

  // ----- Offer returns -----

  /** How many steps the owner of the lock needs to give it back. */
  function ToFree(s: State): nat {
    match s.poller
    case Peeking(_) => 3
    case Missed(_) => 2
    case Slept(_) => if s.mutex.ByPoller? then 1 else ToRelease(s)
    case Found(_) => 1
    case _ => ToRelease(s)
  }

  /** How many steps are left until the call returns. */
  function ToReturn(s: State, id: nat): nat {
    if id !in s.offerers then 0
    else
      match s.offerers[id]
      case Starting(_) => 6 + ToFree(s)
      case Holding(_) => 5
      case Pushed(_) => 4
      case Trying => 3
      case Committed => if Receiving(s.poller) then 1 else 2
  }

  /** The step that brings the lock nearer to being free. */
  lemma StepToFree(s: State) returns (step: Step)
    requires Inv(s) && !s.mutex.Free?
    ensures Enabled(s, step) && Internal(step) && ToFree(Do(s, step)) < ToFree(s)
    ensures s.mutex.ByOfferer? ==> step.Push? || step.OfferUnlock?
    ensures s.mutex.ByOfferer? ==> step.id == s.mutex.id
    ensures s.mutex.ByPoller? ==> Do(s, step).offerers == s.offerers
  {
    if s.mutex.ByOfferer? {
      step := if s.offerers[s.mutex.id].Holding? then Push(s.mutex.id) else OfferUnlock(s.mutex.id);
    } else {
      match s.poller {
        case Peeking(now) =>
          if s.queue == multiset{} {
            step := PeekEmpty;
          } else {
            var head := HasLeast(s.queue);
            step := if head <= now then PeekDue(head) else PeekEarly(head);
          }
        case Missed(_) => step := StoreSleeping;
        case _ => step := Unlock;
      }
    }
  }

  lemma StepToReturn(s: State, id: nat) returns (step: Step)
    requires Inv(s) && id in s.offerers
    ensures Enabled(s, step) && Internal(step) && ToReturn(Do(s, step), id) < ToReturn(s, id)
  {
    match s.offerers[id] {
      case Starting(_) =>
        if s.mutex.Free? {
          step := OfferLock(id);
        } else {
          step := StepToFree(s);
        }
      case Holding(_) => step := Push(id);
      case Pushed(_) => step := OfferUnlock(id);
      case Trying =>
        step := CompareAndSwap(id);
      case Committed =>
        assert id in Senders(s);
        step := if Receiving(s.poller) then Rendezvous(id) else if s.poller.Slept? then Unlock else SwapSleeping;
    }
  }

  /**
   No call of Offer blocks for ever: from every reachable state, and wherever the call is, it returns
   after at most nine steps, which are its own, those of Poll and those of the call that holds the lock.
   */
  lemma {:induction false} OfferReturns(s: State, id: nat) returns (states: seq<State>, steps: seq<Step>)
    requires Inv(s)
    ensures IsRun(states, steps) && states[0] == s && |steps| <= ToReturn(s, id) <= 9
    ensures forall i: nat | i < |steps| :: Internal(steps[i])
    ensures id !in states[|steps|].offerers
    decreases ToReturn(s, id)
  {
    if id !in s.offerers {
      states, steps := [s], [];
    } else {
      var step := StepToReturn(s, id);
      StepKeepsInv(s, step);
      hide Inv, Enabled, Do, Internal;
      states, steps := OfferReturns(Do(s, step), id);
      RunPrefixed(s, step, states, steps);
      states, steps := [s] + states, [step] + steps;
    }
  }
}
