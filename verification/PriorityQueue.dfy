/**
 The priority queue of queue.go: a binary min-heap of item pointers in a slice whose capacity is
 grown and shrunk by hand, every item knowing its own position.
 */
module PriorityQueues {

  class Item<V> {
    const value: V
    const priority: int
    var index: int

    constructor (value: V, priority: int)
      ensures this.value == value && this.priority == priority
    {
      this.value, this.priority, index := value, priority, 0;
    }
  }

  function Parent(i: nat): nat {
    if i == 0 then 0 else (i - 1) / 2
  }

  /** Among the first n items, no item is smaller than its parent. */
  ghost predicate OrderedTo<V>(items: seq<Item<V>>, n: nat) {
    forall k: nat {:trigger items[k]} :: 1 <= k < n <= |items| ==> items[Parent(k)].priority <= items[k].priority
  }

  function Swapped<T>(s: seq<T>, i: nat, j: nat): seq<T>
    requires i < |s| && j < |s|
  {
    s[i := s[j]][j := s[i]]
  }

  ghost predicate Permutes<T>(a: seq<T>, b: seq<T>) {
    |a| == |b| && multiset(a) == multiset(b)
  }

  lemma SameMembers<T>(a: seq<T>, b: seq<T>)
    requires Permutes(a, b)
    ensures forall x :: x in a <==> x in b
  {
    assert forall x :: x in a <==> x in multiset(a);
    assert forall x :: x in b <==> x in multiset(b);
  }

  lemma StillMembers<T>(before: seq<T>, x: T, after: seq<T>)
    requires multiset(after) == multiset(before) - multiset{x}
    ensures forall y | y in after :: y in before
  {
    forall y | y in after
      ensures y in before
    {
      assert y in multiset(after) && y in multiset(before);
    }
  }

  lemma {:induction false} DistinctOnce<T>(s: seq<T>, x: T)
    requires forall i: nat, k: nat | i < k < |s| :: s[i] != s[k]
    ensures multiset(s)[x] <= 1
  {
    if s != [] {
      DistinctOnce(s[1..], x);
      assert s == [s[0]] + s[1..];
      assert x == s[0] ==> x !in s[1..];
    }
  }

  /** Taking x out of a sequence without duplicates leaves exactly the others. */
  lemma OthersRemain<T>(before: seq<T>, x: T, after: seq<T>)
    requires forall i: nat, k: nat | i < k < |before| :: before[i] != before[k]
    requires x in before && multiset(after) == multiset(before) - multiset{x}
    ensures forall y :: y in after <==> y in before && y != x
  {
    forall y
      ensures y in after <==> y in before && y != x
    {
      DistinctOnce(before, y);
      assert y in after <==> y in multiset(after);
      assert y in before <==> y in multiset(before);
    }
  }

  lemma SwapPermutes<T>(a: seq<T>, s: seq<T>, i: nat, j: nat)
    requires i < |s| && j < |s| && Permutes(a, s)
    ensures Permutes(a, Swapped(s, i, j))
    ensures s[i] in a && s[j] in a
  {
    assert multiset(Swapped(s, i, j)) == multiset(s);
    assert s[i] in multiset(s) && s[j] in multiset(s);
  }

  /** In an ordered heap the item at position 0 is a minimum. */
  lemma {:induction false} RootIsLeast<V>(items: seq<Item<V>>, n: nat, k: nat)
    requires k < n <= |items| && OrderedTo(items, n)
    ensures items[0].priority <= items[k].priority
    decreases k
  {
    if k > 0 {
      assert items[Parent(k)].priority <= items[k].priority;
      RootIsLeast(items, n, Parent(k));
    }
  }

  lemma RootIsLeastOfAll<V>(items: seq<Item<V>>)
    requires OrderedTo(items, |items|)
    ensures forall y | y in items :: |items| > 0 && items[0].priority <= y.priority
  {
    forall k: nat | k < |items|
      ensures items[0].priority <= items[k].priority
    {
      RootIsLeast(items, |items|, k);
    }
  }

  /** Ordered but for the item at position j, which may have to rise. */
  ghost predicate Rising<V>(items: seq<Item<V>>, j: nat) {
    && j < |items|
    && (forall k: nat {:trigger items[k]} | 1 <= k < |items| && k != j ::
          items[Parent(k)].priority <= items[k].priority)
    && (forall k: nat {:trigger items[k]} | 1 <= k < |items| && Parent(k) == j ::
          items[Parent(j)].priority <= items[k].priority)
  }

  lemma Rise<V>(items: seq<Item<V>>, j: nat)
    requires Rising(items, j) && j > 0 && items[j].priority < items[Parent(j)].priority
    ensures Rising(Swapped(items, Parent(j), j), Parent(j))
  {
    var i, r := Parent(j), Swapped(items, Parent(j), j);
    forall k: nat | 1 <= k < |r| && k != i
      ensures r[Parent(k)].priority <= r[k].priority
    {
      assert items[k] == items[k] && items[i] == items[i];
    }
    forall k: nat | 1 <= k < |r| && Parent(k) == i
      ensures r[Parent(i)].priority <= r[k].priority
    {
      assert items[k] == items[k] && (i > 0 ==> items[Parent(i)].priority <= items[i].priority);
    }
  }

  /** How far up has come: the item from `start` is at j, and nothing above j has moved. */
  ghost predicate RisenTo<V>(before: seq<Item<V>>, items: seq<Item<V>>, start: nat, j: nat) {
    && Rising(items, j) && Permutes(before, items)
    && j <= start < |before| && items[j] == before[start]
    && (forall k: nat | k < j :: items[k] == before[k])
    && (j < start ==> before[start].priority < before[j].priority)
  }

  lemma StartRising<V>(before: seq<Item<V>>, start: nat)
    requires Rising(before, start)
    ensures RisenTo(before, before, start, start)
  {
  }

  lemma RiseOn<V>(before: seq<Item<V>>, items: seq<Item<V>>, start: nat, j: nat)
    requires RisenTo(before, items, start, j)
    requires 0 < j < |items| && items[j].priority < items[Parent(j)].priority
    ensures RisenTo(before, Swapped(items, Parent(j), j), start, Parent(j))
    ensures items[j] in before && items[Parent(j)] in before
  {
    Rise(items, j);
    SwapPermutes(before, items, Parent(j), j);
  }

  lemma StopRising<V>(before: seq<Item<V>>, items: seq<Item<V>>, start: nat, j: nat)
    requires RisenTo(before, items, start, j) && j < |items|
    requires items[Parent(j)].priority <= items[j].priority
    ensures OrderedTo(items, |items|) && Permutes(before, items)
    ensures start < |before| && items[j] == before[start]
    ensures j == 0 <==> start == 0 || before[start].priority < before[0].priority
  {
    if j > 0 {
      RootIsLeast(items, |items|, Parent(j));
    }
  }

  /** The first m items are ordered but for the one at position i, which may have to sink. */
  ghost predicate Sinking<V>(items: seq<Item<V>>, m: nat, i: nat) {
    && i < m <= |items|
    && (forall k: nat {:trigger items[k]} | 1 <= k < m && Parent(k) != i ::
          items[Parent(k)].priority <= items[k].priority)
    && (forall k: nat {:trigger items[k]} | 1 <= k < m && Parent(k) == i && i > 0 ::
          items[Parent(i)].priority <= items[k].priority)
  }

  /** j is the child of i that down compares with: the smaller one, the left one on a tie. */
  ghost predicate SmallerChild<V>(items: seq<Item<V>>, m: nat, i: nat, j: nat) {
    && j < m <= |items| && j > 0 && Parent(j) == i
    && forall k: nat {:trigger items[k]} | 1 <= k < m && Parent(k) == i :: items[j].priority <= items[k].priority
  }

  lemma Sink<V>(items: seq<Item<V>>, m: nat, i: nat, j: nat)
    requires Sinking(items, m, i) && SmallerChild(items, m, i, j) && items[j].priority < items[i].priority
    ensures Sinking(Swapped(items, i, j), m, j)
  {
    var r := Swapped(items, i, j);
    forall k: nat | 1 <= k < m && Parent(k) != j
      ensures r[Parent(k)].priority <= r[k].priority
    {
      assert items[k] == items[k] && items[i] == items[i];
    }
    forall k: nat | 1 <= k < m && Parent(k) == j
      ensures r[Parent(j)].priority <= r[k].priority
    {
      assert items[Parent(k)].priority <= items[k].priority;
    }
  }

  lemma ChildrenOf<V>(items: seq<Item<V>>, m: nat, i: nat, j: nat)
    requires 2 * i + 1 < m <= |items|
    requires j == if 2 * i + 2 < m && items[2 * i + 2].priority < items[2 * i + 1].priority
                  then 2 * i + 2 else 2 * i + 1
    ensures SmallerChild(items, m, i, j)
  {
    assert forall k: nat | 1 <= k < m && Parent(k) == i :: k == 2 * i + 1 || k == 2 * i + 2;
  }

  /** How far down has come: the root's item is at i, and nothing from m on has moved. */
  ghost predicate SunkTo<V>(before: seq<Item<V>>, items: seq<Item<V>>, m: nat, i: nat) {
    && Sinking(items, m, i) && Permutes(before, items)
    && forall k: nat | m <= k < |items| :: items[k] == before[k]
  }

  lemma StartSinking<V>(before: seq<Item<V>>, m: nat)
    requires Sinking(before, m, 0)
    ensures 0 < m <= |before| && SunkTo(before, before, m, 0)
  {
  }

  lemma SinkOn<V>(before: seq<Item<V>>, items: seq<Item<V>>, m: nat, i: nat, j: nat)
    requires SunkTo(before, items, m, i) && i < j < m <= |items|
    requires SmallerChild(items, m, i, j) && items[j].priority < items[i].priority
    ensures SunkTo(before, Swapped(items, i, j), m, j)
    ensures items[i] in before && items[j] in before
  {
    Sink(items, m, i, j);
    SwapPermutes(before, items, i, j);
  }

  lemma StopSinking<V>(before: seq<Item<V>>, items: seq<Item<V>>, m: nat, i: nat, j: nat)
    requires |items| == |before| && SunkTo(before, items, m, i)
    requires 2 * i + 1 < m ==> SmallerChild(items, m, i, j) && items[i].priority <= items[j].priority
    ensures OrderedTo(items, m) && Permutes(before, items)
    ensures items[m..] == before[m..]
  {
    if 2 * i + 1 < m {
      forall k: nat | 1 <= k < m
        ensures items[Parent(k)].priority <= items[k].priority
      {
        if Parent(k) == i { assert items[j].priority <= items[k].priority; }
      }
    }
  }

  /** An item appended to an ordered heap may have to rise, to the root if it is earliest. */
  lemma PutLast<V>(items: seq<Item<V>>, x: Item<V>)
    requires OrderedTo(items, |items|)
    ensures Rising(items + [x], |items|)
    ensures multiset(items + [x]) == multiset(items) + multiset{x}
    ensures (forall y | y in items :: x.priority < y.priority)
       <==> |items| == 0 || x.priority < (items + [x])[0].priority
  {
    RootIsLeastOfAll(items);
    assert items != [] ==> items[0] in items;
    assert forall k: nat {:trigger items[k]} | 1 <= k < |items| :: items[Parent(k)].priority <= items[k].priority;
  }

  /** heap.Remove(pq, 0) moves the last item to the root, from where it may have to sink. */
  lemma TakesRoot<V>(items: seq<Item<V>>)
    requires OrderedTo(items, |items|) && |items| > 0
    ensures |items| > 1 ==> Sinking(Swapped(items, 0, |items| - 1), |items| - 1, 0)
    ensures Permutes(items, Swapped(items, 0, |items| - 1))
  {
    SwapPermutes(items, items, 0, |items| - 1);
    assert forall k: nat | 1 <= k < |items| - 1 :: items[Parent(k)].priority <= items[k].priority;
  }

  /** `after` is `before` with its root moved to the end; dropping the end removes just the root. */
  lemma WithoutRoot<V>(before: seq<Item<V>>, after: seq<Item<V>>)
    requires |after| > 0 && Permutes(before, after) && OrderedTo(after, |after| - 1)
    requires after[|after| - 1] == before[0]
    ensures multiset(after[..|after| - 1]) == multiset(before) - multiset{before[0]}
    ensures OrderedTo(after[..|after| - 1], |after| - 1)
    ensures before[0] in before && after[|after| - 1] in after
  {
    hide OrderedTo;
    DropLast(before, after);
    OrderedPrefix(after, |after| - 1);
  }

  lemma DropLast<T>(before: seq<T>, after: seq<T>)
    requires |after| > 0 && Permutes(before, after) && after[|after| - 1] == before[0]
    ensures multiset(after[..|after| - 1]) == multiset(before) - multiset{before[0]}
  {
    assert after == after[..|after| - 1] + [before[0]];
  }

  lemma OrderedPrefix<V>(items: seq<Item<V>>, n: nat)
    requires n <= |items| && OrderedTo(items, n)
    ensures OrderedTo(items[..n], n)
  {
    assert forall k: nat | 1 <= k < n :: items[Parent(k)].priority <= items[k].priority;
  }

  class PriorityQueue<V> {
    /** The slice: `slots.Length` is its capacity, the first `n` entries are its elements. */
    var slots: array<Item?<V>>
    var n: nat
    ghost var items: seq<Item<V>>

    /** The slice is well formed and every item knows its position. */
    ghost predicate Indexed()
      reads this, slots, items
    {
      && 1 <= slots.Length && n == |items| <= slots.Length
      && forall i: nat | i < n :: slots[i] == items[i] && items[i].index == i
    }

    ghost predicate Valid()
      reads this, slots, items
    {
      Indexed() && OrderedTo(items, n)
    }

    lemma AllDistinct()
      requires Indexed()
      ensures forall i: nat, k: nat | i < k < |items| :: items[i] != items[k]
    {
      assert forall i: nat | i < n :: items[i].index == i;
    }

    constructor (capacity: nat)
      requires capacity >= 1
      ensures Valid() && items == [] && fresh(slots) && slots.Length == capacity
    {
      slots := new Item?<V>[capacity](_ => null);
      n, items := 0, [];
    }

    method Swap(i: nat, j: nat)
      requires Indexed() && i < n && j < n
      modifies slots, this`items, items[i], items[j]
      ensures Indexed() && items == Swapped(old(items), i, j)
    {
      slots[i], slots[j] := slots[j], slots[i];
      slots[i].index := i;
      slots[j].index := j;
      items := Swapped(items, i, j);
    }

    /** Append to the slice, doubling its capacity when it is full. */
    method Push(x: Item<V>)
      requires Indexed() && x !in items
      modifies this, slots, x
      ensures Indexed() && items == old(items) + [x]
      ensures slots.Length == if old(n) + 1 > old(slots.Length) then 2 * old(slots.Length) else old(slots.Length)
      ensures slots == old(slots) || fresh(slots)
    {
      var c := slots.Length;
      if n + 1 > c {
        var wider := new Item?<V>[c * 2](_ => null);
        for i := 0 to n
          modifies wider
          invariant forall k: nat | k < i :: wider[k] == slots[k]
        {
          wider[i] := slots[i];
        }
        slots := wider;
      }
      n := n + 1;
      x.index := n - 1;
      slots[n - 1] := x;
      items := items + [x];
    }

    /** Drop the last item, halving the capacity when less than half of it is used. */
    method Pop() returns (x: Item<V>)
      requires Indexed() && n > 0
      modifies this, slots, items[|items| - 1]
      ensures Indexed() && items == old(items)[..old(n) - 1] && x == old(items)[old(n) - 1]
      ensures x.index == -1
      ensures slots.Length
           == if old(n) < old(slots.Length) / 2 && old(slots.Length) > 25
              then old(slots.Length) / 2 else old(slots.Length)
      ensures slots == old(slots) || fresh(slots)
    {
      var c := slots.Length;
      if n < c / 2 && c > 25 {
        var narrower := new Item?<V>[c / 2](_ => null);
        for i := 0 to n
          modifies narrower
          invariant forall k: nat | k < i :: narrower[k] == slots[k]
        {
          narrower[i] := slots[i];
        }
        slots := narrower;
      }
      x := slots[n - 1];
      x.index := -1;
      n := n - 1;
      items := items[..n];
    }

    /** heap.up: let the item at position `start` rise while it is smaller than its parent. */
    method Up(start: nat)
      requires Indexed() && Rising(items, start)
      modifies slots, this`items, items
      ensures Valid() && Permutes(old(items), items)
      ensures old(items)[start].index == 0
         <==> start == 0 || old(items)[start].priority < old(items)[0].priority
    {
      var j: nat := start;
      ghost var before := items;
      StartRising(before, start);
      while true
        invariant j < |before| == |items| && Indexed() && RisenTo(before, items, start, j)
        decreases j
      {
        hide RisenTo;
        var i := Parent(j);
        if i == j || !(slots[j].priority < slots[i].priority) {
          break;
        }
        RiseOn(before, items, start, j);
        Swap(i, j);
        j := i;
      }
      StopRising(before, items, start, j);
      hide RisenTo;
    }

    /** The child that heap.down goes on with: the right one only when it is strictly smaller. */
    method Child(m: nat, i: nat) returns (j: nat)
      requires Indexed() && 2 * i + 1 < m <= n
      ensures i < j < m && SmallerChild(items, m, i, j)
    {
      j := 2 * i + 1;
      if j + 1 < m && slots[j + 1].priority < slots[j].priority {
        j := j + 1;
      }
      ChildrenOf(items, m, i, j);
    }

    /** heap.down on the first `m` items, from the root: let it sink below its smaller children. */
    method Down(m: nat)
      requires Indexed() && Sinking(items, m, 0)
      modifies slots, this`items, items
      ensures Indexed() && OrderedTo(items, m)
      ensures Permutes(old(items), items) && items[m..] == old(items)[m..]
    {
      var i: nat := 0;
      ghost var before := items;
      StartSinking(before, m);
      hide SunkTo, SmallerChild, OrderedTo, Permutes, Sinking;
      while true
        invariant i < m <= |items| == |before| && Indexed() && SunkTo(before, items, m, i)
        decreases m - i
      {
        if 2 * i + 1 >= m {
          StopSinking(before, items, m, i, i);
          break;
        }
        var j := Child(m, i);
        if !(slots[j].priority < slots[i].priority) {
          StopSinking(before, items, m, i, j);
          break;
        }
        SinkOn(before, items, m, i, j);
        Swap(i, j);
        i := j;
      }
    }

    /**
     The critical section of DelayQueue.Offer: heap.Push. The index it reads back is 0 exactly
     when the new item is earlier than everything that was queued.
     */
    method Offer(x: Item<V>)
      requires Valid() && x !in items
      modifies this, slots, items, x
      ensures Valid() && multiset(items) == multiset(old(items)) + multiset{x}
      ensures forall y :: y in items <==> y == x || y in old(items)
      ensures x.index == 0 <==> forall y | y in old(items) :: x.priority < y.priority
      ensures slots == old(slots) || fresh(slots)
    {
      ghost var before := items;
      PutLast(items, x);
      Push(x);
      hide OrderedTo, Rising;
      assert multiset(items)[x] > 0;
      Up(n - 1);
      SameMembers(before + [x], items);
    }

    /** The first half of heap.Remove(pq, 0): the last item takes the root's place and sinks. */
    method MoveRootLast()
      requires Valid() && n > 0
      modifies slots, this`items, items
      ensures Indexed() && OrderedTo(items, n - 1) && Permutes(old(items), items)
      ensures items[n - 1] == old(items)[0]
    {
      var last := n - 1;
      TakesRoot(items);
      if last != 0 {
        Swap(0, last);
        hide OrderedTo, Permutes, Sinking;
        Down(last);
        assert items[last..][0] == items[last];
      }
    }

    /**
     heap.Remove(pq, 0): swap the last item to the root, let it sink, and pop; the call of up(0)
     that follows a root that did not sink has nothing to do.
     */
    method RemoveRoot() returns (x: Item<V>)
      requires Valid() && n > 0
      modifies this, slots, items
      ensures Valid() && (slots == old(slots) || fresh(slots))
      ensures x == old(items)[0] && x.index == -1
      ensures multiset(items) == multiset(old(items)) - multiset{x}
    {
      ghost var before := items;
      MoveRootLast();
      WithoutRoot(before, items);
      hide OrderedTo, Permutes;
      x := Pop();
    }

    /**
     priorityQueue.PeekAndShift: a least item when it is due, and otherwise the time left until
     one is; 0 only when there is none.
     */
    method PeekAndShift(max: int) returns (x: Item?<V>, delta: int)
      requires Valid()
      modifies this, slots, items
      ensures Valid() && (slots == old(slots) || fresh(slots))
      ensures x == null <==> forall y | y in old(items) :: y.priority > max
      ensures x == null ==> items == old(items) && unchanged(this) && unchanged(slots) && unchanged(items)
      ensures x == null && items == [] ==> delta == 0
      ensures x == null && items != [] ==>
                delta > 0 && (exists y | y in items :: y.priority == max + delta)
                && forall y | y in items :: y.priority >= max + delta
      ensures x != null ==>
                delta == 0 && x in old(items) && x.index == -1
                && multiset(items) == multiset(old(items)) - multiset{x}
                && forall y | y in old(items) :: x.priority <= y.priority
      ensures forall y | y in items :: y in old(items)
    {
      RootIsLeastOfAll(items);
      if n == 0 {
        return null, 0;
      }
      assert slots[0] in items;
      if slots[0].priority > max {
        return null, slots[0].priority - max;
      }
      ghost var before := items;
      x := RemoveRoot();
      delta := 0;
      StillMembers(before, x, items);
    }
  }
}
