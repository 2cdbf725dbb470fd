/**
 The division of the task table between the live nodes: a node fetches the rows whose `locked_by`
 lies in the half-open range (lo, hi] that SetNodes computes from the list of live ordinals.
 */
module Nodes {

  const MAX_INT64: int := 0x7fff_ffff_ffff_ffff

  datatype Range = Range(lo: int, hi: int)

  predicate Contains(r: Range, v: int) {
    r.lo < v <= r.hi
  }

  /** The list that sort.Ints makes of the keys of a map of live ordinals. */
  predicate LiveList(ns: seq<int>) {
    && (forall i: nat | i < |ns| :: 0 <= ns[i] <= MAX_INT64)
    && forall i: nat, j: nat | i < j < |ns| :: ns[i] < ns[j]
  }

  /** The position of the first ordinal not below `node`; the length of the list when there is none. */
  function FirstAtLeast(ns: seq<int>, node: int): (i: nat)
    ensures i <= |ns|
    ensures forall k: nat | k < i :: ns[k] < node
    ensures i < |ns| ==> node <= ns[i]
  {
    if ns == [] then 0 else if ns[0] >= node then 0 else 1 + FirstAtLeast(ns[1..], node)
  }

  function RangeAt(ns: seq<int>, i: nat): Range
    requires i < |ns|
  {
    Range(if i == 0 then -1 else ns[i - 1], if i == |ns| - 1 then MAX_INT64 else ns[i])
  }

  /** SetNodes: the range of `node`; without a live ordinal at or above it the old range stays. */
  function RangeOf(ns: seq<int>, node: int, before: Range): Range {
    var live := if ns == [] then [node] else ns;
    var i := FirstAtLeast(live, node);
    if i < |live| then RangeAt(live, i) else before
  }

  /** Without any live ordinal a node takes the whole table, whatever it had before. */
  lemma NobodyListed(node: int, before: Range)
    ensures RangeOf([], node, before) == Range(-1, 0x7fff_ffff_ffff_ffff)
    ensures forall v | 0 <= v <= 0x7fff_ffff_ffff_ffff :: Contains(RangeOf([], node, before), v)
  {
  }

  /** A node above all live ordinals keeps the range that it had. */
  lemma AboveAllKeeps(ns: seq<int>, node: int, before: Range)
    requires ns != [] && forall n | n in ns :: n < node
    ensures RangeOf(ns, node, before) == before
  {
    forall k: nat | k < |ns|
      ensures ns[k] < node
    {
      assert ns[k] in ns;
    }
  }

  /** Whose rows these are meant to be: the smallest live ordinal not below v, or else the largest. */
  predicate Owns(ns: seq<int>, node: int, v: int) {
    && node in ns
    && (v <= node || forall n | n in ns :: n <= node)
    && forall n | n in ns :: n < node ==> n < v
  }

  lemma MemberIndex(ns: seq<int>, node: int) returns (i: nat)
    requires LiveList(ns) && node in ns
    ensures i < |ns| && ns[i] == node && FirstAtLeast(ns, node) == i
  {
    i :| i < |ns| && ns[i] == node;
  }

  /** A listed node gets exactly the rows that it is meant to own. */
  lemma RangeIsOwned(ns: seq<int>, node: int, before: Range, v: int)
    requires LiveList(ns) && node in ns && 0 <= v <= MAX_INT64
    ensures Contains(RangeOf(ns, node, before), v) <==> Owns(ns, node, v)
  {
    var i := MemberIndex(ns, node);
    if i > 0 { assert ns[i - 1] in ns; }
    if i < |ns| - 1 { assert ns[i + 1] in ns; }
  }

  /** Every row has exactly one owner among the live nodes. */
  lemma OneOwner(ns: seq<int>, v: int) returns (owner: int)
    requires LiveList(ns) && ns != [] && 0 <= v <= MAX_INT64
    ensures Owns(ns, owner, v)
    ensures forall n :: Owns(ns, n, v) ==> n == owner
  {
    var i := FirstAtLeast(ns, v);
    owner := if i < |ns| then ns[i] else ns[|ns| - 1];
    assert owner in ns;
    forall n | Owns(ns, n, v)
      ensures n == owner
    {
      var k := MemberIndex(ns, n);
    }
  }

  /**
   When all live nodes see the same list, their ranges partition the table: each row is in the range
   of exactly one of them, and a node's own tasks are in its own range.
   */
  lemma RangesPartition(ns: seq<int>, before: Range, v: int) returns (owner: int)
    requires LiveList(ns) && ns != [] && 0 <= v <= MAX_INT64
    ensures owner in ns && Contains(RangeOf(ns, owner, before), v)
    ensures forall n | n in ns :: Contains(RangeOf(ns, n, before), v) ==> n == owner
    ensures v in ns ==> owner == v
  {
    owner := OneOwner(ns, v);
    RangeIsOwned(ns, owner, before, v);
    forall n | n in ns
      ensures Contains(RangeOf(ns, n, before), v) ==> n == owner
    {
      RangeIsOwned(ns, n, before, v);
    }
  }

  /** A node gets exactly its own rows if and only if it is in the list that it is given. */
  lemma OwnsExactlyIffListed(ns: seq<int>, node: int, before: Range)
    requires LiveList(ns) && ns != [] && node >= 0 && 0 <= before.hi <= MAX_INT64 && before.lo < before.hi
    ensures (forall v | 0 <= v <= MAX_INT64 :: Contains(RangeOf(ns, node, before), v) <==> Owns(ns, node, v))
       <==> node in ns
  {
    if node in ns {
      forall v | 0 <= v <= MAX_INT64
        ensures Contains(RangeOf(ns, node, before), v) <==> Owns(ns, node, v)
      {
        RangeIsOwned(ns, node, before, v);
      }
    } else {
      var r := RangeOf(ns, node, before);
      assert Contains(r, r.hi) && !Owns(ns, node, r.hi);
    }
  }

  /** A node that is not listed takes the very range of the next larger live node. */
  lemma UnlistedDoublesItsSuccessor(ns: seq<int>, node: int, before: Range)
    requires LiveList(ns) && ns != [] && node !in ns && node < ns[|ns| - 1]
    ensures var heir := ns[FirstAtLeast(ns, node)];
            FirstAtLeast(ns, node) < |ns| && RangeOf(ns, node, before) == RangeOf(ns, heir, before)
  {
    var heir := ns[FirstAtLeast(ns, node)];
    assert heir in ns;
    var i := MemberIndex(ns, heir);
  }

  /** Some row is in both ranges. */
  ghost predicate Shared(a: Range, b: Range) {
    exists v :: 0 <= v <= MAX_INT64 && Contains(a, v) && Contains(b, v)
  }

  lemma OwnRow(ns: seq<int>, one: int, before: Range)
    requires LiveList(ns) && one in ns
    ensures Shared(RangeOf(ns, one, before), RangeOf(ns, one, before))
  {
    RangeIsOwned(ns, one, before, one);
    hide RangeOf;
  }

  lemma NothingShared(ns: seq<int>, one: int, n: int, before: Range)
    requires LiveList(ns) && one in ns && n in ns && n != one
    ensures !Shared(RangeOf(ns, one, before), RangeOf(ns, n, before))
  {
    hide RangeOf, LiveList;
    forall v | 0 <= v <= MAX_INT64
      ensures !(Contains(RangeOf(ns, one, before), v) && Contains(RangeOf(ns, n, before), v))
    {
      RangeIsOwned(ns, one, before, v);
      RangeIsOwned(ns, n, before, v);
    }
  }

  /**
   A node at or below the largest live ordinal has rows in common with exactly one live node; this is
   the node itself if and only if it is in the list.
   */
  lemma SharesRowsWithOne(ns: seq<int>, node: int, before: Range) returns (one: int)
    requires LiveList(ns) && ns != [] && 0 <= node <= ns[|ns| - 1]
    ensures one in ns && (one == node <==> node in ns)
    ensures forall n | n in ns :: Shared(RangeOf(ns, node, before), RangeOf(ns, n, before)) <==> n == one
  {
    one := ns[FirstAtLeast(ns, node)];
    assert one in ns;
    if node in ns {
      var i := MemberIndex(ns, node);
    } else {
      UnlistedDoublesItsSuccessor(ns, node, before);
    }
    hide RangeOf, LiveList, Shared;
    OwnRow(ns, one, before);
    forall n | n in ns && n != one
      ensures !Shared(RangeOf(ns, one, before), RangeOf(ns, n, before))
    {
      NothingShared(ns, one, n, before);
    }
  }

  /**
   No other live node fetches rows of `node` if and only if `node` is in the list - for every node, also
   one above the largest live ordinal, which keeps the rows that it had before.
   */
  lemma SharesRowsIffUnlisted(ns: seq<int>, node: int, before: Range)
    requires LiveList(ns) && ns != [] && node >= 0 && before.lo < before.hi && 0 <= before.hi <= MAX_INT64
    ensures (forall n | n in ns && n != node :: !Shared(RangeOf(ns, node, before), RangeOf(ns, n, before)))
       <==> node in ns
  {
    if node in ns {
      forall n | n in ns && n != node
        ensures !Shared(RangeOf(ns, node, before), RangeOf(ns, n, before))
      {
        NothingShared(ns, node, n, before);
      }
    } else {
      var mine := RangeOf(ns, node, before);
      assert Contains(mine, mine.hi) && 0 <= mine.hi <= MAX_INT64;
      var owner := OneOwner(ns, mine.hi);
      RangeIsOwned(ns, owner, before, mine.hi);
      assert Shared(mine, RangeOf(ns, owner, before));
    }
  }

  // ----- a node goes, or comes -----

  function Without(ns: seq<int>, i: nat): seq<int>
    requires i < |ns|
  {
    ns[..i] + ns[i + 1..]
  }

  /** The node that takes over: the next larger one, or the next smaller when the largest goes. */
  function Heir(ns: seq<int>, i: nat): int
    requires i < |ns| && |ns| >= 2
  {
    if i + 1 < |ns| then ns[i + 1] else ns[i - 1]
  }

  lemma WithoutIsLive(ns: seq<int>, i: nat)
    requires LiveList(ns) && i < |ns|
    ensures LiveList(Without(ns, i)) && |Without(ns, i)| == |ns| - 1
    ensures forall k: nat | k < |ns| - 1 :: Without(ns, i)[k] == if k < i then ns[k] else ns[k + 1]
  {
  }

  /**
   Removing one live ordinal hands its whole range to its heir; every other node keeps the range it
   had. Read from right to left: adding an ordinal takes a range from one node only.
   */
  lemma OneNodeTakesOver(ns: seq<int>, i: nat, node: int, before: Range)
    requires LiveList(ns) && |ns| >= 2 && i < |ns| && node in Without(ns, i)
    ensures var now := RangeOf(Without(ns, i), node, before);
            if node == Heir(ns, i)
            then forall v | 0 <= v <= MAX_INT64 ::
                   Contains(now, v)
                   <==> Contains(RangeOf(ns, node, before), v) || Contains(RangeOf(ns, ns[i], before), v)
            else now == RangeOf(ns, node, before)
  {
    WithoutIsLive(ns, i);
    var left := Without(ns, i);
    var k := MemberIndex(left, node);
    var j: nat := if k < i then k else k + 1;
    assert ns[j] == node && ns[i] in ns;
    RangeOfMember(left, k, before);
    RangeOfMember(ns, j, before);
    RangeOfMember(ns, i, before);
    RangeAfter(ns, i, k);
    hide *;
    HeirIndex(ns, i, j);
    if node == Heir(ns, i) {
      forall v | 0 <= v <= MAX_INT64
        ensures Contains(RangeOf(left, node, before), v)
           <==> Contains(RangeOf(ns, node, before), v) || Contains(RangeOf(ns, ns[i], before), v)
      {
        Joined(RangeAt(ns, i), RangeAt(ns, j), v);
        Joined(RangeAt(ns, j), RangeAt(ns, i), v);
      }
    }
  }

  /** Two ranges that meet hold together what the range from the first to the last holds. */
  lemma Joined(a: Range, b: Range, v: int)
    ensures a.lo <= a.hi == b.lo <= b.hi ==> (Contains(Range(a.lo, b.hi), v) <==> Contains(a, v) || Contains(b, v))
  {
  }

  lemma HeirIndex(ns: seq<int>, i: nat, j: nat)
    requires LiveList(ns) && |ns| >= 2 && i < |ns| && j < |ns| && j != i
    ensures ns[j] == Heir(ns, i) <==> (if i + 1 < |ns| then j == i + 1 else j == i - 1)
  {
  }

  /** The ranges by position, before and after the node at position i has gone. */
  lemma RangeAfter(ns: seq<int>, i: nat, k: nat)
    requires LiveList(ns) && |ns| >= 2 && i < |ns| && k < |ns| - 1
    ensures |Without(ns, i)| == |ns| - 1
    ensures var j := if k < i then k else k + 1;
            var now, was, gone := RangeAt(Without(ns, i), k), RangeAt(ns, j), RangeAt(ns, i);
            if j == i + 1 then
              now == Range(gone.lo, was.hi) && gone.lo <= gone.hi == was.lo <= was.hi
            else if i + 1 == |ns| && j == i - 1 then
              now == Range(was.lo, gone.hi) && was.lo <= was.hi == gone.lo <= gone.hi
            else
              now == was
  {
    WithoutIsLive(ns, i);
    hide Without;
  }

  lemma RangeOfMember(ns: seq<int>, i: nat, before: Range)
    requires LiveList(ns) && i < |ns|
    ensures RangeOf(ns, ns[i], before) == RangeAt(ns, i)
  {
    assert ns[i] in ns;
    var k := MemberIndex(ns, ns[i]);
  }
}
