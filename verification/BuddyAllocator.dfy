/**
  The allocator itself (pkg/axsys/src/buddy.c): powers of two in, byte offsets
  out, one array updated in place.
 */
module BuddyAllocator {
  import opened Basics
  import opened Buddy
  import opened BuddyArray

  const SIZE_MAX: nat := 0xffff_ffff_ffff_ffff

  /** The bit test n & (n - 1), for n > 0. */
  predicate IsPow2(n: nat) {
    n == 1 || (n > 1 && n % 2 == 0 && IsPow2(n / 2))
  }

  lemma {:induction false} PowerLog(n: nat) returns (k: nat)
    requires IsPow2(n)
    ensures n == Pow2(k)
    decreases n
  {
    if n == 1 {
      k := 0;
    } else {
      k := PowerLog(n / 2);
      k := k + 1;
    }
  }

  lemma {:induction false} PowerSum(a: nat, b: nat)
    ensures Pow2(a + b) == Pow2(a) * Pow2(b)
    decreases b
  {
    if b > 0 {
      PowerSum(a, b - 1);
      assert Pow2(a) * (2 * Pow2(b - 1)) == 2 * (Pow2(a) * Pow2(b - 1));
    }
  }

  lemma {:induction false} PowerOrder(a: nat, b: nat)
    requires Pow2(a) <= Pow2(b)
    ensures a <= b
    decreases a
  {
    if a > 0 && b > 0 {
      PowerOrder(a - 1, b - 1);
    }
  }

  lemma {:induction false} TimesAtLeast(d: nat, m: nat)
    requires d >= 1
    ensures d * m >= m
    decreases d
  {
    if d > 1 {
      TimesAtLeast(d - 1, m);
      assert d * m == (d - 1) * m + m;
    }
  }

  lemma TimesOrder(a: nat, b: nat, m: nat)
    requires a < b
    ensures a * m + m <= b * m
  {
    TimesAtLeast(b - a, m);
    assert b * m == a * m + (b - a) * m;
  }

  lemma {:induction false} Unique(m: nat, q: nat, q1: nat, r1: nat)
    requires r1 < m && q * m == q1 * m + r1
    ensures q == q1
  {
    if q < q1 {
      TimesOrder(q, q1, m);
    } else if q > q1 {
      TimesOrder(q1, q, m);
    }
  }

  lemma {:induction false} ExactDiv(x: nat, q: nat, m: nat)
    requires m > 0 && x == q * m
    ensures x / m == q
  {
    var q1, r1 := x / m, x % m;
    assert x == q1 * m + r1;
    Unique(m, q, q1, r1);
  }

  /** A valid capacity is the minimum times a power of two. */
  lemma {:induction false} PowerRatio(capacity: nat, minimum: nat) returns (k: nat)
    requires IsPow2(capacity) && IsPow2(minimum) && capacity >= minimum
    ensures capacity == minimum * Pow2(k) && capacity / minimum == Pow2(k)
  {
    var a := PowerLog(capacity);
    var b := PowerLog(minimum);
    PowerOrder(b, a);
    k := a - b;
    PowerSum(b, k);
    ExactDiv(capacity, Pow2(k), minimum);
  }

  /** Counting how often a power of two halves. */
  method Log2(n0: nat, ghost k: nat) returns (order: nat)
    requires n0 == Pow2(k)
    ensures order == k
  {
    var n := n0;
    order := 0;
    while n > 1
      invariant order <= k && n == Pow2(k - order)
      decreases n
    {
      n := n / 2;
      order := order + 1;
    }
    PowerOrder(k - order, 0);
  }

  class Allocator {
    var capacity: nat
    var minimum: nat
    var order: nat
    var tree: array<int>
    ghost var blocks: Block

    ghost predicate Valid()
      reads this, tree
    {
      && minimum > 0 && capacity == minimum * Pow2(order) && tree.Length == 2 * Pow2(order)
      && Normal(blocks, order) && Rep(tree[..], 1, order, blocks) && Room(tree.Length, 1, order)
    }

    ghost predicate At(at: nat, k: nat, offset: nat, size: nat)
      reads this
    {
      offset == minimum * at && size == minimum * Pow2(k)
    }

    /** A live block, by byte offset and size. */
    ghost predicate Live(offset: nat, size: nat)
      reads this
    {
      exists at: nat, k: nat :: IsLive(blocks, order, at, k) && At(at, k, offset, size)
    }

    constructor ()
      ensures fresh(tree)
    {
      capacity, minimum, order, blocks := 0, 0, 0, Free;
      tree := new int[0];
    }

    /** ax_buddy_init. */
    method Init(capacity0: nat, minimum0: nat) returns (ok: bool)
      modifies this
      ensures ok <==>
              IsPow2(minimum0) && IsPow2(capacity0) && capacity0 >= minimum0 && capacity0 / minimum0 <= SIZE_MAX / 2
      ensures ok ==> Valid() && capacity == capacity0 && minimum == minimum0 && fresh(tree) && blocks == Free
      ensures ok ==> forall offset, size :: !Live(offset, size)
    {
      if minimum0 == 0 || !IsPow2(minimum0) || capacity0 < minimum0 || !IsPow2(capacity0) {
        return false;
      }
      var leaves := capacity0 / minimum0;
      if leaves > SIZE_MAX / 2 {
        return false;
      }
      ghost var k := PowerRatio(capacity0, minimum0);
      tree := new int[2 * leaves](_ => 0);
      capacity, minimum, blocks := capacity0, minimum0, Free;
      order := Log2(leaves, k);
      tree[1] := order;
      RoomBy(tree.Length, 1, k);
      ok := true;
    }

    /** Rounding a request up to a block size. */
    method Round(bytes: nat) returns (need: nat, size: nat)
      requires Valid() && 0 < bytes <= capacity
      ensures need <= order && size == minimum * Pow2(need) && size >= bytes
      ensures need > 0 ==> minimum * Pow2(need - 1) < bytes
    {
      need, size := 0, minimum;
      assert minimum * Pow2(0) == minimum;
      while size < bytes
        invariant need <= order && size == minimum * Pow2(need)
        invariant need > 0 ==> minimum * Pow2(need - 1) < bytes
        decreases order - need
      {
        assert need == order ==> size == capacity;
        assert minimum * (2 * Pow2(need)) == 2 * (minimum * Pow2(need));
        size := 2 * size;
        need := need + 1;
      }
    }

    /** ax_buddy_alloc: None exactly when no aligned block of the rounded size is
        vacant, and otherwise the lowest one. */
    method Alloc(bytes: nat) returns (offset: Option<nat>, actual: nat, ghost need: nat, ghost at: nat)
      requires Valid()
      modifies tree, this`blocks
      ensures Valid()
      ensures bytes == 0 || bytes > capacity ==> offset == None
      ensures offset.None? ==> tree[..] == old(tree[..]) && blocks == old(blocks)
      ensures 0 < bytes <= capacity ==>
                && need <= order && actual == minimum * Pow2(need) && bytes <= actual
                && (need > 0 ==> minimum * Pow2(need - 1) < bytes)
                && (offset.Some? <==> exists at: int :: Vacant(old(blocks), order, at, need))
                && (offset.Some? ==> Granted(old(blocks), need, at) && offset.value == minimum * at)
    {
      hide Best, Take, TakeAt, BuddyArray.Alloc, Slot, NoneUsed, Vacant, Room, Pow2, Scaled, Normal;
      offset, actual, need, at := None, 0, 0, 0;
      if bytes == 0 || bytes > capacity {
        return;
      }
      var order1;
      order1, actual := Round(bytes);
      need := order1;
      ghost var was, t := tree[..], blocks;
      assert was[1] == Best(t, order) && tree.Length % 2 == 0;
      if tree[1] < order1 {
        forall at: int ensures !Vacant(t, order, at, need) {
          if Vacant(t, order, at, need) {
            VacantBest(t, order, at, need);
          }
        }
        return;
      }
      TakesVacant(t, order, need);
      AllocRep(was, 1, order, need, t);
      var node, found := Search(order1);
      at := TakeAt(t, order, need);
      ScaledIs(minimum, at);
      blocks := Take(t, order, need);
      assert tree[..] == BuddyArray.Alloc(was, 1, order, need);
      offset := Some(found);
      TakeGrants(t, order, need);
    }

    /** The block handed out is the lowest vacant one, and becomes live; nothing
        else changes. */
    ghost predicate Granted(was: Block, need: nat, at: nat)
      reads this
    {
      && Vacant(was, order, at, need) && (forall other: int :: Vacant(was, order, other, need) ==> at <= other)
      && (forall x: int, k: nat :: IsLive(blocks, order, x, k) <==> IsLive(was, order, x, k) || (x == at && k == need))
    }

    /** The two loops of an allocation that can be met. */
    method Search(need: nat) returns (node: nat, offset: nat)
      requires tree.Length % 2 == 0 && Room(tree.Length, 1, order) && Rep(tree[..], 1, order, blocks)
      requires Normal(blocks, order) && Best(blocks, order) >= need
      modifies tree
      ensures tree[..] == BuddyArray.Alloc(old(tree[..]), 1, order, need)
      ensures offset == Scaled(minimum, TakeAt(blocks, order, need))
    {
      hide Rep, Room, Best, Normal, Climb, BuddyArray.Alloc, TakeAt, Child, Halve, Pow2, Scaled;
      ScaledZero(minimum);
      RoomDown(tree.Length, 1, order);
      ghost var goal := BuddyArray.Alloc(tree[..], 1, order, need);
      ghost var t: Block, base: nat := blocks, 0;
      ClimbTop(goal);
      node, offset := 1, 0;
      var k := order;
      while k > need
        invariant need <= k <= order && 1 <= node < tree.Length && Room(tree.Length, node, k)
        invariant Normal(t, k) && Best(t, k) >= need && Rep(tree[..], node, k, t)
        invariant Climb(BuddyArray.Alloc(tree[..], node, k, need), node) == goal
        invariant offset == Scaled(minimum, base) && base + TakeAt(t, k, need) == TakeAt(blocks, order, need)
        decreases k
      {
        ghost var a := tree[..];
        DescendStep(a, node, k, need, t);
        if tree[node] == k {
          tree[2 * node] := k - 1;
          tree[2 * node + 1] := k - 1;
        }
        assert tree[..] == Halve(a, node, k) by { HalveIs(a, node, k, tree[..]); }
        assert Child(tree[..], node, need) == if tree[2 * node] < need then 2 * node + 1
            else 2 * node by { ChildIs(tree[..], node, need); }
        t := Side(t, k, need);
        k := k - 1;
        node := 2 * node;
        if tree[node] < need {
          node := node + 1;
          ScaledSum(minimum, base, Pow2(k));
          offset := offset + Scaled(minimum, Pow2(k));
          base := base + Pow2(k);
        }
      }
      AllocTop(tree[..], node, k);
      TakeTop(t, k);
      RoomDown(tree.Length, node, k);
      ghost var a := tree[..];
      tree[node] := -1;
      assert tree[..] == a[node := -1];
      ClimbUp(node);
    }

    /** The ascending loop of an allocation. */
    method ClimbUp(node0: nat)
      requires 1 <= node0 < tree.Length && tree.Length % 2 == 0
      modifies tree
      ensures tree[..] == Climb(old(tree[..]), node0)
    {
      hide Better;
      var node := node0;
      ghost var goal := Climb(tree[..], node0);
      while node > 1
        invariant 1 <= node < tree.Length && Climb(tree[..], node) == goal
        decreases node
      {
        ghost var a := tree[..];
        node := node / 2;
        tree[node] := if tree[2 * node] > tree[2 * node + 1] then tree[2 * node] else tree[2 * node + 1];
        assert tree[..] == Better(a, node) by { BetterIs(a, node, tree[..]); }
      }
    }

    /** The ascending loop of a release. */
    method JoinUp(node0: nat, k: nat)
      requires 1 <= node0 < tree.Length && tree.Length % 2 == 0
      modifies tree
      ensures tree[..] == Up(old(tree[..]), node0, k, 1)
    {
      hide Rejoin;
      var node: nat, j: nat := node0, k;
      ghost var goal := Up(tree[..], node0, k, 1);
      while node > 1
        invariant 1 <= node < tree.Length && Up(tree[..], node, j, 1) == goal
        decreases node
      {
        ghost var a := tree[..];
        node := node / 2;
        var x, y := tree[2 * node], tree[2 * node + 1];
        tree[node] := if x == j && y == j then j + 1 else if x > y then x else y;
        assert tree[..] == Rejoin(a, node, j) by { RejoinIs(a, node, j, tree[..]); }
        j := j + 1;
      }
    }

    /** ax_buddy_free of a live block of this size. */
    method Release(offset: nat, actual: nat, ghost at: nat, ghost k: nat)
      requires Valid() && IsLive(blocks, order, at, k) && At(at, k, offset, actual)
      modifies tree, this`blocks
      ensures Valid() && blocks == Give(old(blocks), order, at, k)
      ensures forall x: int, j: nat :: IsLive(blocks, order, x, j) <==>
              IsLive(old(blocks), order, x, j) && !(x == at && j == k)
    {
      hide Rep, Room, Up, BuddyArray.Release, Normal, IsLive, Slot, Target, Pow2, Give;
      LiveSlot(blocks, order, at, k);
      ghost var was := tree[..];
      ghost var n := Target(1, order, at, k);
      NodeIndex(minimum, order, at, k);
      var j := Log2(actual / minimum, k);
      var node := (capacity + offset) / actual;
      UpRelease(was, 1, order, at, k);
      ReleaseRep(was, 1, order, at, k, blocks);
      tree[node] := j;
      assert tree[..] == was[n := k];
      JoinUp(node, j);
      forall x: int, i: nat ensures IsLive(Give(blocks, order, at, k), order, x, i) <==>
          IsLive(blocks, order, x, i) && !(x == at && i == k) {
        GiveRemoves(blocks, order, at, k, x, i);
      }
      blocks := Give(blocks, order, at, k);
    }
  }

  lemma {:induction false} TakeGrants(was: Block, order: nat, need: nat)
    requires Normal(was, order) && Best(was, order) >= need
    ensures var at, now := TakeAt(was, order, need), Take(was, order, need);
            && Vacant(was, order, at, need) && (forall other: int :: Vacant(was, order, other, need) ==> at <= other)
            && (forall x: int, k: nat :: IsLive(now, order, x, k) <==>
                IsLive(was, order, x, k) || (x == at && k == need))
  {
    hide Normal, Best, Take, TakeAt, Vacant, IsLive;
    TakesVacant(was, order, need);
    forall other: int | Vacant(was, order, other, need) ensures TakeAt(was, order, need) <= other {
      TakesLowest(was, order, need, other);
    }
    forall x: int, k: nat ensures IsLive(Take(was, order, need), order, x, k) <==>
                                  IsLive(was, order, x, k) || (x == TakeAt(was, order, need) && k == need) {
      TakeAdds(was, order, need, x, k);
    }
  }

  lemma {:induction false} NodeIndex(minimum: nat, order: nat, at: nat, k: nat)
    requires minimum > 0 && k <= order && Slot(order, at, k)
    ensures (minimum * Pow2(k)) / minimum == Pow2(k) && minimum * Pow2(k) > 0
    ensures (minimum * Pow2(order) + minimum * at) / (minimum * Pow2(k)) == Target(1, order, at, k) >= 1
  {
    hide Slot;
    var n, p, q := Target(1, order, at, k), Pow2(k), Pow2(order);
    TargetIndex(1, order, at, k);
    assert n * p == q + at;
    Regroup(n, minimum, p, q, at);
    TimesAtLeast(p, minimum);
    ExactDiv(minimum * p, p, minimum);
    ExactDiv(minimum * q + minimum * at, n, minimum * p);
  }

  lemma Regroup(n: nat, m: nat, p: nat, q: nat, at: nat)
    requires n * p == q + at
    ensures m * q + m * at == n * (m * p)
  {
    assert m * q + m * at == m * (q + at) == m * (n * p) == n * (m * p);
  }

  lemma SubTimes(q: nat, h: nat, p: nat)
    requires q >= h
    ensures (q - h) * p == q * p - h * p
  {
    assert q * p == ((q - h) + h) * p == (q - h) * p + h * p;
  }

  /** A shift: m units of x. */
  function Scaled(m: nat, x: nat): (r: nat) {
    m * x
  }

  /** Slots are exactly the aligned positions: the multiples of the block's size. */
  lemma {:induction false} AlignedSlot(k: nat, q: nat, order: nat)
    requires order <= k && q < Pow2(k - order)
    ensures Slot(k, q * Pow2(order), order)
    decreases k
  {
    if order < k {
      var p, h := Pow2(order), Pow2(k - 1 - order);
      PowerSum(k - 1 - order, order);
      assert h * p == Pow2(k - 1);
      if q < h {
        AlignedSlot(k - 1, q, order);
      } else {
        AlignedSlot(k - 1, q - h, order);
        SubTimes(q, h, p);
      }
    }
  }

  lemma {:induction false} SlotAligned(k: nat, at: int, order: nat) returns (q: nat)
    requires Slot(k, at, order)
    ensures order <= k && q < Pow2(k - order) && at == q * Pow2(order)
    decreases k
  {
    SlotBounds(k, at, order);
    if order == k {
      q := 0;
    } else {
      var p, h := Pow2(order), Pow2(k - 1 - order);
      PowerSum(k - 1 - order, order);
      SlotSide(k, at, order);
      if at < Pow2(k - 1) {
        q := SlotAligned(k - 1, at, order);
      } else {
        q := SlotAligned(k - 1, at - Pow2(k - 1), order);
        assert (q + h) * p == q * p + h * p;
        q := q + h;
      }
    }
  }

  lemma ScaledZero(m: nat)
    ensures Scaled(m, 0) == 0
  {
  }

  lemma ScaledSum(m: nat, a: nat, b: nat)
    ensures Scaled(m, a + b) == Scaled(m, a) + Scaled(m, b)
  {
    assert m * (a + b) == m * a + m * b;
  }

  lemma ScaledIs(m: nat, x: nat)
    ensures Scaled(m, x) == m * x
  {
  }

  /** Which half the search continues in. */
  ghost function Side(t: Block, k: nat, need: nat): (r: Block)
    requires k > 0
  {
    if !t.Split? then Free else if Best(t.left, k - 1) >= need then t.left else t.right
  }

  /** One step of the descending loop. */
  lemma {:induction false} DescendStep(a: seq<int>, node: nat, k: nat, need: nat, t: Block)
    requires node >= 1 && Room(|a|, node, k) && need < k && Normal(t, k) && Best(t, k) >= need && Rep(a, node, k, t)
    ensures 2 * node + 1 < |a|
    ensures var b := Halve(a, node, k);
            var c, s := Child(b, node, need), Side(t, k, need);
            && |b| == |a| && Room(|b|, c, k - 1) && Normal(s, k - 1) && Best(s, k - 1) >= need && Rep(b, c, k - 1, s)
            && Climb(BuddyArray.Alloc(b, c, k - 1, need), c) == Climb(BuddyArray.Alloc(a, node, k, need), node)
            && TakeAt(t, k, need) == TakeAt(s, k - 1, need) + if c == 2 * node then 0 else Pow2(k - 1)
  {
    hide Climb, BuddyArray.Alloc, Best, Normal, TakeAt;
    RoomDown(|a|, node, k);
    TakeSteps(t, k, need);
    HalveRep(a, node, k, t);
    Descend(a, node, k, need);
  }

  lemma ClimbTop(a: seq<int>)
    ensures |a| > 1 ==> Climb(a, 1) == a
  {
  }

  lemma AllocTop(a: seq<int>, node: nat, k: nat)
    requires Room(|a|, node, k)
    ensures BuddyArray.Alloc(a, node, k, k) == a[node := -1]
  {
  }

  lemma HalveIs(a: seq<int>, node: nat, k: nat, b: seq<int>)
    requires node >= 1 && 2 * node + 1 < |a| && k > 0
    requires b == if a[node] == k then a[2 * node := k - 1][2 * node + 1 := k - 1] else a
    ensures b == Halve(a, node, k)
  {
  }

  lemma ChildIs(a: seq<int>, node: nat, need: nat)
    requires 2 * node + 1 < |a|
    ensures Child(a, node, need) == if a[2 * node] < need then 2 * node + 1 else 2 * node
  {
  }

  lemma BetterIs(a: seq<int>, node: nat, b: seq<int>)
    requires node < |a| && 2 * node + 1 < |a| && b == a[node := Max(a[2 * node], a[2 * node + 1])]
    ensures b == Better(a, node)
  {
  }

  lemma RejoinIs(a: seq<int>, node: nat, k: nat, b: seq<int>)
    requires 2 * node + 1 < |a| && b == a[node := Joined(a[2 * node], a[2 * node + 1], k)]
    ensures b == Rejoin(a, node, k)
  {
  }
}
