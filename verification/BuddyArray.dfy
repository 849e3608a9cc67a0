/**
  The buddy tree in one array (pkg/axsys/src/buddy.c:6-83): node n has children
  2n and 2n+1, and an entry holds the order of the largest free block below it.
  The descending and ascending loops are proved against the block tree.
 */
module BuddyArray {
  import opened Basics
  import opened Buddy

  /** The array entries that count under `node` say `t`; entries below a whole
      block are stale and say nothing. */
  ghost predicate Rep(a: seq<int>, node: nat, k: nat, t: Block)
    decreases t
  {
    && node < |a| && a[node] == Best(t, k)
    && (t.Split? ==> k > 0 && Rep(a, 2 * node, k - 1, t.left) && Rep(a, 2 * node + 1, k - 1, t.right))
  }

  /** All of a block's subtree is inside the array. */
  ghost predicate Room(n: nat, node: nat, k: nat)
    decreases k
  {
    1 <= node < n && (k > 0 ==> 2 * node + 1 < n && Room(n, 2 * node, k - 1) && Room(n, 2 * node + 1, k - 1))
  }

  lemma {:induction false} RoomBy(n: nat, node: nat, k: nat)
    requires node >= 1 && (node + 1) * Pow2(k) <= n
    ensures Room(n, node, k)
    decreases k
  {
    Scale(node + 1, k);
    if k > 0 {
      var h := Pow2(k - 1);
      assert (node + 1) * Pow2(k) == (2 * node + 2) * h;
      assert (2 * node + 1) * h <= (2 * node + 2) * h;
      RoomBy(n, 2 * node, k - 1);
      RoomBy(n, 2 * node + 1, k - 1);
    }
  }

  lemma Scale(x: nat, k: nat)
    ensures x <= x * Pow2(k)
  {
  }

  /** x is `node` or below it. */
  predicate Under(node: nat, x: nat)
    decreases x
  {
    x == node || (x > node && Under(node, x / 2))
  }

  lemma {:induction false} Siblings(n: nat, x: nat)
    requires n >= 1
    ensures !(Under(2 * n, x) && Under(2 * n + 1, x))
            && (Under(2 * n, x) || Under(2 * n + 1, x) ==> Under(n, x) && x != n)
    decreases x
  {
    if x > 2 * n + 1 {
      Siblings(n, x / 2);
    }
  }

  ghost predicate SameUnder(a: seq<int>, b: seq<int>, node: nat) {
    |a| == |b| && forall x :: 0 <= x < |a| && Under(node, x) ==> a[x] == b[x]
  }

  ghost predicate SameBeside(a: seq<int>, b: seq<int>, node: nat) {
    |a| == |b| && forall x :: 0 <= x < |a| && !Under(node, x) ==> a[x] == b[x]
  }

  lemma {:induction false} RepFrame(a: seq<int>, b: seq<int>, node: nat, k: nat, t: Block)
    requires node >= 1 && Rep(a, node, k, t) && SameUnder(a, b, node)
    ensures Rep(b, node, k, t)
    decreases t
  {
    if t.Split? {
      SameChildren(a, b, node);
      RepFrame(a, b, 2 * node, k - 1, t.left);
      RepFrame(a, b, 2 * node + 1, k - 1, t.right);
    }
  }

  lemma {:induction false} SameChildren(a: seq<int>, b: seq<int>, node: nat)
    requires node >= 1 && SameUnder(a, b, node)
    ensures SameUnder(a, b, 2 * node) && SameUnder(a, b, 2 * node + 1)
  {
    forall x | 0 <= x < |a| && (Under(2 * node, x) || Under(2 * node + 1, x)) ensures a[x] == b[x] {
      Siblings(node, x);
    }
  }

  /** A change beside one child, and at the parent, is not seen from that child. */
  lemma {:induction false} OtherChild(a: seq<int>, b: seq<int>, node: nat, k: nat, t: Block, left: bool, v: int)
    requires node >= 1 && node < |a| && SameBeside(a, b, if left then 2 * node else 2 * node + 1)
    requires Rep(a, if left then 2 * node + 1 else 2 * node, k, t)
    ensures Rep(b[node := v], if left then 2 * node + 1 else 2 * node, k, t)
  {
    var other := if left then 2 * node + 1 else 2 * node;
    forall x | 0 <= x < |a| && Under(other, x) ensures a[x] == b[node := v][x] {
      Siblings(node, x);
    }
    RepFrame(a, b[node := v], other, k, t);
  }

  lemma {:induction false} SameChild(b: seq<int>, node: nat, k: nat, t: Block, child: nat, v: int)
    requires node >= 1 && node < |b| && (child == 2 * node || child == 2 * node + 1) && Rep(b, child, k, t)
    ensures Rep(b[node := v], child, k, t)
  {
    forall x | 0 <= x < |b| && Under(child, x) ensures b[x] == b[node := v][x] {
      Siblings(node, x);
    }
    RepFrame(b, b[node := v], child, k, t);
  }

  // ---------------------------------------------------------------------- allocation

  /** Splitting a block that is free as a whole writes its halves. */
  function Halve(a: seq<int>, node: nat, k: nat): (r: seq<int>)
    requires 2 * node + 1 < |a| && k > 0
  {
    if a[node] == k then a[2 * node := k - 1][2 * node + 1 := k - 1] else a
  }

  function Child(a: seq<int>, node: nat, need: nat): (r: nat)
    requires 2 * node + 1 < |a|
    ensures r == 2 * node || r == 2 * node + 1
  {
    if a[2 * node] < need then 2 * node + 1 else 2 * node
  }

  function Better(a: seq<int>, node: nat): (r: seq<int>)
    requires 2 * node + 1 < |a|
    ensures |r| == |a|
  {
    a[node := Max(a[2 * node], a[2 * node + 1])]
  }

  /** What allocation below `node` leaves in the array. */
  ghost function Alloc(a: seq<int>, node: nat, k: nat, need: nat): (r: seq<int>)
    requires Room(|a|, node, k) && need <= k
    ensures |r| == |a|
    decreases k
  {
    if k == need then a[node := -1]
    else
      var a1 := Halve(a, node, k);
      Better(Alloc(a1, Child(a1, node, need), k - 1, need), node)
  }

  lemma {:induction false} AllocBeside(a: seq<int>, node: nat, k: nat, need: nat)
    requires Room(|a|, node, k) && need <= k
    ensures SameBeside(a, Alloc(a, node, k, need), node)
    decreases k
  {
    if need < k {
      var a1 := Halve(a, node, k);
      var c := Child(a1, node, need);
      AllocBeside(a1, c, k - 1, need);
      var a2 := Alloc(a1, c, k - 1, need);
      forall x | 0 <= x < |a| && !Under(node, x) ensures a[x] == Better(a2, node)[x] {
        Siblings(node, x);
        assert Under(2 * node, 2 * node) && Under(2 * node + 1, 2 * node + 1);
        Siblings(node, 2 * node);
        Siblings(node, 2 * node + 1);
        assert a1[x] == a[x] && a2[x] == a1[x];
      }
    }
  }

  lemma {:induction false} HalveRep(a: seq<int>, node: nat, k: nat, t: Block)
    requires Room(|a|, node, k) && k > 0 && Rep(a, node, k, t) && Normal(t, k) && !t.Taken?
    ensures var b, l, r := Halve(a, node, k), if t.Free? then Free else t.left, if t.Free? then Free else t.right;
            Rep(b, 2 * node, k - 1, l) && Rep(b, 2 * node + 1, k - 1, r)
  {
  }

  lemma {:induction false} AllocRep(a: seq<int>, node: nat, k: nat, need: nat, t: Block)
    requires Room(|a|, node, k) && Rep(a, node, k, t) && Normal(t, k) && Best(t, k) >= need
    ensures Rep(Alloc(a, node, k, need), node, k, Take(t, k, need))
    decreases k
  {
    hide Best, Take, TakeAt, Normal, Under, Room, Rep, Alloc, Halve;
    RoomDown(|a|, node, k);
    assert node < |a| && a[node] == Best(t, k) by { RepTop(a, node, k, t); }
    AllocStep(a, node, k, need);
    if k == need {
      RepTaken(a, node, k);
      assert Alloc(a, node, k, need)[node] == -1 && Take(t, k, need) == Taken
          && Best(Taken, k) == -1 by { TakeTop(t, k); BestTaken(k); }
    } else {
      TakeSteps(t, k, need);
      HalveRep(a, node, k, t);
      var b, l, r := Halve(a, node, k), if t.Free? then Free else t.left, if t.Free? then Free else t.right;
      var left := Best(l, k - 1) >= need;
      var c := if left then 2 * node else 2 * node + 1;
      RepTop(b, 2 * node, k - 1, l);
      assert c == Child(b, node, need);
      AllocRep(b, c, k - 1, need, if left then l else r);
      AllocBeside(b, c, k - 1, need);
      var b2 := Alloc(b, c, k - 1, need);
      var v := Max(b2[2 * node], b2[2 * node + 1]);
      OtherChild(b, b2, node, k - 1, if left then r else l, left, v);
      SameChild(b2, node, k - 1, Take(if left then l else r, k - 1, need), c, v);
      BestSplit(Take(t, k, need), k);
      var l1, r1 := if left then Take(l, k - 1, need) else l, if left then r else Take(r, k - 1, need);
      RepTop(b2[node := v], 2 * node, k - 1, l1);
      RepTop(b2[node := v], 2 * node + 1, k - 1, r1);
      RepSplit(b2[node := v], node, k, l1, r1);
    }
  }

  lemma RepTop(a: seq<int>, node: nat, k: nat, t: Block)
    requires Rep(a, node, k, t)
    ensures node < |a| && a[node] == Best(t, k)
  {
  }

  lemma RepTaken(a: seq<int>, node: nat, k: nat)
    requires node < |a|
    ensures Rep(a[node := -1], node, k, Taken)
  {
  }

  lemma RepSplit(a: seq<int>, node: nat, k: nat, l: Block, r: Block)
    requires k > 0 && node < |a| && Rep(a, 2 * node, k - 1, l) && Rep(a, 2 * node + 1, k - 1, r)
    requires a[node] == Max(Best(l, k - 1), Best(r, k - 1))
    ensures Rep(a, node, k, Split(l, r))
  {
  }

  lemma AllocStep(a: seq<int>, node: nat, k: nat, need: nat)
    requires Room(|a|, node, k) && need <= k
    ensures k == need ==> Alloc(a, node, k, need) == a[node := -1]
    ensures k > need ==> 2 * node + 1 < |a| && var b := Halve(a, node, k);
                         var c := Child(b, node, need);
                         |b| == |a| && Room(|b|, c, k - 1)
                             && Alloc(a, node, k, need) == Better(Alloc(b, c, k - 1, need), node)
  {
  }

  lemma RoomDown(n: nat, node: nat, k: nat)
    requires Room(n, node, k)
    ensures 1 <= node < n && (k > 0 ==> 2 * node + 1 < n && Room(n, 2 * node, k - 1) && Room(n, 2 * node + 1, k - 1))
  {
  }

  lemma BestTaken(k: nat)
    ensures Best(Taken, k) == -1
  {
  }

  lemma BestSplit(t: Block, k: nat)
    requires t.Split? && k > 0
    ensures Best(t, k) == Max(Best(t.left, k - 1), Best(t.right, k - 1))
  {
  }

  /** The ascending loop after an allocation. */
  ghost function Climb(a: seq<int>, node: nat): (r: seq<int>)
    requires node < |a|
    ensures |r| == |a|
    decreases node
  {
    if node <= 1 then a
    else if 2 * (node / 2) + 1 < |a| then Climb(Better(a, node / 2), node / 2)
    else a
  }

  /** One step down: finish below the child, then climb from there. */
  lemma {:induction false} Descend(a: seq<int>, node: nat, k: nat, need: nat)
    requires Room(|a|, node, k) && need < k
    ensures var b := Halve(a, node, k);
            var c := Child(b, node, need);
            Climb(Alloc(a, node, k, need), node) == Climb(Alloc(b, c, k - 1, need), c)
  {
    var b := Halve(a, node, k);
    var c := Child(b, node, need);
    assert c / 2 == node && c > 1;
  }

  // ----------------------------------------------------------------------- release

  function Joined(x: int, y: int, k: nat): (r: int) {
    if x == k && y == k then k + 1 else Max(x, y)
  }

  function Rejoin(a: seq<int>, node: nat, k: nat): (r: seq<int>)
    requires 2 * node + 1 < |a|
    ensures |r| == |a|
  {
    a[node := Joined(a[2 * node], a[2 * node + 1], k)]
  }

  /** What release of the block at `at` leaves in the array. */
  ghost function Release(a: seq<int>, node: nat, k: nat, at: int, order: nat): (r: seq<int>)
    requires Room(|a|, node, k) && order <= k
    ensures |r| == |a|
    decreases k
  {
    if k == order then a[node := order]
    else if at < Pow2(k - 1) then Rejoin(Release(a, 2 * node, k - 1, at, order), node, k - 1)
    else Rejoin(Release(a, 2 * node + 1, k - 1, at - Pow2(k - 1), order), node, k - 1)
  }

  lemma {:induction false} ReleaseBeside(a: seq<int>, node: nat, k: nat, at: int, order: nat)
    requires Room(|a|, node, k) && order <= k
    ensures SameBeside(a, Release(a, node, k, at, order), node)
    decreases k
  {
    if order < k {
      var left := at < Pow2(k - 1);
      var c, at1 := if left then 2 * node else 2 * node + 1, if left then at else at - Pow2(k - 1);
      ReleaseBeside(a, c, k - 1, at1, order);
      forall x | 0 <= x < |a| && !Under(node, x) ensures a[x] == Release(a, node, k, at, order)[x] {
        Siblings(node, x);
      }
    }
  }

  lemma {:induction false} ReleaseRep(a: seq<int>, node: nat, k: nat, at: int, order: nat, t: Block)
    requires Room(|a|, node, k) && Rep(a, node, k, t) && Normal(t, k) && IsLive(t, k, at, order) && order <= k
    ensures Rep(Release(a, node, k, at, order), node, k, Give(t, k, at, order))
    decreases k
  {
    hide Under, Best, Room;
    RoomDown(|a|, node, k);
    if t.Taken? {
      BestFree(k);
    } else {
      var left := IsLive(t.left, k - 1, at, order);
      if left {
        LiveSlot(t.left, k - 1, at, order);
      } else {
        LiveSlot(t.right, k - 1, at - Pow2(k - 1), order);
      }
      var c, at1 := if left then 2 * node else 2 * node + 1, if left then at else at - Pow2(k - 1);
      var sub, other := if left then t.left else t.right, if left then t.right else t.left;
      ReleaseRep(a, c, k - 1, at1, order, sub);
      ReleaseBeside(a, c, k - 1, at1, order);
      var b := Release(a, c, k - 1, at1, order);
      var v := Joined(b[2 * node], b[2 * node + 1], k - 1);
      OtherChild(a, b, node, k - 1, other, left, v);
      SameChild(b, node, k - 1, Give(sub, k - 1, at1, order), c, v);
      var l, r := if left then Give(sub, k - 1, at1, order) else t.left, if left then t.right
          else Give(sub, k - 1, at1, order);
      MergeBest(l, r, k);
    }
  }

  lemma BestFree(k: nat)
    ensures Best(Free, k) == k
  {
  }

  /** Merging in the array is merging in the tree. */
  lemma MergeBest(l: Block, r: Block, k: nat)
    requires k > 0 && Normal(l, k - 1) && Normal(r, k - 1)
    ensures Joined(Best(l, k - 1), Best(r, k - 1), k - 1) == Best(Merge(l, r), k)
  {
  }

  /** The node of the block of order `order` at `at`. */
  function Target(node: nat, k: nat, at: int, order: nat): (r: nat)
    requires order <= k
    ensures r >= node
    decreases k
  {
    if k == order then node
    else if at < Pow2(k - 1) then Target(2 * node, k - 1, at, order)
    else Target(2 * node + 1, k - 1, at - Pow2(k - 1), order)
  }

  /** The ascending loop after a release, up to `top`. */
  ghost function Up(a: seq<int>, n: nat, k: nat, top: nat): (r: seq<int>)
    ensures |r| == |a|
    decreases n
  {
    if n <= top || n == 0 then a
    else if 2 * (n / 2) + 1 < |a| then Up(Rejoin(a, n / 2, k), n / 2, k + 1, top)
    else a
  }

  /** Climbing to `top` passes through every node above the target. */
  lemma {:induction false} UpThrough(a: seq<int>, c: nat, k: nat, at: int, order: nat, top: nat)
    requires order <= k && Room(|a|, c, k) && top < c
    ensures var n := Target(c, k, at, order); Up(a, n, order, top) == Up(Up(a, n, order, c), c, k, top)
    decreases k
  {
    hide Room, Up, Rejoin, Pow2;
    RoomDown(|a|, c, k);
    var n := Target(c, k, at, order);
    UpHere(a, c, order);
    if order < k {
      var left := at < Pow2(k - 1);
      var d, at1 := if left then 2 * c else 2 * c + 1, if left then at else at - Pow2(k - 1);
      UpThrough(a, d, k - 1, at1, order, top);
      UpThrough(a, d, k - 1, at1, order, c);
      var b := Up(a, n, order, d);
      assert d / 2 == c;
      UpStep(b, d, k - 1, top);
      UpStep(b, d, k - 1, c);
      UpHere(Rejoin(b, c, k - 1), c, k);
    }
  }

  lemma UpHere(a: seq<int>, c: nat, k: nat)
    ensures Up(a, c, k, c) == a
  {
  }

  lemma UpStep(a: seq<int>, n: nat, k: nat, top: nat)
    requires n > top && 2 * (n / 2) + 1 < |a|
    ensures Up(a, n, k, top) == Up(Rejoin(a, n / 2, k), n / 2, k + 1, top)
  {
    hide Rejoin;
  }

  lemma {:induction false} UpRelease(a: seq<int>, node: nat, k: nat, at: int, order: nat)
    requires Room(|a|, node, k) && order <= k
    ensures var n := Target(node, k, at, order);
            n < |a| && Up(a[n := order], n, order, node) == Release(a, node, k, at, order)
    decreases k
  {
    var n := Target(node, k, at, order);
    if order < k {
      var left := at < Pow2(k - 1);
      var d, at1 := if left then 2 * node else 2 * node + 1, if left then at else at - Pow2(k - 1);
      UpRelease(a, d, k - 1, at1, order);
      UpThrough(a[n := order], d, k - 1, at1, order, node);
      assert d / 2 == node;
    }
  }

  /** The node is the block's index counted from the leaves' offset. */
  lemma {:induction false} TargetIndex(node: nat, k: nat, at: int, order: nat)
    requires Slot(k, at, order) && order <= k
    ensures Target(node, k, at, order) * Pow2(order) == node * Pow2(k) + at
    decreases k
  {
    hide Slot;
    if order < k {
      var h := Pow2(k - 1);
      DoubleTimes(node, k);
      SlotSide(k, at, order);
      if at < h {
        TargetIndex(2 * node, k - 1, at, order);
      } else {
        TargetIndex(2 * node + 1, k - 1, at - h, order);
      }
    } else {
      SlotBounds(k, at, order);
    }
  }

  lemma DoubleTimes(node: nat, k: nat)
    requires k > 0
    ensures node * Pow2(k) == (2 * node) * Pow2(k - 1) && (2 * node + 1) * Pow2(k - 1) == node * Pow2(k) + Pow2(k - 1)
  {
    var h := Pow2(k - 1);
    assert node * (2 * h) == (2 * node) * h;
  }

  lemma SlotSide(k: nat, at: int, order: nat)
    requires order < k && Slot(k, at, order)
    ensures if at < Pow2(k - 1) then Slot(k - 1, at, order) else Slot(k - 1, at - Pow2(k - 1), order)
  {
    if Slot(k - 1, at, order) {
      SlotBounds(k - 1, at, order);
    } else {
      SlotBounds(k - 1, at - Pow2(k - 1), order);
    }
  }
}
