/**
  The buddy allocator's tree (pkg/axsys/src/buddy.c:30-83), counted in minimum
  blocks: what the tree array means, what allocation and release do to that
  meaning, and why the meaning is determined by the live blocks alone.
 */
module Buddy {
  import opened Basics

  /** A block of 2^k units: free as a whole, taken as a whole, or split. */
  datatype Block = Free | Taken | Split(left: Block, right: Block)

  function Max(a: int, b: int): (r: int) {
    if a > b then a else b
  }

  /** The order of the largest free block inside, or -1. */
  function Best(t: Block, k: nat): (r: int)
    ensures -1 <= r <= k && (t.Split? && k > 0 ==> r < k)
    decreases t
  {
    match t
    case Free => k
    case Taken => -1
    case Split(l, r) => if k == 0 then -1 else Max(Best(l, k - 1), Best(r, k - 1))
  }

  /** Splits are above order zero and free buddies are always merged. */
  predicate Normal(t: Block, k: nat)
    decreases t
  {
    t.Split? ==> k > 0 && !(t.left.Free? && t.right.Free?) && Normal(t.left, k - 1) && Normal(t.right, k - 1)
  }

  /** Whether unit u is inside a taken block. */
  predicate Used(t: Block, k: nat, u: int)
    decreases t
  {
    match t
    case Free => false
    case Taken => 0 <= u < Pow2(k)
    case Split(l, r) => k > 0 && (Used(l, k - 1, u) || Used(r, k - 1, u - Pow2(k - 1)))
  }

  /** A live block: where it starts and its order. */
  datatype Lease = Lease(at: nat, order: nat)

  predicate IsLive(t: Block, k: nat, at: int, order: nat)
    decreases t
  {
    match t
    case Free => false
    case Taken => at == 0 && order == k
    case Split(l, r) => k > 0 && (IsLive(l, k - 1, at, order) || IsLive(r, k - 1, at - Pow2(k - 1), order))
  }

  // -------------------------------------------------------------- blocks and units

  lemma {:induction false} UsedBounds(t: Block, k: nat, u: int)
    requires Used(t, k, u)
    ensures 0 <= u < Pow2(k)
    decreases t
  {
    if t.Split? {
      if Used(t.left, k - 1, u) {
        UsedBounds(t.left, k - 1, u);
      } else {
        UsedBounds(t.right, k - 1, u - Pow2(k - 1));
      }
    }
  }

  /** The positions of a block of order `order` inside one of order k. */
  predicate Slot(k: nat, at: int, order: nat)
    decreases k
  {
    if order >= k then order == k && at == 0
    else Slot(k - 1, at, order) || Slot(k - 1, at - Pow2(k - 1), order)
  }

  lemma {:induction false} SlotBounds(k: nat, at: int, order: nat)
    requires Slot(k, at, order)
    ensures order <= k && 0 <= at && at + Pow2(order) <= Pow2(k)
    decreases k
  {
    if order < k {
      if Slot(k - 1, at, order) {
        SlotBounds(k - 1, at, order);
      } else {
        SlotBounds(k - 1, at - Pow2(k - 1), order);
      }
    }
  }

  /** Live blocks are aligned to their size and in bounds. */
  lemma {:induction false} LiveSlot(t: Block, k: nat, at: int, order: nat)
    requires IsLive(t, k, at, order)
    ensures Slot(k, at, order) && order <= k && 0 <= at && at + Pow2(order) <= Pow2(k)
    decreases t
  {
    if t.Split? {
      if IsLive(t.left, k - 1, at, order) {
        LiveSlot(t.left, k - 1, at, order);
      } else {
        LiveSlot(t.right, k - 1, at - Pow2(k - 1), order);
      }
    }
  }

  ghost predicate CoveredBy(t: Block, k: nat, u: int) {
    exists at: int, order: nat :: IsLive(t, k, at, order) && at <= u < at + Pow2(order)
  }

  /** A unit is used exactly when a live block covers it. */
  lemma {:induction false} UsedIsLive(t: Block, k: nat, u: int)
    ensures Used(t, k, u) <==> CoveredBy(t, k, u)
    decreases t
  {
    if t.Taken? {
      if 0 <= u < Pow2(k) {
        assert IsLive(t, k, 0, k);
      }
    } else if t.Split? && k > 0 {
      var h := Pow2(k - 1);
      UsedIsLive(t.left, k - 1, u);
      UsedIsLive(t.right, k - 1, u - h);
      if CoveredBy(t.left, k - 1, u) {
        var at: int, order: nat :| IsLive(t.left, k - 1, at, order) && at <= u < at + Pow2(order);
        assert IsLive(t, k, at, order);
      }
      if CoveredBy(t.right, k - 1, u - h) {
        var at: int, order: nat :| IsLive(t.right, k - 1, at, order) && at <= u - h < at + Pow2(order);
        assert IsLive(t, k, at + h, order);
      }
      if CoveredBy(t, k, u) {
        var at: int, order: nat :| IsLive(t, k, at, order) && at <= u < at + Pow2(order);
        if IsLive(t.left, k - 1, at, order) {
          assert CoveredBy(t.left, k - 1, u);
        } else {
          assert IsLive(t.right, k - 1, at - h, order);
          assert CoveredBy(t.right, k - 1, u - h);
        }
      }
    }
  }

  /** Two live blocks that share a unit are one. */
  lemma {:induction false} LiveDisjoint(t: Block, k: nat, a: int, i: nat, b: int, j: nat, u: int)
    requires IsLive(t, k, a, i) && IsLive(t, k, b, j) && a <= u < a + Pow2(i) && b <= u < b + Pow2(j)
    ensures a == b && i == j
    decreases t
  {
    if t.Split? {
      var h := Pow2(k - 1);
      var al, bl := IsLive(t.left, k - 1, a, i), IsLive(t.left, k - 1, b, j);
      if al {
        LiveSlot(t.left, k - 1, a, i);
      } else {
        LiveSlot(t.right, k - 1, a - h, i);
      }
      if bl {
        LiveSlot(t.left, k - 1, b, j);
      } else {
        LiveSlot(t.right, k - 1, b - h, j);
      }
      if al {
        LiveDisjoint(t.left, k - 1, a, i, b, j, u);
      } else {
        LiveDisjoint(t.right, k - 1, a - h, i, b - h, j, u - h);
      }
    }
  }

  ghost predicate LiveIn(t: Block, s: Block, k: nat) {
    forall at: int, order: nat :: IsLive(t, k, at, order) ==> IsLive(s, k, at, order)
  }

  /** The live blocks determine the tree: coalescing is always maximal. */
  lemma {:induction false} LiveDetermines(t: Block, s: Block, k: nat)
    requires Normal(t, k) && Normal(s, k) && LiveIn(t, s, k) && LiveIn(s, t, k)
    ensures t == s
    decreases t
  {
    if t.Taken? {
      assert IsLive(t, k, 0, k);
      TakenOnly(s, k);
    } else if s.Taken? {
      assert IsLive(s, k, 0, k);
      TakenOnly(t, k);
    } else {
      NotFree(t, s, k);
      NotFree(s, t, k);
      if t.Split? {
        HalfIn(t, s, k);
        HalfIn(s, t, k);
        LiveDetermines(t.left, s.left, k - 1);
        LiveDetermines(t.right, s.right, k - 1);
      }
    }
  }

  lemma {:induction false} NotFree(t: Block, s: Block, k: nat)
    requires Normal(t, k) && LiveIn(t, s, k)
    ensures !t.Free? ==> !s.Free?
  {
    if !t.Free? {
      var at, order := SomeLive(t, k);
      assert IsLive(s, k, at, order);
    }
  }

  lemma {:induction false} TakenOnly(s: Block, k: nat)
    requires IsLive(s, k, 0, k)
    ensures s.Taken?
  {
    if s.Split? {
      if IsLive(s.left, k - 1, 0, k) {
        LiveSlot(s.left, k - 1, 0, k);
      } else {
        LiveSlot(s.right, k - 1, 0 - Pow2(k - 1), k);
      }
    }
  }

  lemma {:induction false} HalfIn(t: Block, s: Block, k: nat)
    requires t.Split? && s.Split? && k > 0 && LiveIn(t, s, k)
    ensures LiveIn(t.left, s.left, k - 1) && LiveIn(t.right, s.right, k - 1)
  {
    var j, h := k - 1, Pow2(k - 1);
    forall at: int, order: nat | IsLive(t.left, j, at, order) ensures IsLive(s.left, j, at, order) {
      LiveSlot(t.left, j, at, order);
      assert IsLive(t, k, at, order);
      if IsLive(s.right, j, at - h, order) {
        LiveSlot(s.right, j, at - h, order);
      }
    }
    forall at: int, order: nat | IsLive(t.right, j, at, order) ensures IsLive(s.right, j, at, order) {
      LiveSlot(t.right, j, at, order);
      assert IsLive(t, k, at + h, order);
      if IsLive(s.left, j, at + h, order) {
        LiveSlot(s.left, j, at + h, order);
      }
    }
  }

  /** A normal tree that is not free as a whole has a live block. */
  lemma {:induction false} SomeLive(t: Block, k: nat) returns (at: int, order: nat)
    requires Normal(t, k) && !t.Free?
    ensures IsLive(t, k, at, order)
    decreases t
  {
    if t.Taken? {
      at, order := 0, k;
    } else if !t.left.Free? {
      at, order := SomeLive(t.left, k - 1);
    } else {
      at, order := SomeLive(t.right, k - 1);
      at := at + Pow2(k - 1);
    }
  }

  // -------------------------------------------------------------- taking and giving back

  /** Take the leftmost free block of order `need`. */
  function Take(t: Block, k: nat, need: nat): (r: Block)
    requires Best(t, k) >= need && Normal(t, k)
    ensures Normal(r, k) && !r.Free?
    decreases k
  {
    if k == need then Taken
    else if t.Free? then Split(Take(Free, k - 1, need), Free)
    else if Best(t.left, k - 1) >= need then Split(Take(t.left, k - 1, need), t.right)
    else Split(t.left, Take(t.right, k - 1, need))
  }

  function TakeAt(t: Block, k: nat, need: nat): (r: nat)
    requires Best(t, k) >= need && Normal(t, k)
    decreases k
  {
    if k == need then 0
    else if t.Free? then TakeAt(Free, k - 1, need)
    else if Best(t.left, k - 1) >= need then TakeAt(t.left, k - 1, need)
    else Pow2(k - 1) + TakeAt(t.right, k - 1, need)
  }

  function Merge(l: Block, r: Block): (t: Block) {
    if l.Free? && r.Free? then Free else Split(l, r)
  }

  /** Give back the live block at `at`. */
  function Give(t: Block, k: nat, at: int, order: nat): (r: Block)
    requires Normal(t, k) && IsLive(t, k, at, order)
    ensures Normal(r, k)
    decreases k
  {
    if t.Taken? then Free
    else if IsLive(t.left, k - 1, at, order) then Merge(Give(t.left, k - 1, at, order), t.right)
    else Merge(t.left, Give(t.right, k - 1, at - Pow2(k - 1), order))
  }

  ghost predicate NoneUsed(t: Block, k: nat, lo: int, hi: int) {
    forall u :: lo <= u < hi ==> !Used(t, k, u)
  }

  /** A whole aligned block none of whose units is used. */
  ghost predicate Vacant(t: Block, k: nat, at: int, order: nat) {
    Slot(k, at, order) && NoneUsed(t, k, at, at + Pow2(order))
  }

  /** A vacant block below the top lies in one half, and is vacant there. */
  lemma {:induction false} VacantHalf(t: Block, k: nat, at: int, order: nat)
    requires t.Split? && k > 0 && order < k
    ensures Vacant(t, k, at, order) <==>
            Vacant(t.left, k - 1, at, order) || Vacant(t.right, k - 1, at - Pow2(k - 1), order)
  {
    var j, h := k - 1, Pow2(k - 1);
    if Slot(j, at, order) {
      SlotBounds(j, at, order);
      forall u | at <= u < at + Pow2(order) ensures Used(t, k, u) <==> Used(t.left, j, u) {
        if Used(t.right, j, u - h) {
          UsedBounds(t.right, j, u - h);
        }
      }
      assert NoneUsed(t, k, at, at + Pow2(order)) <==> NoneUsed(t.left, j, at, at + Pow2(order));
    }
    if Slot(j, at - h, order) {
      SlotBounds(j, at - h, order);
      forall u | at <= u < at + Pow2(order) ensures Used(t, k, u) <==> Used(t.right, j, u - h) {
        if Used(t.left, j, u) {
          UsedBounds(t.left, j, u);
        }
      }
      Shifted(t, k, at, at + Pow2(order));
    }
  }

  lemma {:induction false} Shifted(t: Block, k: nat, lo: int, hi: int)
    requires t.Split? && k > 0
    requires forall u :: lo <= u < hi ==> (Used(t, k, u) <==> Used(t.right, k - 1, u - Pow2(k - 1)))
    ensures NoneUsed(t, k, lo, hi) <==> NoneUsed(t.right, k - 1, lo - Pow2(k - 1), hi - Pow2(k - 1))
  {
    var j, h := k - 1, Pow2(k - 1);
    if NoneUsed(t, k, lo, hi) {
      forall u | lo - h <= u < hi - h ensures !Used(t.right, j, u) {
        assert !Used(t, k, u + h);
      }
    }
    if NoneUsed(t.right, j, lo - h, hi - h) {
      forall u | lo <= u < hi ensures !Used(t, k, u) {
        assert !Used(t.right, j, u - h);
      }
    }
  }

  /** A request can be met exactly when some aligned block is vacant. */
  lemma {:induction false} VacantBest(t: Block, k: nat, at: int, order: nat)
    requires Vacant(t, k, at, order) && Normal(t, k)
    ensures Best(t, k) >= order
    decreases k
  {
    SlotBounds(k, at, order);
    assert !Used(t, k, at);
    if t.Split? {
      if order == k {
        var a, o := SomeLive(t, k);
        LiveSlot(t, k, a, o);
        UsedIsLive(t, k, a);
        assert CoveredBy(t, k, a);
        assert false;
      } else {
        VacantHalf(t, k, at, order);
        if Vacant(t.left, k - 1, at, order) {
          VacantBest(t.left, k - 1, at, order);
        } else {
          VacantBest(t.right, k - 1, at - Pow2(k - 1), order);
        }
      }
    }
  }

  lemma {:induction false} FreeAtZero(k: nat, need: nat)
    requires need <= k
    ensures TakeAt(Free, k, need) == 0 && Slot(k, 0, need) && Vacant(Free, k, 0, need)
    decreases k
  {
    if need < k {
      FreeAtZero(k - 1, need);
    }
  }

  /** Where the search goes from a block larger than needed. */
  lemma TakeSteps(t: Block, k: nat, need: nat)
    requires Best(t, k) >= need && Normal(t, k) && k > need
    ensures !t.Taken? && Normal(Free, k - 1) && Best(Free, k - 1) >= need
    ensures t.Free? ==>
            Take(t, k, need) == Split(Take(Free, k - 1, need), Free) && TakeAt(t, k, need) == TakeAt(Free, k - 1, need)
    ensures t.Split? ==> Normal(t.left, k - 1) && Normal(t.right, k - 1)
    ensures t.Split? && Best(t.left, k - 1) >= need ==>
              Take(t, k, need) == Split(Take(t.left, k - 1, need), t.right)
                  && TakeAt(t, k, need) == TakeAt(t.left, k - 1, need)
    ensures t.Split? && Best(t.left, k - 1) < need ==>
              && Best(t.right, k - 1) >= need && Take(t, k, need) == Split(t.left, Take(t.right, k - 1, need))
              && TakeAt(t, k, need) == Pow2(k - 1) + TakeAt(t.right, k - 1, need)
  {
  }

  /** The block taken was vacant. */
  lemma {:induction false} TakesVacant(t: Block, k: nat, need: nat)
    requires Best(t, k) >= need && Normal(t, k)
    ensures Vacant(t, k, TakeAt(t, k, need), need)
    decreases k
  {
    hide Best, Normal, TakeAt, Vacant, Slot, Used;
    if t.Free? || k == need {
      FreeAtZero(k, need);
      if k == need {
        TakeTop(t, k);
      }
    } else {
      TakeSteps(t, k, need);
      VacantHalf(t, k, TakeAt(t, k, need), need);
      if Best(t.left, k - 1) >= need {
        TakesVacant(t.left, k - 1, need);
      } else {
        TakesVacant(t.right, k - 1, need);
      }
    }
  }

  lemma VacantSlot(t: Block, k: nat, at: int, order: nat)
    requires Vacant(t, k, at, order)
    ensures Slot(k, at, order)
  {
  }

  lemma TopAtZero(t: Block, k: nat, need: nat)
    requires Best(t, k) >= need && Normal(t, k) && (k == need || t.Free?) && (t.Free? ==> TakeAt(Free, k, need) == 0)
    ensures TakeAt(t, k, need) == 0
  {
  }

  /** And no vacant block of that order is lower. */
  lemma {:induction false} TakesLowest(t: Block, k: nat, need: nat, at: int)
    requires Best(t, k) >= need && Normal(t, k) && Vacant(t, k, at, need)
    ensures TakeAt(t, k, need) <= at
    decreases k
  {
    hide Best, Normal, TakeAt, Vacant, Slot;
    assert Slot(k, at, need) by { VacantSlot(t, k, at, need); }
    SlotBounds(k, at, need);
    if t.Free? || k == need {
      assert TakeAt(t, k, need) == 0 by { FreeAtZero(k, need); TopAtZero(t, k, need); }
    } else {
      TakeSteps(t, k, need);
      VacantHalf(t, k, at, need);
      if Vacant(t.left, k - 1, at, need) {
        VacantBest(t.left, k - 1, at, need);
        TakesLowest(t.left, k - 1, need, at);
      } else {
        VacantSlot(t.right, k - 1, at - Pow2(k - 1), need);
        SlotBounds(k - 1, at - Pow2(k - 1), need);
        if Best(t.left, k - 1) >= need {
          TakesVacant(t.left, k - 1, need);
          VacantSlot(t.left, k - 1, TakeAt(t.left, k - 1, need), need);
          SlotBounds(k - 1, TakeAt(t.left, k - 1, need), need);
        } else {
          TakesLowest(t.right, k - 1, need, at - Pow2(k - 1));
        }
      }
    }
  }

  lemma TakeTop(t: Block, k: nat)
    requires Best(t, k) >= k && Normal(t, k)
    ensures t.Free? && Take(t, k, k) == Taken && TakeAt(t, k, k) == 0
  {
  }

  /** Exactly one live block is added. */
  lemma {:induction false} TakeAdds(t: Block, k: nat, need: nat, at: int, order: nat)
    requires Best(t, k) >= need && Normal(t, k)
    ensures IsLive(Take(t, k, need), k, at, order) <==>
            IsLive(t, k, at, order) || (at == TakeAt(t, k, need) && order == need)
    decreases k
  {
    hide Best, Normal, TakeAt, Take;
    if k == need {
      TakeTop(t, k);
    } else {
      var h := Pow2(k - 1);
      TakeSteps(t, k, need);
      if t.Free? {
        TakeAdds(Free, k - 1, need, at, order);
      } else if Best(t.left, k - 1) >= need {
        TakeAdds(t.left, k - 1, need, at, order);
      } else {
        TakeAdds(t.right, k - 1, need, at - h, order);
      }
    }
  }

  /** Exactly that live block is removed. */
  lemma {:induction false} GiveRemoves(t: Block, k: nat, a: int, i: nat, at: int, order: nat)
    requires Normal(t, k) && IsLive(t, k, a, i)
    ensures IsLive(Give(t, k, a, i), k, at, order) <==> IsLive(t, k, at, order) && !(at == a && order == i)
    decreases k
  {
    if t.Split? {
      var h := Pow2(k - 1);
      if IsLive(t.left, k - 1, a, i) {
        GiveRemoves(t.left, k - 1, a, i, at, order);
        LiveSlot(t.left, k - 1, a, i);
        if IsLive(t.right, k - 1, at - h, order) {
          LiveSlot(t.right, k - 1, at - h, order);
        }
      } else {
        GiveRemoves(t.right, k - 1, a - h, i, at - h, order);
        LiveSlot(t.right, k - 1, a - h, i);
        if IsLive(t.left, k - 1, at, order) {
          LiveSlot(t.left, k - 1, at, order);
        }
      }
    }
  }

  /** Releasing what was just allocated restores the tree. */
  lemma {:induction false} GiveUndoesTake(t: Block, k: nat, need: nat)
    requires Best(t, k) >= need && Normal(t, k)
    ensures IsLive(Take(t, k, need), k, TakeAt(t, k, need), need)
    ensures Give(Take(t, k, need), k, TakeAt(t, k, need), need) == t
  {
    var a := TakeAt(t, k, need);
    var s := Take(t, k, need);
    TakeAdds(t, k, need, a, need);
    var r := Give(s, k, a, need);
    TakesVacant(t, k, need);
    UsedIsLive(t, k, a);
    assert !Used(t, k, a);
    assert !IsLive(t, k, a, need);
    forall at: int, order: nat ensures IsLive(r, k, at, order) <==> IsLive(t, k, at, order) {
      TakeAdds(t, k, need, at, order);
      GiveRemoves(s, k, a, need, at, order);
    }
    LiveDetermines(r, t, k);
  }
}
