/**
  Slabs and their slots (pkg/plan/src/gc2.c:149-213, 299-395): free lists,
  use counts and byte counts of one span, and of all of them.
 */
module Slabs {
  import opened Basics

  /** A slot is free when its serial is zero. */
  datatype Slot = Slot(serial: nat, marked: bool)

  /** A run of 64 KiB pages cut into equal slots; `free` is the free list. */
  datatype Span = Span(page: nat, pages: nat, stride: nat, klass: nat, slots: seq<Slot>, free: seq<nat>, used: nat)

  const FREE: Slot := Slot(0, false)

  predicate IsLive(x: Slot) {
    x.serial != 0
  }

  function Live(slots: seq<Slot>): (n: nat) {
    if slots == [] then 0 else Live(slots[..|slots| - 1]) + if IsLive(slots[|slots| - 1]) then 1 else 0
  }

  /** The free list is exactly the free slots, and the use count the rest. */
  ghost predicate SpanOk(sp: Span) {
    && sp.used == Live(sp.slots) && Distinct(sp.free)
    && (forall j :: 0 <= j < |sp.free| ==> sp.free[j] < |sp.slots|)
    && (forall k :: 0 <= k < |sp.slots| ==> (k in sp.free <==> !IsLive(sp.slots[k])))
  }

  lemma {:induction false} LiveUpdate(slots: seq<Slot>, k: nat, x: Slot)
    requires k < |slots|
    ensures Live(slots[k := x]) == Live(slots) - (if IsLive(slots[k]) then 1 else 0) + (if IsLive(x) then 1 else 0)
    decreases |slots|
  {
    var n := |slots| - 1;
    if k < n {
      assert slots[k := x][..n] == slots[..n][k := x];
      LiveUpdate(slots[..n], k, x);
    } else {
      assert slots[k := x][..n] == slots[..n];
    }
  }

  lemma {:induction false} LiveNone(slots: seq<Slot>)
    ensures Live(slots) == 0 <==> forall k :: 0 <= k < |slots| ==> !IsLive(slots[k])
    decreases |slots|
  {
    if slots != [] {
      var rest := slots[..|slots| - 1];
      LiveNone(rest);
      assert forall k :: 0 <= k < |rest| ==> rest[k] == slots[k];
    }
  }

  /** slot_free. */
  function SlotFree(sp: Span, i: nat): (r: Span)
    requires i < |sp.slots| && sp.used > 0
  {
    sp.(slots := sp.slots[i := FREE], free := [i] + sp.free, used := sp.used - 1)
  }

  lemma {:induction false} SlotFreeOk(sp: Span, i: nat)
    requires SpanOk(sp) && i < |sp.slots| && IsLive(sp.slots[i])
    ensures sp.used > 0 && SpanOk(SlotFree(sp, i))
  {
    LiveUpdate(sp.slots, i, FREE);
    var r := SlotFree(sp, i);
    forall k | 0 <= k < |r.slots| ensures k in r.free <==> !IsLive(r.slots[k]) {
      assert k in r.free <==> k == i || k in sp.free;
    }
    assert i !in sp.free;
  }

  /** The loops of sweep_span and of rollback: free every live slot that `drop`
      selects, from slot i on. */
  ghost function FreeWhere(sp: Span, drop: Slot -> bool, i: nat): (r: Span)
    requires i <= |sp.slots|
    decreases |sp.slots| - i
  {
    if i == |sp.slots| then sp
    else if IsLive(sp.slots[i]) && drop(sp.slots[i]) && sp.used > 0 then FreeWhere(SlotFree(sp, i), drop, i + 1)
    else FreeWhere(sp, drop, i + 1)
  }

  /** Exactly the selected slots are freed, the rest are untouched, and lists
      and counts still agree. */
  lemma {:induction false} FreeWhereExact(sp: Span, drop: Slot -> bool, i: nat)
    requires SpanOk(sp) && i <= |sp.slots|
    ensures var r := FreeWhere(sp, drop, i);
            && SpanOk(r) && |r.slots| == |sp.slots| && r.used <= sp.used
            && r == sp.(slots := r.slots, free := r.free, used := r.used)
            && (forall k :: 0 <= k < |sp.slots| ==>
                              r.slots[k] == if k >= i && IsLive(sp.slots[k]) && drop(sp.slots[k]) then FREE
                                  else sp.slots[k])
    decreases |sp.slots| - i
  {
    hide SpanOk, Live;
    if i < |sp.slots| {
      if IsLive(sp.slots[i]) && drop(sp.slots[i]) {
        SlotFreeOk(sp, i);
        FreeWhereExact(SlotFree(sp, i), drop, i + 1);
      } else {
        FreeWhereExact(sp, drop, i + 1);
      }
    }
  }

  /** Taking the head of the free list. */
  function SlotTake(sp: Span, serial: nat): (r: Span)
    requires sp.free != [] && sp.free[0] < |sp.slots|
  {
    sp.(slots := sp.slots[sp.free[0] := Slot(serial, false)], free := sp.free[1..], used := sp.used + 1)
  }

  lemma {:induction false} SlotTakeOk(sp: Span, serial: nat)
    requires SpanOk(sp) && sp.free != [] && serial > 0
    ensures sp.free[0] < |sp.slots| && !IsLive(sp.slots[sp.free[0]]) && SpanOk(SlotTake(sp, serial))
  {
    var i := sp.free[0];
    assert i in sp.free;
    LiveUpdate(sp.slots, i, Slot(serial, false));
    var r := SlotTake(sp, serial);
    assert sp.free == [i] + r.free;
    forall k | 0 <= k < |r.slots| ensures k in r.free <==> !IsLive(r.slots[k]) {
      assert k in sp.free <==> k == i || k in r.free;
    }
  }

  /** A new span: all slots free, in order. */
  function FreshSpan(page: nat, pages: nat, stride: nat, klass: nat, count: nat): (r: Span) {
    Span(page, pages, stride, klass, seq(count, _ => FREE), seq(count, i => i), 0)
  }

  lemma {:induction false} FreshOk(page: nat, pages: nat, stride: nat, klass: nat, count: nat)
    ensures SpanOk(FreshSpan(page, pages, stride, klass, count))
  {
    var r := FreshSpan(page, pages, stride, klass, count);
    LiveNone(r.slots);
    forall k | 0 <= k < count ensures k in r.free {
      assert r.free[k] == k;
    }
  }

  // ----------------------------------------------------------------------- totals

  function Cost(sp: Span): (n: nat) {
    sp.used * sp.stride
  }

  /** Bytes in use over all spans. */
  function Bytes(spans: seq<Option<Span>>): (n: nat) {
    if spans == [] then 0
    else Bytes(spans[..|spans| - 1]) + var x := spans[|spans| - 1]; if x.Some? then Cost(x.value) else 0
  }

  /** Pages held over all spans. */
  function Extent(spans: seq<Option<Span>>): (n: nat) {
    if spans == [] then 0
    else Extent(spans[..|spans| - 1]) + var x := spans[|spans| - 1]; if x.Some? then x.value.pages else 0
  }

  lemma {:induction false} TotalsUpdate(spans: seq<Option<Span>>, id: nat, x: Option<Span>)
    requires id < |spans|
    ensures Bytes(spans[id := x])
            == Bytes(spans) - (if spans[id].Some? then Cost(spans[id].value) else 0)
            + (if x.Some? then Cost(x.value) else 0)
    ensures Extent(spans[id := x])
            == Extent(spans) - (if spans[id].Some? then spans[id].value.pages else 0)
            + (if x.Some? then x.value.pages else 0)
    decreases |spans|
  {
    hide Cost;
    var n := |spans| - 1;
    if id < n {
      assert spans[id := x][..n] == spans[..n][id := x];
      TotalsUpdate(spans[..n], id, x);
    } else {
      assert spans[id := x][..n] == spans[..n];
    }
  }

  lemma TotalsAppend(spans: seq<Option<Span>>, x: Span)
    ensures Bytes(spans + [Some(x)]) == Bytes(spans) + Cost(x) && Extent(spans + [Some(x)]) == Extent(spans) + x.pages
  {
    assert (spans + [Some(x)])[..|spans|] == spans;
  }
}
