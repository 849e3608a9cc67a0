/**
  The mark epoch and its sweep (pkg/plan/src/gc2.c:149-238, 299-395, 652-673):
  allocation, background sweeping, allocation-assisted sweeping and rollback as
  the steps of a state machine, each one critical section under the collector's
  lock. Extents come from the buddy allocator; tracing is a parameter.
 */
module Sweep {
  import opened Basics
  import opened Slabs

  /** Small classes have a list of spans with room; larger objects own a span. */
  const CLASSES: nat := 15

  /** `tx` is the checkpoint of an open load transaction, which holds the store
      lock and so excludes both marking and other transactions. `epoch` is the
      allocation serial at the last mark. */
  datatype State = State(spans: seq<Option<Span>>, avail: seq<seq<nat>>, work: seq<nat>, sweeping: bool,
                         serial: nat, bytes: int, extent: int, owner: map<nat, nat>, tx: Option<nat>, epoch: nat)

  /** What the buddy allocator hands back for a new span. */
  datatype Grant = Grant(page: nat, pages: nat, stride: nat, count: nat)

  datatype Step =
    | Alloc(klass: nat, grant: Option<Grant>)
    | SweepOne
    | EndSweep
    | Mark(live: set<(nat, nat)>, order: seq<nat>)
    | Begin
    | Commit
    | Rollback

  // ---------------------------------------------------------------------- operations

  function Without(q: seq<nat>, id: nat): (r: seq<nat>) {
    if q == [] then [] else (if q[0] == id then [] else [q[0]]) + Without(q[1..], id)
  }

  /** `available`: put a span with room at the head of its list. */
  function Offer(s: State, id: nat, sp: Span): (r: State)
    requires |s.avail| == CLASSES
  {
    if sp.klass >= CLASSES || sp.free == [] || id in s.avail[sp.klass] then s
    else s.(avail := s.avail[sp.klass := [id] + s.avail[sp.klass]])
  }

  /** `unavailable`. */
  function Withdraw(s: State, id: nat, klass: nat): (r: State)
    requires |s.avail| == CLASSES
  {
    if klass >= CLASSES then s else s.(avail := s.avail[klass := Without(s.avail[klass], id)])
  }

  predicate InExtent(sp: Span, p: nat) {
    sp.page <= p < sp.page + sp.pages
  }

  /** span_free. */
  ghost function SpanFree(s: State, id: nat, sp: Span): (r: State)
    requires |s.avail| == CLASSES && id < |s.spans|
  {
    var s1 := Withdraw(s, id, sp.klass);
    s1.(spans := s1.spans[id := None], extent := s1.extent - sp.pages, owner := map p | p in s1.owner
        && !InExtent(sp, p) :: s1.owner[p])
  }

  /** A span after some of its slots were freed. */
  ghost function Settle(s: State, id: nat, sp: Span, sp1: Span): (r: State)
    requires |s.avail| == CLASSES && id < |s.spans|
  {
    var s1 := s.(spans := s.spans[id := Some(sp1)], bytes := s.bytes - (Cost(sp) - Cost(sp1)));
    if sp1.used == 0 then SpanFree(s1, id, sp1) else Offer(s1, id, sp1)
  }

  const UNMARKED: Slot -> bool := (x: Slot) => !x.marked

  /** Take the next span off the queue and sweep it. */
  ghost function PopSweep(s: State): (r: State)
    requires |s.avail| == CLASSES && s.work != [] && WorkOk(s)
  {
    var id := s.work[|s.work| - 1];
    var sp := s.spans[id].value;
    Settle(s.(work := s.work[..|s.work| - 1]), id, sp, FreeWhere(sp, UNMARKED, 0))
  }

  predicate Wanting(s: State, klass: nat)
    requires |s.avail| == CLASSES
  {
    klass >= CLASSES || s.avail[klass] == []
  }

  /** The assisting loop of an allocation: sweep while nothing fits. */
  ghost function Assist(s: State, klass: nat): (r: State)
    requires Inv(s)
    ensures Inv(r) && (Wanting(r, klass) ==> r.work == [])
    decreases |s.work|
  {
    if Wanting(s, klass) && s.work != [] then
      PopSweepInv(s);
      assert |PopSweep(s).work| < |s.work| by { PopSweepWork(s); }
      Assist(PopSweep(s), klass)
    else s
  }

  /** Hand out the head of a listed span's free list. */
  function Serve(s: State, id: nat): (r: State)
    requires |s.avail| == CLASSES && id < |s.spans| && s.spans[id].Some? && s.spans[id].value.free != []
    requires s.spans[id].value.free[0] < |s.spans[id].value.slots|
  {
    var sp := s.spans[id].value;
    var sp1 := SlotTake(sp, s.serial + 1);
    var s1 := s.(spans := s.spans[id := Some(sp1)], serial := s.serial + 1, bytes := s.bytes + sp.stride);
    if sp1.free == [] then Withdraw(s1, id, sp1.klass) else s1
  }

  function PagesFrom(page: nat, n: nat): (r: set<nat>)
    ensures forall p :: p in r <==> page <= p < page + n
    decreases n
  {
    if n == 0 then {} else PagesFrom(page, n - 1) + {page + n - 1}
  }

  /** A new span, with its first slot handed out. */
  ghost function Grow(s: State, klass: nat, e: Grant): (r: State)
    requires |s.avail| == CLASSES && e.count > 0
  {
    var id, sp := |s.spans|, SlotTake(FreshSpan(e.page, e.pages, e.stride, klass, e.count), s.serial + 1);
    Offer(s.(spans := s.spans + [Some(sp)], serial := s.serial + 1, bytes := s.bytes + e.stride,
        extent := s.extent + e.pages,
             owner := map p | p in s.owner.Keys + PagesFrom(e.page, e.pages) ::
                        if InExtent(sp, p) then id else s.owner[p]), id, sp)
  }

  function MarkSpan(x: Option<Span>, id: nat, live: set<(nat, nat)>): (r: Option<Span>) {
    if x.None? then None
    else
      var sp := x.value;
      Some(sp.(slots := seq(|sp.slots|, k requires 0 <= k < |sp.slots| =>
          sp.slots[k].(marked := IsLive(sp.slots[k]) && (id, k) in live))))
  }

  function MarkSpans(spans: seq<Option<Span>>, live: set<(nat, nat)>): (r: seq<Option<Span>>)
    ensures |r| == |spans| && forall id :: 0 <= id < |r| ==> r[id] == MarkSpan(spans[id], id, live)
  {
    if spans == [] then []
    else
      var n := |spans| - 1;
      MarkSpans(spans[..n], live) + [MarkSpan(spans[n], n, live)]
  }

  /** Mark, withdraw every span and queue it. */
  function MarkAll(s: State, live: set<(nat, nat)>, order: seq<nat>): (r: State) {
    s.(spans := MarkSpans(s.spans, live),
       avail := seq(CLASSES, _ => []), work := order, sweeping := true, epoch := s.serial)
  }

  function Newer(c: nat): (r: Slot -> bool) {
    (x: Slot) => x.serial > c
  }

  /** Rollback over spans n - 1, ..., 0; a span without newer slots is left alone. */
  ghost function RollFrom(s: State, c: nat, n: nat): (r: State)
    requires |s.avail| == CLASSES && n <= |s.spans|
    decreases n
  {
    if n == 0 then s
    else
      var id := n - 1;
      if s.spans[id].Some? && Touched(s.spans[id].value, c) then
        RollFrom(Settle(s, id, s.spans[id].value, FreeWhere(s.spans[id].value, Newer(c), 0)), c, n - 1)
      else RollFrom(s, c, n - 1)
  }

  predicate Touched(sp: Span, c: nat) {
    exists k :: 0 <= k < |sp.slots| && sp.slots[k].serial > c
  }

  // --------------------------------------------------------------------- the invariant

  ghost predicate WorkOk(s: State) {
    && Distinct(s.work) && (s.work != [] ==> s.sweeping)
    && forall j :: 0 <= j < |s.work| ==> s.work[j] < |s.spans| && s.spans[s.work[j]].Some?
  }

  /** A listed span is of that class, has room and is not waiting to be swept. */
  ghost predicate ListedOk(s: State, klass: nat, id: nat) {
    id < |s.spans| && s.spans[id].Some? && s.spans[id].value.klass == klass && s.spans[id].value.free != []
        && id !in s.work
  }

  ghost predicate ListsOk(s: State) {
    && |s.avail| == CLASSES
    && forall klass :: 0 <= klass < CLASSES ==> Distinct(s.avail[klass]) && forall j :: 0 <= j < |s.avail[klass]| ==>
        ListedOk(s, klass, s.avail[klass][j])
  }

  /** The page map is exactly the spans' extents. */
  ghost predicate OwnerOk(s: State) {
    && (forall p :: p in s.owner ==>
        s.owner[p] < |s.spans| && s.spans[s.owner[p]].Some? && InExtent(s.spans[s.owner[p]].value, p))
    && (forall id, p :: 0 <= id < |s.spans| && s.spans[id].Some? && InExtent(s.spans[id].value, p) ==>
        p in s.owner && s.owner[p] == id)
  }

  ghost predicate ClockOk(s: State) {
    s.epoch <= s.serial && (s.tx.Some? ==> s.epoch <= s.tx.value <= s.serial)
  }

  ghost predicate Base(s: State) {
    ListsOk(s) && WorkOk(s) && OwnerOk(s) && ClockOk(s) && s.bytes == Bytes(s.spans) && s.extent == Extent(s.spans)
  }

  /** A span with room that is not waiting to be swept is listed. */
  ghost predicate Offered(s: State, id: nat, sp: Span)
    requires |s.avail| == CLASSES
  {
    sp.klass < CLASSES && sp.free != [] && id !in s.work ==> id in s.avail[sp.klass]
  }

  /** Queued spans hold only slots from before the mark; in all others what is
      that old has been marked. */
  ghost predicate Timely(s: State, id: nat, sp: Span) {
    forall k :: 0 <= k < |sp.slots| && IsLive(sp.slots[k]) ==>
                  && sp.slots[k].serial <= s.serial && (sp.slots[k].marked ==> sp.slots[k].serial <= s.epoch)
                  && (id in s.work ==> sp.slots[k].serial <= s.epoch)
                  && (id !in s.work && sp.slots[k].serial <= s.epoch ==> sp.slots[k].marked)
  }

  ghost predicate SpanInv(s: State, id: nat)
    requires |s.avail| == CLASSES && id < |s.spans|
  {
    s.spans[id].Some? ==> var sp := s.spans[id].value;
        SpanOk(sp) && sp.used > 0 && Offered(s, id, sp) && Timely(s, id, sp)
  }

  ghost predicate Inv(s: State) {
    Base(s) && forall id :: 0 <= id < |s.spans| ==> SpanInv(s, id)
  }

  /** The invariant but for what is known about one span in hand. */
  ghost predicate InvBut(s: State, id: nat) {
    && Base(s) && id < |s.spans| && s.spans[id].Some? && id !in s.work
    && forall j :: 0 <= j < |s.spans| && j != id ==> SpanInv(s, j)
  }

  // ------------------------------------------------------------------------- list facts

  lemma {:induction false} WithoutFacts(q: seq<nat>, id: nat)
    ensures id !in Without(q, id) && (forall x :: x != id ==> (x in Without(q, id) <==> x in q))
    ensures Distinct(q) ==> Distinct(Without(q, id))
    ensures id !in q ==> Without(q, id) == q
    decreases |q|
  {
    if q != [] {
      var rest := q[1..];
      WithoutFacts(rest, id);
      assert q == [q[0]] + rest;
      var r := Without(q, id);
      if Distinct(q) {
        assert forall i, j :: 0 <= i < j < |rest| ==> rest[i] == q[i + 1] && rest[j] == q[j + 1];
        assert Distinct(rest);
        assert q[0] !in rest;
      }
    }
  }

  lemma {:induction false} WithdrawOk(s: State, id: nat, klass: nat)
    requires ListsOk(s)
    ensures ListsOk(Withdraw(s, id, klass))
    ensures forall j, c :: 0 <= c < CLASSES && j != id ==> (j in Withdraw(s, id, klass).avail[c] <==> j in s.avail[c])
    ensures klass < CLASSES ==> id !in Withdraw(s, id, klass).avail[klass]
  {
    var r := Withdraw(s, id, klass);
    if klass < CLASSES {
      WithoutFacts(s.avail[klass], id);
      forall c | 0 <= c < CLASSES
        ensures Distinct(r.avail[c]) && forall j :: 0 <= j < |r.avail[c]| ==> ListedOk(r, c, r.avail[c][j])
      {
        forall j | 0 <= j < |r.avail[c]| ensures ListedOk(r, c, r.avail[c][j]) {
          assert r.avail[c][j] in s.avail[c];
          assert ListedOk(s, c, r.avail[c][j]);
        }
      }
    }
  }

  lemma {:induction false} OfferOk(s: State, id: nat, sp: Span)
    requires ListsOk(s) && id < |s.spans| && s.spans[id] == Some(sp) && id !in s.work
    ensures ListsOk(Offer(s, id, sp)) && Offered(Offer(s, id, sp), id, sp)
    ensures forall j, c :: 0 <= c < CLASSES && j != id ==> (j in Offer(s, id, sp).avail[c] <==> j in s.avail[c])
  {
    var r := Offer(s, id, sp);
    forall c | 0 <= c < CLASSES
      ensures Distinct(r.avail[c]) && forall j :: 0 <= j < |r.avail[c]| ==> ListedOk(r, c, r.avail[c][j])
    {
      forall j | 0 <= j < |r.avail[c]| ensures ListedOk(r, c, r.avail[c][j]) {
        if r.avail[c][j] in s.avail[c] {
          assert ListedOk(s, c, r.avail[c][j]);
        }
      }
    }
  }

  // ------------------------------------------------------------------------- settling

  /** Slots freed from one span; everything else about it is the same. */
  ghost predicate Shrunk(sp: Span, sp1: Span) {
    SpanOk(sp1) && sp1 == sp.(slots := sp1.slots, free := sp1.free, used := sp1.used)
  }

  lemma {:induction false} PutLists(s: State, id: nat, sp: Span, sp1: Span)
    requires ListsOk(s) && id < |s.spans| && s.spans[id] == Some(sp) && sp1.klass == sp.klass && sp1.free != []
    ensures ListsOk(s.(spans := s.spans[id := Some(sp1)]))
  {
    var r := s.(spans := s.spans[id := Some(sp1)]);
    forall c | 0 <= c < CLASSES ensures Distinct(r.avail[c]) && forall j :: 0 <= j < |r.avail[c]| ==>
        ListedOk(r, c, r.avail[c][j]) {
      forall j | 0 <= j < |r.avail[c]| ensures ListedOk(r, c, r.avail[c][j]) {
        assert ListedOk(s, c, s.avail[c][j]);
      }
    }
  }

  /** Another span's invariant only looks at its own entry, the queue and its place in the lists. */
  lemma {:induction false} SpanInvKept(s: State, r: State, j: nat)
    requires |s.avail| == CLASSES && |r.avail| == CLASSES && j < |s.spans| && j < |r.spans| && SpanInv(s, j)
             && r.spans[j] == s.spans[j]
    requires (j in r.work <==> j in s.work) && r.epoch == s.epoch && r.serial >= s.serial
    requires forall c :: 0 <= c < CLASSES ==> (j in s.avail[c] ==> j in r.avail[c])
    ensures SpanInv(r, j)
  {
    hide SpanOk;
    if s.spans[j].Some? {
      var sp := s.spans[j].value;
      assert sp.klass < CLASSES ==> (j in s.avail[sp.klass] ==> j in r.avail[sp.klass]);
      assert Offered(s, j, sp) && Timely(s, j, sp);
      forall k | 0 <= k < |sp.slots| && IsLive(sp.slots[k])
        ensures sp.slots[k].serial <= r.serial && (sp.slots[k].marked ==> sp.slots[k].serial <= r.epoch)
      {
        assert sp.slots[k].serial <= s.serial;
      }
    }
  }

  lemma {:induction false} DropOwner(s: State, id: nat, sp: Span, r: State)
    requires OwnerOk(s) && id < |s.spans| && s.spans[id].Some? && s.spans[id].value.page == sp.page
             && s.spans[id].value.pages == sp.pages
    requires r.spans == s.spans[id := None] && r.owner == map p | p in s.owner && !InExtent(sp, p) :: s.owner[p]
    ensures OwnerOk(r)
  {
    forall p | p in r.owner ensures r.owner[p] < |r.spans| && r.spans[r.owner[p]].Some?
        && InExtent(r.spans[r.owner[p]].value, p) {
      assert p in s.owner && !InExtent(sp, p) && r.owner[p] == s.owner[p];
      assert InExtent(s.spans[s.owner[p]].value, p);
      assert s.owner[p] != id;
    }
    forall j, p | 0 <= j < |r.spans| && r.spans[j].Some? && InExtent(r.spans[j].value, p) ensures p in r.owner
        && r.owner[p] == j {
      assert j != id && s.spans[j].Some? && InExtent(s.spans[j].value, p);
      assert p in s.owner && s.owner[p] == j;
      if InExtent(sp, p) {
        assert InExtent(s.spans[id].value, p);
      }
    }
  }

  lemma {:induction false} KeepOwner(s: State, id: nat, sp1: Span, r: State)
    requires OwnerOk(s) && id < |s.spans| && s.spans[id].Some? && s.spans[id].value.page == sp1.page
             && s.spans[id].value.pages == sp1.pages
    requires r.spans == s.spans[id := Some(sp1)] && r.owner == s.owner
    ensures OwnerOk(r)
  {
    forall p | p in r.owner ensures r.owner[p] < |r.spans| && r.spans[r.owner[p]].Some?
        && InExtent(r.spans[r.owner[p]].value, p) {
      assert InExtent(s.spans[s.owner[p]].value, p);
    }
    forall j, p | 0 <= j < |r.spans| && r.spans[j].Some? && InExtent(r.spans[j].value, p) ensures p in r.owner
        && r.owner[p] == j {
      assert s.spans[j].Some? && InExtent(s.spans[j].value, p);
    }
  }

  /** A span that still has live slots. */
  lemma {:induction false} SettleUsed(s: State, id: nat, sp: Span, sp1: Span)
    requires InvBut(s, id) && s.spans[id] == Some(sp) && Shrunk(sp, sp1) && sp1.used > 0 && sp1.free != []
             && Timely(s, id, sp1)
    ensures Inv(Settle(s, id, sp, sp1)) && Settle(s, id, sp, sp1).work == s.work
  {
    hide SpanOk, Timely, Bytes, Extent, Cost;
    var s1 := s.(spans := s.spans[id := Some(sp1)], bytes := s.bytes - (Cost(sp) - Cost(sp1)));
    TotalsUpdate(s.spans, id, Some(sp1));
    PutLists(s, id, sp, sp1);
    assert ListsOk(s1) by { SameLists(s.(spans := s.spans[id := Some(sp1)]), s1); }
    OfferOk(s1, id, sp1);
    var r := Offer(s1, id, sp1);
    KeepOwner(s, id, sp1, r);
    forall j | 0 <= j < |r.spans| ensures SpanInv(r, j) {
      if j != id {
        SpanInvKept(s, r, j);
      } else {
        TimelySame(s, r, id, sp1);
      }
    }
  }

  lemma SameLists(s: State, r: State)
    requires ListsOk(s) && r.spans == s.spans && r.avail == s.avail && r.work == s.work
    ensures ListsOk(r)
  {
  }

  lemma TimelySame(s: State, r: State, id: nat, sp: Span)
    requires Timely(s, id, sp) && r.work == s.work && r.epoch == s.epoch && r.serial >= s.serial
    ensures Timely(r, id, sp)
  {
  }

  /** A span that has none left is released. */
  lemma {:induction false} SettleEmpty(s: State, id: nat, sp: Span, sp1: Span)
    requires InvBut(s, id) && s.spans[id] == Some(sp) && Shrunk(sp, sp1) && sp1.used == 0
    ensures Inv(Settle(s, id, sp, sp1)) && Settle(s, id, sp, sp1).work == s.work
  {
    hide SpanOk, Timely, Bytes, Extent;
    var s1 := s.(spans := s.spans[id := Some(sp1)], bytes := s.bytes - (Cost(sp) - Cost(sp1)));
    var r := SpanFree(s1, id, sp1);
    TotalsUpdate(s.spans, id, None);
    assert r.spans == s.spans[id := None];
    var w := Withdraw(s, id, sp.klass);
    WithdrawOk(s, id, sp.klass);
    assert r.avail == w.avail;
    ListsWithout(s, w, r, id, sp);
    DropOwner(s, id, sp, r);
    forall j | 0 <= j < |r.spans| ensures SpanInv(r, j) {
      if j != id {
        SpanInvKept(s, r, j);
      }
    }
  }

  lemma {:induction false} ListsWithout(s: State, w: State, r: State, id: nat, sp: Span)
    requires ListsOk(s) && id < |s.spans| && s.spans[id] == Some(sp) && w == Withdraw(s, id, sp.klass) && ListsOk(w)
    requires r.avail == w.avail && r.work == s.work && r.spans == s.spans[id := None]
    requires sp.klass < CLASSES ==> id !in w.avail[sp.klass]
    ensures ListsOk(r)
  {
    forall c | 0 <= c < CLASSES ensures Distinct(r.avail[c]) && forall j :: 0 <= j < |r.avail[c]| ==>
        ListedOk(r, c, r.avail[c][j]) {
      forall j | 0 <= j < |r.avail[c]| ensures ListedOk(r, c, r.avail[c][j]) {
        assert ListedOk(w, c, w.avail[c][j]);
        assert r.avail[c][j] in w.avail[c];
        assert r.avail[c][j] != id;
      }
    }
  }

  // --------------------------------------------------------------------------- sweeping

  /** Popping the queue leaves the span in hand. */
  lemma {:induction false} PopBut(s: State)
    requires Inv(s) && s.work != []
    ensures var id := s.work[|s.work| - 1]; InvBut(s.(work := s.work[..|s.work| - 1]), id)
    ensures forall j :: j in s.work[..|s.work| - 1] <==> j in s.work && j != s.work[|s.work| - 1]
  {
    hide SpanOk, Bytes, Extent;
    var n := |s.work| - 1;
    var id, r := s.work[n], s.(work := s.work[..n]);
    assert s.work == r.work + [id];
    assert id !in r.work;
    forall c | 0 <= c < CLASSES ensures Distinct(r.avail[c]) && forall j :: 0 <= j < |r.avail[c]| ==>
        ListedOk(r, c, r.avail[c][j]) {
      forall j | 0 <= j < |r.avail[c]| ensures ListedOk(r, c, r.avail[c][j]) {
        assert ListedOk(s, c, s.avail[c][j]);
      }
    }
    forall j | 0 <= j < |r.spans| && j != id ensures SpanInv(r, j) {
      SpanInvKept(s, r, j);
    }
  }

  /** What sweeping leaves in a span that was queued: everything live is marked. */
  lemma {:induction false} SweptTimely(s: State, id: nat, sp: Span)
    requires SpanOk(sp) && Timely(s, id, sp) && id in s.work
    ensures var sp1, r := FreeWhere(sp, UNMARKED, 0), s.(work := s.work[..|s.work| - 1]);
            Shrunk(sp, sp1) && (id !in r.work ==> Timely(r, id, sp1)) && (sp1 == sp || sp1.free != [])
  {
    FreeWhereExact(sp, UNMARKED, 0);
    FreeWhereSame(sp, UNMARKED, 0);
  }

  lemma {:induction false} FreeWhereSame(sp: Span, drop: Slot -> bool, i: nat)
    requires SpanOk(sp) && i <= |sp.slots|
    ensures var r := FreeWhere(sp, drop, i); r == sp || (r.used < sp.used && r.free != [])
    decreases |sp.slots| - i
  {
    hide SpanOk;
    if i < |sp.slots| {
      if IsLive(sp.slots[i]) && drop(sp.slots[i]) {
        SlotFreeOk(sp, i);
        FreeWhereSame(SlotFree(sp, i), drop, i + 1);
      } else {
        FreeWhereSame(sp, drop, i + 1);
      }
    }
  }

  lemma {:induction false} PopSweepInv(s: State)
    requires Inv(s) && s.work != []
    ensures Inv(PopSweep(s)) && PopSweep(s).work == s.work[..|s.work| - 1]
  {
    hide SpanOk, Timely, Bytes, Extent, Base, FreeWhere, UNMARKED;
    var id := s.work[|s.work| - 1];
    assert Base(s) && SpanInv(s, id) && WorkOk(s) && |s.avail| == CLASSES by { Parts(s); }
    var sp := s.spans[id].value;
    var r := s.(work := s.work[..|s.work| - 1]);
    PopBut(s);
    SweptTimely(s, id, sp);
    var sp1 := FreeWhere(sp, UNMARKED, 0);
    if sp1.used == 0 {
      SettleEmpty(r, id, sp, sp1);
    } else if sp1.free != [] {
      SettleUsed(r, id, sp, sp1);
    } else {
      SettleFull(r, id, sp, sp1);
    }
  }

  lemma Parts(s: State)
    requires Inv(s)
    ensures Base(s) && WorkOk(s) && ListsOk(s) && OwnerOk(s) && ClockOk(s) && |s.avail| == CLASSES
    ensures forall id :: 0 <= id < |s.spans| ==> SpanInv(s, id)
  {
  }

  /** A span with no room stays off the lists. */
  lemma {:induction false} SettleFull(s: State, id: nat, sp: Span, sp1: Span)
    requires InvBut(s, id) && s.spans[id] == Some(sp) && sp1 == sp && SpanOk(sp) && sp.used > 0 && sp.free == []
             && Timely(s, id, sp)
    ensures Inv(Settle(s, id, sp, sp1)) && Settle(s, id, sp, sp1).work == s.work
  {
    hide SpanOk, Timely, Bytes, Extent, Cost;
    assert s.spans[id := Some(sp)] == s.spans;
    var r := Settle(s, id, sp, sp1);
    assert r == s;
  }

  lemma PopSweepWork(s: State)
    requires Inv(s) && s.work != []
    ensures |PopSweep(s).work| < |s.work|
  {
    PopSweepInv(s);
  }

  // -------------------------------------------------------------------------- allocation

  /** Handing out a slot of a listed span. */
  lemma {:induction false} ServeInv(s: State, klass: nat)
    requires Inv(s) && klass < CLASSES && s.avail[klass] != []
    ensures var id := s.avail[klass][0];
            && id < |s.spans| && s.spans[id].Some? && s.spans[id].value.free != [] && id !in s.work
            && s.spans[id].value.free[0] < |s.spans[id].value.slots|
            && !IsLive(s.spans[id].value.slots[s.spans[id].value.free[0]])
            && Inv(Serve(s, id)) && Serve(s, id).work == s.work
  {
    hide SpanOk, Bytes, Extent;
    var id := s.avail[klass][0];
    assert ListedOk(s, klass, id);
    var sp := s.spans[id].value;
    assert SpanInv(s, id);
    SlotTakeOk(sp, s.serial + 1);
    var sp1 := SlotTake(sp, s.serial + 1);
    var s1 := s.(spans := s.spans[id := Some(sp1)], serial := s.serial + 1, bytes := s.bytes + sp.stride);
    TotalsUpdate(s.spans, id, Some(sp1));
    assert Cost(sp1) == Cost(sp) + sp.stride;
    var r := Serve(s, id);
    ServeLists(s, id, sp, sp1, r);
    KeepOwner(s, id, sp1, r);
    forall j | 0 <= j < |r.spans| ensures SpanInv(r, j) {
      if j != id {
        assert SpanInv(s, j);
        SpanInvKept(s, r, j);
      }
    }
  }

  lemma {:induction false} ServeLists(s: State, id: nat, sp: Span, sp1: Span, r: State)
    requires ListsOk(s) && id < |s.spans| && s.spans[id] == Some(sp) && sp1.klass == sp.klass && id !in s.work
             && sp.klass < CLASSES
    requires r.spans == s.spans[id := Some(sp1)] && r.work == s.work
    requires r.avail == if sp1.free == [] then Withdraw(s, id, sp.klass).avail else s.avail
    ensures ListsOk(r) && forall j, c :: 0 <= c < CLASSES && j != id ==> (j in r.avail[c] <==> j in s.avail[c])
    ensures sp1.free != [] ==> (id in s.avail[sp.klass] ==> id in r.avail[sp.klass])
  {
    WithdrawOk(s, id, sp.klass);
    forall c | 0 <= c < CLASSES ensures Distinct(r.avail[c]) && forall j :: 0 <= j < |r.avail[c]| ==>
        ListedOk(r, c, r.avail[c][j]) {
      forall j | 0 <= j < |r.avail[c]| ensures ListedOk(r, c, r.avail[c][j]) {
        var x := r.avail[c][j];
        assert x in r.avail[c];
        if sp1.free == [] {
          assert ListedOk(Withdraw(s, id, sp.klass), c, x);
          assert x == id ==> c == sp.klass;
        } else {
          assert ListedOk(s, c, x);
        }
      }
    }
  }

  /** A granted extent is new: no span holds any of its pages, and its first
      slot fits. */
  ghost predicate GrantOk(s: State, e: Grant) {
    e.count > 0 && forall p :: e.page <= p < e.page + e.pages ==> p !in s.owner
  }

  lemma {:induction false} GrowInv(s: State, klass: nat, e: Grant)
    requires Inv(s) && Wanting(s, klass) && GrantOk(s, e)
    ensures Inv(Grow(s, klass, e)) && Grow(s, klass, e).work == s.work
  {
    hide SpanOk, Bytes, Extent, SpanInv, ListedOk;
    var id, base := |s.spans|, FreshSpan(e.page, e.pages, e.stride, klass, e.count);
    FreshOk(e.page, e.pages, e.stride, klass, e.count);
    SlotTakeOk(base, s.serial + 1);
    var sp := SlotTake(base, s.serial + 1);
    assert forall j :: j in s.work ==> j < id;
    FreshLists(s, sp);
    TotalsAppend(s.spans, sp);
    assert Cost(sp) == e.stride;
    var r := Grow(s, klass, e);
    var s1 := r.(avail := s.avail);
    assert ListsOk(s1) by { SameLists(s.(spans := s.spans + [Some(sp)]), s1); }
    OfferOk(s1, id, sp);
    assert r == Offer(s1, id, sp);
    GrowOwner(s, sp, r);
    GrowSpans(s, r, sp, base);
  }

  lemma {:induction false} GrowSpans(s: State, r: State, sp: Span, base: Span)
    requires Inv(s) && |r.avail| == CLASSES && r.spans == s.spans + [Some(sp)] && r.work == s.work
             && r.epoch == s.epoch && r.serial == s.serial + 1
    requires forall j, c :: 0 <= c < CLASSES && j != |s.spans| ==> (j in r.avail[c] <==> j in s.avail[c])
    requires base.free != [] && base.free[0] < |base.slots|
             && (forall k :: 0 <= k < |base.slots| ==> !IsLive(base.slots[k]))
    requires sp == SlotTake(base, s.serial + 1) && SpanOk(sp) && sp.used > 0 && Offered(r, |s.spans|, sp)
             && |s.spans| !in r.work
    ensures forall j :: 0 <= j < |r.spans| ==> SpanInv(r, j)
  {
    hide SpanOk, Inv, Timely;
    assert ClockOk(s) && |s.avail| == CLASSES by { Parts(s); }
    forall j | 0 <= j < |r.spans| ensures SpanInv(r, j) {
      if j < |s.spans| {
        assert SpanInv(s, j) by { Parts(s); }
        SpanInvKept(s, r, j);
      } else {
        FreshTimely(r, j, sp, base, s.serial + 1);
      }
    }
  }

  lemma {:induction false} FreshTimely(r: State, id: nat, sp: Span, base: Span, serial: nat)
    requires base.free != [] && base.free[0] < |base.slots|
             && (forall k :: 0 <= k < |base.slots| ==> !IsLive(base.slots[k]))
    requires sp == SlotTake(base, serial) && r.serial == serial > r.epoch && id !in r.work
    ensures Timely(r, id, sp)
  {
  }

  lemma {:induction false} FreshLists(s: State, sp: Span)
    requires ListsOk(s)
    ensures ListsOk(s.(spans := s.spans + [Some(sp)]))
  {
    var r := s.(spans := s.spans + [Some(sp)]);
    forall c | 0 <= c < CLASSES ensures Distinct(r.avail[c]) && forall j :: 0 <= j < |r.avail[c]| ==>
        ListedOk(r, c, r.avail[c][j]) {
      forall j | 0 <= j < |r.avail[c]| ensures ListedOk(r, c, r.avail[c][j]) {
        assert ListedOk(s, c, s.avail[c][j]);
      }
    }
  }

  lemma {:induction false} GrowOwner(s: State, sp: Span, r: State)
    requires OwnerOk(s) && (forall p :: InExtent(sp, p) ==> p !in s.owner) && r.spans == s.spans + [Some(sp)]
    requires forall p :: p in r.owner <==> p in s.owner || InExtent(sp, p)
    requires forall p :: p in r.owner ==> r.owner[p] == if InExtent(sp, p) then |s.spans| else s.owner[p]
    ensures OwnerOk(r)
  {
    forall id, p | 0 <= id < |r.spans| && r.spans[id].Some? && InExtent(r.spans[id].value, p) ensures p in r.owner
        && r.owner[p] == id {
      if id < |s.spans| {
        assert s.spans[id].Some? && InExtent(s.spans[id].value, p);
        assert p in s.owner;
      }
    }
  }

  // ----------------------------------------------------------------------------- marking

  ghost predicate Queues(s: State, order: seq<nat>) {
    Distinct(order) && forall id: nat :: id in order <==> id < |s.spans| && s.spans[id].Some?
  }

  lemma {:induction false} MarkInv(s: State, live: set<(nat, nat)>, order: seq<nat>)
    requires Inv(s) && s.work == [] && !s.sweeping && s.tx.None? && Queues(s, order)
    ensures Inv(MarkAll(s, live, order))
  {
    hide Bytes, Extent, SpanOk;
    var r := MarkAll(s, live, order);
    MarkTotals(s.spans, live);
    assert WorkOk(r) by {
      forall j | 0 <= j < |r.work| ensures r.work[j] < |r.spans| && r.spans[r.work[j]].Some? {
        assert r.work[j] in order;
      }
    }
    MarkOwner(s, live, order);
    forall id | 0 <= id < |r.spans| ensures SpanInv(r, id) {
      assert SpanInv(s, id);
      if r.spans[id].Some? {
        assert id in r.work;
        MarkedOk(s.spans[id].value, r.spans[id].value);
      }
    }
  }

  lemma {:induction false} MarkOwner(s: State, live: set<(nat, nat)>, order: seq<nat>)
    requires OwnerOk(s)
    ensures OwnerOk(MarkAll(s, live, order)) && ListsOk(MarkAll(s, live, order))
  {
    var r := MarkAll(s, live, order);
    forall id, p | 0 <= id < |r.spans| && r.spans[id].Some? && InExtent(r.spans[id].value, p) ensures p in r.owner
        && r.owner[p] == id {
      assert s.spans[id].Some? && InExtent(s.spans[id].value, p);
    }
  }

  lemma {:induction false} MarkedOk(sp: Span, sp1: Span)
    requires SpanOk(sp) && |sp1.slots| == |sp.slots|
             && (forall k :: 0 <= k < |sp.slots| ==> sp1.slots[k].serial == sp.slots[k].serial)
    requires sp1 == sp.(slots := sp1.slots)
    ensures SpanOk(sp1)
  {
    LiveSame(sp.slots, sp1.slots);
    assert forall k :: 0 <= k < |sp.slots| ==> IsLive(sp1.slots[k]) == IsLive(sp.slots[k]);
  }

  lemma {:induction false} LiveSame(a: seq<Slot>, b: seq<Slot>)
    requires |a| == |b| && forall k :: 0 <= k < |a| ==> a[k].serial == b[k].serial
    ensures Live(a) == Live(b)
    decreases |a|
  {
    if a != [] {
      LiveSame(a[..|a| - 1], b[..|b| - 1]);
    }
  }

  lemma {:induction false} MarkTotals(spans: seq<Option<Span>>, live: set<(nat, nat)>)
    ensures Bytes(MarkSpans(spans, live)) == Bytes(spans) && Extent(MarkSpans(spans, live)) == Extent(spans)
    decreases |spans|
  {
    var n := |spans| - 1;
    if n >= 0 {
      MarkTotals(spans[..n], live);
      assert MarkSpans(spans, live)[..n] == MarkSpans(spans[..n], live);
    }
  }

  // ---------------------------------------------------------------------------- rollback

  lemma {:induction false} RollOne(s: State, c: nat, id: nat)
    requires Inv(s) && s.epoch <= c && id < |s.spans| && s.spans[id].Some? && Touched(s.spans[id].value, c)
    ensures id !in s.work
    ensures var sp := s.spans[id].value;
            Inv(Settle(s, id, sp, FreeWhere(sp, Newer(c), 0)))
            && Settle(s, id, sp, FreeWhere(sp, Newer(c), 0)).work == s.work
  {
    hide SpanOk, Bytes, Extent, Base;
    assert Base(s) && SpanInv(s, id) by { Parts(s); }
    var sp := s.spans[id].value;
    var k :| 0 <= k < |sp.slots| && sp.slots[k].serial > c;
    assert IsLive(sp.slots[k]);
    assert id !in s.work;
    FreeWhereExact(sp, Newer(c), 0);
    FreeWhereSame(sp, Newer(c), 0);
    var sp1 := FreeWhere(sp, Newer(c), 0);
    assert sp1.slots[k] == FREE && sp1 != sp;
    if sp1.used == 0 {
      SettleEmpty(s, id, sp, sp1);
    } else {
      SettleUsed(s, id, sp, sp1);
    }
  }

  /** What rollback has done to spans n and up, and not to those below. */
  ghost predicate Rolled(s: State, r: State, c: nat, n: nat) {
    && |r.spans| == |s.spans| && r.work == s.work && r.serial == s.serial && r.epoch == s.epoch && r.tx == s.tx
    && r.sweeping == s.sweeping
    && (forall id :: 0 <= id < n && id < |s.spans| ==> r.spans[id] == s.spans[id])
    && (forall id :: n <= id < |s.spans| ==> SpanRolled(s.spans[id], r.spans[id], c))
  }

  ghost predicate SpanRolled(x: Option<Span>, y: Option<Span>, c: nat) {
    if x.None? then y.None?
    else if y.None? then forall k :: 0 <= k < |x.value.slots| && IsLive(x.value.slots[k]) ==>
        x.value.slots[k].serial > c
    else SlotsRolled(x.value.slots, y.value.slots, c)
  }

  ghost predicate SlotsRolled(a: seq<Slot>, b: seq<Slot>, c: nat) {
    |a| == |b| && forall k :: 0 <= k < |a| ==> b[k] == if a[k].serial > c then FREE else a[k]
  }

  lemma {:induction false} RollInv(s0: State, s: State, c: nat, n: nat)
    requires Inv(s) && s.epoch <= c && n <= |s.spans| && |s0.spans| == |s.spans| && Rolled(s0, s, c, n)
    ensures Inv(RollFrom(s, c, n)) && Rolled(s0, RollFrom(s, c, n), c, 0)
    decreases n
  {
    hide Inv, SpanRolled, FreeWhere;
    assert |s.avail| == CLASSES by { Parts(s); }
    if n > 0 {
      var id := n - 1;
      if s.spans[id].Some? && Touched(s.spans[id].value, c) {
        var sp := s.spans[id].value;
        RollOne(s, c, id);
        var r := Settle(s, id, sp, FreeWhere(sp, Newer(c), 0));
        SettleRolled(s, c, id);
        RollInv(s0, r, c, n - 1);
      } else {
        assert SpanRolled(s0.spans[id], s.spans[id], c) by { UntouchedRolled(s0.spans[id], c); }
        RollInv(s0, s, c, n - 1);
      }
    }
  }

  lemma UntouchedRolled(x: Option<Span>, c: nat)
    requires x.Some? ==> !Touched(x.value, c)
    ensures SpanRolled(x, x, c)
  {
  }

  lemma {:induction false} SettleRolled(s: State, c: nat, id: nat)
    requires Inv(s) && id < |s.spans| && s.spans[id].Some?
    ensures var sp := s.spans[id].value;
            var r := Settle(s, id, sp, FreeWhere(sp, Newer(c), 0));
            && SpanRolled(s.spans[id], r.spans[id], c) && |r.spans| == |s.spans| && r.serial == s.serial
            && r.epoch == s.epoch
            && r.tx == s.tx && r.sweeping == s.sweeping && r.work == s.work
            && forall j :: 0 <= j < |s.spans| && j != id ==> r.spans[j] == s.spans[j]
  {
    hide SpanOk, Base;
    assert SpanInv(s, id) && |s.avail| == CLASSES by { Parts(s); }
    var sp := s.spans[id].value;
    FreeWhereExact(sp, Newer(c), 0);
    var sp1 := FreeWhere(sp, Newer(c), 0);
    if sp1.used == 0 {
      NoneLive(sp1);
      forall k | 0 <= k < |sp.slots| && IsLive(sp.slots[k]) ensures sp.slots[k].serial > c {
        assert !IsLive(sp1.slots[k]);
      }
    }
  }

  lemma NoneLive(sp: Span)
    requires SpanOk(sp) && sp.used == 0
    ensures forall k :: 0 <= k < |sp.slots| ==> !IsLive(sp.slots[k])
  {
    LiveNone(sp.slots);
  }

  // ------------------------------------------------------------------------------- runs

  ghost predicate Enabled(s: State, step: Step)
    requires Inv(s)
  {
    match step
    case Alloc(klass, grant) => klass <= CLASSES && (grant.Some? ==> GrantOk(Assist(s, klass), grant.value))
    case SweepOne => s.work != []
    case EndSweep => s.sweeping && s.work == []
    case Mark(_, order) => !s.sweeping && s.work == [] && s.tx.None? && Queues(s, order)
    case Begin => s.tx.None?
    case Commit => s.tx.Some?
    case Rollback => s.tx.Some?
  }

  ghost function Next(s: State, step: Step): (r: State)
    requires Inv(s) && Enabled(s, step)
  {
    match step
    case Alloc(klass, grant) =>
      var s1 := Assist(s, klass);
      if !Wanting(s1, klass) then
        ServeInv(s1, klass);
        Serve(s1, s1.avail[klass][0])
      else if grant.None? then s1
      else Grow(s1, klass, grant.value)
    case SweepOne => PopSweep(s)
    case EndSweep => s.(sweeping := false)
    case Mark(live, order) => MarkAll(s, live, order)
    case Begin => s.(tx := Some(s.serial))
    case Commit => s.(tx := None)
    case Rollback => RollFrom(s, s.tx.value, |s.spans|).(serial := s.tx.value, tx := None)
  }

  lemma {:induction false} RollbackInv(s: State)
    requires Inv(s) && s.tx.Some?
    ensures Inv(Next(s, Rollback))
    ensures Rolled(s, RollFrom(s, s.tx.value, |s.spans|), s.tx.value, 0)
  {
    hide SpanOk, Bytes, Extent, RollFrom;
    var c := s.tx.value;
    RollInv(s, s, c, |s.spans|);
    var r := RollFrom(s, c, |s.spans|);
    assert ClockOk(s);
    var f := r.(serial := c, tx := None);
    assert ListsOk(f) by { SameLists(r, f); }
    forall id | 0 <= id < |f.spans| ensures SpanInv(f, id) {
      assert SpanInv(r, id) && SpanInv(s, id) && SpanRolled(s.spans[id], r.spans[id], c);
    }
  }

  lemma {:induction false} StepInv(s: State, step: Step)
    requires Inv(s) && Enabled(s, step)
    ensures Inv(Next(s, step))
  {
    hide SpanOk, Bytes, Extent, Timely, Assist;
    match step
    case Alloc(klass, grant) =>
      var s1 := Assist(s, klass);
      if !Wanting(s1, klass) {
        ServeInv(s1, klass);
      } else if grant.Some? {
        GrowInv(s1, klass, grant.value);
      }
    case SweepOne => PopSweepInv(s);
    case EndSweep => Relabel(s, s.(sweeping := false));
    case Mark(live, order) => MarkInv(s, live, order);
    case Begin => Relabel(s, s.(tx := Some(s.serial)));
    case Commit => Relabel(s, s.(tx := None));
    case Rollback => RollbackInv(s);
  }

  lemma {:induction false} Relabel(s: State, r: State)
    requires Inv(s) && r == s.(sweeping := r.sweeping, tx := r.tx) && ClockOk(r) && (r.work != [] ==> r.sweeping)
    ensures Inv(r)
  {
    hide SpanOk, Bytes, Extent;
    assert ListsOk(r) by { SameLists(s, r); }
    forall id | 0 <= id < |r.spans| ensures SpanInv(r, id) {
      assert SpanInv(s, id);
    }
  }

  // ------------------------------------------------------------------------ what is freed

  /** Slot k of span id holds the object with this serial. */
  ghost predicate Alive(s: State, id: nat, k: nat, serial: nat) {
    serial > 0 && id < |s.spans| && s.spans[id].Some? && k < |s.spans[id].value.slots|
        && s.spans[id].value.slots[k].serial == serial
  }

  ghost predicate IsMarked(s: State, id: nat, k: nat)
    requires id < |s.spans| && s.spans[id].Some? && k < |s.spans[id].value.slots|
  {
    s.spans[id].value.slots[k].marked
  }

  /** The object is still there, with its mark as it was. */
  ghost predicate Kept(s: State, r: State, id: nat, k: nat, serial: nat)
    requires Alive(s, id, k, serial)
  {
    Alive(r, id, k, serial) && IsMarked(r, id, k) == IsMarked(s, id, k)
  }

  lemma {:induction false} PopSweepFate(s: State, id: nat, k: nat, serial: nat)
    requires Inv(s) && s.work != [] && Alive(s, id, k, serial)
    ensures var top, r := s.work[|s.work| - 1], PopSweep(s);
            && r.epoch == s.epoch && r.serial == s.serial
            && (if id == top && !IsMarked(s, id, k) then !Alive(r, id, k, serial) && serial <= s.epoch
                else Kept(s, r, id, k, serial))
  {
    hide SpanOk, Bytes, Extent, Base;
    assert WorkOk(s) && |s.avail| == CLASSES && SpanInv(s, id) by { Parts(s); }
    var top := s.work[|s.work| - 1];
    assert SpanInv(s, top) by { Parts(s); }
    var sp := s.spans[top].value;
    FreeWhereExact(sp, UNMARKED, 0);
    var sp1 := FreeWhere(sp, UNMARKED, 0);
    assert top in s.work;
    if sp1.used == 0 {
      NoneLive(sp1);
    }
  }

  lemma {:induction false} AssistFate(s: State, klass: nat, id: nat, k: nat, serial: nat)
    requires Inv(s) && Alive(s, id, k, serial)
    ensures var r := Assist(s, klass);
            && r.epoch == s.epoch && r.serial == s.serial
            && (Kept(s, r, id, k, serial)
                || (!IsMarked(s, id, k) && id in s.work && serial <= s.epoch && !Alive(r, id, k, serial)))
    decreases |s.work|
  {
    hide Inv, PopSweep, IsMarked;
    assert |s.avail| == CLASSES && WorkOk(s) by { Parts(s); }
    if Wanting(s, klass) && s.work != [] {
      PopSweepInv(s);
      PopSweepFate(s, id, k, serial);
      var r := PopSweep(s);
      if Alive(r, id, k, serial) {
        AssistFate(r, klass, id, k, serial);
      } else {
        AssistDead(r, klass, id, k, serial);
      }
    }
  }

  /** A slot handed out changes nothing else. */
  lemma {:induction false} ServeFate(s: State, klass: nat, id: nat, k: nat, serial: nat)
    requires Inv(s) && klass < CLASSES && s.avail[klass] != [] && serial <= s.serial
    ensures var x := s.avail[klass][0];
            && x < |s.spans| && s.spans[x].Some? && s.spans[x].value.free != []
            && s.spans[x].value.free[0] < |s.spans[x].value.slots|
            && var r := Serve(s, x);
               r.epoch == s.epoch && (Alive(s, id, k, serial) ==> Kept(s, r, id, k, serial))
                   && (Alive(r, id, k, serial) ==> Alive(s, id, k, serial))
  {
    hide SpanOk, Bytes, Extent, SpanInv, ListedOk, WorkOk, OwnerOk;
    ServeInv(s, klass);
    var x := s.avail[klass][0];
    var sp, r := s.spans[x].value, Serve(s, x);
    assert r.spans == s.spans[x := Some(SlotTake(sp, s.serial + 1))];
    assert SlotTake(sp, s.serial + 1).slots == sp.slots[sp.free[0] := Slot(s.serial + 1, false)];
  }

  lemma {:induction false} GrowFate(s: State, klass: nat, e: Grant, id: nat, k: nat, serial: nat)
    requires |s.avail| == CLASSES && e.count > 0 && serial <= s.serial
    ensures var r := Grow(s, klass, e);
            r.epoch == s.epoch && (Alive(s, id, k, serial) ==> Kept(s, r, id, k, serial))
                && (Alive(r, id, k, serial) ==> Alive(s, id, k, serial))
  {
  }

  /** Sweeping brings nothing back. */
  lemma {:induction false} AssistDead(s: State, klass: nat, id: nat, k: nat, serial: nat)
    requires Inv(s) && !Alive(s, id, k, serial)
    ensures !Alive(Assist(s, klass), id, k, serial) && Assist(s, klass).epoch == s.epoch
            && Assist(s, klass).serial == s.serial
    decreases |s.work|
  {
    hide Inv, SpanOk, Bytes, Extent, FreeWhere;
    assert |s.avail| == CLASSES && WorkOk(s) by { Parts(s); }
    if Wanting(s, klass) && s.work != [] {
      PopSweepInv(s);
      var top := s.work[|s.work| - 1];
      assert SpanInv(s, top) by { Parts(s); }
      FreeWhereExact(s.spans[top].value, UNMARKED, 0);
      AssistDead(PopSweep(s), klass, id, k, serial);
    }
  }

  lemma {:induction false} AllocFate(s: State, klass: nat, grant: Option<Grant>, id: nat, k: nat, serial: nat)
    requires Inv(s) && Enabled(s, Alloc(klass, grant)) && Alive(s, id, k, serial) && serial <= s.serial
    ensures var r := Next(s, Alloc(klass, grant));
            || Kept(s, r, id, k, serial)
            || (!Alive(r, id, k, serial) && !IsMarked(s, id, k) && id in s.work && serial <= s.epoch)
  {
    hide Inv, Assist, Serve, Grow;
    AssistFate(s, klass, id, k, serial);
    var s1 := Assist(s, klass);
    assert |s1.avail| == CLASSES by { Parts(s1); }
    if !Wanting(s1, klass) {
      ServeFate(s1, klass, id, k, serial);
    } else if grant.Some? {
      GrowFate(s1, klass, grant.value, id, k, serial);
    }
  }

  /** Main result, step by step. What a step frees is either an unmarked object
      of a queued span, no younger than the mark, or, by rollback, exactly an
      object younger than the checkpoint. Everything else stays as it is, and
      only a new mark changes marks. */
  lemma {:induction false} StepFrees(s: State, step: Step, id: nat, k: nat, serial: nat)
    requires Inv(s) && Enabled(s, step) && Alive(s, id, k, serial)
    ensures var r := Next(s, step);
            match step
            case Rollback => if serial > s.tx.value then !Alive(r, id, k, serial) else Kept(s, r, id, k, serial)
            case Mark(live, _) => Alive(r, id, k, serial) && (IsMarked(r, id, k) <==> (id, k) in live)
            case SweepOne =>
                if id == s.work[|s.work| - 1] && !IsMarked(s, id, k) then !Alive(r, id, k, serial)
                && serial <= s.epoch else Kept(s, r, id, k, serial)
            case Alloc(_, _) =>
              || Kept(s, r, id, k, serial)
              || (!Alive(r, id, k, serial) && !IsMarked(s, id, k) && id in s.work && serial <= s.epoch)
            case _ => Kept(s, r, id, k, serial)
  {
    hide SpanOk, Bytes, Extent, Base, PopSweep, Assist, RollFrom;
    assert SpanInv(s, id) && |s.avail| == CLASSES by { Parts(s); }
    match step
    case Alloc(klass, grant) =>
      AllocFate(s, klass, grant, id, k, serial);
    case SweepOne => PopSweepFate(s, id, k, serial);
    case EndSweep =>
    case Mark(live, order) =>
    case Begin =>
    case Commit =>
    case Rollback =>
      RollbackInv(s);
      assert SpanRolled(s.spans[id], RollFrom(s, s.tx.value, |s.spans|).spans[id], s.tx.value);
  }

  lemma {:induction false} AllocDead(s: State, klass: nat, grant: Option<Grant>, id: nat, k: nat, serial: nat)
    requires Inv(s) && Enabled(s, Alloc(klass, grant)) && !Alive(s, id, k, serial) && serial <= s.serial
    ensures !Alive(Next(s, Alloc(klass, grant)), id, k, serial) && Next(s, Alloc(klass, grant)).epoch == s.epoch
  {
    hide Inv, Assist, Serve, Grow, Alive;
    AssistDead(s, klass, id, k, serial);
    var s1 := Assist(s, klass);
    assert |s1.avail| == CLASSES by { Parts(s1); }
    if !Wanting(s1, klass) {
      ServeFate(s1, klass, id, k, serial);
    } else if grant.Some? {
      GrowFate(s1, klass, grant.value, id, k, serial);
    }
  }

  /** What has been freed and is no younger than the mark never comes back. */
  lemma {:induction false} StepDead(s: State, step: Step, id: nat, k: nat, serial: nat)
    requires Inv(s) && Enabled(s, step) && !Alive(s, id, k, serial) && serial <= s.epoch
    ensures !Alive(Next(s, step), id, k, serial) && s.epoch <= Next(s, step).epoch
  {
    hide SpanOk, Bytes, Extent, Base, PopSweep, Assist, RollFrom;
    assert |s.avail| == CLASSES && ClockOk(s) && WorkOk(s) by { Parts(s); }
    match step
    case Alloc(klass, grant) =>
      AllocDead(s, klass, grant, id, k, serial);
    case SweepOne => SweepDead(s, id, k, serial);
    case EndSweep =>
    case Mark(live, order) =>
    case Begin =>
    case Commit =>
    case Rollback =>
      RollbackInv(s);
      var r := RollFrom(s, s.tx.value, |s.spans|);
      if id < |s.spans| {
        assert SpanRolled(s.spans[id], r.spans[id], s.tx.value);
      }
  }

  lemma {:induction false} SweepDead(s: State, id: nat, k: nat, serial: nat)
    requires Inv(s) && s.work != [] && !Alive(s, id, k, serial)
    ensures !Alive(PopSweep(s), id, k, serial) && PopSweep(s).epoch == s.epoch
  {
    hide SpanOk, Bytes, Extent, Base, FreeWhere;
    assert |s.avail| == CLASSES && WorkOk(s) by { Parts(s); }
    var top := s.work[|s.work| - 1];
    assert SpanInv(s, top) by { Parts(s); }
    FreeWhereExact(s.spans[top].value, UNMARKED, 0);
  }

  ghost predicate Init(s: State) {
    && s.spans == [] && s.avail == seq(CLASSES, _ => []) && s.work == [] && !s.sweeping && s.serial == 0 && s.bytes == 0
    && s.extent == 0 && s.owner == map[] && s.tx.None? && s.epoch == 0
  }

  ghost predicate Run(states: seq<State>, steps: seq<Step>) {
    && |states| == |steps| + 1 && Init(states[0])
    && forall i :: 0 <= i < |steps| ==> Inv(states[i]) ==>
        Enabled(states[i], steps[i]) && states[i + 1] == Next(states[i], steps[i])
  }

  lemma RunStep(states: seq<State>, steps: seq<Step>, i: nat)
    requires Run(states, steps) && i < |steps| && Inv(states[i])
    ensures Enabled(states[i], steps[i]) && states[i + 1] == Next(states[i], steps[i])
  {
    hide Inv, Enabled, Next, Init;
  }

  lemma {:induction false} RunInv(states: seq<State>, steps: seq<Step>, i: nat)
    requires Run(states, steps) && i < |states|
    ensures Inv(states[i])
    decreases i
  {
    hide Next, Enabled;
    if i == 0 {
      assert Inv(states[0]);
    } else {
      RunInv(states, steps, i - 1);
      RunStep(states, steps, i - 1);
      StepInv(states[i - 1], steps[i - 1]);
    }
  }

  /** Main result over runs: until the next mark, whatever allocation, sweeping
      and rollback interleave, a marked object stays. */
  lemma {:induction false} MarkedSurvives(states: seq<State>, steps: seq<Step>, i: nat, j: nat, id: nat, k: nat,
                                          serial: nat)
    requires Run(states, steps) && i <= j < |states| && (forall n :: i <= n < j ==> !steps[n].Mark?)
    requires Alive(states[i], id, k, serial) && IsMarked(states[i], id, k)
    ensures Kept(states[i], states[j], id, k, serial)
    decreases j
  {
    hide Inv, Next, Init;
    if i < j {
      MarkedSurvives(states, steps, i, j - 1, id, k, serial);
      RunInv(states, steps, j - 1);
      RunStep(states, steps, j - 1);
      var s := states[j - 1];
      StepFrees(s, steps[j - 1], id, k, serial);
      MarkedIsOld(s, id, k, serial);
    }
  }

  lemma {:induction false} MarkedIsOld(s: State, id: nat, k: nat, serial: nat)
    requires Inv(s) && Alive(s, id, k, serial) && IsMarked(s, id, k)
    ensures serial <= s.epoch && (s.tx.Some? ==> serial <= s.tx.value)
  {
    assert SpanInv(s, id) && ClockOk(s);
  }

  /** Nor is an object allocated since the mark ever swept: only a rollback to
      before it takes it away. */
  lemma {:induction false} YoungSurvives(states: seq<State>, steps: seq<Step>, i: nat, j: nat, id: nat, k: nat,
                                         serial: nat)
    requires Run(states, steps) && i <= j < |states| && (forall n :: i <= n < j ==> !steps[n].Mark?)
    requires forall n :: i <= n < j && steps[n].Rollback? && states[n].tx.Some? ==> serial <= states[n].tx.value
    requires Alive(states[i], id, k, serial) && serial > states[i].epoch
    ensures Kept(states[i], states[j], id, k, serial) && states[j].epoch == states[i].epoch
    decreases j
  {
    hide Inv, Init;
    if i < j {
      YoungSurvives(states, steps, i, j - 1, id, k, serial);
      RunInv(states, steps, j - 1);
      RunStep(states, steps, j - 1);
      StepFrees(states[j - 1], steps[j - 1], id, k, serial);
      EpochKept(states[j - 1], steps[j - 1]);
    }
  }

  lemma {:induction false} EpochKept(s: State, step: Step)
    requires Inv(s) && Enabled(s, step) && !step.Mark?
    ensures Next(s, step).epoch == s.epoch
  {
    hide Assist, PopSweep, RollFrom;
    match step
    case Alloc(klass, grant) =>
      AssistDead(s, klass, 0, 0, 0);
      var s1 := Assist(s, klass);
      if !Wanting(s1, klass) {
        ServeInv(s1, klass);
      }
    case SweepOne => SweepDead(s, 0, 0, 0);
    case Rollback => RollbackInv(s);
    case _ =>
  }

  /** Once the queue is empty nothing unmarked of that age is left, the free
      lists, use counts and byte counts agree with the slots, and every span
      with room can be allocated from. */
  lemma {:induction false} SweptClean(states: seq<State>, steps: seq<Step>, i: nat, id: nat, k: nat, serial: nat)
    requires Run(states, steps) && i < |states| && states[i].work == [] && Alive(states[i], id, k, serial)
             && serial <= states[i].epoch
    ensures IsMarked(states[i], id, k)
    ensures states[i].bytes == Bytes(states[i].spans) && states[i].extent == Extent(states[i].spans)
            && OwnerOk(states[i])
    ensures SpanOk(states[i].spans[id].value)
  {
    RunInv(states, steps, i);
    assert SpanInv(states[i], id);
  }

  /** Garbage stays garbage: a freed object that was no younger than the mark is
      never seen again, not even across later marks. */
  lemma {:induction false} DeadStays(states: seq<State>, steps: seq<Step>, i: nat, j: nat, id: nat, k: nat, serial: nat)
    requires Run(states, steps) && i <= j < |states| && !Alive(states[i], id, k, serial) && serial <= states[i].epoch
    ensures !Alive(states[j], id, k, serial) && serial <= states[j].epoch
    decreases j
  {
    hide Inv, Next, Enabled, Init, Alive;
    if i < j {
      DeadStays(states, steps, i, j - 1, id, k, serial);
      RunInv(states, steps, j - 1);
      RunStep(states, steps, j - 1);
      StepDead(states[j - 1], steps[j - 1], id, k, serial);
    }
  }

  /** Until it is freed an unmarked object stays as it is. */
  lemma {:induction false} KeptOrFreed(states: seq<State>, steps: seq<Step>, i: nat, j: nat, id: nat, k: nat,
                                       serial: nat)
    requires Run(states, steps) && i <= j < |states| && (forall n :: i <= n < j ==> !steps[n].Mark?)
    requires Alive(states[i], id, k, serial) && serial <= states[i].epoch
    ensures states[j].epoch == states[i].epoch
    ensures !Alive(states[j], id, k, serial) || Kept(states[i], states[j], id, k, serial)
    decreases j
  {
    hide Inv, Init, Next;
    if i < j {
      KeptOrFreed(states, steps, i, j - 1, id, k, serial);
      RunInv(states, steps, j - 1);
      RunStep(states, steps, j - 1);
      EpochKept(states[j - 1], steps[j - 1]);
      if Alive(states[j - 1], id, k, serial) {
        StepFrees(states[j - 1], steps[j - 1], id, k, serial);
      } else {
        StepDead(states[j - 1], steps[j - 1], id, k, serial);
      }
    }
  }

  /** Main result over runs: what was alive, unmarked and no younger than the mark
      is freed by the time that mark's queue is empty, whichever of the sweeper
      and the assisting allocations got to it; by one step, and for good. */
  lemma {:induction false} UnmarkedFreedOnce(states: seq<State>, steps: seq<Step>, i: nat, j: nat, id: nat, k: nat,
                                             serial: nat)
    returns (n: nat)
    requires Run(states, steps) && i <= j < |states| && (forall m :: i <= m < j ==> !steps[m].Mark?)
    requires Alive(states[i], id, k, serial) && !IsMarked(states[i], id, k) && serial <= states[i].epoch
    requires states[j].work == []
    ensures i <= n < j
    ensures forall m :: i <= m <= n ==> Alive(states[m], id, k, serial)
    ensures forall m :: n < m < |states| ==> !Alive(states[m], id, k, serial)
  {
    hide Inv, Init, Next, Enabled, Alive, IsMarked, Kept;
    KeptOrFreed(states, steps, i, j, id, k, serial);
    assert !Alive(states[j], id, k, serial) by { UnmarkedGone(states, steps, i, j, id, k, serial); }
    n := i;
    while Alive(states[n + 1], id, k, serial)
      invariant i <= n < j && forall m :: i <= m <= n ==> Alive(states[m], id, k, serial)
      decreases j - n
    {
      n := n + 1;
    }
    forall m | n < m < |states| ensures !Alive(states[m], id, k, serial) {
      KeptOrFreed(states, steps, i, n + 1, id, k, serial);
      DeadStays(states, steps, n + 1, m, id, k, serial);
    }
  }

  lemma {:induction false} UnmarkedGone(states: seq<State>, steps: seq<Step>, i: nat, j: nat, id: nat, k: nat,
                                        serial: nat)
    requires Run(states, steps) && i <= j < |states| && Alive(states[i], id, k, serial) && !IsMarked(states[i], id, k)
    requires states[j].work == [] && serial <= states[j].epoch
    requires !Alive(states[j], id, k, serial) || Kept(states[i], states[j], id, k, serial)
    ensures !Alive(states[j], id, k, serial)
  {
    hide Run;
    if Alive(states[j], id, k, serial) {
      SweptClean(states, steps, j, id, k, serial);
    }
  }
}
