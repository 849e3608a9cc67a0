/**
  Where the sweep's extents come from (pkg/plan/src/gc2.c:173-190, 299-345): the
  slab heap and the buddy tree as one machine. Live blocks are proved to be exactly
  the spans' extents, so that every granted extent is new, every extent given back
  was live, and an empty heap leaves the tree whole.
 */
module SweepPages {
  import opened Basics
  import opened Slabs
  import opened Sweep
  import Buddy

  datatype Heap = Heap(s: State, t: Buddy.Block)

  /** A step of the machine. A request names the order of block a new span would
      take; every other step gives extents back at most. */
  datatype Ask = Request(klass: nat, need: nat, stride: nat, count: nat) | Other(step: Step)

  // ------------------------------------------------------------------ blocks and spans

  function OrderOf(n: nat): (r: nat) {
    if n <= 1 then 0 else 1 + OrderOf(n / 2)
  }

  lemma {:induction false} OrderPow(k: nat)
    ensures OrderOf(Pow2(k)) == k
    decreases k
  {
    if k > 0 {
      OrderPow(k - 1);
    }
  }

  /** Span `id` is the live block of order `order` at `at`. */
  ghost predicate Occupies(spans: seq<Option<Span>>, id: nat, at: int, order: nat) {
    && id < |spans| && spans[id].Some?
    && spans[id].value.page == at && spans[id].value.pages == Pow2(order)
  }

  ghost predicate SpanBacked(spans: seq<Option<Span>>, t: Buddy.Block, k: nat, id: nat)
    requires id < |spans|
  {
    spans[id].Some? ==>
      var sp, order := spans[id].value, OrderOf(spans[id].value.pages);
      sp.pages == Pow2(order) && Buddy.IsLive(t, k, sp.page, order)
  }

  ghost predicate BlockHeld(spans: seq<Option<Span>>, t: Buddy.Block, k: nat, at: int, order: nat) {
    Buddy.IsLive(t, k, at, order) ==> exists id: nat :: Occupies(spans, id, at, order)
  }

  /** The tree's live blocks are exactly the spans' extents. */
  ghost predicate Backed(spans: seq<Option<Span>>, t: Buddy.Block, k: nat) {
    && Buddy.Normal(t, k)
    && (forall id: nat :: id < |spans| ==> SpanBacked(spans, t, k, id))
    && (forall at: int, order: nat :: BlockHeld(spans, t, k, at, order))
  }

  /** No two spans share a page. */
  ghost predicate Apart(spans: seq<Option<Span>>) {
    forall i: nat, j: nat, p: nat :: Holds(spans, i, p) && Holds(spans, j, p) ==> i == j
  }

  ghost predicate Holds(spans: seq<Option<Span>>, id: nat, p: nat) {
    id < |spans| && spans[id].Some? && InExtent(spans[id].value, p)
  }

  lemma OwnerApart(s: State)
    requires OwnerOk(s)
    ensures Apart(s.spans)
  {
    forall i: nat, j: nat, p: nat | Holds(s.spans, i, p) && Holds(s.spans, j, p) ensures i == j {
      assert InExtent(s.spans[i].value, p) && InExtent(s.spans[j].value, p);
      assert s.owner[p] == i && s.owner[p] == j;
    }
  }

  /** Main step: the block the allocator takes holds no page of any span. */
  lemma {:induction false} GrantIsNew(s: State, t: Buddy.Block, k: nat, need: nat, stride: nat, count: nat)
    requires OwnerOk(s) && Backed(s.spans, t, k) && Buddy.Best(t, k) >= need && count > 0
    ensures GrantOk(s, Grant(Buddy.TakeAt(t, k, need), Pow2(need), stride, count))
  {
    hide Buddy.Best, Buddy.TakeAt, Buddy.Normal, Buddy.Used, Buddy.IsLive, Buddy.Slot, OrderOf, Pow2;
    var at := Buddy.TakeAt(t, k, need);
    Buddy.TakesVacant(t, k, need);
    forall p: nat | at <= p < at + Pow2(need) ensures p !in s.owner {
      if p in s.owner {
        var sp, order := s.spans[s.owner[p]].value, OrderOf(s.spans[s.owner[p]].value.pages);
        assert SpanBacked(s.spans, t, k, s.owner[p]);
        assert Buddy.IsLive(t, k, sp.page, order) && sp.page <= p < sp.page + Pow2(order);
        assert Buddy.CoveredBy(t, k, p);
        Buddy.UsedIsLive(t, k, p);
        assert false;
      }
    }
  }

  /** Taking a block for a new span. */
  lemma {:induction false} TakeBacked(spans: seq<Option<Span>>, t: Buddy.Block, k: nat, need: nat, sp: Span)
    requires Backed(spans, t, k) && Buddy.Best(t, k) >= need
    requires sp.page == Buddy.TakeAt(t, k, need) && sp.pages == Pow2(need)
    ensures Backed(spans + [Some(sp)], Buddy.Take(t, k, need), k)
  {
    hide Buddy.Best, Buddy.TakeAt, Buddy.Take, Buddy.Normal, Buddy.IsLive, OrderOf, Pow2;
    var more, t1 := spans + [Some(sp)], Buddy.Take(t, k, need);
    OrderPow(need);
    forall id: nat | id < |more| ensures SpanBacked(more, t1, k, id) {
      if more[id].Some? {
        var order := OrderOf(more[id].value.pages);
        Buddy.TakeAdds(t, k, need, more[id].value.page, order);
        if id < |spans| {
          assert SpanBacked(spans, t, k, id);
        }
      }
    }
    forall at: int, order: nat ensures BlockHeld(more, t1, k, at, order) {
      if Buddy.IsLive(t1, k, at, order) {
        Buddy.TakeAdds(t, k, need, at, order);
        if Buddy.IsLive(t, k, at, order) {
          assert BlockHeld(spans, t, k, at, order);
          var id: nat :| Occupies(spans, id, at, order);
          assert Occupies(more, id, at, order);
        } else {
          assert Occupies(more, |spans|, at, order);
        }
      }
    }
  }

  /** Giving a span's block back. */
  lemma {:induction false} GiveBacked(spans: seq<Option<Span>>, t: Buddy.Block, k: nat, id: nat)
    requires Backed(spans, t, k) && Apart(spans) && id < |spans| && spans[id].Some?
    ensures var order := OrderOf(spans[id].value.pages);
            Buddy.IsLive(t, k, spans[id].value.page, order)
            && Backed(spans[id := None], Buddy.Give(t, k, spans[id].value.page, order), k)
  {
    hide Buddy.Give, Buddy.Normal, Buddy.IsLive, OrderOf, Apart;
    var sp, order := spans[id].value, OrderOf(spans[id].value.pages);
    assert SpanBacked(spans, t, k, id);
    var less, t1 := spans[id := None], Buddy.Give(t, k, sp.page, order);
    forall j: nat | j < |less| ensures SpanBacked(less, t1, k, j) {
      if less[j].Some? {
        assert SpanBacked(spans, t, k, j);
        var other := OrderOf(less[j].value.pages);
        Buddy.GiveRemoves(t, k, sp.page, order, less[j].value.page, other);
        if less[j].value.page == sp.page {
          SamePage(spans, id, j);
        }
      }
    }
    forall at: int, o: nat ensures BlockHeld(less, t1, k, at, o) {
      if Buddy.IsLive(t1, k, at, o) {
        Buddy.GiveRemoves(t, k, sp.page, order, at, o);
        assert BlockHeld(spans, t, k, at, o);
        var j: nat :| Occupies(spans, j, at, o);
        assert j == id ==> o == order by { OrderPow(o); }
        assert Occupies(less, j, at, o);
      }
    }
  }

  /** Two spans that begin at one page are one, since no extent is empty. */
  lemma SamePage(spans: seq<Option<Span>>, i: nat, j: nat)
    requires Apart(spans) && i < |spans| && j < |spans| && spans[i].Some? && spans[j].Some?
    requires spans[i].value.pages > 0 && spans[j].value.pages > 0 && spans[i].value.page == spans[j].value.page
    ensures i == j
  {
    assert Holds(spans, i, spans[i].value.page) && Holds(spans, j, spans[i].value.page);
  }

  // ------------------------------------------------------------- what steps do to extents

  /** Some spans are gone; the others are where they were. */
  ghost predicate Fewer(xs: seq<Option<Span>>, ys: seq<Option<Span>>) {
    |xs| == |ys| && forall id: nat :: id < |xs| && ys[id].Some? ==>
        xs[id].Some? && SameLayout(xs[id].value, ys[id].value)
  }

  /** The same pages, cut into the same slots. */
  ghost predicate SameLayout(x: Span, y: Span) {
    y.page == x.page && y.pages == x.pages && y.stride == x.stride && y.klass == x.klass && |y.slots| == |x.slots|
  }

  lemma FewerTrans(xs: seq<Option<Span>>, ys: seq<Option<Span>>, zs: seq<Option<Span>>)
    requires Fewer(xs, ys) && Fewer(ys, zs)
    ensures Fewer(xs, zs)
  {
  }

  lemma {:induction false} SettleFewer(s: State, id: nat, drop: Slot -> bool)
    requires |s.avail| == CLASSES && id < |s.spans| && s.spans[id].Some? && SpanOk(s.spans[id].value)
    ensures var sp := s.spans[id].value; Fewer(s.spans, Settle(s, id, sp, FreeWhere(sp, drop, 0)).spans)
  {
    hide SpanOk, FreeWhere;
    FreeWhereExact(s.spans[id].value, drop, 0);
  }

  lemma {:induction false} AssistFewer(s: State, klass: nat)
    requires Inv(s)
    ensures Fewer(s.spans, Assist(s, klass).spans)
    decreases |s.work|
  {
    hide SpanOk, FreeWhere, Inv, Settle, WorkOk;
    assert |s.avail| == CLASSES by { Parts(s); }
    if Wanting(s, klass) && s.work != [] {
      PopFewer(s);
      PopSweepInv(s);
      PopSweepWork(s);
      AssistFewer(PopSweep(s), klass);
      FewerTrans(s.spans, PopSweep(s).spans, Assist(PopSweep(s), klass).spans);
    }
  }

  lemma {:induction false} PopFewer(s: State)
    requires Inv(s) && s.work != []
    ensures |s.avail| == CLASSES && WorkOk(s) && Fewer(s.spans, PopSweep(s).spans)
  {
    hide SpanOk, FreeWhere, Settle;
    var id := s.work[|s.work| - 1];
    assert SpanInv(s, id);
    SettleFewer(s.(work := s.work[..|s.work| - 1]), id, UNMARKED);
  }

  lemma {:induction false} RollFewer(s: State, c: nat, n: nat)
    requires Inv(s) && s.epoch <= c && n <= |s.spans|
    ensures |s.avail| == CLASSES && Fewer(s.spans, RollFrom(s, c, n).spans)
    decreases n
  {
    hide Inv, SpanOk, FreeWhere, Settle, Touched;
    assert |s.avail| == CLASSES by { Parts(s); }
    if n > 0 {
      var id := n - 1;
      if s.spans[id].Some? && Touched(s.spans[id].value, c) {
        var sp := s.spans[id].value;
        assert SpanOk(sp) by { assert SpanInv(s, id) by { Parts(s); } }
        RollOne(s, c, id);
        SettleFewer(s, id, Newer(c));
        SettleRolled(s, c, id);
        var r := Settle(s, id, sp, FreeWhere(sp, Newer(c), 0));
        RollFewer(r, c, n - 1);
        FewerTrans(s.spans, r.spans, RollFrom(r, c, n - 1).spans);
      } else {
        RollFewer(s, c, n - 1);
      }
    }
  }

  /** Whatever is not a new span only gives extents back. */
  lemma {:induction false} StepFewer(s: State, step: Step)
    requires Inv(s) && Enabled(s, step) && (step.Alloc? ==> step.grant.None?)
    ensures Fewer(s.spans, Next(s, step).spans)
  {
    hide Inv, Assist, RollFrom, FreeWhere;
    match step
    case Alloc(klass, _) =>
      AssistFewer(s, klass);
      var s1 := Assist(s, klass);
      assert |s1.avail| == CLASSES by { Parts(s1); }
      if !Wanting(s1, klass) {
        ServeInv(s1, klass);
        assert Fewer(s1.spans, Serve(s1, s1.avail[klass][0]).spans);
        FewerTrans(s.spans, s1.spans, Serve(s1, s1.avail[klass][0]).spans);
      }
    case SweepOne => PopFewer(s);
    case EndSweep =>
    case Mark(live, order) =>
    case Begin =>
    case Commit =>
    case Rollback =>
      assert ClockOk(s) by { Parts(s); }
      RollFewer(s, s.tx.value, |s.spans|);
  }

  // --------------------------------------------------------------- the tree keeps up

  /** The spans of `xs` below `n` that `ys` no longer has are given back. */
  ghost function Dropped(xs: seq<Option<Span>>, ys: seq<Option<Span>>, n: nat): (r: seq<Option<Span>>)
    requires |xs| == |ys|
  {
    seq(|xs|, i requires 0 <= i < |xs| => if i < n && ys[i].None? then None else xs[i])
  }

  ghost function Returned(t: Buddy.Block, k: nat, xs: seq<Option<Span>>, ys: seq<Option<Span>>,
                          n: nat): (r: Buddy.Block)
    requires Backed(xs, t, k) && Apart(xs) && n <= |xs| == |ys|
    ensures Backed(Dropped(xs, ys, n), r, k)
    decreases n
  {
    if n == 0 then
      assert Dropped(xs, ys, 0) == xs;
      t
    else
      var r := Returned(t, k, xs, ys, n - 1);
      var left := Dropped(xs, ys, n - 1);
      if xs[n - 1].Some? && ys[n - 1].None? then
        assert left[n - 1 := None] == Dropped(xs, ys, n);
        assert Apart(left) by { DroppedApart(xs, ys, n - 1); }
        GiveBacked(left, r, k, n - 1);
        Buddy.Give(r, k, xs[n - 1].value.page, OrderOf(xs[n - 1].value.pages))
      else
        assert left == Dropped(xs, ys, n);
        r
  }

  lemma DroppedApart(xs: seq<Option<Span>>, ys: seq<Option<Span>>, n: nat)
    requires Apart(xs) && |xs| == |ys|
    ensures Apart(Dropped(xs, ys, n))
  {
    forall i: nat, j: nat, p: nat | Holds(Dropped(xs, ys, n), i, p) && Holds(Dropped(xs, ys, n), j, p) ensures i == j {
      assert Holds(xs, i, p) && Holds(xs, j, p);
    }
  }

  /** The extents alone determine the tree, so the order of giving back is immaterial. */
  lemma {:induction false} BackedDetermines(xs: seq<Option<Span>>, t: Buddy.Block, u: Buddy.Block, k: nat)
    requires Backed(xs, t, k) && Backed(xs, u, k)
    ensures t == u
  {
    BackedIn(xs, t, u, k);
    BackedIn(xs, u, t, k);
    Buddy.LiveDetermines(t, u, k);
  }

  lemma {:induction false} BackedIn(xs: seq<Option<Span>>, t: Buddy.Block, u: Buddy.Block, k: nat)
    requires Backed(xs, t, k) && Backed(xs, u, k)
    ensures Buddy.LiveIn(t, u, k)
  {
    hide Buddy.IsLive, Buddy.Normal, OrderOf;
    forall at: int, order: nat | Buddy.IsLive(t, k, at, order) ensures Buddy.IsLive(u, k, at, order) {
      assert BlockHeld(xs, t, k, at, order);
      var id: nat :| Occupies(xs, id, at, order);
      assert SpanBacked(xs, u, k, id);
      OrderPow(order);
    }
  }

  /** Only extents matter. */
  lemma {:induction false} BackedSame(xs: seq<Option<Span>>, ys: seq<Option<Span>>, t: Buddy.Block, k: nat)
    requires Fewer(xs, ys) && Backed(Dropped(xs, ys, |xs|), t, k)
    ensures Backed(ys, t, k)
  {
    hide Buddy.IsLive, Buddy.Normal, OrderOf, Pow2;
    var zs := Dropped(xs, ys, |xs|);
    forall id: nat | id < |ys| ensures SpanBacked(ys, t, k, id) {
      assert SpanBacked(zs, t, k, id);
    }
    forall at: int, order: nat ensures BlockHeld(ys, t, k, at, order) {
      assert BlockHeld(zs, t, k, at, order);
      if Buddy.IsLive(t, k, at, order) {
        var id: nat :| Occupies(zs, id, at, order);
        assert Occupies(ys, id, at, order);
      }
    }
  }

  // ---------------------------------------------------------------------- the machine

  ghost predicate HeapOk(h: Heap, k: nat) {
    Inv(h.s) && Backed(h.s.spans, h.t, k)
  }

  /** Extents back to the tree, as the slab heap goes from `h.s` to `r`. */
  ghost function Shed(h: Heap, k: nat, r: State): (t: Buddy.Block)
    requires HeapOk(h, k) && Fewer(h.s.spans, r.spans)
    ensures Backed(r.spans, t, k)
  {
    assert Apart(h.s.spans) by { OwnerApart(h.s); }
    var t := Returned(h.t, k, h.s.spans, r.spans, |h.s.spans|);
    assert Backed(r.spans, t, k) by { BackedSame(h.s.spans, r.spans, t, k); }
    t
  }

  /** The step of the slab heap that an ask becomes: its grant is the allocator's. */
  ghost function StepOf(h: Heap, k: nat, ask: Ask): (step: Step)
    requires HeapOk(h, k)
  {
    match ask
    case Other(step) => step
    case Request(klass, need, stride, count) =>
      var s1 := Assist(h.s, klass);
      assert Fewer(h.s.spans, s1.spans) by { AssistFewer(h.s, klass); }
      var t1 := Shed(h, k, s1);
      Alloc(klass, if Wanting(s1, klass) && Buddy.Best(t1, k) >= need
                   then Some(Grant(Buddy.TakeAt(t1, k, need), Pow2(need), stride, count)) else None)
  }

  /** What is asked of the caller and of the tracer; nothing is asked of the allocator. */
  ghost predicate Admitted(h: Heap, ask: Ask)
    requires Inv(h.s)
  {
    match ask
    case Request(klass, _, _, count) => klass <= CLASSES && count > 0
    case Other(step) => !step.Alloc? && Enabled(h.s, step)
  }

  /** Every step of the slab heap is enabled: what the allocator grants is new. */
  lemma {:induction false} AskEnabled(h: Heap, k: nat, ask: Ask)
    requires HeapOk(h, k) && Admitted(h, ask)
    ensures Enabled(h.s, StepOf(h, k, ask))
  {
    hide Backed, Inv, Assist, Buddy.Best, Buddy.TakeAt, GrantOk;
    if ask.Request? {
      var s1 := Assist(h.s, ask.klass);
      assert OwnerOk(s1) && |s1.avail| == CLASSES by { Parts(s1); }
      AssistFewer(h.s, ask.klass);
      var t1 := Shed(h, k, s1);
      if Wanting(s1, ask.klass) && Buddy.Best(t1, k) >= ask.need {
        GrantIsNew(s1, t1, k, ask.need, ask.stride, ask.count);
      }
    }
  }

  ghost function After(h: Heap, k: nat, ask: Ask): (r: Heap)
    requires HeapOk(h, k) && Admitted(h, ask)
    ensures HeapOk(r, k)
  {
    AskEnabled(h, k, ask);
    var step := StepOf(h, k, ask);
    StepInv(h.s, step);
    var s1 := Next(h.s, step);
    if step.Alloc? && step.grant.Some? then
      AssistFewer(h.s, step.klass);
      var s0 := Assist(h.s, step.klass);
      var t0 := Shed(h, k, s0);
      GrownSpans(s0, step.klass, step.grant.value);
      var t1 := Buddy.Take(t0, k, ask.need);
      assert Backed(s1.spans, t1, k) by { TakeBacked(s0.spans, t0, k, ask.need, s1.spans[|s1.spans| - 1].value); }
      Heap(s1, t1)
    else
      StepFewer(h.s, step);
      Heap(s1, Shed(h, k, s1))
  }

  lemma GrownSpans(s: State, klass: nat, e: Grant)
    requires |s.avail| == CLASSES && e.count > 0
    ensures var r := Grow(s, klass, e);
            && |r.spans| == |s.spans| + 1 && r.spans[|s.spans|].Some? && r.spans == s.spans + [r.spans[|s.spans|]]
            && r.spans[|s.spans|].value.page == e.page && r.spans[|s.spans|].value.pages == e.pages
            && r.spans[|s.spans|].value.stride == e.stride && |r.spans[|s.spans|].value.slots| == e.count
            && r.spans[|s.spans|].value.klass == klass
  {
  }

  // -------------------------------------------------------------------------- runs

  ghost predicate Start(h: Heap) {
    Init(h.s) && h.t.Free?
  }

  ghost predicate PagedRun(heaps: seq<Heap>, asks: seq<Ask>, k: nat) {
    && |heaps| == |asks| + 1 && Start(heaps[0])
    && forall i :: 0 <= i < |asks| ==> Stepped(heaps[i], asks[i], heaps[i + 1], k)
  }

  ghost predicate Stepped(h: Heap, ask: Ask, r: Heap, k: nat) {
    HeapOk(h, k) ==> Admitted(h, ask) && r == After(h, k, ask)
  }

  /** Main result: in every run the live blocks are exactly the spans' extents. */
  lemma {:induction false} AlwaysBacked(heaps: seq<Heap>, asks: seq<Ask>, k: nat, i: nat)
    requires PagedRun(heaps, asks, k) && i < |heaps|
    ensures HeapOk(heaps[i], k)
    decreases i
  {
    hide Inv, After, Admitted;
    if i == 0 {
      StartOk(heaps[0], k);
    } else {
      AlwaysBacked(heaps, asks, k, i - 1);
      assert Stepped(heaps[i - 1], asks[i - 1], heaps[i - 1 + 1], k);
    }
  }

  lemma StartOk(h: Heap, k: nat)
    requires Start(h)
    ensures HeapOk(h, k)
  {
    NoneBacked(h.s.spans, k);
  }

  /** The slab heap of such a run is a run of its own machine, grants and all. */
  lemma {:induction false} RunsAgree(heaps: seq<Heap>, asks: seq<Ask>, k: nat, i: nat)
    requires PagedRun(heaps, asks, k) && i < |asks|
    ensures HeapOk(heaps[i], k) && Enabled(heaps[i].s, StepOf(heaps[i], k, asks[i]))
    ensures heaps[i + 1].s == Next(heaps[i].s, StepOf(heaps[i], k, asks[i]))
  {
    hide Inv, Admitted, Next, StepOf, Shed;
    AlwaysBacked(heaps, asks, k, i);
    assert Stepped(heaps[i], asks[i], heaps[i + 1], k);
    AskEnabled(heaps[i], k, asks[i]);
  }

  /** So everything proved of runs of the slab heap holds here, with nothing assumed
      of the allocator. */
  lemma {:induction false} AsRun(heaps: seq<Heap>, asks: seq<Ask>, k: nat)
                                 returns (states: seq<State>, steps: seq<Step>)
    requires PagedRun(heaps, asks, k)
    ensures |states| == |heaps| && (forall i :: 0 <= i < |heaps| ==> states[i] == heaps[i].s) && Run(states, steps)
  {
    hide Inv, Backed, Enabled, Next, StepOf, After, Admitted, Init;
    states := seq(|heaps|, i requires 0 <= i < |heaps| => heaps[i].s);
    forall i: nat | i < |heaps| ensures HeapOk(heaps[i], k) {
      AlwaysBacked(heaps, asks, k, i);
    }
    steps := seq(|asks|, i requires 0 <= i < |asks| && HeapOk(heaps[i], k) => StepOf(heaps[i], k, asks[i]));
    forall i | 0 <= i < |steps|
      ensures Inv(states[i]) ==> Enabled(states[i], steps[i]) && states[i + 1] == Next(states[i], steps[i])
    {
      RunsAgree(heaps, asks, k, i);
    }
  }

  lemma {:induction false} NoneBacked(spans: seq<Option<Span>>, k: nat)
    requires forall id :: 0 <= id < |spans| ==> spans[id].None?
    ensures Backed(spans, Buddy.Free, k)
  {
    forall at: int, order: nat ensures BlockHeld(spans, Buddy.Free, k, at, order) {
    }
  }

  /** A heap without spans leaves nothing behind: the tree is whole again. */
  lemma {:induction false} EmptyIsWhole(heaps: seq<Heap>, asks: seq<Ask>, k: nat, i: nat)
    requires PagedRun(heaps, asks, k) && i < |heaps| && forall id :: 0 <= id < |heaps[i].s.spans| ==>
             heaps[i].s.spans[id].None?
    ensures heaps[i].t == Buddy.Free
  {
    hide Inv, PagedRun, Backed;
    AlwaysBacked(heaps, asks, k, i);
    NoneBacked(heaps[i].s.spans, k);
    BackedDetermines(heaps[i].s.spans, heaps[i].t, Buddy.Free, k);
  }
}
