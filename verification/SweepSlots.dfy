/**
  Objects as ranges of bytes (pkg/plan/src/gc2.c:13-17, 299-331, 393-407): size classes,
  how an extent is cut into slots, and the way back from an address to its slot. In every
  run no two objects share a byte, each is as large as was asked for, and an address finds
  exactly the object that begins there.
 */
module SweepSlots {
  import opened Basics
  import opened Slabs
  import opened Sweep
  import opened SweepLaws
  import opened SweepPages

  const PAGE: nat := 65536
  const SIZES: seq<nat> := [16, 32, 48, 64, 96, 128, 192, 256, 384, 512, 768, 1024, 1536, 2048, 4096]

  // ---------------------------------------------------------------------- size classes

  /** The class that serves a request: the least one large enough, or 15 for a span of its
      own. */
  ghost predicate ClassFor(bytes: nat, klass: nat) {
    klass <= 15 && (klass < 15 ==> SIZES[klass] >= bytes) && forall j :: 0 <= j < klass ==> SIZES[j] < bytes
  }

  method Classify(bytes: nat) returns (klass: nat)
    ensures ClassFor(bytes, klass)
  {
    klass := 0;
    while klass < |SIZES| && SIZES[klass] < bytes
      invariant klass <= 15 && forall j :: 0 <= j < klass ==> SIZES[j] < bytes
    {
      klass := klass + 1;
    }
  }

  lemma ClassUnique(bytes: nat, a: nat, b: nat)
    requires ClassFor(bytes, a) && ClassFor(bytes, b)
    ensures a == b
  {
  }

  /** A request for so many bytes: the least run of pages that holds them, cut into slots of
      its class or left whole. */
  ghost predicate Sized(ask: Ask, bytes: nat) {
    && ask.Request? && ClassFor(bytes, ask.klass)
    && bytes <= Pow2(ask.need) * PAGE && (ask.need > 0 ==> Pow2(ask.need - 1) * PAGE < bytes)
    && ask.stride == (if ask.klass < 15 then SIZES[ask.klass] else Pow2(ask.need) * PAGE)
    && ask.stride > 0 && ask.count == Pow2(ask.need) * PAGE / ask.stride
  }

  ghost predicate Fitting(ask: Ask) {
    ask.Request? ==> exists bytes: nat :: Sized(ask, bytes)
  }

  /** The slots of a span lie in its extent, and are of its class. */
  ghost predicate Cut(sp: Span) {
    && sp.stride > 0 && |sp.slots| * sp.stride <= sp.pages * PAGE
    && (if sp.klass < 15 then sp.stride == SIZES[sp.klass] else sp.stride == sp.pages * PAGE)
  }

  ghost predicate AllCut(spans: seq<Option<Span>>) {
    forall id: nat :: id < |spans| && spans[id].Some? ==> Cut(spans[id].value)
  }

  lemma CutFewer(xs: seq<Option<Span>>, ys: seq<Option<Span>>)
    requires AllCut(xs) && Fewer(xs, ys)
    ensures AllCut(ys)
  {
    forall id: nat | id < |ys| && ys[id].Some? ensures Cut(ys[id].value) {
      assert SameLayout(xs[id].value, ys[id].value);
    }
  }

  lemma SizedCut(ask: Ask, bytes: nat, sp: Span)
    requires Sized(ask, bytes) && sp.pages == Pow2(ask.need) && sp.stride == ask.stride && sp.klass == ask.klass
             && |sp.slots| == ask.count
    ensures Cut(sp)
  {
    var all := Pow2(ask.need) * PAGE;
    assert all / ask.stride * ask.stride <= all;
  }

  lemma {:induction false} AfterCut(h: Heap, k: nat, ask: Ask)
    requires HeapOk(h, k) && Admitted(h, ask) && Fitting(ask) && AllCut(h.s.spans)
    ensures AllCut(After(h, k, ask).s.spans)
  {
    hide Inv, Backed, Cut, Shed, Fewer, Assist, Sized;
    AskEnabled(h, k, ask);
    var step := StepOf(h, k, ask);
    StepInv(h.s, step);
    var s1 := Next(h.s, step);
    assert After(h, k, ask).s == s1;
    if step.Alloc? && step.grant.Some? {
      var s0 := Assist(h.s, step.klass);
      AssistFewer(h.s, step.klass);
      CutFewer(h.s.spans, s0.spans);
      assert |s0.avail| == CLASSES by { Parts(s0); }
      GrownSpans(s0, step.klass, step.grant.value);
      var bytes: nat :| Sized(ask, bytes);
      SizedCut(ask, bytes, s1.spans[|s1.spans| - 1].value);
    } else {
      StepFewer(h.s, step);
      CutFewer(h.s.spans, s1.spans);
    }
  }

  /** Runs in which every request is for some number of bytes. */
  ghost predicate SizedRun(heaps: seq<Heap>, asks: seq<Ask>, k: nat) {
    PagedRun(heaps, asks, k) && forall i :: 0 <= i < |asks| ==> Fitting(asks[i])
  }

  lemma {:induction false} AlwaysCut(heaps: seq<Heap>, asks: seq<Ask>, k: nat, i: nat)
    requires SizedRun(heaps, asks, k) && i < |heaps|
    ensures HeapOk(heaps[i], k) && AllCut(heaps[i].s.spans)
    decreases i
  {
    hide HeapOk, After, Admitted, Fitting, Cut;
    AlwaysBacked(heaps, asks, k, i);
    if i > 0 {
      AlwaysCut(heaps, asks, k, i - 1);
      assert Stepped(heaps[i - 1], asks[i - 1], heaps[i - 1 + 1], k);
      AfterCut(heaps[i - 1], k, asks[i - 1]);
    }
  }

  // ----------------------------------------------------------------------- addresses

  /** Where slot `k` of a span begins, counted from the start of the window. */
  function Address(sp: Span, k: nat): (r: nat) {
    sp.page * PAGE + k * sp.stride
  }

  ghost predicate InSlot(sp: Span, k: nat, x: nat) {
    Address(sp, k) <= x < Address(sp, k) + sp.stride
  }

  ghost predicate IsSlot(s: State, id: nat, k: nat) {
    id < |s.spans| && s.spans[id].Some? && k < |s.spans[id].value.slots|
  }

  /** Slots lie in the pages of their span. */
  lemma {:induction false} SlotInExtent(sp: Span, k: nat, x: nat)
    requires Cut(sp) && k < |sp.slots| && InSlot(sp, k, x)
    ensures InExtent(sp, x / PAGE)
  {
    assert (k + 1) * sp.stride <= |sp.slots| * sp.stride;
    assert sp.page * PAGE <= x < (sp.page + sp.pages) * PAGE;
    Pages(sp.page, sp.page + sp.pages, x);
  }

  lemma Pages(lo: nat, hi: nat, x: nat)
    requires lo * PAGE <= x < hi * PAGE
    ensures lo <= x / PAGE < hi
  {
  }

  lemma {:induction false} SameSlot(sp: Span, k: nat, l: nat, x: nat)
    requires sp.stride > 0 && InSlot(sp, k, x) && InSlot(sp, l, x)
    ensures k == l
  {
    Further(k, l, sp.stride);
    Further(l, k, sp.stride);
  }

  lemma {:induction false} Further(k: nat, l: nat, n: nat)
    ensures k < l ==> k * n + n <= l * n
    decreases l
  {
    if k + 1 < l {
      Further(k, l - 1, n);
      assert l * n == (l - 1) * n + n;
    } else if k + 1 == l {
      assert l * n == k * n + n;
    }
  }

  /** Main result: in every run no two slots, of one span or of two, share a byte. */
  lemma {:induction false} NoOverlap(heaps: seq<Heap>, asks: seq<Ask>, k: nat, i: nat, id: nat, a: nat, j: nat,
                                     b: nat, x: nat)
    requires SizedRun(heaps, asks, k) && i < |heaps| && IsSlot(heaps[i].s, id, a) && IsSlot(heaps[i].s, j, b)
    requires InSlot(heaps[i].s.spans[id].value, a, x) && InSlot(heaps[i].s.spans[j].value, b, x)
    ensures id == j && a == b
  {
    hide SizedRun, Cut, InSlot, InExtent, Backed;
    AlwaysCut(heaps, asks, k, i);
    var s := heaps[i].s;
    SlotInExtent(s.spans[id].value, a, x);
    SlotInExtent(s.spans[j].value, b, x);
    assert OwnerOk(s) by { Parts(s); }
    OwnerApart(s);
    assert Holds(s.spans, id, x / PAGE) && Holds(s.spans, j, x / PAGE);
    StridePositive(s.spans[id].value);
    SameSlot(s.spans[id].value, a, b, x);
  }

  lemma StridePositive(sp: Span)
    requires Cut(sp)
    ensures sp.stride > 0
  {
  }

  // ---------------------------------------------------------------- from address to slot

  /** find_slot: the page map, then a whole number of strides, then a live slot. */
  function FindSlot(s: State, address: nat): (r: Option<(nat, nat)>) {
    if address / PAGE !in s.owner then None
    else
      var id := s.owner[address / PAGE];
      if id >= |s.spans| || s.spans[id].None? then None
      else
        var sp := s.spans[id].value;
        var off := address - sp.page * PAGE;
        if off < 0 || sp.stride == 0 || off % sp.stride != 0 || off / sp.stride >= |sp.slots| then None
        else if sp.slots[off / sp.stride].serial == 0 then None
        else Some((id, off / sp.stride))
  }

  /** Main result: an address finds an object exactly when that object begins there. */
  lemma {:induction false} FindsExactly(heaps: seq<Heap>, asks: seq<Ask>, k: nat, i: nat, address: nat, id: nat, a: nat)
    requires SizedRun(heaps, asks, k) && i < |heaps|
    ensures FindSlot(heaps[i].s, address) == Some((id, a)) <==>
              IsSlot(heaps[i].s, id, a) && IsLive(heaps[i].s.spans[id].value.slots[a])
              && Address(heaps[i].s.spans[id].value, a) == address
  {
    hide SizedRun, Cut, InExtent, Backed;
    AlwaysCut(heaps, asks, k, i);
    var s := heaps[i].s;
    if FindSlot(s, address) == Some((id, a)) {
      var sp := s.spans[id].value;
      Whole(sp, address - sp.page * PAGE);
    } else if IsSlot(s, id, a) && Address(s.spans[id].value, a) == address {
      var sp := s.spans[id].value;
      StridePositive(sp);
      SlotInExtent(sp, a, address);
      assert OwnerOk(s) by { Parts(s); }
      assert s.owner[address / PAGE] == id;
      Multiple(a, sp.stride);
    }
  }

  lemma Whole(sp: Span, off: nat)
    requires sp.stride > 0 && off % sp.stride == 0
    ensures off / sp.stride * sp.stride == off
  {
  }

  lemma Multiple(a: nat, n: nat)
    requires n > 0
    ensures a * n % n == 0 && a * n / n == a
  {
    var q, r := a * n / n, a * n % n;
    assert a * n == q * n + r;
    Further(q, a, n);
    Further(a, q, n);
  }

  /** Main result: whoever asks for so many bytes and is served gets a slot that long. */
  lemma {:induction false} LargeEnough(heaps: seq<Heap>, asks: seq<Ask>, k: nat, i: nat, bytes: nat)
                                       returns (id: nat, a: nat)
    requires SizedRun(heaps, asks, k) && i < |asks| && Sized(asks[i], bytes)
    ensures var s, r := heaps[i].s, heaps[i + 1].s;
            r.serial == s.serial || (Places(s, r, asks[i].klass, id, a) && r.spans[id].value.stride >= bytes)
  {
    hide Inv, Backed, Enabled, Assist, Next, Places, Shed;
    RunsAgree(heaps, asks, k, i);
    AlwaysCut(heaps, asks, k, i + 1);
    var step := StepOf(heaps[i], k, asks[i]);
    id, a := AllocLaw(heaps[i].s, step.klass, step.grant);
    var s, r := heaps[i].s, heaps[i + 1].s;
    if r.serial != s.serial {
      PlacesIn(s, r, asks[i].klass, id, a);
      assert Cut(r.spans[id].value);
      if asks[i].klass == 15 {
        OwnSpan(heaps[i], k, asks[i], id, a);
      }
    }
  }

  lemma PlacesIn(s: State, r: State, klass: nat, id: nat, a: nat)
    requires Places(s, r, klass, id, a)
    ensures id < |r.spans| && r.spans[id].Some? && r.spans[id].value.klass == klass
  {
  }

  /** A request that no class serves gets a new span. */
  lemma {:induction false} OwnSpan(h: Heap, k: nat, ask: Ask, id: nat, a: nat)
    requires HeapOk(h, k) && ask.Request? && ask.klass == 15 && Enabled(h.s, StepOf(h, k, ask))
    requires var r := Next(h.s, StepOf(h, k, ask)); r.serial != h.s.serial && Places(h.s, r, 15, id, a)
    ensures var r := Next(h.s, StepOf(h, k, ask));
            id < |r.spans| && r.spans[id].Some? && r.spans[id].value.stride == ask.stride
  {
    hide Inv, Backed, Assist, Shed;
    var step := StepOf(h, k, ask);
    var s1 := Assist(h.s, 15);
    AssistKeeps(h.s, 15);
    assert |s1.avail| == CLASSES by { Parts(s1); }
    if step.grant.Some? {
      GrownSpans(s1, 15, step.grant.value);
      GrowPlaces(s1, 15, step.grant.value);
    }
  }
}
