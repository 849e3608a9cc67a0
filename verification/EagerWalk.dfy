/**
  The eager pass as a function of the code (pkg/plan/src/bytecode.c:503-705): the
  producers of one consumer, the walk that tracks the operand slots, and the code
  it leaves. The code is proved to keep its meaning from every block leader, and
  from a pc the walk does not know to be one wherever it holds no slots there.
 */
module EagerWalk {
  import opened Bytecode
  import opened EagerBlocks
  import opened EagerPass

  /** What one consumer leaves. */
  datatype Pass = Pass(code: seq<Instr>, slots: seq<Slot>, last: int)

  /** The walk in front of an instruction. */
  datatype Walk = Walk(code: seq<Instr>, live: bool, begins: bool, slots: seq<Slot>, last: int)

  // ------------------------------------------------------------------- one consumer

  /** Every earlier strict operand is a value, and was one before the producer at `q`. */
  predicate Ordered(ctx: Context, i: Instr, pc: nat, slots: seq<Slot>, q: int, k: nat)
    requires Consumer(i) && k <= Takes(i) <= |slots| && Tracked(slots, pc)
  {
    forall j: nat :: j < k && MaskAt(ctx, i, j) ==> Early(slots, |slots| - Takes(i) + j, q, pc)
  }

  predicate Early(slots: seq<Slot>, j: nat, q: int, pc: nat)
    requires j < |slots| && Tracked(slots, pc)
  {
    slots[Resolve(slots, j)].whnf && slots[Resolve(slots, j)].evalPc < q
  }

  function Settle(slots: seq<Slot>, m: nat, q: nat): (r: seq<Slot>)
    requires m < |slots|
  {
    slots[m := slots[m].(producer := -1, whnf := true, evalPc := q)]
  }

  /** Enter the producers of the consumer `i` at `pc`, from its k-th operand on. */
  function Consume(ctx: Context, i: Instr, pc: nat, code: seq<Instr>, slots: seq<Slot>, last: int, k: nat): (r: Pass)
    requires pc <= |code| && Consumer(i) && Takes(i) <= |slots| && Tracked(slots, pc)
    ensures |r.slots| == |slots| && Tracked(r.slots, pc) && OnlyConverted(code, r.code, pc)
            && (last < pc ==> r.last < pc)
    decreases 32 - k
  {
    if k >= Takes(i) || k >= 32 then Pass(code, slots, last)
    else
      var m := Resolve(slots, |slots| - Takes(i) + k);
      var q := slots[m].producer;
      if !MaskAt(ctx, i, k) || slots[m].whnf then Consume(ctx, i, pc, code, slots, last, k + 1)
      else if q < 0 || last >= q || !Ordered(ctx, i, pc, slots, q, k) || Converted(code[q]) == code[q] then
        Pass(code, slots, last)
      else Consume(ctx, i, pc, code[q := Converted(code[q])], Settle(slots, m, q), q, k + 1)
  }

  lemma OnlyConvertedTrans(x: seq<Instr>, y: seq<Instr>, z: seq<Instr>, pc: nat, n: nat)
    requires OnlyConverted(x, y, pc) && OnlyConverted(y, z, n) && pc <= n
    ensures OnlyConverted(x, z, n)
  {
  }

  lemma ConsumeUnfold(ctx: Context, i: Instr, pc: nat, code: seq<Instr>, slots: seq<Slot>, last: int, k: nat)
    requires pc < |code| && Consumer(i) && Takes(i) <= |slots| && Tracked(slots, pc)
    ensures Consume(ctx, i, pc, code, slots, last, k) ==
            if k >= Takes(i) || k >= 32 then Pass(code, slots, last)
            else
              var m := Resolve(slots, |slots| - Takes(i) + k);
              var q := slots[m].producer;
              if !MaskAt(ctx, i, k) || slots[m].whnf then Consume(ctx, i, pc, code, slots, last, k + 1)
              else if q < 0 || last >= q || !Ordered(ctx, i, pc, slots, q, k) || Converted(code[q]) == code[q] then
                Pass(code, slots, last)
              else Consume(ctx, i, pc, code[q := Converted(code[q])], Settle(slots, m, q), q, k + 1)
  {
  }

  /** Whatever the consumer's producers become, meaning and facts are kept. */
  lemma {:induction false} ConsumeKeeps(ctx: Context, leads: seq<bool>, b: nat, i: Instr, pc: nat, code: seq<Instr>,
                                        slots: seq<Slot>, last: int, k: nat)
    requires Live(ctx, leads, code, b, pc, slots, last) && SameBlock(leads, b, pc) && Tracked(slots, pc)
    requires pc < |code| && code[pc] == i && Consumer(i) && Takes(i) <= |slots| && !Faults(i, |slots|, ctx.vars)
    ensures var r := Consume(ctx, i, pc, code, slots, last, k);
            |leads| == |ctx.ready| == |code| && Preserves(ctx, leads, code, r.code)
                && Live(ctx, leads, r.code, b, pc, r.slots, r.last)
    decreases 32 - k
  {
    hide Live, Preserves, Faults, Takes, Converted, SameBlock, MaskAt, Consumer, Consume, OnlyConverted;
    ConsumeUnfold(ctx, i, pc, code, slots, last, k);
    LiveSizes(ctx, leads, code, b, pc, slots, last);
    PreservesRefl(ctx, leads, code);
    if k < Takes(i) && k < 32 {
      var m := Resolve(slots, |slots| - Takes(i) + k);
      var q := slots[m].producer;
      if !MaskAt(ctx, i, k) || slots[m].whnf {
        ConsumeKeeps(ctx, leads, b, i, pc, code, slots, last, k + 1);
      } else if !(q < 0 || last >= q || !Ordered(ctx, i, pc, slots, q, k) || Converted(code[q]) == code[q]) {
        SlotsWant(ctx, leads, code, b, pc, slots, last, k, q);
        LiveConverted(ctx, leads, code, b, pc, slots, last, m, q);
        var code1 := code[q := Converted(code[q])];
        ConsumeKeeps(ctx, leads, b, i, pc, code1, Settle(slots, m, q), q, k + 1);
        var r := Consume(ctx, i, pc, code1, Settle(slots, m, q), q, k + 1);
        Sizes(code1, r.code, pc);
        PreservesTrans(ctx, leads, code, code1, r.code);
      }
    }
  }

  // ----------------------------------------------------------------------- the walk

  /** At a block leader the walk takes up the readiness facts, or gives up. */
  function Begin(ctx: Context, pc: nat, w: Walk): (r: Walk)
    requires pc < |ctx.ready| && pc < |ctx.target| && Tracked(w.slots, pc)
    ensures Tracked(r.slots, pc) && r.code == w.code && (w.last < pc ==> r.last < pc)
  {
    if !(w.begins || ctx.target[pc]) then w
    else
      var live := ctx.ready[pc].Shape? && ctx.ready[pc].depth <= READY_SLOTS;
      Walk(w.code, live, false, if live then StartSlots(ctx.ready[pc]) else [], -1)
  }

  function Consumed(ctx: Context, pc: nat, w: Walk): (r: Pass)
    requires pc < |w.code| && Tracked(w.slots, pc)
    ensures |r.slots| == |w.slots| && Tracked(r.slots, pc) && OnlyConverted(w.code, r.code, pc)
    ensures w.last < pc ==> r.last < pc
  {
    var i := w.code[pc];
    if Consumer(i) && Takes(i) <= |w.slots| then Consume(ctx, i, pc, w.code, w.slots, w.last, 0)
    else Pass(w.code, w.slots, w.last)
  }

  /** One instruction: its producers, then the slots it leaves. */
  function Advance(ctx: Context, pc: nat, w: Walk): (r: Walk)
    requires pc < |ctx.ready| && pc < |w.code| && Tracked(w.slots, pc)
    ensures Tracked(r.slots, pc + 1) && OnlyConverted(w.code, r.code, pc) && (w.last < pc ==> r.last < pc + 1)
  {
    var i := w.code[pc];
    if !w.live then w.(begins := Ends(i))
    else
      var c := Consumed(ctx, pc, w);
      if !Covers(i, |c.slots|) then Walk(c.code, false, Ends(i), c.slots, c.last)
      else
        var slots := c.slots[..|c.slots| - Takes(i)] + TopSlot(ctx, i, pc, c.slots);
        Walk(c.code, |slots| <= READY_SLOTS, Ends(i), slots, if Quiet(i) then c.last else pc)
  }

  /** The walk in front of instruction `n`. */
  function WalkTo(ctx: Context, code: seq<Instr>, n: nat): (w: Walk)
    requires n <= |code| && n <= |ctx.ready| && n <= |ctx.target|
    ensures Tracked(w.slots, n) && OnlyConverted(code, w.code, n) && w.last < n
    ensures w.begins <==> n == 0 || Ends(code[n - 1])
  {
    if n == 0 then Walk(code, false, true, [], -1)
    else
      var w := WalkTo(ctx, code, n - 1);
      var r := Advance(ctx, n - 1, Begin(ctx, n - 1, w));
      OnlyConvertedTrans(code, w.code, r.code, n - 1, n - 1);
      r
  }

  /** The code one pass leaves. */
  function Rewrite(ctx: Context, code: seq<Instr>): (r: seq<Instr>)
    requires |code| == |ctx.ready| == |ctx.target|
    ensures OnlyConverted(code, r, |code|)
  {
    WalkTo(ctx, code, |code|).code
  }

  // ------------------------------------------------------------------ what it preserves

  /** What decoding does not check: variables in range and no thunk without
      arguments (pkg/plan/src/bytecode.c:1102-1190). */
  ghost predicate Sane(code: seq<Instr>, vars: nat) {
    forall k :: 0 <= k < |code| ==> SaneInstr(code[k], vars)
  }

  predicate SaneInstr(i: Instr, vars: nat) {
    && (i.PushVar? ==> i.v < vars)
    && (i.MkThk? || i.MkApp? || i.CallKnown? || i.TailCall? ==> i.argc > 0)
  }

  lemma SaneCovers(i: Instr, depth: nat, vars: nat)
    requires SaneInstr(i, vars)
    ensures !Faults(i, depth, vars) <==> Covers(i, depth)
  {
  }

  /** The walk carries no slots into `q`. */
  predicate AtRest(ctx: Context, code: seq<Instr>, q: nat)
    requires q <= |code| && q <= |ctx.ready| && q <= |ctx.target|
  {
    var w := WalkTo(ctx, code, q);
    w.live ==> w.slots == []
  }

  /** A leader the walk does not stop at is entered on an empty stack and met at rest. */
  ghost predicate Unmarked(ctx: Context, code: seq<Instr>, q: nat)
    requires q < |code| == |ctx.ready| == |ctx.target|
  {
    ctx.ready[q].Shape? && ctx.ready[q].depth == 0 && AtRest(ctx, code, q)
  }

  /** Every block leader of the code leads, and possibly some unmarked ones. */
  ghost predicate Refines(ctx: Context, leads: seq<bool>, code: seq<Instr>) {
    && |leads| == |code| == |ctx.ready| == |ctx.target|
    && (forall q: nat :: q < |code| && Leads(ctx, code, q) ==> leads[q])
    && (forall q: nat :: q < |code| && leads[q] && !Leads(ctx, code, q) ==> Unmarked(ctx, code, q))
  }

  /** The walk has met the instruction `pc`: it is live from some leader on. */
  ghost predicate Begun(ctx: Context, leads: seq<bool>, b: nat, pc: nat, w: Walk) {
    w.live ==> Live(ctx, leads, w.code, b, pc, w.slots, w.last)
  }

  lemma {:induction false} BeginKeeps(ctx: Context, leads: seq<bool>, code: seq<Instr>, b: nat, pc: nat)
                                      returns (b1: nat)
    requires Refines(ctx, leads, code) && pc < |code| && Begun(ctx, leads, b, pc, WalkTo(ctx, code, pc))
    ensures var w := Begin(ctx, pc, WalkTo(ctx, code, pc));
            Begun(ctx, leads, b1, pc, w) && (w.live ==> SameBlock(leads, b1, pc))
  {
    hide Live, SameBlock, StartSlots, WalkTo, OnlyConverted, Unmarked, Ends;
    var w := WalkTo(ctx, code, pc);
    Sizes(code, w.code, pc);
    b1 := b;
    if Leads(ctx, code, pc) {
      b1 := pc;
      if Begin(ctx, pc, w).live {
        LiveStart(ctx, leads, w.code, pc);
        Alone(leads, pc);
      }
    } else if w.live {
      if leads[pc] {
        b1 := pc;
        UnmarkedStart(ctx, leads, code, w.code, pc, w.last, w.slots);
      } else {
        BlockGoesOn(ctx, leads, w.code, b, pc, w.slots, w.last);
      }
    }
  }

  lemma Sizes(x: seq<Instr>, y: seq<Instr>, pc: nat)
    requires OnlyConverted(x, y, pc)
    ensures |x| == |y|
  {
  }

  lemma Alone(leads: seq<bool>, b: nat)
    requires b < |leads| && leads[b]
    ensures SameBlock(leads, b, b)
  {
  }

  lemma BlockGoesOn(ctx: Context, leads: seq<bool>, code: seq<Instr>, b: nat, pc: nat, slots: seq<Slot>, last: int)
    requires Live(ctx, leads, code, b, pc, slots, last) && pc < |leads| && !leads[pc]
    ensures SameBlock(leads, b, pc)
  {
    hide Facts, Clear, Depth, Tracked;
  }

  lemma {:induction false} UnmarkedStart(ctx: Context, leads: seq<bool>, code: seq<Instr>, now: seq<Instr>, pc: nat,
                                         last: int, slots: seq<Slot>)
    requires pc < |code| == |ctx.ready| == |ctx.target| == |leads| == |now| && leads[pc] && Unmarked(ctx, code, pc)
    requires last < pc && WalkTo(ctx, code, pc).live && slots == WalkTo(ctx, code, pc).slots
    ensures Live(ctx, leads, now, pc, pc, slots, last) && SameBlock(leads, pc, pc)
  {
    hide Facts, Clear, StartSlots, WalkTo;
    LiveStart(ctx, leads, now, pc);
    StartEmpty(ctx.ready[pc]);
  }

  lemma StartEmpty(r: Ready)
    requires r.Shape? && r.depth == 0
    ensures StartSlots(r) == []
  {
  }

  lemma {:induction false} AdvanceKeeps(ctx: Context, leads: seq<bool>, b: nat, pc: nat, w: Walk)
    requires |leads| == |ctx.ready| == |w.code| && pc < |w.code| && Tracked(w.slots, pc)
             && SaneInstr(w.code[pc], ctx.vars)
    requires w.live ==> Live(ctx, leads, w.code, b, pc, w.slots, w.last) && SameBlock(leads, b, pc)
    ensures var r := Advance(ctx, pc, w); Preserves(ctx, leads, w.code, r.code) && Begun(ctx, leads, b, pc + 1, r)
  {
    hide Live, Preserves, Faults, Takes, SameBlock, SaneInstr, TopSlot, Covers, Consume, Quiet;
    var i := w.code[pc];
    PreservesRefl(ctx, leads, w.code);
    if w.live {
      SaneCovers(i, |w.slots|, ctx.vars);
      if Consumer(i) && Takes(i) <= |w.slots| {
        assert Covers(i, |w.slots|) by { ConsumerCovers(i, |w.slots|); }
        ConsumeKeeps(ctx, leads, b, i, pc, w.code, w.slots, w.last, 0);
      }
      var c := Consumed(ctx, pc, w);
      if Covers(i, |c.slots|) {
        LiveStep(ctx, leads, c.code, b, pc, c.slots, c.last);
      }
    }
  }

  lemma ConsumerCovers(i: Instr, depth: nat)
    requires Consumer(i) && Takes(i) <= depth
    ensures Covers(i, depth)
  {
  }

  /** At every point of the walk: the code so far means the same, and a live walk
      knows something true of every run from the leader it began at. */
  lemma {:induction false} WalkKeeps(ctx: Context, leads: seq<bool>, code: seq<Instr>, n: nat) returns (b: nat)
    requires Refines(ctx, leads, code) && Sane(code, ctx.vars) && n <= |code|
    ensures Preserves(ctx, leads, code, WalkTo(ctx, code, n).code)
    ensures Begun(ctx, leads, b, n, WalkTo(ctx, code, n))
    decreases n
  {
    hide Live, Preserves, SameBlock, SaneInstr, Advance, Begin, Unmarked, Leads;
    b := 0;
    if n == 0 {
      PreservesRefl(ctx, leads, code);
    } else {
      b := WalkKeeps(ctx, leads, code, n - 1);
      b := BeginKeeps(ctx, leads, code, b, n - 1);
      var w := WalkTo(ctx, code, n - 1);
      var w1 := Begin(ctx, n - 1, w);
      assert w1.code[n - 1] == code[n - 1];
      AdvanceKeeps(ctx, leads, b, n - 1, w1);
      PreservesTrans(ctx, leads, code, w.code, Advance(ctx, n - 1, w1).code);
    }
  }

  /** Main result: one pass preserves every block of the code. */
  lemma {:induction false} RewritePreserves(ctx: Context, code: seq<Instr>)
    requires |code| == |ctx.ready| == |ctx.target| && Sane(code, ctx.vars)
    ensures Preserves(ctx, Leaders(ctx, code), code, Rewrite(ctx, code))
    ensures Leaders(ctx, Rewrite(ctx, code)) == Leaders(ctx, code)
  {
    hide Preserves, WalkTo, AtRest;
    var b := WalkKeeps(ctx, Leaders(ctx, code), code, |code|);
    LeadersSame(ctx, code, Rewrite(ctx, code));
  }

  lemma LeadersSame(ctx: Context, x: seq<Instr>, y: seq<Instr>)
    requires OnlyConverted(x, y, |x|) && |x| == |ctx.target|
    ensures Leaders(ctx, x) == Leaders(ctx, y)
  {
  }
}
