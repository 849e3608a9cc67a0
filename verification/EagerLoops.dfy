/**
  The eager pass in place (pkg/plan/src/bytecode.c:503-705): one loop over the
  opcode array, rewriting thunk constructions behind itself. The loops are proved
  to compute the walk, and so to preserve what the walk preserves.
 */
module EagerLoops {
  import opened Bytecode
  import opened EagerBlocks
  import opened EagerPass
  import opened EagerWalk
  import opened EagerEntry

  /** The consumer at `pc` forces its strict operands in ascending order: enter
      each one's producer while everything forced before it is a value and
      nothing was evaluated since the producer. */
  method EagerConsume(code: array<Instr>, ctx: Context, pc: nat, slots0: seq<Slot>, last0: int)
    returns (changed: bool, slots: seq<Slot>, last: int)
    requires pc < code.Length && Consumer(code[pc]) && Takes(code[pc]) <= |slots0| && Tracked(slots0, pc)
    modifies code
    ensures Pass(code[..], slots, last) == Consume(ctx, old(code[pc]), pc, old(code[..]), slots0, last0, 0)
    ensures changed <==> code[..] != old(code[..])
  {
    hide Converted, Takes, MaskAt, Consumer, OnlyConverted, Consume, Ordered;
    ghost var before := code[..];
    var i := code[pc];
    var argc := Takes(i);
    changed, slots, last := false, slots0, last0;
    var base := |slots| - argc;
    OnlyRefl(code[..], pc);
    var k: nat := 0;
    while k < argc && k < 32
      invariant k <= argc && k <= 32 && |slots| == |slots0| && Tracked(slots, pc)
      invariant Consume(ctx, i, pc, code[..], slots, last, k) == Consume(ctx, i, pc, before, slots0, last0, 0)
      invariant OnlyConverted(before, code[..], pc)
      invariant changed <==> code[..] != before
      decreases argc - k
    {
      ConsumeUnfold(ctx, i, pc, code[..], slots, last, k);
      if MaskAt(ctx, i, k) {
        var m := Resolve(slots, base + k);
        if !slots[m].whnf {
          var q := slots[m].producer;
          if q < 0 || last >= q {
            return;
          }
          var ordered := EagerOrdered(ctx, i, pc, slots, q, k);
          if !ordered || Converted(code[q]) == code[q] {
            return;
          }
          ghost var now := code[..];
          OnlyStep(before, now, pc, q);
          code[q] := Converted(code[q]);
          assert code[..] == now[q := Converted(now[q])];
          slots := Settle(slots, m, q);
          last := q;
          changed := true;
        }
      }
      k := k + 1;
    }
    ConsumeUnfold(ctx, i, pc, code[..], slots, last, k);
  }

  /** The inner loop: operands before the k-th were values before instruction `q`. */
  method EagerOrdered(ctx: Context, i: Instr, pc: nat, slots: seq<Slot>, q: int, k: nat) returns (ordered: bool)
    requires Consumer(i) && k <= Takes(i) <= |slots| && Tracked(slots, pc)
    ensures ordered <==> Ordered(ctx, i, pc, slots, q, k)
  {
    ordered := true;
    var j: nat := 0;
    while ordered && j < k
      invariant j <= k
      invariant forall n: nat :: n < j && n < k && MaskAt(ctx, i, n) ==> ordered ==>
                Early(slots, |slots| - Takes(i) + n, q, pc)
      invariant !ordered ==> !Ordered(ctx, i, pc, slots, q, k)
      decreases k - j
    {
      if MaskAt(ctx, i, j) {
        var n := Resolve(slots, |slots| - Takes(i) + j);
        ordered := slots[n].whnf && slots[n].evalPc < q;
        assert ordered == Early(slots, |slots| - Takes(i) + j, q, pc);
      }
      j := j + 1;
    }
  }

  lemma OnlyRefl(code: seq<Instr>, pc: nat)
    ensures OnlyConverted(code, code, pc)
  {
  }

  /** One more conversion: of a construction nobody touched before. */
  lemma {:induction false} OnlyStep(before: seq<Instr>, now: seq<Instr>, pc: nat, q: nat)
    requires OnlyConverted(before, now, pc) && q < pc && q < |now| && Converted(now[q]) != now[q]
    ensures var next := now[q := Converted(now[q])];
            OnlyConverted(before, next, pc) && next != before && (pc < |now| ==> next[pc] == now[pc])
  {
    assert now[q] == before[q];
    assert now[q := Converted(now[q])][q] != before[q];
  }

  /** A conversion is never undone. */
  lemma {:induction false} Progress(x: seq<Instr>, y: seq<Instr>, z: seq<Instr>, pc: nat)
    requires OnlyConverted(x, y, pc) && OnlyConverted(y, z, pc) && y != z
    ensures x != z
  {
    var k :| 0 <= k < |y| && y[k] != z[k];
    assert z[k] == Converted(y[k]) && y[k].MkThk?;
    assert y[k] == x[k] || y[k] == Converted(x[k]);
  }

  /** One instruction of the walk. */
  method EagerVisit(code: array<Instr>, ctx: Context, pc: nat, live0: bool, begins0: bool, slots0: seq<Slot>,
                    last0: int)
    returns (changed: bool, live: bool, begins: bool, slots: seq<Slot>, last: int)
    requires pc < code.Length == |ctx.ready| == |ctx.target| && Tracked(slots0, pc)
    modifies code
    ensures Walk(code[..], live, begins, slots, last)
            == Advance(ctx, pc, Begin(ctx, pc, Walk(old(code[..]), live0, begins0, slots0, last0)))
    ensures changed <==> code[..] != old(code[..])
  {
    hide Converted, Consumer, Quiet, TopSlot, StartSlots, Takes, Consume;
    live, begins, slots, last := live0, begins0, slots0, last0;
    if begins || ctx.target[pc] {
      live := ctx.ready[pc].Shape? && ctx.ready[pc].depth <= READY_SLOTS;
      slots := if live then StartSlots(ctx.ready[pc]) else [];
      last := -1;
      begins := false;
    }
    ghost var v := Begin(ctx, pc, Walk(code[..], live0, begins0, slots0, last0));
    assert Walk(code[..], live, begins, slots, last) == v;
    var i := code[pc];
    changed := false;
    if live {
      if Consumer(i) && Takes(i) <= |slots| {
        changed, slots, last := EagerConsume(code, ctx, pc, slots, last);
      }
      assert Pass(code[..], slots, last) == Consumed(ctx, pc, v);
      if Covers(i, |slots|) {
        slots := slots[..|slots| - Takes(i)] + TopSlot(ctx, i, pc, slots);
        live := |slots| <= READY_SLOTS;
        last := if Quiet(i) then last else pc;
      } else {
        live := false;
      }
    }
    begins := Ends(i);
  }

  /** One pass in place. It computes the walk's code on every input; on sane code
      every block keeps its meaning, and so do activations from a safe strict entry. */
  method EagerRewrite(code: array<Instr>, ctx: Context) returns (changed: bool)
    requires code.Length == |ctx.ready| == |ctx.target|
    modifies code
    ensures code[..] == Rewrite(ctx, old(code[..])) && OnlyConverted(old(code[..]), code[..], code.Length)
    ensures changed <==> code[..] != old(code[..])
    ensures Sane(old(code[..]), ctx.vars) ==>
              Preserves(ctx, Leaders(ctx, old(code[..])), old(code[..]), code[..])
    ensures Sane(old(code[..]), ctx.vars) && HasEntry(ctx, old(code[..])) && EntrySafe(ctx, old(code[..])) ==>
              EntryPreserves(ctx, old(code[..]), code[..])
  {
    hide Preserves, EntryPreserves, Sane, EntrySafe, Advance, Begin, WalkTo, OnlyConverted, Leaders;
    ghost var before := code[..];
    changed := false;
    var live, begins := false, true;
    var slots: seq<Slot> := [];
    var last := -1;
    var pc: nat := 0;
    WalkFirst(ctx, before);
    while pc < code.Length
      invariant pc <= code.Length && Walk(code[..], live, begins, slots, last) == WalkTo(ctx, before, pc)
      invariant changed <==> code[..] != before
    {
      WalkNext(ctx, before, pc);
      var did;
      did, live, begins, slots, last := EagerVisit(code, ctx, pc, live, begins, slots, last);
      changed := changed || did;
      pc := pc + 1;
    }
    RewriteMeans(ctx, before);
  }

  lemma WalkFirst(ctx: Context, code: seq<Instr>)
    ensures WalkTo(ctx, code, 0) == Walk(code, false, true, [], -1)
  {
  }

  lemma {:induction false} WalkNext(ctx: Context, code: seq<Instr>, n: nat)
    requires n < |code| && n < |ctx.ready| && n < |ctx.target|
    ensures var w, w1 := WalkTo(ctx, code, n), WalkTo(ctx, code, n + 1);
            w1 == Advance(ctx, n, Begin(ctx, n, w)) && (w1.code != w.code ==> w1.code != code)
  {
    hide Advance, Begin, OnlyConverted;
    var w, w1 := WalkTo(ctx, code, n), WalkTo(ctx, code, n + 1);
    if w1.code != w.code {
      Progress(code, w.code, w1.code, n);
    }
  }

  lemma RewriteMeans(ctx: Context, code: seq<Instr>)
    requires |code| == |ctx.ready| == |ctx.target|
    ensures Sane(code, ctx.vars) ==> Preserves(ctx, Leaders(ctx, code), code, Rewrite(ctx, code))
    ensures Sane(code, ctx.vars) && HasEntry(ctx, code) && EntrySafe(ctx, code) ==>
            EntryPreserves(ctx, code, Rewrite(ctx, code))
  {
    hide Preserves, EntryPreserves, Sane, EntrySafe, Rewrite;
    if Sane(code, ctx.vars) {
      RewritePreserves(ctx, code);
      if HasEntry(ctx, code) && EntrySafe(ctx, code) {
        EntryPreserved(ctx, code);
      }
    }
  }
}
