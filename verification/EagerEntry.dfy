/**
  Activations that begin at the strict entry (pkg/plan/src/bytecode.c:1143-1150,
  pkg/plan/src/eval.c:242-259): on an empty operand stack, in front of an
  instruction that the eager walk does not know to be a leader. The pass is proved
  to preserve them exactly when the walk carries no slots into the entry.
 */
module EagerEntry {
  import opened Bytecode
  import opened EagerBlocks
  import opened EagerPass
  import opened EagerWalk

  // -------------------------------------------------------- starts at the strict entry

  ghost predicate HasEntry(ctx: Context, code: seq<Instr>) {
    |code| == |ctx.ready| == |ctx.target| && 0 < ctx.entry < |code|
  }

  /** What holds where an activation begins at the strict entry. */
  ghost function WithEntry(ctx: Context): (r: Context)
    requires ctx.entry < |ctx.ready|
  {
    ctx.(ready := ctx.ready[ctx.entry := Shape(0, {}, VarsAt(ctx.ready[ctx.entry]))])
  }

  ghost function EntryLeaders(ctx: Context, code: seq<Instr>): (r: seq<bool>)
    requires HasEntry(ctx, code)
  {
    Leaders(ctx, code)[ctx.entry := true]
  }

  /** An activation from the strict entry to the end of its block does the same
      evaluations in the same order, whatever the bodies of the program are. */
  ghost predicate EntryPreserves(ctx: Context, code: seq<Instr>, code1: seq<Instr>)
    requires HasEntry(ctx, code)
  {
    && |code| == |code1|
    && forall act, s, e :: SameFrom(WithEntry(ctx), EntryLeaders(ctx, code), code, code1, act, s, ctx.entry, e)
  }

  /** A caller can check this before the rewrite: the facts at a marked entry are
      those of an empty stack; at an unmarked one the walk arrives at rest. */
  predicate EntrySafe(ctx: Context, code: seq<Instr>)
    requires ctx.entry < |code| == |ctx.ready| == |ctx.target|
  {
    if Leads(ctx, code, ctx.entry) then ctx.ready[ctx.entry].Shape? ==> ctx.ready[ctx.entry].depth == 0
    else AtRest(ctx, code, ctx.entry)
  }

  // ------------------------------------------------------------- walks that look alike

  /** Two contexts the walk cannot tell apart before `n`. */
  ghost predicate Alike(ctx: Context, ctx1: Context, code: seq<Instr>, n: nat) {
    && n <= |ctx.ready| && n <= |ctx.target| && n <= |ctx1.ready| && n <= |ctx1.target| && n <= |code|
    && ctx.strict == ctx1.strict && ctx.literal == ctx1.literal
    && forall k: nat :: k < n ==> ctx.target[k] == ctx1.target[k] && VarsAt(ctx.ready[k]) == VarsAt(ctx1.ready[k])
                                  && (Leads(ctx, code, k) ==> ctx.ready[k] == ctx1.ready[k])
  }

  /** The walks agree on everything up to `n`. */
  ghost predicate Agree(w: Walk, w1: Walk, n: nat) {
    && n <= |w.code| && n <= |w1.code| && w.code[..n] == w1.code[..n]
    && w.live == w1.live && w.begins == w1.begins && w.slots == w1.slots && w.last == w1.last
  }

  lemma {:induction false} ConsumeAgree(ctx: Context, ctx1: Context, i: Instr, pc: nat, code: seq<Instr>,
                                        code1: seq<Instr>,
                                        slots: seq<Slot>, last: int, k: nat)
    requires pc < |code| && pc < |code1| && Consumer(i) && Takes(i) <= |slots| && Tracked(slots, pc)
    requires code[..pc + 1] == code1[..pc + 1] && ctx.strict == ctx1.strict
    ensures var r, r1 := Consume(ctx, i, pc, code, slots, last, k), Consume(ctx1, i, pc, code1, slots, last, k);
            r.slots == r1.slots && r.last == r1.last && r.code[..pc + 1] == r1.code[..pc + 1]
    decreases 32 - k
  {
    hide Takes, Converted, OnlyConverted;
    if k < Takes(i) && k < 32 {
      var m := Resolve(slots, |slots| - Takes(i) + k);
      var q := slots[m].producer;
      assert MaskAt(ctx, i, k) == MaskAt(ctx1, i, k);
      assert Ordered(ctx, i, pc, slots, q, k)
          == Ordered(ctx1, i, pc, slots, q, k) by { OrderedAgree(ctx, ctx1, i, pc, slots, q, k); }
      if !MaskAt(ctx, i, k) || slots[m].whnf {
        ConsumeAgree(ctx, ctx1, i, pc, code, code1, slots, last, k + 1);
      } else if q >= 0 {
        assert code[q] == code[..pc + 1][q] == code1[..pc + 1][q] == code1[q];
        var next, next1 := code[q := Converted(code[q])], code1[q := Converted(code1[q])];
        if !(last >= q || !Ordered(ctx, i, pc, slots, q, k) || Converted(code[q]) == code[q]) {
          assert next[..pc + 1] == code[..pc + 1][q := Converted(code[q])] == next1[..pc + 1];
          ConsumeAgree(ctx, ctx1, i, pc, next, next1, Settle(slots, m, q), q, k + 1);
        }
      }
    }
  }

  lemma OrderedAgree(ctx: Context, ctx1: Context, i: Instr, pc: nat, slots: seq<Slot>, q: int, k: nat)
    requires Consumer(i) && k <= Takes(i) <= |slots| && Tracked(slots, pc) && ctx.strict == ctx1.strict
    ensures Ordered(ctx, i, pc, slots, q, k) == Ordered(ctx1, i, pc, slots, q, k)
  {
    assert forall j: nat :: j < k ==> MaskAt(ctx, i, j) == MaskAt(ctx1, i, j);
  }

  /** One instruction, met by two walks that agree. */
  lemma {:induction false} AdvanceAgree(ctx: Context, ctx1: Context, n: nat, v: Walk, v1: Walk)
    requires n < |ctx.ready| && n < |ctx1.ready| && VarsAt(ctx.ready[n]) == VarsAt(ctx1.ready[n])
    requires ctx.strict == ctx1.strict && ctx.literal == ctx1.literal
    requires Agree(v, v1, n + 1) && Tracked(v.slots, n)
    ensures Agree(Advance(ctx, n, v), Advance(ctx1, n, v1), n + 1)
  {
    hide Takes, Consume, Covers, Consumer, Quiet, VarsAt, Resolve;
    assert v.code[n] == v.code[..n + 1][n] == v1.code[..n + 1][n] == v1.code[n];
    var i := v.code[n];
    if Consumer(i) && Takes(i) <= |v.slots| {
      ConsumeAgree(ctx, ctx1, i, n, v.code, v1.code, v.slots, v.last, 0);
    }
    var c, c1 := Consumed(ctx, n, v), Consumed(ctx1, n, v1);
    if Covers(i, |c.slots|) {
      assert TopSlot(ctx, i, n, c.slots) == TopSlot(ctx1, i, n, c.slots);
    }
  }

  /** The next instruction is still the code's own. */
  lemma {:induction false} AgreeMore(w: Walk, w1: Walk, code: seq<Instr>, code1: seq<Instr>, n: nat)
    requires Agree(w, w1, n) && n < |code| && n < |code1| && code[..n + 1] == code1[..n + 1]
    requires OnlyConverted(code, w.code, n) && OnlyConverted(code1, w1.code, n)
    ensures Agree(w, w1, n + 1)
  {
    assert code[n] == code[..n + 1][n] == code1[..n + 1][n] == code1[n];
    assert w.code[n] == code[n] && w1.code[n] == code1[n];
    assert w.code[..n + 1] == w.code[..n] + [code[n]] == w1.code[..n + 1];
  }

  lemma BeginAgree(ctx: Context, ctx1: Context, n: nat, w: Walk, w1: Walk)
    requires n < |ctx.ready| && n < |ctx1.ready| && n < |ctx.target| && n < |ctx1.target|
             && ctx.target[n] == ctx1.target[n]
    requires Agree(w, w1, n + 1) && Tracked(w.slots, n)
    requires w.begins || ctx.target[n] ==> ctx.ready[n] == ctx1.ready[n]
    ensures Agree(Begin(ctx, n, w), Begin(ctx1, n, w1), n + 1)
  {
    hide StartSlots;
  }

  lemma {:induction false} StepAgree(ctx: Context, ctx1: Context, code: seq<Instr>, code1: seq<Instr>, n: nat)
    requires Alike(ctx, ctx1, code, n + 1) && n < |code1| && code[..n + 1] == code1[..n + 1]
    requires Agree(WalkTo(ctx, code, n), WalkTo(ctx1, code1, n), n)
    ensures Agree(WalkTo(ctx, code, n + 1), WalkTo(ctx1, code1, n + 1), n + 1)
  {
    hide Advance, Begin, Agree, OnlyConverted, Ends, VarsAt, Tracked;
    var w, w1 := WalkTo(ctx, code, n), WalkTo(ctx1, code1, n);
    AgreeMore(w, w1, code, code1, n);
    BeginAgree(ctx, ctx1, n, w, w1);
    AdvanceAgree(ctx, ctx1, n, Begin(ctx, n, w), Begin(ctx1, n, w1));
  }

  lemma {:induction false} WalkAgrees(ctx: Context, ctx1: Context, code: seq<Instr>, code1: seq<Instr>, n: nat)
    requires Alike(ctx, ctx1, code, n) && n <= |code1| && code[..n] == code1[..n]
    ensures Agree(WalkTo(ctx, code, n), WalkTo(ctx1, code1, n), n)
    decreases n
  {
    hide Alike;
    if n > 0 {
      AlikeLess(ctx, ctx1, code, n);
      assert code[..n - 1] == code[..n][..n - 1] == code1[..n][..n - 1] == code1[..n - 1];
      WalkAgrees(ctx, ctx1, code, code1, n - 1);
      StepAgree(ctx, ctx1, code, code1, n - 1);
    }
  }

  lemma AlikeLess(ctx: Context, ctx1: Context, code: seq<Instr>, n: nat)
    requires Alike(ctx, ctx1, code, n) && n > 0
    ensures Alike(ctx, ctx1, code, n - 1) && n <= |code| && n <= |ctx.ready| && n <= |ctx.target| && n <= |ctx1.ready|
            && n <= |ctx1.target|
  {
  }

  // ------------------------------------------------------------------ what is preserved

  /** At an unmarked entry the walk does the same with the entry's own facts. */
  lemma {:induction false} EntryUnseen(ctx: Context, code: seq<Instr>, n: nat)
    requires HasEntry(ctx, code) && !Leads(ctx, code, ctx.entry) && n <= |code|
    ensures Agree(WalkTo(ctx, code, n), WalkTo(WithEntry(ctx), code, n), n)
  {
    WalkAgrees(ctx, WithEntry(ctx), code, code, n);
  }

  lemma {:induction false} EntryRefines(ctx: Context, code: seq<Instr>)
    requires HasEntry(ctx, code) && !Leads(ctx, code, ctx.entry) && AtRest(ctx, code, ctx.entry)
    ensures Refines(WithEntry(ctx), EntryLeaders(ctx, code), code)
  {
    hide WalkTo;
    EntryUnseen(ctx, code, ctx.entry);
    forall q: nat | q < |code| ensures Leads(ctx, code, q) == Leads(WithEntry(ctx), code, q) {
    }
  }

  /** Main result: from a safe strict entry the rewritten code means the same. */
  lemma {:induction false} EntryPreserved(ctx: Context, code: seq<Instr>)
    requires HasEntry(ctx, code) && Sane(code, ctx.vars) && EntrySafe(ctx, code)
    ensures EntryPreserves(ctx, code, Rewrite(ctx, code))
  {
    hide WalkTo, AtRest, Sane, Exec, Same;
    var x, ctx1, leads, code1 := ctx.entry, WithEntry(ctx), EntryLeaders(ctx, code), Rewrite(ctx, code);
    if Leads(ctx, code, x) {
      RewritePreserves(ctx, code);
      assert leads == Leaders(ctx, code);
      forall act, s, e ensures SameFrom(ctx1, leads, code, code1, act, s, x, e) {
        assert SameFrom(ctx, leads, code, code1, act, s, x, e);
        if WholeBlock(leads, x, e) && Fits(ctx1, leads, s, x) {
          MarkedFits(ctx, leads, s, x);
        }
      }
    } else {
      EntryRefines(ctx, code);
      var b := WalkKeeps(ctx1, leads, code, |code|);
      EntryUnseen(ctx, code, |code|);
      assert WalkTo(ctx1, code, |code|).code == code1;
    }
  }

  lemma {:induction false} MarkedFits(ctx: Context, leads: seq<bool>, s: Start, x: nat)
    requires |leads| == |ctx.ready| && x == ctx.entry < |leads| && (ctx.ready[x].Shape? ==> ctx.ready[x].depth == 0)
    requires Fits(WithEntry(ctx), leads, s, x)
    ensures Fits(ctx, leads, s, x)
  {
    hide Sound, SameBlock;
    forall q, v | 0 <= q < |leads| && SameBlock(leads, x, q) && v in VarsAt(ctx.ready[q]) && v < |s.env|
      ensures IsValue(s.w.heap, s.env[v])
    {
      assert v in VarsAt(WithEntry(ctx).ready[q]);
    }
  }
}
