/**
  What the eager pass does not miss (pkg/plan/src/bytecode.c:503-705): whenever every
  strict operand of a consumer was built in its own block, in the order in which it forces
  them and with nothing evaluated since, all of them are entered directly. Together with
  what the pass preserves this fixes which thunks it converts in such code.
 */
module EagerComplete {
  import opened Basics
  import opened Thunks
  import opened Bytecode
  import opened EagerBlocks
  import opened EagerPass
  import opened EagerWalk

  // ------------------------------------------------------------ operands, without slots

  /** The operand stack in front of `pc`, by name; None once an instruction faults. */
  function StackAt(s: Start, code: seq<Instr>, b: nat, pc: nat): (r: Option<seq<Name>>)
    requires b <= pc <= |code|
    decreases pc
  {
    if pc == b then Some(s.stack)
    else
      var r := StackAt(s, code, b, pc - 1);
      if r.None? || Faults(code[pc - 1], |r.value|, |s.env|) then None
      else Some(Stacked(s, code[pc - 1], pc - 1, r.value))
  }

  /** Nothing that comes into the block was built in it. */
  ghost predicate Foreign(s: Start) {
    && (forall i :: 0 <= i < |s.stack| ==> s.stack[i].Old?) && (forall i :: 0 <= i < |s.env| ==> s.env[i].Old?)
    && (forall l :: s.lits(l).Old?)
  }

  /** `c` is reached in the block of `b` with no fault and a stack that can be tracked. */
  ghost predicate Reaches(ctx: Context, code: seq<Instr>, s: Start, b: nat, c: nat) {
    && |code| == |ctx.ready| == |ctx.target| && b <= c < |code| && Foreign(s)
    && Leads(ctx, code, b) && (forall k: nat :: b < k <= c ==> !Leads(ctx, code, k))
    && ctx.ready[b].Shape? && |s.stack| == ctx.ready[b].depth
    && (forall k: nat :: b <= k <= c ==> StackAt(s, code, b, k).Some? && |StackAt(s, code, b, k).value| <= 256)
  }

  /** The k-th operand of an instruction. */
  function Operand(i: Instr, stack: seq<Name>, k: nat): (r: Name)
    requires k < Takes(i) <= |stack|
  {
    stack[|stack| - Takes(i) + k]
  }

  // -------------------------------------------------------------- what the slots record

  ghost predicate Rooted(slots: seq<Slot>, i: nat)
    requires i < |slots|
  {
    slots[i].src >= 0 ==> slots[i].src < i && slots[slots[i].src].src < 0
  }

  /** A name built in this block is recorded at its root: as a producer while nothing was
      evaluated since, and as a value once it is one. */
  ghost predicate Recorded(code: seq<Instr>, b: nat, pc: nat, stack: seq<Name>, slots: seq<Slot>, i: nat)
    requires i < |slots| == |stack| && pc <= |code| && slots[i].src < i
  {
    var m := Resolve(slots, i);
    && stack[m] == stack[i]
    && (stack[i].Made? ==>
          var q := stack[i].pc;
          && b <= q < pc
          && (code[q].MkThk? && QuietRange(code, q + 1, pc) ==> slots[m].producer == q && !slots[m].whnf)
          && (!code[q].MkThk? ==> slots[m].whnf && (slots[m].evalPc < 0 || slots[m].evalPc == q)))
  }

  ghost predicate LastExact(code: seq<Instr>, b: nat, pc: nat, last: int)
    requires pc <= |code|
  {
    && last < pc && (last >= 0 ==> b <= last && !Quiet(code[last]))
    && (forall k :: b <= k < pc && last < k ==> Quiet(code[k]))
  }

  ghost predicate Producers(slots: seq<Slot>) {
    forall i, j :: 0 <= i < j < |slots| && slots[i].producer >= 0 ==> slots[i].producer != slots[j].producer
  }

  /** A recorded producer is what the slot holds. */
  ghost predicate ProducerNamed(b: nat, pc: nat, stack: seq<Name>, slots: seq<Slot>, j: nat)
    requires j < |slots|
  {
    j < |stack| && slots[j].src < 0 && b <= slots[j].producer < pc && stack[j] == Made(slots[j].producer)
  }

  ghost predicate Told(code: seq<Instr>, b: nat, pc: nat, stack: seq<Name>, slots: seq<Slot>, last: int) {
    && pc <= |code| && |slots| == |stack| && Tracked(slots, pc) && LastExact(code, b, pc, last) && Producers(slots)
    && (forall i :: 0 <= i < |slots| ==> Rooted(slots, i))
    && (forall i :: 0 <= i < |slots| ==> Recorded(code, b, pc, stack, slots, i))
    && (forall i :: 0 <= i < |slots| && slots[i].producer >= 0 ==> ProducerNamed(b, pc, stack, slots, i))
  }

  // ------------------------------------------------------------------- entering producers

  /** Entering one producer. */
  lemma {:induction false} EnterTells(code: seq<Instr>, b: nat, pc: nat, stack: seq<Name>, slots: seq<Slot>, last: int,
                                      m: nat, q: nat)
    requires Told(code, b, pc, stack, slots, last) && m < |slots| && slots[m].src < 0 && slots[m].producer == q
    requires b <= q && last < q < pc && Converted(code[q]) != code[q]
    requires stack[m] == Made(q)
    ensures Told(code[q := Converted(code[q])], b, pc, stack, Settle(slots, m, q), q)
  {
    hide Converted;
    var code1, slots1 := code[q := Converted(code[q])], Settle(slots, m, q);
    assert Calls(code1[q]) && !Quiet(code1[q]);
    assert QuietRange(code, q + 1, pc);
    forall i | 0 <= i < |slots1| ensures Rooted(slots1, i) && Recorded(code1, b, pc, stack, slots1, i) {
      assert Rooted(slots, i) && Recorded(code, b, pc, stack, slots, i);
      if stack[i].Made? {
        var r := stack[i].pc;
        if r == q {
          assert slots[Resolve(slots, i)].producer == q;
          assert Resolve(slots, i) == m;
        } else if code1[r].MkThk? && QuietRange(code1, r + 1, pc) {
          SameQuiet(code, code1, q, r + 1, pc);
          assert Resolve(slots, i) != m;
        } else if !code1[r].MkThk? {
          assert Resolve(slots, i) != m;
        }
      }
    }
  }

  lemma SameQuiet(code: seq<Instr>, code1: seq<Instr>, q: nat, lo: int, hi: nat)
    requires q < |code| && |code1| == |code| && code1 == code[q := code1[q]] && code[q].MkThk?
    requires QuietRange(code1, lo, hi)
    ensures QuietRange(code, lo, hi)
  {
    forall k | 0 <= k < |code| && lo <= k < hi ensures Quiet(code[k]) {
      assert Quiet(code1[k]);
    }
  }

  /** Whatever a consumer converts, the records stay true. */
  lemma {:induction false} ConsumeTells(ctx: Context, i: Instr, b: nat, pc: nat, code: seq<Instr>, stack: seq<Name>,
                                        slots: seq<Slot>, last: int, k: nat)
    requires Told(code, b, pc, stack, slots, last) && Consumer(i) && Takes(i) <= |slots| && b <= pc
    requires pc < |code|
    ensures var r := Consume(ctx, i, pc, code, slots, last, k); Told(r.code, b, pc, stack, r.slots, r.last)
    decreases 32 - k
  {
    hide Told, Converted, MaskAt, Consumer, Takes, OnlyConverted, Consume, Ordered;
    ToldSizes(code, b, pc, stack, slots, last);
    ConsumeUnfold(ctx, i, pc, code, slots, last, k);
    if k < Takes(i) && k < 32 {
      var m := Resolve(slots, |slots| - Takes(i) + k);
      var q := slots[m].producer;
      if !MaskAt(ctx, i, k) || slots[m].whnf {
        ConsumeTells(ctx, i, b, pc, code, stack, slots, last, k + 1);
      } else if !(q < 0 || last >= q || !Ordered(ctx, i, pc, slots, q, k) || Converted(code[q]) == code[q]) {
        ToldProducer(code, b, pc, stack, slots, last, m);
        EnterTells(code, b, pc, stack, slots, last, m, q);
        ConsumeTells(ctx, i, b, pc, code[q := Converted(code[q])], stack, Settle(slots, m, q), q, k + 1);
      }
    }
  }

  lemma ToldSizes(code: seq<Instr>, b: nat, pc: nat, stack: seq<Name>, slots: seq<Slot>, last: int)
    requires Told(code, b, pc, stack, slots, last)
    ensures pc <= |code| && |slots| == |stack| && Tracked(slots, pc)
  {
  }

  lemma ToldProducer(code: seq<Instr>, b: nat, pc: nat, stack: seq<Name>, slots: seq<Slot>, last: int, m: nat)
    requires Told(code, b, pc, stack, slots, last) && m < |slots| && slots[m].producer >= 0
    ensures ProducerNamed(b, pc, stack, slots, m)
  {
  }

  // -------------------------------------------------------------------------- the walk

  /** One instruction, after its producers have been entered. */
  lemma {:induction false} StepTells(ctx: Context, s: Start, code: seq<Instr>, b: nat, pc: nat, stack: seq<Name>,
                                     slots: seq<Slot>, last: int)
    requires Told(code, b, pc, stack, slots, last) && b <= pc < |code| && pc < |ctx.ready| && Foreign(s)
    requires Covers(code[pc], |slots|) && !Faults(code[pc], |stack|, |s.env|) && !Ends(code[pc])
    ensures Told(code, b, pc + 1, Stacked(s, code[pc], pc, stack),
                 slots[..|slots| - Takes(code[pc])] + TopSlot(ctx, code[pc], pc, slots), if Quiet(code[pc]) then last
                     else pc)
  {
    hide Told, TopSlot, Stacked, Faults;
    var i := code[pc];
    ToldSizes(code, b, pc, stack, slots, last);
    StackedSize(s, i, pc, stack);
    var rest := |slots| - Takes(i);
    if Pushes(i) == 1 {
      TopRecord(ctx, s, code, b, pc, stack, slots, last);
    } else {
      NoTop(s, i, pc, stack);
    }
    Extended(code, b, pc, stack, slots, last, Stacked(s, i, pc, stack),
        slots[..rest] + TopSlot(ctx, i, pc, slots), rest);
  }

  lemma NoTop(s: Start, i: Instr, pc: nat, stack: seq<Name>)
    requires !Faults(i, |stack|, |s.env|) && Pushes(i) == 0 && !Ends(i)
    ensures Takes(i) == 0 && Stacked(s, i, pc, stack) == stack
  {
  }

  /** The slots below the operands taken, and possibly a new top. */
  lemma {:induction false} Extended(code: seq<Instr>, b: nat, pc: nat, stack: seq<Name>, slots: seq<Slot>, last: int,
                                    stack1: seq<Name>, slots1: seq<Slot>, rest: nat)
    requires Told(code, b, pc, stack, slots, last) && b <= pc < |code|
    requires rest <= |slots| && |slots1| == |stack1| && rest <= |slots1| <= rest + 1
    requires slots1[..rest] == slots[..rest] && stack1[..rest] == stack[..rest]
    requires |slots1| > rest ==>
               && slots1[rest].src < rest && slots1[rest].producer <= pc
               && Rooted(slots1, rest) && Recorded(code, b, pc + 1, stack1, slots1, rest)
               && (slots1[rest].producer >= 0 ==>
                   slots1[rest].src < 0 && slots1[rest].producer == pc && stack1[rest] == Made(pc))
    ensures Told(code, b, pc + 1, stack1, slots1, if Quiet(code[pc]) then last else pc)
  {
    hide Quiet, Recorded;
    var next := pc + 1;
    forall j | 0 <= j < |slots1|
      ensures slots1[j].src < j && slots1[j].producer < next && Rooted(slots1, j)
      ensures Recorded(code, b, next, stack1, slots1, j)
      ensures slots1[j].producer >= 0 ==> ProducerNamed(b, next, stack1, slots1, j)
      ensures j < rest ==> slots1[j] == slots[j]
    {
      if j < rest {
        assert slots1[j] == slots1[..rest][j] == slots[j] && stack1[j] == stack1[..rest][j] == stack[j];
        KeptRecord(code, b, pc, stack, slots, stack1, slots1, rest, j);
      }
    }
    assert Tracked(slots1, pc + 1);
    assert LastExact(code, b, pc + 1, if Quiet(code[pc]) then last else pc);
    forall i, j | 0 <= i < j < |slots1| && slots1[i].producer >= 0 ensures slots1[i].producer != slots1[j].producer {
      assert slots1[i] == slots[i];
      if j < rest {
        assert slots1[j] == slots[j];
      }
    }
  }

  lemma {:induction false} KeptRecord(code: seq<Instr>, b: nat, pc: nat, stack: seq<Name>, slots: seq<Slot>,
                                      stack1: seq<Name>, slots1: seq<Slot>, rest: nat, j: nat)
    requires |slots| == |stack| && |slots1| == |stack1| && j < rest <= |slots| && rest <= |slots1| && pc < |code|
    requires slots1[..rest] == slots[..rest] && stack1[..rest] == stack[..rest]
    requires slots[j].src < j && Rooted(slots, j) && Recorded(code, b, pc, stack, slots, j)
    ensures slots1[j].src < j && Rooted(slots1, j) && Recorded(code, b, pc + 1, stack1, slots1, j)
  {
    var m := Resolve(slots, j);
    assert slots1[j] == slots1[..rest][j] == slots[j] && stack1[j] == stack1[..rest][j] == stack[j];
    assert slots1[m] == slots1[..rest][m] == slots[m] && stack1[m] == stack1[..rest][m] == stack[m];
    if stack[j].Made? && QuietRange(code, stack[j].pc + 1, pc + 1) {
      QuietShorter(code, stack[j].pc + 1, pc);
    }
  }

  lemma QuietShorter(code: seq<Instr>, lo: int, hi: int)
    requires QuietRange(code, lo, hi + 1)
    ensures QuietRange(code, lo, hi)
  {
  }

  lemma {:induction false} TopRecord(ctx: Context, s: Start, code: seq<Instr>, b: nat, pc: nat, stack: seq<Name>,
                                     slots: seq<Slot>, last: int)
    requires Told(code, b, pc, stack, slots, last) && b <= pc < |code| && pc < |ctx.ready| && Foreign(s)
    requires Covers(code[pc], |slots|) && !Faults(code[pc], |stack|, |s.env|) && Pushes(code[pc]) == 1
    ensures var rest := |slots| - Takes(code[pc]);
            var slots1, stack1 := slots[..rest] + TopSlot(ctx, code[pc], pc, slots), Stacked(s, code[pc], pc, stack);
            && |slots1| == |stack1| == rest + 1 && stack1[..rest] == stack[..rest]
            && slots1[rest].src < rest && Rooted(slots1, rest) && Recorded(code, b, pc + 1, stack1, slots1, rest)
            && slots1[rest].producer <= pc
            && (slots1[rest].producer >= 0 ==>
                slots1[rest].src < 0 && slots1[rest].producer == pc && stack1[rest] == Made(pc))
  {
    var i, rest := code[pc], |slots| - Takes(code[pc]);
    var slots1, stack1 := slots[..rest] + TopSlot(ctx, i, pc, slots), Stacked(s, i, pc, stack);
    if i.PushSlot? {
      var m := Resolve(slots, i.slot);
      assert Rooted(slots, i.slot) && Recorded(code, b, pc, stack, slots, i.slot);
      if stack[i.slot].Made? && QuietRange(code, stack[i.slot].pc + 1, pc + 1) {
        QuietShorter(code, stack[i.slot].pc + 1, pc);
      }
    } else if i.ForceTop? {
      assert Recorded(code, b, pc, stack, slots, rest);
      assert !Quiet(code[pc]);
    }
  }

  /** The walk at `pc`, once it has looked for the beginning of a block there. */
  function Met(ctx: Context, code: seq<Instr>, pc: nat): (w: Walk)
    requires pc < |code| == |ctx.ready| == |ctx.target|
    ensures Tracked(w.slots, pc) && OnlyConverted(code, w.code, pc) && w.last < pc
  {
    Begin(ctx, pc, WalkTo(ctx, code, pc))
  }

  lemma {:induction false} StartTells(ctx: Context, code: seq<Instr>, s: Start, b: nat)
    requires Reaches(ctx, code, s, b, b)
    ensures StackAt(s, code, b, b) == Some(s.stack)
    ensures var w := Met(ctx, code, b); w.live && Told(w.code, b, b, s.stack, w.slots, w.last)
  {
    hide WalkTo;
    assert StackAt(s, code, b, b) == Some(s.stack);
  }

  lemma ReachesLess(ctx: Context, code: seq<Instr>, s: Start, b: nat, c: nat)
    requires Reaches(ctx, code, s, b, c) && b < c
    ensures Reaches(ctx, code, s, b, c - 1) && !Leads(ctx, code, c) && Foreign(s)
    ensures var r, i := StackAt(s, code, b, c - 1), code[c - 1];
            && r.Some? && !Faults(i, |r.value|, |s.env|)
            && StackAt(s, code, b, c) == Some(Stacked(s, i, c - 1, r.value))
            && |Stacked(s, i, c - 1, r.value)| <= 256
  {
    hide Faults, Stacked, Foreign, Leads;
    assert StackAt(s, code, b, c).Some? && StackAt(s, code, b, c - 1).Some?;
  }

  lemma MetNext(ctx: Context, code: seq<Instr>, pc: nat)
    requires 0 < pc < |code| == |ctx.ready| == |ctx.target| && !Leads(ctx, code, pc)
    ensures Met(ctx, code, pc) == Advance(ctx, pc - 1, Met(ctx, code, pc - 1)) && !Ends(code[pc - 1])
  {
    hide Advance;
  }

  lemma FaultsCovers(i: Instr, depth: nat, vars: nat)
    requires !Faults(i, depth, vars)
    ensures Covers(i, depth)
  {
  }

  /** The walk knows where every operand built in the block came from. */
  lemma {:induction false} WalkTells(ctx: Context, code: seq<Instr>, s: Start, b: nat, pc: nat)
    requires Reaches(ctx, code, s, b, pc)
    ensures var w := Met(ctx, code, pc);
            StackAt(s, code, b, pc).Some? && w.live
                && Told(w.code, b, pc, StackAt(s, code, b, pc).value, w.slots, w.last)
    decreases pc
  {
    hide Told, Reaches, Stacked, Faults, TopSlot, Covers, Consume, Consumer, Takes, WalkTo, Leads, Foreign, Quiet;
    if pc == b {
      StartTells(ctx, code, s, b);
    } else {
      BlockGrows(ctx, code, s, b, pc);
      ReachesLess(ctx, code, s, b, pc);
      WalkTells(ctx, code, s, b, pc - 1);
      MetNext(ctx, code, pc);
      var w, i, stack := Met(ctx, code, pc - 1), code[pc - 1], StackAt(s, code, b, pc - 1).value;
      assert w.code[pc - 1] == i;
      ToldSizes(w.code, b, pc - 1, stack, w.slots, w.last);
      if Consumer(i) && Takes(i) <= |w.slots| {
        ConsumeTells(ctx, i, b, pc - 1, w.code, stack, w.slots, w.last, 0);
      }
      var c := Consumed(ctx, pc - 1, w);
      FaultsCovers(i, |c.slots|, |s.env|);
      StepTells(ctx, s, c.code, b, pc - 1, stack, c.slots, c.last);
      NextLive(ctx, s, c, i, b, pc, stack);
    }
  }

  lemma BlockGrows(ctx: Context, code: seq<Instr>, s: Start, b: nat, pc: nat)
    requires Reaches(ctx, code, s, b, pc) && pc != b
    ensures b < pc < |code| == |ctx.ready| == |ctx.target|
  {
    hide Leads, Foreign;
  }

  lemma NextLive(ctx: Context, s: Start, c: Pass, i: Instr, b: nat, pc: nat, stack: seq<Name>)
    requires 0 < pc <= |ctx.ready| && Covers(i, |c.slots|) && Tracked(c.slots, pc - 1) && !Faults(i, |stack|, |s.env|)
    requires var slots := c.slots[..|c.slots| - Takes(i)] + TopSlot(ctx, i, pc - 1, c.slots);
             Told(c.code, b, pc, Stacked(s, i, pc - 1, stack), slots, if Quiet(i) then c.last else pc - 1)
    requires |Stacked(s, i, pc - 1, stack)| <= 256
    ensures |c.slots[..|c.slots| - Takes(i)] + TopSlot(ctx, i, pc - 1, c.slots)| <= READY_SLOTS
  {
    hide TopSlot, Stacked, Faults;
  }

  // ------------------------------------------------------------------------ the operands

  /** An operand built in this block: a value by now, or a thunk that could be entered and
      after which nothing was evaluated. */
  ghost predicate Linked(code: seq<Instr>, c: nat, x: Name) {
    && x.Made? && x.pc < c <= |code|
    && (code[x.pc].MkThk? ==> Converted(code[x.pc]) != code[x.pc] && QuietRange(code, x.pc + 1, c))
  }

  /** All strict operands of a consumer are, in the order in which it forces them. */
  ghost predicate Chain(ctx: Context, i: Instr, code: seq<Instr>, c: nat, stack: seq<Name>) {
    && Consumer(i) && Takes(i) <= |stack|
    && (forall j: nat :: j < Takes(i) && MaskAt(ctx, i, j) ==> Linked(code, c, Operand(i, stack, j)))
    && (forall j: nat, k: nat :: j < k < Takes(i) && MaskAt(ctx, i, j) && MaskAt(ctx, i, k) ==>
          Operand(i, stack, j).pc < Operand(i, stack, k).pc)
  }

  /** The operands before the k-th are values. */
  ghost predicate Valued(ctx: Context, i: Instr, code: seq<Instr>, c: nat, stack: seq<Name>, k: nat)
    requires Chain(ctx, i, code, c, stack)
  {
    forall j: nat :: j < k && j < Takes(i) && MaskAt(ctx, i, j) ==> !code[Operand(i, stack, j).pc].MkThk?
  }

  /** What the records say of the next strict operand that is still a thunk. */
  lemma {:induction false} NextThunk(ctx: Context, i: Instr, b: nat, pc: nat, code: seq<Instr>, stack: seq<Name>,
                                     slots: seq<Slot>, last: int, k: nat)
    requires Told(code, b, pc, stack, slots, last) && Chain(ctx, i, code, pc, stack)
             && Valued(ctx, i, code, pc, stack, k)
    requires k < Takes(i) && MaskAt(ctx, i, k)
    ensures var m, x := Resolve(slots, |slots| - Takes(i) + k), Operand(i, stack, k);
            if code[x.pc].MkThk? then
              !slots[m].whnf && slots[m].producer == x.pc && last < x.pc && Ordered(ctx, i, pc, slots, x.pc, k)
            else slots[m].whnf
  {
    hide MaskAt, Consumer, Takes, Converted, Quiet;
    var base, x := |slots| - Takes(i), Operand(i, stack, k);
    assert Linked(code, pc, x) && Recorded(code, b, pc, stack, slots, base + k);
    if code[x.pc].MkThk? {
      assert last < x.pc by {
        ThunkQuiet(code[x.pc]);
      }
      forall j: nat | j < k && MaskAt(ctx, i, j) ensures Early(slots, base + j, x.pc, pc) {
        assert Linked(code, pc, Operand(i, stack, j)) && Recorded(code, b, pc, stack, slots, base + j);
        assert Operand(i, stack, j).pc < x.pc;
      }
    }
  }

  lemma ThunkQuiet(i: Instr)
    requires i.MkThk?
    ensures Quiet(i)
  {
  }

  lemma {:induction false} ChainConverted(ctx: Context, i: Instr, code: seq<Instr>, c: nat, stack: seq<Name>, k: nat)
    requires Chain(ctx, i, code, c, stack) && Valued(ctx, i, code, c, stack, k) && k < Takes(i) && MaskAt(ctx, i, k)
    ensures var q := Operand(i, stack, k).pc;
            q < |code| && Chain(ctx, i, code[q := Converted(code[q])], c, stack)
            && Valued(ctx, i, code[q := Converted(code[q])], c, stack, k + 1)
  {
    hide MaskAt, Consumer, Takes, Converted, Quiet;
    var q := Operand(i, stack, k).pc;
    assert Linked(code, c, Operand(i, stack, k));
    var code1 := code[q := Converted(code[q])];
    forall j: nat | j < Takes(i) && MaskAt(ctx, i, j)
      ensures Linked(code1, c, Operand(i, stack, j)) && (j <= k ==> !code1[Operand(i, stack, j).pc].MkThk?)
    {
      assert Linked(code, c, Operand(i, stack, j));
      if j > k {
        assert q < Operand(i, stack, j).pc;
      } else if j == k {
        NoThunk(code[q]);
      }
    }
  }

  lemma NoThunk(i: Instr)
    requires i.MkThk? ==> Converted(i) != i
    ensures !Converted(i).MkThk?
  {
  }

  /** A consumer enters every thunk of its chain. */
  lemma {:induction false} ConsumeChain(ctx: Context, i: Instr, b: nat, pc: nat, code: seq<Instr>, stack: seq<Name>,
                                        slots: seq<Slot>, last: int, k: nat)
    requires Told(code, b, pc, stack, slots, last) && Chain(ctx, i, code, pc, stack) && b <= pc < |code|
    requires Consumer(i) && Takes(i) <= |slots| && Tracked(slots, pc) && Valued(ctx, i, code, pc, stack, k) && k <= 32
    ensures var r := Consume(ctx, i, pc, code, slots, last, k);
            Chain(ctx, i, r.code, pc, stack) && Valued(ctx, i, r.code, pc, stack, Takes(i))
    decreases 32 - k
  {
    hide Told, Converted, MaskAt, Consumer, Takes, OnlyConverted, Consume, Ordered, Chain, Valued;
    ToldSizes(code, b, pc, stack, slots, last);
    ConsumeUnfold(ctx, i, pc, code, slots, last, k);
    if k < Takes(i) && k < 32 {
      var m := Resolve(slots, |slots| - Takes(i) + k);
      if !MaskAt(ctx, i, k) {
        ValuedMore(ctx, i, code, pc, stack, k);
        ConsumeChain(ctx, i, b, pc, code, stack, slots, last, k + 1);
      } else {
        NextThunk(ctx, i, b, pc, code, stack, slots, last, k);
        ChainAt(ctx, i, code, pc, stack, k);
        var q := Operand(i, stack, k).pc;
        if code[q].MkThk? {
          ToldProducer(code, b, pc, stack, slots, last, m);
          EnterTells(code, b, pc, stack, slots, last, m, q);
          ChainConverted(ctx, i, code, pc, stack, k);
          ConsumeChain(ctx, i, b, pc, code[q := Converted(code[q])], stack, Settle(slots, m, q), q, k + 1);
        } else {
          ValuedMore(ctx, i, code, pc, stack, k);
          ConsumeChain(ctx, i, b, pc, code, stack, slots, last, k + 1);
        }
      }
    } else {
      ValuedAll(ctx, i, code, pc, stack, k);
    }
  }

  lemma ChainAt(ctx: Context, i: Instr, code: seq<Instr>, c: nat, stack: seq<Name>, k: nat)
    requires Chain(ctx, i, code, c, stack) && k < Takes(i) && MaskAt(ctx, i, k)
    ensures Linked(code, c, Operand(i, stack, k))
  {
  }

  lemma ValuedMore(ctx: Context, i: Instr, code: seq<Instr>, c: nat, stack: seq<Name>, k: nat)
    requires Chain(ctx, i, code, c, stack) && Valued(ctx, i, code, c, stack, k) && k < Takes(i)
    requires MaskAt(ctx, i, k) ==> !code[Operand(i, stack, k).pc].MkThk?
    ensures Valued(ctx, i, code, c, stack, k + 1)
  {
    hide MaskAt, Consumer, Takes;
  }

  lemma ValuedAll(ctx: Context, i: Instr, code: seq<Instr>, c: nat, stack: seq<Name>, k: nat)
    requires Chain(ctx, i, code, c, stack) && Valued(ctx, i, code, c, stack, k) && (k >= Takes(i) || k >= 32)
    ensures Valued(ctx, i, code, c, stack, Takes(i))
  {
    hide Takes;
  }

  // -------------------------------------------------------------------------- the pass

  /** Between a thunk and its consumer the pass changes nothing. */
  lemma {:induction false} QuietUntouched(ctx: Context, code: seq<Instr>, x: nat, c: nat, n: nat)
    requires |code| == |ctx.ready| == |ctx.target| && x <= n <= c < |code| && Quiet(code[x])
             && QuietRange(code, x + 1, c)
    ensures forall k :: x <= k < |code| ==> WalkTo(ctx, code, n).code[k] == code[k]
    decreases n
  {
    hide Quiet, Consume;
    if x < n {
      QuietUntouched(ctx, code, x, c, n - 1);
      var w := Begin(ctx, n - 1, WalkTo(ctx, code, n - 1));
      assert w.code[n - 1] == code[n - 1];
      QuietNoConsumer(code[n - 1]);
    }
  }

  lemma QuietNoConsumer(i: Instr)
    requires Quiet(i)
    ensures !Consumer(i)
  {
  }

  lemma {:induction false} LaterOnly(ctx: Context, code: seq<Instr>, n: nat, m: nat)
    requires |code| == |ctx.ready| == |ctx.target| && n <= m <= |code|
    ensures OnlyConverted(WalkTo(ctx, code, n).code, WalkTo(ctx, code, m).code, m)
    decreases m
  {
    hide WalkTo, OnlyConverted;
    var from := WalkTo(ctx, code, n).code;
    if n < m {
      LaterOnly(ctx, code, n, m - 1);
      WalkNext(ctx, code, m);
      OnlyConvertedTrans(from, WalkTo(ctx, code, m - 1).code, WalkTo(ctx, code, m).code, m - 1, m);
    } else {
      Unchanged(from, m);
    }
  }

  lemma Unchanged(code: seq<Instr>, n: nat)
    ensures OnlyConverted(code, code, n)
  {
  }

  lemma WalkNext(ctx: Context, code: seq<Instr>, m: nat)
    requires |code| == |ctx.ready| == |ctx.target| && 0 < m <= |code|
    ensures OnlyConverted(WalkTo(ctx, code, m - 1).code, WalkTo(ctx, code, m).code, m)
  {
    hide Advance;
  }

  /** The chain as the pass finds it. */
  lemma {:induction false} ChainMet(ctx: Context, code: seq<Instr>, s: Start, b: nat, c: nat)
    requires Reaches(ctx, code, s, b, c) && Chain(ctx, code[c], code, c, StackAt(s, code, b, c).value)
    ensures Chain(ctx, code[c], Met(ctx, code, c).code, c, StackAt(s, code, b, c).value)
  {
    hide MaskAt, Consumer, Takes, Converted, Quiet, StackAt, Leads, Foreign, WalkTo;
    var i, stack, now := code[c], StackAt(s, code, b, c).value, Met(ctx, code, c).code;
    forall j: nat | j < Takes(i) && MaskAt(ctx, i, j) ensures Linked(now, c, Operand(i, stack, j)) {
      var x := Operand(i, stack, j);
      assert Linked(code, c, x);
      if now[x.pc].MkThk? {
        assert code[x.pc].MkThk?;
        ThunkQuiet(code[x.pc]);
        QuietUntouched(ctx, code, x.pc, c, c);
      }
    }
  }

  /** Main result: if every strict operand of a consumer was built in its block, in the order
      in which the consumer forces them and with nothing evaluated since, the pass leaves
      none of them a thunk: each of those thunk constructions becomes its direct call. */
  lemma {:induction false} OperandsEntered(ctx: Context, code: seq<Instr>, s: Start, b: nat, c: nat, k: nat)
    requires Reaches(ctx, code, s, b, c) && Chain(ctx, code[c], code, c, StackAt(s, code, b, c).value)
    requires k < Takes(code[c]) && MaskAt(ctx, code[c], k)
    ensures var x := Operand(code[c], StackAt(s, code, b, c).value, k);
            x.Made? && x.pc < c && Rewrite(ctx, code)[x.pc] == Converted(code[x.pc])
  {
    hide Told, Reaches, Converted, MaskAt, Consumer, Takes, Consume, StackAt, WalkTo, Valued, Chain;
    ReachesSizes(ctx, code, s, b, c);
    var i := code[c];
    var stack := StackAt(s, code, b, c).value;
    WalkTells(ctx, code, s, b, c);
    ChainMet(ctx, code, s, b, c);
    var w := Met(ctx, code, c);
    ToldSizes(w.code, b, c, stack, w.slots, w.last);
    assert w.code[c] == i;
    NoneBefore(ctx, i, w.code, c, stack);
    ConsumeChain(ctx, i, b, c, w.code, stack, w.slots, w.last, 0);
    var r := Consume(ctx, i, c, w.code, w.slots, w.last, 0);
    assert WalkTo(ctx, code, c + 1).code == r.code by { StepCode(ctx, code, c); }
    LaterOnly(ctx, code, c + 1, |code|);
    var x := Operand(i, stack, k);
    ChainAt(ctx, i, code, c, stack, k);
    assert !r.code[x.pc].MkThk? by { ValuedAt(ctx, i, r.code, c, stack, k); }
    NotThunk(r.code[x.pc]);
    if r.code[x.pc] == code[x.pc] {
      NotThunk(code[x.pc]);
    } else {
      EitherConverted(code, w.code, r.code, c, x.pc);
    }
  }

  lemma ReachesSizes(ctx: Context, code: seq<Instr>, s: Start, b: nat, c: nat)
    requires Reaches(ctx, code, s, b, c)
    ensures |code| == |ctx.ready| == |ctx.target| && b <= c < |code| && StackAt(s, code, b, c).Some?
  {
    hide Leads, Foreign;
  }

  lemma StepCode(ctx: Context, code: seq<Instr>, c: nat)
    requires c < |code| == |ctx.ready| == |ctx.target| && Met(ctx, code, c).live && Consumer(code[c])
    requires Takes(code[c]) <= |Met(ctx, code, c).slots|
    ensures var w := Met(ctx, code, c);
            WalkTo(ctx, code, c + 1).code == Consume(ctx, code[c], c, w.code, w.slots, w.last, 0).code
  {
    hide Consume, Takes, Consumer, TopSlot;
    assert Met(ctx, code, c).code[c] == code[c];
  }

  lemma NoneBefore(ctx: Context, i: Instr, code: seq<Instr>, c: nat, stack: seq<Name>)
    requires Chain(ctx, i, code, c, stack)
    ensures Valued(ctx, i, code, c, stack, 0) && Consumer(i) && Takes(i) <= |stack|
  {
  }

  lemma ValuedAt(ctx: Context, i: Instr, code: seq<Instr>, c: nat, stack: seq<Name>, k: nat)
    requires Chain(ctx, i, code, c, stack) && Valued(ctx, i, code, c, stack, Takes(i)) && k < Takes(i)
             && MaskAt(ctx, i, k)
    ensures Operand(i, stack, k).pc < c <= |code| && !code[Operand(i, stack, k).pc].MkThk?
  {
    hide MaskAt, Takes;
    assert Linked(code, c, Operand(i, stack, k));
  }

  lemma NotThunk(i: Instr)
    requires !i.MkThk?
    ensures Converted(i) == i
  {
  }

  lemma EitherConverted(code: seq<Instr>, now: seq<Instr>, later: seq<Instr>, c: nat, x: nat)
    requires OnlyConverted(code, now, c) && OnlyConverted(now, later, c) && x < |code| && later[x] != code[x]
    ensures later[x] == Converted(code[x])
  {
  }

  // ------------------------------------------------------- which operands, and which calls

  /** The operands that a mask selects, in order. */
  ghost function Masked(ctx: Context, i: Instr, args: seq<Name>): (r: seq<Name>)
    requires Consumer(i)
    decreases |args|
  {
    if args == [] then []
    else
      var k := |args| - 1;
      Masked(ctx, i, args[..k]) + if MaskAt(ctx, i, k) then [args[k]] else []
  }

  /** The mask is exactly what executing the consumer forces first, in that order. */
  lemma {:induction false} MaskIsDemand(ctx: Context, p: Program, i: Instr, stack: seq<Name>)
    requires Consumer(i) && Takes(i) <= |stack| && p.strict == ctx.strict
    ensures Demanded(p, i, stack) == Masked(ctx, i, stack[|stack| - Takes(i)..])
  {
    var args := stack[|stack| - Takes(i)..];
    if i.ForceTop? {
      assert args == [args[0]] && args[..0] == [];
    } else {
      MaskedStrict(ctx, p, i, args);
    }
  }

  lemma {:induction false} MaskedStrict(ctx: Context, p: Program, i: Instr, args: seq<Name>)
    requires Consumer(i) && !i.ForceTop? && p.strict == ctx.strict
    ensures Masked(ctx, i, args) == Strict(p, if i.CallKnown? then i.op else i.bane.op, args)
    decreases |args|
  {
    if args != [] {
      MaskedStrict(ctx, p, i, args[..|args| - 1]);
    }
  }

  /** Which constructions can be entered, and how: a thunk of a known primop as a call of it,
      any other thunk of a head and at least one argument as a call of the head. */
  lemma DirectCalls(argc: nat, op: nat)
    ensures Converted(MkThk(argc, Known(op))) == CallKnown(argc, op)
    ensures argc >= 2 ==> Converted(MkThk(argc, Fast)) == CallFast(argc - 1) == Converted(MkThk(argc, Slow))
    ensures argc < 2 ==> Converted(MkThk(argc, Fast)).MkThk? && Converted(MkThk(argc, Slow)).MkThk?
    ensures Converted(MkThk(argc, Bane.Row)).MkThk?
  {
  }
}
