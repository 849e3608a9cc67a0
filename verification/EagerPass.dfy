/**
  What the eager pass knows (pkg/plan/src/bytecode.c:395-472, 503-705): blocks and
  the starts the readiness facts describe, where each operand slot came from, and
  why entering a producer or following an instruction keeps all of it true.
 */
module EagerPass {
  import opened Thunks
  import opened Bytecode
  import opened EagerBlocks

  /** What the pass is given: readiness facts, jump targets, primop strictness,
      which literals are values, how many variables every activation has, and
      the strict entry (0: none), which no jump target marks. */
  datatype Context = Context(ready: seq<Ready>, target: seq<bool>, strict: (nat, nat) -> bool, literal: nat -> bool,
                             vars: nat, entry: nat)

  datatype Slot = Slot(src: int, producer: int, evalPc: int, whnf: bool)

  const UNKNOWN: Slot := Slot(-1, -1, -1, false)
  const VALUE: Slot := Slot(-1, -1, -1, true)

  // ------------------------------------------------------------------------ blocks

  predicate Leads(ctx: Context, code: seq<Instr>, q: nat)
    requires q < |code| && q < |ctx.target|
  {
    q == 0 || ctx.target[q] || Ends(code[q - 1])
  }

  ghost function Leaders(ctx: Context, code: seq<Instr>): (r: seq<bool>)
    requires |code| == |ctx.target|
  {
    seq(|code|, q requires 0 <= q < |code| => Leads(ctx, code, q))
  }

  /** No block begins in (b, q]. */
  ghost predicate SameBlock(leads: seq<bool>, b: nat, q: nat) {
    b <= q && b < |leads| && leads[b] && forall k :: b < k <= q && k < |leads| ==> !leads[k]
  }

  ghost predicate WholeBlock(leads: seq<bool>, b: nat, e: nat) {
    b < e <= |leads| && SameBlock(leads, b, e - 1) && (e == |leads| || leads[e])
  }

  function VarsAt(r: Ready): (vs: set<nat>) {
    if r.Shape? then r.vars else {}
  }

  ghost predicate IsValue(heap: map<Name, Cell>, x: Name) {
    x in heap && heap[x].Value?
  }

  /** Starts of block `b` that the facts describe. */
  ghost predicate Fits(ctx: Context, leads: seq<bool>, s: Start, b: nat)
    requires |leads| == |ctx.ready| && b < |leads|
  {
    && Sound(s) && |s.env| >= ctx.vars
    && (forall l :: ctx.literal(l) ==> IsValue(s.w.heap, s.lits(l)))
    && (ctx.ready[b].Shape? ==>
          && |s.stack| == ctx.ready[b].depth
          && (forall k :: k in ctx.ready[b].slots && k < |s.stack| ==> IsValue(s.w.heap, s.stack[k]))
          && (forall q, v :: 0 <= q < |leads| && SameBlock(leads, b, q) && v in VarsAt(ctx.ready[q]) && v < |s.env|
                             ==> IsValue(s.w.heap, s.env[v])))
  }

  ghost predicate SameFrom(ctx: Context, leads: seq<bool>, code: seq<Instr>, code1: seq<Instr>,
                           act: (Code, seq<Seen>) -> Action, s: Start, b: nat, e: nat)
    requires |leads| == |ctx.ready| == |code| == |code1| && b < |leads|
  {
    WholeBlock(leads, b, e) && Fits(ctx, leads, s, b) ==>
      var p := Program(act, ctx.strict); Same(Exec(p, s, code, b, e), Exec(p, s, code1, b, e))
  }

  /** Every block does the same evaluations in the same order, whatever the
      bodies of the program are and wherever the block is entered from. */
  ghost predicate Preserves(ctx: Context, leads: seq<bool>, code: seq<Instr>, code1: seq<Instr>)
    requires |leads| == |ctx.ready| == |code|
  {
    |code| == |code1| && forall act, s, b, e :: 0 <= b < |leads| ==> SameFrom(ctx, leads, code, code1, act, s, b, e)
  }

  lemma PreservesRefl(ctx: Context, leads: seq<bool>, code: seq<Instr>)
    requires |leads| == |ctx.ready| == |code|
    ensures Preserves(ctx, leads, code, code)
  {
    hide Exec;
    forall act, s, b, e | 0 <= b < |leads| ensures SameFrom(ctx, leads, code, code, act, s, b, e) {
      if WholeBlock(leads, b, e) {
        SameRefl(Exec(Program(act, ctx.strict), s, code, b, e));
      }
    }
  }

  lemma {:induction false} PreservesTrans(ctx: Context, leads: seq<bool>, x: seq<Instr>, y: seq<Instr>, z: seq<Instr>)
    requires |leads| == |ctx.ready| == |x| == |y| == |z| && Preserves(ctx, leads, x, y) && Preserves(ctx, leads, y, z)
    ensures Preserves(ctx, leads, x, z)
  {
    hide Exec, Fits;
    forall act, s, b, e | 0 <= b < |leads| ensures SameFrom(ctx, leads, x, z, act, s, b, e) {
      assert SameFrom(ctx, leads, x, y, act, s, b, e) && SameFrom(ctx, leads, y, z, act, s, b, e);
      if WholeBlock(leads, b, e) && Fits(ctx, leads, s, b) {
        var p := Program(act, ctx.strict);
        SameTrans(Exec(p, s, x, b, e), Exec(p, s, y, b, e), Exec(p, s, z, b, e));
      }
    }
  }

  // -------------------------------------------------------------------- static depth

  function Pushes(i: Instr): (r: nat) {
    if i.Nop? || i.Entry? || Ends(i) then 0 else 1
  }

  /** The operand depth in front of `pc`, for a block entered at depth `d`. */
  function Depth(code: seq<Instr>, b: nat, pc: nat, d: nat): (r: int)
    requires b <= pc <= |code|
    decreases pc
  {
    if pc == b then d else Depth(code, b, pc - 1, d) - Takes(code[pc - 1]) + Pushes(code[pc - 1])
  }

  /** No instruction of [b, pc) faults. */
  ghost predicate Clear(code: seq<Instr>, b: nat, pc: nat, d: nat, vars: nat)
    requires b <= pc <= |code|
  {
    forall k :: b <= k < pc ==> Depth(code, b, k, d) >= 0 && !Faults(code[k], Depth(code, b, k, d), vars)
  }

  lemma {:induction false} ClearNext(code: seq<Instr>, b: nat, pc: nat, d: nat, vars: nat)
    requires b <= pc < |code| && Clear(code, b, pc, d, vars) && Depth(code, b, pc, d) >= 0
    requires !Faults(code[pc], Depth(code, b, pc, d), vars)
    ensures Clear(code, b, pc + 1, d, vars) && Depth(code, b, pc + 1, d) >= 0
  {
  }

  lemma ClearAt(code: seq<Instr>, b: nat, pc: nat, d: nat, vars: nat, k: nat)
    requires b <= k < pc <= |code| && Clear(code, b, pc, d, vars)
    ensures Clear(code, b, k, d, vars) && Depth(code, b, k, d) >= 0 && !Faults(code[k], Depth(code, b, k, d), vars)
  {
  }

  lemma StackedSize(s: Start, i: Instr, pc: nat, stack: seq<Name>)
    requires !Faults(i, |stack|, |s.env|)
    ensures |Stacked(s, i, pc, stack)| == |stack| - Takes(i) + Pushes(i)
  {
  }

  lemma StepSize(p: Program, s: Start, i: Instr, pc: nat, stack: seq<Name>, w: World)
    ensures var r := Step(p, s, i, pc, stack, w); r.At? ==> |r.stack| == |stack| - Takes(i) + Pushes(i)
  {
    hide Call, Force, Cells, Plus, Operands, Stacked;
    if !Faults(i, |stack|, |s.env|) {
      StackedSize(s, i, pc, stack);
    }
  }

  lemma {:induction false} DepthExec(p: Program, s: Start, code: seq<Instr>, b: nat, pc: nat)
    requires b <= pc <= |code|
    ensures var r := Exec(p, s, code, b, pc); r.At? ==> |r.stack| == Depth(code, b, pc, |s.stack|)
    decreases pc
  {
    hide Step, Takes, Pushes;
    if b < pc {
      DepthExec(p, s, code, b, pc - 1);
      var r := Exec(p, s, code, b, pc - 1);
      if r.At? {
        StepSize(p, s, code[pc - 1], pc - 1, r.stack, r.w);
      }
    }
  }

  lemma {:induction false} ClearGlide(s: Start, code: seq<Instr>, b: nat, q: nat, pc: nat, d: nat, vars: nat,
                                      stack: seq<Name>)
    requires b <= q <= pc <= |code| && Clear(code, b, pc, d, vars) && |s.env| >= vars && |stack| == Depth(code, b, q, d)
    ensures var g := Glide(s, code, q, pc, stack); g.0 && |g.1| == Depth(code, b, pc, d)
    decreases pc
  {
    hide Cells, Clear, Faults, Stacked, Takes, Pushes;
    if q < pc {
      ClearAt(code, b, pc, d, vars, pc - 1);
      ClearGlide(s, code, b, q, pc - 1, d, vars, stack);
      var g := Glide(s, code, q, pc - 1, stack);
      FaultsFewer(code[pc - 1], |g.1|, vars, |s.env|);
      StackedSize(s, code[pc - 1], pc - 1, g.1);
    }
  }

  lemma {:induction false} DepthConverted(code: seq<Instr>, q: nat, b: nat, pc: nat, d: nat)
    requires b <= pc <= |code| && q < |code| && Converted(code[q]) != code[q]
    ensures Depth(code[q := Converted(code[q])], b, pc, d) == Depth(code, b, pc, d)
    decreases pc
  {
    hide Takes;
    if b < pc {
      DepthConverted(code, q, b, pc - 1, d);
    }
  }

  lemma {:induction false} ClearConverted(code: seq<Instr>, q: nat, b: nat, pc: nat, d: nat, vars: nat)
    requires b <= pc <= |code| && q < |code| && Converted(code[q]) != code[q] && Clear(code, b, pc, d, vars)
    ensures Clear(code[q := Converted(code[q])], b, pc, d, vars)
  {
    hide Depth, Faults;
    var code1 := code[q := Converted(code[q])];
    forall k | b <= k < pc ensures Depth(code1, b, k, d) >= 0 && !Faults(code1[k], Depth(code1, b, k, d), vars) {
      DepthConverted(code, q, b, k, d);
    }
  }

  // ------------------------------------------------------------------ facts about slots

  /** Copies refer to lower slots, producers to instructions before `pc`. */
  predicate Tracked(slots: seq<Slot>, pc: nat) {
    forall i :: 0 <= i < |slots| ==> slots[i].src < i && slots[i].producer < pc
  }

  ghost predicate SlotOk(slots: seq<Slot>, i: nat, stack: seq<Name>, heap: map<Name, Cell>)
    requires i < |slots| == |stack|
  {
    && (slots[i].src >= 0 ==> slots[i].src < |stack| && stack[i] == stack[slots[i].src])
    && (slots[i].producer >= 0 ==> stack[i] == Made(slots[i].producer))
    && (slots[i].whnf ==> IsValue(heap, stack[i]))
  }

  ghost predicate FactsFor(r: State, slots: seq<Slot>) {
    r.At? ==> |r.stack| == |slots| && forall i :: 0 <= i < |slots| ==> SlotOk(slots, i, r.stack, r.w.heap)
  }

  ghost predicate Facts(ctx: Context, leads: seq<bool>, code: seq<Instr>, b: nat, pc: nat, slots: seq<Slot>)
    requires |leads| == |ctx.ready| && b < |leads| && b <= pc <= |code|
  {
    forall act, s :: Fits(ctx, leads, s, b) ==> FactsFor(Exec(Program(act, ctx.strict), s, code, b, pc), slots)
  }

  /** What the walk knows in front of `pc` while it is live. */
  ghost predicate Live(ctx: Context, leads: seq<bool>, code: seq<Instr>, b: nat, pc: nat, slots: seq<Slot>, last: int) {
    && |leads| == |ctx.ready| == |code| && b <= pc <= |code| && b < |leads| && ctx.ready[b].Shape?
    && SameBlock(leads, b, if pc == b then b else pc - 1)
    && Clear(code, b, pc, ctx.ready[b].depth, ctx.vars) && Depth(code, b, pc, ctx.ready[b].depth) == |slots|
    && Tracked(slots, pc) && (forall i :: 0 <= i < |slots| && slots[i].producer >= 0 ==> b <= slots[i].producer)
    && last < pc && (forall k :: b <= k < pc && last < k ==> Quiet(code[k]))
    && Facts(ctx, leads, code, b, pc, slots)
  }

  /** `code1` is `code` with some thunk constructions entered directly. */
  ghost predicate OnlyConverted(code: seq<Instr>, code1: seq<Instr>, pc: nat) {
    && |code| == |code1| && (forall k :: pc <= k < |code| ==> code1[k] == code[k])
    && (forall k :: 0 <= k < |code| ==> code1[k] == code[k] || code1[k] == Converted(code[k]))
  }

  // ------------------------------------------------------------- one conversion, in place

  ghost predicate Wants(ctx: Context, leads: seq<bool>, code: seq<Instr>, b: nat, q: nat, c: nat)
    requires |leads| == |ctx.ready| && b < |leads| && b <= c < |code|
  {
    forall act, s :: Fits(ctx, leads, s, b) ==>
      var r := Exec(Program(act, ctx.strict), s, code, b, c);
      r.At? ==> Takes(code[c]) <= |r.stack| && DemandsNext(Program(act, ctx.strict), code[c], r.stack, r.w, Made(q))
  }

  /** The conversion on one run of the block. */
  lemma {:induction false} ConvertRun(ctx: Context, leads: seq<bool>, code: seq<Instr>, b: nat, q: nat, c: nat,
                                      act: (Code, seq<Seen>) -> Action, s: Start)
    requires |leads| == |ctx.ready| == |code| && b <= q < c < |code| && ctx.ready[b].Shape? && Fits(ctx, leads, s, b)
    requires Converted(code[q]) != code[q] && QuietRange(code, q + 1, c) && Wants(ctx, leads, code, b, q, c)
    requires Clear(code, b, c + 1, ctx.ready[b].depth, ctx.vars)
    ensures var p, code1 := Program(act, ctx.strict), code[q := Converted(code[q])];
            && Same(Exec(p, s, code, b, c + 1), Exec(p, s, code1, b, c + 1))
            && (Exec(p, s, code1, b, c).At? ==>
                  var r, r1 := Exec(p, s, code, b, c), Exec(p, s, code1, b, c);
                  r.At? && r1.stack == r.stack && Made(q) in r1.w.heap && r1.w.heap[Made(q)].Value? && Holds(r.w, r1.w))
  {
    hide Step, Same, Holds, DemandsNext, Converted, Clear, Faults, QuietRange, Takes, Pushes, Stacked, Depth, Glide;
    var p, code1, d := Program(act, ctx.strict), code[q := Converted(code[q])], ctx.ready[b].depth;
    ClearAt(code, b, c + 1, d, ctx.vars, c);
    ClearAt(code, b, c, d, ctx.vars, q);
    DepthExec(p, s, code, b, c);
    DepthExec(p, s, code, b, q);
    FaultsFewer(code[c], Depth(code, b, c, d), ctx.vars, |s.env|);
    assert Justified(p, s, code, b, q, c);
    var r := Exec(p, s, code, b, q);
    ExecLocal(p, s, code, code1, b, q);
    if r.At? {
      FaultsFewer(code[q], |r.stack|, ctx.vars, |s.env|);
      var top := Stacked(s, code[q], q, r.stack);
      StackedSize(s, code[q], q, r.stack);
      assert Depth(code, b, q + 1, d) == |top| by { DepthNext(code, b, q, d); }
      ClearGlide(s, code, b, q + 1, c, d, ctx.vars, top);
      ConvertAt(p, s, code, b, q, c, r.stack, r.w);
    } else {
      ExecSplit(p, s, code, b, q, c + 1);
      ExecSplit(p, s, code1, b, q, c + 1);
      ExecSplit(p, s, code1, b, q, c);
      SameRefl(r);
    }
  }

  lemma FaultsFewer(i: Instr, depth: nat, vars: nat, more: nat)
    requires !Faults(i, depth, vars) && vars <= more
    ensures !Faults(i, depth, more)
  {
  }

  lemma DepthNext(code: seq<Instr>, b: nat, pc: nat, d: nat)
    requires b <= pc < |code|
    ensures Depth(code, b, pc + 1, d) == Depth(code, b, pc, d) - Takes(code[pc]) + Pushes(code[pc])
  {
  }

  lemma {:induction false} ConvertPreserves(ctx: Context, leads: seq<bool>, code: seq<Instr>, b: nat, q: nat, c: nat)
    requires |leads| == |ctx.ready| == |code| && b <= q < c < |code| && ctx.ready[b].Shape? && SameBlock(leads, b, c)
    requires Converted(code[q]) != code[q] && QuietRange(code, q + 1, c) && Wants(ctx, leads, code, b, q, c)
    requires Clear(code, b, c + 1, ctx.ready[b].depth, ctx.vars)
    ensures Preserves(ctx, leads, code, code[q := Converted(code[q])])
  {
    hide Clear, Wants, Fits, Step, Exec, Same, Converted, QuietRange;
    var code1 := code[q := Converted(code[q])];
    forall act, s, b1, e | 0 <= b1 < |leads| ensures SameFrom(ctx, leads, code, code1, act, s, b1, e) {
      if WholeBlock(leads, b1, e) && Fits(ctx, leads, s, b1) {
        var p := Program(act, ctx.strict);
        if b1 == b {
          assert c < e by { InsideBlock(leads, b, c, e); }
          ConvertRun(ctx, leads, code, b, q, c, act, s);
          Onward(p, s, code, code1, b, c + 1, e);
        } else {
          assert !(b1 <= q < e) by { OtherBlock(leads, b, q, c, b1, e); }
          ExecLocal(p, s, code, code1, b1, e);
          SameRefl(Exec(p, s, code, b1, e));
        }
      }
    }
  }

  lemma InsideBlock(leads: seq<bool>, b: nat, c: nat, e: nat)
    requires WholeBlock(leads, b, e) && SameBlock(leads, b, c) && c < |leads|
    ensures c < e
  {
  }

  lemma OtherBlock(leads: seq<bool>, b: nat, q: nat, c: nat, b1: nat, e: nat)
    requires WholeBlock(leads, b1, e) && SameBlock(leads, b, c) && b <= q < c < |leads| && b != b1
    ensures !(b1 <= q < e)
  {
  }

  // ---------------------------------------------------------------- reading the slots

  predicate Consumer(i: Instr) {
    i.ForceTop? || i.CallKnown? || (i.TailCall? && i.bane.Known?)
  }

  /** Whether a consumer forces its k-th operand. */
  predicate MaskAt(ctx: Context, i: Instr, k: nat)
    requires Consumer(i)
  {
    k < 32 && match i
              case ForceTop => k == 0
              case CallKnown(_, op) => ctx.strict(op, k)
              case TailCall(_, Known(op)) => ctx.strict(op, k)
  }

  function Resolve(slots: seq<Slot>, j: nat): (r: nat)
    requires j < |slots| && slots[j].src < j
    ensures r <= j
  {
    if slots[j].src >= 0 then slots[j].src else j
  }

  /** All demands before the k-th operand are values, and that one is `x`. */
  lemma {:induction false} StrictNext(p: Program, op: nat, args: seq<Name>, heap: map<Name, Cell>, k: nat)
    requires k < |args| && k < 32 && p.strict(op, k)
    requires forall j :: 0 <= j < k && p.strict(op, j) ==> IsValue(heap, args[j])
    ensures var d := Strict(p, op, args);
            exists i :: 0 <= i < |d| && d[i] == args[k] && forall j :: 0 <= j < i ==> IsValue(heap, d[j])
    decreases |args|
  {
    var rest := args[..|args| - 1];
    if k == |args| - 1 {
      StrictValues(p, op, rest, heap);
      assert Strict(p, op, args) == Strict(p, op, rest) + [args[k]];
      assert Strict(p, op, args)[|Strict(p, op, rest)|] == args[k];
    } else {
      StrictNext(p, op, rest, heap, k);
      var d := Strict(p, op, rest);
      var i :| 0 <= i < |d| && d[i] == rest[k] && forall j :: 0 <= j < i ==> IsValue(heap, d[j]);
      assert Strict(p, op, args)[..|d|] == d;
      assert Strict(p, op, args)[i] == d[i];
      assert forall j :: 0 <= j < i ==> Strict(p, op, args)[j] == d[j];
    }
  }

  lemma {:induction false} StrictValues(p: Program, op: nat, args: seq<Name>, heap: map<Name, Cell>)
    requires forall j :: 0 <= j < |args| && p.strict(op, j) ==> IsValue(heap, args[j])
    ensures forall i :: 0 <= i < |Strict(p, op, args)| ==> IsValue(heap, Strict(p, op, args)[i])
    decreases |args|
  {
    if args != [] {
      StrictValues(p, op, args[..|args| - 1], heap);
    }
  }

  lemma {:induction false} NextDemand(ctx: Context, p: Program, i: Instr, stack: seq<Name>, w: World, k: nat)
    requires Consumer(i) && k < Takes(i) <= |stack| && MaskAt(ctx, i, k) && p.strict == ctx.strict
    requires var base := |stack| - Takes(i);
             forall j :: 0 <= j < k && MaskAt(ctx, i, j) ==> IsValue(w.heap, stack[base + j])
    ensures DemandsNext(p, i, stack, w, stack[|stack| - Takes(i) + k])
  {
    var base := |stack| - Takes(i);
    var args := stack[base..];
    var d := Demanded(p, i, stack);
    if i.ForceTop? {
      assert k == 0 && d == args && d[0] == stack[base];
    } else {
      var op := if i.CallKnown? then i.op else i.bane.op;
      assert d == Strict(p, op, args);
      forall j | 0 <= j < k && p.strict(op, j) ensures IsValue(w.heap, args[j]) {
        assert MaskAt(ctx, i, j) && args[j] == stack[base + j];
      }
      StrictNext(p, op, args, w.heap, k);
      assert args[k] == stack[base + k];
    }
  }

  /** From the slots to the demand: what eager_consume has checked suffices. */
  lemma {:induction false} SlotsWant(ctx: Context, leads: seq<bool>, code: seq<Instr>, b: nat, c: nat,
                                     slots: seq<Slot>, last: int, k: nat, q: nat)
    requires Live(ctx, leads, code, b, c, slots, last) && c < |code| && Consumer(code[c])
             && k < Takes(code[c]) <= |slots|
    requires MaskAt(ctx, code[c], k) && slots[Resolve(slots, |slots| - Takes(code[c]) + k)].producer == q
    requires forall j :: 0 <= j < k && MaskAt(ctx, code[c], j) ==>
             slots[Resolve(slots, |slots| - Takes(code[c]) + j)].whnf
    ensures Wants(ctx, leads, code, b, q, c)
  {
    hide Exec, Fits, DemandsNext, Clear, Depth;
    var i := code[c];
    var base := |slots| - Takes(i);
    forall act, s | Fits(ctx, leads, s, b)
      ensures var r := Exec(Program(act, ctx.strict), s, code, b, c);
              r.At? ==> Takes(i) <= |r.stack| && DemandsNext(Program(act, ctx.strict), i, r.stack, r.w, Made(q))
    {
      var p := Program(act, ctx.strict);
      var r := Exec(p, s, code, b, c);
      assert FactsFor(r, slots);
      if r.At? {
        forall j | 0 <= j < k && MaskAt(ctx, i, j) ensures IsValue(r.w.heap, r.stack[base + j]) {
          assert SlotOk(slots, base + j, r.stack, r.w.heap)
              && SlotOk(slots, Resolve(slots, base + j), r.stack, r.w.heap);
        }
        assert SlotOk(slots, base + k, r.stack, r.w.heap) && SlotOk(slots, Resolve(slots, base + k), r.stack, r.w.heap);
        NextDemand(ctx, p, i, r.stack, r.w, k);
      }
    }
  }

  /** Entering the producer keeps everything the walk knows, and its slot is now a value. */
  lemma {:induction false} LiveConverted(ctx: Context, leads: seq<bool>, code: seq<Instr>, b: nat, c: nat,
                                         slots: seq<Slot>, last: int, m: nat, q: nat)
    requires Live(ctx, leads, code, b, c, slots, last) && c < |code| && m < |slots| && slots[m].producer == q
             && last < q
    requires SameBlock(leads, b, c)
    requires Converted(code[q]) != code[q] && Wants(ctx, leads, code, b, q, c)
    requires Depth(code, b, c, ctx.ready[b].depth) >= 0
             && !Faults(code[c], Depth(code, b, c, ctx.ready[b].depth), ctx.vars)
    ensures var code1 := code[q := Converted(code[q])];
            && Live(ctx, leads, code1, b, c, slots[m := slots[m].(producer := -1, whnf := true, evalPc := q)], q)
            && Preserves(ctx, leads, code, code1)
  {
    hide Fits, Wants, Exec, Converted, Clear, Depth, Faults;
    var code1, slots1 := code[q := Converted(code[q])],
        slots[m := slots[m].(producer := -1, whnf := true, evalPc := q)];
    ClearNext(code, b, c, ctx.ready[b].depth, ctx.vars);
    assert QuietRange(code, q + 1, c);
    ConvertPreserves(ctx, leads, code, b, q, c);
    DepthConverted(code, q, b, c, ctx.ready[b].depth);
    ClearConverted(code, q, b, c, ctx.ready[b].depth, ctx.vars);
    forall act, s | Fits(ctx, leads, s, b) ensures FactsFor(Exec(Program(act, ctx.strict), s, code1, b, c), slots1) {
      var p := Program(act, ctx.strict);
      ConvertRun(ctx, leads, code, b, q, c, act, s);
      FactsAfter(Exec(p, s, code, b, c), Exec(p, s, code1, b, c), slots, slots1, m, q);
    }
  }

  lemma {:induction false} FactsAfter(r: State, r1: State, slots: seq<Slot>, slots1: seq<Slot>, m: nat, q: nat)
    requires FactsFor(r, slots) && m < |slots| && slots[m].producer == q
             && (forall i :: 0 <= i < |slots| ==> slots[i].src < i)
    requires slots1 == slots[m := slots[m].(producer := -1, whnf := true, evalPc := q)]
    requires r1.At? ==>
               r.At? && r1.stack == r.stack && Made(q) in r1.w.heap && r1.w.heap[Made(q)].Value? && Holds(r.w, r1.w)
    ensures FactsFor(r1, slots1)
  {
    if r1.At? {
      forall i | 0 <= i < |slots1| ensures SlotOk(slots1, i, r1.stack, r1.w.heap) {
        assert SlotOk(slots, i, r.stack, r.w.heap);
      }
    }
  }

  lemma LiveSizes(ctx: Context, leads: seq<bool>, code: seq<Instr>, b: nat, pc: nat, slots: seq<Slot>, last: int)
    requires Live(ctx, leads, code, b, pc, slots, last)
    ensures |leads| == |ctx.ready| == |code| && b <= pc <= |code| && b < |leads| && ctx.ready[b].Shape?
    ensures Depth(code, b, pc, ctx.ready[b].depth) == |slots|
    ensures Tracked(slots, pc) && last < pc
  {
  }

  // ----------------------------------------------------------------- one step of the walk

  /** The slot an instruction leaves on top, if any. */
  function TopSlot(ctx: Context, i: Instr, pc: nat, slots: seq<Slot>): (r: seq<Slot>)
    requires pc < |ctx.ready| && Covers(i, |slots|) && Tracked(slots, pc)
    ensures |r| == Pushes(i) && (forall k :: 0 <= k < |r| ==> r[k].src < |slots| - Takes(i) && r[k].producer <= pc)
  {
    match i
    case PushVar(v) => [Slot(-1, -1, -1, v < READY_VARS && v in VarsAt(ctx.ready[pc]))]
    case PushLit(l) => [Slot(-1, -1, -1, ctx.literal(l))]
    case PushSlot(k) => [Slot(Resolve(slots, k), -1, -1, false)]
    case MkThk(_, _) => [Slot(-1, pc, -1, false)]
    case _ => if i.Nop? || i.Entry? || Ends(i) then [] else [VALUE]
  }

  /** What is known about an operand survives the instruction that leaves it in place. */
  lemma {:induction false} RestOk(slots: seq<Slot>, rest: nat, top: seq<Slot>, stack: seq<Name>, stack1: seq<Name>,
                                  w: World, w1: World, k: nat)
    requires k < rest <= |slots| == |stack| && |stack1| == rest + |top| && stack1[..rest] == stack[..rest]
             && Holds(w, w1)
    requires SlotOk(slots, k, stack, w.heap) && slots[k].src < k
    ensures SlotOk(slots[..rest] + top, k, stack1, w1.heap)
  {
    assert stack1[k] == stack1[..rest][k] == stack[k];
    if slots[k].src >= 0 {
      assert stack1[slots[k].src] == stack1[..rest][slots[k].src] == stack[slots[k].src];
    }
  }

  /** And what the walk records about the new top is true. */
  ghost predicate TopTrue(ctx: Context, p: Program, s: Start, pc: nat, i: Instr, slots: seq<Slot>, stack: seq<Name>,
                          w: World)
    requires pc < |ctx.ready| && !Faults(i, |slots|, ctx.vars) && Pushes(i) == 1 && |slots| == |stack|
    requires Tracked(slots, pc)
  {
    var r, rest, top := Step(p, s, i, pc, stack, w), |stack| - Takes(i), TopSlot(ctx, i, pc, slots);
    r.At? ==>
        |r.stack| == rest + 1 && r.stack[..rest] == stack[..rest]
        && SlotOk(slots[..rest] + top, rest, r.stack, r.w.heap)
  }

  lemma {:induction false} TopOk(ctx: Context, leads: seq<bool>, p: Program, s: Start, b: nat, pc: nat, i: Instr,
                                 slots: seq<Slot>, stack: seq<Name>, w: World)
    requires |leads| == |ctx.ready| && pc < |leads| && SameBlock(leads, b, pc) && ctx.ready[b].Shape?
             && Fits(ctx, leads, s, b)
    requires !Faults(i, |slots|, ctx.vars) && Pushes(i) == 1 && |slots| == |stack| && Inside(s, stack, w, pc)
    requires Tracked(slots, pc) && forall k :: 0 <= k < |slots| ==> SlotOk(slots, k, stack, w.heap)
    ensures TopTrue(ctx, p, s, pc, i, slots, stack, w)
  {
    hide TopTrue, Sound, SameBlock, Step;
    if Quiet(i) {
      TopQuiet(ctx, leads, p, s, b, pc, i, slots, stack, w);
    } else if i.ForceTop? {
      TopForce(ctx, p, s, pc, i, slots, stack, w);
    } else {
      assert Calls(i);
      TopCall(ctx, p, s, pc, i, slots, stack, w);
    }
  }

  lemma {:induction false} TopQuiet(ctx: Context, leads: seq<bool>, p: Program, s: Start, b: nat, pc: nat, i: Instr,
                                    slots: seq<Slot>, stack: seq<Name>, w: World)
    requires |leads| == |ctx.ready| && pc < |leads| && SameBlock(leads, b, pc) && ctx.ready[b].Shape?
             && Fits(ctx, leads, s, b)
    requires !Faults(i, |slots|, ctx.vars) && Pushes(i) == 1 && |slots| == |stack| && Inside(s, stack, w, pc)
             && Quiet(i)
    requires Tracked(slots, pc) && forall k :: 0 <= k < |slots| ==> SlotOk(slots, k, stack, w.heap)
    ensures TopTrue(ctx, p, s, pc, i, slots, stack, w)
  {
    hide Call, Force, Sound, SameBlock;
    FaultsFewer(i, |stack|, ctx.vars, |s.env|);
    if i.PushSlot? {
      assert SlotOk(slots, i.slot, stack, w.heap);
    } else if i.PushVar? {
      if i.v in VarsAt(ctx.ready[pc]) {
        assert IsValue(s.w.heap, s.env[i.v]);
      }
    }
  }

  lemma {:induction false} TopForce(ctx: Context, p: Program, s: Start, pc: nat, i: Instr, slots: seq<Slot>,
                                    stack: seq<Name>, w: World)
    requires pc < |ctx.ready| && !Faults(i, |slots|, ctx.vars) && |slots| == |stack| && Inside(s, stack, w, pc)
             && i.ForceTop?
    requires Tracked(slots, pc)
    ensures TopTrue(ctx, p, s, pc, i, slots, stack, w)
  {
    hide Call, Force, Closed;
    ForceKeeps(p, w, stack[|stack| - 1]);
  }

  lemma {:induction false} TopCall(ctx: Context, p: Program, s: Start, pc: nat, i: Instr, slots: seq<Slot>,
                                   stack: seq<Name>, w: World)
    requires pc < |ctx.ready| && !Faults(i, |slots|, ctx.vars) && |slots| == |stack| && Calls(i)
    requires Tracked(slots, pc)
    ensures TopTrue(ctx, p, s, pc, i, slots, stack, w)
  {
    hide Call, Force, Operands, Runs;
    if !Faults(i, |stack|, |s.env|) {
      StackedSize(s, i, pc, stack);
      assert TopSlot(ctx, i, pc, slots) == [VALUE];
    }
  }

  lemma {:induction false} FactsStep(ctx: Context, leads: seq<bool>, code: seq<Instr>, b: nat, pc: nat,
                                     slots: seq<Slot>, last: int,
                                     act: (Code, seq<Seen>) -> Action, s: Start)
    requires Live(ctx, leads, code, b, pc, slots, last) && pc < |code| && !Faults(code[pc], |slots|, ctx.vars)
             && Fits(ctx, leads, s, b)
    requires Covers(code[pc], |slots|) && SameBlock(leads, b, pc)
    ensures FactsFor(Exec(Program(act, ctx.strict), s, code, b, pc + 1),
            slots[..|slots| - Takes(code[pc])] + TopSlot(ctx, code[pc], pc, slots))
  {
    hide Step, Fits, SlotOk, Inside, Clear, Depth, Faults, Takes, SameBlock;
    var p, i := Program(act, ctx.strict), code[pc];
    NoFault(i, |slots|, ctx.vars);
    var r, top, rest := Exec(p, s, code, b, pc), TopSlot(ctx, i, pc, slots), |slots| - Takes(i);
    assert FactsFor(r, slots);
    assert Sound(s) by { FitsSound(ctx, leads, s, b); }
    ExecInside(p, s, code, b, pc);
    if r.At? {
      var r1 := Step(p, s, i, pc, r.stack, r.w);
      StepInside(p, s, i, pc, r.stack, r.w);
      if r1.At? {
        if Pushes(i) == 1 {
          TopOk(ctx, leads, p, s, b, pc, i, slots, r.stack, r.w);
        } else {
          StillStack(p, s, i, pc, r.stack, r.w);
        }
        forall k | 0 <= k < |slots[..rest] + top| ensures SlotOk(slots[..rest] + top, k, r1.stack, r1.w.heap) {
          if k < rest {
            RestOk(slots, rest, top, r.stack, r1.stack, r.w, r1.w, k);
          }
        }
      }
    }
  }

  lemma FitsSound(ctx: Context, leads: seq<bool>, s: Start, b: nat)
    requires |leads| == |ctx.ready| && b < |leads| && Fits(ctx, leads, s, b)
    ensures Sound(s)
  {
  }

  lemma StillStack(p: Program, s: Start, i: Instr, pc: nat, stack: seq<Name>, w: World)
    requires Pushes(i) == 0
    ensures var r := Step(p, s, i, pc, stack, w); r.At? ==> Takes(i) == 0 && r.stack == stack
  {
  }

  lemma {:induction false} LiveStep(ctx: Context, leads: seq<bool>, code: seq<Instr>, b: nat, pc: nat,
                                    slots: seq<Slot>, last: int)
    requires Live(ctx, leads, code, b, pc, slots, last) && pc < |code| && !Faults(code[pc], |slots|, ctx.vars)
    requires Covers(code[pc], |slots|) && SameBlock(leads, b, pc)
    ensures Live(ctx, leads, code, b, pc + 1, slots[..|slots| - Takes(code[pc])] + TopSlot(ctx, code[pc], pc, slots),
                 if Quiet(code[pc]) then last else pc)
  {
    hide Exec, Fits, Clear, Faults, FactsFor, Depth, Takes;
    NoFault(code[pc], |slots|, ctx.vars);
    var slots1 := slots[..|slots| - Takes(code[pc])] + TopSlot(ctx, code[pc], pc, slots);
    ClearNext(code, b, pc, ctx.ready[b].depth, ctx.vars);
    DepthNext(code, b, pc, ctx.ready[b].depth);
    forall act,
        s | Fits(ctx, leads, s, b) ensures FactsFor(Exec(Program(act, ctx.strict), s, code, b, pc + 1), slots1) {
      FactsStep(ctx, leads, code, b, pc, slots, last, act, s);
    }
  }

  function StartSlots(r: Ready): (slots: seq<Slot>)
    requires r.Shape?
  {
    seq(r.depth, k requires 0 <= k < r.depth => if k in r.slots then VALUE else UNKNOWN)
  }

  lemma {:induction false} LiveStart(ctx: Context, leads: seq<bool>, code: seq<Instr>, b: nat)
    requires |leads| == |ctx.ready| == |code| && b < |code| && leads[b] && ctx.ready[b].Shape?
    ensures Live(ctx, leads, code, b, b, StartSlots(ctx.ready[b]), -1)
  {
    hide Sound;
    var slots := StartSlots(ctx.ready[b]);
    forall act, s | Fits(ctx, leads, s, b) ensures FactsFor(Exec(Program(act, ctx.strict), s, code, b, b), slots) {
    }
  }
}
