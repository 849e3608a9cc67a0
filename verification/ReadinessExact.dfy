/**
  The readiness facts say all they can (pkg/plan/src/bytecode.c:264-386): against the
  frames a state describes, a slot or variable is known behind an instruction exactly
  when it is a value in every one of them, and an opcode is left unchecked exactly
  when its operands are.
 */
module ReadinessExact {
  import opened Basics
  import opened Bytecode
  import opened Readiness
  import opened ReadinessRuns

  /** The frames at `pc` that a state describes and that can execute there. */
  ghost predicate Describes(p: Program, pc: nat, s: Ready, f: Frame) {
    f.pc == pc && !f.waiting && ReadinessRuns.Covers(s, f.stack, f.vars) && CanExec(p, f)
  }

  /** The same frame behind its instruction, with what it waits for delivered. */
  ghost function Behind(p: Program, f: Frame, early: bool): (g: Frame)
    requires CanExec(p, f) && !Ends(p.ops[f.pc])
  {
    var g := After(p, f, early)[0];
    if g.waiting then g.(stack := g.stack + [true], waiting := false) else g
  }

  /** Slot `k`, or variable `v`, is a value behind the instruction in every frame. */
  ghost predicate SlotAlways(p: Program, pc: nat, s: Ready, k: nat)
    requires pc < |p.ops| && !Ends(p.ops[pc])
  {
    forall f, early :: Describes(p, pc, s, f) ==> k < |Behind(p, f, early).stack| && Behind(p, f, early).stack[k]
  }

  ghost predicate VarAlways(p: Program, pc: nat, s: Ready, v: nat)
    requires pc < |p.ops| && !Ends(p.ops[pc])
  {
    forall f, early :: Describes(p, pc, s, f) ==> v < |Behind(p, f, early).vars| && Behind(p, f, early).vars[v]
  }

  /** The frame that has nothing but what the state promises. */
  ghost function Least(pc: nat, s: Ready, vars: nat): (f: Frame)
    requires s.Shape?
  {
    Frame(pc, seq(s.depth, k => k in s.slots), seq(vars, v => v in s.vars), false)
  }

  ghost predicate Executes(p: Program, pc: nat, s: Ready) {
    exists f :: Describes(p, pc, s, f)
  }

  /** How many variables the least frame needs to execute here. */
  function Enough(i: Instr): (n: nat)
    ensures n >= READY_VARS
  {
    if i.PushVar? && i.v >= READY_VARS then i.v + 1 else READY_VARS
  }

  lemma {:induction false} LeastDescribed(p: Program, pc: nat, s: Ready)
    requires pc < |p.ops| && s.Shape? && Proper(s) && Executes(p, pc, s)
    ensures Describes(p, pc, s, Least(pc, s, Enough(p.ops[pc])))
  {
    var f :| Describes(p, pc, s, f);
    var g := Least(pc, s, Enough(p.ops[pc]));
    assert |f.stack| == |g.stack|;
  }

  /** Where the flow to the next instruction stands among the flows. */
  function NextFlow(i: Instr): (k: nat) {
    if i.CallBlock? then 1 else 0
  }

  /** The stack of a frame behind the instruction, slot by slot. */
  lemma {:induction false} BehindSlots(p: Program, f: Frame, early: bool)
    requires CanExec(p, f) && !f.waiting && !Ends(p.ops[f.pc])
    ensures var i, g := p.ops[f.pc], Behind(p, f, early);
            && g.vars == f.vars && Pops(i) <= |f.stack| && |g.stack| == |f.stack| - Pops(i) + Grows(i)
            && (forall k :: 0 <= k < |f.stack| - Pops(i) ==> g.stack[k] == f.stack[k])
            && (Grows(i) == 1 ==> g.stack[|f.stack| - Pops(i)] == TopOf(p, i, f, early))
  {
  }

  function Pops(i: Instr): (n: nat) {
    match i
    case MkThk(n, _) => n
    case MkApp(n) => n + 1
    case ForceTop => 1
    case CallKnown(n, _) => n
    case CallFast(n) => n + 1
    case CallSlow(n) => n + 1
    case CallBlock(_, n) => n
    case _ => 0
  }

  function Grows(i: Instr): (n: nat) {
    if i.Nop? || i.Entry? then 0 else 1
  }

  /** What lands on top: a variable, a literal, a copy, a thunk or a value. */
  function TopOf(p: Program, i: Instr, f: Frame, early: bool): (r: bool) {
    match i
    case PushVar(v) => v < |f.vars| && f.vars[v]
    case PushLit(l) => p.literal(l)
    case PushSlot(k) => k < |f.stack| && f.stack[k]
    case MkThk(_, _) => early
    case _ => true
  }

  /** The state that flows on, slot by slot. */
  lemma {:induction false} FlowSlots(p: Program, pc: nat, s: Ready)
    requires pc < |p.ops| && s.Shape? && Proper(s) && !Ends(p.ops[pc]) && Pops(p.ops[pc]) <= s.depth
    ensures Flows(p, pc, s).Some? && NextFlow(p.ops[pc]) < |Flows(p, pc, s).value|
    ensures var i, t := p.ops[pc], Flows(p, pc, s).value[NextFlow(p.ops[pc])];
            var depth := s.depth - Pops(i) + Grows(i);
            && t.target == pc + 1
            && (depth > READY_SLOTS ==> t.state == Unknown)
            && (depth <= READY_SLOTS ==>
                  && t.state.Shape? && t.state.depth == depth && t.state.vars == s.vars
                  && (forall k :: k < s.depth - Pops(i) ==> (k in t.state.slots <==> k in s.slots))
                  && (Grows(i) == 1 ==> (s.depth - Pops(i) in t.state.slots
                                         <==> TopOf(p, i, Least(pc, s, Enough(i)), false)))
                  && (forall k :: k in t.state.slots ==> k < depth))
  {
  }

  /** What the least frame has on top, every frame has. */
  lemma TopGrows(p: Program, i: Instr, pc: nat, s: Ready, f: Frame, early: bool)
    requires s.Shape? && ReadinessRuns.Covers(s, f.stack, f.vars) && TopOf(p, i, Least(pc, s, Enough(i)), false)
    ensures TopOf(p, i, f, early)
  {
  }

  /** Main result: behind every instruction that falls through, exactly what is a value
      in every described frame is known to be one, the depth is known unless it passes
      256, and nothing is claimed of a state without a depth. */
  lemma {:induction false} FlowExact(p: Program, pc: nat, s: Ready)
    requires pc < |p.ops| && s.Shape? && Proper(s) && !Ends(p.ops[pc]) && Executes(p, pc, s)
    ensures Flows(p, pc, s).Some? && NextFlow(p.ops[pc]) < |Flows(p, pc, s).value|
    ensures var f, t := Least(pc, s, Enough(p.ops[pc])), Flows(p, pc, s).value[NextFlow(p.ops[pc])].state;
            var depth := |Behind(p, f, false).stack|;
            && (depth > 256 <==> t == Unknown)
            && (depth <= 256 ==>
                  && t.Shape? && t.depth == depth
                  && (forall k: nat :: k in t.slots <==> SlotAlways(p, pc, s, k))
                  && (forall v: nat :: v in t.vars <==> VarAlways(p, pc, s, v)))
  {
    hide Flows, After, TopOf, Enough;
    var i, f := p.ops[pc], Least(pc, s, Enough(p.ops[pc]));
    LeastDescribed(p, pc, s);
    BehindSlots(p, f, false);
    FlowSlots(p, pc, s);
    var t := Flows(p, pc, s).value[NextFlow(i)].state;
    if t.Shape? {
      forall k: nat ensures k in t.slots <==> SlotAlways(p, pc, s, k) {
        if k in t.slots {
          SlotKnown(p, pc, s, k);
        }
        assert SlotAlways(p, pc, s, k) ==> k < |Behind(p, f, false).stack| && Behind(p, f, false).stack[k];
      }
      forall v: nat ensures v in t.vars <==> VarAlways(p, pc, s, v) {
        VarKnown(p, pc, s, v);
      }
    }
  }

  lemma {:induction false} SlotKnown(p: Program, pc: nat, s: Ready, k: nat)
    requires pc < |p.ops| && s.Shape? && Proper(s) && !Ends(p.ops[pc]) && Pops(p.ops[pc]) <= s.depth
    requires Flows(p, pc, s).Some? && NextFlow(p.ops[pc]) < |Flows(p, pc, s).value|
    requires var t := Flows(p, pc, s).value[NextFlow(p.ops[pc])].state; t.Shape? && k in t.slots
    ensures SlotAlways(p, pc, s, k)
  {
    hide Flows, After, TopOf, Enough, CanExec;
    FlowSlots(p, pc, s);
    var i := p.ops[pc];
    forall f, early | Describes(p, pc, s, f)
      ensures k < |Behind(p, f, early).stack| && Behind(p, f, early).stack[k]
    {
      BehindSlots(p, f, early);
      if k == s.depth - Pops(i) {
        TopGrows(p, i, pc, s, f, early);
      }
    }
  }

  lemma {:induction false} VarKnown(p: Program, pc: nat, s: Ready, v: nat)
    requires pc < |p.ops| && s.Shape? && Proper(s) && !Ends(p.ops[pc]) && Executes(p, pc, s)
    ensures v in s.vars <==> VarAlways(p, pc, s, v)
  {
    hide After, CanExec, Enough;
    var f := Least(pc, s, Enough(p.ops[pc]));
    LeastDescribed(p, pc, s);
    BehindSlots(p, f, false);
    forall g, early | v in s.vars && Describes(p, pc, s, g)
      ensures v < |Behind(p, g, early).vars| && Behind(p, g, early).vars[v]
    {
      BehindSlots(p, g, early);
    }
    assert VarAlways(p, pc, s, v) ==> v < |Behind(p, f, false).vars| && Behind(p, f, false).vars[v];
  }

  // -------------------------------------------------------------------- the other flows

  /** An underflow is reported exactly when no described frame can execute for want of
      operands; a state without a depth never underflows. */
  lemma {:induction false} UnderflowExact(p: Program, pc: nat, s: Ready)
    requires pc < |p.ops| && Proper(s) && !s.Unseen?
    ensures Flows(p, pc, s).None? <==> s.Shape? && Needs(p.ops[pc]) > s.depth
  {
  }

  /** The operands an instruction takes off the stack or hands on. */
  function Needs(i: Instr): (n: nat) {
    match i
    case Br(_) => 1
    case Ret => 1
    case TailCall(n, _) => n
    case TailBlk(_, n) => n
    case _ => Pops(i)
  }

  /** Those are the operands the machine checks for. */
  lemma {:induction false} NeedsAreChecked(p: Program, f: Frame)
    requires f.pc < |p.ops|
    ensures CanExec(p, f) ==> Needs(p.ops[f.pc]) <= |f.stack|
    ensures !p.ops[f.pc].PushVar? && !p.ops[f.pc].PushSlot? ==> (CanExec(p, f) <==> Needs(p.ops[f.pc]) <= |f.stack|)
  {
  }

  /** A jump carries the whole state; an arm of a branch all but the scrutinee. */
  lemma {:induction false} JumpExact(p: Program, pc: nat, s: Ready, arm: nat)
    requires pc < |p.ops| && s.Shape? && Proper(s)
    ensures p.ops[pc].Jmp? ==> Flows(p, pc, s) == Some([Flow(p.ops[pc].target, s)])
    ensures p.ops[pc].Br? && s.depth > 0 && arm < |p.ops[pc].targets| ==>
              && Flows(p, pc, s).Some? && |Flows(p, pc, s).value| == |p.ops[pc].targets|
              && var f := Flows(p, pc, s).value[arm];
                 && f.target == p.ops[pc].targets[arm] && f.state.Shape? && f.state.depth == s.depth - 1
                 && f.state.vars == s.vars
                 && forall k :: k in f.state.slots <==> k in s.slots && k < s.depth - 1
  {
  }

  /** A block starts with its arguments and knows nothing of them; a return or a tail
      call flows nowhere. */
  lemma {:induction false} BlockExact(p: Program, pc: nat, s: Ready)
    requires pc < |p.ops| && s.Shape? && Proper(s) && Needs(p.ops[pc]) <= s.depth
    ensures p.ops[pc].TailBlk? ==> Flows(p, pc, s) == Some([Flow(p.ops[pc].target, Shape(p.ops[pc].argc, {}, {}))])
    ensures p.ops[pc].CallBlock? ==>
              Flows(p, pc, s).Some? && |Flows(p, pc, s).value| == 2
              && Flows(p, pc, s).value[0] == Flow(p.ops[pc].target, Shape(p.ops[pc].argc, {}, {}))
    ensures p.ops[pc].Ret? || p.ops[pc].TailCall? ==> Flows(p, pc, s) == Some([])
    ensures !p.ops[pc].CallBlock? && !Ends(p.ops[pc]) ==> Flows(p, pc, s).Some? && |Flows(p, pc, s).value| == 1
  {
  }

  // ------------------------------------------------------------------------ ways in

  /** From outside the stack is empty; a law's block has its arguments; nothing else is
      known, but for the strict variables at the strict entry. */
  lemma {:induction false} EntriesExact(p: Program)
    ensures var es := Entries(p);
            && |es| == 1 + (if p.entry != 0 then 1 else 0) + |p.laws|
            && es[0] == Flow(0, Shape(0, {}, {}))
            && (p.entry != 0 ==> es[1] == Flow(p.entry, Shape(0, {}, StrictVars(p))))
            && forall k :: 0 <= k < |p.laws| ==>
                 es[|es| - |p.laws| + k]
                     == Flow(p.laws[k].target, if p.laws[k].arity <= 256 then Shape(p.laws[k].arity, {}, {})
                     else Unknown)
  {
  }

  /** The fast entry was taken with these arguments. */
  ghost predicate EntersFast(p: Program, args: seq<Arg>) {
    p.entry != 0 && StrictPc(p, args) == p.entry
  }

  ghost predicate StrictAlways(p: Program, v: nat) {
    forall args, self :: EntersFast(p, args) ==>
      var f := StrictFrame(p, p.entry, Resolved(p, args), self); v < |f.vars| && f.vars[v]
  }

  /** A variable below 64 is known at the strict entry exactly when it is a value
      whenever the entry is taken. */
  lemma {:induction false} StrictExact(p: Program, v: nat)
    requires p.entry != 0 && p.strictArgs != {} && v < 64
    ensures v in StrictVars(p) <==> StrictAlways(p, v)
  {
    var n := Widest(p.strictArgs);
    var args := seq(n, k => if k in p.strictArgs then Direct else Deferred);
    assert EntersFast(p, args);
    var f := StrictFrame(p, p.entry, Resolved(p, args), false);
    assert StrictAlways(p, v) ==> v < |f.vars| && f.vars[v];
    if v in StrictVars(p) {
      forall args, self | EntersFast(p, args)
        ensures var f := StrictFrame(p, p.entry, Resolved(p, args), self); v < |f.vars| && f.vars[v]
      {
      }
    }
  }

  ghost function Widest(s: set<nat>): (n: nat)
    ensures forall k :: k in s ==> k < n
  {
    if s == {} then 0
    else
      var k :| k in s;
      var m := Widest(s - {k});
      assert forall j :: j in s ==> j == k || j in s - {k};
      if m > k then m else k + 1
  }

  // ------------------------------------------------------------------ unchecked opcodes

  ghost predicate OperandsAlways(p: Program, pc: nat, s: Ready)
    requires pc < |p.ops|
  {
    forall f: Frame :: f.pc == pc && ReadinessRuns.Covers(s, f.stack, f.vars) ==>
        OperandsAreValues(p, p.ops[pc], f.stack)
  }

  /** An opcode is left unchecked exactly when the operands it would look at are values
      in every described frame; and never where no depth is known. */
  lemma {:induction false} UncheckedExact(p: Program, pc: nat, s: Ready)
    requires pc < |p.ops| && Proper(s) && !s.Unseen?
    ensures s.Shape? ==> (Unchecked(p, p.ops[pc], s) <==> OperandsAlways(p, pc, s))
    ensures s.Unknown? ==> !Unchecked(p, p.ops[pc], s)
  {
    if s.Shape? {
      var f := Least(pc, s, READY_VARS);
      assert ReadinessRuns.Covers(s, f.stack, f.vars);
      assert OperandsAlways(p, pc, s) ==> OperandsAreValues(p, p.ops[pc], f.stack);
      UncheckedLeast(p, p.ops[pc], pc, s);
    }
  }

  lemma {:induction false} UncheckedLeast(p: Program, i: Instr, pc: nat, s: Ready)
    requires s.Shape? && Proper(s)
    ensures Unchecked(p, i, s) <==> OperandsAreValues(p, i, Least(pc, s, READY_VARS).stack)
  {
  }

  /** The widths of the analysis. */
  lemma Widths()
    ensures READY_SLOTS == 256 && READY_VARS == 64
  {
  }
}
