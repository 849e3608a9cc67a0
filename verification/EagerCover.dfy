/**
  The readiness facts hold along whole activations (pkg/plan/src/bytecode.c:112-386):
  wherever a block begins its facts describe the operand stack and the variables, so
  that the starts the eager pass is preserved from are the starts that occur.
 */
module EagerCover {
  import opened Thunks
  import opened Bytecode
  import opened EagerBlocks
  import opened EagerPass
  import Readiness
  import RR = ReadinessRuns

  /** Which of these cells are values. */
  ghost function Bools(heap: map<Name, Cell>, xs: seq<Name>): (r: seq<bool>)
    ensures |r| == |xs|
  {
    seq(|xs|, i requires 0 <= i < |xs| => IsValue(heap, xs[i]))
  }

  ghost predicate Below(a: seq<bool>, b: seq<bool>) {
    |a| == |b| && forall k :: 0 <= k < |a| && a[k] ==> b[k]
  }

  lemma CoversMore(s: Ready, a: seq<bool>, b: seq<bool>, va: seq<bool>, vb: seq<bool>)
    requires RR.Covers(s, a, va) && Below(a, b) && Below(va, vb)
    ensures RR.Covers(s, b, vb)
  {
  }

  ghost function FrameOf(pc: nat, stack: seq<Name>, vars: seq<Name>, w: World): (f: RR.Frame) {
    RR.Frame(pc, Bools(w.heap, stack), Bools(w.heap, vars), false)
  }

  ghost predicate LitsOk(literal: nat -> bool, lits: nat -> Name, w: World) {
    forall l :: literal(l) ==> IsValue(w.heap, lits(l))
  }

  // --------------------------------------------------------------- one instruction

  lemma {:induction false} CanStep(q: Readiness.Program, s: Start, pc: nat, stack: seq<Name>, w: World)
    requires pc < |q.ops| && !Faults(q.ops[pc], |stack|, |s.env|) && !Ends(q.ops[pc])
    ensures RR.CanExec(q, FrameOf(pc, stack, s.env, w))
  {
  }

  /** What an evaluation or an application leaves on top is a value. */
  lemma {:induction false} TopValue(p: Program, s: Start, i: Instr, pc: nat, stack: seq<Name>, w: World)
    requires (i.MkApp? || i.ForceTop? || Calls(i)) && Inside(s, stack, w, pc)
    ensures var r := Step(p, s, i, pc, stack, w);
            r.At? ==> r.stack != [] && IsValue(r.w.heap, r.stack[|r.stack| - 1])
  {
    hide Call, Force, Closed, Operands, Runs;
    if !Faults(i, |stack|, |s.env|) && i.ForceTop? {
      ForceKeeps(p, w, stack[|stack| - 1]);
    }
  }

  /** The operands below stay where they are. */
  lemma {:induction false} RestStays(p: Program, s: Start, i: Instr, pc: nat, stack: seq<Name>, w: World)
    requires !Ends(i)
    ensures var r := Step(p, s, i, pc, stack, w);
            r.At? ==> Takes(i) <= |stack| && |r.stack| == |stack| - Takes(i) + Pushes(i)
                      && forall k :: 0 <= k < |stack| - Takes(i) ==> r.stack[k] == stack[k]
  {
    hide Call, Force, Cells, Plus, Operands, Runs;
  }

  /** What the abstract machine pushes; a thunk counts as deferred. */
  function Known(q: Readiness.Program, i: Instr, f: RR.Frame): (r: bool) {
    match i
    case PushVar(v) => v < |f.vars| && f.vars[v]
    case PushLit(l) => q.literal(l)
    case PushSlot(k) => k < |f.stack| && f.stack[k]
    case MkThk(_, _) => false
    case _ => true
  }

  /** The abstract machine's next state of this frame. */
  lemma {:induction false} NextFrame(q: Readiness.Program, f: RR.Frame)
    requires f.pc < |q.ops| && RR.CanExec(q, f) && !f.waiting && !Ends(q.ops[f.pc])
    ensures RR.After(q, f, false) != [] && FollowsFrom(q, f, RR.After(q, f, false)[0])
  {
    hide RR.After, RR.CanExec, FollowsFrom, Known, Takes;
    var i := q.ops[f.pc];
    if Quiet(i) {
      NextQuiet(q, f);
    } else {
      NextWaiting(q, f);
    }
  }

  ghost predicate FollowsFrom(q: Readiness.Program, f: RR.Frame, g: RR.Frame)
    requires f.pc < |q.ops|
  {
    var i := q.ops[f.pc];
    && g.pc == f.pc + 1 && g.vars == f.vars && Takes(i) <= |f.stack|
    && (if g.waiting then g.stack + [true] else g.stack)
       == f.stack[..|f.stack| - Takes(i)] + if Pushes(i) == 1 then [Known(q, i, f)] else []
  }

  lemma {:induction false} NextQuiet(q: Readiness.Program, f: RR.Frame)
    requires RR.CanExec(q, f) && !f.waiting && Quiet(q.ops[f.pc])
    ensures RR.After(q, f, false) != [] && FollowsFrom(q, f, RR.After(q, f, false)[0])
  {
    assert f.stack[..|f.stack|] == f.stack;
  }

  lemma {:induction false} NextWaiting(q: Readiness.Program, f: RR.Frame)
    requires RR.CanExec(q, f) && !f.waiting && !Quiet(q.ops[f.pc]) && !Ends(q.ops[f.pc])
    ensures RR.After(q, f, false) != [] && FollowsFrom(q, f, RR.After(q, f, false)[0])
  {
  }

  lemma {:induction false} TopBelow(q: Readiness.Program, p: Program, s: Start, pc: nat, stack: seq<Name>, w: World)
    requires pc < |q.ops| && !Ends(q.ops[pc]) && Pushes(q.ops[pc]) == 1 && Inside(s, stack, w, pc) && Sound(s)
    requires LitsOk(q.literal, s.lits, w)
    ensures var r := Step(p, s, q.ops[pc], pc, stack, w);
            r.At? && Known(q, q.ops[pc], FrameOf(pc, stack, s.env, w)) ==>
              r.stack != [] && IsValue(r.w.heap, r.stack[|r.stack| - 1])
  {
    hide Call, Force, Closed, Sound, Operands, Runs;
    var i := q.ops[pc];
    if i.MkApp? || i.ForceTop? || Calls(i) {
      TopValue(p, s, i, pc, stack, w);
    }
  }

  lemma {:induction false} StepBelow(q: Readiness.Program, p: Program, s: Start, pc: nat, stack: seq<Name>, w: World)
    requires pc < |q.ops| && !Ends(q.ops[pc]) && Inside(s, stack, w, pc) && Sound(s) && LitsOk(q.literal, s.lits, w)
    ensures var i, f, r := q.ops[pc], FrameOf(pc, stack, s.env, w), Step(p, s, q.ops[pc], pc, stack, w);
            r.At? ==>
              && Takes(i) <= |f.stack| && Holds(w, r.w)
              && Below(f.stack[..|f.stack| - Takes(i)] + (if Pushes(i) == 1 then [Known(q, i, f)] else []),
                       Bools(r.w.heap, r.stack))
              && Below(f.vars, Bools(r.w.heap, s.env))
  {
    hide Step, Sound, Inside, Known, Takes, Calls;
    var i, f, r := q.ops[pc], FrameOf(pc, stack, s.env, w), Step(p, s, q.ops[pc], pc, stack, w);
    RestStays(p, s, i, pc, stack, w);
    StepInside(p, s, i, pc, stack, w);
    if Pushes(i) == 1 {
      TopBelow(q, p, s, pc, stack, w);
    }
  }

  /** One instruction keeps the facts. */
  lemma {:induction false} StepCovered(q: Readiness.Program, states: seq<Ready>, p: Program, s: Start, pc: nat,
                                       stack: seq<Name>, w: World)
    requires Readiness.Solution(q, states) && RR.Decoded(q) && pc < |q.ops| && !Ends(q.ops[pc])
    requires Inside(s, stack, w, pc) && Sound(s) && LitsOk(q.literal, s.lits, w)
    requires RR.FrameOk(states, FrameOf(pc, stack, s.env, w))
    ensures var r := Step(p, s, q.ops[pc], pc, stack, w);
            r.At? ==> RR.FrameOk(states, FrameOf(pc + 1, r.stack, s.env, r.w)) && LitsOk(q.literal, s.lits, r.w)
  {
    hide Readiness.Solution, RR.Decoded, Step, Sound, Inside, RR.After, RR.Covers, Known, Takes, Faults, RR.CanExec,
         Pushes, Bools, Below;
    var i, f, r := q.ops[pc], FrameOf(pc, stack, s.env, w), Step(p, s, q.ops[pc], pc, stack, w);
    if r.At? {
      assert !Faults(i, |stack|, |s.env|) by { AtUnfaulted(p, s, i, pc, stack, w); }
      CanStep(q, s, pc, stack, w);
      if i.CallBlock? {
        RR.JumpOk(q, states, f, false);
      } else {
        RR.StraightOk(q, states, f, false);
      }
      NextFrame(q, f);
      var g := RR.After(q, f, false)[0];
      assert RR.FrameOk(states, g);
      StepBelow(q, p, s, pc, stack, w);
      var gs := if g.waiting then g.stack + [true] else g.stack;
      CoversMore(states[pc + 1], gs, Bools(r.w.heap, r.stack), f.vars, Bools(r.w.heap, s.env));
    }
  }

  lemma AtUnfaulted(p: Program, s: Start, i: Instr, pc: nat, stack: seq<Name>, w: World)
    requires Step(p, s, i, pc, stack, w).At?
    ensures !Faults(i, |stack|, |s.env|)
  {
  }

  // --------------------------------------------------------------- a whole block

  /** The facts hold in front of every instruction of the block that is reached. */
  lemma {:induction false} BlockCovered(q: Readiness.Program, states: seq<Ready>, p: Program, s: Start, b: nat, pc: nat)
    requires Readiness.Solution(q, states) && RR.Decoded(q) && Sound(s) && LitsOk(q.literal, s.lits, s.w)
    requires b <= pc < |q.ops| && (forall k :: b <= k < pc ==> !Ends(q.ops[k]))
    requires RR.FrameOk(states, FrameOf(b, s.stack, s.env, s.w))
    ensures var r := Exec(p, s, q.ops, b, pc);
            r.At? ==> RR.FrameOk(states, FrameOf(pc, r.stack, s.env, r.w)) && LitsOk(q.literal, s.lits, r.w)
    decreases pc
  {
    hide Readiness.Solution, RR.Decoded, Step, Sound, RR.FrameOk, LitsOk;
    if b < pc {
      BlockCovered(q, states, p, s, b, pc - 1);
      var r := Exec(p, s, q.ops, b, pc - 1);
      if r.At? {
        ExecInside(p, s, q.ops, b, pc - 1);
        StepCovered(q, states, p, s, pc - 1, r.stack, r.w);
      }
    }
  }

  /** Variables are known in a block only if they are where it begins. */
  lemma {:induction false} VarsFall(q: Readiness.Program, states: seq<Ready>, b: nat, pc: nat)
    requires Readiness.Solution(q, states) && b <= pc < |q.ops| && !states[b].Unseen?
    requires forall k :: b <= k < pc ==> !Ends(q.ops[k])
    ensures |states| == |q.ops| && !states[pc].Unseen? && VarsAt(states[pc]) <= VarsAt(states[b])
    decreases pc
  {
    hide Readiness.Flows;
    if b < pc {
      VarsFall(q, states, b, pc - 1);
      assert Readiness.Settled(q, states, pc - 1);
      var k := VarsFlow(q, pc - 1, states[pc - 1]);
      assert Readiness.Meets(states, Readiness.Flows(q, pc - 1, states[pc - 1]).value[k]);
    }
  }

  lemma {:induction false} VarsFlow(q: Readiness.Program, pc: nat, s: Ready) returns (k: nat)
    requires pc < |q.ops| && Readiness.Proper(s) && !s.Unseen? && !Ends(q.ops[pc]) && Readiness.Flows(q, pc, s).Some?
    ensures var fs := Readiness.Flows(q, pc, s).value;
            k < |fs| && fs[k].target == pc + 1 && VarsAt(fs[k].state) <= VarsAt(s)
  {
    k := if q.ops[pc].CallBlock? then 1 else 0;
  }
}
