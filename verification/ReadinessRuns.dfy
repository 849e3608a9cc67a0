/**
  Why the readiness facts may be trusted: the activations of a code object as a
  state machine (pkg/plan/src/eval.c:242-259, 948-968, 1134-1160, 1314-1450),
  in which every reachable frame is described by the analysis, so that the
  unchecked opcodes (pkg/plan/src/bytecode.c:358-386) only ever see values.
 */
module ReadinessRuns {
  import opened Basics
  import opened Bytecode
  import opened Readiness

  /** An activation: each slot and variable either holds a value (true) or
      something deferred. A waiting frame is owed the value of the evaluation
      it started. */
  datatype Frame = Frame(pc: nat, stack: seq<bool>, vars: seq<bool>, waiting: bool)

  /** What one argument of a call looks like to the entry check. */
  datatype Arg = Direct | Indirect | Deferred

  datatype Step =
    | Outside(vars: seq<bool>)                     // the checked entry, any arguments
    | Strict(args: seq<Arg>, self: bool)           // through the entry check
    | Law(k: nat, stack: seq<bool>, vars: seq<bool>)  // a law's block, entered from outside
    | Exec(early: bool)                            // one instruction; a thunk may be computed early
    | Arm(k: nat)                                  // ... or takes arm k of a branch
    | Deliver                                      // an evaluation returns, always with a value
    | Unwind                                       // an exception discards the running frame

  // ---------------------------------------------------------------- the entry check

  /** pl_strict_entry: look through indirections in place, and enter fast only
      when every strict argument turned out to be a value. */
  method StrictEntry(p: Program, args: array<Arg>) returns (pc: nat)
    modifies args
    ensures pc == StrictPc(p, old(args[..]))
    ensures pc != 0 ==> args[..] == Resolved(p, old(args[..]))
    ensures forall i :: 0 <= i < args.Length ==>
            args[i] == old(args[i]) || (old(args[i]).Indirect? && args[i].Direct? && i in p.strictArgs)
  {
    ghost var before := args[..];
    if p.strictArgs == {} || exists k :: k in p.strictArgs && k >= args.Length {
      return 0;
    }
    var i := 0;
    while i < args.Length
      invariant i <= args.Length
      invariant forall k :: 0 <= k < i && k in p.strictArgs ==> args[k].Direct? && !before[k].Deferred?
      invariant forall k :: 0 <= k < args.Length && (k >= i || k !in p.strictArgs) ==> args[k] == before[k]
      invariant forall k :: 0 <= k < i && k in p.strictArgs ==> before[k].Direct? || before[k].Indirect?
    {
      if i in p.strictArgs {
        if args[i].Deferred? {
          return 0;
        }
        args[i] := Direct;
      }
      i := i + 1;
    }
    pc := p.entry;
    assert forall k :: k in p.strictArgs ==> !before[k].Deferred?;
  }

  ghost function StrictPc(p: Program, args: seq<Arg>): (pc: nat) {
    if p.strictArgs != {} && forall k :: k in p.strictArgs ==> k < |args| && !args[k].Deferred? then p.entry else 0
  }

  function Resolved(p: Program, args: seq<Arg>): (r: seq<Arg>) {
    seq(|args|, k requires 0 <= k < |args| => if k in p.strictArgs then Direct else args[k])
  }

  // ------------------------------------------------------------------- the machine

  function Popped(f: Frame, n: nat): (r: seq<bool>)
    requires n <= |f.stack|
  {
    f.stack[..|f.stack| - n]
  }

  function Top(f: Frame, n: nat): (r: seq<bool>)
    requires n <= |f.stack|
  {
    f.stack[|f.stack| - n..]
  }

  /** The operand checks an instruction makes at run time. */
  predicate CanExec(p: Program, f: Frame) {
    f.pc < |p.ops| && match p.ops[f.pc]
                      case PushVar(v) => v < |f.vars|
                      case PushSlot(k) => k < |f.stack|
                      case ForceTop => 1 <= |f.stack|
                      case MkThk(n, _) => n <= |f.stack|
                      case MkApp(n) => n + 1 <= |f.stack|
                      case CallBlock(_, n) => n <= |f.stack|
                      case CallFast(n) => n + 1 <= |f.stack|
                      case CallSlow(n) => n + 1 <= |f.stack|
                      case CallKnown(n, _) => n <= |f.stack|
                      case TailBlk(_, n) => n <= |f.stack|
                      case TailCall(n, _) => n <= |f.stack|
                      case Ret => 1 <= |f.stack|
                      case Br(_) => 1 <= |f.stack|
                      case _ => true
  }

  function Push1(f: Frame, known: bool): (r: Frame) {
    f.(pc := f.pc + 1, stack := f.stack + [known])
  }

  function Await(f: Frame, n: nat): (r: Frame)
    requires n <= |f.stack|
  {
    f.(pc := f.pc + 1, stack := Popped(f, n), waiting := true)
  }

  /** What the running frame becomes, callee last; nothing when it returns. */
  function After(p: Program, f: Frame, early: bool): (r: seq<Frame>)
    requires CanExec(p, f) && !p.ops[f.pc].Br?
  {
    match p.ops[f.pc]
    case PushVar(v) => [Push1(f, f.vars[v])]
    case PushLit(l) => [Push1(f, p.literal(l))]
    case PushSlot(k) => [Push1(f, f.stack[k])]
    case MkThk(n, _) => [Push1(f.(stack := Popped(f, n)), early)]
    case MkApp(n) => [Push1(f.(stack := Popped(f, n + 1)), true)]
    case ForceTop => [Await(f, 1)]
    case InterpExpr(_) => [Await(f, 0)]
    case CallFast(n) => [Await(f, n + 1)]
    case CallSlow(n) => [Await(f, n + 1)]
    case CallKnown(n, _) => [Await(f, n)]
    case CallBlock(t, n) => [Await(f, n), Frame(t, Top(f, n), f.vars, false)]
    case Entry => [f.(pc := f.pc + 1)]
    case Nop => [f.(pc := f.pc + 1)]
    case Jmp(t) => [f.(pc := t)]
    case TailBlk(t, n) => [Frame(t, Top(f, n), f.vars, false)]
    case Ret => []
    case TailCall(_, _) => []
  }

  function StrictFrame(p: Program, pc: nat, args: seq<Arg>, self: bool): (f: Frame) {
    Frame(pc, [], [self] + seq(|args|, k requires 0 <= k < |args| => args[k].Direct?), false)
  }

  ghost predicate Enabled(p: Program, fs: seq<Frame>, step: Step) {
    match step
    case Law(k, stack, _) => k < |p.laws| && |stack| == p.laws[k].arity
    case Exec(_) => fs != [] && !fs[|fs| - 1].waiting && CanExec(p, fs[|fs| - 1]) && !p.ops[fs[|fs| - 1].pc].Br?
    case Arm(k) => fs != [] && !fs[|fs| - 1].waiting && CanExec(p, fs[|fs| - 1]) && p.ops[fs[|fs| - 1].pc].Br? &&
                   k < |p.ops[fs[|fs| - 1].pc].targets|
    case Deliver => fs != [] && fs[|fs| - 1].waiting
    case Unwind => fs != []
    case _ => true
  }

  ghost function Next(p: Program, fs: seq<Frame>, step: Step): (r: seq<Frame>)
    requires Enabled(p, fs, step)
  {
    match step
    case Outside(vars) => fs + [Frame(0, [], vars, false)]
    case Strict(args, self) =>
      var pc := StrictPc(p, args);
      fs + [StrictFrame(p, pc, if pc != 0 then Resolved(p, args) else args, self)]
    case Law(k, stack, vars) => fs + [Frame(p.laws[k].target, stack, vars, false)]
    case Exec(early) => fs[..|fs| - 1] + After(p, fs[|fs| - 1], early)
    case Arm(k) => var f := fs[|fs| - 1]; fs[..|fs| - 1] + [f.(pc := p.ops[f.pc].targets[k], stack := Popped(f, 1))]
    case Deliver => var f := fs[|fs| - 1]; fs[..|fs| - 1] + [f.(stack := f.stack + [true], waiting := false)]
    case Unwind => fs[..|fs| - 1]
  }

  ghost predicate Run(p: Program, states: seq<seq<Frame>>, steps: seq<Step>) {
    && |states| == |steps| + 1 && states[0] == []
    && forall i :: 0 <= i < |steps| ==> Enabled(p, states[i], steps[i]) && states[i + 1] == Next(p, states[i], steps[i])
  }

  /** What decoding has checked about the code (bytecode.c:1066-1240). */
  ghost predicate Decoded(p: Program) {
    && |p.ops| > 0 && Ends(p.ops[|p.ops| - 1]) && p.entry < |p.ops|
    && (forall k :: 0 <= k < |p.laws| ==> p.laws[k].target < |p.ops|)
    && (forall pc :: 0 <= pc < |p.ops| ==> TargetsOk(p, p.ops[pc]))
  }

  ghost predicate TargetsOk(p: Program, i: Instr) {
    forall k :: 0 <= k < |Targets(i)| ==> Targets(i)[k] < |p.ops|
  }

  // ------------------------------------------------------------------- soundness

  /** The state describes these slots and variables. */
  ghost predicate Covers(s: Ready, stack: seq<bool>, vars: seq<bool>) {
    match s
    case Unseen => false
    case Unknown => true
    case Shape(depth, slots, known) =>
      && |stack| == depth && (forall k :: k in slots && k < |stack| ==> stack[k])
      && (forall v :: v in known ==> v < |vars| && vars[v])
  }

  ghost predicate FrameOk(states: seq<Ready>, f: Frame) {
    f.pc < |states| && Covers(states[f.pc], if f.waiting then f.stack + [true] else f.stack, f.vars)
  }

  ghost predicate AllOk(states: seq<Ready>, fs: seq<Frame>) {
    forall j :: 0 <= j < |fs| ==> FrameOk(states, fs[j])
  }

  lemma CoversWeaken(x: Ready, s: Ready, stack: seq<bool>, vars: seq<bool>)
    requires Accounts(x, s) && Covers(s, stack, vars)
    ensures Covers(x, stack, vars)
  {
  }

  lemma PushCovers(s: Ready, stack: seq<bool>, vars: seq<bool>, known: bool, b: bool)
    requires Proper(s) && Covers(s, stack, vars) && (known ==> b)
    ensures Covers(Push(s, known), stack + [b], vars)
  {
  }

  lemma PopCovers(s: Ready, stack: seq<bool>, vars: seq<bool>, n: nat)
    requires Proper(s) && Covers(s, stack, vars) && n <= |stack| && Pop(s, n).Some?
    ensures Covers(Pop(s, n).value, stack[..|stack| - n], vars)
  {
  }

  lemma ArgsCovers(n: nat, stack: seq<bool>, vars: seq<bool>)
    requires |stack| == n
    ensures Covers(Args(n), stack, vars)
  {
  }

  /** A state met by a solution's flow is covered at the flow's target. */
  lemma {:induction false} Arrive(p: Program, states: seq<Ready>, pc: nat, i: nat, stack: seq<bool>, vars: seq<bool>)
    requires Solution(p, states) && pc < |states| && !states[pc].Unseen?
    requires Flows(p, pc, states[pc]).Some? ==>
               i < |Flows(p, pc, states[pc]).value| && Flows(p, pc, states[pc]).value[i].target < |states| &&
               Covers(Flows(p, pc, states[pc]).value[i].state, stack, vars)
    ensures Flows(p, pc, states[pc]).Some? && Covers(states[Flows(p, pc, states[pc]).value[i].target], stack, vars)
  {
    hide Flows, Covers, Proper, Entries;
    assert Settled(p, states, pc);
    var f := Flows(p, pc, states[pc]).value[i];
    assert Meets(states, f);
    CoversWeaken(states[f.target], f.state, stack, vars);
  }

  lemma NextInRange(p: Program, pc: nat)
    requires Decoded(p) && pc < |p.ops| && !Ends(p.ops[pc])
    ensures pc + 1 < |p.ops|
  {
  }

  /** Instructions that pop `n` and push one operand. */
  lemma {:induction false} PopPushArrives(p: Program, states: seq<Ready>, f: Frame, n: nat, known: bool,
                                          b: bool, i: nat)
    requires Solution(p, states) && Decoded(p) && f.pc < |states| && Covers(states[f.pc], f.stack, f.vars)
             && n <= |f.stack|
    requires !Ends(p.ops[f.pc]) && (known ==> b) && Proper(states[f.pc])
    requires var fl, pp := Flows(p, f.pc, states[f.pc]), PopPush(states[f.pc], n, known, f.pc + 1);
             (fl.Some? ==> pp.Some? && i < |fl.value| && fl.value[i] == pp.value[0])
    ensures f.pc + 1 < |states| && Covers(states[f.pc + 1], Popped(f, n) + [b], f.vars)
  {
    hide Flows, Pop, Push, Solution, Decoded;
    var s := states[f.pc];
    assert |states| == |p.ops| by { SolutionSize(p, states); }
    NextInRange(p, f.pc);
    if PopPush(s, n, known, f.pc + 1).Some? {
      PopCovers(s, f.stack, f.vars, n);
      PushCovers(Pop(s, n).value, Popped(f, n), f.vars, known, b);
    }
    Arrive(p, states, f.pc, i, Popped(f, n) + [b], f.vars);
  }

  lemma SolutionSize(p: Program, states: seq<Ready>)
    requires Solution(p, states)
    ensures |states| == |p.ops| && ProperAll(states)
  {
  }

  /** One push, no pop. */
  lemma {:induction false} PushArrives(p: Program, states: seq<Ready>, f: Frame, known: bool, b: bool)
    requires Solution(p, states) && Decoded(p) && f.pc < |states| && Covers(states[f.pc], f.stack, f.vars)
    requires !Ends(p.ops[f.pc]) && (known ==> b) && Proper(states[f.pc])
    requires Flows(p, f.pc, states[f.pc]) == Some([Flow(f.pc + 1, Push(states[f.pc], known))])
    ensures f.pc + 1 < |states| && Covers(states[f.pc + 1], f.stack + [b], f.vars)
  {
    hide Flows, Push, Solution, Decoded;
    assert |states| == |p.ops| by { SolutionSize(p, states); }
    NextInRange(p, f.pc);
    PushCovers(states[f.pc], f.stack, f.vars, known, b);
    Arrive(p, states, f.pc, 0, f.stack + [b], f.vars);
  }

  /** The first half: pushes, constructions and evaluations. */
  lemma {:induction false} StraightOk(p: Program, states: seq<Ready>, f: Frame, early: bool)
    requires Solution(p, states) && Decoded(p) && !f.waiting && FrameOk(states, f) && CanExec(p, f)
    requires !Ends(p.ops[f.pc]) && !p.ops[f.pc].CallBlock?
    ensures AllOk(states, After(p, f, early))
  {
    hide Solution, Decoded, Covers, Push, Pop;
    SolutionSize(p, states);
    var s := states[f.pc];
    assert Proper(s) && !s.Unseen? by { CoversSeen(states, f); }
    match p.ops[f.pc]
    case PushVar(v) => VarCovered(s, f, v);
        PushArrives(p, states, f, v < READY_VARS && s.Shape? && v in s.vars, f.vars[v]);
    case PushLit(l) => PushArrives(p, states, f, p.literal(l), p.literal(l));
    case PushSlot(k) => SlotCovered(s, f, k); PushArrives(p, states, f, Get(s, k), f.stack[k]);
    case MkThk(n, _) => PopPushArrives(p, states, f, n, false, early, 0);
    case MkApp(n) => PopPushArrives(p, states, f, n + 1, true, true, 0);
    case ForceTop => PopPushArrives(p, states, f, 1, true, true, 0);
    case InterpExpr(_) => PushArrives(p, states, f, true, true); assert Popped(f, 0) == f.stack;
    case CallFast(n) => PopPushArrives(p, states, f, n + 1, true, true, 0);
    case CallSlow(n) => PopPushArrives(p, states, f, n + 1, true, true, 0);
    case CallKnown(n, _) => PopPushArrives(p, states, f, n, true, true, 0);
    case Entry => NextInRange(p, f.pc); Arrive(p, states, f.pc, 0, f.stack, f.vars);
    case Nop => NextInRange(p, f.pc); Arrive(p, states, f.pc, 0, f.stack, f.vars);
  }

  lemma CoversSeen(states: seq<Ready>, f: Frame)
    requires FrameOk(states, f) && ProperAll(states)
    ensures Proper(states[f.pc]) && !states[f.pc].Unseen?
  {
  }

  lemma VarCovered(s: Ready, f: Frame, v: nat)
    requires Covers(s, f.stack, f.vars) && v < |f.vars|
    ensures s.Shape? && v in s.vars ==> f.vars[v]
  {
  }

  lemma SlotCovered(s: Ready, f: Frame, k: nat)
    requires Covers(s, f.stack, f.vars) && k < |f.stack|
    ensures Get(s, k) ==> f.stack[k]
  {
  }

  /** The second half: jumps, block calls and exits. */
  lemma {:induction false} JumpOk(p: Program, states: seq<Ready>, f: Frame, early: bool)
    requires Solution(p, states) && Decoded(p) && !f.waiting && FrameOk(states, f) && CanExec(p, f) && !p.ops[f.pc].Br?
    requires Ends(p.ops[f.pc]) || p.ops[f.pc].CallBlock?
    ensures AllOk(states, After(p, f, early))
  {
    hide Solution, Covers, Push, Pop, Args;
    SolutionSize(p, states);
    var s := states[f.pc];
    assert Proper(s) && !s.Unseen? by { CoversSeen(states, f); }
    assert TargetsOk(p, p.ops[f.pc]);
    if Targets(p.ops[f.pc]) != [] {
      assert Targets(p.ops[f.pc])[0] < |p.ops|;
    }
    match p.ops[f.pc]
    case CallBlock(t, n) =>
      PopPushArrives(p, states, f, n, true, true, 1);
      ArgsCovers(n, Top(f, n), f.vars);
      Arrive(p, states, f.pc, 0, Top(f, n), f.vars);
    case Jmp(t) => Arrive(p, states, f.pc, 0, f.stack, f.vars);
    case TailBlk(t, n) =>
      ArgsCovers(n, Top(f, n), f.vars);
      Arrive(p, states, f.pc, 0, Top(f, n), f.vars);
    case Ret =>
    case TailCall(_, _) =>
  }

  lemma {:induction false} ArmOk(p: Program, states: seq<Ready>, f: Frame, k: nat)
    requires Solution(p, states) && Decoded(p) && !f.waiting && FrameOk(states, f) && CanExec(p, f) && p.ops[f.pc].Br?
    requires k < |p.ops[f.pc].targets|
    ensures FrameOk(states, f.(pc := p.ops[f.pc].targets[k], stack := Popped(f, 1)))
  {
    hide Solution, Covers, Pop;
    SolutionSize(p, states);
    var s := states[f.pc];
    assert Proper(s) && !s.Unseen? by { CoversSeen(states, f); }
    assert TargetsOk(p, p.ops[f.pc]) && Targets(p.ops[f.pc])[k] < |p.ops|;
    if Pop(s, 1).Some? {
      PopCovers(s, f.stack, f.vars, 1);
    }
    Arrive(p, states, f.pc, k, Popped(f, 1), f.vars);
  }

  lemma {:induction false} EntryOk(p: Program, states: seq<Ready>, i: nat, stack: seq<bool>, vars: seq<bool>)
    requires Solution(p, states) && i < |Entries(p)| && Entries(p)[i].target < |states|
             && Covers(Entries(p)[i].state, stack, vars)
    ensures FrameOk(states, Frame(Entries(p)[i].target, stack, vars, false))
  {
    hide Entries, Covers, Settled;
    var f := Entries(p)[i];
    assert Meets(states, f);
    CoversWeaken(states[f.target], f.state, stack, vars);
  }

  lemma {:induction false} StrictOk(p: Program, states: seq<Ready>, args: seq<Arg>, self: bool)
    requires Solution(p, states) && Decoded(p)
    ensures var pc := StrictPc(p, args);
            FrameOk(states, StrictFrame(p, pc, if pc != 0 then Resolved(p, args) else args, self))
  {
    hide Solution;
    SolutionSize(p, states);
    var pc := StrictPc(p, args);
    var f := StrictFrame(p, pc, if pc != 0 then Resolved(p, args) else args, self);
    if pc != 0 {
      assert Entries(p)[1] == Flow(p.entry, Shape(0, {}, StrictVars(p)));
      EntryOk(p, states, 1, f.stack, f.vars);
    } else {
      assert Entries(p)[0] == Flow(0, Shape(0, {}, {}));
      EntryOk(p, states, 0, f.stack, f.vars);
    }
  }

  lemma {:induction false} LawOk(p: Program, states: seq<Ready>, k: nat, stack: seq<bool>, vars: seq<bool>)
    requires Solution(p, states) && Decoded(p) && k < |p.laws| && |stack| == p.laws[k].arity
    ensures FrameOk(states, Frame(p.laws[k].target, stack, vars, false))
  {
    hide Solution, Covers;
    SolutionSize(p, states);
    ArgsCovers(p.laws[k].arity, stack, vars);
    var i := if p.entry != 0 then k + 2 else k + 1;
    assert Entries(p)[i] == Flow(p.laws[k].target, Args(p.laws[k].arity));
    EntryOk(p, states, i, stack, vars);
  }

  lemma AllOkAppend(states: seq<Ready>, a: seq<Frame>, b: seq<Frame>)
    requires AllOk(states, a) && AllOk(states, b)
    ensures AllOk(states, a + b)
  {
  }

  lemma {:induction false} StepOk(p: Program, states: seq<Ready>, fs: seq<Frame>, step: Step)
    requires Solution(p, states) && Decoded(p) && AllOk(states, fs) && Enabled(p, fs, step)
    ensures AllOk(states, Next(p, fs, step))
  {
    hide Solution, Decoded, FrameOk, After, StrictPc, StrictFrame;
    var rest := if fs == [] then [] else fs[..|fs| - 1];
    assert AllOk(states, rest);
    match step
    case Outside(vars) =>
      OutsideOk(p, states, vars);
    case Strict(args, self) =>
      StrictOk(p, states, args, self);
    case Law(k, stack, vars) =>
      LawOk(p, states, k, stack, vars);
    case Exec(early) =>
      var f := fs[|fs| - 1];
      if Ends(p.ops[f.pc]) || p.ops[f.pc].CallBlock? {
        JumpOk(p, states, f, early);
      } else {
        StraightOk(p, states, f, early);
      }
      AllOkAppend(states, rest, After(p, f, early));
    case Arm(k) =>
      ArmOk(p, states, fs[|fs| - 1], k);
    case Deliver =>
      Delivered(states, fs[|fs| - 1]);
    case Unwind =>
  }

  lemma Delivered(states: seq<Ready>, f: Frame)
    requires FrameOk(states, f) && f.waiting
    ensures FrameOk(states, f.(stack := f.stack + [true], waiting := false))
  {
  }

  lemma {:induction false} OutsideOk(p: Program, states: seq<Ready>, vars: seq<bool>)
    requires Solution(p, states) && Decoded(p)
    ensures FrameOk(states, Frame(0, [], vars, false))
  {
    hide Solution;
    SolutionSize(p, states);
    assert Entries(p)[0] == Flow(0, Shape(0, {}, {}));
    EntryOk(p, states, 0, [], vars);
  }

  lemma RunStep(p: Program, runs: seq<seq<Frame>>, steps: seq<Step>, i: nat)
    requires Run(p, runs, steps) && i < |steps|
    ensures Enabled(p, runs[i], steps[i]) && runs[i + 1] == Next(p, runs[i], steps[i])
  {
  }

  /** Main result: every frame of every run is described by the analysis. */
  lemma {:induction false} EveryFrameCovered(p: Program, states: seq<Ready>, runs: seq<seq<Frame>>,
                                             steps: seq<Step>, i: nat)
    requires Solution(p, states) && Decoded(p) && Run(p, runs, steps) && i < |runs|
    ensures AllOk(states, runs[i])
    decreases i
  {
    hide Solution, Decoded, Next, Enabled;
    if i > 0 {
      EveryFrameCovered(p, states, runs, steps, i - 1);
      RunStep(p, runs, steps, i - 1);
      StepOk(p, states, runs[i - 1], steps[i - 1]);
    }
  }

  // ------------------------------------------------------------- the unchecked opcodes

  predicate ReadyArgs(p: Program, s: Ready, n: nat, op: nat) {
    s.Shape? && n <= s.depth && forall k :: k in p.strict(op) ==> k < n && Get(s, s.depth - n + k)
  }

  /** Whether the instruction gets its unchecked form. */
  predicate Unchecked(p: Program, i: Instr, s: Ready) {
    s.Shape? && match i
                case ForceTop => s.depth > 0 && Get(s, s.depth - 1)
                case Ret => s.depth > 0 && Get(s, s.depth - 1)
                case CallKnown(n, op) => ReadyArgs(p, s, n, op)
                case TailCall(n, Known(op)) => ReadyArgs(p, s, n, op)
                case _ => false
  }

  /** The operands the unchecked form takes for values without looking. */
  ghost predicate OperandsAreValues(p: Program, i: Instr, stack: seq<bool>) {
    match i
    case ForceTop => stack != [] && stack[|stack| - 1]
    case Ret => stack != [] && stack[|stack| - 1]
    case CallKnown(n, op) => n <= |stack| && forall k :: k in p.strict(op) ==> k < n && stack[|stack| - n + k]
    case TailCall(n, Known(op)) => n <= |stack| && forall k :: k in p.strict(op) ==> k < n && stack[|stack| - n + k]
    case _ => false
  }

  /** Main result: an unchecked opcode never meets a deferred value, from any
      entry, local block or law block; and wherever the analysis states a depth
      it is the depth. */
  lemma {:induction false} UncheckedIsSafe(p: Program, states: seq<Ready>, runs: seq<seq<Frame>>, steps: seq<Step>,
                                           i: nat, j: nat)
    requires Solution(p, states) && Decoded(p) && Run(p, runs, steps) && i < |runs| && j < |runs[i]|
             && !runs[i][j].waiting
    ensures var f := runs[i][j];
            && f.pc < |states| && !states[f.pc].Unseen?
            && (states[f.pc].Shape? ==> |f.stack| == states[f.pc].depth)
            && (Unchecked(p, p.ops[f.pc], states[f.pc]) ==> OperandsAreValues(p, p.ops[f.pc], f.stack))
  {
    hide Solution, Decoded, Run;
    SolutionSize(p, states);
    EveryFrameCovered(p, states, runs, steps, i);
    var f := runs[i][j];
    assert FrameOk(states, f);
    CoversSeen(states, f);
  }

  /** Frame `j` of a run may take the unchecked form of its instruction. */
  ghost predicate FrameSafe(p: Program, fast: seq<bool>, runs: seq<seq<Frame>>, steps: seq<Step>, i: nat, j: nat) {
    Run(p, runs, steps) && i < |runs| && j < |runs[i]| && !runs[i][j].waiting ==>
      var f := runs[i][j];
      f.pc < |fast| && f.pc < |p.ops| && (fast[f.pc] ==> OperandsAreValues(p, p.ops[f.pc], f.stack))
  }

  /** On every run, wherever a flagged instruction is about to execute, the
      operands it takes for values are values. */
  ghost predicate NeverDeferred(p: Program, fast: seq<bool>) {
    forall runs: seq<seq<Frame>>, steps: seq<Step>, i: nat, j: nat :: FrameSafe(p, fast, runs, steps, i, j)
  }

  lemma {:induction false} FlagsSafe(p: Program, states: seq<Ready>, fast: seq<bool>)
    requires Solution(p, states) && Decoded(p) && |fast| == |p.ops| == |states|
    requires forall pc :: 0 <= pc < |fast| && fast[pc] ==> Unchecked(p, p.ops[pc], states[pc])
    ensures NeverDeferred(p, fast)
  {
    hide Solution, Decoded, Run, Unchecked, OperandsAreValues;
    forall runs: seq<seq<Frame>>, steps: seq<Step>, i: nat, j: nat ensures FrameSafe(p, fast, runs, steps, i, j) {
      if Run(p, runs, steps) && i < |runs| && j < |runs[i]| && !runs[i][j].waiting {
        UncheckedIsSafe(p, states, runs, steps, i, j);
      }
    }
  }

  /** The rewriting loop. It flags every instruction the facts justify, and from a
      solution no run ever meets a deferred operand at a flagged one. */
  method ReadyRewrite(p: Program, states: seq<Ready>) returns (fast: array<bool>)
    requires |states| == |p.ops|
    ensures fast.Length == |p.ops|
    ensures Solution(p, states) && Decoded(p) ==> NeverDeferred(p, fast[..])
    ensures forall pc :: 0 <= pc < |p.ops| ==> (fast[pc] <==> Unchecked(p, p.ops[pc], states[pc]))
  {
    hide Solution, Decoded, NeverDeferred;
    fast := new bool[|p.ops|](_ => false);
    for pc := 0 to |p.ops|
      invariant forall k :: 0 <= k < pc ==> (fast[k] <==> Unchecked(p, p.ops[k], states[k]))
      invariant forall k :: pc <= k < |p.ops| ==> !fast[k]
    {
      if states[pc].Shape? && Unchecked(p, p.ops[pc], states[pc]) {
        fast[pc] := true;
      }
    }
    if Solution(p, states) && Decoded(p) {
      FlagsSafe(p, states, fast[..]);
    }
  }
}
