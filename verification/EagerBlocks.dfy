/**
  Straight-line blocks of bytecode over the call-by-need semantics, and what one
  eager conversion does to a block (pkg/plan/src/bytecode.c:474-539).
 */
module EagerBlocks {
  import opened Thunks
  import opened Bytecode

  /** Where a block begins: operand stack, variables, literals and the heap. */
  datatype Start = Start(stack: seq<Name>, env: seq<Name>, lits: nat -> Name, w: World)

  /** `At`: control is inside the block; `Left`: a tail call delivered a value;
      an exception or an exhausted budget ends the block. */
  datatype State = At(stack: seq<Name>, w: World) | Left(w: World, v: Cell) | Exn(w: World, exn: int) | Out(w: World)

  function CodeOf(bane: Bane): (r: Code) {
    match bane
    case Fast => Apply
    case Slow => Apply
    case Row => Code.Row
    case Known(op) => Prim(op)
  }

  /** Instructions that evaluate something and push its value. */
  predicate Calls(i: Instr) {
    i.CallKnown? || i.CallFast? || i.CallSlow? || i.CallBlock? || i.InterpExpr?
  }

  /** Pushes and constructions: no evaluation at all. */
  predicate Quiet(i: Instr) {
    !Calls(i) && !i.ForceTop? && !Ends(i)
  }

  function Runs(i: Instr): (r: Code)
    requires Calls(i) || i.TailCall?
  {
    match i
    case CallKnown(_, op) => Prim(op)
    case CallBlock(t, _) => Block(t)
    case InterpExpr(e) => Interp(e)
    case TailCall(_, bane) => CodeOf(bane)
    case _ => Apply
  }

  /** How many operands an instruction takes off the stack. */
  function Takes(i: Instr): (r: nat) {
    match i
    case MkThk(n, _) => n
    case MkApp(n) => n + 1
    case ForceTop => 1
    case CallKnown(n, _) => n
    case CallFast(n) => n + 1
    case CallSlow(n) => n + 1
    case CallBlock(_, n) => n
    case TailCall(n, _) => n
    case _ => 0
  }

  /** The checks every instruction makes before it acts. */
  predicate Faults(i: Instr, depth: nat, vars: nat) {
    || Takes(i) > depth
    || (i.PushVar? && i.v >= vars)
    || (i.PushSlot? && i.slot >= depth)
    || ((i.MkThk? || i.MkApp? || i.CallKnown? || i.TailCall?) && i.argc == 0)
  }

  /** The walk's own test: the slots it tracks cover what the instruction reads. */
  predicate Covers(i: Instr, depth: nat) {
    Takes(i) <= depth && (i.PushSlot? ==> i.slot < depth)
  }

  /** The stack after an instruction of the block, which no evaluation can affect. */
  function Stacked(s: Start, i: Instr, pc: nat, stack: seq<Name>): (r: seq<Name>)
    requires !Faults(i, |stack|, |s.env|)
  {
    var rest := stack[..|stack| - Takes(i)];
    match i
    case PushVar(v) => rest + [s.env[v]]
    case PushLit(l) => rest + [s.lits(l)]
    case PushSlot(k) => rest + [stack[k]]
    case Nop => rest
    case Entry => rest
    case ForceTop => stack
    case TailCall(_, _) => rest
    case Br(_) => rest
    case Jmp(_) => rest
    case TailBlk(_, _) => rest
    case Ret => rest
    case _ => rest + [Made(pc)]
  }

  /** The cells a quiet instruction makes. */
  function Cells(i: Instr, pc: nat, stack: seq<Name>): (r: map<Name, Cell>)
    requires Takes(i) <= |stack|
  {
    var args := stack[|stack| - Takes(i)..];
    match i
    case MkThk(_, bane) => map[Made(pc) := Thunk(CodeOf(bane), args)]
    case MkApp(_) => map[Made(pc) := Value(0, args)]
    case _ => map[]
  }

  function Operands(s: Start, i: Instr, stack: seq<Name>): (r: seq<Name>)
    requires Takes(i) <= |stack|
  {
    if i.InterpExpr? then s.env else stack[|stack| - Takes(i)..]
  }

  /** One instruction. Branches, jumps and returns leave the state as they find it. */
  ghost function Step(p: Program, s: Start, i: Instr, pc: nat, stack: seq<Name>, w: World): (r: State) {
    if Faults(i, |stack|, |s.env|) then Exn(w, FAULT)
    else if Quiet(i) then At(Stacked(s, i, pc, stack), Plus(w, Cells(i, pc, stack)))
    else if i.ForceTop? then
      match Force(p, w, stack[|stack| - 1])
      case Done(w1, _) => At(stack, w1)
      case Raised(w1, e) => Exn(w1, e)
      case Spent(w1) => Out(w1)
    else if Calls(i) || i.TailCall? then
      match Call(p, w, Runs(i), Operands(s, i, stack))
      case Done(w1, v) =>
        if Calls(i) then At(Stacked(s, i, pc, stack), Plus(w1, map[Made(pc) := v])) else Left(w1, v)
      case Raised(w1, e) => Exn(w1, e)
      case Spent(w1) => Out(w1)
    else At(stack, w)
  }

  /** The state in front of instruction `pc`, for a block entered at `b`. */
  ghost function Exec(p: Program, s: Start, code: seq<Instr>, b: nat, pc: nat): (r: State)
    requires b <= pc <= |code|
    decreases pc
  {
    if pc == b then At(s.stack, s.w)
    else
      var r := Exec(p, s, code, b, pc - 1);
      if r.At? then Step(p, s, code[pc - 1], pc - 1, r.stack, r.w) else r
  }

  lemma {:induction false} ExecSplit(p: Program, s: Start, code: seq<Instr>, b: nat, mid: nat, pc: nat)
    requires b <= mid <= pc <= |code|
    ensures var r := Exec(p, s, code, b, mid);
            Exec(p, s, code, b, pc) == if r.At? then Exec(p, s.(stack := r.stack, w := r.w), code, mid, pc) else r
    decreases pc
  {
    hide Step;
    if mid < pc {
      ExecSplit(p, s, code, b, mid, pc - 1);
      var r := Exec(p, s, code, b, mid);
      if r.At? {
        var s1 := s.(stack := r.stack, w := r.w);
        var q := Exec(p, s1, code, mid, pc - 1);
        if q.At? {
          StepSame(p, s, s1, code[pc - 1], pc - 1, q.stack, q.w);
        }
      }
    }
  }

  /** A step looks at the variables and literals of the start, and no more. */
  lemma StepSame(p: Program, s: Start, s1: Start, i: Instr, pc: nat, stack: seq<Name>, w: World)
    requires s.env == s1.env && s.lits == s1.lits
    ensures Step(p, s, i, pc, stack, w) == Step(p, s1, i, pc, stack, w)
  {
    hide Call, Force, Cells, Plus;
  }

  /** Only the instructions of the stretch matter. */
  lemma {:induction false} ExecLocal(p: Program, s: Start, code: seq<Instr>, code1: seq<Instr>, b: nat, pc: nat)
    requires b <= pc <= |code| == |code1| && forall k :: b <= k < pc ==> code[k] == code1[k]
    ensures Exec(p, s, code, b, pc) == Exec(p, s, code1, b, pc)
    decreases pc
  {
    hide Step;
    if b < pc {
      ExecLocal(p, s, code, code1, b, pc - 1);
    }
  }

  // ------------------------------------------------------------- what blocks keep

  /** A start whose names all exist and whose block cells are still to be made. */
  ghost predicate Sound(s: Start) {
    && Closed(s.w) && AllIn(s.w.heap, s.stack) && AllIn(s.w.heap, s.env)
    && (forall l :: s.lits(l) in s.w.heap)
    && (forall x :: x in s.w.heap ==> x.Old?)
  }

  ghost predicate Inside(s: Start, stack: seq<Name>, w: World, pc: nat) {
    && Closed(w) && AllIn(w.heap, stack)
    && (forall x :: x in s.w.heap ==> x in w.heap)
    && (forall x :: x in s.w.heap && s.w.heap[x].Value? ==> w.heap[x].Value?)
    && (forall x :: x in w.heap && x.Made? ==> x.pc < pc)
  }

  lemma {:induction false} PlusClosed(w: World, pc: nat, c: Cell)
    requires Closed(w) && CellOk(w.heap, c)
    ensures Closed(Plus(w, map[Made(pc) := c]))
  {
    StoreClosed(w, Made(pc), c, w.next);
    assert Plus(w, map[Made(pc) := c]) == w.(heap := w.heap[Made(pc) := c], next := w.next);
  }

  lemma {:induction false} StackedKnown(s: Start, i: Instr, pc: nat, stack: seq<Name>, heap: map<Name, Cell>)
    requires !Faults(i, |stack|, |s.env|) && AllIn(heap, stack) && AllIn(heap, s.env) && (forall l :: s.lits(l) in heap)
    requires i.MkThk? || i.MkApp? || Calls(i) ==> Made(pc) in heap
    ensures AllIn(heap, Stacked(s, i, pc, stack))
  {
  }

  /** Values survive unchanged. */
  ghost predicate Holds(w: World, w1: World) {
    forall x :: x in w.heap && w.heap[x].Value? ==> x in w1.heap && w1.heap[x] == w.heap[x]
  }

  lemma {:induction false} AddInside(s: Start, stack: seq<Name>, w: World, w1: World, pc: nat, c: Cell)
    requires Sound(s) && Inside(s, stack, w, pc) && Grows(w, w1) && Closed(w1) && CellOk(w1.heap, c)
    ensures var w2 := Plus(w1, map[Made(pc) := c]); Inside(s, stack, w2, pc + 1) && Holds(w, w2) && Made(pc) in w2.heap
  {
    hide Closed, CellOk;
    PlusClosed(w1, pc, c);
  }

  lemma {:induction false} QuietInside(p: Program, s: Start, i: Instr, pc: nat, stack: seq<Name>, w: World)
    requires Sound(s) && Inside(s, stack, w, pc) && Quiet(i) && !Faults(i, |stack|, |s.env|)
    ensures var w1 := Plus(w, Cells(i, pc, stack)); Inside(s, Stacked(s, i, pc, stack), w1, pc + 1) && Holds(w, w1)
  {
    hide Closed, Stacked;
    var w1 := Plus(w, Cells(i, pc, stack));
    if i.MkThk? || i.MkApp? {
      var c := Cells(i, pc, stack)[Made(pc)];
      assert Cells(i, pc, stack) == map[Made(pc) := c];
      GrowsRefl(w);
      AddInside(s, stack, w, w, pc, c);
    } else {
      assert Plus(w, map[]) == w;
    }
    StackedKnown(s, i, pc, stack, w1.heap);
  }

  lemma {:induction false} CallInside(p: Program, s: Start, i: Instr, pc: nat, stack: seq<Name>, w: World)
    requires Sound(s) && Inside(s, stack, w, pc) && Calls(i) && !Faults(i, |stack|, |s.env|)
    ensures var r := Call(p, w, Runs(i), Operands(s, i, stack));
            r.Done? ==> var w1 := Plus(r.w, map[Made(pc) := r.v]);
                Inside(s, Stacked(s, i, pc, stack), w1, pc + 1) && Holds(w, w1)
  {
    hide Closed, Call, Stacked, Grows;
    var args := Operands(s, i, stack);
    assert AllIn(w.heap, args);
    CallKeeps(p, w, Runs(i), args);
    var r := Call(p, w, Runs(i), args);
    if r.Done? {
      AddInside(s, stack, w, r.w, pc, r.v);
      StackedKnown(s, i, pc, stack, Plus(r.w, map[Made(pc) := r.v]).heap);
    }
  }

  lemma {:induction false} StepInside(p: Program, s: Start, i: Instr, pc: nat, stack: seq<Name>, w: World)
    requires Sound(s) && Inside(s, stack, w, pc)
    ensures var r := Step(p, s, i, pc, stack, w);
            r.At? ==> Inside(s, r.stack, r.w, pc + 1) && Holds(w, r.w)
  {
    hide Closed, Call, Force, Stacked, Cells, Sound, Operands, Runs;
    if !Faults(i, |stack|, |s.env|) {
      if Quiet(i) {
        QuietInside(p, s, i, pc, stack, w);
      } else if i.ForceTop? {
        ForceKeeps(p, w, stack[|stack| - 1]);
      } else if Calls(i) {
        CallInside(p, s, i, pc, stack, w);
      }
    }
  }

  lemma {:induction false} ExecInside(p: Program, s: Start, code: seq<Instr>, b: nat, pc: nat)
    requires Sound(s) && b <= pc <= |code|
    ensures var r := Exec(p, s, code, b, pc); r.At? ==> Inside(s, r.stack, r.w, pc)
    decreases pc
  {
    hide Step, Sound;
    if pc == b {
      assert Inside(s, s.stack, s.w, pc) by { StartInside(s, pc); }
    } else {
      ExecInside(p, s, code, b, pc - 1);
      var r := Exec(p, s, code, b, pc - 1);
      if r.At? {
        StepInside(p, s, code[pc - 1], pc - 1, r.stack, r.w);
      }
    }
  }

  lemma StartInside(s: Start, pc: nat)
    requires Sound(s)
    ensures Inside(s, s.stack, s.w, pc)
  {
  }

  // ---------------------------------------------------------- consumers and producers

  /** The cells an instruction forces before it does anything else, in order. */
  function Demanded(p: Program, i: Instr, stack: seq<Name>): (r: seq<Name>)
    requires Takes(i) <= |stack|
  {
    var args := stack[|stack| - Takes(i)..];
    match i
    case ForceTop => args
    case CallKnown(_, op) => Strict(p, op, args)
    case TailCall(_, Known(op)) => Strict(p, op, args)
    case _ => []
  }

  /** A consumer may be run after some of its leading demands have been forced. */
  lemma {:induction false} StepForced(p: Program, s: Start, i: Instr, pc: nat, stack: seq<Name>, w: World,
                                      ys: seq<Name>, zs: seq<Name>)
    requires !Faults(i, |stack|, |s.env|) && Demanded(p, i, stack) == ys + zs && ys != []
    requires Closed(w) && AllIn(w.heap, ys)
    ensures var r := ForceAll(p, w, ys);
            Step(p, s, i, pc, stack, w) ==
            match r
            case Done(w1, _) => Step(p, s, i, pc, stack, w1)
            case Raised(w1, e) => Exn(w1, e)
            case Spent(w1) => Out(w1)
  {
    hide Act, Closed, AllIn;
    var r := ForceAll(p, w, ys);
    ForceAllSplit(p, w, ys, zs);
    if r.Done? {
      ForcedAreValues(p, w, ys);
      ForceAllValues(p, r.w, ys);
      ForceAllSplit(p, r.w, ys, zs);
    }
    if i.ForceTop? {
      assert ys + zs == [stack[|stack| - 1]];
      assert ys == [stack[|stack| - 1]] && zs == [];
      assert ForceAll(p, w, ys) == var f := Force(p, w, ys[0]); if f.Done? then ForceAll(p, f.w, ys[1..]) else f;
      assert ys[1..] == [];
    }
  }

  lemma {:induction false} ForcedAreValues(p: Program, w: World, xs: seq<Name>)
    requires Closed(w) && AllIn(w.heap, xs) && ForceAll(p, w, xs).Done?
    ensures var r := ForceAll(p, w, xs); forall i :: 0 <= i < |xs| ==> xs[i] in r.w.heap && r.w.heap[xs[i]].Value?
    decreases |xs|
  {
    hide Closed;
    if xs != [] {
      ForceKeeps(p, w, xs[0]);
      var r := Force(p, w, xs[0]);
      KnownGrows(w, r.w, xs);
      ForcedAreValues(p, r.w, xs[1..]);
      ForceAllKeeps(p, r.w, xs[1..]);
      var r1 := ForceAll(p, r.w, xs[1..]);
      assert r1.w.heap[xs[0]].Value?;
      forall i | 0 <= i < |xs| ensures xs[i] in r1.w.heap && r1.w.heap[xs[i]].Value? {
        if i > 0 {
          assert xs[i] == xs[1..][i - 1];
        }
      }
    }
  }

  /** The direct call a thunk construction becomes, where there is one. */
  function Converted(i: Instr): (r: Instr)
    ensures r != i ==> i.MkThk? && Calls(r) && !r.InterpExpr? && Takes(r) == Takes(i) && Runs(r) == CodeOf(i.bane)
    ensures forall depth, vars :: Faults(r, depth, vars) == Faults(i, depth, vars)
  {
    match i
    case MkThk(n, Fast) => if n < 2 then i else CallFast(n - 1)
    case MkThk(n, Slow) => if n < 2 then i else CallFast(n - 1)
    case MkThk(n, Known(op)) => CallKnown(n, op)
    case _ => i
  }

  /** Stack and new cells of a quiet stretch; None if an instruction faults. */
  function Glide(s: Start, code: seq<Instr>, b: nat, pc: nat, stack: seq<Name>): (r: (bool, seq<Name>, map<Name, Cell>))
    requires b <= pc <= |code|
    decreases pc
  {
    if pc == b then (true, stack, map[])
    else
      var g := Glide(s, code, b, pc - 1, stack);
      if !g.0 || Faults(code[pc - 1], |g.1|, |s.env|) then (false, g.1, g.2)
      else (true, Stacked(s, code[pc - 1], pc - 1, g.1), g.2 + Cells(code[pc - 1], pc - 1, g.1))
  }

  ghost predicate QuietRange(code: seq<Instr>, lo: int, hi: int) {
    forall k :: 0 <= k < |code| && lo <= k < hi ==> Quiet(code[k])
  }

  lemma CellsNames(i: Instr, pc: nat, stack: seq<Name>)
    requires Takes(i) <= |stack|
    ensures forall x :: x in Cells(i, pc, stack) ==> x == Made(pc)
  {
  }

  lemma PlusPlus(w: World, a: map<Name, Cell>, b: map<Name, Cell>)
    ensures Plus(Plus(w, a), b) == Plus(w, a + b) && Plus(w, map[]) == w
  {
    assert (w.heap + a) + b == w.heap + (a + b);
    assert w.heap + map[] == w.heap;
  }

  lemma {:induction false} GlideExec(p: Program, s: Start, code: seq<Instr>, b: nat, pc: nat)
    requires b <= pc <= |code| && QuietRange(code, b, pc)
    ensures var g := Glide(s, code, b, pc, s.stack);
            && Exec(p, s, code, b, pc) == (if g.0 then At(g.1, Plus(s.w, g.2)) else Exn(Plus(s.w, g.2), FAULT))
            && (forall x :: x in g.2 ==> x.Made? && b <= x.pc < pc)
    decreases pc
  {
    hide Stacked, Cells, Takes, Calls, Plus;
    PlusPlus(s.w, map[], map[]);
    if b < pc {
      GlideExec(p, s, code, b, pc - 1);
      var i := code[pc - 1];
      assert Quiet(i);
      var g := Glide(s, code, b, pc - 1, s.stack);
      if g.0 && !Faults(i, |g.1|, |s.env|) {
        CellsNames(i, pc - 1, g.1);
        PlusPlus(s.w, g.2, Cells(i, pc - 1, g.1));
      }
    }
  }

  /** Equal but for cells the block made and nobody can reach any more. */
  ghost predicate SameWorld(w: World, w1: World) {
    && w.trace == w1.trace && w.budget == w1.budget && w.next == w1.next
    && (forall x: Name :: x.Old? ==> (x in w.heap <==> x in w1.heap) && (x in w.heap ==> w.heap[x] == w1.heap[x]))
  }

  /** The same evaluations in the same order, with the same result. */
  ghost predicate Same(a: State, b: State) {
    match a
    case At(_, _) => a == b
    case Left(_, _) => a == b
    case Exn(w, e) => b.Exn? && b.exn == e && SameWorld(w, b.w)
    case Out(w) => b.Out? && SameWorld(w, b.w)
  }

  lemma SameRefl(a: State)
    ensures Same(a, a)
  {
  }

  lemma SameTrans(a: State, b: State, c: State)
    requires Same(a, b) && Same(b, c)
    ensures Same(a, c)
  {
  }

  // ------------------------------------------------------------------- one conversion

  lemma StackedSame(s: Start, s1: Start, i: Instr, pc: nat, stack: seq<Name>)
    requires s.env == s1.env && s.lits == s1.lits && !Faults(i, |stack|, |s.env|)
    ensures Stacked(s, i, pc, stack) == Stacked(s1, i, pc, stack)
  {
  }

  lemma {:induction false} GlideSame(s: Start, s1: Start, code: seq<Instr>, code1: seq<Instr>, b: nat, pc: nat,
                                     stack: seq<Name>)
    requires b <= pc <= |code| == |code1| && s.env == s1.env && s.lits == s1.lits
    requires forall k :: b <= k < pc ==> code[k] == code1[k]
    ensures Glide(s, code, b, pc, stack) == Glide(s1, code1, b, pc, stack)
    decreases pc
  {
    hide Stacked, Cells, Faults;
    if b < pc {
      GlideSame(s, s1, code, code1, b, pc - 1, stack);
      var g := Glide(s, code, b, pc - 1, stack);
      if !Faults(code[pc - 1], |g.1|, |s.env|) {
        StackedSame(s, s1, code[pc - 1], pc - 1, g.1);
      }
    }
  }

  /** Forcing the block's own thunk later is calling its code earlier: the cells
      made in between cannot be seen from it. */
  lemma {:induction false} ForceMade(p: Program, w: World, q: nat, code: Code, args: seq<Name>, extra: map<Name, Cell>)
    requires Closed(w) && AllIn(w.heap, args)
    requires forall x :: x in w.heap && x.Made? ==> x.pc < q
    requires forall x :: x in extra ==> x.Made? && x.pc > q
    ensures var own := map[Made(q) := Thunk(code, args)];
            Force(p, Plus(Plus(w, own), extra), Made(q)) ==
            match Call(p, w, code, args)
            case Done(w1, v) => Done(Plus(Plus(w1, map[Made(q) := v]), extra), v)
            case Raised(w1, e) => Raised(Plus(Plus(w1, own), extra), e)
            case Spent(w1) => Spent(Plus(Plus(w1, own), extra))
  {
    hide Call, Closed, Grows, Plus, Apart;
    var own := map[Made(q) := Thunk(code, args)];
    var wc := Plus(Plus(w, own), extra);
    var held := map[Made(q) := Hole] + extra;
    HeldWorld(w, q, Thunk(code, args), Hole, extra);
    assert Apart(w, held) by { HeldApart(w, q, extra); }
    CallFrame(p, w, code, args, held);
    var r := Call(p, w, code, args);
    HeldWorld(r.w, q, Hole, if r.Done? then r.v else Thunk(code, args), extra);
    PlusPlus(r.w, map[Made(q) := Hole], extra);
  }

  lemma {:induction false} HeldWorld(w: World, q: nat, c: Cell, d: Cell, extra: map<Name, Cell>)
    requires Made(q) !in extra
    ensures var wc := Plus(Plus(w, map[Made(q) := c]), extra);
            && Made(q) in wc.heap && wc.heap[Made(q)] == c
            && wc.(heap := wc.heap[Made(q) := d]) == Plus(Plus(w, map[Made(q) := d]), extra)
            && Plus(Plus(w, map[Made(q) := d]), extra) == Plus(w, map[Made(q) := d] + extra)
  {
    PlusPlus(w, map[Made(q) := d], extra);
    assert ((w.heap + map[Made(q) := c]) + extra)[Made(q) := d] == (w.heap + map[Made(q) := d]) + extra;
  }

  lemma HeldApart(w: World, q: nat, extra: map<Name, Cell>)
    requires forall x :: x in w.heap && x.Made? ==> x.pc < q
    requires forall x :: x in extra ==> x.Made? && x.pc > q
    ensures Apart(w, map[Made(q) := Hole] + extra)
  {
  }

  /** `x` is the first of the instruction's demands that is not yet a value. */
  ghost predicate DemandsNext(p: Program, i: Instr, stack: seq<Name>, w: World, x: Name)
    requires Takes(i) <= |stack|
  {
    var d := Demanded(p, i, stack);
    exists j :: 0 <= j < |d| && d[j] == x && forall k :: 0 <= k < j ==> d[k] in w.heap && w.heap[d[k]].Value?
  }

  /** Running the consumer from the world in which the demand is still a thunk. */
  lemma {:induction false} ConsumeNext(p: Program, s: Start, i: Instr, pc: nat, stack: seq<Name>, w: World, x: Name)
    requires !Faults(i, |stack|, |s.env|) && DemandsNext(p, i, stack, w, x) && Closed(w) && x in w.heap
    ensures Step(p, s, i, pc, stack, w) ==
            match Force(p, w, x)
            case Done(w1, _) => Step(p, s, i, pc, stack, w1)
            case Raised(w1, e) => Exn(w1, e)
            case Spent(w1) => Out(w1)
  {
    hide Step, Closed, Force, Demanded;
    var d := Demanded(p, i, stack);
    var j :| 0 <= j < |d| && d[j] == x && forall k :: 0 <= k < j ==> d[k] in w.heap && w.heap[d[k]].Value?;
    var ys, zs := d[..j + 1], d[j + 1..];
    assert d == ys + zs;
    assert AllIn(w.heap, ys);
    StepForced(p, s, i, pc, stack, w, ys, zs);
    assert ys == d[..j] + [x];
    ForceAllValues(p, w, d[..j]);
    ForceAllSplit(p, w, d[..j], [x]);
    assert ForceAll(p, w, [x]) == var r := Force(p, w, x); if r.Done? then ForceAll(p, r.w, [x][1..]) else r;
    assert [x][1..] == [];
  }

  /** What makes a conversion of `q` for the consumer `c` right on this run. */
  ghost predicate Justified(p: Program, s: Start, code: seq<Instr>, b: nat, q: nat, c: nat) {
    && b <= q < c < |code| && Converted(code[q]) != code[q] && QuietRange(code, q + 1, c)
    && var r := Exec(p, s, code, b, c);
       r.At? ==> !Faults(code[c], |r.stack|, |s.env|) && DemandsNext(p, code[c], r.stack, r.w, Made(q))
  }

  /** The worlds after the producer: the thunk kept, and the thunk entered. */
  lemma {:induction false} ProducerSteps(p: Program, s: Start, i: Instr, q: nat, stack: seq<Name>, w: World)
    requires Converted(i) != i && !Faults(i, |stack|, |s.env|)
    ensures var args, top := Operands(s, i, stack), Stacked(s, i, q, stack);
            && Step(p, s, i, q, stack, w) == At(top, Plus(w, map[Made(q) := Thunk(CodeOf(i.bane), args)]))
            && Step(p, s, Converted(i), q, stack, w) ==
               match Call(p, w, CodeOf(i.bane), args)
               case Done(w1, v) => At(top, Plus(w1, map[Made(q) := v]))
               case Raised(w1, e) => Exn(w1, e)
               case Spent(w1) => Out(w1)
  {
  }

  /** The run that keeps the thunk, just before the consumer. */
  lemma {:induction false} KeptRun(p: Program, s: Start, code: seq<Instr>, b: nat, q: nat, c: nat, stack: seq<Name>,
                                   w: World)
    requires Sound(s) && b <= q < c < |code| && Converted(code[q]) != code[q] && QuietRange(code, q + 1, c)
    requires Exec(p, s, code, b, q) == At(stack, w) && !Faults(code[q], |stack|, |s.env|)
    ensures var i := code[q];
            var g := Glide(s, code, q + 1, c, Stacked(s, i, q, stack));
            var wc := Plus(Plus(w, map[Made(q) := Thunk(CodeOf(i.bane), Operands(s, i, stack))]), g.2);
            && Exec(p, s, code, b, c) == (if g.0 then At(g.1, wc) else Exn(wc, FAULT))
            && (forall x :: x in g.2 ==> x.Made? && x.pc > q)
  {
    hide Call, Sound, Stacked, Operands, Step, Plus, CodeOf, Faults;
    var i := code[q];
    NoFault(i, |stack|, |s.env|);
    ProducerSteps(p, s, i, q, stack, w);
    var top := Stacked(s, i, q, stack);
    var s0 := s.(stack := top, w := Plus(w, map[Made(q) := Thunk(CodeOf(i.bane), Operands(s, i, stack))]));
    ExecSplit(p, s, code, b, q + 1, c);
    GlideExec(p, s0, code, q + 1, c);
    GlideSame(s, s0, code, code, q + 1, c, top);
  }

  /** The run that enters it, just before the consumer. */
  lemma {:induction false} EnteredRun(p: Program, s: Start, code: seq<Instr>, b: nat, q: nat, c: nat,
                                      stack: seq<Name>, w: World)
    requires Sound(s) && b <= q < c < |code| && Converted(code[q]) != code[q] && QuietRange(code, q + 1, c)
    requires Exec(p, s, code, b, q) == At(stack, w) && !Faults(code[q], |stack|, |s.env|)
    ensures var i, code1 := code[q], code[q := Converted(code[q])];
            var g := Glide(s, code, q + 1, c, Stacked(s, i, q, stack));
            Exec(p, s, code1, b, c) ==
            match Call(p, w, CodeOf(i.bane), Operands(s, i, stack))
            case Done(w1, v) =>
              var wc := Plus(Plus(w1, map[Made(q) := v]), g.2);
              if g.0 then At(g.1, wc) else Exn(wc, FAULT)
            case Raised(w1, e) => Exn(w1, e)
            case Spent(w1) => Out(w1)
  {
    hide Call, Sound, Stacked, Operands, Step, Plus, CodeOf, Faults, Converted;
    var i, code1 := code[q], code[q := Converted(code[q])];
    ExecLocal(p, s, code, code1, b, q);
    NoFault(i, |stack|, |s.env|);
    ProducerSteps(p, s, i, q, stack, w);
    var top := Stacked(s, i, q, stack);
    var r := Call(p, w, CodeOf(i.bane), Operands(s, i, stack));
    ExecSplit(p, s, code1, b, q + 1, c);
    if r.Done? {
      var s1 := s.(stack := top, w := Plus(r.w, map[Made(q) := r.v]));
      GlideExec(p, s1, code1, q + 1, c);
      GlideSame(s, s1, code, code1, q + 1, c, top);
    }
  }

  /** Where nothing faults in between, the two runs agree once the consumer has run. */
  lemma {:induction false} ConvertAt(p: Program, s: Start, code: seq<Instr>, b: nat, q: nat, c: nat, stack: seq<Name>,
                                     w: World)
    requires Sound(s) && Justified(p, s, code, b, q, c) && Exec(p, s, code, b, q) == At(stack, w)
    requires !Faults(code[q], |stack|, |s.env|)
    requires Glide(s, code, q + 1, c, Stacked(s, code[q], q, stack)).0
    ensures var code1 := code[q := Converted(code[q])];
            && Same(Exec(p, s, code, b, c + 1), Exec(p, s, code1, b, c + 1))
            && (Exec(p, s, code1, b, c).At? ==>
                  var r, r1 := Exec(p, s, code, b, c), Exec(p, s, code1, b, c);
                  r.At? && r1.stack == r.stack && Made(q) in r1.w.heap && r1.w.heap[Made(q)].Value? && Holds(r.w, r1.w))
  {
    hide Call, Closed, Step, Converted, Sound, Faults, Stacked, Operands, Plus, Glide, Holds, SameWorld, CodeOf;
    var i, code1 := code[q], code[q := Converted(code[q])];
    assert Takes(i) <= |stack| by { NoFault(i, |stack|, |s.env|); }
    var args := Operands(s, i, stack);
    var own := map[Made(q) := Thunk(CodeOf(i.bane), args)];
    ExecInside(p, s, code, b, q);
    OperandsIn(s, i, stack, w);
    var r := Call(p, w, CodeOf(i.bane), args);
    KeptRun(p, s, code, b, q, c, stack, w);
    EnteredRun(p, s, code, b, q, c, stack, w);
    var g := Glide(s, code, q + 1, c, Stacked(s, i, q, stack));
    var wc := Plus(Plus(w, own), g.2);
    ForceMade(p, w, q, CodeOf(i.bane), args, g.2);
    ExecInside(p, s, code, b, c);
    HeldWorld(w, q, Thunk(CodeOf(i.bane), args), Hole, g.2);
    ConsumeNext(p, s, code[c], c, g.1, wc, Made(q));
    if r.Done? {
      CallKeeps(p, w, CodeOf(i.bane), args);
      HeldWorld(r.w, q, r.v, Hole, g.2);
      HoldsAcross(w, r.w, own, map[Made(q) := r.v], g.2);
      SameRefl(Exec(p, s, code, b, c + 1));
    } else {
      AgreeOld(r.w, own, g.2);
    }
  }

  lemma NoFault(i: Instr, depth: nat, vars: nat)
    requires !Faults(i, depth, vars)
    ensures Covers(i, depth) && Takes(i) <= depth
  {
  }

  lemma OperandsIn(s: Start, i: Instr, stack: seq<Name>, w: World)
    requires AllIn(w.heap, stack) && Takes(i) <= |stack| && !i.InterpExpr?
    ensures AllIn(w.heap, Operands(s, i, stack))
  {
  }

  lemma {:induction false} HoldsAcross(w: World, w1: World, own: map<Name, Cell>, own1: map<Name, Cell>,
                                       extra: map<Name, Cell>)
    requires Grows(w, w1) && own.Keys == own1.Keys && (forall x :: x in own ==> !own[x].Value?)
    ensures Holds(Plus(Plus(w, own), extra), Plus(Plus(w1, own1), extra))
  {
  }

  lemma {:induction false} AgreeOld(w: World, own: map<Name, Cell>, extra: map<Name, Cell>)
    requires (forall x :: x in own ==> x.Made?) && (forall x :: x in extra ==> x.Made?)
    ensures SameWorld(Plus(Plus(w, own), extra), w)
  {
  }

  /** Where an instruction in between faults, they do not: the thunk's code has
      run, or failed, before the fault the other run reports. */
  lemma {:induction false} ConvertDiffers(p: Program, s: Start, code: seq<Instr>, b: nat, q: nat, c: nat,
                                          stack: seq<Name>, w: World)
    requires Sound(s) && b <= q < c < |code| && Converted(code[q]) != code[q] && QuietRange(code, q + 1, c)
    requires Exec(p, s, code, b, q) == At(stack, w) && !Faults(code[q], |stack|, |s.env|)
    requires !Glide(s, code, q + 1, c, Stacked(s, code[q], q, stack)).0
    ensures var code1 := code[q := Converted(code[q])];
            !Exec(p, s, code, b, c).At? && !Exec(p, s, code1, b, c).At?
                && !Same(Exec(p, s, code, b, c), Exec(p, s, code1, b, c))
  {
    hide Step, Converted, Sound, Faults, Stacked, Operands, Glide, CodeOf, Call, Closed;
    var i := code[q];
    NoFault(i, |stack|, |s.env|);
    ExecInside(p, s, code, b, q);
    OperandsIn(s, i, stack, w);
    KeptRun(p, s, code, b, q, c, stack, w);
    EnteredRun(p, s, code, b, q, c, stack, w);
    var r := Call(p, w, CodeOf(i.bane), Operands(s, i, stack));
    if r.w.budget == w.budget {
      CallCheap(p, w, CodeOf(i.bane), Operands(s, i, stack));
    }
  }

  /** Main result for one conversion, on every run that reaches the producer and
      for every later point of the block: the rewritten block behaves the same
      exactly when no push or construction between producer and consumer faults. */
  lemma {:induction false} ConvertExact(p: Program, s: Start, code: seq<Instr>, b: nat, q: nat, c: nat, e: nat)
    requires Sound(s) && Justified(p, s, code, b, q, c) && c < e <= |code|
    requires var r := Exec(p, s, code, b, q); r.At? && !Faults(code[q], |r.stack|, |s.env|)
    ensures var r := Exec(p, s, code, b, q);
            Same(Exec(p, s, code, b, e), Exec(p, s, code[q := Converted(code[q])], b, e))
            <==> Glide(s, code, q + 1, c, Stacked(s, code[q], q, r.stack)).0
  {
    hide Step, Converted, Sound, Faults, Stacked, Operands, Glide, Same, Justified, SameWorld;
    JustifiedParts(p, s, code, b, q, c);
    var code1 := code[q := Converted(code[q])];
    var r := Exec(p, s, code, b, q);
    if Glide(s, code, q + 1, c, Stacked(s, code[q], q, r.stack)).0 {
      ConvertAt(p, s, code, b, q, c, r.stack, r.w);
      Onward(p, s, code, code1, b, c + 1, e);
    } else {
      ConvertDiffers(p, s, code, b, q, c, r.stack, r.w);
      ExecSplit(p, s, code, b, c, e);
      ExecSplit(p, s, code1, b, c, e);
    }
  }

  lemma JustifiedParts(p: Program, s: Start, code: seq<Instr>, b: nat, q: nat, c: nat)
    requires Justified(p, s, code, b, q, c)
    ensures b <= q < c < |code| && Converted(code[q]) != code[q] && QuietRange(code, q + 1, c)
  {
  }

  lemma {:induction false} Onward(p: Program, s: Start, code: seq<Instr>, code1: seq<Instr>, b: nat, m: nat, e: nat)
    requires b <= m <= e <= |code| == |code1| && (forall k :: m <= k < e ==> code[k] == code1[k])
    requires Same(Exec(p, s, code, b, m), Exec(p, s, code1, b, m))
    ensures Same(Exec(p, s, code, b, e), Exec(p, s, code1, b, e))
  {
    hide Step;
    ExecSplit(p, s, code, b, m, e);
    ExecSplit(p, s, code1, b, m, e);
    var r := Exec(p, s, code, b, m);
    if r.At? {
      ExecLocal(p, s.(stack := r.stack, w := r.w), code, code1, m, e);
      SameRefl(Exec(p, s, code, b, e));
    }
  }
}
