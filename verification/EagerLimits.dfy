/**
  Where the eager pass (pkg/plan/src/bytecode.c:503-705) does change meaning: past a
  variable that decoding let through, and from a strict entry in front of which the
  walk still tracks slots. Each has its input, and the second its exact condition.
 */
module EagerLimits {
  import opened Thunks
  import opened Bytecode
  import opened EagerBlocks
  import opened EagerPass
  import opened EagerWalk
  import opened EagerEntry
  import opened EagerGiven
  import Readiness

  // ------------------------------------------------------------------ following the walk

  /** The walk is inside a block in front of `n`. */
  ghost predicate Within(ctx: Context, code: seq<Instr>, n: nat) {
    n < |code| && n < |ctx.ready| && n < |ctx.target| && !Leads(ctx, code, n) && WalkTo(ctx, code, n).live
  }

  /** An instruction that consumes nothing only moves the slots. */
  lemma {:induction false} Follow(ctx: Context, code: seq<Instr>, n: nat)
    requires Within(ctx, code, n) && Quiet(code[n])
    requires var slots := WalkTo(ctx, code, n).slots;
             Covers(code[n], |slots|) && |slots| - Takes(code[n]) + Pushes(code[n]) <= READY_SLOTS
    ensures var w := WalkTo(ctx, code, n);
            WalkTo(ctx, code, n + 1)
                == w.(slots := w.slots[..|w.slots| - Takes(code[n])] + TopSlot(ctx, code[n], n, w.slots))
  {
    hide Consume, TopSlot, Takes, Pushes;
    var w := WalkTo(ctx, code, n);
    assert w.code[n] == code[n] && !Consumer(code[n]) && !Ends(code[n]);
    assert Begin(ctx, n, w) == w && !w.begins;
    assert |TopSlot(ctx, code[n], n, w.slots)| == Pushes(code[n]);
  }

  /** A force enters the producer of what it forces, if nothing was evaluated since. */
  lemma {:induction false} ForceConverts(ctx: Context, code: seq<Instr>, n: nat, m: nat)
    requires Within(ctx, code, n) && code[n].ForceTop?
    requires var w := WalkTo(ctx, code, n);
             && 0 < |w.slots| && m == Resolve(w.slots, |w.slots| - 1) && !w.slots[m].whnf
             && w.last < w.slots[m].producer
             && 0 <= w.slots[m].producer && Converted(w.code[w.slots[m].producer]) != w.code[w.slots[m].producer]
    ensures var w := WalkTo(ctx, code, n);
            var q := w.slots[m].producer; WalkTo(ctx, code, n + 1).code == w.code[q := Converted(w.code[q])]
  {
    hide Converted, TopSlot, WalkTo, Consume, Covers, OnlyConverted;
    var w := WalkTo(ctx, code, n);
    var q := w.slots[m].producer;
    Untouched(ctx, code, n);
    ConsumeForce(ctx, n, w.code, w.slots, w.last, m, q);
    assert WalkTo(ctx, code, n + 1) == Advance(ctx, n, w) by { NextWalk(ctx, code, n); }
  }

  lemma Untouched(ctx: Context, code: seq<Instr>, n: nat)
    requires Within(ctx, code, n)
    ensures |WalkTo(ctx, code, n).code| == |code| && WalkTo(ctx, code, n).code[n] == code[n]
    ensures Begin(ctx, n, WalkTo(ctx, code, n)) == WalkTo(ctx, code, n)
  {
  }

  lemma NextWalk(ctx: Context, code: seq<Instr>, n: nat)
    requires Within(ctx, code, n)
    ensures WalkTo(ctx, code, n + 1) == Advance(ctx, n, Begin(ctx, n, WalkTo(ctx, code, n)))
  {
    hide Advance, Begin;
  }

  lemma {:induction false} ConsumeForce(ctx: Context, pc: nat, code: seq<Instr>, slots: seq<Slot>, last: int,
                                        m: nat, q: nat)
    requires pc < |code| && 0 < |slots| && Tracked(slots, pc) && m == Resolve(slots, |slots| - 1)
    requires !slots[m].whnf && slots[m].producer == q && last < q && Converted(code[q]) != code[q]
    ensures Consume(ctx, ForceTop, pc, code, slots, last, 0).code == code[q := Converted(code[q])]
  {
    hide Converted, OnlyConverted, Consume;
    assert Ordered(ctx, ForceTop, pc, slots, q, 0) && MaskAt(ctx, ForceTop, 0);
    ConsumeUnfold(ctx, ForceTop, pc, code, slots, last, 0);
    ConsumeUnfold(ctx, ForceTop, pc, code[q := Converted(code[q])], Settle(slots, m, q), q, 1);
  }

  /** Neither a target nor behind an instruction that ends its block. */
  lemma Plainly(ctx: Context, code: seq<Instr>, n: nat)
    requires 0 < n < |code| == |ctx.target|
    ensures Leads(ctx, code, n) <==> ctx.target[n] || Ends(code[n - 1])
  {
  }

  lemma {:induction false} FollowLit(ctx: Context, code: seq<Instr>, n: nat, l: nat)
    requires Within(ctx, code, n) && code[n] == PushLit(l) && |WalkTo(ctx, code, n).slots| < READY_SLOTS
    ensures var w := WalkTo(ctx, code, n);
            WalkTo(ctx, code, n + 1) == w.(slots := w.slots + [Slot(-1, -1, -1, ctx.literal(l))])
  {
    hide WalkTo;
    Follow(ctx, code, n);
    var w := WalkTo(ctx, code, n);
    assert w.slots[..|w.slots|] == w.slots;
  }

  lemma {:induction false} FollowVar(ctx: Context, code: seq<Instr>, n: nat, v: nat)
    requires Within(ctx, code, n) && code[n] == PushVar(v) && |WalkTo(ctx, code, n).slots| < READY_SLOTS
    ensures var w, known := WalkTo(ctx, code, n), v < READY_VARS && v in VarsAt(ctx.ready[n]);
            WalkTo(ctx, code, n + 1) == w.(slots := w.slots + [Slot(-1, -1, -1, known)])
  {
    hide WalkTo;
    Follow(ctx, code, n);
    var w := WalkTo(ctx, code, n);
    assert w.slots[..|w.slots|] == w.slots;
  }

  lemma {:induction false} FollowThunk(ctx: Context, code: seq<Instr>, n: nat)
    requires Within(ctx, code, n) && code[n] == MkThk(1, Known(0)) && 0 < |WalkTo(ctx, code, n).slots| <= READY_SLOTS
    ensures var w := WalkTo(ctx, code, n);
            WalkTo(ctx, code, n + 1) == w.(slots := w.slots[..|w.slots| - 1] + [Slot(-1, n, -1, false)])
  {
    hide WalkTo;
    Follow(ctx, code, n);
  }

  lemma {:induction false} FollowCopy(ctx: Context, code: seq<Instr>, n: nat, k: nat)
    requires Within(ctx, code, n) && code[n] == PushSlot(k) && k < |WalkTo(ctx, code, n).slots| < READY_SLOTS
    requires WalkTo(ctx, code, n).slots[k].src < 0
    ensures var w := WalkTo(ctx, code, n);
            WalkTo(ctx, code, n + 1) == w.(slots := w.slots + [Slot(k, -1, -1, false)])
  {
    hide WalkTo;
    Follow(ctx, code, n);
    var w := WalkTo(ctx, code, n);
    assert w.slots[..|w.slots|] == w.slots;
  }

  /** An instruction that consumes nothing converts nothing. */
  lemma {:induction false} StillCode(ctx: Context, code: seq<Instr>, n: nat)
    requires n < |code| && n < |ctx.ready| && n < |ctx.target| && !Consumer(code[n])
    ensures WalkTo(ctx, code, n + 1).code == WalkTo(ctx, code, n).code
  {
    hide Consume, TopSlot, Covers;
    assert WalkTo(ctx, code, n).code[n] == code[n];
  }

  /** And so for the returns that end the code. */
  lemma {:induction false} StillEnd(ctx: Context, code: seq<Instr>, n: nat)
    requires n <= |code| == |ctx.ready| == |ctx.target| && forall k :: n <= k < |code| ==> code[k].Ret?
    ensures Rewrite(ctx, code) == WalkTo(ctx, code, n).code
    decreases |code| - n
  {
    hide WalkTo;
    if n < |code| {
      StillCode(ctx, code, n);
      StillEnd(ctx, code, n + 1);
    }
  }

  lemma FirstLit(p: Program, s: Start, code: seq<Instr>, x: nat)
    requires x < |code| && code[x] == PushLit(0) && s.stack == []
    ensures Exec(p, s, code, x, x + 1) == At([s.lits(0)], Plus(s.w, map[]))
  {
    assert Exec(p, s, code, x, x) == At([], s.w);
  }

  // ------------------------------------------------------ a fault between the two runs

  /** A thunk, an out-of-range variable, a copy of the thunk, and its force. */
  function Faulty(n: nat): (r: seq<Instr>) {
    [PushLit(0), MkThk(1, Known(0)), PushVar(n), PushSlot(0), ForceTop, Ret]
  }

  lemma FaultyAt(n: nat)
    ensures var code := Faulty(n);
            && |code| == 6 && code[0] == PushLit(0) && code[1] == MkThk(1, Known(0))
            && code[2] == PushVar(n) && code[3] == PushSlot(0) && code[4] == ForceTop && code[5] == Ret
  {
  }

  lemma {:induction false} FaultyConverted(ctx: Context, n: nat)
    requires |ctx.ready| == |ctx.target| == 6 && (forall k :: 0 < k < 6 ==> !ctx.target[k])
    requires ctx.ready[0].Shape? && ctx.ready[0].depth == 0
    ensures Rewrite(ctx, Faulty(n)) == Faulty(n)[1 := CallKnown(1, 0)]
  {
    hide WalkTo, Faulty, Leads, TopSlot, Takes, Pushes, Rewrite;
    var code := Faulty(n);
    FaultyAt(n);
    FirstThunk(ctx, code);
    Plainly(ctx, code, 2);
    FollowVar(ctx, code, 2, n);
    Plainly(ctx, code, 3);
    FollowCopy(ctx, code, 3, 0);
    Plainly(ctx, code, 4);
    ForceConverts(ctx, code, 4, 0);
    StillEnd(ctx, code, 5);
  }

  lemma {:induction false} FirstThunk(ctx: Context, code: seq<Instr>)
    requires |ctx.ready| == |ctx.target| == |code| && |code| > 1 && code[0] == PushLit(0)
             && code[1] == MkThk(1, Known(0))
    requires ctx.ready[0].Shape? && ctx.ready[0].depth == 0 && !ctx.target[1]
    ensures WalkTo(ctx, code, 2) == Walk(code, true, false, [Slot(-1, 1, -1, false)], -1)
  {
    hide WalkTo, Advance;
    FirstPush(ctx, code);
    Follow(ctx, code, 1);
  }

  lemma {:induction false} FirstPush(ctx: Context, code: seq<Instr>)
    requires |ctx.ready| == |ctx.target| == |code| && |code| > 0 && code[0] == PushLit(0)
    requires ctx.ready[0].Shape? && ctx.ready[0].depth == 0
    ensures WalkTo(ctx, code, 1) == Walk(code, true, false, [Slot(-1, -1, -1, ctx.literal(0))], -1)
  {
    var w := WalkTo(ctx, code, 0);
    assert Begin(ctx, 0, w) == Walk(code, true, false, [], -1) by { StartEmpty(ctx.ready[0]); }
  }

  /** Decoding lets a variable out of range through, the pass converts this code,
      and every activation with too few variables tells the two apart: the thunk
      runs before the fault instead of never. */
  lemma {:induction false} FaultReordered(ctx: Context, p: Program, s: Start, n: nat)
    requires |ctx.ready| == |ctx.target| == 6 && (forall k :: 0 < k < 6 ==> !ctx.target[k]) && ctx.entry == 0
    requires ctx.ready[0].Shape? && ctx.ready[0].depth == 0
    requires Sound(s) && s.stack == [] && |s.env| <= n
    ensures Decodable(ctx, Faulty(n))
    ensures !Same(Exec(p, s, Faulty(n), 0, 6), Exec(p, s, Rewrite(ctx, Faulty(n)), 0, 6))
  {
    hide Call, Force, Rewrite, Sound, Step;
    var code := Faulty(n);
    var code1 := code[1 := Converted(code[1])];
    FaultyConverted(ctx, n);
    assert Exec(p, s, code, 0, 1) == At([s.lits(0)], Plus(s.w, map[])) by { FirstLit(p, s, code, 0); }
    var top := Stacked(s, code[1], 1, [s.lits(0)]);
    assert !Glide(s, code, 2, 3, top).0;
    assert !Glide(s, code, 2, 4, top).0;
    ConvertDiffers(p, s, code, 0, 1, 4, [s.lits(0)], Plus(s.w, map[]));
    ExecSplit(p, s, code, 0, 4, 6);
    ExecSplit(p, s, code1, 0, 4, 6);
  }

  // --------------------------------------------- a tail that tells from the strict entry

  /** From `x` on: a thunk, `m` literals, a copy of slot `d` that is forced, and
      returns. For a walk that carries `d` slots in, slot `d` is the thunk. */
  ghost predicate HasTail(code: seq<Instr>, x: nat, d: nat, m: nat) {
    && x + m + 5 <= |code| && code[x] == PushLit(0) && code[x + 1] == MkThk(1, Known(0))
    && (forall k :: x + 2 <= k < x + 2 + m ==> code[k] == PushLit(1))
    && code[x + m + 2] == PushSlot(d) && code[x + m + 3] == ForceTop
    && (forall k :: x + m + 4 <= k < |code| ==> code[k] == Ret)
  }

  /** Nothing leads between the entry and the first return. */
  ghost predicate Unled(ctx: Context, code: seq<Instr>, x: nat, m: nat)
    requires |code| == |ctx.target|
  {
    x > 0 && x + m + 5 <= |code| && !Ends(code[x - 1]) && forall k :: x <= k < x + m + 5 ==> !ctx.target[k]
  }

  lemma {:induction false} UnledAt(ctx: Context, code: seq<Instr>, x: nat, d: nat, m: nat, n: nat)
    requires |code| == |ctx.target| && HasTail(code, x, d, m) && Unled(ctx, code, x, m) && x <= n < x + m + 5
    ensures !Leads(ctx, code, n)
  {
    Plainly(ctx, code, n);
    if n > x + 2 {
      assert code[n - 1] == PushLit(1) || n - 1 >= x + m + 2;
    }
  }

  /** Literals pile up on the slots. */
  lemma {:induction false} FollowLits(ctx: Context, code: seq<Instr>, x: nat, d: nat, m: nat, j: nat)
    requires |code| == |ctx.ready| == |ctx.target| && HasTail(code, x, d, m) && Unled(ctx, code, x, m) && j <= m
    requires x + m + 5 <= |code|
    requires var w := WalkTo(ctx, code, x + 2); w.live && |w.slots| + m <= READY_SLOTS
    ensures var w := WalkTo(ctx, code, x + 2);
            WalkTo(ctx, code, x + 2 + j) == w.(slots := w.slots + Literals(ctx, j))
    decreases j
  {
    hide WalkTo, Leads, HasTail, Unled;
    var w := WalkTo(ctx, code, x + 2);
    if j == 0 {
      assert w.slots + Literals(ctx, 0) == w.slots;
    } else {
      FollowLits(ctx, code, x, d, m, j - 1);
      assert code[x + 1 + j] == PushLit(1) && x + 2 + j < |code| by { LitAt(code, x, d, m, x + 1 + j); }
      UnledAt(ctx, code, x, d, m, x + 1 + j);
      FollowLit(ctx, code, x + 1 + j, 1);
      assert w.slots + Literals(ctx, j) == (w.slots + Literals(ctx, j - 1)) + [Slot(-1, -1, -1, ctx.literal(1))];
    }
  }

  lemma LitAt(code: seq<Instr>, x: nat, d: nat, m: nat, k: nat)
    requires HasTail(code, x, d, m) && x + 2 <= k < x + 2 + m
    ensures code[k] == PushLit(1) && k + 1 < |code|
  {
  }

  function Literals(ctx: Context, m: nat): (r: seq<Slot>)
    ensures |r| == m
  {
    seq(m, _ => Slot(-1, -1, -1, ctx.literal(1)))
  }

  /** The walk in front of the force: its operand is a copy of the thunk. */
  lemma {:induction false} TailSlots(ctx: Context, code: seq<Instr>, x: nat, d: nat, m: nat)
    requires |code| == |ctx.ready| == |ctx.target| && HasTail(code, x, d, m) && Unled(ctx, code, x, m)
    requires var w := WalkTo(ctx, code, x); w.live && |w.slots| == d && d + m + 2 <= READY_SLOTS
    ensures var w, thunk := WalkTo(ctx, code, x), Slot(-1, x + 1, -1, false);
            WalkTo(ctx, code, x + m + 3)
                == w.(slots := w.slots + [thunk] + Literals(ctx, m) + [Slot(d, -1, -1, false)])
  {
    hide WalkTo, TopSlot, Leads, Takes, Pushes, Literals, Unled;
    var w, thunk := WalkTo(ctx, code, x), Slot(-1, x + 1, -1, false);
    UnledAt(ctx, code, x, d, m, x);
    FollowLit(ctx, code, x, 0);
    var first := Slot(-1, -1, -1, ctx.literal(0));
    UnledAt(ctx, code, x, d, m, x + 1);
    FollowThunk(ctx, code, x + 1);
    assert (w.slots + [first])[..d] == w.slots;
    assert WalkTo(ctx, code, x + 2) == w.(slots := w.slots + [thunk]);
    FollowLits(ctx, code, x, d, m, m);
    var slots := w.slots + [thunk] + Literals(ctx, m);
    assert slots[d] == thunk;
    UnledAt(ctx, code, x, d, m, x + m + 2);
    FollowCopy(ctx, code, x + m + 2, d);
  }

  /** The walk takes slot `d` for the thunk, and converts it. */
  lemma {:induction false} TailConverted(ctx: Context, code: seq<Instr>, x: nat, d: nat, m: nat)
    requires |code| == |ctx.ready| == |ctx.target| && HasTail(code, x, d, m) && Unled(ctx, code, x, m)
    requires var w := WalkTo(ctx, code, x); w.live && |w.slots| == d && d + m + 2 <= READY_SLOTS
    ensures var r := Rewrite(ctx, code);
            |r| == |code| && forall k :: x <= k < |code| ==> r[k] == code[x + 1 := CallKnown(1, 0)][k]
  {
    hide WalkTo, Advance, OnlyConverted, Leads, Unled, Literals, Rewrite;
    TailSlots(ctx, code, x, d, m);
    var w := WalkTo(ctx, code, x);
    TailKept(ctx, code, x);
    UnledAt(ctx, code, x, d, m, x + m + 3);
    var slots := w.slots + [Slot(-1, x + 1, -1, false)] + Literals(ctx, m) + [Slot(d, -1, -1, false)];
    assert slots[|slots| - 1] == Slot(d, -1, -1, false) && slots[d] == Slot(-1, x + 1, -1, false);
    ForceConverts(ctx, code, x + m + 3, d);
    StillEnd(ctx, code, x + m + 4);
  }

  lemma TailKept(ctx: Context, code: seq<Instr>, x: nat)
    requires x <= |code| && x <= |ctx.ready| && x <= |ctx.target|
    ensures var w := WalkTo(ctx, code, x); |w.code| == |code| && forall k :: x <= k < |code| ==> w.code[k] == code[k]
  {
    hide WalkTo;
  }

  /** Where no slot `d` exists the run faults, and the thunk should not have run. */
  lemma {:induction false} TailFaults(p: Program, s: Start, code: seq<Instr>, x: nat, d: nat)
    requires HasTail(code, x, d, 0) && Sound(s) && s.stack == [] && d > 0
    ensures !Same(Exec(p, s, code, x, x + 5), Exec(p, s, code[x + 1 := CallKnown(1, 0)], x, x + 5))
  {
    hide Exec, Step, Sound, Call;
    var code1 := code[x + 1 := Converted(code[x + 1])];
    FirstLit(p, s, code, x);
    var top := Stacked(s, code[x + 1], x + 1, [s.lits(0)]);
    assert !Glide(s, code, x + 2, x + 3, top).0;
    ConvertDiffers(p, s, code, x, x + 1, x + 3, [s.lits(0)], Plus(s.w, map[]));
    ExecSplit(p, s, code, x, x + 3, x + 5);
    ExecSplit(p, s, code1, x, x + 3, x + 5);
  }

  /** Where it is one of the literals nothing faults, and the thunk should not run. */
  lemma {:induction false} TailSilent(p: Program, s: Start, code: seq<Instr>, x: nat, d: nat, m: nat)
    requires HasTail(code, x, d, m) && Sound(s) && s.stack == [] && 0 < d <= m && IsValue(s.w.heap, s.lits(1))
    ensures Exec(p, s, code, x, x + m + 5).At?
    ensures !Same(Exec(p, s, code, x, x + m + 5), Exec(p, s, code[x + 1 := CallKnown(1, 0)], x, x + m + 5))
  {
    hide Exec, Step, Sound, IsValue, Plus;
    assert s.lits(1).Old? by { OldLiteral(s, 1); }
    KeptLiteral(p, s, code, x, d, m);
    EnteredThunk(p, s, code, x, d, m);
  }

  /** The converted code runs the thunk, or stops trying. */
  lemma {:induction false} EnteredThunk(p: Program, s: Start, code: seq<Instr>, x: nat, d: nat, m: nat)
    requires HasTail(code, x, d, m) && s.stack == []
    ensures var r := Exec(p, s, code[x + 1 := CallKnown(1, 0)], x, x + m + 5); r.At? ==> r.w.budget < s.w.budget
  {
    hide Exec, Step;
    var code1 := code[x + 1 := CallKnown(1, 0)];
    ExecSplit(p, s, code1, x, x + 2, x + m + 5);
    FirstLit(p, s, code1, x);
    LastStep(p, s, code1, x, x + 1);
    CallSpends(p, s, x + 1, [s.lits(0)], Plus(s.w, map[]));
    var r := Exec(p, s, code1, x, x + 2);
    if r.At? {
      BudgetFalls(p, s.(stack := r.stack, w := r.w), code1, x + 2, x + m + 5);
    }
  }

  lemma CallSpends(p: Program, s: Start, pc: nat, stack: seq<Name>, w: World)
    ensures var r := Step(p, s, CallKnown(1, 0), pc, stack, w); r.At? ==> r.w.budget < w.budget
  {
    hide Call, Force, Stacked, Operands;
  }

  lemma OldLiteral(s: Start, l: nat)
    requires Sound(s)
    ensures s.lits(l).Old?
  {
  }

  lemma {:induction false} KeptLiteral(p: Program, s: Start, code: seq<Instr>, x: nat, d: nat, m: nat)
    requires HasTail(code, x, d, m) && s.stack == [] && 0 < d <= m && IsValue(s.w.heap, s.lits(1)) && s.lits(1).Old?
    ensures var r := Exec(p, s, code, x, x + m + 5); r.At? && r.w.budget == s.w.budget
  {
    hide Exec, Step, Glide;
    var c := x + m + 3;
    var g := Glide(s, code, x, c, []);
    assert g.0 && |g.1| == m + 2 && g.1[m + 1] == s.lits(1) by { KeptGlide(s, code, x, d, m); }
    GlideExec(p, s, code, x, c);
    assert Exec(p, s, code, x, c + 1) == Step(p, s, ForceTop, c, g.1, Plus(s.w, g.2)) by { LastStep(p, s, code, x, c); }
    ForceStays(p, s, c, g.1, Plus(s.w, g.2));
    assert Exec(p, s, code, x, c + 2)
        == Step(p, s, Ret, c + 1, g.1, Plus(s.w, g.2)) by { LastStep(p, s, code, x, c + 1); }
    RetStays(p, s, c + 1, g.1, Plus(s.w, g.2));
  }

  lemma ForceStays(p: Program, s: Start, pc: nat, stack: seq<Name>, w: World)
    requires stack != [] && IsValue(w.heap, stack[|stack| - 1])
    ensures Step(p, s, ForceTop, pc, stack, w) == At(stack, w)
  {
    hide Call;
  }

  lemma RetStays(p: Program, s: Start, pc: nat, stack: seq<Name>, w: World)
    ensures Step(p, s, Ret, pc, stack, w) == At(stack, w)
  {
    hide Call;
  }

  lemma LastStep(p: Program, s: Start, code: seq<Instr>, b: nat, pc: nat)
    requires b <= pc < |code| && Exec(p, s, code, b, pc).At?
    ensures var r := Exec(p, s, code, b, pc); Exec(p, s, code, b, pc + 1) == Step(p, s, code[pc], pc, r.stack, r.w)
  {
    hide Step;
  }

  /** The stack in front of the force. */
  lemma {:induction false} KeptGlide(s: Start, code: seq<Instr>, x: nat, d: nat, m: nat)
    requires HasTail(code, x, d, m) && 0 < d <= m
    ensures var g := Glide(s, code, x, x + m + 3, []); g.0 && |g.1| == m + 2 && g.1[m + 1] == s.lits(1)
  {
    hide Cells;
    LitsGlide(s, code, x, d, m, m);
  }

  lemma {:induction false} LitsGlide(s: Start, code: seq<Instr>, x: nat, d: nat, m: nat, j: nat)
    requires HasTail(code, x, d, m) && j <= m
    ensures var g := Glide(s, code, x, x + 2 + j, []);
            g.0 && |g.1| == j + 1 && forall k :: 1 <= k <= j ==> g.1[k] == s.lits(1)
    decreases j
  {
    hide Cells;
    if j == 0 {
      assert Glide(s, code, x, x + 1, []).1 == [s.lits(0)];
    } else {
      LitsGlide(s, code, x, d, m, j - 1);
      assert code[x + 1 + j] == PushLit(1);
    }
  }

  lemma {:induction false} BudgetFalls(p: Program, s: Start, code: seq<Instr>, b: nat, pc: nat)
    requires b <= pc <= |code|
    ensures Exec(p, s, code, b, pc).w.budget <= s.w.budget
    decreases pc
  {
    hide Stacked, Cells, Operands, Runs;
    if b < pc {
      BudgetFalls(p, s, code, b, pc - 1);
    }
  }

  // ------------------------------------------------- slots carried into the strict entry

  /** Slot 1 is the thunk for the walk, and the literal for an activation from 2. */
  const REORDERED: seq<Instr> :=
    [PushLit(0), Entry, PushLit(0), MkThk(1, Known(0)), PushLit(1), PushSlot(1), ForceTop, Ret]

  /** Decodable, sane, and nothing faults: from the strict entry the code forces a
      literal and the thunk never runs; after the pass it does. */
  lemma {:induction false} EntryReordered(ctx: Context, p: Program, s: Start)
    requires |ctx.ready| == |ctx.target| == 8 && (forall k :: 0 < k < 8 ==> !ctx.target[k]) && ctx.entry == 2
    requires ctx.ready[0].Shape? && ctx.ready[0].depth == 0
    requires Sound(s) && s.stack == [] && IsValue(s.w.heap, s.lits(1))
    ensures Decodable(ctx, REORDERED) && Sane(REORDERED, ctx.vars) && Exec(p, s, REORDERED, 2, 8).At?
    ensures !Same(Exec(p, s, REORDERED, 2, 8), Exec(p, s, Rewrite(ctx, REORDERED), 2, 8))
  {
    hide Rewrite, Exec, Same, Sound, IsValue, WalkTo, Decodable, Sane;
    ReorderedDecodes(ctx);
    ReorderedWalk(ctx);
    TailConverted(ctx, REORDERED, 2, 1, 1);
    var code1 := Rewrite(ctx, REORDERED);
    ExecLocal(p, s, REORDERED[3 := CallKnown(1, 0)], code1, 2, 8);
    TailSilent(p, s, REORDERED, 2, 1, 1);
  }

  lemma ReorderedDecodes(ctx: Context)
    requires |ctx.target| == 8 && ctx.entry == 2
    ensures Decodable(ctx, REORDERED) && Sane(REORDERED, ctx.vars)
  {
  }

  /** The walk carries one slot into the entry. */
  lemma {:induction false} ReorderedWalk(ctx: Context)
    requires |ctx.ready| == |ctx.target| == 8 && (forall k :: 0 < k < 8 ==> !ctx.target[k])
    requires ctx.ready[0].Shape? && ctx.ready[0].depth == 0
    ensures var w := WalkTo(ctx, REORDERED, 2); w.live && |w.slots| == 1
  {
    hide WalkTo, Advance;
    FirstPush(ctx, REORDERED);
    Follow(ctx, REORDERED, 1);
  }

  // ------------------------------------------------------------- the exact condition

  /** `u` could begin decodable code that has its strict entry right behind `u`,
      and its facts solve what of the flow equations lies within `u`. */
  ghost predicate Prefix(ctx: Context, u: seq<Instr>) {
    && 0 < |u| <= |ctx.ready| && |u| <= |ctx.target| && Sane(u, ctx.vars) && u[|u| - 1].Entry?
    && (forall pc: nat :: pc < |u| ==> ArgsChecked(u[pc]) && (u[pc].Entry? ==> pc == |u| - 1) && Inward(ctx, u, pc))
    && Readiness.Accounts(ctx.ready[0], Shape(0, {}, {}))
    && (forall pc: nat :: pc < |u| ==> Readiness.Proper(ctx.ready[pc]))
    && (forall pc: nat :: pc < |u| && !ctx.ready[pc].Unseen? ==> Solved(ctx, u, pc))
  }

  /** Jumps that stay within `u` land on marks. */
  ghost predicate Inward(ctx: Context, u: seq<Instr>, pc: nat)
    requires pc < |u| <= |ctx.target|
  {
    forall k :: 0 <= k < |Targets(u[pc])| && Targets(u[pc])[k] < |u| ==> ctx.target[Targets(u[pc])[k]]
  }

  /** The equations of `pc` as far as they concern `u`. */
  ghost predicate Solved(ctx: Context, u: seq<Instr>, pc: nat)
    requires pc < |u| <= |ctx.ready| && Readiness.Proper(ctx.ready[pc]) && !ctx.ready[pc].Unseen?
  {
    var fs := Readiness.Flows(ProgramOf(ctx, u), pc, ctx.ready[pc]);
    fs.Some? && forall k :: 0 <= k < |fs.value| && fs.value[k].target < |u| ==>
                              Readiness.Accounts(ctx.ready[fs.value[k].target], fs.value[k].state)
  }

  function ProgramOf(ctx: Context, code: seq<Instr>): (p: Readiness.Program) {
    Readiness.Program(code, ctx.literal, _ => {}, ctx.entry, {}, [])
  }

  /** `u` with the facts `ctx` about it, continued by `v` after an unmarked entry. */
  ghost predicate Continues(ctx: Context, u: seq<Instr>, ctx1: Context, v: seq<Instr>) {
    && HasEntry(ctx1, u + v) && ctx1.entry == |u| && Sane(u + v, ctx1.vars) && !ctx1.target[|u|]
    && Decodable(ctx1, u + v) && Analysed(ctx1, u + v)
    && ctx1.strict == ctx.strict && ctx1.literal == ctx.literal && ctx1.vars == ctx.vars
    && |u| <= |ctx.ready| && |u| <= |ctx.target|
    && ctx1.ready[..|u|] == ctx.ready[..|u|] && ctx1.target[..|u|] == ctx.target[..|u|]
  }

  ghost predicate ContinuesSafely(ctx: Context, u: seq<Instr>, ctx1: Context, v: seq<Instr>) {
    Continues(ctx, u, ctx1, v) ==> EntryPreserves(ctx1, u + v, Rewrite(ctx1, u + v))
  }

  /** Some activation from the entry tells the code from its rewriting, without a fault. */
  ghost predicate ToldSilently(ctx1: Context, code: seq<Instr>)
    requires HasEntry(ctx1, code)
  {
    exists act, s, e: nat :: ToldBy(ctx1, code, act, s, e)
  }

  ghost predicate ToldBy(ctx1: Context, code: seq<Instr>, act: (Code, seq<Seen>) -> Action, s: Start, e: nat)
    requires HasEntry(ctx1, code)
  {
    && WholeBlock(EntryLeaders(ctx1, code), ctx1.entry, e)
    && Fits(WithEntry(ctx1), EntryLeaders(ctx1, code), s, ctx1.entry)
    && var p := Program(act, ctx1.strict);
       && Exec(p, s, code, ctx1.entry, e).At?
       && !Same(Exec(p, s, code, ctx1.entry, e), Exec(p, s, Rewrite(ctx1, code), ctx1.entry, e))
  }

  /** Room behind `u` for a tail with `m` literals: slots for its operands, and no
      jump of `u` into it. */
  ghost predicate RoomFor(ctx: Context, u: seq<Instr>, m: nat)
    requires |u| <= |ctx.ready| && |u| <= |ctx.target|
  {
    && |WalkTo(ctx, u, |u|).slots| + m + 2 <= READY_SLOTS
    && forall t: nat :: |u| <= t < |u| + m + 5 ==> !IsTarget(u, t)
  }

  ghost predicate IsTarget(u: seq<Instr>, t: nat) {
    exists pc: nat :: pc < |u| && t in Targets(u[pc])
  }

  /** The walk up to the entry does not depend on what comes after. */
  lemma {:induction false} PrefixWalk(ctx: Context, u: seq<Instr>, ctx1: Context, v: seq<Instr>)
    requires Continues(ctx, u, ctx1, v)
    ensures Agree(WalkTo(ctx, u, |u|), WalkTo(ctx1, u + v, |u|), |u|)
  {
    hide Sane;
    assert (u + v)[..|u|] == u == u[..|u|];
    forall k: nat | k < |u| ensures ctx.target[k] == ctx1.target[k] && ctx.ready[k] == ctx1.ready[k] {
      assert ctx.target[k] == ctx.target[..|u|][k] && ctx.ready[k] == ctx.ready[..|u|][k];
    }
    WalkAgrees(ctx, ctx1, u, u + v, |u|);
  }

  // ------------------------------------------------------ a continuation that fails

  /** No jump of `u` goes beyond this. */
  function Furthest(u: seq<Instr>): (r: nat) {
    if u == [] then 0 else Max(Furthest(u[..|u| - 1]), Beyond(Targets(u[|u| - 1])))
  }

  function Beyond(ts: seq<nat>): (r: nat)
    ensures forall k :: 0 <= k < |ts| ==> ts[k] < r
  {
    if ts == [] then 0 else Max(Beyond(ts[..|ts| - 1]), ts[|ts| - 1] + 1)
  }

  function Max(a: nat, b: nat): (r: nat) {
    if a < b then b else a
  }

  lemma {:induction false} FurthestBounds(u: seq<Instr>, pc: nat, k: nat)
    requires pc < |u| && k < |Targets(u[pc])|
    ensures Targets(u[pc])[k] < Furthest(u)
    decreases |u|
  {
    if pc < |u| - 1 {
      FurthestBounds(u[..|u| - 1], pc, k);
    }
  }

  /** The tail itself, with returns wherever a jump of `u` may still land. */
  function Tail(d: nat, m: nat, rets: nat): (v: seq<Instr>)
    ensures |v| == m + 4 + rets
  {
    [PushLit(0), MkThk(1, Known(0))] + seq(m, _ => PushLit(1)) + [PushSlot(d), ForceTop] + seq(rets, _ => Ret)
  }

  lemma {:induction false} TailThere(u: seq<Instr>, d: nat, m: nat, rets: nat)
    requires rets > 0
    ensures var code := u + Tail(d, m, rets);
            && |code| == |u| + m + 4 + rets && HasTail(code, |u|, d, m) && code[..|u|] == u
            && code[|u|..] == Tail(d, m, rets)
            && forall k :: 0 <= k < |u| ==> code[k] == u[k]
  {
  }

  lemma {:induction false} TailPlain(code: seq<Instr>, x: nat, d: nat, m: nat, k: nat, vars: nat)
    requires HasTail(code, x, d, m) && x <= k < |code|
    ensures Targets(code[k]) == [] && ArgsChecked(code[k]) && !code[k].Entry? && SaneInstr(code[k], vars)
  {
  }

  /** The facts about `u`, nothing about what follows, and marks where `u` jumps. */
  ghost function Widened(ctx: Context, u: seq<Instr>, more: nat): (r: Context)
    requires |u| <= |ctx.ready| && |u| <= |ctx.target|
    ensures |r.ready| == |r.target| == |u| + more
  {
    ctx.(ready := ctx.ready[..|u|] + seq(more, _ => Unknown),
         target := ctx.target[..|u|] + seq(more, k => k >= 0 && IsTarget(u, |u| + k)), entry := |u|)
  }

  lemma {:induction false} WidenedDecodable(ctx: Context, u: seq<Instr>, d: nat, m: nat)
    requires Prefix(ctx, u)
    ensures var v := Tail(d, m, 1 + Furthest(u));
            Decodable(Widened(ctx, u, |v|), u + v) && Sane(u + v, ctx.vars)
  {
    hide Furthest, Tail, Sane, SaneInstr, ArgsChecked, HasTail, Solved, Readiness.Proper, Widened, Inward;
    var v := Tail(d, m, 1 + Furthest(u));
    WidenedEntry(ctx, u, |v|);
    var ctx1, code, x := Widened(ctx, u, |v|), u + v, |u|;
    TailThere(u, d, m, 1 + Furthest(u));
    forall pc: nat | pc < |code| ensures InstrDecoded(ctx1, code, pc) && SaneInstr(code[pc], ctx.vars) {
      if pc < x {
        WidenedJumps(ctx, u, |v|, pc);
        SaneAt(u, ctx.vars, pc);
      } else {
        TailPlain(code, x, d, m, pc, ctx.vars);
      }
    }
    SaneAll(code, ctx.vars);
    TailEnds(code, x, d, m);
  }

  lemma WidenedEntry(ctx: Context, u: seq<Instr>, more: nat)
    requires |u| <= |ctx.ready| && |u| <= |ctx.target|
    ensures Widened(ctx, u, more).entry == |u| && Widened(ctx, u, more).vars == ctx.vars
  {
  }

  /** Jumps within `u` land on its marks, and those beyond on the new ones. */
  lemma {:induction false} WidenedJumps(ctx: Context, u: seq<Instr>, more: nat, pc: nat)
    requires pc < |u| <= |ctx.ready| && |u| <= |ctx.target| && Inward(ctx, u, pc) && Furthest(u) < |u| + more
    ensures Jumps(Widened(ctx, u, more), u[pc], |u| + more)
  {
    hide Furthest;
    var ctx1, ts := Widened(ctx, u, more), Targets(u[pc]);
    forall k | 0 <= k < |ts| ensures ts[k] < |u| + more && ctx1.target[ts[k]] {
      FurthestBounds(u, pc, k);
      if ts[k] >= |u| {
        assert ts[k] in Targets(u[pc]);
        assert IsTarget(u, |u| + (ts[k] - |u|));
      }
    }
  }

  lemma SaneAt(code: seq<Instr>, vars: nat, pc: nat)
    requires Sane(code, vars) && pc < |code|
    ensures SaneInstr(code[pc], vars)
  {
  }

  lemma SaneAll(code: seq<Instr>, vars: nat)
    requires forall pc: nat :: pc < |code| ==> SaneInstr(code[pc], vars)
    ensures Sane(code, vars)
  {
  }

  lemma TailEnds(code: seq<Instr>, x: nat, d: nat, m: nat)
    requires HasTail(code, x, d, m)
    ensures code != [] && code[|code| - 1].Ret?
  {
  }

  /** Flows look at their own instruction only. */
  lemma FlowsSame(p: Readiness.Program, q: Readiness.Program, pc: nat, s: Ready)
    requires pc < |p.ops| && pc < |q.ops| && p.ops[pc] == q.ops[pc] && p.literal == q.literal
    requires Readiness.Proper(s) && !s.Unseen?
    ensures Readiness.Flows(p, pc, s) == Readiness.Flows(q, pc, s)
  {
    hide Readiness.Push, Readiness.Pop, Readiness.Get;
  }

  /** From an unknown state only unknown states flow, and nothing underflows. */
  lemma UnknownFlows(p: Readiness.Program, pc: nat)
    requires pc < |p.ops| && Targets(p.ops[pc]) == []
    ensures var fs := Readiness.Flows(p, pc, Unknown);
            fs.Some? && forall k :: 0 <= k < |fs.value| ==> fs.value[k].target == pc + 1 && fs.value[k].state == Unknown
  {
  }

  lemma {:induction false} WidenedSettled(ctx: Context, u: seq<Instr>, d: nat, m: nat, pc: nat)
    requires Prefix(ctx, u) && pc < |u| + m + 5 + Furthest(u)
    ensures var v := Tail(d, m, 1 + Furthest(u));
            var ctx1 := Widened(ctx, u, |v|);
            && |v| == m + 5 + Furthest(u) && Readiness.ProperAll(ctx1.ready)
            && Readiness.Settled(ProgramOf(ctx1, u + v), ctx1.ready, pc)
  {
    hide Furthest, Tail, Sane, ArgsChecked, HasTail, Readiness.Flows, Readiness.Proper, Inward, IsTarget;
    var v := Tail(d, m, 1 + Furthest(u));
    var ctx1, code, x := Widened(ctx, u, |v|), u + v, |u|;
    var p := ProgramOf(ctx1, code);
    TailThere(u, d, m, 1 + Furthest(u));
    WidenedProper(ctx, u, |v|);
    if pc < x {
      if !ctx.ready[pc].Unseen? {
        assert Solved(ctx, u, pc);
        FlowsSame(ProgramOf(ctx, u), p, pc, ctx.ready[pc]);
        var fs := Readiness.Flows(p, pc, ctx1.ready[pc]).value;
        forall k | 0 <= k < |fs| ensures Readiness.Meets(ctx1.ready, fs[k]) {
        }
      }
    } else {
      TailPlain(code, x, d, m, pc, 0);
      UnknownFlows(p, pc);
    }
  }

  lemma {:induction false} WidenedProper(ctx: Context, u: seq<Instr>, more: nat)
    requires Prefix(ctx, u)
    ensures Readiness.ProperAll(Widened(ctx, u, more).ready)
  {
    hide Furthest, Sane, ArgsChecked, Inward, Solved, Readiness.Accounts;
    var ready := Widened(ctx, u, more).ready;
    forall k | 0 <= k < |ready| ensures Readiness.Proper(ready[k]) {
      if k < |u| {
        assert ready[k] == ctx.ready[k];
      }
    }
  }

  lemma {:induction false} WidenedAnalysed(ctx: Context, u: seq<Instr>, d: nat, m: nat)
    requires Prefix(ctx, u)
    ensures var v := Tail(d, m, 1 + Furthest(u)); Analysed(Widened(ctx, u, |v|), u + v)
  {
    hide Furthest, Tail, Sane, ArgsChecked, Inward, Solved, Readiness.Settled, Readiness.Proper, IsTarget;
    var v := Tail(d, m, 1 + Furthest(u));
    var ctx1, code := Widened(ctx, u, |v|), u + v;
    var p := ProgramOf(ctx1, code);
    forall pc | 0 <= pc < |code|
      ensures Readiness.ProperAll(ctx1.ready) && Readiness.Settled(p, ctx1.ready, pc)
    {
      WidenedSettled(ctx, u, d, m, pc);
    }
    WidenedProper(ctx, u, |v|);
    var es := Readiness.Entries(p);
    forall i | 0 <= i < |es| ensures Readiness.Meets(ctx1.ready, es[i]) {
    }
    assert Readiness.Solution(p, ctx1.ready);
    assert Feeds(p, ctx1, code);
  }

  /** An activation to tell the two apart with: one cell, an empty budget. */
  function Probe(vars: nat): (s: Start) {
    Start([], seq(vars, _ => Old(0)), _ => Old(0), World(map[Old(0) := Value(0, [])], 1, [], 0))
  }

  lemma ProbeFits(ctx: Context, leads: seq<bool>, b: nat)
    requires |leads| == |ctx.ready| && b < |leads| && (ctx.ready[b].Shape? ==> ctx.ready[b].depth == 0)
    ensures Fits(ctx, leads, Probe(ctx.vars), b)
  {
  }

  lemma ProbeSound(vars: nat)
    ensures var s := Probe(vars); Sound(s) && s.stack == [] && IsValue(s.w.heap, s.lits(1))
  {
  }

  lemma RestWalk(ctx: Context, u: seq<Instr>)
    requires |u| <= |ctx.ready| && |u| <= |ctx.target| && !AtRest(ctx, u, |u|)
    ensures WalkTo(ctx, u, |u|).live && |WalkTo(ctx, u, |u|).slots| > 0
  {
  }

  /** The block from the entry is the tail up to its first return. */
  lemma {:induction false} TailBlock(ctx1: Context, code: seq<Instr>, d: nat, m: nat)
    requires HasEntry(ctx1, code) && HasTail(code, ctx1.entry, d, m) && Unled(ctx1, code, ctx1.entry, m)
    ensures WholeBlock(EntryLeaders(ctx1, code), ctx1.entry, ctx1.entry + m + 5)
  {
    hide Unled;
    var x, leads := ctx1.entry, EntryLeaders(ctx1, code);
    forall k | x < k < x + m + 5 ensures !leads[k] {
      UnledAt(ctx1, code, x, d, m, k);
    }
    if x + m + 5 < |code| {
      assert code[x + m + 4] == Ret;
    }
  }

  /** Where the tail follows carried slots, an activation from the entry tells;
      with the literals, one that does not fault. */
  lemma {:induction false} EntryTold(ctx1: Context, code: seq<Instr>, d: nat, m: nat)
    requires HasEntry(ctx1, code) && HasTail(code, ctx1.entry, d, m) && Unled(ctx1, code, ctx1.entry, m)
    requires var w := WalkTo(ctx1, code, ctx1.entry); w.live && |w.slots| == d && d + m + 2 <= READY_SLOTS
    requires 0 < d && (m == 0 || m == d)
    ensures !EntryPreserves(ctx1, code, Rewrite(ctx1, code)) && (m == d ==> ToldSilently(ctx1, code))
  {
    hide WalkTo, Fits, Exec, Same, Probe, Rewrite, HasTail, Unled, WholeBlock, Sound, IsValue;
    var x, e := ctx1.entry, ctx1.entry + m + 5;
    TailConverted(ctx1, code, x, d, m);
    TailSizes(code, x, d, m);
    var code1, act := Rewrite(ctx1, code), (c, seen) => Throw(0);
    var p, s, leads := Program(act, ctx1.strict), Probe(ctx1.vars), EntryLeaders(ctx1, code);
    ProbeFits(WithEntry(ctx1), leads, x);
    ProbeSound(ctx1.vars);
    ExecLocal(p, s, code[x + 1 := CallKnown(1, 0)], code1, x, e);
    if m == 0 {
      TailFaults(p, s, code, x, d);
    } else {
      TailSilent(p, s, code, x, d, m);
    }
    TailBlock(ctx1, code, d, m);
    assert !SameFrom(WithEntry(ctx1), leads, code, code1, act, s, x, e);
    assert m == d ==> ToldBy(ctx1, code, act, s, e);
  }

  lemma TailSizes(code: seq<Instr>, x: nat, d: nat, m: nat)
    requires HasTail(code, x, d, m)
    ensures x + m + 5 <= |code|
  {
  }

  /** Slots carried into the entry: a decodable continuation, with facts that solve
      its flow equations, changes its meaning. */
  lemma {:induction false} EntryExposed(ctx: Context, u: seq<Instr>, m: nat) returns (ctx1: Context, v: seq<Instr>)
    requires Prefix(ctx, u) && !AtRest(ctx, u, |u|) && RoomFor(ctx, u, m)
    requires m == 0 || m == |WalkTo(ctx, u, |u|).slots|
    ensures Continues(ctx, u, ctx1, v) && !EntryPreserves(ctx1, u + v, Rewrite(ctx1, u + v))
    ensures m > 0 ==> ToldSilently(ctx1, u + v)
  {
    hide WalkTo, EntryPreserves, Tail, Rewrite, AtRest, Sane, Furthest, Decodable, Analysed, HasTail,
        ToldSilently, Solved;
    var x, d := |u|, |WalkTo(ctx, u, |u|).slots|;
    v := Tail(d, m, 1 + Furthest(u));
    ctx1 := Widened(ctx, u, |v|);
    var code := u + v;
    TailThere(u, d, m, 1 + Furthest(u));
    WidenedDecodable(ctx, u, d, m);
    WidenedAnalysed(ctx, u, d, m);
    assert ctx1.ready[..x] == ctx.ready[..x] && ctx1.target[..x] == ctx.target[..x];
    assert Unled(ctx1, code, x, m) by {
      forall k | x <= k < x + m + 5 ensures !ctx1.target[k] {
        assert !IsTarget(u, k) && k == x + (k - x);
      }
    }
    assert Continues(ctx, u, ctx1, v);
    PrefixWalk(ctx, u, ctx1, v);
    RestWalk(ctx, u);
    EntryTold(ctx1, code, d, m);
  }

  /** The exact condition, checked on what precedes the entry: the pass preserves
      activations from it, whatever decodable code follows, if and only if no slot
      is carried in. Where the literals fit too, an activation tells without a fault. */
  lemma {:induction false} EntryExact(ctx: Context, u: seq<Instr>)
    requires Prefix(ctx, u)
    ensures AtRest(ctx, u, |u|) ==> forall ctx1, v :: ContinuesSafely(ctx, u, ctx1, v)
    ensures RoomFor(ctx, u, 0) ==> (AtRest(ctx, u, |u|) <==> forall ctx1, v :: ContinuesSafely(ctx, u, ctx1, v))
    ensures RoomFor(ctx, u, |WalkTo(ctx, u, |u|).slots|) && !AtRest(ctx, u, |u|) ==>
              exists ctx1, v :: Continues(ctx, u, ctx1, v) && ToldSilently(ctx1, u + v)
  {
    hide WalkTo, EntryPreserves, Rewrite, Sane, RoomFor, Decodable, Analysed, ToldSilently, Solved;
    if AtRest(ctx, u, |u|) {
      forall ctx1, v ensures ContinuesSafely(ctx, u, ctx1, v) {
        if Continues(ctx, u, ctx1, v) {
          PrefixWalk(ctx, u, ctx1, v);
          assert (u + v)[|u| - 1] == u[|u| - 1];
          EntryPreserved(ctx1, u + v);
        }
      }
    } else {
      RestWalk(ctx, u);
      if RoomFor(ctx, u, 0) {
        var ctx1, v := EntryExposed(ctx, u, 0);
        assert !ContinuesSafely(ctx, u, ctx1, v);
      }
      if RoomFor(ctx, u, |WalkTo(ctx, u, |u|).slots|) {
        var ctx1, v := EntryExposed(ctx, u, |WalkTo(ctx, u, |u|).slots|);
      }
    }
  }

  // ------------------------------------------------- what the readiness facts say of it

  /** Falling through, a known depth comes from a known depth. */
  lemma {:induction false} FlowNext(p: Readiness.Program, pc: nat, s: Ready) returns (k: nat)
    requires pc < |p.ops| && Readiness.Proper(s) && !s.Unseen? && !Ends(p.ops[pc]) && Readiness.Flows(p, pc, s).Some?
    ensures var fs := Readiness.Flows(p, pc, s).value;
            && k < |fs| && fs[k].target == pc + 1
            && (fs[k].state.Shape? ==> s.Shape? && fs[k].state.depth == s.depth - Takes(p.ops[pc]) + Pushes(p.ops[pc]))
  {
    k := if p.ops[pc].CallBlock? then 1 else 0;
  }

  /** Inside a block the readiness facts know the walk's depth, or nothing. */
  ghost predicate DepthKnown(ctx: Context, n: nat, slots: seq<Slot>)
    requires n < |ctx.ready|
  {
    !ctx.ready[n].Unseen? && (ctx.ready[n].Shape? ==> ctx.ready[n].depth == |slots|)
  }

  lemma {:induction false} DepthFlows(ctx: Context, p: Readiness.Program, n: nat, w: Walk)
    requires Readiness.Solution(p, ctx.ready) && n + 1 < |ctx.ready| && n < |w.code| && w.code[n] == p.ops[n]
             && !Ends(p.ops[n])
    requires Tracked(w.slots, n) && w.live && DepthKnown(ctx, n, w.slots) && Advance(ctx, n, w).live
    ensures DepthKnown(ctx, n + 1, Advance(ctx, n, w).slots)
  {
    hide Consumed, TopSlot, Takes, Pushes, Readiness.Flows, Ends;
    assert Readiness.Settled(p, ctx.ready, n);
    var k := FlowNext(p, n, ctx.ready[n]);
    var f := Readiness.Flows(p, n, ctx.ready[n]).value[k];
    assert Readiness.Meets(ctx.ready, f);
    assert |Advance(ctx, n, w).slots| == |w.slots| - Takes(p.ops[n]) + Pushes(p.ops[n]);
  }

  lemma {:induction false} WalkDepth(ctx: Context, p: Readiness.Program, n: nat)
    requires Readiness.Solution(p, ctx.ready) && |p.ops| == |ctx.ready| == |ctx.target| && 0 < n < |ctx.ready|
    requires !Ends(p.ops[n - 1]) && WalkTo(ctx, p.ops, n).live
    ensures DepthKnown(ctx, n, WalkTo(ctx, p.ops, n).slots)
    decreases n
  {
    hide Readiness.Solution, Advance, Ends;
    var w := WalkTo(ctx, p.ops, n - 1);
    var v := Begin(ctx, n - 1, w);
    assert v.code[n - 1] == p.ops[n - 1];
    assert v.live by { OnlyLive(ctx, n - 1, v); }
    if !(w.begins || ctx.target[n - 1]) {
      WalkDepth(ctx, p, n - 1);
    }
    DepthFlows(ctx, p, n - 1, v);
  }

  lemma OnlyLive(ctx: Context, n: nat, w: Walk)
    requires n < |ctx.ready| && n < |w.code| && Tracked(w.slots, n) && Advance(ctx, n, w).live
    ensures w.live
  {
    hide Consumed, TopSlot;
  }

  /** With the analysis that feeds the pass, the entry is safe whenever the analysis
      kept a shape there, and where it is not the analysis has given the state up. */
  lemma {:induction false} EntryShape(ctx: Context, p: Readiness.Program)
    requires Readiness.Solution(p, ctx.ready) && HasEntry(ctx, p.ops) && p.entry == ctx.entry
    ensures ctx.ready[ctx.entry].Shape? ==> EntrySafe(ctx, p.ops)
    ensures !EntrySafe(ctx, p.ops) ==> ctx.ready[ctx.entry] == Unknown
  {
    hide WalkTo, Readiness.Settled, Readiness.Flows;
    var x, es := ctx.entry, Readiness.Entries(p);
    assert es[1] == Readiness.Flow(x, Shape(0, {}, Readiness.StrictVars(p)));
    assert Readiness.Meets(ctx.ready, es[1]);
    if ctx.ready[x].Shape? && !Leads(ctx, p.ops, x) && WalkTo(ctx, p.ops, x).live {
      WalkDepth(ctx, p, x);
    }
  }

  /** Control flows on, or to a target of the instruction. */
  lemma FlowTargets(p: Readiness.Program, pc: nat, s: Ready, k: nat)
    requires pc < |p.ops| && Readiness.Proper(s) && !s.Unseen? && Readiness.Flows(p, pc, s).Some?
    requires k < |Readiness.Flows(p, pc, s).value|
    ensures var t := Readiness.Flows(p, pc, s).value[k].target; t == pc + 1 || t in Targets(p.ops[pc])
  {
    hide Readiness.Push, Readiness.Pop, Readiness.Get;
  }

  lemma UnknownNeverUnderflows(p: Readiness.Program, pc: nat)
    requires pc < |p.ops|
    ensures Readiness.Flows(p, pc, Unknown).Some?
  {
  }

  /** Only what is outside flows to the first instruction. */
  ghost predicate FreshStart(p: Readiness.Program) {
    && |p.ops| > 0 && Readiness.Flows(p, 0, Shape(0, {}, {})).Some?
    && (forall k :: 0 <= k < |p.laws| ==> p.laws[k].target != 0)
    && forall pc :: 0 <= pc < |p.ops| ==> 0 !in Targets(p.ops[pc])
  }

  /** The facts the analysis ends with then know the empty stack there, as the two
      failing inputs above ask. */
  lemma {:induction false} StartShape(p: Readiness.Program, states: seq<Ready>)
    requires FreshStart(p) && Readiness.Solution(p, states) && Readiness.Strongest(p, states)
    ensures states[0].Shape? && states[0].depth == 0
  {
    hide Readiness.Flows;
    var x := [Shape(0, {}, {})] + seq(|p.ops| - 1, _ => Unknown);
    var es := Readiness.Entries(p);
    forall i | 0 <= i < |es| ensures Readiness.Meets(x, es[i]) {
    }
    forall pc | 0 <= pc < |x| ensures Readiness.Settled(p, x, pc) {
      UnknownNeverUnderflows(p, pc);
      var fs := Readiness.Flows(p, pc, x[pc]).value;
      forall k | 0 <= k < |fs| ensures Readiness.Meets(x, fs[k]) {
        FlowTargets(p, pc, x[pc], k);
      }
    }
    assert Readiness.Solution(p, x);
    assert Readiness.Weaker(x, states);
    assert es[0] == Readiness.Flow(0, Shape(0, {}, {})) && Readiness.Meets(states, es[0]);
  }

  /** Both failing inputs start that way. */
  lemma InputsStartFresh(p: Readiness.Program, n: nat)
    requires (p.ops == Faulty(n) || p.ops == REORDERED) && p.laws == []
    ensures FreshStart(p)
  {
  }
}
