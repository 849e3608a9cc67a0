/**
  The optimiser's loop (pkg/plan/src/bytecode.c:759-782): analysis and eager pass, round
  after round. Whole activations are proved to do the same before and after any number
  of rounds, from every way into the code.
 */
module EagerRounds {
  import opened Thunks
  import opened Bytecode
  import opened EagerBlocks
  import opened EagerPass
  import opened EagerWalk
  import opened EagerEntry
  import opened EagerGiven
  import opened EagerRuns
  import opened EagerCover
  import Readiness
  import RR = ReadinessRuns

  /** What one round is given: decoded, sane code and facts that solve its equations. */
  ghost predicate Given(ctx: Context, q: Readiness.Program) {
    && Feeds(q, ctx, q.ops) && |ctx.ready| == |q.ops| && Readiness.Solution(q, ctx.ready)
    && Decodable(ctx, q.ops) && Sane(q.ops, ctx.vars)
    && forall k :: 0 <= k < |q.laws| ==> q.laws[k].target < |ctx.target| && ctx.target[q.laws[k].target]
  }

  /** An activation of this code. */
  ghost predicate Suits(ctx: Context, e: Setting) {
    ctx.vars <= |e.vars| && e.p.strict == ctx.strict
  }

  /** The facts describe the place, and literals known to be values are. */
  ghost predicate Described(ctx: Context, e: Setting, c: Conf) {
    && Good(e, c)
    && (c.In? ==> c.pc < |ctx.ready| && RR.FrameOk(ctx.ready, FrameOf(c.pc, c.stack, e.vars, c.w))
                  && LitsOk(ctx.literal, e.lits, c.w))
  }

  ghost predicate Leading(ctx: Context, code: seq<Instr>, c: Conf) {
    c.In? ==> c.pc < |code| && c.pc < |ctx.target| && Leads(ctx, code, c.pc)
  }

  lemma GivenDecoded(ctx: Context, q: Readiness.Program)
    requires Given(ctx, q)
    ensures RR.Decoded(q) && |q.ops| == |ctx.ready| == |ctx.target|
  {
    DecodableDecoded(q, ctx);
  }

  // ------------------------------------------------------------------ facts and starts

  lemma {:induction false} NoEnds(ctx: Context, code: seq<Instr>, b: nat, r: nat)
    requires |code| == |ctx.target| && b < r <= |code| && forall k :: b < k < r ==> !Leaders(ctx, code)[k]
    ensures forall k :: b <= k < r - 1 ==> !Ends(code[k])
  {
    forall k | b <= k < r - 1 ensures !Ends(code[k]) {
      assert !Leaders(ctx, code)[k + 1];
    }
  }

  /** Known variables of the block are values where it begins. */
  lemma {:induction false} VarsKnown(ctx: Context, q: Readiness.Program, e: Setting, c: Conf, pc: nat, v: nat)
    requires Given(ctx, q) && Described(ctx, e, c) && c.In? && c.pc <= pc < |q.ops| && v in VarsAt(ctx.ready[pc])
             && v < |e.vars|
    requires forall k :: c.pc <= k < pc ==> !Ends(q.ops[k])
    ensures IsValue(c.w.heap, e.vars[v])
  {
    hide Readiness.Solution, Decodable, Sane, Good;
    VarsFall(q, ctx.ready, c.pc, pc);
    assert v in VarsAt(ctx.ready[c.pc]);
    assert Bools(c.w.heap, e.vars)[v];
  }

  lemma {:induction false} DescribedFits(ctx: Context, q: Readiness.Program, e: Setting, c: Conf)
    requires Given(ctx, q) && Suits(ctx, e) && Described(ctx, e, c) && c.In? && Leading(ctx, q.ops, c)
    ensures |q.ops| == |ctx.target| && Fits(ctx, Leaders(ctx, q.ops), StartOf(e, c), c.pc)
  {
    hide Readiness.Solution, Sane, Sound;
    var leads, s := Leaders(ctx, q.ops), StartOf(e, c);
    forall pc, v | 0 <= pc < |leads| && SameBlock(leads, c.pc, pc) && v in VarsAt(ctx.ready[pc]) && v < |s.env|
      ensures IsValue(s.w.heap, s.env[v])
    {
      NoEnds(ctx, q.ops, c.pc, pc + 1);
      VarsKnown(ctx, q, e, c, pc, v);
    }
    if ctx.ready[c.pc].Shape? {
      forall k | k in ctx.ready[c.pc].slots && k < |s.stack| ensures IsValue(s.w.heap, s.stack[k]) {
        assert Bools(c.w.heap, c.stack)[k];
      }
    }
  }

  // -------------------------------------------------------------- from block to block

  /** Ageing changes no cell's kind. */
  lemma {:induction false} AgedFrame(e: Setting, states: seq<Ready>, pc: nat, stack: seq<Name>, w: World, size: nat)
    requires Closed(w) && AllIn(w.heap, stack) && AllIn(w.heap, e.vars)
             && (forall i :: 0 <= i < |e.vars| ==> e.vars[i].Old?)
    requires RR.FrameOk(states, FrameOf(pc, stack, e.vars, w))
    ensures RR.FrameOk(states, FrameOf(pc, RenameAll(stack, w.next), e.vars, Aged(w, size)))
  {
    hide Closed, Aged, RR.Covers, IsValue;
    var h := Aged(w, size).heap;
    assert Bools(h, RenameAll(stack, w.next)) == Bools(w.heap, stack) by {
      forall i | 0 <= i < |stack| ensures IsValue(h, RenameAll(stack, w.next)[i]) == IsValue(w.heap, stack[i]) {
        AgedValue(w, size, stack[i]);
      }
    }
    assert Bools(h, e.vars) == Bools(w.heap, e.vars) by {
      forall i | 0 <= i < |e.vars| ensures IsValue(h, e.vars[i]) == IsValue(w.heap, e.vars[i]) {
        AgedValue(w, size, e.vars[i]);
      }
    }
  }

  lemma {:induction false} AgedLits(e: Setting, literal: nat -> bool, w: World, size: nat)
    requires Closed(w) && (forall l :: e.lits(l) in w.heap && e.lits(l).Old?) && LitsOk(literal, e.lits, w)
    ensures LitsOk(literal, e.lits, Aged(w, size))
  {
    hide Closed, Aged, IsValue;
    forall l | literal(l) ensures IsValue(Aged(w, size).heap, e.lits(l)) {
      AgedValue(w, size, e.lits(l));
    }
  }

  /** A jump keeps the facts. */
  lemma {:induction false} OntoCovered(q: Readiness.Program, states: seq<Ready>, e: Setting, r: nat, stack: seq<Name>,
                                       w: World)
    requires Readiness.Solution(q, states) && RR.Decoded(q) && 0 < r <= |q.ops| && Ends(q.ops[r - 1])
    requires RR.FrameOk(states, FrameOf(r - 1, stack, e.vars, w))
    ensures var c := Onto(e, q.ops, r, stack, w);
            c.Some? ==>
                c.value.0 in Targets(q.ops[r - 1]) && RR.FrameOk(states, FrameOf(c.value.0, c.value.1, e.vars, w))
  {
    hide Readiness.Solution, RR.Decoded, RR.Covers;
    var f, c := FrameOf(r - 1, stack, e.vars, w), Onto(e, q.ops, r, stack, w);
    if c.Some? {
      match q.ops[r - 1]
      case Jmp(t) => RR.JumpOk(q, states, f, false); assert RR.FrameOk(states, RR.After(q, f, false)[0]);
      case TailBlk(t, n) =>
        RR.JumpOk(q, states, f, false);
        assert RR.FrameOk(states, RR.After(q, f, false)[0]);
        assert RR.Top(f, n) == Bools(w.heap, c.value.1);
      case Br(ts) =>
        var k := e.pick(w.heap[stack[|stack| - 1]], |ts|).value;
        RR.ArmOk(q, states, f, k);
        assert RR.Popped(f, 1) == Bools(w.heap, c.value.1);
    }
  }

  /** The state behind the block's last instruction, and where it goes. */
  lemma {:induction false} BlockOnto(ctx: Context, q: Readiness.Program, e: Setting, c: Conf, r: nat)
    requires Given(ctx, q) && Described(ctx, e, c) && c.In? && c.pc < r <= |q.ops| == |ctx.target|
    requires (forall k :: c.pc < k < r ==> !Leaders(ctx, q.ops)[k]) && (r == |q.ops| || Leaders(ctx, q.ops)[r])
    ensures var x := Exec(e.p, StartOf(e, c), q.ops, c.pc, r);
            x.At? ==>
              && LitsOk(ctx.literal, e.lits, x.w)
              && var o := Onto(e, q.ops, r, x.stack, x.w);
                 o.Some? ==>
                     Leads(ctx, q.ops, o.value.0) && RR.FrameOk(ctx.ready, FrameOf(o.value.0, o.value.1, e.vars, x.w))
  {
    hide Readiness.Solution, RR.Decoded, Sane, Step, Sound, LitsOk, RR.FrameOk, Decodable;
    GivenDecoded(ctx, q);
    NoEnds(ctx, q.ops, c.pc, r);
    var s := StartOf(e, c);
    BlockCovered(q, ctx.ready, e.p, s, c.pc, r - 1);
    ExecInside(e.p, s, q.ops, c.pc, r - 1);
    var y := Exec(e.p, s, q.ops, c.pc, r - 1);
    if y.At? && Exec(e.p, s, q.ops, c.pc, r).At? {
      if Ends(q.ops[r - 1]) {
        EndStays(e.p, s, q.ops[r - 1], r - 1, y.stack, y.w);
        OntoCovered(q, ctx.ready, e, r, y.stack, y.w);
        assert Decodable(ctx, q.ops) && InstrDecoded(ctx, q.ops, r - 1) by { DecodedAt(ctx, q.ops, r - 1); }
      } else {
        StepCovered(q, ctx.ready, e.p, s, r - 1, y.stack, y.w);
      }
    }
  }

  lemma DecodedAt(ctx: Context, code: seq<Instr>, pc: nat)
    requires Decodable(ctx, code) && pc < |code|
    ensures InstrDecoded(ctx, code, pc)
  {
  }

  lemma EndStays(p: Program, s: Start, i: Instr, pc: nat, stack: seq<Name>, w: World)
    requires Ends(i)
    ensures var r := Step(p, s, i, pc, stack, w); r.At? ==> r == At(stack, w)
  {
    hide Call, Force;
  }

  /** Main step: wherever a block leads, the facts describe it. */
  lemma {:induction false} ProceedDescribed(ctx: Context, q: Readiness.Program, e: Setting, c: Conf)
    requires Given(ctx, q) && Described(ctx, e, c) && |q.ops| == |ctx.target|
    ensures var d := Proceed(e, q.ops, Leaders(ctx, q.ops), c); Described(ctx, e, d) && Leading(ctx, q.ops, d)
  {
    hide Readiness.Solution, Sane, Exec, Sound, LitsOk, RR.FrameOk, Decodable, Leads, Aged, RenameAll, Onto;
    if c.In? {
      var leads := Leaders(ctx, q.ops);
      var r := BlockEnd(leads, c.pc);
      BlockOnto(ctx, q, e, c, r);
      var x := Exec(e.p, StartOf(e, c), q.ops, c.pc, r);
      ExecInside(e.p, StartOf(e, c), q.ops, c.pc, r);
      if x.At? && Onto(e, q.ops, r, x.stack, x.w).Some? {
        var (pc, stack) := Onto(e, q.ops, r, x.stack, x.w).value;
        KeptIn(e, StartOf(e, c), x.stack, x.w, r, stack);
        AgedFrame(e, ctx.ready, pc, stack, x.w, |q.ops|);
        AgedLits(e, ctx.literal, x.w, |q.ops|);
      }
    }
  }

  lemma {:induction false} KeptIn(e: Setting, s: Start, stack: seq<Name>, w: World, r: nat, kept: seq<Name>)
    requires Sound(s) && Inside(s, stack, w, r) && s.env == e.vars && s.lits == e.lits
    requires forall k :: 0 <= k < |kept| ==> kept[k] in stack
    ensures Closed(w) && AllIn(w.heap, kept) && AllIn(w.heap, e.vars)
            && (forall i :: 0 <= i < |e.vars| ==> e.vars[i].Old?)
    ensures forall l :: e.lits(l) in w.heap && e.lits(l).Old?
  {
    hide Closed;
  }

  // ----------------------------------------------------------------------- one round

  /** A block from a leader does the same in the rewritten code. */
  lemma {:induction false} LeaderTwin(ctx: Context, q: Readiness.Program, e: Setting, c: Conf)
    requires Given(ctx, q) && Suits(ctx, e) && Described(ctx, e, c) && Leading(ctx, q.ops, c) && |q.ops| == |ctx.target|
    ensures var leads := Leaders(ctx, q.ops);
            Twin(Proceed(e, q.ops, leads, c), Proceed(e, Rewrite(ctx, q.ops), leads, c))
  {
    hide Readiness.Solution, Sane, Exec, Same, Decodable, Good, Fits, Described, Proceed, Rewrite, RR.FrameOk;
    if c.Stop? {
      StopTwin(e, q.ops, Rewrite(ctx, q.ops), Leaders(ctx, q.ops), c);
    } else {
      var leads, code1 := Leaders(ctx, q.ops), Rewrite(ctx, q.ops);
      var r := BlockEnd(leads, c.pc);
      DescribedFits(ctx, q, e, c) by { assert Described(ctx, e, c); }
      RewritePreserves(ctx, q.ops);
      assert WholeBlock(leads, c.pc, r);
      assert SameFrom(ctx, leads, q.ops, code1, e.p.act, StartOf(e, c), c.pc, r);
      assert e.p == Program(e.p.act, ctx.strict);
      LastKept(q.ops, code1, r);
      GoodOf(ctx, e, c);
      ProceedTwin(e, q.ops, code1, leads, c);
    }
  }

  lemma StopTwin(e: Setting, code: seq<Instr>, code1: seq<Instr>, leads: seq<bool>, c: Conf)
    requires c.Stop? && |leads| == |code| == |code1|
    ensures Good(e, c) && Twin(Proceed(e, code, leads, c), Proceed(e, code1, leads, c))
  {
    SameRefl(c.s);
  }

  lemma GoodOf(ctx: Context, e: Setting, c: Conf)
    requires Described(ctx, e, c)
    ensures Good(e, c)
  {
  }

  lemma LastKept(code: seq<Instr>, code1: seq<Instr>, r: nat)
    requires OnlyConverted(code, code1, |code|) && 0 < r <= |code|
    ensures |code| == |code1|
    ensures code1[r - 1] == code[r - 1] || (!Ends(code[r - 1]) && !Ends(code1[r - 1]))
  {
  }

  /** Blocks from a leader on, as many as there are. */
  lemma {:induction false} LeaderRuns(ctx: Context, q: Readiness.Program, e: Setting, c: Conf, n: nat)
    requires Given(ctx, q) && Suits(ctx, e) && Described(ctx, e, c) && Leading(ctx, q.ops, c) && |q.ops| == |ctx.target|
    ensures var leads := Leaders(ctx, q.ops);
            && Good(e, c) && Described(ctx, e, Steps(e, q.ops, leads, c, n))
            && Leading(ctx, q.ops, Steps(e, q.ops, leads, c, n))
            && Twin(Steps(e, q.ops, leads, c, n), Steps(e, Rewrite(ctx, q.ops), leads, c, n))
    decreases n
  {
    hide Given, Described, Leading, Proceed, Rewrite, Same, Good;
    GivenDecoded(ctx, q);
    GoodOf(ctx, e, c);
    var leads, code1 := Leaders(ctx, q.ops), Rewrite(ctx, q.ops);
    if n == 0 {
      TwinRefl(c);
    } else {
      LeaderRuns(ctx, q, e, c, n - 1);
      var x, y := Steps(e, q.ops, leads, c, n - 1), Steps(e, code1, leads, c, n - 1);
      ProceedDescribed(ctx, q, e, x);
      LeaderTwin(ctx, q, e, x);
      if x.Stop? {
        Halted(e, q.ops, leads, x);
        Halted(e, code1, leads, y);
      }
    }
  }

  lemma Halted(e: Setting, code: seq<Instr>, leads: seq<bool>, c: Conf)
    requires c.Stop? && |leads| == |code|
    ensures Good(e, c) && Proceed(e, code, leads, c) == c
  {
  }

  // ------------------------------------------------------------- from the strict entry

  lemma {:induction false} EntryFits(ctx: Context, q: Readiness.Program, e: Setting, c: Conf)
    requires Given(ctx, q) && Suits(ctx, e) && Described(ctx, e, c) && HasEntry(ctx, q.ops)
    requires c.In? && c.pc == ctx.entry && c.stack == []
    ensures Fits(WithEntry(ctx), EntryLeaders(ctx, q.ops), StartOf(e, c), c.pc)
  {
    hide Readiness.Solution, Sane, Sound;
    var leads, s := EntryLeaders(ctx, q.ops), StartOf(e, c);
    forall pc, v | 0 <= pc < |leads| && SameBlock(leads, c.pc, pc) && v in VarsAt(WithEntry(ctx).ready[pc])
        && v < |s.env|
      ensures IsValue(s.w.heap, s.env[v])
    {
      assert forall k :: c.pc < k <= pc ==> !Leaders(ctx, q.ops)[k] by {
        assert forall k :: c.pc < k <= pc ==> leads[k] == Leaders(ctx, q.ops)[k];
      }
      NoEnds(ctx, q.ops, c.pc, pc + 1);
      VarsKnown(ctx, q, e, c, pc, v);
    }
  }

  /** The first block from a safe strict entry, and then from leaders. */
  lemma {:induction false} EntryTwin(ctx: Context, q: Readiness.Program, e: Setting, c: Conf)
    requires Given(ctx, q) && Suits(ctx, e) && Described(ctx, e, c) && HasEntry(ctx, q.ops) && EntrySafe(ctx, q.ops)
    requires c.In? && c.pc == ctx.entry && c.stack == []
    ensures var leads := Leaders(ctx, q.ops);
            Twin(Proceed(e, q.ops, leads, c), Proceed(e, Rewrite(ctx, q.ops), leads, c))
  {
    hide Readiness.Solution, Sane, Exec, Same, Decodable, Good, Fits, Described, Proceed, Rewrite, RR.FrameOk,
        EntrySafe;
    var leads, code1 := Leaders(ctx, q.ops), Rewrite(ctx, q.ops);
    var r := BlockEnd(leads, c.pc);
    EntryFits(ctx, q, e, c) by { assert Described(ctx, e, c); }
    EntryPreserved(ctx, q.ops);
    assert WholeBlock(EntryLeaders(ctx, q.ops), c.pc, r);
    assert SameFrom(WithEntry(ctx), EntryLeaders(ctx, q.ops), q.ops, code1, e.p.act, StartOf(e, c), c.pc, r);
    assert e.p == Program(e.p.act, ctx.strict);
    LastKept(q.ops, code1, r);
    GoodOf(ctx, e, c);
    ProceedTwin(e, q.ops, code1, leads, c);
  }

  lemma {:induction false} EntryRuns(ctx: Context, q: Readiness.Program, e: Setting, c: Conf, n: nat)
    requires Given(ctx, q) && Suits(ctx, e) && Described(ctx, e, c) && HasEntry(ctx, q.ops) && EntrySafe(ctx, q.ops)
    requires c.In? && c.pc == ctx.entry && c.stack == []
    ensures var leads := Leaders(ctx, q.ops);
            Good(e, c) && Twin(Steps(e, q.ops, leads, c, n), Steps(e, Rewrite(ctx, q.ops), leads, c, n))
  {
    hide Given, Described, Leading, Proceed, Rewrite, Same, Good, EntrySafe, Steps;
    GoodOf(ctx, e, c);
    var leads, code1 := Leaders(ctx, q.ops), Rewrite(ctx, q.ops);
    if n == 0 {
      StepsNone(e, q.ops, leads, c);
      StepsNone(e, code1, leads, c);
      TwinRefl(c);
    } else {
      EntryTwin(ctx, q, e, c);
      ProceedDescribed(ctx, q, e, c);
      var x, y := Proceed(e, q.ops, leads, c), Proceed(e, code1, leads, c);
      StepsFirst(e, q.ops, leads, c, n);
      StepsFirst(e, code1, leads, c, n);
      if x.In? {
        LeaderRuns(ctx, q, e, x, n - 1);
      } else {
        StepsHalted(e, q.ops, leads, x, n - 1);
        StepsHalted(e, code1, leads, y, n - 1);
      }
    }
  }

  lemma StepsNone(e: Setting, code: seq<Instr>, leads: seq<bool>, c: Conf)
    requires |leads| == |code| && Good(e, c)
    ensures Steps(e, code, leads, c, 0) == c
  {
  }

  lemma {:induction false} StepsFirst(e: Setting, code: seq<Instr>, leads: seq<bool>, c: Conf, n: nat)
    requires |leads| == |code| && Good(e, c) && n > 0
    ensures Steps(e, code, leads, c, n) == Steps(e, code, leads, Proceed(e, code, leads, c), n - 1)
    decreases n
  {
    hide Proceed, Good;
    if n > 1 {
      StepsFirst(e, code, leads, c, n - 1);
    } else {
      StepsNone(e, code, leads, c);
    }
  }

  lemma {:induction false} StepsHalted(e: Setting, code: seq<Instr>, leads: seq<bool>, c: Conf, n: nat)
    requires |leads| == |code| && c.Stop?
    ensures Good(e, c) && Steps(e, code, leads, c, n) == c
    decreases n
  {
    hide Proceed, Good;
    Halted(e, code, leads, c);
    if n > 0 {
      StepsHalted(e, code, leads, c, n - 1);
    }
  }

  // ------------------------------------------------------------------------- ways in

  /** The ways into the code: from outside, into a law's block, at the strict entry,
      and by a call of a local block from an instruction the facts know of. */
  datatype Way = Outside | Law(k: nat) | Strict | Local(site: nat)

  ghost predicate Arrives(q: Readiness.Program, ctx: Context, e: Setting, c: Conf, way: Way) {
    && Good(e, c) && c.In? && LitsOk(q.literal, e.lits, c.w)
    && match way
       case Outside => c.pc == 0 && c.stack == []
       case Law(k) => k < |q.laws| && c.pc == q.laws[k].target && |c.stack| == q.laws[k].arity
       case Strict =>
         && 0 < q.entry == c.pc && c.stack == []
         && (forall v :: v in Readiness.StrictVars(q) ==> v < |e.vars| && IsValue(c.w.heap, e.vars[v]))
         && HasEntry(ctx, q.ops) && EntrySafe(ctx, q.ops)
       case Local(site) =>
         && site < |q.ops| && site < |ctx.ready| && q.ops[site] == CallBlock(c.pc, |c.stack|)
         && !ctx.ready[site].Unseen?
  }

  /** Every way in is described by any solution. */
  lemma {:induction false} ArrivesDescribed(ctx: Context, q: Readiness.Program, e: Setting, c: Conf, way: Way)
    requires Given(ctx, q) && Arrives(q, ctx, e, c, way)
    ensures Described(ctx, e, c) && (!way.Strict? ==> Leading(ctx, q.ops, c))
  {
    hide Readiness.Solution, Sane, Sound, RR.Decoded, Decodable, EntrySafe, RR.FrameOk;
    GivenDecoded(ctx, q);
    var vars := Bools(c.w.heap, e.vars);
    assert c.stack == [] ==> Bools(c.w.heap, c.stack) == [];
    match way
    case Outside => RR.OutsideOk(q, ctx.ready, vars); FrameBound(ctx.ready, RR.Frame(0, [], vars, false));
    case Law(k) =>
      RR.LawOk(q, ctx.ready, k, Bools(c.w.heap, c.stack), vars);
    case Strict =>
      assert Readiness.Entries(q)[1] == Readiness.Flow(q.entry, Shape(0, {}, Readiness.StrictVars(q)));
      RR.EntryOk(q, ctx.ready, 1, [], vars);
    case Local(site) => LocalOk(ctx, q, site, c.pc, Bools(c.w.heap, c.stack), vars);
  }

  lemma FrameBound(states: seq<Ready>, f: RR.Frame)
    requires RR.FrameOk(states, f)
    ensures f.pc < |states|
  {
  }

  lemma {:induction false} LocalOk(ctx: Context, q: Readiness.Program, site: nat, t: nat, stack: seq<bool>,
                                   vars: seq<bool>)
    requires Given(ctx, q) && site < |q.ops| && q.ops[site] == CallBlock(t, |stack|) && !ctx.ready[site].Unseen?
    ensures t < |q.ops| == |ctx.target| && Leads(ctx, q.ops, t)
            && RR.FrameOk(ctx.ready, RR.Frame(t, stack, vars, false))
  {
    hide Sane, RR.Covers;
    assert InstrDecoded(ctx, q.ops, site) && Targets(q.ops[site])[0] == t;
    assert Readiness.Settled(q, ctx.ready, site);
    var fs := Readiness.Flows(q, site, ctx.ready[site]).value;
    assert fs[0] == Readiness.Flow(t, Readiness.Args(|stack|)) && Readiness.Meets(ctx.ready, fs[0]);
    RR.ArgsCovers(|stack|, stack, vars);
    RR.CoversWeaken(ctx.ready[t], fs[0].state, stack, vars);
  }

  /** One round preserves whole activations, whichever way they come in. */
  lemma {:induction false} RoundPreserves(ctx: Context, q: Readiness.Program, e: Setting, c: Conf, way: Way, n: nat)
    requires Given(ctx, q) && Suits(ctx, e) && Arrives(q, ctx, e, c, way)
    ensures Good(e, c) && |q.ops| == |ctx.ready| == |ctx.target|
    ensures var leads := Leaders(ctx, q.ops);
            Twin(Steps(e, q.ops, leads, c, n), Steps(e, Rewrite(ctx, q.ops), leads, c, n))
  {
    hide Given, Described, Leading, Rewrite, Same, Steps, EntrySafe, Suits;
    GivenDecoded(ctx, q);
    ArrivesDescribed(ctx, q, e, c, way);
    if way.Strict? {
      SameEntry(ctx, q);
      EntryRuns(ctx, q, e, c, n);
    } else {
      LeaderRuns(ctx, q, e, c, n);
    }
  }

  lemma SameEntry(ctx: Context, q: Readiness.Program)
    requires Given(ctx, q)
    ensures q.entry == ctx.entry
  {
  }

  // -------------------------------------------------------------------------- rounds

  /** Round after round: each with facts for the code the one before left. */
  ghost predicate Rounds(q: Readiness.Program, ctxs: seq<Context>, codes: seq<seq<Instr>>) {
    && |codes| == |ctxs| + 1 && codes[0] == q.ops
    && forall r: nat :: r < |ctxs| ==> RoundOk(q, ctxs, codes, r)
  }

  ghost predicate RoundOk(q: Readiness.Program, ctxs: seq<Context>, codes: seq<seq<Instr>>, r: nat)
    requires r < |ctxs| && |codes| == |ctxs| + 1
  {
    && Given(ctxs[r], q.(ops := codes[r])) && |codes[r]| == |ctxs[r].target|
    && codes[r + 1] == Rewrite(ctxs[r], codes[r])
    && ctxs[r] == ctxs[0].(ready := ctxs[r].ready)
  }

  /** Leaders do not depend on the facts, and no round moves them. */
  lemma {:induction false} LeadersStay(q: Readiness.Program, ctxs: seq<Context>, codes: seq<seq<Instr>>, r: nat)
    requires Rounds(q, ctxs, codes) && r < |codes| && |ctxs| > 0
    ensures |codes[r]| == |q.ops| == |ctxs[0].target| && Leaders(ctxs[0], codes[r]) == Leaders(ctxs[0], q.ops)
    decreases r
  {
    hide Given, Rewrite;
    assert RoundOk(q, ctxs, codes, 0);
    if r > 0 {
      LeadersStay(q, ctxs, codes, r - 1);
      assert RoundOk(q, ctxs, codes, r - 1);
      LeadersSame(ctxs[0], codes[r - 1], codes[r]);
    }
  }

  /** Main result: after any number of rounds an activation does the same for any
      number of blocks, whatever the program's bodies are. */
  lemma {:induction false} RoundsPreserve(q: Readiness.Program, ctxs: seq<Context>, codes: seq<seq<Instr>>,
                                          e: Setting, c: Conf, way: Way, n: nat, r: nat)
    requires Rounds(q, ctxs, codes) && |ctxs| > 0 && Suits(ctxs[0], e) && r < |codes|
    requires forall i: nat :: i < |ctxs| ==> Arrives(q.(ops := codes[i]), ctxs[i], e, c, way)
    ensures Good(e, c) && |codes[r]| == |q.ops| == |ctxs[0].target|
    ensures var leads := Leaders(ctxs[0], q.ops);
            Twin(Steps(e, q.ops, leads, c, n), Steps(e, codes[r], leads, c, n))
    decreases r
  {
    hide Given, Arrives, Rewrite, Same, Steps;
    assert Arrives(q.(ops := codes[0]), ctxs[0], e, c, way);
    assert Good(e, c) by { ArrivesGood(q.(ops := codes[0]), ctxs[0], e, c, way); }
    LeadersStay(q, ctxs, codes, r);
    var leads := Leaders(ctxs[0], q.ops);
    if r == 0 {
      TwinRefl(Steps(e, q.ops, leads, c, n));
    } else {
      RoundsPreserve(q, ctxs, codes, e, c, way, n, r - 1);
      LeadersStay(q, ctxs, codes, r - 1);
      assert RoundOk(q, ctxs, codes, r - 1) && Arrives(q.(ops := codes[r - 1]), ctxs[r - 1], e, c, way);
      RoundPreserves(ctxs[r - 1], q.(ops := codes[r - 1]), e, c, way, n);
      assert Leaders(ctxs[r - 1], codes[r - 1]) == Leaders(ctxs[0], codes[r - 1]);
      TwinTrans(Steps(e, q.ops, leads, c, n), Steps(e, codes[r - 1], leads, c, n), Steps(e, codes[r], leads, c, n));
    }
  }

  lemma ArrivesGood(q: Readiness.Program, ctx: Context, e: Setting, c: Conf, way: Way)
    requires Arrives(q, ctx, e, c, way)
    ensures Good(e, c)
  {
    hide Good, EntrySafe;
  }

  /** Two of the ways in are there in every round alike. */
  ghost predicate Kept(q: Readiness.Program, ctx: Context, code1: seq<Instr>, e: Setting, c: Conf, way: Way, n: nat)
    requires |q.ops| == |ctx.target| == |code1|
  {
    (way.Outside? || way.Law?) && Arrives(q, ctx, e, c, way) && Suits(ctx, e) ==>
      var leads := Leaders(ctx, q.ops); Twin(Steps(e, q.ops, leads, c, n), Steps(e, code1, leads, c, n))
  }

  /** Activations from outside and of law blocks do the same in both codes. */
  ghost predicate ActivationsKept(q: Readiness.Program, ctx: Context, code1: seq<Instr>) {
    |q.ops| == |ctx.target| == |code1| && forall e, c, way, n: nat :: Kept(q, ctx, code1, e, c, way, n)
  }

  lemma {:induction false} OutsidePreserved(q: Readiness.Program, ctxs: seq<Context>, codes: seq<seq<Instr>>)
    requires Rounds(q, ctxs, codes) && |ctxs| > 0
    ensures ActivationsKept(q, ctxs[0], codes[|ctxs|])
  {
    hide Rounds, Steps, Twin, Good, EntrySafe;
    RoundsSizes(q, ctxs, codes);
    LeadersStay(q, ctxs, codes, |ctxs|);
    forall e, c, way, n: nat ensures Kept(q, ctxs[0], codes[|ctxs|], e, c, way, n) {
      if (way.Outside? || way.Law?) && Arrives(q, ctxs[0], e, c, way) && Suits(ctxs[0], e) {
        forall i: nat | i < |ctxs| ensures Arrives(q.(ops := codes[i]), ctxs[i], e, c, way) {
        }
        RoundsPreserve(q, ctxs, codes, e, c, way, n, |ctxs|);
      }
    }
  }

  lemma RoundsSizes(q: Readiness.Program, ctxs: seq<Context>, codes: seq<seq<Instr>>)
    requires Rounds(q, ctxs, codes)
    ensures |codes| == |ctxs| + 1 && codes[0] == q.ops
  {
    hide RoundOk;
  }
}
