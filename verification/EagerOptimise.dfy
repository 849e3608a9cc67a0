/**
  The optimiser itself (pkg/plan/src/bytecode.c:759-782): analyse, rewrite, and again
  while something changes, at most 64 times.
 */
module EagerOptimise {
  import opened Bytecode
  import opened EagerPass
  import opened EagerWalk
  import opened EagerGiven
  import opened EagerLoops
  import opened EagerRuns
  import opened EagerRounds
  import Readiness

  const ROUNDS: nat := 64
  const LARGEST: nat := 16384

  /** A code object as decoding hands it over: its marks, and its law blocks on marks. */
  ghost predicate HandedOver(q: Readiness.Program, ctx: Context) {
    && Feeds(q, ctx, q.ops) && Decodable(ctx, q.ops) && Sane(q.ops, ctx.vars)
    && forall k :: 0 <= k < |q.laws| ==> q.laws[k].target < |ctx.target| && ctx.target[q.laws[k].target]
  }

  /** Main result: whatever the rounds convert, whole activations from outside and of
      law blocks do the same evaluations in the same order with the same end. */
  method Optimise(code: array<Instr>, q: Readiness.Program, ctx: Context)
    returns (ok: bool, ghost ctxs: seq<Context>, ghost codes: seq<seq<Instr>>)
    requires q.ops == code[..] && HandedOver(q, ctx)
    modifies code
    ensures Rounds(q, ctxs, codes) && codes[|ctxs|] == code[..] && |ctxs| <= 64
    ensures code.Length > 16384 ==> ok && ctxs == []
    ensures ok && code.Length <= 16384 ==> |ctxs| == 64 || (ctxs != [] && codes[|ctxs|] == codes[|ctxs| - 1])
    ensures forall r :: 0 <= r < |ctxs| ==> ctxs[r] == ctx.(ready := ctxs[r].ready)
    ensures OnlyConverted(old(code[..]), code[..], code.Length) && ActivationsKept(q, ctx, code[..])
    ensures !ok ==> exists states, pc :: Underflows(q.(ops := code[..]), states, pc)
  {
    hide Readiness.Solution, Readiness.Strongest, Decodable, Sane, Rewrite, RoundOk, ActivationsKept, Preserves,
        OnlyConverted;
    ok, ctxs, codes := true, [], [code[..]];
    Unchanged(q, ctx);
    if code.Length > LARGEST {
      return;
    }
    var round := 0;
    while round < ROUNDS
      invariant round == |ctxs| <= ROUNDS && ok && Rounds(q, ctxs, codes) && codes[|ctxs|] == code[..]
      invariant forall r :: 0 <= r < |ctxs| ==> ctxs[r] == ctx.(ready := ctxs[r].ready)
      invariant OnlyConverted(q.ops, code[..], code.Length) && ActivationsKept(q, ctx, code[..])
      invariant HandedOver(q.(ops := code[..]), ctx) && code.Length <= LARGEST
    {
      var p := q.(ops := code[..]);
      HandedSizes(p, ctx);
      var verdict, states := Readiness.Analyse(p);
      if !verdict.Complete? {
        ok := false;
        if verdict.Underflow? {
          var pc :| 0 <= pc < |states| && !states[pc].Unseen? && Readiness.Flows(p, pc, states[pc]).None?;
          assert Underflows(p, states, pc);
        }
        return;
      }
      var now := ctx.(ready := states);
      ghost var before := code[..];
      HandedGiven(p, ctx, states);
      var changed := EagerRewrite(code, now);
      StaysHanded(q, ctx, before, code[..]);
      ctxs, codes := ctxs + [now], codes + [code[..]];
      RoundAdded(q, ctxs, codes);
      KeptSoFar(q, ctx, ctxs, codes);
      OnlyMore(q.ops, before, code[..]);
      round := round + 1;
      if !changed {
        break;
      }
    }
  }

  /** The analysis proves an operand underflow. */
  ghost predicate Underflows(p: Readiness.Program, states: seq<Ready>, pc: nat) {
    && |states| == |p.ops| && Readiness.ProperAll(states) && Readiness.Strongest(p, states)
    && pc < |states| && !states[pc].Unseen? && Readiness.Flows(p, pc, states[pc]).None?
  }

  lemma HandedSizes(p: Readiness.Program, ctx: Context)
    requires HandedOver(p, ctx)
    ensures |p.ops| == |ctx.target| > 0
  {
  }

  lemma HandedGiven(p: Readiness.Program, ctx: Context, states: seq<Ready>)
    requires HandedOver(p, ctx) && Readiness.Solution(p, states)
    ensures Given(ctx.(ready := states), p) && |states| == |p.ops|
  {
    hide Sane, Readiness.Settled;
    assert Decodable(ctx.(ready := states), p.ops) by { OtherFacts(ctx, states, p.ops); }
  }

  /** Decoding does not look at the facts. */
  lemma OtherFacts(ctx: Context, states: seq<Ready>, code: seq<Instr>)
    requires Decodable(ctx, code)
    ensures Decodable(ctx.(ready := states), code)
  {
    forall pc: nat | pc < |code| ensures InstrDecoded(ctx.(ready := states), code, pc) {
      assert InstrDecoded(ctx, code, pc);
    }
  }

  lemma StaysHanded(q: Readiness.Program, ctx: Context, before: seq<Instr>, after: seq<Instr>)
    requires HandedOver(q.(ops := before), ctx) && OnlyConverted(before, after, |before|)
    ensures HandedOver(q.(ops := after), ctx)
  {
    hide Decodable, Sane;
    StaysDecodable(ctx, before, after);
  }

  lemma OnlyMore(x: seq<Instr>, y: seq<Instr>, z: seq<Instr>)
    requires OnlyConverted(x, y, |x|) && OnlyConverted(y, z, |y|)
    ensures OnlyConverted(x, z, |x|)
  {
  }

  lemma {:induction false} Unchanged(q: Readiness.Program, ctx: Context)
    requires HandedOver(q, ctx)
    ensures OnlyConverted(q.ops, q.ops, |q.ops|) && ActivationsKept(q, ctx, q.ops)
  {
    hide Steps, Arrives, Twin;
    forall e, c, way, n: nat ensures Kept(q, ctx, q.ops, e, c, way, n) {
      if (way.Outside? || way.Law?) && Arrives(q, ctx, e, c, way) && Suits(ctx, e) {
        ArrivesGood(q, ctx, e, c, way);
        TwinRefl(Steps(e, q.ops, Leaders(ctx, q.ops), c, n));
      }
    }
  }

  lemma {:induction false} RoundAdded(q: Readiness.Program, ctxs: seq<Context>, codes: seq<seq<Instr>>)
    requires |ctxs| > 0 && |codes| == |ctxs| + 1 && Rounds(q, ctxs[..|ctxs| - 1], codes[..|ctxs|])
    requires ctxs[|ctxs| - 1] == ctxs[0].(ready := ctxs[|ctxs| - 1].ready)
    requires var r := |ctxs| - 1;
             Given(ctxs[r], q.(ops := codes[r])) && |codes[r]| == |ctxs[r].target|
                 && codes[r + 1] == Rewrite(ctxs[r], codes[r])
    ensures Rounds(q, ctxs, codes)
  {
    hide Given, Rewrite;
    forall r: nat | r < |ctxs| ensures RoundOk(q, ctxs, codes, r) {
      if r < |ctxs| - 1 {
        assert RoundOk(q, ctxs[..|ctxs| - 1], codes[..|ctxs|], r);
      }
    }
  }

  /** Only the marks, masks and entry of a context matter to activations. */
  lemma {:induction false} KeptSoFar(q: Readiness.Program, ctx: Context, ctxs: seq<Context>, codes: seq<seq<Instr>>)
    requires Rounds(q, ctxs, codes) && |ctxs| > 0 && ctxs[0] == ctx.(ready := ctxs[0].ready)
    ensures ActivationsKept(q, ctx, codes[|ctxs|])
  {
    hide Rounds, Steps, Twin, Good;
    OutsidePreserved(q, ctxs, codes);
    RoundsSizes(q, ctxs, codes);
    var code1 := codes[|ctxs|];
    assert Leaders(ctx, q.ops) == Leaders(ctxs[0], q.ops);
    forall e, c, way, n: nat ensures Kept(q, ctx, code1, e, c, way, n) {
      assert Kept(q, ctxs[0], code1, e, c, way, n);
    }
  }
}
