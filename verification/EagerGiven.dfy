/**
  What reaches the eager pass (pkg/plan/src/bytecode.c:759-782, 1066-1320): code that
  decoding has accepted, with its marks, and facts that solve its flow equations.
 */
module EagerGiven {
  import opened Bytecode
  import opened EagerBlocks
  import opened EagerPass
  import opened EagerWalk
  import Readiness
  import ReadinessRuns

  /** What decoding has checked of the code and its marks (pkg/plan/src/bytecode.c:1066-1280):
      it ends in a return, jumps land on marks, the one entry instruction stands in
      front of the strict entry, and calls and applications have arguments. Marks
      without a jump are law blocks. */
  ghost predicate Decodable(ctx: Context, code: seq<Instr>) {
    && |code| == |ctx.target| && code != [] && code[|code| - 1].Ret? && ctx.entry < |code|
    && (ctx.entry > 0 ==> code[ctx.entry - 1].Entry?)
    && forall pc: nat :: pc < |code| ==> InstrDecoded(ctx, code, pc)
  }

  ghost predicate InstrDecoded(ctx: Context, code: seq<Instr>, pc: nat)
    requires pc < |code|
  {
    && Jumps(ctx, code[pc], |code|) && ArgsChecked(code[pc]) && (code[pc].Entry? ==> pc + 1 == ctx.entry)
  }

  ghost predicate Jumps(ctx: Context, i: Instr, size: nat) {
    forall k :: 0 <= k < |Targets(i)| ==>
        Targets(i)[k] < size && Targets(i)[k] < |ctx.target| && ctx.target[Targets(i)[k]]
  }

  predicate ArgsChecked(i: Instr) {
    i.MkApp? || i.CallKnown? || i.CallFast? || i.CallSlow? ==> i.argc > 0
  }

  /** The facts solve the flow equations of the code. */
  ghost predicate Analysed(ctx: Context, code: seq<Instr>) {
    exists p: Readiness.Program :: Feeds(p, ctx, code) && Readiness.Solution(p, ctx.ready)
  }

  ghost predicate Feeds(p: Readiness.Program, ctx: Context, code: seq<Instr>) {
    p.ops == code && p.entry == ctx.entry && p.literal == ctx.literal
  }

  /** Such code is what the readiness theorems call decoded. */
  lemma DecodableDecoded(p: Readiness.Program, ctx: Context)
    requires Feeds(p, ctx, p.ops) && Decodable(ctx, p.ops)
             && (forall k :: 0 <= k < |p.laws| ==> p.laws[k].target < |p.ops|)
    ensures ReadinessRuns.Decoded(p)
  {
    forall pc | 0 <= pc < |p.ops| ensures ReadinessRuns.TargetsOk(p, p.ops[pc]) {
      assert InstrDecoded(ctx, p.ops, pc);
    }
  }

  /** Conversions change nothing that decoding looked at. */
  lemma {:induction false} StaysDecodable(ctx: Context, code: seq<Instr>, code1: seq<Instr>)
    requires Decodable(ctx, code) && Sane(code, ctx.vars) && OnlyConverted(code, code1, |code|)
    ensures Decodable(ctx, code1) && Sane(code1, ctx.vars)
  {
    forall pc: nat | pc < |code1| ensures InstrDecoded(ctx, code1, pc) && SaneInstr(code1[pc], ctx.vars) {
      assert InstrDecoded(ctx, code, pc) && SaneInstr(code[pc], ctx.vars);
      ConvertedDecoded(code[pc], ctx.vars);
    }
    var last, entry := |code| - 1, ctx.entry - 1;
    ConvertedDecoded(code[last], ctx.vars);
    if ctx.entry > 0 {
      ConvertedDecoded(code[entry], ctx.vars);
    }
  }

  lemma ConvertedDecoded(i: Instr, vars: nat)
    requires SaneInstr(i, vars)
    ensures var r := Converted(i);
            && Targets(r) == Targets(i) && (ArgsChecked(i) ==> ArgsChecked(r)) && SaneInstr(r, vars)
            && r.Entry? == i.Entry? && r.Ret? == i.Ret?
  {
  }
}
