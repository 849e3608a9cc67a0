/**
  The decoded instruction stream (pkg/plan/src/bytecode.c:1060-1200). One index
  stands for an instruction and its operand words.
 */
module Bytecode {

  /** How a thunk or a tail call is entered. */
  datatype Bane = Fast | Slow | Row | Known(op: nat)

  datatype Instr =
    | PushVar(v: nat)
    | PushLit(lit: nat)
    | PushSlot(slot: nat)
    | MkThk(argc: nat, bane: Bane)
    | MkApp(argc: nat)
    | Nop
    | Entry
    | ForceTop
    | CallKnown(argc: nat, op: nat)
    | CallFast(argc: nat)
    | CallSlow(argc: nat)
    | CallBlock(target: nat, argc: nat)
    | InterpExpr(expr: nat)
    | TailCall(argc: nat, bane: Bane)
    | Br(targets: seq<nat>)
    | Jmp(target: nat)
    | TailBlk(target: nat, argc: nat)
    | Ret

  /** Control never falls through to the next instruction. */
  predicate Ends(i: Instr) {
    i.TailCall? || i.Br? || i.Jmp? || i.TailBlk? || i.Ret?
  }

  /** Where an instruction may send control besides falling through. */
  function Targets(i: Instr): (r: seq<nat>) {
    match i
    case Jmp(t) => [t]
    case CallBlock(t, _) => [t]
    case TailBlk(t, _) => [t]
    case Br(ts) => ts
    case _ => []
  }

  /** What the readiness analysis knows on entry to an instruction. */
  datatype Ready = Unseen | Unknown | Shape(depth: nat, slots: set<nat>, vars: set<nat>)

  const READY_SLOTS: nat := 256
  const READY_VARS: nat := 64
}
