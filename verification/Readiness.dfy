/**
  The readiness analysis (pkg/plan/src/bytecode.c:112-386): a worklist fixed
  point over stack shapes and known-value slots. The worklist is proved to end
  well inside its give-up bound with the strongest solution of the flow
  equations, whatever order the queue takes.
 */
module Readiness {
  import opened Basics
  import opened Bytecode

  datatype LawBlock = LawBlock(target: nat, arity: nat)

  /** A decoded code object; `literal` says which literals are values, `strict`
      is a primop's 32-bit mask, `strictArgs` the law's own mask. */
  datatype Program = Program(ops: seq<Instr>, literal: nat -> bool, strict: nat -> set<nat>,
                             entry: nat, strictArgs: set<nat>, laws: seq<LawBlock>)

  datatype Flow = Flow(target: nat, state: Ready)

  /** The bits of a state lie below its depth and the fixed widths. */
  predicate Proper(s: Ready) {
    s.Shape? ==>
        s.depth <= READY_SLOTS && (forall k :: k in s.slots ==> k < s.depth)
        && (forall v :: v in s.vars ==> v < READY_VARS)
  }

  predicate Get(s: Ready, k: nat) {
    s.Shape? && k < s.depth && k in s.slots
  }

  function Push(s: Ready, known: bool): (r: Ready)
    requires Proper(s) && !s.Unseen?
    ensures Proper(r) && !r.Unseen?
  {
    if s.Unknown? || s.depth == READY_SLOTS then Unknown
    else Shape(s.depth + 1, if known then s.slots + {s.depth} else s.slots, s.vars)
  }

  /** None is a provable underflow. Dead slots are forgotten. */
  function Pop(s: Ready, n: nat): (r: Option<Ready>)
    requires Proper(s) && !s.Unseen?
    ensures r.Some? ==> Proper(r.value) && !r.value.Unseen?
  {
    if s.Unknown? then Some(Unknown)
    else if n > s.depth then None
    else Some(Shape(s.depth - n, (set k | k in s.slots && k < s.depth - n), s.vars))
  }

  /** The entry state of a block with `n` unknown arguments. */
  function Args(n: nat): (r: Ready)
    ensures Proper(r) && !r.Unseen?
  {
    if n <= READY_SLOTS then Shape(n, {}, {}) else Unknown
  }

  function PopPush(s: Ready, n: nat, known: bool, target: nat): (r: Option<seq<Flow>>)
    requires Proper(s) && !s.Unseen?
    ensures r.Some? ==> forall i :: 0 <= i < |r.value| ==> Proper(r.value[i].state) && !r.value[i].state.Unseen?
  {
    var q := Pop(s, n);
    if q.None? then None else Some([Flow(target, Push(q.value, known))])
  }

  /** Where control goes from `pc` and with what; None is an underflow. */
  function Flows(p: Program, pc: nat, s: Ready): (r: Option<seq<Flow>>)
    requires pc < |p.ops| && Proper(s) && !s.Unseen?
    ensures r.Some? ==> forall i :: 0 <= i < |r.value| ==> Proper(r.value[i].state) && !r.value[i].state.Unseen?
  {
    match p.ops[pc]
    case PushVar(v) => Some([Flow(pc + 1, Push(s, v < READY_VARS && s.Shape? && v in s.vars))])
    case PushLit(l) => Some([Flow(pc + 1, Push(s, p.literal(l)))])
    case PushSlot(k) => Some([Flow(pc + 1, Push(s, Get(s, k)))])
    case ForceTop => PopPush(s, 1, true, pc + 1)
    case InterpExpr(_) => Some([Flow(pc + 1, Push(s, true))])
    case MkApp(n) => PopPush(s, n + 1, true, pc + 1)
    case MkThk(n, _) => PopPush(s, n, false, pc + 1)
    case CallBlock(t, n) =>
      var q := PopPush(s, n, true, pc + 1);
      if q.None? then None else Some([Flow(t, Args(n))] + q.value)
    case CallFast(n) => PopPush(s, n + 1, true, pc + 1)
    case CallSlow(n) => PopPush(s, n + 1, true, pc + 1)
    case CallKnown(n, _) => PopPush(s, n, true, pc + 1)
    case Entry => Some([Flow(pc + 1, s)])
    case Nop => Some([Flow(pc + 1, s)])
    case Jmp(t) => Some([Flow(t, s)])
    case TailBlk(t, n) => if Pop(s, n).None? then None else Some([Flow(t, Args(n))])
    case Br(ts) =>
      var q := Pop(s, 1);
      if q.None? then None else Some(seq(|ts|, i requires 0 <= i < |ts| => Flow(ts[i], q.value)))
    case Ret => if Pop(s, 1).None? then None else Some([])
    case TailCall(n, _) => if Pop(s, n).None? then None else Some([])
  }

  /** The ways in: from outside, at the strict entry, and at every law block. */
  function Entries(p: Program): (r: seq<Flow>)
    ensures forall i :: 0 <= i < |r| ==> Proper(r[i].state) && !r[i].state.Unseen?
  {
    [Flow(0, Shape(0, {}, {}))]
    + (if p.entry != 0 then [Flow(p.entry, Shape(0, {}, StrictVars(p)))] else [])
    + seq(|p.laws|, i requires 0 <= i < |p.laws| => Flow(p.laws[i].target, Args(p.laws[i].arity)))
  }

  /** Argument k is variable k + 1; the shifted mask keeps 64 bits. */
  function StrictVars(p: Program): (r: set<nat>)
    ensures forall v :: v in r ==> v < READY_VARS
  {
    set k | k in p.strictArgs && k + 1 < READY_VARS :: k + 1
  }

  // ------------------------------------------------------------------------- merge

  /** `x` accounts for `s`: everything `x` says holds wherever `s` does. */
  predicate Accounts(x: Ready, s: Ready) {
    x.Unknown? || (x.Shape? && s.Shape? && x.depth == s.depth && x.slots <= s.slots && x.vars <= s.vars)
  }

  function Merge(dst: Ready, src: Ready): (r: Ready)
    requires Proper(dst) && Proper(src) && !src.Unseen?
    ensures Proper(r) && Accounts(r, src) && (dst.Unseen? || Accounts(r, dst))
    ensures r != dst ==> Rank(r) < Rank(dst)
    ensures forall x :: Accounts(x, src) && (dst.Unseen? || Accounts(x, dst)) ==> Accounts(x, r)
  {
    RankBound(src);
    if dst.Unseen? then src
    else if dst.Unknown? then Unknown
    else if src.Unknown? || src.depth != dst.depth then Unknown
    else
      Fewer(dst.slots * src.slots, dst.slots);
      Fewer(dst.vars * src.vars, dst.vars);
      Shape(dst.depth, dst.slots * src.slots, dst.vars * src.vars)
  }

  /** How often a state can still descend: unseen, then slot bits and variable
      bits one by one, then unknown. */
  function Rank(s: Ready): (r: nat) {
    match s
    case Unseen => READY_SLOTS + READY_VARS + 2
    case Shape(_, slots, vars) => |slots| + |vars| + 1
    case Unknown => 0
  }

  lemma {:induction false} Bits(s: set<nat>, n: nat)
    requires forall k :: k in s ==> k < n
    ensures |s| <= n
    decreases n
  {
    if n == 0 {
      assert s == {};
    } else {
      Bits(s - {n - 1}, n - 1);
    }
  }

  lemma Fewer(a: set<nat>, b: set<nat>)
    requires a <= b
    ensures |a| <= |b| && (a != b ==> |a| < |b|)
  {
    assert b == a + (b - a);
    if a != b {
      var x :| x in b - a;
      assert |b - a| > 0;
    }
  }

  lemma RankBound(s: Ready)
    requires Proper(s) && !s.Unseen?
    ensures Rank(s) < Rank(Unseen)
  {
    if s.Shape? {
      Bits(s.slots, READY_SLOTS);
      Bits(s.vars, READY_VARS);
    }
  }

  lemma PushMonotone(x: Ready, s: Ready, kx: bool, ks: bool)
    requires Proper(x) && Proper(s) && !s.Unseen? && Accounts(x, s) && (kx ==> ks)
    ensures Accounts(Push(x, kx), Push(s, ks))
  {
  }

  lemma PopMonotone(x: Ready, s: Ready, n: nat)
    requires Proper(x) && Proper(s) && !s.Unseen? && Accounts(x, s) && Pop(s, n).Some?
    ensures Pop(x, n).Some? && Accounts(Pop(x, n).value, Pop(s, n).value)
  {
  }

  lemma PopPushMonotone(x: Ready, s: Ready, n: nat, known: bool, target: nat)
    requires Proper(x) && Proper(s) && !s.Unseen? && Accounts(x, s) && PopPush(s, n, known, target).Some?
    ensures PopPush(x, n, known, target).Some?
    ensures Accounts(PopPush(x, n, known, target).value[0].state, PopPush(s, n, known, target).value[0].state)
  {
    hide Pop, Push;
    PopMonotone(x, s, n);
    PushMonotone(Pop(x, n).value, Pop(s, n).value, known, known);
  }

  ghost predicate FlowsAccount(fx: Option<seq<Flow>>, fs: Option<seq<Flow>>)
    requires fs.Some?
  {
    && fx.Some? && |fx.value| == |fs.value|
    && forall i :: 0 <= i < |fs.value| ==>
        fx.value[i].target == fs.value[i].target && Accounts(fx.value[i].state, fs.value[i].state)
  }

  /** The transfer functions are monotone. */
  lemma {:induction false} FlowsMonotone(p: Program, pc: nat, x: Ready, s: Ready)
    requires pc < |p.ops| && Proper(x) && Proper(s) && !s.Unseen? && Accounts(x, s) && Flows(p, pc, s).Some?
    ensures FlowsAccount(Flows(p, pc, x), Flows(p, pc, s))
  {
    hide Pop, Push;
    match p.ops[pc]
    case PushVar(v) =>
        PushMonotone(x, s, v < READY_VARS && x.Shape? && v in x.vars, v < READY_VARS && s.Shape? && v in s.vars);
    case PushLit(l) => PushMonotone(x, s, p.literal(l), p.literal(l));
    case PushSlot(k) => PushMonotone(x, s, Get(x, k), Get(s, k));
    case ForceTop => PopPushMonotone(x, s, 1, true, pc + 1);
    case InterpExpr(_) => PushMonotone(x, s, true, true);
    case MkApp(n) => PopPushMonotone(x, s, n + 1, true, pc + 1);
    case MkThk(n, _) => PopPushMonotone(x, s, n, false, pc + 1);
    case CallBlock(t, n) => PopPushMonotone(x, s, n, true, pc + 1);
    case CallFast(n) => PopPushMonotone(x, s, n + 1, true, pc + 1);
    case CallSlow(n) => PopPushMonotone(x, s, n + 1, true, pc + 1);
    case CallKnown(n, _) => PopPushMonotone(x, s, n, true, pc + 1);
    case Entry =>
    case Nop =>
    case Jmp(t) =>
    case TailBlk(t, n) => PopMonotone(x, s, n);
    case Br(ts) => PopMonotone(x, s, 1);
    case Ret => PopMonotone(x, s, 1);
    case TailCall(n, _) => PopMonotone(x, s, n);
  }

  // --------------------------------------------------------------------- solutions

  ghost predicate ProperAll(states: seq<Ready>) {
    forall k :: 0 <= k < |states| ==> Proper(states[k])
  }

  ghost predicate Meets(states: seq<Ready>, f: Flow) {
    f.target >= |states| || Accounts(states[f.target], f.state)
  }

  ghost predicate MeetsAll(states: seq<Ready>, fs: seq<Flow>) {
    forall i :: 0 <= i < |fs| ==> Meets(states, fs[i])
  }

  /** Everything that flows out of `pc` has been accounted for. */
  ghost predicate Settled(p: Program, states: seq<Ready>, pc: nat)
    requires pc < |states| == |p.ops| && ProperAll(states)
  {
    !states[pc].Unseen? ==> Flows(p, pc, states[pc]).Some? && MeetsAll(states, Flows(p, pc, states[pc]).value)
  }

  /** A solution of the flow equations. */
  ghost predicate Solution(p: Program, states: seq<Ready>) {
    && |states| == |p.ops| && ProperAll(states) && MeetsAll(states, Entries(p))
    && forall pc :: 0 <= pc < |states| ==> Settled(p, states, pc)
  }

  /** `x` says no more than `states` does. */
  ghost predicate Weaker(x: seq<Ready>, states: seq<Ready>) {
    |x| == |states| && forall k :: 0 <= k < |x| ==> states[k].Unseen? || Accounts(x[k], states[k])
  }

  /** No solution says more. */
  ghost predicate Strongest(p: Program, states: seq<Ready>) {
    forall x :: Solution(p, x) ==> Weaker(x, states)
  }

  lemma {:induction false} StrongestUpdate(p: Program, states: seq<Ready>, f: Flow)
    requires |states| == |p.ops| && ProperAll(states) && Strongest(p, states) && f.target < |states|
    requires Proper(f.state) && !f.state.Unseen?
    requires forall x :: Solution(p, x) ==> Meets(x, f)
    ensures Strongest(p, states[f.target := Merge(states[f.target], f.state)])
  {
    hide Solution, Merge;
    var t := f.target;
    var m := Merge(states[t], f.state);
    forall x | Solution(p, x) ensures Weaker(x, states[t := m]) {
      assert Weaker(x, states) && Meets(x, f);
      assert Accounts(x[t], f.state) && (states[t].Unseen? || Accounts(x[t], states[t]));
    }
  }

  lemma {:induction false} FlowsMet(p: Program, states: seq<Ready>, pc: nat)
    requires |states| == |p.ops| && ProperAll(states) && Strongest(p, states) && pc < |states| && !states[pc].Unseen?
    requires Flows(p, pc, states[pc]).Some?
    ensures forall x, i :: Solution(p, x) && 0 <= i < |Flows(p, pc, states[pc]).value| ==>
            Meets(x, Flows(p, pc, states[pc]).value[i])
  {
    hide Flows;
    var fs := Flows(p, pc, states[pc]).value;
    forall x, i | Solution(p, x) && 0 <= i < |fs| ensures Meets(x, fs[i]) {
      assert Weaker(x, states);
      assert Accounts(x[pc], states[pc]) && Proper(x[pc]);
      FlowsMonotone(p, pc, x[pc], states[pc]);
      assert Settled(p, x, pc);
      assert Meets(x, Flows(p, pc, x[pc]).value[i]);
    }
  }

  /** A descent elsewhere keeps what was accounted for. */
  lemma {:induction false} SettledUpdate(p: Program, states: seq<Ready>, t: nat, m: Ready, pc: nat)
    requires |states| == |p.ops| && ProperAll(states) && t < |states| && pc < |states| && pc != t && Proper(m)
    requires (states[t].Unseen? && !m.Unseen?) || Accounts(m, states[t])
    requires Settled(p, states, pc)
    ensures Settled(p, states[t := m], pc)
  {
    hide Flows, Proper;
    if !states[pc].Unseen? {
      MeetsUpdate(states, t, m, Flows(p, pc, states[pc]).value);
    }
  }

  lemma {:induction false} MeetsUpdate(states: seq<Ready>, t: nat, m: Ready, fs: seq<Flow>)
    requires t < |states| && MeetsAll(states, fs) && ((states[t].Unseen? && !m.Unseen?) || Accounts(m, states[t]))
    ensures MeetsAll(states[t := m], fs)
  {
    forall i | 0 <= i < |fs| ensures Meets(states[t := m], fs[i]) {
      assert Meets(states, fs[i]);
    }
  }

  // --------------------------------------------------------------------- the worklist

  function Ranks(states: seq<Ready>): (r: nat) {
    if states == [] then 0 else Rank(states[0]) + Ranks(states[1..])
  }

  lemma {:induction false} RanksUpdate(states: seq<Ready>, t: nat, m: Ready)
    requires t < |states|
    ensures Ranks(states[t := m]) == Ranks(states) - Rank(states[t]) + Rank(m)
    decreases |states|
  {
    if t > 0 {
      assert states[t := m][1..] == states[1..][t - 1 := m];
      RanksUpdate(states[1..], t - 1, m);
    } else {
      assert states[t := m][1..] == states[1..];
    }
  }

  lemma {:induction false} RanksUnseen(states: seq<Ready>)
    requires forall k :: 0 <= k < |states| ==> states[k].Unseen?
    ensures Ranks(states) == Rank(Unseen) * |states|
    decreases |states|
  {
    if states != [] {
      RanksUnseen(states[1..]);
    }
  }

  lemma {:induction false} DistinctFits(q: seq<nat>, n: nat)
    requires Distinct(q) && forall i :: 0 <= i < |q| ==> q[i] < n
    ensures |q| <= n
  {
    var s := set i | 0 <= i < |q| :: q[i];
    SetOf(q, s);
    Bits(s, n);
  }

  lemma {:induction false} SetOf(q: seq<nat>, s: set<nat>)
    requires Distinct(q) && s == set i | 0 <= i < |q| :: q[i]
    ensures |s| == |q|
    decreases |q|
  {
    if q == [] {
      assert s == {};
    } else {
      var rest := q[..|q| - 1];
      var s1 := set i | 0 <= i < |rest| :: rest[i];
      SetOf(rest, s1);
      var x := q[|q| - 1];
      forall y ensures y in s <==> y in s1 + {x} {
        if y in s1 {
          var i :| 0 <= i < |rest| && rest[i] == y;
          assert q[i] == y;
        }
      }
      assert s == s1 + {x} && x !in s1;
    }
  }

  /** The circular buffer holds `q`, each queued pc once. */
  ghost predicate Ring(queue: seq<nat>, queued: seq<bool>, head: nat, tail: nat, q: seq<nat>) {
    var n := |queue|;
    && |queued| == n && head < n && tail < n && |q| <= n && tail == Wrap(head + |q|, n)
    && (forall j :: 0 <= j < |q| ==> q[j] < n && queue[Wrap(head + j, n)] == q[j])
    && Distinct(q) && (forall k :: 0 <= k < n ==> (queued[k] <==> k in q))
  }

  /** (head + j) mod n for j up to n. */
  function Wrap(k: nat, n: nat): (r: nat)
    requires n > 0 && k < 2 * n
    ensures r < n && r == k % n
  {
    if k < n then k else k - n
  }

  lemma {:induction false} RingPush(queue: seq<nat>, queued: seq<bool>, head: nat, tail: nat, q: seq<nat>, t: nat)
    requires Ring(queue, queued, head, tail, q) && t < |queue| && !queued[t]
    ensures |q| < |queue|
    ensures Ring(queue[tail := t], queued[t := true], head, Wrap(tail + 1, |queue|), q + [t])
  {
    var n := |queue|;
    var q1 := q + [t];
    assert Distinct(q1);
    DistinctFits(q1, n);
    forall j | 0 <= j < |q1| ensures queue[tail := t][Wrap(head + j, n)] == q1[j] {
      if j < |q| {
        assert Wrap(head + j, n) != tail;
      }
    }
  }

  lemma {:induction false} RingPop(queue: seq<nat>, queued: seq<bool>, head: nat, tail: nat, q: seq<nat>)
    requires Ring(queue, queued, head, tail, q) && q != []
    ensures queue[head] == q[0] && q[0] < |queue|
    ensures Ring(queue, queued[q[0] := false], Wrap(head + 1, |queue|), tail, q[1..])
  {
    var n := |queue|;
    assert queue[Wrap(head + 0, n)] == q[0];
    forall j | 0 <= j < |q| - 1 ensures queue[Wrap(Wrap(head + 1, n) + j, n)] == q[1..][j] {
      assert queue[Wrap(head + (j + 1), n)] == q[j + 1];
    }
    forall k | 0 <= k < n ensures queued[q[0] := false][k] <==> k in q[1..] {
      assert q == [q[0]] + q[1..];
      if k in q[1..] {
        var j :| 0 <= j < |q| - 1 && q[1..][j] == k;
        assert q[j + 1] == k;
      }
    }
  }

  datatype Verdict = Complete | Incomplete | Underflow

  /** What every step of the worklist keeps. Pcs outside the queue are settled,
      except the one in hand, whose flows are being made. */
  ghost predicate Progressing(p: Program, states: seq<Ready>, q: seq<nat>, hand: Option<nat>) {
    && |states| == |p.ops| && ProperAll(states) && Strongest(p, states)
    && (forall j :: 0 <= j < |q| ==> q[j] < |states| && !states[q[j]].Unseen?)
    && (forall pc :: 0 <= pc < |states| && pc !in q && hand != Some(pc) ==> Settled(p, states, pc))
  }

  /** One FLOW: merge, and queue the target if its state descended. */
  method FlowTo(p: Program, states: array<Ready>, queue: array<nat>, queued: array<bool>, ghost head: nat, tail0: nat,
                count0: nat,
                ghost q0: seq<nat>, ghost hand: Option<nat>, f: Flow)
    returns (tail: nat, count: nat, ghost q: seq<nat>)
    requires states.Length == |p.ops| == queue.Length == queued.Length
    requires Ring(queue[..], queued[..], head, tail0, q0) && count0 == |q0|
    requires Progressing(p, states[..], q0, hand) && Proper(f.state) && !f.state.Unseen?
    requires forall x :: Solution(p, x) ==> Meets(x, f)
    modifies states, queue, queued
    ensures Ring(queue[..], queued[..], head, tail, q) && count == |q|
    ensures Progressing(p, states[..], q, hand)
    ensures Meets(states[..], f) && (forall fs :: MeetsAll(old(states[..]), fs) ==> MeetsAll(states[..], fs))
    ensures Ranks(states[..]) + count <= Ranks(old(states[..])) + count0
    ensures (q == q0 && states[..] == old(states[..])) || Ranks(states[..]) < Ranks(old(states[..]))
    ensures forall k :: 0 <= k < states.Length && states[k] != old(states[k]) ==> k in q
    ensures forall k :: k in q0 ==> k in q
  {
    hide Ring, Merge, Strongest, Settled, ProperAll, Ranks, Rank, Proper;
    tail, count, q := tail0, count0, q0;
    ghost var before := states[..];
    if f.target < states.Length {
      var t := f.target;
      assert Proper(states[t]) by { ProperAt(before, t); }
      var m := Merge(states[t], f.state);
      if m != states[t] {
        StrongestUpdate(p, before, f);
        RanksUpdate(before, t, m);
        ProperUpdate(before, t, m);
        states[t] := m;
        assert states[..] == before[t := m];
        RingSizes(queue[..], queued[..], head, tail, q);
        if !queued[t] {
          RingPush(queue[..], queued[..], head, tail, q, t);
          ghost var queue0, queued0 := queue[..], queued[..];
          queue[tail] := t;
          queued[t] := true;
          assert queue[..] == queue0[tail := t] && queued[..] == queued0[t := true];
          tail := (tail + 1) % queue.Length;
          count := count + 1;
          q := q + [t];
        }
        assert t in q by { RingHas(queue[..], queued[..], head, tail, q, t); }
        forall pc | 0 <= pc < |states[..]| && pc !in q && hand != Some(pc) ensures Settled(p, states[..], pc) {
          SettledUpdate(p, before, t, m, pc);
        }
        forall fs | MeetsAll(before, fs) ensures MeetsAll(states[..], fs) {
          MeetsUpdate(before, t, m, fs);
        }
      }
    }
  }

  /** The flows out of one place, one after the other. */
  method FlowAll(p: Program, states: array<Ready>, queue: array<nat>, queued: array<bool>, ghost head: nat,
                 tail0: nat, count0: nat,
                 ghost q0: seq<nat>, ghost hand: Option<nat>, fs: seq<Flow>)
    returns (tail: nat, count: nat, ghost q: seq<nat>)
    requires states.Length == |p.ops| == queue.Length == queued.Length
    requires Ring(queue[..], queued[..], head, tail0, q0) && count0 == |q0| && Progressing(p, states[..], q0, hand)
    requires forall i :: 0 <= i < |fs| ==> Proper(fs[i].state) && !fs[i].state.Unseen?
    requires forall x, i :: Solution(p, x) && 0 <= i < |fs| ==> Meets(x, fs[i])
    modifies states, queue, queued
    ensures Ring(queue[..], queued[..], head, tail, q) && count == |q|
    ensures Progressing(p, states[..], q, hand)
    ensures MeetsAll(states[..], fs) && (forall es :: MeetsAll(old(states[..]), es) ==> MeetsAll(states[..], es))
    ensures Ranks(states[..]) + count <= Ranks(old(states[..])) + count0
    ensures (q == q0 && states[..] == old(states[..])) || Ranks(states[..]) < Ranks(old(states[..]))
    ensures forall k :: 0 <= k < states.Length && states[k] != old(states[k]) ==> k in q
  {
    hide Ring, Strongest, Settled, ProperAll, Ranks, Solution, Proper, Meets, Progressing;
    tail, count, q := tail0, count0, q0;
    var i: nat := 0;
    while i < |fs|
      invariant i <= |fs| && Ring(queue[..], queued[..], head, tail, q) && count == |q|
      invariant Progressing(p, states[..], q, hand) && MeetsAll(states[..], fs[..i])
      invariant forall es :: MeetsAll(old(states[..]), es) ==> MeetsAll(states[..], es)
      invariant Ranks(states[..]) + count <= Ranks(old(states[..])) + count0
      invariant (q == q0 && states[..] == old(states[..])) || Ranks(states[..]) < Ranks(old(states[..]))
      invariant forall k :: 0 <= k < states.Length && states[k] != old(states[k]) ==> k in q
    {
      tail, count, q := FlowTo(p, states, queue, queued, head, tail, count, q, hand, fs[i]);
      assert MeetsAll(states[..], fs[..i]);
      assert fs[..i + 1] == fs[..i] + [fs[i]];
      i := i + 1;
    }
    assert fs[..i] == fs;
  }

  lemma ProperAt(states: seq<Ready>, k: nat)
    requires ProperAll(states) && k < |states|
    ensures Proper(states[k])
  {
  }

  lemma ProperUpdate(states: seq<Ready>, k: nat, m: Ready)
    requires ProperAll(states) && k < |states| && Proper(m)
    ensures ProperAll(states[k := m])
  {
  }

  lemma RingSizes(queue: seq<nat>, queued: seq<bool>, head: nat, tail: nat, q: seq<nat>)
    requires Ring(queue, queued, head, tail, q)
    ensures head < |queue| == |queued| && tail < |queue| && |q| <= |queue|
  {
  }

  lemma RingHas(queue: seq<nat>, queued: seq<bool>, head: nat, tail: nat, q: seq<nat>, k: nat)
    requires Ring(queue, queued, head, tail, q) && k < |queue| && queued[k]
    ensures k in q
  {
  }

  /** The worklist. It always completes or proves an underflow: every visit
      pays with a descent of some state, and there are at most 322 per pc. */
  method Analyse(p: Program) returns (verdict: Verdict, result: seq<Ready>)
    requires |p.ops| > 0
    ensures !verdict.Incomplete?
    ensures verdict.Complete? ==> Solution(p, result) && Strongest(p, result)
    ensures verdict.Underflow? ==> |result| == |p.ops| && ProperAll(result) && Strongest(p, result) &&
                                   exists pc :: 0 <= pc < |result| && !result[pc].Unseen?
                                       && Flows(p, pc, result[pc]).None?
  {
    hide Ring, Strongest, Settled, ProperAll, Ranks, Rank, Flows, Entries, Solution, Proper, Meets, Progressing,
        MeetsAll;
    var n := |p.ops|;
    var states := new Ready[n](_ => Unseen);
    var queue := new nat[n](_ => 0);
    var queued := new bool[n](_ => false);
    var head: nat, tail: nat, count: nat, visits: nat := 0, 0, 0, 0;
    ghost var q: seq<nat> := [];
    Fresh(p, states[..], queue[..], queued[..]);
    var entries := Entries(p);
    EntriesProper(p);
    EntriesMet(p);
    tail, count, q := FlowAll(p, states, queue, queued, head, tail, count, q, None, entries);
    while count > 0
      invariant Ring(queue[..], queued[..], head, tail, q) && count == |q|
      invariant Progressing(p, states[..], q, None) && MeetsAll(states[..], entries)
      invariant visits + Ranks(states[..]) + count <= 322 * n
      decreases Ranks(states[..]), count
    {
      visits := visits + 1;
      if visits > n * 512 {
        assert false;
        return Incomplete, [];
      }
      RingSizes(queue[..], queued[..], head, tail, q);
      RingPop(queue[..], queued[..], head, tail, q);
      var pc := queue[head];
      ghost var queued0 := queued[..];
      queued[pc] := false;
      assert queued[..] == queued0[q[0] := false];
      head := (head + 1) % n;
      count := count - 1;
      TakeNext(p, states[..], q);
      q := q[1..];
      var s := states[pc];
      var flows := Flows(p, pc, s);
      if flows.None? {
        return Underflow, states[..];
      }
      FlowsProper(p, pc, s);
      FlowsMet(p, states[..], pc);
      tail, count, q := FlowAll(p, states, queue, queued, head, tail, count, q, Some(pc), flows.value);
      HandDown(p, states[..], q, pc, s);
    }
    AllSettled(p, states[..]);
    result := states[..];
    verdict := Complete;
  }

  lemma {:induction false} Fresh(p: Program, states: seq<Ready>, queue: seq<nat>, queued: seq<bool>)
    requires |states| == |p.ops| == |queue| == |queued| > 0
    requires forall k :: 0 <= k < |states| ==> states[k].Unseen? && !queued[k]
    ensures Progressing(p, states, [], None) && Ring(queue, queued, 0, 0, []) && Ranks(states) == 322 * |states|
  {
    RanksUnseen(states);
  }

  lemma EntriesProper(p: Program)
    ensures forall i :: 0 <= i < |Entries(p)| ==> Proper(Entries(p)[i].state) && !Entries(p)[i].state.Unseen?
  {
  }

  lemma EntriesMet(p: Program)
    ensures forall x, i :: Solution(p, x) && 0 <= i < |Entries(p)| ==> Meets(x, Entries(p)[i])
  {
  }

  lemma FlowsProper(p: Program, pc: nat, s: Ready)
    requires pc < |p.ops| && Proper(s) && !s.Unseen? && Flows(p, pc, s).Some?
    ensures forall i :: 0 <= i < |Flows(p, pc, s).value| ==>
                          Proper(Flows(p, pc, s).value[i].state) && !Flows(p, pc, s).value[i].state.Unseen?
  {
  }

  lemma TakeNext(p: Program, states: seq<Ready>, q: seq<nat>)
    requires Progressing(p, states, q, None) && q != []
    ensures Progressing(p, states, q[1..], Some(q[0])) && q[0] < |states| && !states[q[0]].Unseen?
            && Proper(states[q[0]])
    ensures |states| == |p.ops| && ProperAll(states) && Strongest(p, states)
  {
    assert q == [q[0]] + q[1..];
  }

  lemma HandDown(p: Program, states: seq<Ready>, q: seq<nat>, pc: nat, s: Ready)
    requires Progressing(p, states, q, Some(pc)) && pc < |states| && Proper(s) && !s.Unseen? && Flows(p, pc, s).Some?
    requires pc in q || (states[pc] == s && MeetsAll(states, Flows(p, pc, s).value))
    ensures Progressing(p, states, q, None)
  {
    hide Flows, Strongest;
  }

  lemma AllSettled(p: Program, states: seq<Ready>)
    requires Progressing(p, states, [], None) && MeetsAll(states, Entries(p))
    ensures Solution(p, states) && Strongest(p, states)
  {
    hide Flows, Strongest;
  }
}
