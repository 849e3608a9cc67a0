/**
  Call-by-need evaluation as the bytecode sees it (pkg/plan/src/eval.c:242-259,
  1498-1560, 2078-2140): cells are thunks, blackholes or values; a primop forces
  its strict arguments in ascending order and then runs its body; a body is an
  arbitrary deterministic strategy that may demand cells it can reach, build
  thunks, emit effects, return or throw. An indirection is transparent here:
  a slot that holds a value directly is a cell that is already a value.
 */
module Thunks {

  /** A cell made by instruction `pc` of the block under study, or any other. */
  datatype Name = Old(n: nat) | Made(pc: nat)

  /** What a thunk or a direct call runs. */
  datatype Code = Prim(op: nat) | Apply | Row | Block(target: nat) | Interp(expr: nat)

  datatype Cell = Thunk(code: Code, args: seq<Name>) | Hole | Value(tag: int, fields: seq<Name>)

  datatype Event = Perform(code: Code, args: seq<Name>) | Effect(id: int)

  /** `budget` bounds the body steps still to come, so that a run that would
      not end is compared by every one of its finite prefixes. */
  datatype World = World(heap: map<Name, Cell>, next: nat, trace: seq<Event>, budget: nat)

  datatype Outcome = Done(w: World, v: Cell) | Raised(w: World, exn: int) | Spent(w: World)

  const LOOP: int := 0
  const STUCK: int := 1
  const FAULT: int := 2

  datatype Action = Return(tag: int, picks: seq<nat>) | Throw(exn: int) | Emit(id: int)
                  | Demand(which: nat) | Suspend(code: Code, picks: seq<nat>)

  datatype Seen = Got(tag: int, fields: nat) | Built | Sent

  /** The program at large: the bodies, and which arguments of a primop are strict. */
  datatype Program = Program(act: (Code, seq<Seen>) -> Action, strict: (nat, nat) -> bool)

  const UNIT: Cell := Value(0, [])

  predicate InRange(picks: seq<nat>, n: nat) {
    forall i :: 0 <= i < |picks| ==> picks[i] < n
  }

  function Pick(env: seq<Name>, picks: seq<nat>): (r: seq<Name>)
    requires InRange(picks, |env|)
  {
    seq(|picks|, i requires 0 <= i < |picks| => env[picks[i]])
  }

  /** The strict arguments of primop `op`, in ascending order (a mask has 32 bits). */
  function Strict(p: Program, op: nat, args: seq<Name>): (r: seq<Name>)
    decreases |args|
  {
    if args == [] then []
    else
      var k := |args| - 1;
      Strict(p, op, args[..k]) + if k < 32 && p.strict(op, k) then [args[k]] else []
  }

  ghost function Thunks(heap: map<Name, Cell>): set<Name> {
    set x | x in heap && heap[x].Thunk?
  }

  lemma HoleShrinks(heap: map<Name, Cell>, x: Name)
    requires x in heap && heap[x].Thunk?
    ensures Thunks(heap[x := Hole]) < Thunks(heap)
  {
    assert x in Thunks(heap) && x !in Thunks(heap[x := Hole]);
  }

  /** Force a cell to a value, updating it; an exception restores the thunk. */
  ghost function Force(p: Program, w: World, x: Name): (r: Outcome)
    ensures r.Done? ==> r.v.Value? && (r.w.budget < w.budget || r.w == w)
    ensures r.w.budget <= w.budget
    decreases w.budget, Thunks(w.heap), 0, 0
  {
    if x !in w.heap then Raised(w, STUCK)
    else
      match w.heap[x]
      case Value(_, _) => Done(w, w.heap[x])
      case Hole => Raised(w, LOOP)
      case Thunk(code, args) =>
        HoleShrinks(w.heap, x);
        match Call(p, w.(heap := w.heap[x := Hole]), code, args)
        case Done(w1, v) => Done(w1.(heap := w1.heap[x := v]), v)
        case Raised(w1, e) => Raised(w1.(heap := w1.heap[x := w.heap[x]]), e)
        case Spent(w1) => Spent(w1.(heap := w1.heap[x := w.heap[x]]))
  }

  ghost function ForceAll(p: Program, w: World, xs: seq<Name>): (r: Outcome)
    ensures r.Done? ==> r.v.Value? && (r.w.budget < w.budget || r.w == w)
    ensures r.w.budget <= w.budget
    decreases w.budget, Thunks(w.heap), 1, |xs|
  {
    if xs == [] then Done(w, UNIT)
    else
      var r := Force(p, w, xs[0]);
      if r.Done? then ForceAll(p, r.w, xs[1..]) else r
  }

  /** Enter code directly: strict arguments first, then the body. */
  ghost function Call(p: Program, w: World, code: Code, args: seq<Name>): (r: Outcome)
    ensures r.Done? ==> r.v.Value? && r.w.budget < w.budget
    ensures r.w.budget <= w.budget
    decreases w.budget, Thunks(w.heap), 2, 0
  {
    var r := if code.Prim? then ForceAll(p, w, Strict(p, code.op, args)) else Done(w, UNIT);
    if !r.Done? then r
    else if r.w.budget == 0 then Spent(r.w)
    else Act(p, r.w.(budget := r.w.budget - 1, trace := r.w.trace + [Perform(code, args)]), code, args, [])
  }

  /** The body from here on: `env` is what it can reach, `seen` what it was told. */
  ghost function Act(p: Program, w: World, code: Code, env: seq<Name>, seen: seq<Seen>): (r: Outcome)
    ensures r.Done? ==> r.v.Value?
    ensures r.w.budget <= w.budget
    decreases w.budget, Thunks(w.heap), 3, 0
  {
    match p.act(code, seen)
    case Return(tag, picks) => if InRange(picks, |env|) then Done(w, Value(tag, Pick(env, picks))) else Raised(w, STUCK)
    case Throw(e) => Raised(w, e)
    case Emit(e) =>
      if w.budget == 0 then Spent(w)
      else Act(p, w.(budget := w.budget - 1, trace := w.trace + [Effect(e)]), code, env, seen + [Sent])
    case Demand(i) =>
      if w.budget == 0 then Spent(w)
      else if i >= |env| then Raised(w, STUCK)
      else
        var r := Force(p, w.(budget := w.budget - 1), env[i]);
        if r.Done? then Act(p, r.w, code, env + r.v.fields, seen + [Got(r.v.tag, |r.v.fields|)]) else r
    case Suspend(c, picks) =>
      if w.budget == 0 then Spent(w)
      else if !InRange(picks, |env|) then Raised(w, STUCK)
      else
        Act(p, w.(heap := w.heap[Old(w.next) := Thunk(c, Pick(env, picks))], next := w.next + 1,
            budget := w.budget - 1),
            code, env + [Old(w.next)], seen + [Built])
  }

  // ------------------------------------------------------------- well-formedness

  ghost predicate AllIn(heap: map<Name, Cell>, xs: seq<Name>) {
    forall i :: 0 <= i < |xs| ==> xs[i] in heap
  }

  ghost predicate CellOk(heap: map<Name, Cell>, c: Cell) {
    match c
    case Thunk(_, args) => AllIn(heap, args)
    case Hole => true
    case Value(_, fields) => AllIn(heap, fields)
  }

  /** No dangling names, and fresh names are fresh. */
  ghost predicate Closed(w: World) {
    && (forall x :: x in w.heap ==> CellOk(w.heap, w.heap[x]))
    && (forall n: nat :: Old(n) in w.heap ==> n < w.next)
  }

  /** What evaluation keeps: cells stay, values stay as they are, and no cell
      of the block is created. */
  ghost predicate Grows(w: World, w1: World) {
    && (forall x :: x in w.heap ==> x in w1.heap)
    && (forall x :: x in w.heap && w.heap[x].Value? ==> w1.heap[x] == w.heap[x])
    && (forall x :: x in w1.heap && x.Made? ==> x in w.heap)
  }

  lemma {:induction false} StrictKnown(p: Program, op: nat, args: seq<Name>, heap: map<Name, Cell>)
    requires AllIn(heap, args)
    ensures AllIn(heap, Strict(p, op, args))
    decreases |args|
  {
    if args != [] {
      StrictKnown(p, op, args[..|args| - 1], heap);
    }
  }

  lemma KnownGrows(w: World, w1: World, xs: seq<Name>)
    requires AllIn(w.heap, xs) && Grows(w, w1)
    ensures AllIn(w1.heap, xs)
  {
  }

  /** Storing a well-formed cell under a name that is present or new. */
  lemma {:induction false} StoreClosed(w: World, x: Name, c: Cell, next: nat)
    requires Closed(w) && CellOk(w.heap, c) && w.next <= next && (x.Old? ==> x.n < next)
    ensures Closed(w.(heap := w.heap[x := c], next := next))
  {
    var w1 := w.(heap := w.heap[x := c], next := next);
    forall y | y in w1.heap ensures CellOk(w1.heap, w1.heap[y]) {
      var d := w1.heap[y];
      assert CellOk(w.heap, d);
    }
  }

  lemma {:induction false} ForceKeeps(p: Program, w: World, x: Name)
    requires Closed(w) && x in w.heap
    ensures var r := Force(p, w, x);
            Closed(r.w) && Grows(w, r.w) && (r.Done? ==> CellOk(r.w.heap, r.v) && r.w.heap[x] == r.v)
    decreases w.budget, Thunks(w.heap), 0, 0
  {
    hide Closed, Grows;
    assert CellOk(w.heap, w.heap[x]) by { ClosedAt(w, x); }
    GrowsRefl(w);
    if w.heap[x].Thunk? {
      HoleShrinks(w.heap, x);
      var w0 := w.(heap := w.heap[x := Hole]);
      assert x.Old? ==> x.n < w.next by { ClosedNext(w); }
      StoreClosed(w, x, Hole, w.next);
      assert w0 == w.(heap := w.heap[x := Hole], next := w.next);
      CallKeeps(p, w0, w.heap[x].code, w.heap[x].args);
      var r := Call(p, w0, w.heap[x].code, w.heap[x].args);
      Restore(w, w0, r.w, x, if r.Done? then r.v else w.heap[x]);
    }
  }

  lemma ClosedAt(w: World, x: Name)
    requires Closed(w) && x in w.heap
    ensures CellOk(w.heap, w.heap[x])
  {
  }

  lemma ClosedNext(w: World)
    requires Closed(w)
    ensures forall n: nat :: Old(n) in w.heap ==> n < w.next
  {
  }

  lemma GrowsRefl(w: World)
    ensures Grows(w, w)
  {
  }

  lemma GrowsTrans(a: World, b: World, c: World)
    requires Grows(a, b) && Grows(b, c)
    ensures Grows(a, c)
  {
  }

  lemma {:induction false} Restore(w: World, w0: World, w1: World, x: Name, c: Cell)
    requires Closed(w1) && Grows(w0, w1) && x in w.heap && w.heap[x].Thunk? && w0 == w.(heap := w.heap[x := Hole])
    requires CellOk(w.heap, c) || CellOk(w1.heap, c)
    ensures var w2 := w1.(heap := w1.heap[x := c]); Closed(w2) && Grows(w, w2) && CellOk(w2.heap, c)
  {
    assert CellOk(w1.heap, c);
    assert w1.(heap := w1.heap[x := c]) == w1.(heap := w1.heap[x := c], next := w1.next);
    assert x in w0.heap && x in w1.heap;
    StoreClosed(w1, x, c, w1.next);
  }

  lemma {:induction false} ForceAllKeeps(p: Program, w: World, xs: seq<Name>)
    requires Closed(w) && AllIn(w.heap, xs)
    ensures var r := ForceAll(p, w, xs); Closed(r.w) && Grows(w, r.w)
    decreases w.budget, Thunks(w.heap), 1, |xs|
  {
    hide Closed, Grows;
    GrowsRefl(w);
    if xs != [] {
      ForceKeeps(p, w, xs[0]);
      var r := Force(p, w, xs[0]);
      if r.Done? {
        KnownGrows(w, r.w, xs);
        ForceAllKeeps(p, r.w, xs[1..]);
        GrowsTrans(w, r.w, ForceAll(p, r.w, xs[1..]).w);
      }
    }
  }

  lemma {:induction false} CallKeeps(p: Program, w: World, code: Code, args: seq<Name>)
    requires Closed(w) && AllIn(w.heap, args)
    ensures var r := Call(p, w, code, args); Closed(r.w) && Grows(w, r.w) && (r.Done? ==> CellOk(r.w.heap, r.v))
    decreases w.budget, Thunks(w.heap), 2, 0
  {
    hide Grows;
    GrowsRefl(w);
    var r := Done(w, UNIT);
    if code.Prim? {
      StrictKnown(p, code.op, args, w.heap);
      ForceAllKeeps(p, w, Strict(p, code.op, args));
      r := ForceAll(p, w, Strict(p, code.op, args));
    }
    if r.Done? && r.w.budget > 0 {
      KnownGrows(w, r.w, args);
      var w1 := r.w.(budget := r.w.budget - 1, trace := r.w.trace + [Perform(code, args)]);
      ActKeeps(p, w1, code, args, []);
      assert Grows(r.w, w1) by { SameHeapGrows(r.w, w1); }
      GrowsTrans(w, r.w, w1);
      GrowsTrans(w, w1, Act(p, w1, code, args, []).w);
    }
  }

  lemma SameHeapGrows(w: World, w1: World)
    requires w.heap == w1.heap
    ensures Grows(w, w1)
  {
  }

  lemma {:induction false} ActKeeps(p: Program, w: World, code: Code, env: seq<Name>, seen: seq<Seen>)
    requires Closed(w) && AllIn(w.heap, env)
    ensures var r := Act(p, w, code, env, seen); Closed(r.w) && Grows(w, r.w) && (r.Done? ==> CellOk(r.w.heap, r.v))
    decreases w.budget, Thunks(w.heap), 3, 0
  {
    hide Grows;
    GrowsRefl(w);
    match p.act(code, seen)
    case Return(tag, picks) =>
    case Throw(e) =>
    case Emit(e) =>
      if w.budget > 0 {
        var w1 := w.(budget := w.budget - 1, trace := w.trace + [Effect(e)]);
        SameHeapGrows(w, w1);
        ActKeeps(p, w1, code, env, seen + [Sent]);
        GrowsTrans(w, w1, Act(p, w1, code, env, seen + [Sent]).w);
      }
    case Demand(i) =>
      if w.budget > 0 && i < |env| {
        var w1 := w.(budget := w.budget - 1);
        SameHeapGrows(w, w1);
        ForceKeeps(p, w1, env[i]);
        var r := Force(p, w1, env[i]);
        GrowsTrans(w, w1, r.w);
        if r.Done? {
          KnownGrows(w, r.w, env);
          ActKeeps(p, r.w, code, env + r.v.fields, seen + [Got(r.v.tag, |r.v.fields|)]);
          GrowsTrans(w, r.w, Act(p, r.w, code, env + r.v.fields, seen + [Got(r.v.tag, |r.v.fields|)]).w);
        }
      }
    case Suspend(c, picks) =>
      if w.budget > 0 && InRange(picks, |env|) {
        var w1 :=
            w.(heap := w.heap[Old(w.next) := Thunk(c, Pick(env, picks))], next := w.next + 1, budget := w.budget - 1);
        StoreClosed(w, Old(w.next), Thunk(c, Pick(env, picks)), w.next + 1);
        StoreGrows(w, w1, Old(w.next));
        KnownGrows(w, w1, env);
        ActKeeps(p, w1, code, env + [Old(w.next)], seen + [Built]);
        GrowsTrans(w, w1, Act(p, w1, code, env + [Old(w.next)], seen + [Built]).w);
      }
  }

  lemma StoreGrows(w: World, w1: World, x: Name)
    requires x !in w.heap && x.Old? && x in w1.heap && w1.heap == w.heap[x := w1.heap[x]]
    ensures Grows(w, w1)
  {
  }

  // ----------------------------------------------------------------- the frame rule

  ghost function Plus(w: World, extra: map<Name, Cell>): World {
    w.(heap := w.heap + extra)
  }

  ghost function PlusO(r: Outcome, extra: map<Name, Cell>): Outcome {
    match r
    case Done(w, v) => Done(Plus(w, extra), v)
    case Raised(w, e) => Raised(Plus(w, extra), e)
    case Spent(w) => Spent(Plus(w, extra))
  }

  /** Cells of the block that `w` does not know. */
  ghost predicate Apart(w: World, extra: map<Name, Cell>) {
    forall x :: x in extra ==> x.Made? && x !in w.heap
  }

  lemma ApartGrows(w: World, w1: World, extra: map<Name, Cell>)
    requires Apart(w, extra) && Grows(w, w1)
    ensures Apart(w1, extra)
  {
  }

  /** Evaluation cannot see cells it has no path to, and leaves them alone. */
  lemma {:induction false} ForceFrame(p: Program, w: World, x: Name, extra: map<Name, Cell>)
    requires Closed(w) && x in w.heap && Apart(w, extra)
    ensures Force(p, Plus(w, extra), x) == PlusO(Force(p, w, x), extra)
    decreases w.budget, Thunks(w.heap), 0, 0
  {
    hide Closed, Grows;
    assert CellOk(w.heap, w.heap[x]) by { ClosedAt(w, x); }
    if w.heap[x].Thunk? {
      HoleShrinks(w.heap, x);
      var w0 := w.(heap := w.heap[x := Hole]);
      var code, args := w.heap[x].code, w.heap[x].args;
      assert x.Old? ==> x.n < w.next by { ClosedNext(w); }
      StoreClosed(w, x, Hole, w.next);
      assert w0 == w.(heap := w.heap[x := Hole], next := w.next);
      CallFrame(p, w0, code, args, extra);
      CallKeeps(p, w0, code, args);
      var r := Call(p, w0, code, args);
      assert Plus(w, extra).heap[x := Hole] == Plus(w0, extra).heap;
      PlusStore(r.w, extra, x, if r.Done? then r.v else w.heap[x]) by {
        ApartGrows(w0, r.w, extra);
      }
    }
  }

  lemma PlusStore(w: World, extra: map<Name, Cell>, x: Name, c: Cell)
    requires x !in extra
    ensures Plus(w, extra).heap[x := c] == Plus(w.(heap := w.heap[x := c]), extra).heap
  {
  }

  lemma {:induction false} ForceAllFrame(p: Program, w: World, xs: seq<Name>, extra: map<Name, Cell>)
    requires Closed(w) && AllIn(w.heap, xs) && Apart(w, extra)
    ensures ForceAll(p, Plus(w, extra), xs) == PlusO(ForceAll(p, w, xs), extra)
    decreases w.budget, Thunks(w.heap), 1, |xs|
  {
    hide Closed, Grows;
    if xs != [] {
      ForceFrame(p, w, xs[0], extra);
      ForceKeeps(p, w, xs[0]);
      var r := Force(p, w, xs[0]);
      if r.Done? {
        KnownGrows(w, r.w, xs);
        ApartGrows(w, r.w, extra);
        ForceAllFrame(p, r.w, xs[1..], extra);
      }
    }
  }

  lemma SameHeapFrame(w: World, w1: World, extra: map<Name, Cell>)
    requires Closed(w) && Apart(w, extra) && w.heap == w1.heap && w.next == w1.next
    ensures Closed(w1) && Apart(w1, extra)
  {
  }

  lemma {:induction false} CallFrame(p: Program, w: World, code: Code, args: seq<Name>, extra: map<Name, Cell>)
    requires Closed(w) && AllIn(w.heap, args) && Apart(w, extra)
    ensures Call(p, Plus(w, extra), code, args) == PlusO(Call(p, w, code, args), extra)
    decreases w.budget, Thunks(w.heap), 2, 0
  {
    hide Grows, Closed, Apart, Force, ForceAll, Act, Strict, Thunks;
    GrowsRefl(w);
    var r := Done(w, UNIT);
    if code.Prim? {
      StrictKnown(p, code.op, args, w.heap);
      ForceAllFrame(p, w, Strict(p, code.op, args), extra);
      ForceAllKeeps(p, w, Strict(p, code.op, args));
      r := ForceAll(p, w, Strict(p, code.op, args));
    }
    if r.Done? && r.w.budget > 0 {
      KnownGrows(w, r.w, args);
      ApartGrows(w, r.w, extra);
      var w1 := r.w.(budget := r.w.budget - 1, trace := r.w.trace + [Perform(code, args)]);
      SameHeapFrame(r.w, w1, extra);
      ActFrame(p, w1, code, args, [], extra);
    }
  }

  lemma PlusParts(w: World, extra: map<Name, Cell>)
    ensures Plus(w, extra).next == w.next && Plus(w, extra).trace == w.trace && Plus(w, extra).budget == w.budget
  {
  }

  lemma PlusAgain(w: World, w1: World, extra: map<Name, Cell>)
    requires w1.heap == w.heap && w1.next == w.next
    ensures Plus(w, extra).(budget := w1.budget, trace := w1.trace) == Plus(w1, extra)
  {
  }

  lemma {:induction false} ActFrame(p: Program, w: World, code: Code, env: seq<Name>, seen: seq<Seen>,
                                    extra: map<Name, Cell>)
    requires Closed(w) && AllIn(w.heap, env) && Apart(w, extra)
    ensures Act(p, Plus(w, extra), code, env, seen) == PlusO(Act(p, w, code, env, seen), extra)
    decreases w.budget, Thunks(w.heap), 4, 0
  {
    hide Grows, Closed, Apart, Force, Thunks, AllIn;
    match p.act(code, seen)
    case Return(tag, picks) =>
    case Throw(e) =>
    case Emit(e) => EmitFrame(p, w, code, env, seen, extra, e);
    case Demand(i) => ActDemandFrame(p, w, code, env, seen, extra, i);
    case Suspend(c, picks) => ActSuspendFrame(p, w, code, env, seen, extra, c, picks);
  }

  lemma {:induction false} EmitFrame(p: Program, w: World, code: Code, env: seq<Name>, seen: seq<Seen>,
                                     extra: map<Name, Cell>, e: int)
    requires Closed(w) && AllIn(w.heap, env) && Apart(w, extra) && p.act(code, seen) == Emit(e)
    ensures Act(p, Plus(w, extra), code, env, seen) == PlusO(Act(p, w, code, env, seen), extra)
    decreases w.budget, Thunks(w.heap), 3, 0
  {
    hide Grows, Closed, Apart, Force, Thunks, AllIn, Pick, InRange, Plus;
    PlusParts(w, extra);
    if w.budget > 0 {
      var w1 := w.(budget := w.budget - 1, trace := w.trace + [Effect(e)]);
      SameHeapFrame(w, w1, extra);
      PlusAgain(w, w1, extra);
      ActFrame(p, w1, code, env, seen + [Sent], extra);
    }
  }

  lemma {:induction false} ActDemandFrame(p: Program, w: World, code: Code, env: seq<Name>, seen: seq<Seen>,
                                          extra: map<Name, Cell>, i: nat)
    requires Closed(w) && AllIn(w.heap, env) && Apart(w, extra) && p.act(code, seen) == Demand(i)
    ensures Act(p, Plus(w, extra), code, env, seen) == PlusO(Act(p, w, code, env, seen), extra)
    decreases w.budget, Thunks(w.heap), 3, 0
  {
    hide Grows, Closed, Apart, Force, Thunks, AllIn, Pick, InRange, Plus;
    PlusParts(w, extra);
    if w.budget > 0 && i < |env| {
      var w1 := w.(budget := w.budget - 1);
      SameHeapFrame(w, w1, extra);
      PlusAgain(w, w1, extra);
      var r := Force(p, w1, env[i]);
      DemandFrame(p, w1, env, i, extra);
      if r.Done? {
        ActFrame(p, r.w, code, env + r.v.fields, seen + [Got(r.v.tag, |r.v.fields|)], extra);
      }
    }
  }

  lemma {:induction false} ActSuspendFrame(p: Program, w: World, code: Code, env: seq<Name>, seen: seq<Seen>,
                                           extra: map<Name, Cell>,
                                           c: Code, picks: seq<nat>)
    requires Closed(w) && AllIn(w.heap, env) && Apart(w, extra) && p.act(code, seen) == Suspend(c, picks)
    ensures Act(p, Plus(w, extra), code, env, seen) == PlusO(Act(p, w, code, env, seen), extra)
    decreases w.budget, Thunks(w.heap), 3, 0
  {
    hide Grows, Closed, Apart, Force, Thunks, AllIn, Pick, InRange, Plus;
    PlusParts(w, extra);
    if w.budget > 0 && InRange(picks, |env|) {
      var x, cell := Old(w.next), Thunk(c, Pick(env, picks));
      var w1 := w.(heap := w.heap[x := cell], next := w.next + 1, budget := w.budget - 1);
      SuspendFrame(w, w1, env, c, picks, extra);
      PlusParts(w1, extra);
      ActFrame(p, w1, code, env + [x], seen + [Built], extra);
    }
  }

  lemma {:induction false} DemandFrame(p: Program, w: World, env: seq<Name>, i: nat, extra: map<Name, Cell>)
    requires Closed(w) && AllIn(w.heap, env) && Apart(w, extra) && i < |env|
    ensures var r := Force(p, w, env[i]);
            && Force(p, Plus(w, extra), env[i]) == PlusO(r, extra)
            && (r.Done? ==> Closed(r.w) && Apart(r.w, extra) && AllIn(r.w.heap, env + r.v.fields))
    decreases w.budget, Thunks(w.heap), 3, 0
  {
    hide Grows, Closed, Apart, Force, Thunks;
    ForceFrame(p, w, env[i], extra);
    ForceKeeps(p, w, env[i]);
    var r := Force(p, w, env[i]);
    if r.Done? {
      KnownGrows(w, r.w, env);
      ApartGrows(w, r.w, extra);
    }
  }

  lemma {:induction false} SuspendFrame(w: World, w1: World, env: seq<Name>, c: Code, picks: seq<nat>,
                                        extra: map<Name, Cell>)
    requires Closed(w) && AllIn(w.heap, env) && Apart(w, extra) && w.budget > 0 && InRange(picks, |env|)
    requires w1
             == w.(heap := w.heap[Old(w.next) := Thunk(c, Pick(env, picks))], next := w.next + 1,
             budget := w.budget - 1)
    ensures Closed(w1) && Apart(w1, extra) && AllIn(w1.heap, env + [Old(w.next)])
    ensures Plus(w, extra).heap[Old(w.next) := Thunk(c, Pick(env, picks))] == Plus(w1, extra).heap
  {
    hide Grows;
    var x, cell := Old(w.next), Thunk(c, Pick(env, picks));
    assert CellOk(w.heap, cell);
    StoreClosed(w, x, cell, w.next + 1);
    StoreGrows(w, w1, x);
    KnownGrows(w, w1, env);
    assert x !in extra;
    PlusStore(w, extra, x, cell);
  }

  // --------------------------------------------------------- evaluation that is free

  /** Forcing values does nothing. */
  lemma {:induction false} ForceAllValues(p: Program, w: World, xs: seq<Name>)
    requires forall i :: 0 <= i < |xs| ==> xs[i] in w.heap && w.heap[xs[i]].Value?
    ensures ForceAll(p, w, xs) == Done(w, UNIT)
    decreases |xs|
  {
    if xs != [] {
      ForceAllValues(p, w, xs[1..]);
    }
  }

  lemma {:induction false} ForceAllSplit(p: Program, w: World, xs: seq<Name>, ys: seq<Name>)
    ensures var r := ForceAll(p, w, xs);
            ForceAll(p, w, xs + ys) == if r.Done? then ForceAll(p, r.w, ys) else r
    decreases |xs|
  {
    if xs == [] {
      assert xs + ys == ys;
    } else {
      assert (xs + ys)[0] == xs[0] && (xs + ys)[1..] == xs[1..] + ys;
      var r := Force(p, w, xs[0]);
      if r.Done? {
        ForceAllSplit(p, r.w, xs[1..], ys);
      }
    }
  }

  /** A run that has not spent its budget on a body can only have met a blackhole. */
  lemma {:induction false} ForceCheap(p: Program, w: World, x: Name)
    requires Closed(w) && x in w.heap && Force(p, w, x).w.budget == w.budget
    ensures var r := Force(p, w, x); (r.Raised? ==> r.exn == LOOP) && r.w.trace == w.trace
    decreases w.budget, Thunks(w.heap), 0, 0
  {
    assert CellOk(w.heap, w.heap[x]);
    if w.heap[x].Thunk? {
      HoleShrinks(w.heap, x);
      StoreClosed(w, x, Hole, w.next);
      var w0 := w.(heap := w.heap[x := Hole]);
      assert w0 == w.(heap := w.heap[x := Hole], next := w.next);
      CallCheap(p, w0, w.heap[x].code, w.heap[x].args);
    }
  }

  lemma {:induction false} ForceAllCheap(p: Program, w: World, xs: seq<Name>)
    requires Closed(w) && AllIn(w.heap, xs) && ForceAll(p, w, xs).w.budget == w.budget
    ensures var r := ForceAll(p, w, xs); (r.Raised? ==> r.exn == LOOP) && r.w.trace == w.trace
    decreases w.budget, Thunks(w.heap), 1, |xs|
  {
    hide Closed;
    if xs != [] {
      var r := Force(p, w, xs[0]);
      if r.Done? {
        assert r.w == w;
        ForceAllCheap(p, w, xs[1..]);
      } else {
        ForceCheap(p, w, xs[0]);
      }
    }
  }

  lemma {:induction false} CallCheap(p: Program, w: World, code: Code, args: seq<Name>)
    requires Closed(w) && AllIn(w.heap, args) && Call(p, w, code, args).w.budget == w.budget
    ensures var r := Call(p, w, code, args); !r.Done? && (r.Raised? ==> r.exn == LOOP) && r.w.trace == w.trace
    decreases w.budget, Thunks(w.heap), 2, 0
  {
    if code.Prim? {
      StrictKnown(p, code.op, args, w.heap);
      var r := ForceAll(p, w, Strict(p, code.op, args));
      if r.w.budget == w.budget {
        ForceAllCheap(p, w, Strict(p, code.op, args));
      }
    }
  }
}
