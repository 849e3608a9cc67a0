/**
  Whole activations (pkg/plan/src/eval.c:1135-1150, 1335-1420): block after block, along
  branches, jumps, tail blocks and falls into the next block, until the activation
  returns, leaves or fails. The cells a block made become ordinary cells at its end.
 */
module EagerRuns {
  import opened Basics
  import opened Thunks
  import opened Bytecode
  import opened EagerBlocks
  import opened EagerPass

  // ------------------------------------------------------------ cells that outlive a block

  function Rename(x: Name, base: nat): (y: Name) {
    match x
    case Old(_) => x
    case Made(pc) => Old(base + pc)
  }

  function RenameAll(xs: seq<Name>, base: nat): (ys: seq<Name>)
    ensures |ys| == |xs|
  {
    seq(|xs|, i requires 0 <= i < |xs| => Rename(xs[i], base))
  }

  function RenameCell(c: Cell, base: nat): (r: Cell) {
    match c
    case Thunk(code, args) => Thunk(code, RenameAll(args, base))
    case Hole => Hole
    case Value(tag, fields) => Value(tag, RenameAll(fields, base))
  }

  /** Where a renamed cell came from. */
  function Origin(y: Name, base: nat): (x: Name) {
    if y.Old? && y.n >= base then Made(y.n - base) else y
  }

  lemma OriginRename(x: Name, base: nat)
    requires x.Old? ==> x.n < base
    ensures Origin(Rename(x, base), base) == x
  {
  }

  ghost function Names(w: World): (r: set<Name>) {
    set x | x in w.heap :: Rename(x, w.next)
  }

  /** The world after a block of code of this size, without block names. */
  ghost function Aged(w: World, size: nat): (r: World)
    requires Closed(w)
  {
    var heap := map y | y in Names(w) && Origin(y, w.next) in w.heap :: RenameCell(w.heap[Origin(y, w.next)], w.next);
    World(heap, w.next + size, w.trace, w.budget)
  }

  lemma {:induction false} AgedAt(w: World, size: nat, x: Name)
    requires Closed(w) && x in w.heap
    ensures var r := Aged(w, size);
            Rename(x, w.next) in r.heap && r.heap[Rename(x, w.next)] == RenameCell(w.heap[x], w.next)
  {
    OriginRename(x, w.next);
  }

  lemma {:induction false} AgedFrom(w: World, size: nat, y: Name)
    requires Closed(w) && y in Aged(w, size).heap
    ensures var x := Origin(y, w.next);
            x in w.heap && y == Rename(x, w.next) && y.Old? && Aged(w, size).heap[y] == RenameCell(w.heap[x], w.next)
  {
    var x :| x in w.heap && y == Rename(x, w.next);
    OriginRename(x, w.next);
  }

  lemma {:induction false} AgedAll(w: World, size: nat, xs: seq<Name>)
    requires Closed(w) && AllIn(w.heap, xs)
    ensures AllIn(Aged(w, size).heap, RenameAll(xs, w.next))
  {
    forall i | 0 <= i < |xs| ensures RenameAll(xs, w.next)[i] in Aged(w, size).heap {
      AgedAt(w, size, xs[i]);
    }
  }

  lemma {:induction false} AgedClosed(w: World, size: nat)
    requires Closed(w) && forall x :: x in w.heap && x.Made? ==> x.pc < size
    ensures Closed(Aged(w, size)) && forall y :: y in Aged(w, size).heap ==> y.Old?
  {
    var r := Aged(w, size);
    forall y | y in r.heap ensures CellOk(r.heap, r.heap[y]) && y.Old? && y.n < r.next {
      AgedFrom(w, size, y);
      var c := w.heap[Origin(y, w.next)];
      assert CellOk(w.heap, c);
      if c.Thunk? {
        AgedAll(w, size, c.args);
      } else if c.Value? {
        AgedAll(w, size, c.fields);
      }
    }
  }

  lemma AgedValue(w: World, size: nat, x: Name)
    requires Closed(w) && x in w.heap
    ensures IsValue(Aged(w, size).heap, Rename(x, w.next)) <==> IsValue(w.heap, x)
  {
    AgedAt(w, size, x);
  }

  // -------------------------------------------------------------------- the machine

  /** What an activation has for its whole life: the program's bodies, its variables
      and literals, and how a branch picks an arm by the cell it looks at. */
  datatype Setting = Setting(p: Program, vars: seq<Name>, lits: nat -> Name, pick: (Cell, nat) -> Option<nat>)

  /** In front of a block, or over: returned, left, failed or out of budget. */
  datatype Conf = In(pc: nat, stack: seq<Name>, w: World) | Stop(s: State)

  ghost function StartOf(e: Setting, c: Conf): (s: Start)
    requires c.In?
  {
    Start(c.stack, e.vars, e.lits, c.w)
  }

  /** Names exist and none is a block's own. */
  ghost predicate Good(e: Setting, c: Conf) {
    c.In? ==> Sound(StartOf(e, c))
  }

  /** Where the block that begins at `b` ends. */
  ghost function BlockEnd(leads: seq<bool>, b: nat): (r: nat)
    requires b < |leads|
    ensures b < r <= |leads| && (r == |leads| || leads[r]) && forall k :: b < k < r ==> !leads[k]
    decreases |leads| - b
  {
    if b + 1 == |leads| || leads[b + 1] then b + 1 else BlockEnd(leads, b + 1)
  }

  /** Where control goes behind the block that ended in front of `r`. */
  ghost function Onto(e: Setting, code: seq<Instr>, r: nat, stack: seq<Name>, w: World): (c: Option<(nat, seq<Name>)>)
    requires 0 < r <= |code|
    ensures c.Some? ==> c.value.0 < |code| && forall k :: 0 <= k < |c.value.1| ==> c.value.1[k] in stack
  {
    match code[r - 1]
    case Jmp(t) => if t < |code| then Some((t, stack)) else None
    case TailBlk(t, n) => if n <= |stack| && t < |code| then Some((t, stack[|stack| - n..])) else None
    case Br(ts) =>
      if stack == [] || stack[|stack| - 1] !in w.heap then None
      else
        (match e.pick(w.heap[stack[|stack| - 1]], |ts|)
         case None => None
         case Some(k) => if k < |ts| && ts[k] < |code| then Some((ts[k], stack[..|stack| - 1])) else None)
    case _ => if Ends(code[r - 1]) || r == |code| then None else Some((r, stack))
  }

  /** One block. */
  ghost function Proceed(e: Setting, code: seq<Instr>, leads: seq<bool>, c: Conf): (d: Conf)
    requires |leads| == |code| && Good(e, c)
    ensures Good(e, d)
  {
    if c.Stop? then c
    else if c.pc >= |code| then Stop(At(c.stack, c.w))
    else
      var r := BlockEnd(leads, c.pc);
      var x := Exec(e.p, StartOf(e, c), code, c.pc, r);
      if !x.At? then Stop(x)
      else
        ExecInside(e.p, StartOf(e, c), code, c.pc, r);
        match Onto(e, code, r, x.stack, x.w)
        case None => Stop(x)
        case Some((pc, stack)) =>
          AgedSound(e, StartOf(e, c), x.stack, x.w, r, |code|, stack);
          In(pc, RenameAll(stack, x.w.next), Aged(x.w, |code|))
  }

  lemma {:induction false} AgedSound(e: Setting, s: Start, stack: seq<Name>, w: World, r: nat, size: nat,
                                     kept: seq<Name>)
    requires Sound(s) && Inside(s, stack, w, r) && r <= size && s.env == e.vars && s.lits == e.lits
    requires forall k :: 0 <= k < |kept| ==> kept[k] in stack
    ensures Sound(Start(RenameAll(kept, w.next), e.vars, e.lits, Aged(w, size)))
  {
    hide Closed, Aged;
    AgedClosed(w, size);
    assert AllIn(w.heap, kept);
    AgedAll(w, size, kept);
    forall i | 0 <= i < |e.vars| ensures e.vars[i] in Aged(w, size).heap {
      AgedAt(w, size, e.vars[i]);
    }
    forall l ensures e.lits(l) in Aged(w, size).heap {
      AgedAt(w, size, e.lits(l));
    }
  }

  /** `n` blocks, or as many as there are. */
  ghost function Steps(e: Setting, code: seq<Instr>, leads: seq<bool>, c: Conf, n: nat): (d: Conf)
    requires |leads| == |code| && Good(e, c)
    ensures Good(e, d)
    decreases n
  {
    if n == 0 then c else Proceed(e, code, leads, Steps(e, code, leads, c, n - 1))
  }

  /** The same place with the same cells, or the same end. */
  ghost predicate Twin(c: Conf, d: Conf) {
    if c.In? then d == c else d.Stop? && Same(c.s, d.s)
  }

  lemma TwinRefl(c: Conf)
    ensures Twin(c, c)
  {
    if c.Stop? {
      SameRefl(c.s);
    }
  }

  lemma TwinTrans(a: Conf, b: Conf, c: Conf)
    requires Twin(a, b) && Twin(b, c)
    ensures Twin(a, c)
  {
    if a.Stop? {
      SameTrans(a.s, b.s, c.s);
    }
  }

  /** Blocks that do the same lead to the same place. */
  lemma {:induction false} ProceedTwin(e: Setting, code: seq<Instr>, code1: seq<Instr>, leads: seq<bool>, c: Conf)
    requires |leads| == |code| == |code1| && Good(e, c) && c.In? && c.pc < |code|
    requires var r := BlockEnd(leads, c.pc);
             && Same(Exec(e.p, StartOf(e, c), code, c.pc, r), Exec(e.p, StartOf(e, c), code1, c.pc, r))
             && (code1[r - 1] == code[r - 1] || (!Ends(code[r - 1]) && !Ends(code1[r - 1])))
    ensures Twin(Proceed(e, code, leads, c), Proceed(e, code1, leads, c))
  {
    hide Exec, Aged, RenameAll, Good, Sound, BlockEnd;
    var r := BlockEnd(leads, c.pc);
    var x := Exec(e.p, StartOf(e, c), code, c.pc, r);
    if x.At? {
      OntoSame(e, code, code1, r, x.stack, x.w);
      SameRefl(x);
    }
  }

  lemma OntoSame(e: Setting, code: seq<Instr>, code1: seq<Instr>, r: nat, stack: seq<Name>, w: World)
    requires 0 < r <= |code| == |code1| && (code1[r - 1] == code[r - 1] || (!Ends(code[r - 1]) && !Ends(code1[r - 1])))
    ensures Onto(e, code, r, stack, w) == Onto(e, code1, r, stack, w)
  {
  }
}
