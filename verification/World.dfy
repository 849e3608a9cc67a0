/**
  Stopping the world (pkg/plan/src/gc2.c:69-126, 621-682): mutator scopes,
  blocking declarations and competing collectors as a state machine whose steps
  are the critical sections under world_mu. A condition wait is a step that is
  not enabled until its condition can be re-read with a different outcome.
 */
module World {

  /** Where a thread is: outside collect, at its retry label, waiting with the
      gate closed, or marking. */
  datatype Pc = Idle | Retry(force: bool) | Closed(force: bool) | Marking

  /** `depth` counts nested scopes; `blocks` is the scope's blocking flag. */
  datatype Thread = Thread(depth: nat, blocks: bool, pc: Pc)

  datatype State = State(threads: seq<Thread>, active: nat, blocking: nat, stopped: bool, requested: bool)

  datatype Step =
    | Enter(t: nat)
    | Leave(t: nat)
    | Block(t: nat)
    | Request
    | Collect(t: nat, force: bool)
    | Look(t: nat)      // from the retry label to a decision
    | Gate(t: nat)      // woken behind the closed gate
    | Done(t: nat)      // marked and queued: open the gate

  predicate Inside(x: Thread) {
    x.depth > 0
  }

  predicate Blocks(x: Thread) {
    x.blocks
  }

  predicate Owns(x: Thread) {
    x.pc.Closed? || x.pc.Marking?
  }

  ghost function Count(xs: seq<Thread>, f: Thread -> bool): (n: nat) {
    if xs == [] then 0 else (if f(xs[0]) then 1 else 0) + Count(xs[1..], f)
  }

  ghost predicate Enabled(s: State, step: Step) {
    match step
    case Enter(t) => t < |s.threads| && s.threads[t].pc.Idle? && (s.threads[t].depth > 0 || !s.stopped)
    case Leave(t) => t < |s.threads| && s.threads[t].depth > 0
    case Block(t) => t < |s.threads| && s.threads[t].depth > 0
    case Request => true
    case Collect(t, _) => t < |s.threads| && s.threads[t].pc.Idle? && s.threads[t].depth == 0
    case Look(t) =>
        t < |s.threads| && s.threads[t].pc.Retry? && !s.stopped && !(s.threads[t].pc.force && s.blocking > 0)
    case Gate(t) => t < |s.threads| && s.threads[t].pc.Closed? && (s.active == 0 || s.blocking > 0)
    case Done(t) => t < |s.threads| && s.threads[t].pc.Marking?
  }

  function With(s: State, t: nat, x: Thread): (r: State)
    requires t < |s.threads|
  {
    s.(threads := s.threads[t := x])
  }

  ghost function Next(s: State, step: Step): (r: State)
    requires Enabled(s, step) && Inv(s)
  {
    match step
    case Enter(t) =>
      var x := s.threads[t];
      if x.depth > 0 then With(s, t, x.(depth := x.depth + 1))
      else With(s, t, x.(depth := 1, blocks := false)).(active := s.active + 1)
    case Leave(t) =>
      var x := s.threads[t];
      CountAt(s.threads, Inside, t);
      CountAt(s.threads, Blocks, t);
      if x.depth > 1 then With(s, t, x.(depth := x.depth - 1))
      else With(s, t, x.(depth := 0, blocks := false)).(active := s.active - 1, blocking := if x.blocks then
          s.blocking - 1 else s.blocking)
    case Block(t) =>
      var x := s.threads[t];
      if x.blocks then s else With(s, t, x.(blocks := true)).(blocking := s.blocking + 1)
    case Request => s.(requested := true)
    case Collect(t, force) => With(s, t, s.threads[t].(pc := Retry(force)))
    case Look(t) =>
      var x := s.threads[t];
      if !x.pc.force && (!s.requested || s.blocking > 0) then With(s, t, x.(pc := Idle))
      else With(s, t, x.(pc := Closed(x.pc.force))).(stopped := true)
    case Gate(t) =>
      var x := s.threads[t];
      if s.blocking > 0 then With(s, t, x.(pc := if x.pc.force then Retry(true) else Idle)).(stopped := false)
      else With(s, t, x.(pc := Marking))
    case Done(t) => With(s, t, s.threads[t].(pc := Idle)).(stopped := false, requested := false)
  }

  // --------------------------------------------------------------------- counting

  lemma {:induction false} CountAt(xs: seq<Thread>, f: Thread -> bool, i: nat)
    requires i < |xs|
    ensures f(xs[i]) ==> Count(xs, f) > 0
    decreases |xs|
  {
    if i > 0 {
      CountAt(xs[1..], f, i - 1);
    }
  }

  lemma {:induction false} CountSome(xs: seq<Thread>, f: Thread -> bool) returns (i: nat)
    requires Count(xs, f) > 0
    ensures i < |xs| && f(xs[i])
    decreases |xs|
  {
    if f(xs[0]) {
      i := 0;
    } else {
      i := CountSome(xs[1..], f);
      i := i + 1;
    }
  }

  lemma {:induction false} CountUpdate(xs: seq<Thread>, f: Thread -> bool, i: nat, x: Thread)
    requires i < |xs|
    ensures Count(xs[i := x], f) == Count(xs, f) - (if f(xs[i]) then 1 else 0) + (if f(x) then 1 else 0)
    decreases |xs|
  {
    if i > 0 {
      assert xs[i := x][1..] == xs[1..][i - 1 := x];
      CountUpdate(xs[1..], f, i - 1, x);
    } else {
      assert xs[i := x][1..] == xs[1..];
    }
  }

  lemma {:induction false} CountLess(xs: seq<Thread>)
    requires forall i :: 0 <= i < |xs| && xs[i].blocks ==> xs[i].depth > 0
    ensures Count(xs, Blocks) <= Count(xs, Inside)
    decreases |xs|
  {
    if xs != [] {
      CountLess(xs[1..]);
    }
  }

  lemma {:induction false} CountOne(xs: seq<Thread>, f: Thread -> bool, i: nat, j: nat)
    requires Count(xs, f) <= 1 && i < |xs| && j < |xs| && f(xs[i]) && f(xs[j])
    ensures i == j
    decreases |xs|
  {
    if i == 0 && j > 0 {
      CountAt(xs[1..], f, j - 1);
    } else if j == 0 && i > 0 {
      CountAt(xs[1..], f, i - 1);
    } else if i > 0 {
      CountOne(xs[1..], f, i - 1, j - 1);
    }
  }

  // ------------------------------------------------------------------- the invariant

  ghost predicate Inv(s: State) {
    && s.active == Count(s.threads, Inside) && s.blocking == Count(s.threads, Blocks)
    && Count(s.threads, Owns) == (if s.stopped then 1 else 0)
    && (forall t :: 0 <= t < |s.threads| ==> ThreadOk(s, s.threads[t]))
  }

  ghost predicate ThreadOk(s: State, x: Thread) {
    (x.blocks ==> x.depth > 0) && (!x.pc.Idle? ==> x.depth == 0) && (x.pc.Marking? ==> s.active == 0)
  }

  ghost predicate Init(s: State) {
    && s.active == 0 && s.blocking == 0 && !s.stopped && !s.requested
    && forall t :: 0 <= t < |s.threads| ==> s.threads[t] == Thread(0, false, Idle)
  }

  lemma {:induction false} CountNone(xs: seq<Thread>, f: Thread -> bool)
    requires forall i :: 0 <= i < |xs| ==> !f(xs[i])
    ensures Count(xs, f) == 0
    decreases |xs|
  {
    if xs != [] {
      CountNone(xs[1..], f);
    }
  }

  lemma {:induction false} InitInv(s: State)
    requires Init(s)
    ensures Inv(s)
  {
    CountNone(s.threads, Inside);
    CountNone(s.threads, Blocks);
    CountNone(s.threads, Owns);
  }

  /** Replacing one thread changes each count by that thread alone. */
  lemma {:induction false} Counts(s: State, t: nat, x: Thread)
    requires t < |s.threads|
    ensures Count(s.threads[t := x], Inside)
            == Count(s.threads, Inside) - (if Inside(s.threads[t]) then 1 else 0) + (if Inside(x) then 1 else 0)
    ensures Count(s.threads[t := x], Blocks)
            == Count(s.threads, Blocks) - (if s.threads[t].blocks then 1 else 0) + (if x.blocks then 1 else 0)
    ensures Count(s.threads[t := x], Owns)
            == Count(s.threads, Owns) - (if Owns(s.threads[t]) then 1 else 0) + (if Owns(x) then 1 else 0)
  {
    CountUpdate(s.threads, Inside, t, x);
    CountUpdate(s.threads, Blocks, t, x);
    CountUpdate(s.threads, Owns, t, x);
  }

  /** Nobody marks unless the gate is closed, and then nobody enters. */
  lemma {:induction false} NoMarker(s: State, t: nat)
    requires Inv(s) && t < |s.threads| && s.threads[t].pc.Marking?
    ensures s.stopped && s.active == 0
  {
    CountAt(s.threads, Owns, t);
    assert ThreadOk(s, s.threads[t]);
  }

  lemma {:induction false} StepInv(s: State, step: Step)
    requires Inv(s) && Enabled(s, step)
    ensures Inv(Next(s, step))
  {
    hide Count;
    var r := Next(s, step);
    if !step.Request? {
      assert ThreadOk(s, s.threads[step.t]);
      CountLess(s.threads);
      Counts(s, step.t, r.threads[step.t]);
      assert r.threads == s.threads[step.t := r.threads[step.t]];
    }
    forall t | 0 <= t < |r.threads| ensures ThreadOk(r, r.threads[t]) {
      assert ThreadOk(s, s.threads[t]);
      if s.threads[t].pc.Marking? {
        NoMarker(s, t);
      }
      if !step.Request? && s.threads[step.t].depth > 0 {
        CountAt(s.threads, Inside, step.t);
      }
    }
  }

  ghost predicate Run(states: seq<State>, steps: seq<Step>) {
    && |states| == |steps| + 1 && Init(states[0])
    && forall i :: 0 <= i < |steps| ==> Inv(states[i]) ==>
        Enabled(states[i], steps[i]) && states[i + 1] == Next(states[i], steps[i])
  }

  lemma RunStep(states: seq<State>, steps: seq<Step>, i: nat)
    requires Run(states, steps) && i < |steps| && Inv(states[i])
    ensures Enabled(states[i], steps[i]) && states[i + 1] == Next(states[i], steps[i])
  {
    hide Inv, Enabled, Next, Init;
  }

  lemma {:induction false} RunInv(states: seq<State>, steps: seq<Step>, i: nat)
    requires Run(states, steps) && i < |states|
    ensures Inv(states[i])
    decreases i
  {
    hide Inv, Next, Enabled;
    if i == 0 {
      InitInv(states[0]);
    } else {
      RunInv(states, steps, i - 1);
      RunStep(states, steps, i - 1);
      StepInv(states[i - 1], steps[i - 1]);
    }
  }

  /** Main result: whatever the interleaving, marking happens with no scope
      active and by one collector at a time, and blocking never exceeds active. */
  lemma {:induction false} MarksAlone(states: seq<State>, steps: seq<Step>, i: nat, t: nat, u: nat)
    requires Run(states, steps) && i < |states| && t < |states[i].threads| && u < |states[i].threads|
    ensures states[i].blocking <= states[i].active
    ensures states[i].threads[t].pc.Marking? ==>
            states[i].active == 0 && states[i].threads[u].depth == 0 && states[i].stopped
    ensures states[i].threads[t].pc.Marking? && Owns(states[i].threads[u]) ==> t == u
  {
    RunInv(states, steps, i);
    var s := states[i];
    assert forall k :: 0 <= k < |s.threads| ==> ThreadOk(s, s.threads[k]);
    CountLess(s.threads);
    if s.threads[t].pc.Marking? {
      NoMarker(s, t);
      if s.threads[u].depth > 0 {
        CountAt(s.threads, Inside, u);
      }
      if Owns(s.threads[u]) {
        CountOne(s.threads, Owns, t, u);
      }
    }
  }

  /** A closed gate is never kept closed over a blocking scope: its owner is not
      marking, its next step is enabled, and that step opens the gate. */
  lemma {:induction false} BlockedGateOpens(states: seq<State>, steps: seq<Step>, i: nat) returns (t: nat)
    requires Run(states, steps) && i < |states| && states[i].stopped && states[i].blocking > 0
    ensures Inv(states[i]) && t < |states[i].threads| && states[i].threads[t].pc.Closed? && Enabled(states[i], Gate(t))
    ensures !Next(states[i], Gate(t)).stopped && !Owns(Next(states[i], Gate(t)).threads[t])
  {
    RunInv(states, steps, i);
    var s := states[i];
    assert forall k :: 0 <= k < |s.threads| ==> ThreadOk(s, s.threads[k]);
    CountLess(s.threads);
    t := CountSome(s.threads, Owns);
    assert ThreadOk(s, s.threads[t]);
  }

  /** The gate is closed only by a collector that then marks or opens it again,
      and only that collector opens it. */
  lemma {:induction false} OnlyOwnerOpens(states: seq<State>, steps: seq<Step>, i: nat, t: nat)
    requires Run(states, steps) && i < |steps| && t < |states[i].threads| && Owns(states[i].threads[t])
             && !states[i + 1].stopped
    ensures steps[i] == Gate(t) || steps[i] == Done(t)
  {
    RunInv(states, steps, i);
    RunStep(states, steps, i);
    var s := states[i];
    CountAt(s.threads, Owns, t);
    if steps[i].Gate? || steps[i].Done? {
      CountOne(s.threads, Owns, t, steps[i].t);
    }
  }

  // -------------------------------------------------------- what the fields stand for

  /** Scopes a thread has opened and not closed. */
  ghost function Opened(steps: seq<Step>, n: nat, t: nat): (r: int)
    requires n <= |steps|
  {
    if n == 0 then 0
    else
      Opened(steps, n - 1, t)
      + (if steps[n - 1] == Enter(t) then 1 else 0) - (if steps[n - 1] == Leave(t) then 1 else 0)
  }

  /** A thread's depth is the number of its open scopes. */
  lemma {:induction false} DepthCounts(states: seq<State>, steps: seq<Step>, n: nat, t: nat)
    requires Run(states, steps) && n < |states| && t < |states[n].threads|
    ensures |states[n].threads| == |states[0].threads| && states[n].threads[t].depth == Opened(steps, n, t)
    decreases n
  {
    hide Inv;
    if n > 0 {
      RunInv(states, steps, n - 1);
      RunStep(states, steps, n - 1);
      DepthCounts(states, steps, n - 1, t);
    }
  }

  /** A collection was requested and none has been done since. */
  ghost function Pending(steps: seq<Step>, n: nat): (r: bool)
    requires n <= |steps|
  {
    n > 0 && (steps[n - 1].Request? || (!steps[n - 1].Done? && Pending(steps, n - 1)))
  }

  lemma {:induction false} RequestPends(states: seq<State>, steps: seq<Step>, n: nat)
    requires Run(states, steps) && n < |states|
    ensures states[n].requested == Pending(steps, n)
    decreases n
  {
    hide Inv;
    if n > 0 {
      RunInv(states, steps, n - 1);
      RunStep(states, steps, n - 1);
      RequestPends(states, steps, n - 1);
    }
  }

  /** The thread has declared its outermost open scope blocking. */
  ghost function Declared(steps: seq<Step>, n: nat, t: nat): (r: bool)
    requires n <= |steps|
  {
    n > 0 && (if steps[n - 1] == Block(t) then true
              else if steps[n - 1] == Leave(t) then Opened(steps, n, t) > 0 && Declared(steps, n - 1, t)
              else Declared(steps, n - 1, t))
  }

  lemma {:induction false} BlocksDeclared(states: seq<State>, steps: seq<Step>, n: nat, t: nat)
    requires Run(states, steps) && n < |states| && t < |states[n].threads|
    ensures states[n].threads[t].blocks == Declared(steps, n, t)
    decreases n
  {
    hide Inv, Next, Enabled, Opened;
    if n > 0 {
      RunInv(states, steps, n - 1);
      RunStep(states, steps, n - 1);
      DepthCounts(states, steps, n, t);
      assert |states[n].threads| == |states[n - 1].threads| by { SameThreads(states, steps, n); }
      BlocksDeclared(states, steps, n - 1, t);
      BlocksStep(states[n - 1], steps[n - 1], t);
    } else {
      assert states[0].threads[t] == Thread(0, false, Idle);
    }
  }

  lemma SameThreads(states: seq<State>, steps: seq<Step>, n: nat)
    requires Run(states, steps) && 0 < n < |states|
    ensures |states[n].threads| == |states[n - 1].threads|
  {
    hide Inv;
    RunInv(states, steps, n - 1);
    RunStep(states, steps, n - 1);
  }

  lemma {:induction false} BlocksStep(s: State, step: Step, t: nat)
    requires Inv(s) && Enabled(s, step) && t < |s.threads|
    ensures t < |Next(s, step).threads|
    ensures var x, y := s.threads[t], Next(s, step).threads[t];
            y.blocks == if step == Block(t) then true
                        else if step == Leave(t) then y.depth > 0 && x.blocks else x.blocks
  {
    hide Inv;
    assert ThreadOk(s, s.threads[t]) by { AllThreads(s, t); }
  }

  lemma AllThreads(s: State, t: nat)
    requires Inv(s) && t < |s.threads|
    ensures ThreadOk(s, s.threads[t])
  {
  }

  predicate Forced(x: Thread) {
    (x.pc.Retry? || x.pc.Closed?) && x.pc.force
  }

  lemma OwnerStops(s: State, t: nat)
    requires Inv(s) && t < |s.threads| && Owns(s.threads[t])
    ensures s.stopped
  {
    CountAt(s.threads, Owns, t);
  }

  /** What a collector decides: a forced one closes the gate, any other only for a
      pending request and over no blocking scope; behind the gate it marks, unless a
      scope blocks, when it opens the gate again, to retry if it was forced. */
  lemma {:induction false} Decisions(states: seq<State>, steps: seq<Step>, n: nat, t: nat)
    requires Run(states, steps) && n < |steps| && t < |states[n].threads|
    ensures |states[n + 1].threads| == |states[n].threads|
    ensures var s, x, y := states[n], states[n].threads[t], states[n + 1].threads[t];
            && (steps[n] == Look(t) ==>
                  if Forced(x) || (Pending(steps, n) && s.blocking == 0)
                  then y.pc == Closed(Forced(x)) && states[n + 1].stopped else y.pc == Idle && !states[n + 1].stopped)
            && (steps[n] == Gate(t) ==>
                  if s.blocking == 0 then y.pc == Marking && states[n + 1].stopped
                  else y.pc == (if Forced(x) then Retry(true) else Idle) && !states[n + 1].stopped)
            && (steps[n] == Done(t) ==> y.pc == Idle && !states[n + 1].stopped)
            && (forall f :: steps[n] == Collect(t, f) ==> y.pc == Retry(f))
            && (steps[n].Enter? || steps[n].Leave? || steps[n].Block? || steps[n].Request? || steps[n].t != t ==>
                y.pc == x.pc)
  {
    hide Inv;
    RunInv(states, steps, n);
    RunStep(states, steps, n);
    RequestPends(states, steps, n);
    if Owns(states[n].threads[t]) {
      OwnerStops(states[n], t);
    }
    assert ThreadOk(states[n], states[n].threads[t]) by { AllThreads(states[n], t); }
  }
}
