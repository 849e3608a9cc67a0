/**
  What the multi-threaded executor promises beyond safety (pkg/enki/src/actor.c:213-256,
  760-1080): queued actors are taken in the order they were queued, an actor that has done
  an effect stays with one worker until it ends, threads are started only when no spare is
  left, and actors end only as they chose to.
 */
module ExecutorOrder {
  import opened Basics
  import opened Executor

  // ------------------------------------------------------------------------ one step

  /** How an actor ended, if it has. */
  ghost function Fate(x: Actor): (r: Status) {
    if Terminal(x) then x.status else Runnable
  }

  /** The queue only grows at its tail, no thread is started, and actor `a` keeps its
      worker and its fate. */
  ghost predicate Steady(s: State, r: State, a: nat) {
    && |s.actors| <= |r.actors| && s.queue <= r.queue && |r.workers| == |s.workers| && r.width == s.width
    && (a < |s.actors| ==> r.actors[a].owner == s.actors[a].owner && Fate(r.actors[a]) == Fate(s.actors[a]))
    && (|s.actors| <= a < |r.actors| ==> r.actors[a].owner.None? && !Terminal(r.actors[a]))
  }

  lemma EnqueueSteady(s: State, x: nat, a: nat)
    requires x < |s.actors|
    ensures Steady(s, Enqueue(s, x), a) && |Enqueue(s, x).actors| == |s.actors|
  {
  }

  lemma AwakenSteady(s: State, x: nat, a: nat)
    requires x < |s.actors| && !Terminal(s.actors[x])
    ensures Steady(s, Awaken(s, x), a) && |Awaken(s, x).actors| == |s.actors|
  {
    hide Enqueue;
    EnqueueSteady(SetActor(s, x, s.actors[x].(status := Runnable, parked := false)), x, a);
  }

  lemma DeliverSteady(s: State, to: nat, a: nat)
    requires to < |s.actors|
    ensures Steady(s, Deliver(s, to), a) && |Deliver(s, to).actors| == |s.actors|
  {
    hide Awaken;
    if s.actors[to].status.Blocked? && !s.actors[to].parked {
      AwakenSteady(s, to, a);
    }
  }

  lemma {:induction false} CompleteSteady(s: State, x: nat, f: Finish, a: nat)
    requires x < |s.actors| && s.actors[x].status.Runnable? && (f.SendTo? ==> f.to < |s.actors|)
    ensures var r := Complete(s, x, f);
            if f.Stop? && a == x then
              && |r.actors| == |s.actors| && r.queue == s.queue && |r.workers| == |s.workers| && r.width == s.width
              && r.actors[a].owner == s.actors[a].owner && r.actors[a].status == if f.crashed then Crashed else Halted
            else Steady(s, r, a)
  {
    hide Enqueue, Deliver;
    EnqueueSteady(s, x, a);
    match f
    case Receive =>
      if s.actors[x].mail > 0 {
        EnqueueSteady(SetActor(s, x, s.actors[x].(mail := s.actors[x].mail - 1)), x, a);
      }
    case SendTo(to) =>
      DeliverSteady(s, to, a);
      EnqueueSteady(Deliver(s, to), x, a);
    case SpawnChild =>
      EnqueueSteady(s.(actors := s.actors + [Actor(Runnable, 0, false, false, None, Queued)],
                       queue := s.queue + [|s.actors|]), x, a);
    case _ =>
  }

  /** Binding an actor changes nobody's fate and no other's worker, and starts a thread
      exactly when there is no spare one. */
  lemma {:induction false} BindSteady(s: State, w: nat, x: nat, a: nat)
    requires w < |s.workers| && x < |s.actors| && s.generals > 0 && s.workers[w].role.General?
    ensures var r := Bind(s, w, x);
            && |r.actors| == |s.actors| && r.queue == s.queue && r.width == s.width
            && (a < |s.actors| ==> Fate(r.actors[a]) == Fate(s.actors[a]))
            && (a < |s.actors| ==> r.actors[a].owner == if a == x then Some(w) else s.actors[a].owner)
            && Holds(r.workers[w].pc) == Holds(s.workers[w].pc)
            && (if |r.workers| == |s.workers| then true
                else |r.workers| == |s.workers| + 1 && NoSpare(r.workers))
  {
  }

  ghost predicate NoSpare(ws: seq<Worker>) {
    forall i :: 0 <= i < |ws| ==> !ws[i].role.Spare?
  }

  /** Who is bound in a step: whoever reaches an effect, and an effectful actor when it is
      taken from the queue. */
  ghost predicate Binds(s: State, t: Step, w: nat, a: nat) {
    || (t == EffectIn(w) && w < |s.workers| && Holds(s.workers[w].pc) == Some(a))
    || (t == TakeQueued(w) && s.queue != [] && s.queue[0] == a && a < |s.actors| && s.actors[a].effectful)
  }

  /** Whose code stops in a step. */
  ghost predicate Stops(s: State, t: Step, a: nat, crashed: bool) {
    t.EndActor? && t.f == Stop(crashed) && t.w < |s.workers| && Holds(s.workers[t.w].pc) == Some(a)
  }

  /** The run queue and the threads in one step. */
  ghost predicate QueueStep(s: State, t: Step, r: State) {
    && (if t.TakeQueued? then
          s.queue != [] && r.queue == s.queue[1..] && t.w < |r.workers| && Holds(r.workers[t.w].pc) == Some(s.queue[0])
        else s.queue <= r.queue)
    && r.width == s.width && (|r.workers| == |s.workers| || (|r.workers| == |s.workers| + 1 && NoSpare(r.workers)))
  }

  /** One actor in one step: an ended one stays as it is, a bound one stays bound until it
      ends, and nobody else ends. */
  ghost predicate ActorStep(s: State, t: Step, r: State, a: nat) {
    && |s.actors| <= |r.actors|
    && (a < |s.actors| ==>
          && (r.actors[a].status.Halted? <==> s.actors[a].status.Halted? || Stops(s, t, a, false))
          && (r.actors[a].status.Crashed? <==> s.actors[a].status.Crashed? || Stops(s, t, a, true))
          && (s.actors[a].owner.Some? ==> r.actors[a].owner == s.actors[a].owner || Terminal(r.actors[a]))
          && (forall w: nat :: Binds(s, t, w, a) ==> r.actors[a].owner == Some(w)))
    && (|s.actors| <= a < |r.actors| ==> r.actors[a].owner.None? && !Terminal(r.actors[a]))
  }

  ghost predicate Ordered(s: State, t: Step, a: nat)
    requires Inv(s) && Enabled(s, t)
  {
    QueueStep(s, t, Next(s, t)) && ActorStep(s, t, Next(s, t), a)
  }

  lemma {:induction false} StepOrder(s: State, t: Step, a: nat)
    requires Inv(s) && Enabled(s, t)
    ensures Ordered(s, t, a)
  {
    hide Inv, Enabled, Ordered;
    match t
    case EndActor(w, f) => EndOrder(s, w, f, a);
    case RootEnds(f) => RootOrder(s, f, a);
    case Deposit(w, x) => DepositOrder(s, w, x, a);
    case Inject(to) => InjectOrder(s, to, a);
    case TakeQueued(w) => GrabOrder(s, w, a);
    case EffectIn(w) => EffectOrder(s, w, a);
    case Settle(w) => SettleOrder(s, w, a);
    case ReleaseIdle(w) => SettleOrder(s, w, a);
    case _ => PlainOrder(s, t, a);
  }

  lemma {:induction false} RootOrder(s: State, f: Finish, a: nat)
    requires Inv(s) && Enabled(s, RootEnds(f))
    ensures Ordered(s, RootEnds(f), a)
  {
    hide Inv, Complete;
    BusyRunnable(s);
    if !f.Stop? {
      CompleteSteady(s.(rootBusy := false), s.root, f, a);
    }
  }

  lemma {:induction false} DepositOrder(s: State, w: nat, x: nat, a: nat)
    requires Inv(s) && Enabled(s, Deposit(w, x))
    ensures Ordered(s, Deposit(w, x), a)
  {
    hide Inv, Awaken;
    ParkedBlocked(s, x);
    AwakenSteady(s, x, a);
  }

  lemma {:induction false} InjectOrder(s: State, to: nat, a: nat)
    requires Inv(s) && Enabled(s, Inject(to))
    ensures Ordered(s, Inject(to), a)
  {
    hide Inv, Deliver;
    DeliverSteady(s, to, a);
  }

  lemma {:induction false} SettleOrder(s: State, w: nat, a: nat)
    requires Inv(s)
    ensures Enabled(s, Settle(w)) ==> Ordered(s, Settle(w), a)
    ensures Enabled(s, ReleaseIdle(w)) ==> Ordered(s, ReleaseIdle(w), a)
  {
    hide Inv;
    if w < |s.workers| && s.workers[w].role.Bound? {
      BoundExists(s, w);
    }
  }

  lemma {:induction false} PlainOrder(s: State, t: Step, a: nat)
    requires Inv(s) && Enabled(s, t) && !t.EndActor? && !t.RootEnds? && !t.Deposit? && !t.Inject?
    requires !t.TakeQueued? && !t.EffectIn? && !t.Settle? && !t.ReleaseIdle?
    ensures Ordered(s, t, a)
  {
    hide Inv, Quiet;
    if t.TakeBound? {
      BoundExists(s, t.w);
    }
  }

  lemma {:induction false} EndOrder(s: State, w: nat, f: Finish, a: nat)
    requires Inv(s) && Enabled(s, EndActor(w, f))
    ensures Ordered(s, EndActor(w, f), a)
  {
    hide Inv, Complete;
    HeldExists(s, w);
    HeldRuns(s, w);
    CompleteSteady(SetWorker(s, w, s.workers[w].(pc := After)), Holds(s.workers[w].pc).value, f, a);
  }

  lemma {:induction false} HeldRuns(s: State, w: nat)
    requires Inv(s) && w < |s.workers| && Holds(s.workers[w].pc).Some?
    ensures var a := Holds(s.workers[w].pc).value;
            && a < |s.actors| && s.actors[a].status.Runnable?
            && (s.actors[a].owner.Some? ==> s.actors[a].owner == Some(w))
            && (s.actors[a].owner.None? ==> s.workers[w].role.General?)
  {
    assert WorkerOk(s, w);
    assert ActorOk(s, Holds(s.workers[w].pc).value, {});
  }

  lemma {:induction false} EffectOrder(s: State, w: nat, a: nat)
    requires Inv(s) && Enabled(s, EffectIn(w))
    ensures Ordered(s, EffectIn(w), a)
  {
    hide Inv, Bind;
    HeldExists(s, w);
    HeldRuns(s, w);
    GeneralsPositive(s);
    var x := Holds(s.workers[w].pc).value;
    if s.actors[x].owner.None? {
      BindSteady(s, w, x, a);
    }
  }

  lemma {:induction false} GrabOrder(s: State, w: nat, a: nat)
    requires Inv(s) && Enabled(s, TakeQueued(w))
    ensures Ordered(s, TakeQueued(w), a)
  {
    hide Inv, Bind;
    QueuedUnowned(s, s.queue[0]);
    GrabInv(s, w);
    GeneralsPositive(Grab(s, w));
    BindSteady(Grab(s, w), w, s.queue[0], a);
  }

  // ------------------------------------------------------------------------ whole runs

  /** How often the shared queue was served in [n, m). */
  ghost function Served(steps: seq<Step>, n: nat, m: nat): (r: nat)
    requires n <= m <= |steps|
    ensures r <= m - n
  {
    if n == m then 0 else Served(steps, n, m - 1) + if steps[m - 1].TakeQueued? then 1 else 0
  }

  /** Nobody overtakes: what stood in the queue is what the next takers took, in order,
      and then the head of the queue still. */
  lemma {:induction false} QueueKept(states: seq<State>, steps: seq<Step>, n: nat, m: nat)
    requires Run(states, steps) && n <= m < |states| && Served(steps, n, m) <= |states[n].queue|
    ensures states[n].queue[Served(steps, n, m)..] <= states[m].queue
    decreases m - n
  {
    hide Inv, Next, Enabled, Init;
    if n < m {
      QueueKept(states, steps, n, m - 1);
      RunInv(states, steps, m - 1);
      RunStep(states, steps, m - 1);
      StepOrder(states[m - 1], steps[m - 1], 0);
      assert QueueStep(states[m - 1], steps[m - 1], states[m]);
    }
  }

  /** Main result: of the actors queued at some moment, the k-th is the one that the k-th
      worker to serve the queue from then on takes, in every interleaving. */
  lemma {:induction false} ServedInOrder(states: seq<State>, steps: seq<Step>, n: nat, m: nat)
    requires Run(states, steps) && n <= m < |steps| && steps[m].TakeQueued?
    requires Served(steps, n, m) < |states[n].queue|
    ensures var w := steps[m].w;
            w < |states[m + 1].workers|
            && Holds(states[m + 1].workers[w].pc) == Some(states[n].queue[Served(steps, n, m)])
  {
    hide Inv, Next, Enabled, Init;
    QueueKept(states, steps, n, m);
    RunInv(states, steps, m);
    RunStep(states, steps, m);
    StepOrder(states[m], steps[m], 0);
  }

  lemma {:induction false} FateOrOwner(states: seq<State>, steps: seq<Step>, n: nat, m: nat, w: nat, a: nat)
    requires Run(states, steps) && n < m < |states| && Binds(states[n], steps[n], w, a) && a < |states[n].actors|
    ensures a < |states[m].actors| && (states[m].actors[a].owner == Some(w) || Terminal(states[m].actors[a]))
    decreases m - n
  {
    hide Inv, Next, Enabled, Init, Binds;
    RunInv(states, steps, m - 1);
    RunStep(states, steps, m - 1);
    if n < m - 1 {
      FateOrOwner(states, steps, n, m - 1, w, a);
    }
    StepOrder(states[m - 1], steps[m - 1], a);
    assert ActorStep(states[m - 1], steps[m - 1], states[m], a);
  }

  /** Main result: once an actor has been bound by an effect, no other worker ever runs it
      again. */
  lemma {:induction false} PinnedForLife(states: seq<State>, steps: seq<Step>, n: nat, m: nat, w: nat, a: nat, v: nat)
    requires Run(states, steps) && n < m < |states| && Binds(states[n], steps[n], w, a) && a < |states[n].actors|
    requires v < |states[m].workers| && Holds(states[m].workers[v].pc) == Some(a)
    ensures v == w && a < |states[m].actors| && states[m].actors[a].owner == Some(w)
  {
    hide Inv, Next, Enabled, Init, Run, Binds;
    FateOrOwner(states, steps, n, m, w, a);
    RunInv(states, steps, m);
    HeldRuns(states[m], v);
  }

  /** The actor stopped, crashed or not, in one of the first n steps. */
  ghost function Stopped(states: seq<State>, steps: seq<Step>, n: nat, a: nat, crashed: bool): (r: bool)
    requires n <= |steps| < |states|
  {
    n > 0 && (Stopped(states, steps, n - 1, a, crashed) || Stops(states[n - 1], steps[n - 1], a, crashed))
  }

  /** Main result: an actor has ended exactly when its own code has stopped, and ended the
      way it stopped. */
  lemma {:induction false} EndingsMean(states: seq<State>, steps: seq<Step>, n: nat, a: nat)
    requires Run(states, steps) && n < |states| && a < |states[n].actors|
    requires a < |states[0].actors| ==> !Terminal(states[0].actors[a])
    ensures states[n].actors[a].status.Halted? <==> Stopped(states, steps, n, a, false)
    ensures states[n].actors[a].status.Crashed? <==> Stopped(states, steps, n, a, true)
    decreases n
  {
    hide Inv, Next, Enabled, Init, Stops;
    if n > 0 {
      RunInv(states, steps, n - 1);
      RunStep(states, steps, n - 1);
      StepOrder(states[n - 1], steps[n - 1], a);
      assert ActorStep(states[n - 1], steps[n - 1], states[n], a);
      if a < |states[n - 1].actors| {
        EndingsMean(states, steps, n - 1, a);
      } else {
        NotYet(states, steps, n, a);
      }
    }
  }

  /** Nobody stops before it exists. */
  lemma {:induction false} NotYet(states: seq<State>, steps: seq<Step>, n: nat, a: nat)
    requires Run(states, steps) && 0 < n < |states| && a >= |states[n - 1].actors|
    ensures !Stopped(states, steps, n, a, false) && !Stopped(states, steps, n, a, true)
    decreases n
  {
    hide Inv, Next, Enabled, Init;
    RunInv(states, steps, n - 1);
    RunStep(states, steps, n - 1);
    HeldIsActor(states[n - 1]);
    if n > 1 {
      RunInv(states, steps, n - 2);
      RunStep(states, steps, n - 2);
      StepOrder(states[n - 2], steps[n - 2], a);
      assert ActorStep(states[n - 2], steps[n - 2], states[n - 1], a);
      NotYet(states, steps, n - 1, a);
    }
  }

  lemma {:induction false} HeldIsActor(s: State)
    requires Inv(s)
    ensures forall w :: 0 <= w < |s.workers| && Holds(s.workers[w].pc).Some? ==>
            Holds(s.workers[w].pc).value < |s.actors|
  {
    forall w | 0 <= w < |s.workers| && Holds(s.workers[w].pc).Some? ensures Holds(s.workers[w].pc).value < |s.actors| {
      HeldExists(s, w);
    }
  }

  // ---------------------------------------------------------------------------- threads

  const IS_BOUND: Worker -> bool := (w: Worker) => w.role.Bound?
  const IS_SPARE: Worker -> bool := (w: Worker) => w.role.Spare?

  ghost function BoundNow(s: State): (n: nat) {
    Count(s.workers, IS_BOUND)
  }

  lemma {:induction false} Roles(ws: seq<Worker>)
    ensures |ws| == Count(ws, IS_GENERAL) + Count(ws, IS_BOUND) + Count(ws, IS_SPARE)
    ensures NoSpare(ws) ==> Count(ws, IS_SPARE) == 0
  {
    if ws != [] {
      Roles(ws[1..]);
    }
  }

  /** The most workers that were ever bound at once. */
  ghost function Peak(states: seq<State>, n: nat): (r: nat)
    requires n < |states|
  {
    var b := BoundNow(states[n]);
    if n == 0 || Peak(states, n - 1) < b then b else Peak(states, n - 1)
  }

  lemma WidthKept(s: State)
    requires Inv(s)
    ensures Count(s.workers, IS_GENERAL) == s.width
  {
  }

  /** Main result: there are never more threads than the pool is wide and actors were bound
      at once. */
  lemma {:induction false} ThreadsAtPeak(states: seq<State>, steps: seq<Step>, n: nat)
    requires Run(states, steps) && n < |states|
    ensures |states[n].workers| == states[0].width + Peak(states, n) && states[n].width == states[0].width
    decreases n
  {
    hide Inv, Next, Enabled, Unattached, QueueOk;
    RunInv(states, steps, n);
    WidthKept(states[n]);
    Roles(states[n].workers);
    if n == 0 {
      assert |states[0].workers| == states[0].width;
    } else {
      ThreadsAtPeak(states, steps, n - 1);
      RunInv(states, steps, n - 1);
      RunStep(states, steps, n - 1);
      StepOrder(states[n - 1], steps[n - 1], 0);
      assert QueueStep(states[n - 1], steps[n - 1], states[n]);
    }
  }
}
