/** The multi-threaded actor executor as a state machine over its critical
    sections: workers, the shared run queue, bound workers with private ready
    slots, and the conditions under which a drive reports a deadlock. */
module Executor {
  import opened Basics

  datatype Status = Runnable | Blocked | Halted | Crashed

  datatype Role = General | Bound | Spare

  /** Where a worker is between critical sections.  Slice and Serving run an actor
      outside the scheduler mutex; After and Pumping do other work there. */
  datatype Pc = Loop | Slice(actor: nat) | Serving(actor: nat) | After | Pumping

  /** Where a runnable actor is; an auxiliary record of the history, not a field
      of the program. */
  datatype Place = Nowhere | Queued | Slot(worker: nat) | Held(worker: nat)

  datatype Actor = Actor(status: Status, mail: nat, parked: bool, effectful: bool, owner: Option<nat>, place: Place)

  datatype Worker = Worker(role: Role, actor: Option<nat>, ready: bool, pc: Pc)

  /** `running` while workers may take work, `driving` from the entry of a drive until
      its workers have come to rest; a run without a root is running but not driving.
      `root` is the adopted actor, run by the caller of drive; `rootBusy` says that
      the caller is running it. */
  datatype State = State(actors: seq<Actor>, workers: seq<Worker>, queue: seq<nat>,
                         readyBound: nat, busy: nat, generals: nat, width: nat, root: nat, rootBusy: bool,
                         running: bool, driving: bool)

  function Holds(pc: Pc): Option<nat> {
    match pc
    case Slice(a) => Some(a)
    case Serving(a) => Some(a)
    case _ => None
  }

  // -------------------------------------------------------------- critical sections

  function SetActor(s: State, a: nat, x: Actor): State
    requires a < |s.actors|
  {
    s.(actors := s.actors[a := x])
  }

  function SetWorker(s: State, w: nat, x: Worker): State
    requires w < |s.workers|
  {
    s.(workers := s.workers[w := x])
  }

  /** er_enqueue: to the owner's private slot, to nowhere for the root, else to
      the shared queue. */
  function Enqueue(s: State, a: nat): State
    requires a < |s.actors|
  {
    if s.actors[a].owner.Some? && s.actors[a].owner.value < |s.workers| then
      var w := s.actors[a].owner.value;
      var s' := SetActor(s, a, s.actors[a].(place := Slot(w)));
      if s.workers[w].ready then s'
      else SetWorker(s', w, s.workers[w].(ready := true)).(readyBound := s.readyBound + 1)
    else if a == s.root then s
    else SetActor(s, a, s.actors[a].(place := Queued)).(queue := s.queue + [a])
  }

  /** Make an actor runnable and enqueue it. */
  function Awaken(s: State, a: nat): State
    requires a < |s.actors|
  {
    Enqueue(SetActor(s, a, s.actors[a].(status := Runnable, parked := false)), a)
  }

  /** er_deliver: a blocked receiver takes the message at once. */
  function Deliver(s: State, to: nat): State
    requires to < |s.actors|
  {
    var x := s.actors[to];
    if x.status.Blocked? && !x.parked then Awaken(s, to)
    else SetActor(s, to, x.(mail := x.mail + 1))
  }

  /** The first spare worker, or the number of workers when there is none. */
  function FindSpare(workers: seq<Worker>, i: nat): (r: nat)
    requires i <= |workers|
    ensures i <= r <= |workers|
    ensures r < |workers| ==> workers[r].role.Spare?
    ensures forall k :: i <= k < r ==> !workers[k].role.Spare?
    decreases |workers| - i
  {
    if i == |workers| || workers[i].role.Spare? then i else FindSpare(workers, i + 1)
  }

  /** er_mt_promote_general_locked: reuse a spare before spawning a worker. */
  function Promote(s: State): State {
    var i := FindSpare(s.workers, 0);
    if i < |s.workers| then SetWorker(s, i, s.workers[i].(role := General)).(generals := s.generals + 1)
    else s.(workers := s.workers + [Worker(General, None, false, Loop)], generals := s.generals + 1)
  }

  /** er_mt_bind_locked, for an actor no worker owns. */
  function Bind(s: State, w: nat, a: nat): State
    requires w < |s.workers| && a < |s.actors| && s.generals > 0
  {
    Promote(SetWorker(SetActor(s, a, s.actors[a].(effectful := true, owner := Some(w))),
                      w, s.workers[w].(role := Bound, actor := Some(a))).(generals := s.generals - 1))
  }

  /** er_mt_release_bound_locked */
  function Release(s: State, w: nat): State
    requires w < |s.workers| && s.workers[w].actor.Some? && s.workers[w].actor.value < |s.actors|
  {
    var a := s.workers[w].actor.value;
    SetWorker(SetActor(s, a, s.actors[a].(owner := None)), w, s.workers[w].(role := Spare, actor := None))
  }

  predicate Terminal(x: Actor) {
    x.status.Halted? || x.status.Crashed?
  }

  /** How a service or a slice leaves its actor. */
  datatype Finish =
    | Yield
    | Stop(crashed: bool)
    | Receive
    | SendTo(to: nat)
    | SpawnChild
    | ParkFetch
    | Answer

  /** The end of a slice or of a service, under the mutex. */
  function Complete(s: State, a: nat, f: Finish): State
    requires a < |s.actors|
    requires f.SendTo? ==> f.to < |s.actors|
  {
    var x := s.actors[a];
    match f
    case Yield => Enqueue(s, a)
    case Stop(crashed) => SetActor(s, a, x.(status := if crashed then Crashed else Halted, place := Nowhere))
    case Receive =>
      if x.mail == 0 then SetActor(s, a, x.(status := Blocked, place := Nowhere))
      else Enqueue(SetActor(s, a, x.(mail := x.mail - 1)), a)
    case SendTo(to) =>
      var s' := Deliver(s, to);
      Enqueue(s', a)
    case SpawnChild =>
      var child := |s.actors|;
      Enqueue(s.(actors := s.actors + [Actor(Runnable, 0, false, false, None, Queued)], queue := s.queue + [child]), a)
    case ParkFetch => SetActor(s, a, x.(status := Blocked, parked := true, place := Nowhere))
    case Answer => Enqueue(s, a)
  }

  // ----------------------------------------------------------------------- steps

  datatype Step =
    | TakeQueued(w: nat)
    | TakeBound(w: nat)
    | EffectIn(w: nat)
    | BeginService(w: nat)
    | EndActor(w: nat, f: Finish)
    | Settle(w: nat)
    | ReleaseIdle(w: nat)
    | StartPump(w: nat)
    | Deposit(w: nat, a: nat)
    | EndPump(w: nat)
    | Inject(to: nat)
    | BeginDrive
    | RootRuns
    | RootEnds(f: Finish)
    | GiveUp
    | Leave
    | BeginRun
    | EndRun

  predicate WorkerAt(s: State, w: nat) {
    w < |s.workers|
  }

  ghost predicate Enabled(s: State, t: Step) {
    match t
    case TakeQueued(w) =>
      s.running && WorkerAt(s, w) && s.workers[w].role.General? && s.workers[w].pc.Loop? && s.queue != []
    case TakeBound(w) =>
      s.running && WorkerAt(s, w) && s.workers[w].role.Bound? && s.workers[w].pc.Loop? && s.workers[w].ready
    case EffectIn(w) => WorkerAt(s, w) && Holds(s.workers[w].pc).Some?
    case BeginService(w) => WorkerAt(s, w) && s.workers[w].pc.Slice?
    case EndActor(w, f) =>
      WorkerAt(s, w) && Holds(s.workers[w].pc).Some? && (f.SendTo? ==> f.to < |s.actors|)
    case Settle(w) => WorkerAt(s, w) && s.workers[w].pc.After?
    case ReleaseIdle(w) =>
      && s.running && WorkerAt(s, w) && s.workers[w].role.Bound? && s.workers[w].pc.Loop? && !s.workers[w].ready
      && s.workers[w].actor.Some? && s.workers[w].actor.value < |s.actors|
      && Terminal(s.actors[s.workers[w].actor.value])
    case StartPump(w) =>
      s.running && WorkerAt(s, w) && s.workers[w].role.General? && s.workers[w].pc.Loop? && s.queue == []
    case Deposit(w, a) => WorkerAt(s, w) && s.workers[w].pc.Pumping? && a < |s.actors| && s.actors[a].parked
    case EndPump(w) => WorkerAt(s, w) && s.workers[w].pc.Pumping?
    case Inject(to) => to < |s.actors| && !Terminal(s.actors[to])
    case BeginDrive => !s.running && !s.driving
    case RootRuns =>
      s.running && s.driving && s.root < |s.actors| && s.actors[s.root].status.Runnable? && !s.rootBusy
    case RootEnds(f) => s.root < |s.actors| && s.rootBusy && (f.SendTo? ==> f.to < |s.actors|)
    case GiveUp => s.running && s.driving && Deadlock(s)
    case Leave => !s.running && s.driving && s.busy == 0
    case BeginRun => !s.running && !s.driving
    case EndRun => s.running && !s.driving && Quiet(s)
  }

  /** No worker is busy, no actor waits for one, and no fetch is outstanding. */
  ghost predicate Quiet(s: State) {
    && s.busy == 0 && s.queue == [] && s.readyBound == 0
    && (forall a :: 0 <= a < |s.actors| ==> !s.actors[a].parked)
  }

  /** What er_mt_executor_drive checks, twice, before it reports a deadlock. */
  ghost predicate Deadlock(s: State) {
    s.root < |s.actors| && s.actors[s.root].status.Blocked? && Quiet(s)
  }

  /** The state after a step; the invariant below makes every case well defined. */
  ghost function Next(s: State, t: Step): State
    requires Inv(s) && Enabled(s, t)
  {
    match t
    case TakeQueued(w) =>
      assert WorkerOk(s, w);
      var a := s.queue[0];
      var s1 := SetActor(SetWorker(s, w, s.workers[w].(pc := Slice(a))), a, s.actors[a].(place := Held(w)))
                .(queue := s.queue[1..], busy := s.busy + 1);
      if s.actors[a].effectful then Bind(s1, w, a) else s1
    case TakeBound(w) =>
      assert WorkerOk(s, w);
      CountReady(s.workers, w);
      var a := s.workers[w].actor.value;
      SetActor(SetWorker(s, w, s.workers[w].(ready := false, pc := Slice(a))), a, s.actors[a].(place := Held(w)))
      .(readyBound := s.readyBound - 1, busy := s.busy + 1)
    case EffectIn(w) =>
      assert WorkerOk(s, w);
      var a := Holds(s.workers[w].pc).value;
      if s.actors[a].owner.None? then Bind(s, w, a) else s
    case BeginService(w) => SetWorker(s, w, s.workers[w].(pc := Serving(s.workers[w].pc.actor)))
    case EndActor(w, f) =>
      assert WorkerOk(s, w);
      var a := Holds(s.workers[w].pc).value;
      Complete(SetWorker(s, w, s.workers[w].(pc := After)), a, f)
    case Settle(w) =>
      assert WorkerOk(s, w);
      CountBusy(s.workers, w);
      var s1 := SetWorker(s, w, s.workers[w].(pc := Loop)).(busy := s.busy - 1);
      if s.workers[w].role.Bound? && Terminal(s.actors[s.workers[w].actor.value]) then Release(s1, w) else s1
    case ReleaseIdle(w) => Release(s, w)
    case StartPump(w) => SetWorker(s, w, s.workers[w].(pc := Pumping)).(busy := s.busy + 1)
    case Deposit(_, a) =>
      Awaken(s, a)
    case EndPump(w) =>
      CountBusy(s.workers, w);
      SetWorker(s, w, s.workers[w].(pc := Loop)).(busy := s.busy - 1)
    case Inject(to) =>
      Deliver(s, to)
    case RootRuns => s.(rootBusy := true)
    case RootEnds(f) =>
      // a root that stops goes back to its embedder, runnable, and the drive winds down
      if f.Stop? then s.(rootBusy := false, running := false) else Complete(s.(rootBusy := false), s.root, f)
    case GiveUp => SetActor(s, s.root, s.actors[s.root].(status := Runnable)).(running := false)
    case Leave => s.(driving := false)
    case BeginDrive => s.(running := true, driving := true)
    case BeginRun => s.(running := true)
    case EndRun => s.(running := false)
  }

  // ------------------------------------------------------------------ the invariant

  ghost function Count(ws: seq<Worker>, f: Worker -> bool): nat {
    if ws == [] then 0 else (if f(ws[0]) then 1 else 0) + Count(ws[1..], f)
  }

  const IS_GENERAL: Worker -> bool := (w: Worker) => w.role.General?
  const IS_READY: Worker -> bool := (w: Worker) => w.ready
  const IS_BUSY: Worker -> bool := (w: Worker) => !w.pc.Loop?

  /** An actor's own consistency: who owns it, where it is, why it is blocked.
      Actors in hand are runnable and in none of the three places. */
  ghost predicate ActorOk(s: State, a: nat, hand: set<nat>)
    requires a < |s.actors|
  {
    var x := s.actors[a];
    && (x.owner.Some? ==> x.owner.value < |s.workers| && s.workers[x.owner.value].role.Bound?
                          && s.workers[x.owner.value].actor == Some(a))
    && (x.status.Blocked? && !x.parked ==> x.mail == 0)
    && (x.parked ==> x.status.Blocked?)
    && (a == s.root ==> x.owner.None? && x.place.Nowhere?)
    && (if a in hand then
          && x.status.Runnable? && a !in s.queue && (x.owner.Some? ==> !s.workers[x.owner.value].ready)
          && (forall w :: 0 <= w < |s.workers| ==> Holds(s.workers[w].pc) != Some(a))
        else
          && (a != s.root ==> (x.status.Runnable? <==> !x.place.Nowhere?))
          && (match x.place
              case Nowhere => true
              case Queued => a in s.queue && x.owner.None?
              case Slot(w) => w < |s.workers| && x.owner == Some(w) && s.workers[w].ready
              case Held(w) =>
                  w < |s.workers| && Holds(s.workers[w].pc) == Some(a) && (x.owner.Some? ==> x.owner == Some(w))))
  }

  ghost predicate WorkerOk(s: State, w: nat)
    requires w < |s.workers|
  {
    var x := s.workers[w];
    && (x.role.Bound? <==> x.actor.Some?)
    && (x.actor.Some? ==> x.actor.value < |s.actors| && s.actors[x.actor.value].owner == Some(w))
    && (x.ready ==> x.role.Bound? && s.actors[x.actor.value].place == Slot(w))
    && (Holds(x.pc).Some? ==> Holds(x.pc).value < |s.actors| && s.actors[Holds(x.pc).value].place == Held(w)
                              && (x.role.Bound? ==> x.actor == Holds(x.pc)) && !x.role.Spare?)
    && (x.pc.Pumping? ==> x.role.General?)
    && (x.role.Spare? ==> x.pc.Loop?)
  }

  ghost predicate QueueOk(s: State) {
    && (forall i :: 0 <= i < |s.queue| ==> s.queue[i] < |s.actors| && s.actors[s.queue[i]].place.Queued?)
    && (forall i, j :: 0 <= i < j < |s.queue| ==> s.queue[i] != s.queue[j])
  }

  /** Everything but the counters. */
  ghost predicate Shape(s: State, hand: set<nat>) {
    && s.root < |s.actors| && s.width > 0
    && (forall a :: 0 <= a < |s.actors| ==> ActorOk(s, a, hand))
    && (forall w :: 0 <= w < |s.workers| ==> WorkerOk(s, w))
    && QueueOk(s)
    && (s.rootBusy ==> s.actors[s.root].status.Runnable?)
  }

  ghost predicate Counters(s: State) {
    && s.generals == s.width == Count(s.workers, IS_GENERAL)
    && s.readyBound == Count(s.workers, IS_READY)
    && s.busy == Count(s.workers, IS_BUSY)
  }

  ghost predicate Inv(s: State) {
    Shape(s, {}) && Counters(s)
  }

  // ---------------------------------------------------------------------- counting

  function One(b: bool): nat {
    if b then 1 else 0
  }

  lemma {:induction false} CountUpdate(ws: seq<Worker>, i: nat, x: Worker, f: Worker -> bool)
    requires i < |ws|
    ensures Count(ws[i := x], f) + One(f(ws[i])) == Count(ws, f) + One(f(x))
  {
    if i > 0 {
      CountUpdate(ws[1..], i - 1, x, f);
      assert ws[i := x][1..] == ws[1..][i - 1 := x];
    } else {
      assert ws[i := x][1..] == ws[1..];
    }
  }

  lemma {:induction false} CountAppend(ws: seq<Worker>, x: Worker, f: Worker -> bool)
    ensures Count(ws + [x], f) == Count(ws, f) + One(f(x))
  {
    if ws != [] {
      CountAppend(ws[1..], x, f);
      assert (ws + [x])[1..] == ws[1..] + [x];
    } else {
      assert (ws + [x])[1..] == [];
    }
  }

  lemma {:induction false} CountPositive(ws: seq<Worker>, i: nat, f: Worker -> bool)
    requires i < |ws| && f(ws[i])
    ensures Count(ws, f) > 0
  {
    if i > 0 {
      CountPositive(ws[1..], i - 1, f);
    }
  }

  lemma CountReady(ws: seq<Worker>, i: nat)
    requires i < |ws| && ws[i].ready
    ensures Count(ws, IS_READY) > 0
  {
    CountPositive(ws, i, IS_READY);
  }

  lemma CountBusy(ws: seq<Worker>, i: nat)
    requires i < |ws| && !ws[i].pc.Loop?
    ensures Count(ws, IS_BUSY) > 0
  {
    CountPositive(ws, i, IS_BUSY);
  }

  // ------------------------------------------------- the pieces of a critical section

  /** The counters depend only on the workers. */
  lemma {:induction false} EnqueueCounts(s: State, a: nat)
    requires a < |s.actors| && s.readyBound == Count(s.workers, IS_READY)
    ensures var s' := Enqueue(s, a);
            && s'.readyBound == Count(s'.workers, IS_READY)
            && Count(s'.workers, IS_GENERAL) == Count(s.workers, IS_GENERAL)
            && Count(s'.workers, IS_BUSY) == Count(s.workers, IS_BUSY)
            && (s'.busy, s'.generals, s'.width, s'.root, s'.rootBusy)
                == (s.busy, s.generals, s.width, s.root, s.rootBusy)
  {
    if s.actors[a].owner.Some? && s.actors[a].owner.value < |s.workers| {
      var w := s.actors[a].owner.value;
      var x := s.workers[w].(ready := true);
      CountUpdate(s.workers, w, x, IS_READY);
      CountUpdate(s.workers, w, x, IS_GENERAL);
      CountUpdate(s.workers, w, x, IS_BUSY);
    }
  }

  lemma {:induction false} EnqueueQueued(s: State, a: nat, hand: set<nat>)
    requires a < |s.actors| && a in hand && Shape(s, hand) && s.actors[a].owner.None? && a != s.root
    ensures Shape(Enqueue(s, a), hand - {a})
  {
    var s' := Enqueue(s, a);
    assert ActorOk(s, a, hand);
    forall b | 0 <= b < |s'.actors|
      ensures ActorOk(s', b, hand - {a})
    {
      assert ActorOk(s, b, hand);
      assert b in s.queue ==> b in s'.queue;
      assert s'.queue[|s.queue|] == a;
    }
    forall w | 0 <= w < |s'.workers|
      ensures WorkerOk(s', w)
    {
      assert WorkerOk(s, w);
    }
    forall i | 0 <= i < |s.queue|
      ensures s.queue[i] != a
    {
      assert s.queue[i] in s.queue;
    }
  }

  lemma {:induction false} EnqueueSlot(s: State, a: nat, hand: set<nat>)
    requires a < |s.actors| && a in hand && Shape(s, hand) && s.actors[a].owner.Some?
    ensures Shape(Enqueue(s, a), hand - {a})
  {
    var s' := Enqueue(s, a);
    var w := s.actors[a].owner.value;
    assert ActorOk(s, a, hand);
    assert WorkerOk(s, w);
    forall b | 0 <= b < |s'.actors|
      ensures ActorOk(s', b, hand - {a})
    {
      assert ActorOk(s, b, hand);
    }
    forall v | 0 <= v < |s'.workers|
      ensures WorkerOk(s', v)
    {
      assert WorkerOk(s, v);
    }
    forall i | 0 <= i < |s.queue|
      ensures s.queue[i] != a
    {
      assert s.queue[i] in s.queue;
    }
  }

  /** Enqueueing puts the actor in hand in exactly one place. */
  lemma {:induction false} EnqueueShape(s: State, a: nat, hand: set<nat>)
    requires a < |s.actors| && a in hand && Shape(s, hand)
    ensures Shape(Enqueue(s, a), hand - {a})
  {
    assert ActorOk(s, a, hand);
    if s.actors[a].owner.Some? {
      EnqueueSlot(s, a, hand);
    } else if a != s.root {
      EnqueueQueued(s, a, hand);
    } else {
      forall b | 0 <= b < |s.actors|
        ensures ActorOk(s, b, hand - {a})
      {
        assert ActorOk(s, b, hand);
      }
    }
  }

  /** Taking up a blocked actor that is in none of the places. */
  lemma {:induction false} AwakenShape(s: State, a: nat, hand: set<nat>)
    requires a < |s.actors| && Shape(s, hand) && s.actors[a].status.Blocked? && a !in hand
    ensures Shape(Awaken(s, a), hand)
  {
    var s1 := SetActor(s, a, s.actors[a].(status := Runnable, parked := false));
    assert ActorOk(s, a, hand);
    assert forall i :: 0 <= i < |s.queue| ==> s.queue[i] != a;
    forall b | 0 <= b < |s1.actors|
      ensures ActorOk(s1, b, hand + {a})
    {
      assert ActorOk(s, b, hand);
      if b == a {
        forall w | 0 <= w < |s.workers|
          ensures Holds(s.workers[w].pc) != Some(a) && (s.workers[w].actor == Some(a) ==> !s.workers[w].ready)
        {
          assert WorkerOk(s, w);
        }
        NotHeld(s, a, hand);
      }
    }
    forall w | 0 <= w < |s1.workers|
      ensures WorkerOk(s1, w)
    {
      assert WorkerOk(s, w);
    }
    EnqueueShape(s1, a, hand + {a});
    assert hand + {a} - {a} == hand;
  }

  lemma {:induction false} NotHeld(s: State, a: nat, hand: set<nat>)
    requires a < |s.actors| && Shape(s, hand) && s.actors[a].place.Nowhere?
    ensures a !in s.queue
    ensures forall w :: 0 <= w < |s.workers| ==> Holds(s.workers[w].pc) != Some(a)
    ensures s.actors[a].owner.Some? ==>
              s.actors[a].owner.value < |s.workers| && !s.workers[s.actors[a].owner.value].ready
  {
    forall w | 0 <= w < |s.workers|
      ensures Holds(s.workers[w].pc) != Some(a) && (s.workers[w].actor == Some(a) ==> !s.workers[w].ready)
    {
      assert WorkerOk(s, w);
    }
    assert ActorOk(s, a, hand);
  }

  lemma {:induction false} DeliverShape(s: State, to: nat, hand: set<nat>)
    requires to < |s.actors| && Shape(s, hand)
    ensures Shape(Deliver(s, to), hand)
  {
    var x := s.actors[to];
    assert ActorOk(s, to, hand);
    if x.status.Blocked? && !x.parked {
      AwakenShape(s, to, hand);
    } else {
      FieldShape(s, to, x.(mail := x.mail + 1), hand);
    }
  }

  /** Changing only the mailbox count of an actor that is not waiting for mail. */
  lemma {:induction false} FieldShape(s: State, a: nat, x: Actor, hand: set<nat>)
    requires a < |s.actors| && Shape(s, hand)
    requires x == s.actors[a].(mail := x.mail) && (x.status.Blocked? && !x.parked ==> x.mail == 0)
    ensures Shape(SetActor(s, a, x), hand)
  {
    var s' := SetActor(s, a, x);
    forall b | 0 <= b < |s'.actors|
      ensures ActorOk(s', b, hand)
    {
      assert ActorOk(s, b, hand);
    }
    forall w | 0 <= w < |s'.workers|
      ensures WorkerOk(s', w)
    {
      assert WorkerOk(s, w);
    }
  }

  /** Putting down the actor in hand without enqueueing it. */
  lemma {:induction false} RestShape(s: State, a: nat, x: Actor, hand: set<nat>)
    requires a < |s.actors| && a in hand && Shape(s, hand) && (a == s.root ==> !s.rootBusy)
    requires x == s.actors[a].(status := x.status, parked := x.parked, place := Nowhere)
    requires !x.status.Runnable? && (x.parked ==> x.status.Blocked?) && (x.status.Blocked? && !x.parked ==> x.mail == 0)
    ensures Shape(SetActor(s, a, x), hand - {a})
  {
    var s' := SetActor(s, a, x);
    assert ActorOk(s, a, hand);
    forall b | 0 <= b < |s'.actors|
      ensures ActorOk(s', b, hand - {a})
    {
      assert ActorOk(s, b, hand);
    }
    forall w | 0 <= w < |s'.workers|
      ensures WorkerOk(s', w)
    {
      assert WorkerOk(s, w);
    }
    assert forall i :: 0 <= i < |s.queue| ==> s.queue[i] in s.queue;
  }

  lemma {:induction false} ChildShape(s: State, hand: set<nat>)
    requires Shape(s, hand) && (forall a :: a in hand ==> a < |s.actors|)
    ensures Shape(s.(actors := s.actors + [Actor(Runnable, 0, false, false, None, Queued)],
                     queue := s.queue + [|s.actors|]), hand)
  {
    var child := |s.actors|;
    var s' := s.(actors := s.actors + [Actor(Runnable, 0, false, false, None, Queued)], queue := s.queue + [child]);
    assert s'.queue[|s.queue|] == child;
    forall b | 0 <= b < |s'.actors|
      ensures ActorOk(s', b, hand)
    {
      if b < child {
        assert ActorOk(s, b, hand);
        assert b in s.queue ==> b in s'.queue;
      }
    }
    forall w | 0 <= w < |s'.workers|
      ensures WorkerOk(s', w)
    {
      assert WorkerOk(s, w);
    }
  }

  lemma {:induction false} AwakenCounts(s: State, a: nat)
    requires a < |s.actors| && Counters(s)
    ensures Counters(Awaken(s, a)) && |Awaken(s, a).actors| == |s.actors|
    ensures Awaken(s, a).root == s.root && Awaken(s, a).rootBusy == s.rootBusy
  {
    EnqueueCounts(SetActor(s, a, s.actors[a].(status := Runnable, parked := false)), a);
  }

  /** Completing a slice or a service keeps the whole invariant. */
  lemma {:induction false} CompleteInv(s: State, a: nat, f: Finish)
    requires a < |s.actors| && Shape(s, {a}) && Counters(s) && (a == s.root ==> !s.rootBusy)
    requires f.SendTo? ==> f.to < |s.actors|
    ensures Inv(Complete(s, a, f))
    ensures Complete(s, a, f).rootBusy == s.rootBusy
  {
    hide Shape, Counters, Awaken;
    var x := s.actors[a];
    assert {a} - {a} == {};
    HandMail(s, a);
    match f
    case Yield => EnqueueInv(s, a);
    case Stop(crashed) => RestInv(s, a, x.(status := if crashed then Crashed else Halted, place := Nowhere));
    case Receive =>
      if x.mail == 0 {
        RestInv(s, a, x.(status := Blocked, place := Nowhere));
      } else {
        FieldShape(s, a, x.(mail := x.mail - 1), {a});
        SetActorCounts(s, a, x.(mail := x.mail - 1));
        EnqueueInv(SetActor(s, a, x.(mail := x.mail - 1)), a);
      }
    case SendTo(to) =>
      DeliverShape(s, to, {a});
      DeliverCounts(s, to);
      EnqueueInv(Deliver(s, to), a);
    case SpawnChild =>
      ChildShape(s, {a});
      ChildCounts(s);
      EnqueueInv(s.(actors := s.actors + [Actor(Runnable, 0, false, false, None, Queued)],
          queue := s.queue + [|s.actors|]), a);
    case ParkFetch => RestInv(s, a, x.(status := Blocked, parked := true, place := Nowhere));
    case Answer => EnqueueInv(s, a);
  }

  lemma {:induction false} HandMail(s: State, a: nat)
    requires a < |s.actors| && Shape(s, {a})
    ensures s.actors[a].status.Runnable? && !s.actors[a].parked
  {
    assert ActorOk(s, a, {a});
  }

  lemma {:induction false} EnqueueInv(s: State, a: nat)
    requires a < |s.actors| && Shape(s, {a}) && Counters(s)
    ensures Inv(Enqueue(s, a)) && Enqueue(s, a).rootBusy == s.rootBusy
  {
    EnqueueShape(s, a, {a});
    assert {a} - {a} == {};
    EnqueueCounts(s, a);
  }

  lemma {:induction false} RestInv(s: State, a: nat, x: Actor)
    requires a < |s.actors| && Shape(s, {a}) && Counters(s) && (a == s.root ==> !s.rootBusy)
    requires x == s.actors[a].(status := x.status, parked := x.parked, place := Nowhere)
    requires !x.status.Runnable? && (x.parked ==> x.status.Blocked?) && (x.status.Blocked? && !x.parked ==> x.mail == 0)
    ensures Inv(SetActor(s, a, x))
  {
    RestShape(s, a, x, {a});
    assert {a} - {a} == {};
  }

  lemma SetActorCounts(s: State, a: nat, x: Actor)
    requires a < |s.actors| && Counters(s)
    ensures Counters(SetActor(s, a, x))
  {
  }

  lemma ChildCounts(s: State)
    requires Counters(s)
    ensures Counters(s.(actors := s.actors + [Actor(Runnable, 0, false, false, None, Queued)],
            queue := s.queue + [|s.actors|]))
  {
  }

  lemma {:induction false} DeliverCounts(s: State, to: nat)
    requires to < |s.actors| && Counters(s)
    ensures Counters(Deliver(s, to)) && |Deliver(s, to).actors| == |s.actors|
    ensures Deliver(s, to).rootBusy == s.rootBusy && Deliver(s, to).root == s.root
  {
    if s.actors[to].status.Blocked? && !s.actors[to].parked {
      AwakenCounts(s, to);
    }
  }

  // ------------------------------------------------------------- binding and release

  lemma {:induction false} PromoteShape(s: State)
    requires Shape(s, {})
    ensures Shape(Promote(s), {})
  {
    hide Shape;
    var i := FindSpare(s.workers, 0);
    if i < |s.workers| {
      SparePromoted(s, i);
    } else {
      WorkerAdded(s);
    }
  }

  lemma {:induction false} SparePromoted(s: State, i: nat)
    requires Shape(s, {}) && i < |s.workers| && s.workers[i].role.Spare?
    ensures Shape(SetWorker(s, i, s.workers[i].(role := General)).(generals := s.generals + 1), {})
  {
    var s' := SetWorker(s, i, s.workers[i].(role := General)).(generals := s.generals + 1);
    assert WorkerOk(s, i);
    forall b | 0 <= b < |s'.actors| ensures ActorOk(s', b, {}) {
      assert ActorOk(s, b, {});
    }
    forall w | 0 <= w < |s'.workers| ensures WorkerOk(s', w) {
      assert WorkerOk(s, w);
    }
  }

  lemma {:induction false} WorkerAdded(s: State)
    requires Shape(s, {})
    ensures Shape(s.(workers := s.workers + [Worker(General, None, false, Loop)], generals := s.generals + 1), {})
  {
    var s' := s.(workers := s.workers + [Worker(General, None, false, Loop)], generals := s.generals + 1);
    forall b | 0 <= b < |s'.actors| ensures ActorOk(s', b, {}) {
      assert ActorOk(s, b, {});
    }
    forall w | 0 <= w < |s'.workers| ensures WorkerOk(s', w) {
      if w < |s.workers| {
        assert WorkerOk(s, w);
      }
    }
  }

  lemma {:induction false} PromoteCounts(s: State)
    requires s.generals == Count(s.workers, IS_GENERAL) && s.generals + 1 == s.width
    requires s.readyBound == Count(s.workers, IS_READY) && s.busy == Count(s.workers, IS_BUSY)
    ensures Counters(Promote(s))
  {
    var i := FindSpare(s.workers, 0);
    if i < |s.workers| {
      var x := s.workers[i].(role := General);
      CountUpdate(s.workers, i, x, IS_GENERAL);
      CountUpdate(s.workers, i, x, IS_READY);
      CountUpdate(s.workers, i, x, IS_BUSY);
    } else {
      var x := Worker(General, None, false, Loop);
      CountAppend(s.workers, x, IS_GENERAL);
      CountAppend(s.workers, x, IS_READY);
      CountAppend(s.workers, x, IS_BUSY);
    }
  }

  ghost function Claim(s: State, w: nat, a: nat): State
    requires w < |s.workers| && a < |s.actors| && s.generals > 0
  {
    SetWorker(SetActor(s, a, s.actors[a].(effectful := true, owner := Some(w))),
              w, s.workers[w].(role := Bound, actor := Some(a))).(generals := s.generals - 1)
  }

  lemma {:induction false} ClaimShape(s: State, w: nat, a: nat)
    requires Shape(s, {}) && w < |s.workers| && a < |s.actors| && s.generals > 0
    requires Holds(s.workers[w].pc) == Some(a) && s.actors[a].owner.None? && s.workers[w].role.General?
    ensures Shape(Claim(s, w, a), {})
  {
    var s' := Claim(s, w, a);
    assert WorkerOk(s, w) && ActorOk(s, a, {});
    forall b | 0 <= b < |s'.actors|
      ensures ActorOk(s', b, {})
    {
      assert ActorOk(s, b, {});
    }
    forall v | 0 <= v < |s'.workers|
      ensures WorkerOk(s', v)
    {
      assert WorkerOk(s, v);
    }
  }

  /** Binding replenishes the shared pool: its width is restored before unlock. */
  lemma {:induction false} BindInv(s: State, w: nat, a: nat)
    requires Inv(s) && w < |s.workers| && a < |s.actors|
    requires Holds(s.workers[w].pc) == Some(a) && s.actors[a].owner.None?
    ensures s.generals > 0 && Inv(Bind(s, w, a))
  {
    assert WorkerOk(s, w) && ActorOk(s, a, {});
    assert s.workers[w].role.General?;
    ClaimShape(s, w, a);
    var c := Claim(s, w, a);
    CountUpdate(s.workers, w, c.workers[w], IS_GENERAL);
    CountUpdate(s.workers, w, c.workers[w], IS_READY);
    CountUpdate(s.workers, w, c.workers[w], IS_BUSY);
    PromoteShape(c);
    PromoteCounts(c);
  }

  lemma {:induction false} ReleaseInv(s: State, w: nat)
    requires Inv(s) && w < |s.workers| && s.workers[w].role.Bound? && s.workers[w].pc.Loop?
    requires s.workers[w].actor.Some? && s.workers[w].actor.value < |s.actors|
             && Terminal(s.actors[s.workers[w].actor.value])
    ensures Inv(Release(s, w))
  {
    var s' := Release(s, w);
    var a := s.workers[w].actor.value;
    assert WorkerOk(s, w) && ActorOk(s, a, {});
    forall b | 0 <= b < |s'.actors|
      ensures ActorOk(s', b, {})
    {
      assert ActorOk(s, b, {});
    }
    forall v | 0 <= v < |s'.workers|
      ensures WorkerOk(s', v)
    {
      assert WorkerOk(s, v);
    }
    CountUpdate(s.workers, w, s'.workers[w], IS_GENERAL);
    CountUpdate(s.workers, w, s'.workers[w], IS_READY);
    CountUpdate(s.workers, w, s'.workers[w], IS_BUSY);
  }

  // ------------------------------------------------------------------ every step

  ghost function Grab(s: State, w: nat): State
    requires w < |s.workers| && s.queue != [] && s.queue[0] < |s.actors|
  {
    var a := s.queue[0];
    SetActor(SetWorker(s, w, s.workers[w].(pc := Slice(a))), a, s.actors[a].(place := Held(w)))
    .(queue := s.queue[1..], busy := s.busy + 1)
  }

  lemma {:induction false} GrabInv(s: State, w: nat)
    requires Inv(s) && Enabled(s, TakeQueued(w))
    ensures s.queue[0] < |s.actors| && Inv(Grab(s, w))
  {
    var a := s.queue[0];
    var s' := Grab(s, w);
    assert WorkerOk(s, w) && ActorOk(s, a, {});
    forall b | 0 <= b < |s'.actors|
      ensures ActorOk(s', b, {})
    {
      assert ActorOk(s, b, {});
      if b != a && b in s.queue {
        assert s.queue == [a] + s.queue[1..];
        assert b in s.queue[1..];
      }
    }
    forall v | 0 <= v < |s'.workers|
      ensures WorkerOk(s', v)
    {
      assert WorkerOk(s, v);
    }
    assert forall i :: 0 <= i < |s'.queue| ==> s'.queue[i] == s.queue[i + 1];
    CountUpdate(s.workers, w, s'.workers[w], IS_GENERAL);
    CountUpdate(s.workers, w, s'.workers[w], IS_READY);
    CountUpdate(s.workers, w, s'.workers[w], IS_BUSY);
  }

  lemma {:induction false} TakeBoundInv(s: State, w: nat)
    requires Inv(s) && Enabled(s, TakeBound(w))
    ensures Inv(Next(s, TakeBound(w)))
  {
    hide Count;
    var s' := Next(s, TakeBound(w));
    assert WorkerOk(s, w);
    var a := s.workers[w].actor.value;
    assert ActorOk(s, a, {});
    forall b | 0 <= b < |s'.actors|
      ensures ActorOk(s', b, {})
    {
      assert ActorOk(s, b, {});
    }
    forall v | 0 <= v < |s'.workers|
      ensures WorkerOk(s', v)
    {
      assert WorkerOk(s, v);
    }
    CountUpdate(s.workers, w, s'.workers[w], IS_GENERAL);
    CountUpdate(s.workers, w, s'.workers[w], IS_READY);
    CountUpdate(s.workers, w, s'.workers[w], IS_BUSY);
  }

  /** Moving a worker that holds no actor between Loop, Pumping and After. */
  lemma {:induction false} MoveInv(s: State, w: nat, pc: Pc, busy: nat)
    requires Inv(s) && w < |s.workers| && Holds(pc).None? && Holds(s.workers[w].pc).None?
    requires pc.Pumping? ==> s.workers[w].role.General?
    requires s.workers[w].role.Spare? ==> pc.Loop?
    requires busy + One(!s.workers[w].pc.Loop?) == s.busy + One(!pc.Loop?)
    ensures Inv(SetWorker(s, w, s.workers[w].(pc := pc)).(busy := busy))
  {
    var s' := SetWorker(s, w, s.workers[w].(pc := pc)).(busy := busy);
    forall b | 0 <= b < |s'.actors|
      ensures ActorOk(s', b, {})
    {
      assert ActorOk(s, b, {});
    }
    forall v | 0 <= v < |s'.workers|
      ensures WorkerOk(s', v)
    {
      assert WorkerOk(s, v);
    }
    CountUpdate(s.workers, w, s'.workers[w], IS_GENERAL);
    CountUpdate(s.workers, w, s'.workers[w], IS_READY);
    CountUpdate(s.workers, w, s'.workers[w], IS_BUSY);
  }

  lemma {:induction false} ServeInv(s: State, w: nat)
    requires Inv(s) && Enabled(s, BeginService(w))
    ensures Inv(SetWorker(s, w, s.workers[w].(pc := Serving(s.workers[w].pc.actor))))
  {
    var s' := SetWorker(s, w, s.workers[w].(pc := Serving(s.workers[w].pc.actor)));
    forall b | 0 <= b < |s'.actors|
      ensures ActorOk(s', b, {})
    {
      assert ActorOk(s, b, {});
    }
    forall v | 0 <= v < |s'.workers|
      ensures WorkerOk(s', v)
    {
      assert WorkerOk(s, v);
    }
    CountUpdate(s.workers, w, s'.workers[w], IS_GENERAL);
    CountUpdate(s.workers, w, s'.workers[w], IS_READY);
    CountUpdate(s.workers, w, s'.workers[w], IS_BUSY);
  }

  /** Letting go of the actor a worker was running puts it in hand. */
  lemma {:induction false} LetGo(s: State, w: nat)
    requires Inv(s) && w < |s.workers| && Holds(s.workers[w].pc).Some?
    ensures var a := Holds(s.workers[w].pc).value; var s' := SetWorker(s, w, s.workers[w].(pc := After));
            a < |s.actors| && a != s.root && Shape(s', {a}) && Counters(s')
  {
    var a := Holds(s.workers[w].pc).value;
    var s' := SetWorker(s, w, s.workers[w].(pc := After));
    assert WorkerOk(s, w) && ActorOk(s, a, {});
    forall v | 0 <= v < |s'.workers|
      ensures WorkerOk(s', v) && Holds(s'.workers[v].pc) != Some(a)
    {
      assert WorkerOk(s, v);
    }
    forall b | 0 <= b < |s'.actors|
      ensures ActorOk(s', b, {a})
    {
      assert ActorOk(s, b, {});
      if b == a && s.actors[a].owner.Some? {
        assert WorkerOk(s, s.actors[a].owner.value);
      }
    }
    CountUpdate(s.workers, w, s'.workers[w], IS_GENERAL);
    CountUpdate(s.workers, w, s'.workers[w], IS_READY);
    CountUpdate(s.workers, w, s'.workers[w], IS_BUSY);
  }

  lemma {:induction false} RootInHand(s: State)
    requires Inv(s) && s.rootBusy
    ensures Shape(s.(rootBusy := false), {s.root}) && Counters(s.(rootBusy := false))
  {
    var s' := s.(rootBusy := false);
    NotHeld(s, s.root, {}) by {
      assert ActorOk(s, s.root, {});
    }
    forall b | 0 <= b < |s'.actors|
      ensures ActorOk(s', b, {s.root})
    {
      assert ActorOk(s, b, {});
    }
    forall w | 0 <= w < |s'.workers|
      ensures WorkerOk(s', w)
    {
      assert WorkerOk(s, w);
    }
  }

  lemma {:induction false} RootRunsInv(s: State)
    requires Inv(s) && Enabled(s, RootRuns)
    ensures Inv(s.(rootBusy := true))
  {
    var s' := s.(rootBusy := true);
    forall b | 0 <= b < |s'.actors|
      ensures ActorOk(s', b, {})
    {
      assert ActorOk(s, b, {});
    }
    forall w | 0 <= w < |s'.workers|
      ensures WorkerOk(s', w)
    {
      assert WorkerOk(s, w);
    }
  }

  /** Every step of every thread keeps the invariant. */
  lemma {:induction false} StepInv(s: State, t: Step)
    requires Inv(s) && Enabled(s, t)
    ensures Inv(Next(s, t))
  {
    hide Shape, Counters, Complete, Awaken, Deliver, Bind, Release;
    match t
    case TakeQueued(w) =>
      GrabInv(s, w);
      var a := s.queue[0];
      if s.actors[a].effectful {
        QueuedUnowned(s, a);
        BindInv(Grab(s, w), w, a);
      }
    case TakeBound(w) => TakeBoundInv(s, w);
    case EffectIn(w) =>
      HeldExists(s, w);
      if s.actors[Holds(s.workers[w].pc).value].owner.None? {
        BindInv(s, w, Holds(s.workers[w].pc).value);
      }
    case BeginService(w) => ServeInv(s, w);
    case EndActor(w, f) =>
      LetGo(s, w);
      CompleteInv(SetWorker(s, w, s.workers[w].(pc := After)), Holds(s.workers[w].pc).value, f);
    case Settle(w) =>
      BusyPositive(s, w);
      MoveInv(s, w, Loop, s.busy - 1);
      if s.workers[w].role.Bound? {
        BoundExists(s, w);
        if Terminal(s.actors[s.workers[w].actor.value]) {
          ReleaseInv(SetWorker(s, w, s.workers[w].(pc := Loop)).(busy := s.busy - 1), w);
        }
      }
    case ReleaseIdle(w) => ReleaseInv(s, w);
    case StartPump(w) => MoveInv(s, w, Pumping, s.busy + 1);
    case Deposit(_, a) =>
      ParkedBlocked(s, a);
      AwakenShape(s, a, {});
      AwakenCounts(s, a);
    case EndPump(w) =>
      BusyPositive(s, w);
      MoveInv(s, w, Loop, s.busy - 1);
    case Inject(to) =>
      DeliverShape(s, to, {});
      DeliverCounts(s, to);
    case RootRuns => RootRunsInv(s);
    case RootEnds(f) =>
      if f.Stop? {
        RelabelInv(s, s.(rootBusy := false, running := false));
      } else {
        RootInHand(s);
        CompleteInv(s.(rootBusy := false), s.root, f);
      }
    case GiveUp =>
      RelabelInv(s, s.(running := false));
      RootWakesInv(s.(running := false));
    case Leave => RelabelInv(s, Next(s, t));
    case BeginDrive => RelabelInv(s, Next(s, t));
    case BeginRun => RelabelInv(s, Next(s, t));
    case EndRun => RelabelInv(s, Next(s, t));
  }

  /** Whether an executor is running is nobody's state but its own. */
  lemma {:induction false} RelabelInv(s: State, r: State)
    requires Inv(s) && r == s.(rootBusy := r.rootBusy, running := r.running, driving := r.driving)
    requires r.rootBusy ==> s.rootBusy
    ensures Inv(r)
  {
    forall b | 0 <= b < |r.actors| ensures ActorOk(r, b, {}) {
      assert ActorOk(s, b, {});
    }
    forall w | 0 <= w < |r.workers| ensures WorkerOk(r, w) {
      assert WorkerOk(s, w);
    }
  }

  /** Unwinding a blocked root moves nobody. */
  lemma {:induction false} RootWakesInv(s: State)
    requires Inv(s) && s.actors[s.root].status.Blocked? && !s.actors[s.root].parked
    ensures Inv(SetActor(s, s.root, s.actors[s.root].(status := Runnable)))
  {
    var r := SetActor(s, s.root, s.actors[s.root].(status := Runnable));
    forall b | 0 <= b < |r.actors| ensures ActorOk(r, b, {}) {
      assert ActorOk(s, b, {});
    }
    forall w | 0 <= w < |r.workers| ensures WorkerOk(r, w) {
      assert WorkerOk(s, w);
    }
  }

  lemma {:induction false} QueuedUnowned(s: State, a: nat)
    requires Inv(s) && s.queue != [] && a == s.queue[0]
    ensures a < |s.actors| && s.actors[a].owner.None?
  {
    assert ActorOk(s, a, {});
  }

  lemma {:induction false} HeldExists(s: State, w: nat)
    requires Inv(s) && w < |s.workers| && Holds(s.workers[w].pc).Some?
    ensures Holds(s.workers[w].pc).value < |s.actors|
  {
    assert WorkerOk(s, w);
  }

  lemma {:induction false} BoundExists(s: State, w: nat)
    requires Inv(s) && w < |s.workers| && s.workers[w].role.Bound?
    ensures s.workers[w].actor.Some? && s.workers[w].actor.value < |s.actors|
  {
    assert WorkerOk(s, w);
  }

  lemma {:induction false} BusyPositive(s: State, w: nat)
    requires Inv(s) && w < |s.workers| && !s.workers[w].pc.Loop?
    ensures s.busy > 0
  {
    CountBusy(s.workers, w);
  }

  lemma {:induction false} ParkedBlocked(s: State, a: nat)
    requires Inv(s) && a < |s.actors| && s.actors[a].parked
    ensures s.actors[a].status.Blocked?
  {
    assert ActorOk(s, a, {});
  }

  // ----------------------------------------------------------------------- runs

  /** An executor just attached: `width` general workers, and the actors as a scheduler
      without workers leaves them, queued exactly when they are runnable. */
  ghost predicate Init(s: State) {
    && s.width > 0 && s.workers == seq(s.width, i => Worker(General, None, false, Loop))
    && s.readyBound == 0 && s.busy == 0 && s.generals == s.width
    && !s.rootBusy && !s.running && !s.driving
    && s.root < |s.actors| && s.actors[s.root].status.Runnable? && s.actors[s.root].place.Nowhere?
    && (forall a :: 0 <= a < |s.actors| ==> Unattached(s, a)) && QueueOk(s)
  }

  ghost predicate Unattached(s: State, a: nat)
    requires a < |s.actors|
  {
    var x := s.actors[a];
    && x.owner.None? && (x.status.Blocked? && !x.parked ==> x.mail == 0) && (x.parked ==> x.status.Blocked?)
    && (if x.status.Runnable? && a != s.root then x.place.Queued? && a in s.queue else x.place.Nowhere?)
  }

  lemma {:induction false} CountAll(n: nat, x: Worker, f: Worker -> bool)
    ensures Count(seq(n, i => x), f) == if f(x) then n else 0
  {
    if n > 0 {
      assert seq(n, i => x)[1..] == seq(n - 1, i => x);
      CountAll(n - 1, x, f);
    }
  }

  lemma {:induction false} InitInv(s: State)
    requires Init(s)
    ensures Inv(s)
  {
    CountAll(s.width, Worker(General, None, false, Loop), IS_GENERAL);
    CountAll(s.width, Worker(General, None, false, Loop), IS_READY);
    CountAll(s.width, Worker(General, None, false, Loop), IS_BUSY);
    forall a | 0 <= a < |s.actors| ensures ActorOk(s, a, {}) {
      assert Unattached(s, a);
    }
  }

  /** Any interleaving of the critical sections, over any number of drives and runs. */
  ghost predicate Run(states: seq<State>, steps: seq<Step>) {
    && |states| == |steps| + 1 && Init(states[0])
    && forall i :: 0 <= i < |steps| ==> Inv(states[i]) ==>
        Enabled(states[i], steps[i]) && states[i + 1] == Next(states[i], steps[i])
  }

  lemma RunStep(states: seq<State>, steps: seq<Step>, i: nat)
    requires Run(states, steps) && i < |steps| && Inv(states[i])
    ensures Enabled(states[i], steps[i]) && states[i + 1] == Next(states[i], steps[i])
  {
    hide Inv, Enabled, Next, Init;
  }

  lemma {:induction false} RunInv(states: seq<State>, steps: seq<Step>, i: nat)
    requires Run(states, steps) && i < |states|
    ensures Inv(states[i])
  {
    hide Inv, Next, Enabled;
    if i == 0 {
      InitInv(states[0]);
    } else {
      RunInv(states, steps, i - 1);
      RunStep(states, steps, i - 1);
      StepInv(states[i - 1], steps[i - 1]);
    }
  }

  // ------------------------------------------------------------- between two drives

  /** Outside a drive, and once it winds down, the root is at rest: runnable, in
      nobody's hand, and so never woken into the shared queue. */
  ghost predicate RootRests(s: State) {
    s.root < |s.actors| && (!s.running || !s.driving ==> s.actors[s.root].status.Runnable? && !s.rootBusy)
  }

  /** Statuses move to Runnable, but for actor `a`, and the rest stays. */
  ghost predicate OthersWake(s: State, r: State, a: nat) {
    && |s.actors| <= |r.actors| && r.root == s.root
    && r.rootBusy == s.rootBusy && r.running == s.running && r.driving == s.driving
    && forall b :: 0 <= b < |s.actors| && b != a ==>
        r.actors[b].status == s.actors[b].status || r.actors[b].status.Runnable?
  }

  lemma EnqueueWakes(s: State, a: nat)
    requires a < |s.actors|
    ensures OthersWake(s, Enqueue(s, a), a) && |Enqueue(s, a).actors| == |s.actors|
    ensures forall b :: 0 <= b < |s.actors| ==> Enqueue(s, a).actors[b].status == s.actors[b].status
  {
  }

  lemma DeliverWakes(s: State, to: nat, a: nat)
    requires to < |s.actors|
    ensures OthersWake(s, Deliver(s, to), a) && |Deliver(s, to).actors| == |s.actors|
    ensures forall b :: 0 <= b < |s.actors| ==>
              Deliver(s, to).actors[b].status == s.actors[b].status || Deliver(s, to).actors[b].status.Runnable?
  {
    hide Enqueue;
    EnqueueWakes(SetActor(s, to, s.actors[to].(status := Runnable, parked := false)), to);
  }

  lemma {:induction false} CompleteWakes(s: State, a: nat, f: Finish)
    requires a < |s.actors| && (f.SendTo? ==> f.to < |s.actors|)
    ensures OthersWake(s, Complete(s, a, f), a)
  {
    hide Enqueue, Deliver;
    EnqueueWakes(s, a);
    match f
    case Receive =>
      if s.actors[a].mail > 0 {
        EnqueueWakes(SetActor(s, a, s.actors[a].(mail := s.actors[a].mail - 1)), a);
      }
    case SendTo(to) =>
      DeliverWakes(s, to, a);
      EnqueueWakes(Deliver(s, to), a);
    case SpawnChild =>
      EnqueueWakes(s.(actors := s.actors + [Actor(Runnable, 0, false, false, None, Queued)],
                      queue := s.queue + [|s.actors|]), a);
    case _ =>
  }

  lemma {:induction false} BindWakes(s: State, w: nat, a: nat)
    requires w < |s.workers| && a < |s.actors| && s.generals > 0
    ensures OthersWake(s, Bind(s, w, a), |s.actors|)
  {
    hide FindSpare;
  }

  lemma {:induction false} RestStep(s: State, t: Step)
    requires Inv(s) && Enabled(s, t) && RootRests(s)
    ensures RootRests(Next(s, t)) && Next(s, t).root == s.root
  {
    hide Inv, Enqueue, Deliver, Complete, Awaken, Bind, Quiet;
    match t
    case EndActor(w, f) =>
      HeldElsewhere(s, w);
      CompleteWakes(SetWorker(s, w, s.workers[w].(pc := After)), Holds(s.workers[w].pc).value, f);
    case RootEnds(f) =>
      BusyRunnable(s);
      if !f.Stop? {
        CompleteWakes(s.(rootBusy := false), s.root, f);
      }
    case Deposit(_, a) => AwakenWakes(s, a);
    case Inject(to) => DeliverWakes(s, to, |s.actors|);
    case TakeQueued(w) => GrabRests(s, w);
    case TakeBound(w) => BoundExists(s, w);
    case EffectIn(w) =>
      HeldExists(s, w);
      GeneralsPositive(s);
      BindWakes(s, w, Holds(s.workers[w].pc).value);
    case Settle(w) =>
      if s.workers[w].role.Bound? {
        BoundExists(s, w);
      }
    case GiveUp => BlockedIdle(s);
    case _ =>
  }

  lemma {:induction false} GrabRests(s: State, w: nat)
    requires Inv(s) && Enabled(s, TakeQueued(w)) && RootRests(s)
    ensures RootRests(Next(s, TakeQueued(w))) && Next(s, TakeQueued(w)).root == s.root
  {
    hide Inv, Bind;
    QueuedUnowned(s, s.queue[0]);
    GrabInv(s, w);
    GeneralsPositive(Grab(s, w));
    BindWakes(Grab(s, w), w, s.queue[0]);
  }

  lemma BusyRunnable(s: State)
    requires Inv(s) && s.rootBusy
    ensures s.root < |s.actors| && s.actors[s.root].status.Runnable?
  {
  }

  lemma GeneralsPositive(s: State)
    requires Inv(s)
    ensures s.generals > 0
  {
  }

  lemma BlockedIdle(s: State)
    requires Inv(s) && s.root < |s.actors| && s.actors[s.root].status.Blocked?
    ensures !s.rootBusy
  {
  }

  lemma AwakenWakes(s: State, a: nat)
    requires a < |s.actors|
    ensures OthersWake(s, Awaken(s, a), |s.actors|)
  {
    hide Enqueue;
    EnqueueWakes(SetActor(s, a, s.actors[a].(status := Runnable, parked := false)), a);
  }

  /** No worker ever holds the root. */
  lemma {:induction false} HeldElsewhere(s: State, w: nat)
    requires Inv(s) && w < |s.workers| && Holds(s.workers[w].pc).Some?
    ensures Holds(s.workers[w].pc).value < |s.actors| && Holds(s.workers[w].pc).value != s.root
  {
    assert WorkerOk(s, w) && ActorOk(s, s.root, {});
  }

  /** Over any number of drives and runs: outside a drive the root is runnable and in
      no queue, slot or worker's hand, so the next drive finds it where it was left. */
  lemma {:induction false} RootAtRest(states: seq<State>, steps: seq<Step>, i: nat)
    requires Run(states, steps) && i < |states|
    ensures var s := states[i];
            && s.root < |s.actors| && s.root == states[0].root && s.root !in s.queue
            && (!s.running || !s.driving ==> s.actors[s.root].status.Runnable? && !s.rootBusy)
    ensures forall w :: 0 <= w < |states[i].workers| ==> Holds(states[i].workers[w].pc) != Some(states[i].root)
  {
    hide Inv, Next, Enabled;
    RestRun(states, steps, i);
    RunInv(states, steps, i);
    RootUnheld(states[i]);
  }

  lemma {:induction false} RestRun(states: seq<State>, steps: seq<Step>, i: nat)
    requires Run(states, steps) && i < |states|
    ensures RootRests(states[i]) && states[i].root == states[0].root
    decreases i
  {
    hide Inv, Next, Enabled, Unattached, QueueOk;
    if i > 0 {
      RestRun(states, steps, i - 1);
      RunInv(states, steps, i - 1);
      RunStep(states, steps, i - 1);
      RestStep(states[i - 1], steps[i - 1]);
    }
  }

  lemma {:induction false} RootUnheld(s: State)
    requires Inv(s)
    ensures s.root !in s.queue && forall w :: 0 <= w < |s.workers| ==> Holds(s.workers[w].pc) != Some(s.root)
  {
    assert ActorOk(s, s.root, {});
    forall w | 0 <= w < |s.workers| ensures Holds(s.workers[w].pc) != Some(s.root) {
      if Holds(s.workers[w].pc).Some? {
        HeldElsewhere(s, w);
      }
    }
  }

  ghost predicate InSlot(s: State, a: nat)
    requires a < |s.actors|
  {
    s.actors[a].owner.Some? && s.actors[a].owner.value < |s.workers| && s.workers[s.actors[a].owner.value].ready
  }

  ghost predicate Running(s: State, a: nat) {
    exists w :: 0 <= w < |s.workers| && Holds(s.workers[w].pc) == Some(a)
  }

  /** Main result: in every interleaving a spawned actor is runnable exactly when
      it is queued, in its owner's ready slot, or being run, and never in two
      of these, queued twice or run by two workers; and the shared pool always
      has its configured width. */
  lemma {:induction false} Ownership(states: seq<State>, steps: seq<Step>, i: nat, a: nat)
    requires Run(states, steps) && i < |states| && a < |states[i].actors| && a != states[i].root
    ensures var s := states[i];
            && (s.actors[a].status.Runnable? <==> a in s.queue || InSlot(s, a) || Running(s, a))
            && !(a in s.queue && InSlot(s, a)) && !(a in s.queue && Running(s, a)) && !(InSlot(s, a) && Running(s, a))
            && (forall j, k :: 0 <= j < k < |s.queue| ==> !(s.queue[j] == a && s.queue[k] == a))
            && (forall v, w :: (0 <= v < |s.workers| && 0 <= w < |s.workers| && Holds(s.workers[v].pc) == Some(a)
                                && Holds(s.workers[w].pc) == Some(a)) ==> v == w)
            && Count(s.workers, IS_GENERAL) == s.width
  {
    RunInv(states, steps, i);
    var s := states[i];
    assert ActorOk(s, a, {});
    forall w | 0 <= w < |s.workers|
      ensures Holds(s.workers[w].pc) == Some(a) ==> s.actors[a].place == Held(w)
      ensures s.workers[w].actor == Some(a) && s.workers[w].ready ==> s.actors[a].place == Slot(w)
    {
      assert WorkerOk(s, w);
    }
    assert a in s.queue ==> s.actors[a].place.Queued?;
  }

  /** A bound worker and its actor point at each other, and nobody else at either. */
  lemma {:induction false} MutualBinding(states: seq<State>, steps: seq<Step>, i: nat, a: nat, w: nat)
    requires Run(states, steps) && i < |states| && a < |states[i].actors| && w < |states[i].workers|
    ensures var s := states[i];
            && (s.actors[a].owner == Some(w) <==> s.workers[w].actor == Some(a))
            && (s.workers[w].role.Bound? <==> s.workers[w].actor.Some?)
  {
    RunInv(states, steps, i);
    var s := states[i];
    assert ActorOk(s, a, {}) && WorkerOk(s, w);
  }

  /** The verdict is sound: every actor that has not ended, the root included, is
      blocked on a receive with an empty mailbox. */
  lemma {:induction false} DeadlockIsReal(states: seq<State>, steps: seq<Step>, i: nat, a: nat)
    requires Run(states, steps) && i < |states| && Deadlock(states[i])
    requires a < |states[i].actors| && !Terminal(states[i].actors[a])
    ensures states[i].actors[a].status.Blocked? && !states[i].actors[a].parked && states[i].actors[a].mail == 0
  {
    RunInv(states, steps, i);
    if a == states[i].root {
      assert ActorOk(states[i], a, {});
    } else {
      QuietIsReal(states, steps, i, a);
    }
  }

  /** A run without a root ends only when every spawned actor has ended or waits on an
      empty mailbox. */
  lemma {:induction false} QuietIsReal(states: seq<State>, steps: seq<Step>, i: nat, a: nat)
    requires Run(states, steps) && i < |states| && Quiet(states[i])
    requires a < |states[i].actors| && a != states[i].root && !Terminal(states[i].actors[a])
    ensures states[i].actors[a].status.Blocked? && !states[i].actors[a].parked && states[i].actors[a].mail == 0
  {
    RunInv(states, steps, i);
    var s := states[i];
    assert ActorOk(s, a, {});
    if s.actors[a].place.Slot? {
      CountReady(s.workers, s.actors[a].place.worker);
    } else if s.actors[a].place.Held? {
      CountBusy(s.workers, s.actors[a].place.worker);
    }
  }

  /** And complete: once the root waits, no worker is busy, no handle is in
      flight and no actor is runnable, the verdict is given. */
  lemma {:induction false} QuietIsDeadlock(states: seq<State>, steps: seq<Step>, i: nat)
    requires Run(states, steps) && i < |states|
    requires states[i].root < |states[i].actors| && states[i].actors[states[i].root].status.Blocked?
             && states[i].busy == 0
    requires forall a :: 0 <= a < |states[i].actors| ==>
             !states[i].actors[a].status.Runnable? && !states[i].actors[a].parked
    ensures Deadlock(states[i])
  {
    hide Inv;
    RunInv(states, steps, i);
    QueuedRunnable(states[i]);
    SlotRunnable(states[i]);
  }

  lemma {:induction false} QueuedRunnable(s: State)
    requires Inv(s)
    ensures s.queue == [] || (s.queue[0] < |s.actors| && s.actors[s.queue[0]].status.Runnable?)
  {
    if s.queue != [] {
      assert ActorOk(s, s.queue[0], {});
    }
  }

  lemma {:induction false} SlotRunnable(s: State)
    requires Inv(s)
    ensures s.readyBound == 0 || exists a :: 0 <= a < |s.actors| && s.actors[a].status.Runnable?
  {
    if s.readyBound > 0 {
      var w := SomeReady(s.workers);
      assert WorkerOk(s, w);
      assert ActorOk(s, s.workers[w].actor.value, {});
    }
  }

  lemma {:induction false} SomeReady(ws: seq<Worker>) returns (w: nat)
    requires Count(ws, IS_READY) > 0
    ensures w < |ws| && ws[w].ready
  {
    if ws[0].ready {
      w := 0;
    } else {
      w := SomeReady(ws[1..]);
      w := w + 1;
    }
  }

  // ----------------------------------------------------------- what the flags stand for

  /** A drive or a run has begun and not ended. */
  ghost function Begun(steps: seq<Step>, n: nat): (r: bool)
    requires n <= |steps|
  {
    n > 0 && (if steps[n - 1].BeginDrive? || steps[n - 1].BeginRun? then true
              else if steps[n - 1].GiveUp? || steps[n - 1].EndRun? then false
              else if steps[n - 1].RootEnds? && steps[n - 1].f.Stop? then false
              else Begun(steps, n - 1))
  }

  /** A drive has begun and its caller has not left. */
  ghost function Within(steps: seq<Step>, n: nat): (r: bool)
    requires n <= |steps|
  {
    n > 0 && (steps[n - 1].BeginDrive? || (!steps[n - 1].Leave? && Within(steps, n - 1)))
  }

  /** The caller is running the root. */
  ghost function InRoot(steps: seq<Step>, n: nat): (r: bool)
    requires n <= |steps|
  {
    n > 0 && (steps[n - 1].RootRuns? || (!steps[n - 1].RootEnds? && InRoot(steps, n - 1)))
  }

  /** In every run the flags say just that. */
  lemma {:induction false} FlagsMean(states: seq<State>, steps: seq<Step>, n: nat)
    requires Run(states, steps) && n < |states|
    ensures var s := states[n];
            s.running == Begun(steps, n) && s.driving == Within(steps, n) && s.rootBusy == InRoot(steps, n)
    decreases n
  {
    hide Inv, Next, Enabled, QueueOk, Unattached;
    if n > 0 {
      FlagsMean(states, steps, n - 1);
      RunInv(states, steps, n - 1);
      RunStep(states, steps, n - 1);
      StepFlags(states[n - 1], steps[n - 1]);
    }
  }

  lemma {:induction false} StepFlags(s: State, t: Step)
    requires Inv(s) && Enabled(s, t)
    ensures var r := Next(s, t);
            && r.running == (if t.BeginDrive? || t.BeginRun? then true
                             else if t.GiveUp? || t.EndRun? || (t.RootEnds? && t.f.Stop?) then false else s.running)
            && r.driving == (t.BeginDrive? || (s.driving && !t.Leave?))
            && r.rootBusy == (t.RootRuns? || (s.rootBusy && !t.RootEnds?))
  {
    hide Inv, Enqueue, Deliver, Complete, Awaken, Bind, Quiet;
    match t
    case EndActor(w, f) =>
      HeldExists(s, w);
      CompleteWakes(SetWorker(s, w, s.workers[w].(pc := After)), Holds(s.workers[w].pc).value, f);
    case RootEnds(f) =>
      if !f.Stop? {
        CompleteWakes(s.(rootBusy := false), s.root, f);
      }
    case Deposit(_, a) => AwakenWakes(s, a);
    case Inject(to) => DeliverWakes(s, to, |s.actors|);
    case TakeQueued(w) =>
      QueuedUnowned(s, s.queue[0]);
      GrabInv(s, w);
      GeneralsPositive(Grab(s, w));
      BindWakes(Grab(s, w), w, s.queue[0]);
    case TakeBound(w) => BoundExists(s, w);
    case EffectIn(w) =>
      HeldExists(s, w);
      GeneralsPositive(s);
      BindWakes(s, w, Holds(s.workers[w].pc).value);
    case Settle(w) =>
      if s.workers[w].role.Bound? {
        BoundExists(s, w);
      }
    case _ =>
  }
}
