/**
  No message is lost or invented by the multi-threaded executor (pkg/enki/src/actor.c:368-427,
  517-600): in every interleaving, what was sent to an actor is what it has taken and what
  still waits in its mailbox.
 */
module ExecutorMail {
  import opened Basics
  import opened Executor

  /** Messages waiting for an actor; none before it exists. */
  ghost function Waiting(s: State, a: nat): (n: nat) {
    if a < |s.actors| then s.actors[a].mail else 0
  }

  /** Whom a step sends a message to: a send by the actor a worker holds or by the
      root, or an injection. */
  ghost function Addressee(t: Step): (to: Option<nat>) {
    match t
    case EndActor(_, f) => if f.SendTo? then Some(f.to) else None
    case RootEnds(f) => if f.SendTo? then Some(f.to) else None
    case Inject(to) => Some(to)
    case _ => None
  }

  ghost function Sent(t: Step, a: nat): (n: nat) {
    if Addressee(t) == Some(a) then 1 else 0
  }

  /** Who receives in a step. */
  ghost predicate Receives(s: State, t: Step, a: nat) {
    match t
    case EndActor(w, f) => f.Receive? && w < |s.workers| && Holds(s.workers[w].pc) == Some(a)
    case RootEnds(f) => f.Receive? && a == s.root
    case _ => false
  }

  /** An actor parked on a receive, which the next message answers. */
  ghost predicate Listens(s: State, a: nat) {
    a < |s.actors| && s.actors[a].status.Blocked? && !s.actors[a].parked
  }

  /** Messages an actor takes in a step: one from its mailbox, or the one that answers
      the receive it is blocked on. */
  ghost function Taken(s: State, t: Step, a: nat): (n: nat) {
    if Receives(s, t, a) && Waiting(s, a) > 0 then 1
    else if Sent(t, a) == 1 && Listens(s, a) then 1
    else 0
  }

  // ------------------------------------------------------------------------ one step

  /** Only mailboxes matter here. */
  ghost predicate MailKept(s: State, r: State, a: nat) {
    |s.actors| <= |r.actors| && Waiting(r, a) == Waiting(s, a)
  }

  lemma EnqueueMail(s: State, x: nat, a: nat)
    requires x < |s.actors|
    ensures MailKept(s, Enqueue(s, x), a) && |Enqueue(s, x).actors| == |s.actors|
  {
  }

  lemma AwakenMail(s: State, x: nat, a: nat)
    requires x < |s.actors|
    ensures MailKept(s, Awaken(s, x), a) && |Awaken(s, x).actors| == |s.actors|
  {
    hide Enqueue;
    EnqueueMail(SetActor(s, x, s.actors[x].(status := Runnable, parked := false)), x, a);
  }

  /** A delivery answers a listener or waits in the mailbox. */
  lemma DeliverMail(s: State, to: nat, a: nat)
    requires to < |s.actors|
    ensures var r := Deliver(s, to);
            && |r.actors| == |s.actors|
            && Waiting(r, a) == Waiting(s, a) + if a == to && !Listens(s, to) then 1 else 0
  {
    hide Awaken;
    AwakenMail(s, to, a);
  }

  lemma {:induction false} CompleteMail(s: State, x: nat, f: Finish, a: nat)
    requires x < |s.actors| && (f.SendTo? ==> f.to < |s.actors|)
    ensures var r := Complete(s, x, f);
            && |s.actors| <= |r.actors|
            && Waiting(r, a) + (if f.Receive? && a == x && Waiting(s, a) > 0 then 1 else 0)
               == Waiting(s, a) + (if f == SendTo(a) && !Listens(s, a) then 1 else 0)
  {
    hide Enqueue, Deliver;
    EnqueueMail(s, x, a);
    match f
    case Receive =>
      if s.actors[x].mail > 0 {
        EnqueueMail(SetActor(s, x, s.actors[x].(mail := s.actors[x].mail - 1)), x, a);
      }
    case SendTo(to) =>
      DeliverMail(s, to, a);
      EnqueueMail(Deliver(s, to), x, a);
    case SpawnChild =>
      EnqueueMail(s.(actors := s.actors + [Actor(Runnable, 0, false, false, None, Queued)],
                     queue := s.queue + [|s.actors|]), x, a);
    case _ =>
  }

  lemma BindMail(s: State, w: nat, x: nat, a: nat)
    requires w < |s.workers| && x < |s.actors| && s.generals > 0
    ensures MailKept(s, Bind(s, w, x), a)
  {
    hide FindSpare;
  }

  /** What one step does to an actor's messages. */
  ghost predicate Conserves(s: State, t: Step, a: nat)
    requires Inv(s) && Enabled(s, t)
  {
    && |s.actors| <= |Next(s, t).actors|
    && Waiting(Next(s, t), a) + Taken(s, t, a) == Waiting(s, a) + Sent(t, a)
  }

  /** Every step conserves every actor's messages. */
  lemma {:induction false} StepMail(s: State, t: Step, a: nat)
    requires Inv(s) && Enabled(s, t)
    ensures Conserves(s, t, a)
  {
    hide Inv, Enabled, Conserves;
    match t
    case EndActor(w, f) => EndMail(s, w, f, a);
    case RootEnds(f) => RootMail(s, f, a);
    case TakeQueued(w) => GrabMail(s, w, a);
    case EffectIn(w) => EffectMail(s, w, a);
    case Deposit(w, x) => WakeMail(s, t, a);
    case Inject(to) => WakeMail(s, t, a);
    case Settle(w) => SettleMail(s, w, a);
    case ReleaseIdle(w) => SettleMail(s, w, a);
    case TakeBound(w) => BoundMail(s, w, a);
    case _ => PlainMail(s, t, a);
  }

  lemma {:induction false} EndMail(s: State, w: nat, f: Finish, a: nat)
    requires Inv(s) && Enabled(s, EndActor(w, f))
    ensures Conserves(s, EndActor(w, f), a)
  {
    hide Inv, Complete;
    HeldExists(s, w);
    HolderRuns(s, w);
    CompleteMail(SetWorker(s, w, s.workers[w].(pc := After)), Holds(s.workers[w].pc).value, f, a);
  }

  lemma {:induction false} RootMail(s: State, f: Finish, a: nat)
    requires Inv(s) && Enabled(s, RootEnds(f))
    ensures Conserves(s, RootEnds(f), a)
  {
    hide Inv, Complete;
    BusyRunnable(s);
    if !f.Stop? {
      CompleteMail(s.(rootBusy := false), s.root, f, a);
    }
  }

  lemma {:induction false} EffectMail(s: State, w: nat, a: nat)
    requires Inv(s) && Enabled(s, EffectIn(w))
    ensures Conserves(s, EffectIn(w), a)
  {
    hide Inv, Bind;
    HeldExists(s, w);
    GeneralsPositive(s);
    BindMail(s, w, Holds(s.workers[w].pc).value, a);
  }

  lemma {:induction false} WakeMail(s: State, t: Step, a: nat)
    requires Inv(s) && Enabled(s, t) && (t.Deposit? || t.Inject?)
    ensures Conserves(s, t, a)
  {
    hide Inv, Awaken, Deliver;
    if t.Deposit? {
      AwakenMail(s, t.a, a);
    } else {
      DeliverMail(s, t.to, a);
    }
  }

  lemma {:induction false} SettleMail(s: State, w: nat, a: nat)
    requires Inv(s)
    ensures Enabled(s, Settle(w)) ==> Conserves(s, Settle(w), a)
    ensures Enabled(s, ReleaseIdle(w)) ==> Conserves(s, ReleaseIdle(w), a)
  {
    hide Inv, Holds;
    if w < |s.workers| && s.workers[w].role.Bound? {
      BoundExists(s, w);
    }
  }

  lemma {:induction false} BoundMail(s: State, w: nat, a: nat)
    requires Inv(s) && Enabled(s, TakeBound(w))
    ensures Conserves(s, TakeBound(w), a)
  {
    hide Inv, Holds;
    BoundExists(s, w);
  }

  lemma {:induction false} PlainMail(s: State, t: Step, a: nat)
    requires Inv(s) && Enabled(s, t) && !t.EndActor? && !t.RootEnds? && !t.TakeQueued? && !t.EffectIn?
             && !t.Deposit? && !t.Inject? && !t.Settle? && !t.ReleaseIdle? && !t.TakeBound?
    ensures Conserves(s, t, a)
  {
    hide Inv, Quiet, Holds;
  }

  lemma {:induction false} GrabMail(s: State, w: nat, a: nat)
    requires Inv(s) && Enabled(s, TakeQueued(w))
    ensures Conserves(s, TakeQueued(w), a)
  {
    hide Inv, Bind;
    QueuedUnowned(s, s.queue[0]);
    GrabInv(s, w);
    GeneralsPositive(Grab(s, w));
    BindMail(Grab(s, w), w, s.queue[0], a);
  }

  /** Whoever is being run listens to nothing. */
  lemma {:induction false} HolderRuns(s: State, w: nat)
    requires Inv(s) && w < |s.workers| && Holds(s.workers[w].pc).Some?
    ensures !Listens(s, Holds(s.workers[w].pc).value)
  {
    assert WorkerOk(s, w);
    assert ActorOk(s, Holds(s.workers[w].pc).value, {});
  }

  // ------------------------------------------------------------------------ whole runs

  ghost function TotalSent(steps: seq<Step>, n: nat, a: nat): (r: nat)
    requires n <= |steps|
  {
    if n == 0 then 0 else TotalSent(steps, n - 1, a) + Sent(steps[n - 1], a)
  }

  ghost function TotalTaken(states: seq<State>, steps: seq<Step>, n: nat, a: nat): (r: nat)
    requires n <= |steps| < |states|
  {
    if n == 0 then 0 else TotalTaken(states, steps, n - 1, a) + Taken(states[n - 1], steps[n - 1], a)
  }

  /** Main result: over every run, what an actor had and was sent is what it has taken
      and what still waits. */
  lemma {:induction false} MailConserved(states: seq<State>, steps: seq<Step>, n: nat, a: nat)
    requires Run(states, steps) && n < |states|
    ensures Waiting(states[0], a) + TotalSent(steps, n, a)
            == TotalTaken(states, steps, n, a) + Waiting(states[n], a)
    decreases n
  {
    hide Inv, Next, Enabled, Init, Taken, Sent, Waiting;
    if n > 0 {
      MailConserved(states, steps, n - 1, a);
      RunInv(states, steps, n - 1);
      RunStep(states, steps, n - 1);
      StepMail(states[n - 1], steps[n - 1], a);
    }
  }

  /** So a deadlock is never due to a lost message: whoever is left has taken all that
      was sent to it. */
  lemma {:induction false} DeadlockTookAll(states: seq<State>, steps: seq<Step>, n: nat, a: nat)
    requires Run(states, steps) && n < |states| && Deadlock(states[n])
    requires a < |states[n].actors| && !Terminal(states[n].actors[a])
    ensures Waiting(states[0], a) + TotalSent(steps, n, a) == TotalTaken(states, steps, n, a)
  {
    MailConserved(states, steps, n, a);
    DeadlockIsReal(states, steps, n, a);
  }
}
