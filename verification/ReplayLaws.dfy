/**
  What recording writes down and how it decides (pkg/enki/src/actor.c:213-256, 617-700,
  1427-1465, pkg/enki/src/http.c:1000-1045): one law per way a slice can end, the events it
  leaves, and the order in which finished transfers are handed to their actors.
 */
module ReplayLaws {
  import opened Basics
  import opened Replay
  import opened ReplayProof
  import opened ReplayMail

  /** The outcome of the running actor's slice. */
  ghost function Sliced<T>(m: Machine<T>, c: Core<T>): (o: Outcome<T>)
    requires c.running.Some? && c.running.value < |c.actors|
  {
    m.resume(c.actors[c.running.value].t)
  }

  /** What a slice of actor `a` writes down: the effect or the read with the hash of its
      arguments and the host's answer, or a fetch refused at once; nothing else. */
  ghost function Written<T>(m: Machine<T>, a: nat, o: Outcome<T>, data: Data, refusal: Option<int>): (r: seq<Event>) {
    match o
    case Effect(op, args, _) => [Event(Io, a, op, m.hash(args), data)]
    case Blocked(ReadBat(arg), _) => [Event(Bat, a, 0, m.hash([arg]), data)]
    case Blocked(ReadFolder(arg), _) => [Event(Folder, a, 0, m.hash([arg]), data)]
    case Blocked(Fetch(arg), _) =>
      if m.parseFetch(arg).Some? && refusal.Some? then
        [Event(FetchRefused, a, 0, m.parseFetch(arg).value, [1, refusal.value])]
      else []
    case _ => []
  }

  lemma {:induction false} SliceWrites<T>(m: Machine<T>, s: Recording<T>, data: Data, refusal: Option<int>)
    requires s.core.running.Some? && s.core.running.value < |s.core.actors|
    ensures var a := s.core.running.value;
            RecordSlice(m, s, a, data, refusal).log == s.log + Written(m, a, Sliced(m, s.core), data, refusal)
  {
    hide Wake, Settle, Continue, Suspend, Park, Crash;
  }

  /** The host's answer is what the actor is told: at once, when its read is done, or as a
      refusal; a fetch under way tells nothing and parks the actor under its hash. */
  lemma {:induction false} HostAnswers<T>(m: Machine<T>, s: Recording<Diary<T>>, data: Data, refusal: Option<int>)
    requires s.core.running.Some? && s.core.running.value < |s.core.actors|
    requires s.core.actors[s.core.running.value].status.Runnable?
    ensures var a, o := s.core.running.value, Sliced(WithDiary(m), s.core);
            var r := RecordSlice(WithDiary(m), s, a, data, refusal);
            match o
            case Effect(_, _, _) =>
              Told(s.core, r.core, a, Result(data)) && r.core.running == Some(a) && r.core.queue == s.core.queue
            case Blocked(Fetch(arg), _) =>
              (if m.parseFetch(arg).None? then
                 r.core.actors[a].t == o.t && r.core.queue == s.core.queue && r.inflight == s.inflight
               else if refusal.Some? then
                 Told(s.core, r.core, a, Result([1, refusal.value])) && r.core.queue == s.core.queue + [a]
               else
                 && r.core.actors[a] == s.core.actors[a].(t := o.t, status := Waiting, http := m.parseFetch(arg))
                 && r.core.queue == s.core.queue && r.inflight == [Transfer(a, m.parseFetch(arg).value)] + s.inflight)
            case Blocked(req, _) =>
              req.ReadBat? || req.ReadFolder? ==>
                Told(s.core, r.core, a, Result(data)) && r.core.running.None? && r.core.queue == s.core.queue + [a]
            case _ => true
  {
  }

  /** How an actor ends: a root's fate is its drive's verdict, anyone else's its status. */
  lemma {:induction false} Endings<T>(m: Machine<T>, s: Recording<T>, data: Data, refusal: Option<int>)
    requires s.core.running.Some? && s.core.running.value < |s.core.actors|
    ensures var a, o, c := s.core.running.value, Sliced(m, s.core), s.core;
            var d := RecordSlice(m, s, a, data, refusal).core;
            && (o.Halted? && c.drive != Driving(a) ==>
                  d == c.(actors := c.actors[a := c.actors[a].(t := o.t, status := Finished)], running := None))
            && (o.Raised? && c.drive != Driving(a) ==>
                  d == c.(actors := c.actors[a := c.actors[a].(t := o.t, status := Crashed)], running := None))
            && ((o.Halted? || o.Raised?) && c.drive == Driving(a) ==>
                  d == c.(actors := c.actors[a := c.actors[a].(t := o.t, status := Resting)], running := None,
                          drive := Driven(a, if o.Halted? then Completed else Failed)))
            && (o.Yielded? ==>
                d == c.(actors := c.actors[a := c.actors[a].(t := o.t)], running := None, queue := c.queue + [a]))
  {
  }

  /** Entering a drive starts the root on its code; a drive that runs dry deadlocks. */
  lemma {:induction false} DriveEnds<T>(m: Machine<T>, s: Recording<T>, l: Label)
    requires RecordInv(s) && RecordStep(m, s, l).Some?
    ensures var c, d := s.core, RecordStep(m, s, l).value.core;
            && (l.Enter? ==> d.drive == Driving(l.root) && d.queue == c.queue + [l.root]
                             && d.actors
                                 == c.actors[l.root := c.actors[l.root].(t := m.start(l.fn), status := Runnable)])
            && (l.Tick? && c.running.None? && c.queue == [] && !Parked(c) ==>
                  Drives(c) && d == c.(actors := c.actors[c.drive.root := c.actors[c.drive.root].(status := Resting)],
                          drive := Driven(c.drive.root, Deadlocked)))
  {
    hide QueueInv, PendingOk;
    RestAgrees(s);
  }

  // ---------------------------------------------------------------- finished transfers

  /** The oldest completion is handed over only when nothing is running or queued. */
  ghost predicate Collects<T>(s: Recording<T>, l: Label) {
    l.Tick? && s.core.running.None? && s.core.queue == [] && s.done != []
  }

  ghost function FinishedBy<T>(s: Recording<T>, l: Label): (r: seq<Completion>) {
    if l.Finish? && l.at < |s.inflight| then [Completion(s.inflight[l.at], l.data)] else []
  }

  ghost function CollectedBy<T>(s: Recording<T>, l: Label): (r: seq<Completion>) {
    if Collects(s, l) then [s.done[0]] else []
  }

  ghost function Arrived<T>(states: seq<Recording<T>>, labels: seq<Label>, n: nat): (r: seq<Completion>)
    requires n <= |labels| < |states|
  {
    if n == 0 then [] else Arrived(states, labels, n - 1) + FinishedBy(states[n - 1], labels[n - 1])
  }

  /** The completions that actors have been woken with. */
  ghost function Collected<T>(states: seq<Recording<T>>, labels: seq<Label>, n: nat): (r: seq<Completion>)
    requires n <= |labels| < |states|
  {
    if n == 0 then [] else Collected(states, labels, n - 1) + CollectedBy(states[n - 1], labels[n - 1])
  }

  lemma {:induction false} StepCollects<T>(m: Machine<T>, s: Recording<T>, l: Label)
    requires RecordInv(s) && RecordStep(m, s, l).Some?
    ensures CollectedBy(s, l) + RecordStep(m, s, l).value.done == s.done + FinishedBy(s, l)
    ensures Collects(s, l) ==>
              var x, a := s.done[0], s.done[0].transfer.actor;
              var d := RecordStep(m, s, l).value;
              && a < |s.core.actors| && d.core.queue == [a]
              && d.core.actors[a]
                  == s.core.actors[a].(t := m.deposit(s.core.actors[a].t, Result(x.data)), status := Runnable,
                  http := None)
              && d.log == s.log + [Event(FetchDone, a, 0, x.transfer.hash, x.data)]
  {
    hide RecordSlice, Deliver, Arm, EndDrive, QueueInv;
    if Collects(s, l) {
      assert Pending(s)[|s.inflight|] == s.done[0].transfer;
      assert WaitsOn(s.core, Pending(s)[|s.inflight|]);
    } else if l.Tick? && s.core.running.Some? {
      SliceDone(m, s, s.core.running.value, l.data, l.refusal);
    }
  }

  lemma SliceDone<T>(m: Machine<T>, s: Recording<T>, a: nat, data: Data, refusal: Option<int>)
    requires a < |s.core.actors|
    ensures RecordSlice(m, s, a, data, refusal).done == s.done
  {
    hide Wake, Settle, Continue, Suspend, Park, Crash;
  }

  /** Main result: transfers finish in any order, and actors are woken in that order, each
      once, with the data its transfer finished with. */
  lemma {:induction false} CompletionsInOrder<T>(m: Machine<T>, states: seq<Recording<T>>, labels: seq<Label>, n: nat)
    requires RecordRun(m, states, labels) && n < |states|
    ensures Collected(states, labels, n) + states[n].done == states[0].done + Arrived(states, labels, n)
    decreases n
  {
    hide RecordInv, RecordStep, CollectedBy, FinishedBy;
    if n > 0 {
      CompletionsInOrder(m, states, labels, n - 1);
      RunKeeps(m, states, labels, n - 1);
      RunStep(m, states, labels, n - 1);
      StepCollects(m, states[n - 1], labels[n - 1]);
      Chain(Collected(states, labels, n - 1), CollectedBy(states[n - 1], labels[n - 1]), states[n].done,
              states[n - 1].done, FinishedBy(states[n - 1], labels[n - 1]), states[0].done,
                  Arrived(states, labels, n - 1));
    }
  }
}
