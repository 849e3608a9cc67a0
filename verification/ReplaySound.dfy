/**
  The divergence checks of a replay (pkg/enki/src/actor.c:1419-1465, 1520-1532): a replay
  that passes them all is a run that could have been recorded, and the events it has
  consumed are what recording that run would have logged.
 */
module ReplaySound {
  import opened Basics
  import opened Replay
  import opened ReplayProof

  /** What a recorder leaves in the fields that no check looks at: no operation outside
      direct effects, no hash in an injection, and an error code for a refused fetch. */
  ghost predicate Formatted(e: Event) {
    && (!e.kind.Io? ==> e.op == 0) && (e.kind.Injected? ==> e.hash == 0)
    && (e.kind.FetchRefused? ==> |e.data| == 2 && e.data[0] == 1)
  }

  ghost predicate FormattedLog(log: seq<Event>) {
    forall i :: 0 <= i < |log| ==> Formatted(log[i])
  }

  /** What the embedder did: its messages and drives, in order. */
  ghost function Inputs(labels: seq<Label>): (r: seq<Label>) {
    if labels == [] then []
    else
      var l := labels[|labels| - 1];
      Inputs(labels[..|labels| - 1]) + if l.Inject? || l.Enter? then [l] else []
  }

  lemma InputsSnoc(labels: seq<Label>, l: Label)
    ensures Inputs(labels + [l]) == Inputs(labels) + if l.Inject? || l.Enter? then [l] else []
  {
    assert (labels + [l])[..|labels|] == labels;
  }

  lemma InputsNone()
    ensures Inputs([]) == []
  {
  }

  /** The recording that a replay stands for: nothing waits in the completion queue. */
  ghost predicate Tracks<T>(log: seq<Event>, p: Replaying<T>, s: Recording<T>) {
    && RecordInv(s) && s.done == [] && s.core == p.core && p.cursor <= |log| && s.log == log[..p.cursor]
  }

  lemma LogSnoc(log: seq<Event>, n: nat)
    requires n < |log|
    ensures log[..n + 1] == log[..n] + [log[n]]
  {
  }

  // ------------------------------------------------------------------------ one step

  /** The host's answers that make a recorded slice go the way the replay went. */
  ghost function Answers<T>(m: Machine<T>, log: seq<Event>, p: Replaying<T>): (l: Label)
    requires FormattedLog(log)
  {
    if p.cursor >= |log| then Tick([], None)
    else
      var e := log[p.cursor];
      Tick(e.data, if e.kind.FetchRefused? && p.core.running == Some(e.actor) then Some(e.data[1]) else None)
  }

  lemma {:induction false} SliceSound<T>(m: Machine<T>, log: seq<Event>, p: Replaying<T>, s: Recording<T>, a: nat)
    requires FormattedLog(log) && Tracks(log, p, s) && p.core.running == Some(a) && a < |p.core.actors|
    requires ReplaySlice(m, log, p, a).Some?
    ensures var l, r := Answers(m, log, p), ReplaySlice(m, log, p, a).value;
            var s' := RecordSlice(m, s, a, l.data, l.refusal);
            s'.core == r.core && s'.done == [] && r.cursor <= |log| && s'.log == log[..r.cursor]
  {
    hide Wake, Settle, Continue, Suspend, Park, Crash, RecordInv;
    if p.cursor < |log| {
      LogSnoc(log, p.cursor);
      assert Formatted(log[p.cursor]);
      var e := log[p.cursor];
      if e.kind.FetchRefused? {
        assert e.data == [1, e.data[1]];
      }
    }
  }

  /** Finishing the transfer that a logged completion names brings it to the head of the
      completion queue. */
  lemma {:induction false} FinishSound<T>(m: Machine<T>, s: Recording<T>, e: Event) returns (at: nat)
    requires RecordInv(s) && s.done == [] && e.actor < |s.core.actors|
    requires s.core.actors[e.actor].http == Some(e.hash)
    ensures at < |s.inflight| && s.inflight[at] == Transfer(e.actor, e.hash)
  {
    assert Pending(s) == s.inflight;
    assert HasTransfer(s.inflight, e.actor);
    at :| 0 <= at < |s.inflight| && s.inflight[at].actor == e.actor;
    assert WaitsOn(s.core, s.inflight[at]);
  }

  /** A stretch of recording. */
  ghost predicate Stretch<T>(m: Machine<T>, states: seq<Recording<T>>, labels: seq<Label>) {
    && |states| == |labels| + 1
    && forall i :: 0 <= i < |labels| ==> RecordStep(m, states[i], labels[i]) == Some(states[i + 1])
  }

  lemma NoStep<T>(m: Machine<T>, s: Recording<T>)
    ensures Stretch(m, [s], []) && Inputs([]) == []
  {
  }

  lemma OneStep<T>(m: Machine<T>, s: Recording<T>, l: Label)
    requires RecordStep(m, s, l).Some?
    ensures Stretch(m, [s, RecordStep(m, s, l).value], [l])
    ensures Inputs([l]) == if l.Inject? || l.Enter? then [l] else []
  {
    hide RecordStep;
    assert [] + [l] == [l];
    InputsSnoc([], l);
  }

  lemma {:induction false} TwoSteps<T>(m: Machine<T>, s: Recording<T>, f: Label, l: Label)
    requires f.Finish? && l.Tick? && RecordStep(m, s, f).Some?
    requires RecordStep(m, RecordStep(m, s, f).value, l).Some?
    ensures var s1 := RecordStep(m, s, f).value;
            Stretch(m, [s, s1, RecordStep(m, s1, l).value], [f, l]) && Inputs([f, l]) == []
  {
    hide RecordStep, Inputs;
    OneStep(m, s, f);
    assert [f] + [l] == [f, l];
    InputsSnoc([f], l);
  }

  lemma {:induction false} Joined<T>(m: Machine<T>, a: seq<Recording<T>>, x: seq<Label>, b: seq<Recording<T>>,
                                     y: seq<Label>)
    requires Stretch(m, a, x) && Stretch(m, b, y) && a[|x|] == b[0]
    ensures Stretch(m, a + b[1..], x + y) && (a + b[1..])[0] == a[0] && (a + b[1..])[|x + y|] == b[|y|]
    ensures Inputs(x + y) == Inputs(x) + Inputs(y)
  {
    hide RecordStep;
    var states, labels := a + b[1..], x + y;
    forall i | 0 <= i < |labels| ensures RecordStep(m, states[i], labels[i]) == Some(states[i + 1]) {
      if i < |x| {
        assert RecordStep(m, a[i], x[i]) == Some(a[i + 1]);
      } else {
        assert states[i] == b[i - |x|] && states[i + 1] == b[i + 1 - |x|];
        assert RecordStep(m, b[i - |x|], y[i - |x|]) == Some(b[i + 1 - |x|]);
      }
    }
    InputsJoin(x, y);
  }

  /** A logged completion is recorded in two steps: the transfer finishes, and its actor
      is woken. */
  lemma {:induction false} CompletionSound<T>(m: Machine<T>, log: seq<Event>, p: Replaying<T>, s: Recording<T>)
    returns (f: Label)
    requires FormattedLog(log) && Tracks(log, p, s) && ReplayTick(m, log, p).Some?
    requires p.core.running.None? && p.core.queue == [] && Parked(p.core)
    ensures f.Finish? && RecordStep(m, s, f).Some?
    ensures var s1, t := RecordStep(m, s, f).value, Answers(m, log, p);
            RecordStep(m, s1, t).Some? && Tracks(log, ReplayTick(m, log, p).value, RecordStep(m, s1, t).value)
  {
    hide Wake, QueueInv, PendingOk;
    LogSnoc(log, p.cursor);
    assert Formatted(log[p.cursor]);
    var e := log[p.cursor];
    var at := FinishSound(m, s, e);
    f := Finish(at, e.data);
    RecordKeeps(m, s, f);
    StepTracks(m, log, ReplayTick(m, log, p).value, RecordStep(m, s, f).value, Answers(m, log, p));
  }

  /** Any other turn is recorded in one step, unless there is nothing left to do. */
  lemma {:induction false} TurnSound<T>(m: Machine<T>, log: seq<Event>, p: Replaying<T>, s: Recording<T>)
    requires FormattedLog(log) && Tracks(log, p, s) && ReplayTick(m, log, p).Some?
    requires p.core.running.Some? || p.core.queue != [] || !Parked(p.core)
    ensures var q, t := ReplayTick(m, log, p).value, Answers(m, log, p);
            q == p || (RecordStep(m, s, t).Some? && Tracks(log, q, RecordStep(m, s, t).value))
  {
    hide Wake, EndDrive, QueueInv, PendingOk, RecordSlice, ReplaySlice;
    RestAgrees(s);
    var q, t := ReplayTick(m, log, p).value, Answers(m, log, p);
    if p.core.running.Some? {
      SliceSound(m, log, p, s, p.core.running.value);
    }
    if q != p {
      StepTracks(m, log, q, s, t);
    }
  }

  /** Messages and drives are recorded as they are replayed. */
  lemma {:induction false} InputSound<T>(m: Machine<T>, log: seq<Event>, p: Replaying<T>, s: Recording<T>, l: Label)
    requires FormattedLog(log) && Tracks(log, p, s) && ReplayLabel(m, log, p, l).Some? && (l.Inject? || l.Enter?)
    ensures RecordStep(m, s, l).Some? && Tracks(log, ReplayLabel(m, log, p, l).value, RecordStep(m, s, l).value)
  {
    hide Deliver, Arm, QueueInv, PendingOk;
    if p.cursor < |log| {
      LogSnoc(log, p.cursor);
      assert Formatted(log[p.cursor]);
    }
    StepTracks(m, log, ReplayLabel(m, log, p, l).value, s, l);
  }

  /** Every step of a replay is matched by recording no, one or two steps. */
  lemma {:induction false} StepSound<T>(m: Machine<T>, log: seq<Event>, p: Replaying<T>, s: Recording<T>, l: Label)
    returns (states: seq<Recording<T>>, labels: seq<Label>)
    requires FormattedLog(log) && Tracks(log, p, s) && ReplayLabel(m, log, p, l).Some?
    ensures Stretch(m, states, labels) && states[0] == s
    ensures Tracks(log, ReplayLabel(m, log, p, l).value, states[|labels|])
    ensures Inputs(labels) == if l.Inject? || l.Enter? then [l] else []
  {
    hide RecordStep, ReplayTick, ReplayInject, ReplayEnter, Tracks, FormattedLog, Stretch, Inputs, Answers, Parked;
    var t := Answers(m, log, p);
    states, labels := [s], [];
    NoStep(m, s);
    if l.Inject? || l.Enter? {
      InputSound(m, log, p, s, l);
      OneStep(m, s, l);
      states, labels := [s, RecordStep(m, s, l).value], [l];
    } else if l.Tick? && p.core.running.None? && p.core.queue == [] && Parked(p.core) {
      var f := CompletionSound(m, log, p, s);
      var s1 := RecordStep(m, s, f).value;
      AnswersTick(m, log, p);
      TwoSteps(m, s, f, t);
      states, labels := [s, s1, RecordStep(m, s1, t).value], [f, t];
    } else if l.Tick? {
      TurnSound(m, log, p, s);
      if ReplayTick(m, log, p).value != p {
        AnswersTick(m, log, p);
        OneStep(m, s, t);
        states, labels := [s, RecordStep(m, s, t).value], [t];
      }
    }
  }

  lemma AnswersTick<T>(m: Machine<T>, log: seq<Event>, p: Replaying<T>)
    requires FormattedLog(log)
    ensures Answers(m, log, p).Tick?
  {
  }

  lemma {:induction false} StepTracks<T>(m: Machine<T>, log: seq<Event>, q: Replaying<T>, s: Recording<T>, l: Label)
    requires RecordInv(s) && RecordStep(m, s, l).Some?
    requires var r := RecordStep(m, s, l).value;
             r.done == [] && r.core == q.core && q.cursor <= |log| && r.log == log[..q.cursor]
    ensures Tracks(log, q, RecordStep(m, s, l).value)
  {
    hide RecordInv, RecordStep;
    RecordKeeps(m, s, l);
  }

  // ------------------------------------------------------------------------ whole runs

  /** Main result: whatever log a replay is given, as long as it passes every check it is
      in a state that recording could have reached with the same messages and drives, and
      the log up to its cursor is the log of that recording. */
  lemma {:induction false} ReplayIsRecorded<T>(m: Machine<T>, log: seq<Event>, c: Core<T>, labels: seq<Label>)
    returns (states: seq<Recording<T>>, run: seq<Label>)
    requires FormattedLog(log) && RecordInv(Recording(c, [], [], []))
    requires ReplayRun(m, log, Replaying(c, 0), labels).Some?
    ensures RecordRun(m, states, run) && states[0] == Recording(c, [], [], []) && Inputs(run) == Inputs(labels)
    ensures Tracks(log, ReplayRun(m, log, Replaying(c, 0), labels).value, states[|run|])
    decreases |labels|
  {
    hide RecordInv, RecordStep, ReplayLabel, FormattedLog, Inputs;
    if labels == [] {
      InputsNone();
      return [Recording(c, [], [], [])], [];
    }
    var front, l := labels[..|labels| - 1], labels[|labels| - 1];
    var states0, run0 := ReplayIsRecorded(m, log, c, front);
    var p := ReplayRun(m, log, Replaying(c, 0), front).value;
    var states1, run1 := StepSound(m, log, p, states0[|run0|], l);
    Joined(m, states0, run0, states1, run1);
    assert front + [l] == labels;
    InputsSnoc(front, l);
    states, run := states0 + states1[1..], run0 + run1;
  }

  lemma {:induction false} InputsJoin(a: seq<Label>, b: seq<Label>)
    ensures Inputs(a + b) == Inputs(a) + Inputs(b)
    decreases |b|
  {
    if b == [] {
      assert a + b == a;
    } else {
      var front, l := b[..|b| - 1], b[|b| - 1];
      assert a + b == (a + front) + [l];
      InputsSnoc(a + front, l);
      InputsJoin(a, front);
    }
  }
}
