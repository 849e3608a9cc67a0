/** Replaying the log of any recorded run reproduces it step for step. */
module ReplayProof {
  import opened Basics
  import opened Replay

  // --------------------------------------------------- the scheduler's invariant

  ghost predicate Ready<T>(c: Core<T>, a: nat) {
    a < |c.actors| && c.actors[a].status.Runnable? && c.actors[a].http.None?
  }

  /** Queued actors are ready and queued once; a parked actor waits. */
  ghost predicate QueueInv<T>(c: Core<T>) {
    && (forall i :: 0 <= i < |c.queue| ==> Ready(c, c.queue[i]))
    && (forall i, j :: 0 <= i < j < |c.queue| ==> c.queue[i] != c.queue[j])
    && (forall a :: 0 <= a < |c.actors| && c.actors[a].http.Some? ==> c.actors[a].status.Waiting?)
  }

  /** The actor in hand is ready and not queued. */
  ghost predicate InHand<T>(c: Core<T>, a: nat) {
    Ready(c, a) && a !in c.queue
  }

  ghost predicate CoreInv<T>(c: Core<T>) {
    QueueInv(c) && (c.running.Some? ==> InHand(c, c.running.value))
  }

  /** Every transfer not yet deposited. */
  ghost function Pending<T>(s: Recording<T>): seq<Transfer> {
    s.inflight + Transfers(s.done)
  }

  ghost function Transfers(done: seq<Completion>): (r: seq<Transfer>)
    ensures |r| == |done| && forall i :: 0 <= i < |r| ==> r[i] == done[i].transfer
  {
    seq(|done|, i requires 0 <= i < |done| => done[i].transfer)
  }

  ghost predicate PendingOk<T>(c: Core<T>, pending: seq<Transfer>) {
    && (forall i :: 0 <= i < |pending| ==> WaitsOn(c, pending[i]))
    && Apart(pending)
    && (forall a :: 0 <= a < |c.actors| && c.actors[a].http.Some? ==> HasTransfer(pending, a))
  }

  ghost predicate WaitsOn<T>(c: Core<T>, x: Transfer) {
    x.actor < |c.actors| && c.actors[x.actor].http == Some(x.hash)
  }

  ghost predicate Apart(pending: seq<Transfer>) {
    forall i, j :: 0 <= i < j < |pending| ==> pending[i].actor != pending[j].actor
  }

  ghost predicate HasTransfer(pending: seq<Transfer>, a: nat) {
    exists i :: 0 <= i < |pending| && pending[i].actor == a
  }

  /** Parked actors and pending transfers correspond one to one. */
  ghost predicate RecordInv<T>(s: Recording<T>) {
    CoreInv(s.core) && PendingOk(s.core, Pending(s))
  }

  /** c' has the parked actors of c and no others, with the same hashes. */
  ghost predicate SameParked<T>(c: Core<T>, c': Core<T>) {
    && |c.actors| <= |c'.actors|
    && (forall a :: 0 <= a < |c.actors| ==> c'.actors[a].http == c.actors[a].http)
    && (forall a :: |c.actors| <= a < |c'.actors| ==> c'.actors[a].http.None?)
  }

  lemma {:induction false} SameParkedPending<T>(c: Core<T>, c': Core<T>, pending: seq<Transfer>)
    requires PendingOk(c, pending) && SameParked(c, c')
    ensures PendingOk(c', pending)
  {
  }

  // ------------------------------------------------ shared operations keep it

  lemma {:induction false} WakeKeeps<T>(m: Machine<T>, c: Core<T>, a: nat, r: Response)
    requires QueueInv(c) && a < |c.actors| && a !in c.queue
    ensures QueueInv(Wake(m, c, a, r))
    ensures forall b :: 0 <= b < |c.actors| && b != a ==> Wake(m, c, a, r).actors[b] == c.actors[b]
  {
    var c' := Wake(m, c, a, r);
    forall i | 0 <= i < |c'.queue|
      ensures Ready(c', c'.queue[i])
    {
      if i < |c.queue| {
        assert c.queue[i] in c.queue;
        assert Ready(c, c.queue[i]);
      }
    }
  }

  /** Changing only mailbox, handles or thread of an actor keeps the queue. */
  lemma {:induction false} UpdateKeeps<T>(c: Core<T>, a: nat, x: Actor<T>)
    requires QueueInv(c) && a < |c.actors| && x.status == c.actors[a].status && x.http == c.actors[a].http
    ensures QueueInv(Update(c, a, x)) && SameParked(c, Update(c, a, x))
  {
    var c' := Update(c, a, x);
    forall i | 0 <= i < |c'.queue|
      ensures Ready(c', c'.queue[i])
    {
      assert Ready(c, c.queue[i]);
    }
  }

  /** Changing an actor that is not queued keeps the queue. */
  lemma {:induction false} StatusKeeps<T>(c: Core<T>, a: nat, x: Actor<T>)
    requires QueueInv(c) && a < |c.actors| && a !in c.queue && (x.http.Some? ==> x.status.Waiting?)
    ensures QueueInv(Update(c, a, x))
    ensures x.http == c.actors[a].http ==> SameParked(c, Update(c, a, x))
  {
    var c' := Update(c, a, x);
    forall i | 0 <= i < |c'.queue|
      ensures Ready(c', c'.queue[i])
    {
      assert c.queue[i] in c.queue;
      assert Ready(c, c.queue[i]);
    }
  }

  lemma {:induction false} RecvReadyKeeps<T>(m: Machine<T>, c: Core<T>, a: nat)
    requires QueueInv(c) && a < |c.actors| && c.actors[a].mailbox != [] && a !in c.queue && c.actors[a].http.None?
    ensures QueueInv(RecvReady(m, c, a)) && SameParked(c, RecvReady(m, c, a))
    ensures RecvReady(m, c, a).queue == c.queue + [a]
    ensures forall b :: 0 <= b < |c.actors| && b != a ==> RecvReady(m, c, a).actors[b] == c.actors[b]
  {
    var x := c.actors[a];
    var msg := x.mailbox[0];
    var granted := seq(|msg.caps|, i requires 0 <= i < |msg.caps| => Some(msg.caps[i]));
    var c1 := Update(c, a, x.(mailbox := x.mailbox[1..], handles := x.handles + granted));
    UpdateKeeps(c, a, c1.actors[a]);
    WakeKeeps(m, c1, a, Mail(msg.payload, seq(|msg.caps|, i => |x.handles| + i)));
  }

  lemma {:induction false} DeliverKeeps<T>(m: Machine<T>, c: Core<T>, to: nat, msg: Message)
    requires QueueInv(c) && to < |c.actors|
    ensures QueueInv(Deliver(m, c, to, msg)) && SameParked(c, Deliver(m, c, to, msg))
    ensures forall a :: InHand(c, a) ==> InHand(Deliver(m, c, to, msg), a)
  {
    var x := c.actors[to];
    var c1 := Update(c, to, x.(mailbox := x.mailbox + [msg]));
    UpdateKeeps(c, to, c1.actors[to]);
    if x.status.Waiting? && x.http.None? {
      assert to !in c.queue;
      RecvReadyKeeps(m, c1, to);
    }
  }

  lemma {:induction false} SendKeeps<T>(m: Machine<T>, c: Core<T>, a: nat, to: nat, msg: Message)
    requires QueueInv(c) && InHand(c, a) && to < |c.actors|
    ensures QueueInv(SendTo(m, c, a, to, msg)) && SameParked(c, SendTo(m, c, a, to, msg))
  {
    DeliverKeeps(m, c, to, msg);
    WakeKeeps(m, Deliver(m, c, to, msg), a, Plain(0));
  }

  lemma {:induction false} SpawnKeeps<T>(m: Machine<T>, c: Core<T>, a: nat, fn: int)
    requires QueueInv(c) && InHand(c, a)
    ensures QueueInv(Serve(m, c, a, Spawn(fn))) && SameParked(c, Serve(m, c, a, Spawn(fn)))
  {
    var x := c.actors[a];
    var id := |c.actors|;
    var child := Actor(m.start(fn), Runnable, [], [Some(id)], None);
    var grown := c.(actors := c.actors + [child], queue := c.queue + [id]);
    forall i | 0 <= i < |grown.queue|
      ensures Ready(grown, grown.queue[i]) && grown.queue[i] != a && (i < |c.queue| ==> grown.queue[i] < id)
    {
      if i < |c.queue| {
        assert Ready(c, c.queue[i]);
        assert c.queue[i] in c.queue;
      }
    }
    var c1 := Update(grown, a, x.(handles := x.handles + [Some(id)]));
    UpdateKeeps(grown, a, c1.actors[a]);
    WakeKeeps(m, c1, a, Plain(|x.handles|));
  }

  lemma {:induction false} ServeKeeps<T>(m: Machine<T>, c: Core<T>, a: nat, req: Request)
    requires QueueInv(c) && InHand(c, a)
    ensures QueueInv(Serve(m, c, a, req)) && SameParked(c, Serve(m, c, a, req))
  {
    hide QueueInv, Wake, Deliver, RecvReady;
    var x := c.actors[a];
    match req
    case Recv =>
      if x.mailbox == [] {
        StatusKeeps(c, a, x.(status := Waiting));
      } else {
        RecvReadyKeeps(m, c, a);
      }
    case Send(h, payload) =>
      CrashKeeps(c, a);
      if HandleOf(x, h).Some? && HandleOf(x, h).value < |c.actors| {
        SendKeeps(m, c, a, HandleOf(x, h).value, Message(payload, []));
      }
    case SendCaps(h, payload, caps) =>
      CrashKeeps(c, a);
      if HandleOf(x, h).Some? && HandleOf(x, h).value < |c.actors| && LoadCaps(x, caps).Some? {
        SendKeeps(m, c, a, HandleOf(x, h).value, Message(payload, LoadCaps(x, caps).value));
      }
    case Spawn(fn) => SpawnKeeps(m, c, a, fn);
    case Sleep(_) => WakeAlone(m, c, a, Plain(0));
    case CloseHandle(h) =>
      var closed := if 0 <= h < |x.handles| then x.handles[h := None] else x.handles;
      var c1 := Update(c, a, x.(handles := closed));
      UpdateKeeps(c, a, c1.actors[a]);
      WakeAlone(m, c1, a, Plain(0));
    case Fetch(_) =>
    case ReadBat(_) =>
    case ReadFolder(_) =>
  }

  lemma {:induction false} WakeAlone<T>(m: Machine<T>, c: Core<T>, a: nat, r: Response)
    requires QueueInv(c) && InHand(c, a)
    ensures QueueInv(Wake(m, c, a, r)) && SameParked(c, Wake(m, c, a, r))
  {
    WakeKeeps(m, c, a, r);
  }

  // -------------------------------------------------- recording keeps the invariant

  lemma {:induction false} SettleKeeps<T>(m: Machine<T>, c: Core<T>, a: nat, o: Outcome<T>)
    requires CoreInv(c) && c.running == Some(a) && !Logged(o)
    ensures CoreInv(Settle(m, c, a, o)) && SameParked(c, Settle(m, c, a, o))
    ensures Settle(m, c, a, o).running.None?
  {
    hide Serve;
    var x := c.actors[a];
    var c1 := Update(c, a, x.(t := o.t));
    UpdateKeeps(c, a, c1.actors[a]);
    var c2 := c1.(running := None);
    assert InHand(c2, a);
    match o
    case Yielded(_) => YieldKeeps(c2, a);
    case Halted(_) =>
      StatusKeeps(c2, a, c2.actors[a].(status := Finished));
      EndDriveKeeps(c2, a, Completed);
    case Raised(_) => CrashKeeps(c2, a);
    case Blocked(req, _) =>
      ServeKeeps(m, c2, a, req);
      ServeIdle(m, c2, a, req);
    case Effect(_, _, _) =>
  }

  lemma {:induction false} YieldKeeps<T>(c: Core<T>, a: nat)
    requires QueueInv(c) && InHand(c, a)
    ensures QueueInv(c.(queue := c.queue + [a]))
  {
    var c' := c.(queue := c.queue + [a]);
    forall i | 0 <= i < |c'.queue|
      ensures Ready(c', c'.queue[i]) && (i < |c.queue| ==> c'.queue[i] != a)
    {
      if i < |c.queue| {
        assert c.queue[i] in c.queue;
        assert Ready(c, c.queue[i]);
      }
    }
  }

  lemma {:induction false} ServeIdle<T>(m: Machine<T>, c: Core<T>, a: nat, req: Request)
    requires a < |c.actors| && c.running.None?
    ensures Serve(m, c, a, req).running.None?
  {
  }

  lemma {:induction false} SuspendKeeps<T>(c: Core<T>, a: nat, o: Outcome<T>)
    requires CoreInv(c) && c.running == Some(a)
    ensures QueueInv(Suspend(c, a, o)) && InHand(Suspend(c, a, o), a) && SameParked(c, Suspend(c, a, o))
  {
    UpdateKeeps(c, a, c.actors[a].(t := o.t));
  }

  lemma {:induction false} ApartCons(x: Transfer, pending: seq<Transfer>)
    requires Apart(pending) && forall i :: 0 <= i < |pending| ==> pending[i].actor != x.actor
    ensures Apart([x] + pending)
  {
    var r := [x] + pending;
    forall i, j | 0 <= i < j < |r| ensures r[i].actor != r[j].actor {
      assert r[j] == pending[j - 1];
    }
  }

  lemma {:induction false} ApartRemove(pending: seq<Transfer>, k: nat)
    requires Apart(pending) && k < |pending|
    ensures Apart(Remove(pending, k)) && forall i :: 0 <= i < |Remove(pending, k)| ==>
            Remove(pending, k)[i].actor != pending[k].actor
  {
    var r := Remove(pending, k);
    forall i | 0 <= i < |r| ensures r[i] == pending[if i < k then i else i + 1] {
    }
    forall i, j | 0 <= i < j < |r| ensures r[i].actor != r[j].actor {
      var x, y := if i < k then i else i + 1, if j < k then j else j + 1;
      assert r[i] == pending[x] && r[j] == pending[y];
    }
  }

  lemma {:induction false} ApartSnoc(pending: seq<Transfer>, x: Transfer)
    requires Apart(pending) && forall i :: 0 <= i < |pending| ==> pending[i].actor != x.actor
    ensures Apart(pending + [x])
  {
    var r := pending + [x];
    forall i, j | 0 <= i < j < |r| ensures r[i].actor != r[j].actor {
      assert r[i] == pending[i];
    }
  }

  lemma {:induction false} ParkPending<T>(c: Core<T>, a: nat, hash: int, inflight: seq<Transfer>, done: seq<Completion>)
    requires PendingOk(c, inflight + Transfers(done)) && a < |c.actors| && c.actors[a].http.None?
    ensures PendingOk(Park(c, a, hash), [Transfer(a, hash)] + inflight + Transfers(done))
  {
    var old_ := inflight + Transfers(done);
    var pending := [Transfer(a, hash)] + inflight + Transfers(done);
    assert pending == [Transfer(a, hash)] + old_;
    var c' := Park(c, a, hash);
    forall i | 0 <= i < |pending| ensures WaitsOn(c', pending[i]) {
      if i > 0 {
        assert pending[i] == old_[i - 1];
        assert WaitsOn(c, old_[i - 1]);
      }
    }
    ApartCons(Transfer(a, hash), old_) by {
      forall i | 0 <= i < |old_| ensures old_[i].actor != a {
        assert WaitsOn(c, old_[i]);
      }
    }
    forall b | 0 <= b < |c'.actors| && c'.actors[b].http.Some? ensures HasTransfer(pending, b) {
      if b == a {
        assert pending[0].actor == a;
      } else {
        assert HasTransfer(old_, b);
        var i :| 0 <= i < |old_| && old_[i].actor == b;
        assert pending[i + 1].actor == b;
      }
    }
  }

  lemma {:induction false} RecordSliceKeeps<T>(m: Machine<T>, s: Recording<T>, a: nat, data: Data, refusal: Option<int>)
    requires RecordInv(s) && s.core.running == Some(a)
    ensures RecordInv(RecordSlice(m, s, a, data, refusal))
  {
    hide QueueInv, PendingOk, Wake, Settle, SameParked;
    var o := m.resume(s.core.actors[a].t);
    var s' := RecordSlice(m, s, a, data, refusal);
    if !Logged(o) {
      SettleKeeps(m, s.core, a, o);
      SameParkedPending(s.core, s'.core, Pending(s));
    } else {
      var c := Suspend(s.core, a, o);
      SuspendKeeps(s.core, a, o);
      SameParkedPending(s.core, c, Pending(s));
      if o.Effect? {
        UpdateKeeps(c, a, s'.core.actors[a]);
        ContinueInHand(m, c, a, data);
        SameParkedPending(c, s'.core, Pending(s));
      } else if !o.req.Fetch? {
        WakeAlone(m, c, a, Result(data));
        WakeIdle(m, c, a, Result(data));
        SameParkedPending(c, s'.core, Pending(s));
      } else if m.parseFetch(o.req.arg).None? {
        CrashKeeps(c, a);
        SameParkedPending(c, s'.core, Pending(s));
      } else if refusal.Some? {
        WakeAlone(m, c, a, Result([1, refusal.value]));
        WakeIdle(m, c, a, Result([1, refusal.value]));
        SameParkedPending(c, s'.core, Pending(s));
      } else {
        ParkKeeps(c, a, m.parseFetch(o.req.arg).value);
        ParkPending(c, a, m.parseFetch(o.req.arg).value, s.inflight, s.done);
      }
    }
  }

  lemma {:induction false} ContinueInHand<T>(m: Machine<T>, c: Core<T>, a: nat, data: Data)
    requires InHand(c, a)
    ensures InHand(Continue(m, c, a, data), a) && SameParked(c, Continue(m, c, a, data))
  {
  }

  lemma {:induction false} WakeIdle<T>(m: Machine<T>, c: Core<T>, a: nat, r: Response)
    requires a < |c.actors|
    ensures Wake(m, c, a, r).running == c.running
  {
  }

  lemma {:induction false} CrashKeeps<T>(c: Core<T>, a: nat)
    requires QueueInv(c) && InHand(c, a)
    ensures QueueInv(Crash(c, a)) && SameParked(c, Crash(c, a)) && Crash(c, a).running == c.running
  {
    StatusKeeps(c, a, c.actors[a].(status := Crashed));
    EndDriveKeeps(c, a, Failed);
  }

  lemma {:induction false} EndDriveKeeps<T>(c: Core<T>, a: nat, verdict: Verdict)
    requires QueueInv(c) && a < |c.actors| && a !in c.queue && c.actors[a].http.None?
    ensures QueueInv(EndDrive(c, a, verdict)) && SameParked(c, EndDrive(c, a, verdict))
  {
    StatusKeeps(c, a, c.actors[a].(status := Resting));
    QueueSame(Update(c, a, c.actors[a].(status := Resting)), EndDrive(c, a, verdict));
  }

  lemma QueueSame<T>(c: Core<T>, c': Core<T>)
    requires QueueInv(c) && c'.actors == c.actors && c'.queue == c.queue
    ensures QueueInv(c') && SameParked(c, c')
  {
    forall i | 0 <= i < |c'.queue| ensures Ready(c', c'.queue[i]) {
      assert Ready(c, c.queue[i]);
    }
  }

  lemma {:induction false} ArmKeeps<T>(m: Machine<T>, c: Core<T>, a: nat, fn: int)
    requires CoreInv(c) && CanArm(c, a)
    ensures CoreInv(Arm(m, c, a, fn)) && SameParked(c, Arm(m, c, a, fn))
  {
    var x := c.actors[a].(t := m.start(fn), status := Runnable);
    var c1 := Update(c, a, x);
    assert a !in c.queue;
    StatusKeeps(c, a, x);
    YieldKeeps(c1, a);
    QueueSame(c1.(queue := c1.queue + [a]), Arm(m, c, a, fn));
  }

  /** At rest in both senses: nothing queued and nobody parked. */
  lemma {:induction false} DeadlockKeeps<T>(s: Recording<T>)
    requires RecordInv(s) && s.core.running.None? && s.core.queue == [] && s.done == [] && s.inflight == []
             && Drives(s.core)
    ensures var c := EndDrive(s.core, s.core.drive.root, Deadlocked);
            !Parked(s.core) && CoreInv(c) && PendingOk(c, Pending(s))
  {
    hide QueueInv, SameParked;
    RestAgrees(s);
    EndDriveKeeps(s.core, s.core.drive.root, Deadlocked);
    SameParkedPending(s.core, EndDrive(s.core, s.core.drive.root, Deadlocked), Pending(s));
  }

  lemma {:induction false} ParkKeeps<T>(c: Core<T>, a: nat, hash: int)
    requires QueueInv(c) && InHand(c, a)
    ensures QueueInv(Park(c, a, hash)) && a < |c.actors| && c.actors[a].http.None?
  {
    StatusKeeps(c, a, c.actors[a].(status := Waiting, http := Some(hash)));
  }

  lemma {:induction false} DispatchKeeps<T>(c: Core<T>)
    requires CoreInv(c) && c.running.None? && c.queue != []
    ensures CoreInv(Dispatch(c)) && SameParked(c, Dispatch(c))
  {
    var c' := Dispatch(c);
    forall i | 0 <= i < |c'.queue|
      ensures Ready(c', c'.queue[i]) && c'.queue[i] != c.queue[0]
    {
      assert Ready(c, c.queue[i + 1]);
    }
    assert Ready(c, c.queue[0]);
  }

  lemma {:induction false} DepositKeeps<T>(m: Machine<T>, s: Recording<T>)
    requires RecordInv(s) && s.core.running.None? && s.done != []
    ensures var x := s.done[0];
            && x.transfer.actor < |s.core.actors| && s.core.actors[x.transfer.actor].http == Some(x.transfer.hash)
            && var c' := Wake(m, s.core, x.transfer.actor, Result(x.data));
               CoreInv(c') && PendingOk(c', s.inflight + Transfers(s.done[1..]))
  {
    hide QueueInv, PendingOk;
    var x := s.done[0];
    var a := x.transfer.actor;
    var pending := Pending(s);
    var k := |s.inflight|;
    assert pending[k] == x.transfer;
    PendingAt(s.core, pending, k);
    assert a !in s.core.queue by { ParkedNotQueued(s.core, a); }
    WakeKeeps(m, s.core, a, Result(x.data));
    var c' := Wake(m, s.core, a, Result(x.data));
    assert s.inflight + Transfers(s.done[1..]) == Remove(pending, k);
    PendingDrop(s.core, c', pending, k);
  }

  lemma PendingAt<T>(c: Core<T>, pending: seq<Transfer>, k: nat)
    requires PendingOk(c, pending) && k < |pending|
    ensures pending[k].actor < |c.actors| && c.actors[pending[k].actor].http == Some(pending[k].hash)
  {
  }

  lemma ParkedNotQueued<T>(c: Core<T>, a: nat)
    requires QueueInv(c) && a < |c.actors| && c.actors[a].http.Some?
    ensures a !in c.queue
  {
  }

  /** A deposited transfer and its actor's wait go together. */
  lemma {:induction false} PendingDrop<T>(c: Core<T>, c': Core<T>, pending: seq<Transfer>, k: nat)
    requires PendingOk(c, pending) && k < |pending| && |c'.actors| == |c.actors|
    requires forall b :: 0 <= b < |c.actors| ==>
             c'.actors[b].http == if b == pending[k].actor then None else c.actors[b].http
    ensures PendingOk(c', Remove(pending, k))
  {
    hide Apart;
    var rest := Remove(pending, k);
    ApartRemove(pending, k);
    forall i | 0 <= i < |rest| ensures WaitsOn(c', rest[i]) {
      assert rest[i] == pending[if i < k then i else i + 1];
      assert WaitsOn(c, rest[i]);
    }
    forall b | 0 <= b < |c'.actors| && c'.actors[b].http.Some? ensures HasTransfer(rest, b) {
      assert HasTransfer(pending, b);
      var i :| 0 <= i < |pending| && pending[i].actor == b;
      assert rest[if i < k then i else i - 1].actor == b;
    }
  }

  lemma {:induction false} FinishKeeps<T>(c: Core<T>, s: Recording<T>, at: nat, data: Data)
    requires PendingOk(c, Pending(s)) && at < |s.inflight|
    ensures PendingOk(c, Remove(s.inflight, at) + Transfers(s.done + [Completion(s.inflight[at], data)]))
  {
    hide PendingOk;
    var old_ := Pending(s);
    assert old_[at] == s.inflight[at];
    var done := s.done + [Completion(s.inflight[at], data)];
    assert Transfers(done) == Transfers(s.done) + [s.inflight[at]];
    assert Remove(s.inflight, at) + Transfers(done) == Remove(old_, at) + [old_[at]];
    PendingMove(c, old_, at);
  }

  /** The order of pending transfers does not matter. */
  lemma {:induction false} PendingMove<T>(c: Core<T>, pending: seq<Transfer>, k: nat)
    requires PendingOk(c, pending) && k < |pending|
    ensures PendingOk(c, Remove(pending, k) + [pending[k]])
  {
    hide Apart;
    var rest := Remove(pending, k);
    var moved := rest + [pending[k]];
    ApartRemove(pending, k);
    ApartSnoc(rest, pending[k]);
    forall i | 0 <= i < |moved| ensures WaitsOn(c, moved[i]) {
      assert moved[i] == pending[if i == |rest| then k else if i < k then i else i + 1];
    }
    forall a | 0 <= a < |c.actors| && c.actors[a].http.Some? ensures HasTransfer(moved, a) {
      assert HasTransfer(pending, a);
      var i :| 0 <= i < |pending| && pending[i].actor == a;
      assert moved[if i == k then |rest| else if i < k then i else i - 1].actor == a;
    }
  }

  lemma {:induction false} RecordKeeps<T>(m: Machine<T>, s: Recording<T>, l: Label)
    requires RecordInv(s) && RecordStep(m, s, l).Some?
    ensures RecordInv(RecordStep(m, s, l).value)
  {
    hide QueueInv, PendingOk, Wake, RecordSlice, Deliver, SameParked, InHand;
    match l
    case Finish(at, data) => FinishKeeps(s.core, s, at, data);
    case Inject(to, payload) =>
      DeliverKeeps(m, s.core, to, Message(payload, []));
      DeliverIdle(m, s.core, to, Message(payload, []));
      SameParkedPending(s.core, Deliver(m, s.core, to, Message(payload, [])), Pending(s));
    case Enter(root, fn) =>
      ArmKeeps(m, s.core, root, fn);
      SameParkedPending(s.core, Arm(m, s.core, root, fn), Pending(s));
    case Tick(data, refusal) =>
      if s.core.running.Some? {
        RecordSliceKeeps(m, s, s.core.running.value, data, refusal);
      } else if s.core.queue != [] {
        DispatchKeeps(s.core);
        SameParkedPending(s.core, Dispatch(s.core), Pending(s));
      } else if s.done != [] {
        DepositKeeps(m, s);
      } else {
        DeadlockKeeps(s);
      }
  }

  lemma {:induction false} DeliverIdle<T>(m: Machine<T>, c: Core<T>, to: nat, msg: Message)
    requires to < |c.actors|
    ensures Deliver(m, c, to, msg).running == c.running
  {
  }

  // ----------------------------------------------------------------- whole runs

  /** A recorded run: states[i + 1] is what labels[i] makes of states[i]. */
  ghost predicate RecordRun<T>(m: Machine<T>, states: seq<Recording<T>>, labels: seq<Label>) {
    && |states| == |labels| + 1
    && RecordInv(states[0]) && states[0].log == []
    && forall i :: 0 <= i < |labels| ==> RecordStep(m, states[i], labels[i]) == Some(states[i + 1])
  }

  lemma {:induction false} RunStep<T>(m: Machine<T>, states: seq<Recording<T>>, labels: seq<Label>, i: nat)
    requires RecordRun(m, states, labels) && i < |labels|
    ensures RecordStep(m, states[i], labels[i]) == Some(states[i + 1])
  {
  }

  lemma {:induction false} RunKeeps<T>(m: Machine<T>, states: seq<Recording<T>>, labels: seq<Label>, i: nat)
    requires RecordRun(m, states, labels) && i < |states|
    ensures RecordInv(states[i])
  {
    hide RecordInv, RecordStep;
    if i > 0 {
      RunKeeps(m, states, labels, i - 1);
      RunStep(m, states, labels, i - 1);
      RecordKeeps(m, states[i - 1], labels[i - 1]);
    }
  }

  /** A step appends at most one event. */
  lemma {:induction false} LogGrows<T>(m: Machine<T>, s: Recording<T>, l: Label)
    requires RecordStep(m, s, l).Some?
    ensures var s' := RecordStep(m, s, l).value;
            s'.log == s.log || (|s'.log| == |s.log| + 1 && s.log == s'.log[..|s.log|])
  {
    hide Wake, Settle, Deliver, Suspend, Continue, Park, Crash, EventOf;
  }

  lemma {:induction false} LogPrefix<T>(m: Machine<T>, states: seq<Recording<T>>, labels: seq<Label>, i: nat, j: nat)
    requires RecordRun(m, states, labels) && i <= j < |states|
    ensures states[i].log <= states[j].log
    decreases j - i
  {
    hide RecordInv, RecordStep;
    if i < j {
      LogPrefix(m, states, labels, i, j - 1);
      RunStep(m, states, labels, j - 1);
      LogGrows(m, states[j - 1], labels[j - 1]);
    }
  }

  /** While nothing is logged, a parked actor stays parked; and whatever is logged
      next is not a refusal of that actor's request. */
  lemma {:induction false} ParkedStays<T>(m: Machine<T>, s: Recording<T>, l: Label, a: nat)
    requires RecordInv(s) && RecordStep(m, s, l).Some? && a < |s.core.actors| && s.core.actors[a].http.Some?
    ensures var s' := RecordStep(m, s, l).value;
            if s'.log == s.log then a < |s'.core.actors| && s'.core.actors[a].http.Some?
            else |s'.log| == |s.log| + 1 && !(s'.log[|s.log|].kind.FetchRefused? && s'.log[|s.log|].actor == a)
  {
    hide QueueInv, PendingOk, Wake, Settle, Deliver, SameParked, Continue;
    if l.Inject? {
      DeliverKeeps(m, s.core, l.to, Message(l.payload, []));
      SameHttp(s.core, Deliver(m, s.core, l.to, Message(l.payload, [])), a);
    } else if l.Tick? && s.core.running.Some? {
      var b := s.core.running.value;
      var o := m.resume(s.core.actors[b].t);
      assert b != a;
      if !Logged(o) {
        SettleKeeps(m, s.core, b, o);
        SameHttp(s.core, Settle(m, s.core, b, o), a);
      }
    }
  }

  lemma {:induction false} SameHttp<T>(c: Core<T>, c': Core<T>, a: nat)
    requires SameParked(c, c') && a < |c.actors|
    ensures a < |c'.actors| && c'.actors[a].http == c.actors[a].http
  {
  }

  /** A dispatched fetch is never followed by a refusal of its own actor. */
  lemma {:induction false} NoRefusalAhead<T>(m: Machine<T>, states: seq<Recording<T>>, labels: seq<Label>,
                                             i: nat, a: nat)
    requires RecordRun(m, states, labels) && i < |states|
    requires a < |states[i].core.actors| && states[i].core.actors[a].http.Some?
    ensures var log := states[|labels|].log;
            |states[i].log| < |log| ==>
              !(log[|states[i].log|].kind.FetchRefused? && log[|states[i].log|].actor == a)
    decreases |states| - i
  {
    hide RecordInv, RecordStep;
    if i < |labels| {
      RunKeeps(m, states, labels, i);
      RunStep(m, states, labels, i);
      ParkedStays(m, states[i], labels[i], a);
      if states[i + 1].log == states[i].log {
        NoRefusalAhead(m, states, labels, i + 1, a);
      } else {
        LogPrefix(m, states, labels, i + 1, |labels|);
      }
    }
  }

  /** The replay state that mirrors a recording. */
  function Mirror<T>(s: Recording<T>): Replaying<T> {
    Replaying(s.core, |s.log|)
  }

  /** What a replay does for each thing that happened while recording: finishing
      a transfer is invisible to it. */
  function ReplayLabel<T>(m: Machine<T>, log: seq<Event>, p: Replaying<T>, l: Label): Option<Replaying<T>> {
    match l
    case Tick(_, _) => ReplayTick(m, log, p)
    case Finish(_, _) => Some(p)
    case Inject(to, payload) => ReplayInject(m, log, p, to, payload)
    case Enter(root, fn) => ReplayEnter(m, p, root, fn)
  }

  /** Whether a step parks the running actor, and which. */
  ghost predicate Parks<T>(m: Machine<T>, s: Recording<T>, l: Label) {
    && l.Tick? && s.core.running.Some? && s.core.running.value < |s.core.actors| && l.refusal.None?
    && var o := m.resume(s.core.actors[s.core.running.value].t);
       o.Blocked? && o.req.Fetch? && m.parseFetch(o.req.arg).Some?
  }

  lemma {:induction false} SliceMirrors<T>(m: Machine<T>, s: Recording<T>, l: Label, log: seq<Event>)
    requires RecordInv(s) && l.Tick? && s.core.running.Some?
    requires var s' := RecordSlice(m, s, s.core.running.value, l.data, l.refusal); s'.log <= log
    requires Parks(m, s, l) && |s.log| < |log| ==>
               !(log[|s.log|].kind.FetchRefused? && log[|s.log|].actor == s.core.running.value)
    ensures ReplaySlice(m, log, Mirror(s), s.core.running.value)
         == Some(Mirror(RecordSlice(m, s, s.core.running.value, l.data, l.refusal)))
  {
    hide QueueInv, PendingOk, Wake, Settle, Continue, Suspend, Park, Crash;
    var a := s.core.running.value;
    var s' := RecordSlice(m, s, a, l.data, l.refusal);
    if s'.log != s.log {
      assert log[|s.log|] == s'.log[|s.log|];
    }
  }

  /** A replay mirrors each step of the recording. */
  lemma {:induction false} StepMirrors<T>(m: Machine<T>, s: Recording<T>, l: Label, log: seq<Event>)
    requires RecordInv(s) && RecordStep(m, s, l).Some? && RecordStep(m, s, l).value.log <= log
    requires Parks(m, s, l) && |s.log| < |log| ==>
               !(log[|s.log|].kind.FetchRefused? && log[|s.log|].actor == s.core.running.value)
    ensures ReplayLabel(m, log, Mirror(s), l) == Some(Mirror(RecordStep(m, s, l).value))
  {
    hide QueueInv, PendingOk, Wake, Settle, Continue, Suspend, Park, Crash, RecordSlice, ReplaySlice, Deliver;
    var s' := RecordStep(m, s, l).value;
    if l.Tick? && s.core.running.Some? {
      SliceMirrors(m, s, l, log);
    } else if l.Tick? && s.core.queue == [] && s.done == [] {
      DeadlockKeeps(s);
    } else if l.Tick? && s.core.queue == [] {
      DepositKeeps(m, s);
      assert log[|s.log|] == s'.log[|s.log|];
    } else if l.Inject? && s'.log != s.log {
      assert log[|s.log|] == s'.log[|s.log|];
    }
  }

  /** The replay of a sequence of labels. */
  function ReplayRun<T>(m: Machine<T>, log: seq<Event>, p: Replaying<T>, labels: seq<Label>): Option<Replaying<T>> {
    if labels == [] then Some(p)
    else
      match ReplayRun(m, log, p, labels[..|labels| - 1])
      case None => None
      case Some(q) => ReplayLabel(m, log, q, labels[|labels| - 1])
  }

  lemma {:induction false} ParksWaits<T>(m: Machine<T>, s: Recording<T>, l: Label)
    requires RecordInv(s) && RecordStep(m, s, l).Some? && Parks(m, s, l)
    ensures var s' := RecordStep(m, s, l).value; var a := s.core.running.value;
            s'.log == s.log && a < |s'.core.actors| && s'.core.actors[a].http.Some?
  {
  }

  /** Main result: with the whole log in hand, the replay passes every divergence
      check, agrees with the recording on every actor, mailbox and queue after
      every step, whatever order the transfers finished in, and has consumed
      exactly the events recorded so far. */
  lemma {:induction false} ReplayReproduces<T>(m: Machine<T>, states: seq<Recording<T>>, labels: seq<Label>, i: nat)
    requires RecordRun(m, states, labels) && i < |states|
    ensures ReplayRun(m, states[|labels|].log, Replaying(states[0].core, 0), labels[..i])
         == Some(Replaying(states[i].core, |states[i].log|))
    decreases i
  {
    hide RecordInv, RecordStep, ReplayLabel, Parks;
    var log := states[|labels|].log;
    if i > 0 {
      var s, l := states[i - 1], labels[i - 1];
      ReplayReproduces(m, states, labels, i - 1);
      assert labels[..i][..i - 1] == labels[..i - 1];
      RunKeeps(m, states, labels, i - 1);
      RunStep(m, states, labels, i - 1);
      LogPrefix(m, states, labels, i, |labels|);
      ParksRunning(m, s, l);
      if Parks(m, s, l) {
        ParksWaits(m, s, l);
        NoRefusalAhead(m, states, labels, i, s.core.running.value);
      }
      StepMirrors(m, s, l, log);
    }
  }

  lemma {:induction false} ParksRunning<T>(m: Machine<T>, s: Recording<T>, l: Label)
    ensures Parks(m, s, l) ==> s.core.running.Some?
  {
  }

  /** Both schedulers find nothing left to do at the same points. */
  lemma {:induction false} RestAgrees<T>(s: Recording<T>)
    requires RecordInv(s)
    ensures Parked(s.core) <==> s.inflight != [] || s.done != []
  {
    var pending := Pending(s);
    if pending != [] {
      assert s.core.actors[pending[0].actor].http.Some?;
    }
  }
}
