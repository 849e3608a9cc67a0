/**
  What actors are told, over whole recorded runs (pkg/enki/src/actor.c:368-427, 517-740):
  messages arrive in the order they were sent, each once, with live handles for the
  capabilities they carry; requests are answered as documented, and the run queue is
  first in, first out.
 */
module ReplayMail {
  import opened Basics
  import opened Replay
  import opened ReplayProof

  /** A thread that remembers what was deposited in it. */
  datatype Diary<T> = Diary(t: T, log: seq<Response>)

  function Remember<T>(o: Outcome<T>, log: seq<Response>): (r: Outcome<Diary<T>>) {
    match o
    case Yielded(t) => Yielded(Diary(t, log))
    case Halted(t) => Halted(Diary(t, log))
    case Raised(t) => Raised(Diary(t, log))
    case Effect(op, args, t) => Effect(op, args, Diary(t, log))
    case Blocked(req, t) => Blocked(req, Diary(t, log))
  }

  /** Any machine, keeping a diary it never looks at. */
  function WithDiary<T>(m: Machine<T>): (r: Machine<Diary<T>>) {
    Machine((x: Diary<T>) => Remember(m.resume(x.t), x.log),
            (x: Diary<T>, r: Response) => Diary(m.deposit(x.t, r), x.log + [r]),
            (fn: int) => Diary(m.start(fn), []), m.hash, m.parseFetch)
  }

  // ------------------------------------------------------------------- what is observed

  /** A message as an actor sees it: its payload, and the actors behind its capabilities. */
  datatype Item = Item(payload: int, caps: seq<Option<nat>>)

  function Items(mailbox: seq<Message>): (r: seq<Item>)
    ensures |r| == |mailbox|
  {
    seq(|mailbox|, i requires 0 <= i < |mailbox| => ItemOf(mailbox[i]))
  }

  function ItemOf(msg: Message): (r: Item) {
    Item(msg.payload, seq(|msg.caps|, i requires 0 <= i < |msg.caps| => Some(msg.caps[i])))
  }

  function Behind<T>(x: Actor<T>, h: int): (r: Option<nat>) {
    if 0 <= h < |x.handles| then x.handles[h] else None
  }

  function BehindAll<T>(x: Actor<T>, hs: seq<int>): (r: seq<Option<nat>>) {
    seq(|hs|, i requires 0 <= i < |hs| => Behind(x, hs[i]))
  }

  ghost function Mailbox<T>(c: Core<Diary<T>>, a: nat): (r: seq<Item>) {
    if a < |c.actors| then Items(c.actors[a].mailbox) else []
  }

  /** The message an actor was handed between two states: what its diary gained. */
  ghost function Receipt<T>(c: Core<Diary<T>>, d: Core<Diary<T>>, a: nat): (r: seq<Item>) {
    if a >= |c.actors| || a >= |d.actors| then []
    else
      var x, y := c.actors[a], d.actors[a];
      if |y.t.log| == |x.t.log| + 1 && y.t.log[|x.t.log|].Mail? then
        var got := y.t.log[|x.t.log|];
        [Item(got.payload, BehindAll(y, got.caps))]
      else []
  }

  /** The message a step sends to an actor: by the running actor, through a live handle
      and with live capabilities, or from the host to an actor that has not ended. */
  ghost function Addressed<T>(m: Machine<Diary<T>>, c: Core<Diary<T>>, l: Label, a: nat): (r: seq<Item>) {
    match l
    case Inject(to, payload) =>
      if to == a && a < |c.actors| && c.actors[a].status !in {Finished, Crashed} then [Item(payload, [])] else []
    case Tick(_, _) =>
      if c.running.None? || c.running.value >= |c.actors| then []
      else
        var x := c.actors[c.running.value];
        var o := m.resume(x.t);
        if !o.Blocked? || a >= |c.actors| then []
        else if o.req.Send? && Behind(x, o.req.handle) == Some(a) then [Item(o.req.payload, [])]
        else if o.req.SendCaps? && Behind(x, o.req.handle) == Some(a) && None !in BehindAll(x, o.req.caps) then
          [Item(o.req.payload, BehindAll(x, o.req.caps))]
        else []
    case _ => []
  }

  // ------------------------------------------------------------------------- one step

  /** Nobody else's diary or mailbox changes. */
  ghost predicate Untouched<T>(c: Core<Diary<T>>, d: Core<Diary<T>>, a: nat) {
    |c.actors| <= |d.actors|
        && (a < |c.actors| ==> d.actors[a].mailbox == c.actors[a].mailbox && d.actors[a].t.log == c.actors[a].t.log)
    && (|c.actors| <= a < |d.actors| ==> d.actors[a].mailbox == [])
  }

  /** What one operation does to an actor's mail. */
  ghost predicate Moves<T>(c: Core<Diary<T>>, d: Core<Diary<T>>, a: nat, sent: seq<Item>) {
    |c.actors| <= |d.actors| && Receipt(c, d, a) + Mailbox(d, a) == Mailbox(c, a) + sent
  }

  lemma UntouchedMoves<T>(c: Core<Diary<T>>, d: Core<Diary<T>>, a: nat)
    requires Untouched(c, d, a)
    ensures Moves(c, d, a, [])
  {
  }

  lemma ItemsSplit(mailbox: seq<Message>, msg: Message)
    ensures Items(mailbox + [msg]) == Items(mailbox) + [ItemOf(msg)]
    ensures mailbox != [] ==> [ItemOf(mailbox[0])] + Items(mailbox[1..]) == Items(mailbox)
  {
  }

  /** An answer other than a message leaves mail alone. */
  lemma WakeMoves<T>(m: Machine<T>, c: Core<Diary<T>>, b: nat, r: Response, a: nat)
    requires b < |c.actors| && !r.Mail?
    ensures Moves(c, Wake(WithDiary(m), c, b, r), a, [])
  {
  }

  lemma {:induction false} RecvMoves<T>(m: Machine<T>, c: Core<Diary<T>>, b: nat, a: nat)
    requires b < |c.actors| && c.actors[b].mailbox != []
    ensures Moves(c, RecvReady(WithDiary(m), c, b), a, [])
    ensures a != b ==> Untouched(c, RecvReady(WithDiary(m), c, b), a)
  {
    var d := RecvReady(WithDiary(m), c, b);
    if a == b {
      var x, y, msg := c.actors[b], d.actors[b], c.actors[b].mailbox[0];
      var minted := seq(|msg.caps|, i => |x.handles| + i);
      assert y.t.log == x.t.log + [Mail(msg.payload, minted)];
      assert BehindAll(y, minted) == ItemOf(msg).caps;
      ItemsSplit(x.mailbox, msg);
    }
  }

  lemma {:induction false} DeliverMoves<T>(m: Machine<T>, c: Core<Diary<T>>, to: nat, msg: Message, a: nat)
    requires to < |c.actors|
    ensures Moves(c, Deliver(WithDiary(m), c, to, msg), a, if a == to then [ItemOf(msg)] else [])
    ensures a != to ==> Untouched(c, Deliver(WithDiary(m), c, to, msg), a)
    ensures !(c.actors[to].status.Waiting? && c.actors[to].http.None?) ==>
              Deliver(WithDiary(m), c, to, msg).actors[to].t == c.actors[to].t
  {
    hide RecvReady;
    var x := c.actors[to];
    var c1 := Update(c, to, x.(mailbox := x.mailbox + [msg]));
    ItemsSplit(x.mailbox, msg);
    if x.status.Waiting? && x.http.None? {
      RecvMoves(m, c1, to, a);
    }
  }

  /** A send: the message to its addressee, the answer to its sender. */
  lemma {:induction false} SendMoves<T>(m: Machine<T>, c: Core<Diary<T>>, b: nat, to: nat, msg: Message, a: nat)
    requires b < |c.actors| && to < |c.actors| && c.actors[b].status.Runnable?
    ensures Moves(c, SendTo(WithDiary(m), c, b, to, msg), a, if a == to then [ItemOf(msg)] else [])
  {
    hide RecvReady, Deliver;
    var d := Deliver(WithDiary(m), c, to, msg);
    DeliverMoves(m, c, to, msg, a);
    DeliverMoves(m, c, to, msg, b);
    DeliverSize(m, c, to, msg);
    WakeMoves(m, d, b, Plain(0), a);
  }

  lemma DeliverSize<T>(m: Machine<T>, c: Core<Diary<T>>, to: nat, msg: Message)
    requires to < |c.actors|
    ensures |Deliver(WithDiary(m), c, to, msg).actors| == |c.actors|
  {
  }

  lemma CrashMoves<T>(c: Core<Diary<T>>, b: nat, a: nat)
    requires b < |c.actors|
    ensures Untouched(c, Crash(c, b), a)
  {
  }

  /** Capabilities resolve exactly when every one of them is live. */
  lemma {:induction false} CapsResolve<T>(x: Actor<T>, caps: seq<int>)
    ensures LoadCaps(x, caps).Some? <==> None !in BehindAll(x, caps)
    ensures LoadCaps(x, caps).Some? ==> ItemOf(Message(0, LoadCaps(x, caps).value)).caps == BehindAll(x, caps)
    decreases |caps|
  {
    if caps != [] {
      CapsResolve(x, caps[1..]);
      assert BehindAll(x, caps) == [Behind(x, caps[0])] + BehindAll(x, caps[1..]);
      assert Behind(x, caps[0]) == HandleOf(x, caps[0]);
    }
  }

  /** What the running actor's request sends to `a`. */
  ghost function Requested<T>(c: Core<Diary<T>>, x: Actor<Diary<T>>, req: Request, a: nat): (r: seq<Item>) {
    if a >= |c.actors| then []
    else if req.Send? && Behind(x, req.handle) == Some(a) then [Item(req.payload, [])]
    else if req.SendCaps? && Behind(x, req.handle) == Some(a) && None !in BehindAll(x, req.caps) then
      [Item(req.payload, BehindAll(x, req.caps))]
    else []
  }

  lemma {:induction false} ServeMoves<T>(m: Machine<T>, c: Core<Diary<T>>, b: nat, req: Request, a: nat)
    requires b < |c.actors| && c.actors[b].status.Runnable?
    ensures Moves(c, Serve(WithDiary(m), c, b, req), a, Requested(c, c.actors[b], req, a))
  {
    hide RecvReady, Wake, SendTo, Crash;
    var x := c.actors[b];
    CrashMoves(c, b, a);
    UntouchedMoves(c, Crash(c, b), a);
    match req
    case Recv =>
      if x.mailbox != [] {
        RecvMoves(m, c, b, a);
      }
    case Send(h, payload) =>
      assert HandleOf(x, h) == Behind(x, h);
      if HandleOf(x, h).Some? && HandleOf(x, h).value < |c.actors| {
        SendMoves(m, c, b, HandleOf(x, h).value, Message(payload, []), a);
        assert ItemOf(Message(payload, [])) == Item(payload, []);
      }
    case SendCaps(h, payload, caps) =>
      assert HandleOf(x, h) == Behind(x, h);
      CapsResolve(x, caps);
      if HandleOf(x, h).Some? && HandleOf(x, h).value < |c.actors| && LoadCaps(x, caps).Some? {
        var targets := LoadCaps(x, caps).value;
        SendMoves(m, c, b, HandleOf(x, h).value, Message(payload, targets), a);
        assert ItemOf(Message(payload, targets)) == Item(payload, ItemOf(Message(0, targets)).caps);
      }
    case Spawn(fn) => SpawnMoves(m, c, b, fn, a);
    case Sleep(_) => WakeMoves(m, c, b, Plain(0), a);
    case CloseHandle(h) => CloseMoves(m, c, b, h, a);
    case Fetch(_) => UntouchedMoves(c, c, a);
    case ReadBat(_) => UntouchedMoves(c, c, a);
    case ReadFolder(_) => UntouchedMoves(c, c, a);
  }

  lemma SpawnMoves<T>(m: Machine<T>, c: Core<Diary<T>>, b: nat, fn: int, a: nat)
    requires b < |c.actors|
    ensures Moves(c, Serve(WithDiary(m), c, b, Spawn(fn)), a, [])
  {
  }

  lemma CloseMoves<T>(m: Machine<T>, c: Core<Diary<T>>, b: nat, h: int, a: nat)
    requires b < |c.actors|
    ensures Moves(c, Serve(WithDiary(m), c, b, CloseHandle(h)), a, [])
  {
  }

  // ------------------------------------------------------------------ a step of a run

  lemma ResumeKeeps<T>(m: Machine<T>, x: Diary<T>)
    ensures WithDiary(m).resume(x).t.log == x.log
  {
  }

  /** The thread moved on, its diary did not. */
  lemma {:induction false} MovesFrom<T>(c: Core<Diary<T>>, c1: Core<Diary<T>>, d: Core<Diary<T>>, a: nat,
                                        sent: seq<Item>)
    requires |c1.actors| == |c.actors|
             && (a < |c.actors| ==>
             c1.actors[a].mailbox == c.actors[a].mailbox && c1.actors[a].t.log == c.actors[a].t.log)
    requires Moves(c1, d, a, sent)
    ensures Moves(c, d, a, sent)
  {
  }

  lemma {:induction false} SettleMoves<T>(m: Machine<T>, c: Core<Diary<T>>, b: nat, o: Outcome<Diary<T>>, a: nat)
    requires b < |c.actors| && !Logged(o) && c.actors[b].status.Runnable? && o.t.log == c.actors[b].t.log
    ensures Moves(c, Settle(WithDiary(m), c, b, o), a,
                  if o.Blocked? then Requested(c, c.actors[b], o.req, a) else [])
  {
    hide Serve;
    var c1 := Update(c, b, c.actors[b].(t := o.t)).(running := None);
    if o.Blocked? {
      ServeMoves(m, c1, b, o.req, a);
      assert BehindAllSame(c1.actors[b], c.actors[b], o.req);
      MovesFrom(c, c1, Serve(WithDiary(m), c1, b, o.req), a, Requested(c, c.actors[b], o.req, a));
    } else {
      UntouchedMoves(c, Settle(WithDiary(m), c, b, o), a);
    }
  }

  /** A request is read through the handles alone. */
  ghost predicate BehindAllSame<T>(x: Actor<Diary<T>>, y: Actor<Diary<T>>, req: Request) {
    req.SendCaps? ==> BehindAll(x, req.caps) == BehindAll(y, req.caps)
  }

  lemma {:induction false} SliceMoves<T>(m: Machine<T>, s: Recording<Diary<T>>, b: nat, data: Data,
                                         refusal: Option<int>, a: nat)
    requires b < |s.core.actors| && s.core.actors[b].status.Runnable?
    ensures var o := WithDiary(m).resume(s.core.actors[b].t);
            Moves(s.core, RecordSlice(WithDiary(m), s, b, data, refusal).core, a,
                  if o.Blocked? then Requested(s.core, s.core.actors[b], o.req, a) else [])
  {
    hide Settle;
    var o := WithDiary(m).resume(s.core.actors[b].t);
    ResumeKeeps(m, s.core.actors[b].t);
    if !Logged(o) {
      SettleMoves(m, s.core, b, o, a);
    }
  }

  /** Every step: what an actor is handed and what waits is what waited and what is sent. */
  lemma {:induction false} StepMoves<T>(m: Machine<T>, s: Recording<Diary<T>>, l: Label, a: nat)
    requires RecordInv(s) && RecordStep(WithDiary(m), s, l).Some?
    ensures Moves(s.core, RecordStep(WithDiary(m), s, l).value.core, a, Addressed(WithDiary(m), s.core, l, a))
  {
    hide RecordSlice, Deliver, Wake, PendingOk, QueueInv;
    var c := s.core;
    match l
    case Finish(at, data) => UntouchedMoves(c, c, a);
    case Inject(to, payload) =>
      UntouchedMoves(c, c, a);
      DeliverMoves(m, c, to, Message(payload, []), a);
      assert ItemOf(Message(payload, [])) == Item(payload, []);
    case Enter(root, fn) => EnterMoves(m, c, root, fn, a);
    case Tick(data, refusal) =>
      if c.running.Some? {
        SliceMoves(m, s, c.running.value, data, refusal, a);
      } else if c.queue != [] {
        UntouchedMoves(c, Dispatch(c), a);
      } else if s.done != [] {
        WakeMoves(m, c, s.done[0].transfer.actor, Result(s.done[0].data), a);
      } else {
        UntouchedMoves(c, EndDrive(c, c.drive.root, Deadlocked), a);
      }
  }

  lemma EnterMoves<T>(m: Machine<T>, c: Core<Diary<T>>, root: nat, fn: int, a: nat)
    requires root < |c.actors|
    ensures Moves(c, Arm(WithDiary(m), c, root, fn), a, [])
  {
  }

  // ------------------------------------------------------------------------ whole runs

  ghost function Received<T>(states: seq<Recording<Diary<T>>>, n: nat, a: nat): (r: seq<Item>)
    requires n < |states|
  {
    if n == 0 then [] else Received(states, n - 1, a) + Receipt(states[n - 1].core, states[n].core, a)
  }

  ghost function SentTo<T>(m: Machine<Diary<T>>, states: seq<Recording<Diary<T>>>, labels: seq<Label>, n: nat,
                           a: nat): (r: seq<Item>)
    requires n <= |labels| < |states|
  {
    if n == 0 then [] else SentTo(m, states, labels, n - 1, a) + Addressed(m, states[n - 1].core, labels[n - 1], a)
  }

  /** Main result: in every recorded run an actor has received, in order, exactly the
      oldest of its first mailbox and of the messages sent to it; the rest waits. */
  lemma {:induction false} FirstInFirstOut<T>(m: Machine<T>, states: seq<Recording<Diary<T>>>, labels: seq<Label>,
                                              n: nat, a: nat)
    requires RecordRun(WithDiary(m), states, labels) && n < |states|
    ensures Received(states, n, a) + Mailbox(states[n].core, a)
            == Mailbox(states[0].core, a) + SentTo(WithDiary(m), states, labels, n, a)
    decreases n
  {
    hide RecordInv, RecordStep, Receipt, Addressed, Mailbox;
    if n > 0 {
      FirstInFirstOut(m, states, labels, n - 1, a);
      RunKeeps(WithDiary(m), states, labels, n - 1);
      RunStep(WithDiary(m), states, labels, n - 1);
      StepMoves(m, states[n - 1], labels[n - 1], a);
      Chain(Received(states, n - 1, a), Receipt(states[n - 1].core, states[n].core, a), Mailbox(states[n].core, a),
            Mailbox(states[n - 1].core, a), Addressed(WithDiary(m), states[n - 1].core, labels[n - 1], a),
            Mailbox(states[0].core, a), SentTo(WithDiary(m), states, labels, n - 1, a));
    }
  }

  lemma Chain<X>(got: seq<X>, now: seq<X>, left: seq<X>, before: seq<X>, sent: seq<X>, first: seq<X>, all: seq<X>)
    requires got + before == first + all && now + left == before + sent
    ensures (got + now) + left == first + (all + sent)
  {
    assert (got + now) + left == got + (now + left) == got + (before + sent) == (got + before) + sent;
    assert (first + all) + sent == first + (all + sent);
  }

  // ------------------------------------------------------------- answers and the run queue

  /** What an actor is told in a step, besides messages. */
  ghost predicate Told<T>(c: Core<Diary<T>>, d: Core<Diary<T>>, b: nat, r: Response) {
    b < |c.actors| <= |d.actors| && d.actors[b].t.log == c.actors[b].t.log + [r] && d.actors[b].status.Runnable?
  }

  /** A spawn answers with the handle of the child, which knows itself by handle 0 and
      runs before its parent. */
  lemma {:induction false} SpawnAnswers<T>(m: Machine<T>, c: Core<Diary<T>>, b: nat, fn: int)
    requires b < |c.actors|
    ensures var d, child := Serve(WithDiary(m), c, b, Spawn(fn)), |c.actors|;
            && Told(c, d, b, Plain(|c.actors[b].handles|)) && |d.actors| == child + 1
            && Behind(d.actors[b], |c.actors[b].handles|) == Some(child)
            && d.actors[child] == Actor(Diary(m.start(fn), []), Runnable, [], [Some(child)], None)
            && d.queue == c.queue + [child] + [b]
            && forall h :: 0 <= h < |c.actors[b].handles| ==> Behind(d.actors[b], h) == Behind(c.actors[b], h)
  {
  }

  /** A send through a live handle answers zero, behind the receiver if it was waiting;
      one through a dead handle or with a dead capability ends its sender unanswered. */
  lemma {:induction false} SendAnswers<T>(m: Machine<T>, c: Core<Diary<T>>, b: nat, h: int, payload: int,
                                          caps: seq<int>)
    requires b < |c.actors| && c.actors[b].status.Runnable? && !c.drive.Driving?
    ensures var d, to := Serve(WithDiary(m), c, b, Send(h, payload)), Behind(c.actors[b], h);
            if to.Some? && to.value < |c.actors| then
              && Told(c, d, b, Plain(0))
              && d.queue == c.queue + (if Listening(c, to.value) then [to.value] else []) + [b]
            else d.actors[b] == c.actors[b].(status := Crashed) && d.queue == c.queue
    ensures var d, to := Serve(WithDiary(m), c, b, SendCaps(h, payload, caps)), Behind(c.actors[b], h);
            if to.Some? && to.value < |c.actors| && None !in BehindAll(c.actors[b], caps) then
              && Told(c, d, b, Plain(0))
              && d.queue == c.queue + (if Listening(c, to.value) then [to.value] else []) + [b]
            else d.actors[b] == c.actors[b].(status := Crashed) && d.queue == c.queue
  {
    hide SendTo;
    CapsResolve(c.actors[b], caps);
    var to := Behind(c.actors[b], h);
    assert HandleOf(c.actors[b], h) == to;
    if to.Some? && to.value < |c.actors| {
      SendTold(m, c, b, to.value, Message(payload, []));
      if LoadCaps(c.actors[b], caps).Some? {
        SendTold(m, c, b, to.value, Message(payload, LoadCaps(c.actors[b], caps).value));
      }
    }
  }

  ghost predicate Listening<T>(c: Core<Diary<T>>, a: nat) {
    a < |c.actors| && c.actors[a].status.Waiting? && c.actors[a].http.None?
  }

  lemma {:induction false} SendTold<T>(m: Machine<T>, c: Core<Diary<T>>, b: nat, to: nat, msg: Message)
    requires b < |c.actors| && to < |c.actors| && c.actors[b].status.Runnable?
    ensures var d := SendTo(WithDiary(m), c, b, to, msg);
            && Told(c, d, b, Plain(0)) && d.queue == c.queue + (if Listening(c, to) then [to] else []) + [b]
  {
  }

  /** Receiving, sleeping and closing a handle, which forgets that handle and no other. */
  lemma {:induction false} OtherAnswers<T>(m: Machine<T>, c: Core<Diary<T>>, b: nat, secs: int, h: int)
    requires b < |c.actors|
    ensures var d := Serve(WithDiary(m), c, b, Sleep(secs)); Told(c, d, b, Plain(0)) && d.queue == c.queue + [b]
    ensures var d := Serve(WithDiary(m), c, b, CloseHandle(h));
            && Told(c, d, b, Plain(0)) && d.queue == c.queue + [b] && |d.actors[b].handles| == |c.actors[b].handles|
            && forall g :: Behind(d.actors[b], g) == if g == h then None else Behind(c.actors[b], g)
    ensures var d := Serve(WithDiary(m), c, b, Recv);
            if c.actors[b].mailbox == [] then d == Update(c, b, c.actors[b].(status := Waiting))
            else d.queue == c.queue + [b] && d.actors[b].status.Runnable?
  {
  }

  /** The run queue is served from the front and joined at the back. */
  lemma {:induction false} QueueServed<T>(m: Machine<T>, s: Recording<T>, l: Label)
    requires RecordInv(s) && RecordStep(m, s, l).Some?
    ensures var c, d := s.core, RecordStep(m, s, l).value.core;
            if l.Tick? && c.running.None? && c.queue != [] then d.running == Some(c.queue[0]) && d.queue == c.queue[1..]
            else c.queue <= d.queue
  {
    hide RecordInv, RecordSlice;
    if l.Tick? && s.core.running.Some? {
      SliceQueue(m, s, s.core.running.value, l.data, l.refusal);
    }
  }

  lemma {:induction false} SliceQueue<T>(m: Machine<T>, s: Recording<T>, b: nat, data: Data, refusal: Option<int>)
    requires b < |s.core.actors|
    ensures s.core.queue <= RecordSlice(m, s, b, data, refusal).core.queue
    ensures m.resume(s.core.actors[b].t).Yielded? ==>
              RecordSlice(m, s, b, data, refusal).core.queue == s.core.queue + [b]
  {
    hide Serve;
    var o := m.resume(s.core.actors[b].t);
    if o.Blocked? && !Logged(o) {
      ServeQueue(m, Update(s.core, b, s.core.actors[b].(t := o.t)).(running := None), b, o.req);
    }
  }

  lemma {:induction false} ServeQueue<T>(m: Machine<T>, c: Core<T>, b: nat, req: Request)
    requires b < |c.actors|
    ensures c.queue <= Serve(m, c, b, req).queue
  {
  }
}
