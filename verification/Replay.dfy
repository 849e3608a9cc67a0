/** Recording and replaying a deterministic scheduler run.  Actor code is an
    arbitrary deterministic machine; the host's answers to effects, and the order
    in which HTTP transfers finish, are arbitrary while recording. */
module Replay {
  import opened Basics

  type Data = seq<int>

  /** What an actor asks the scheduler to do when it blocks. */
  datatype Request =
    | Recv
    | Send(handle: int, payload: int)
    | SendCaps(handle: int, payload: int, caps: seq<int>)
    | Spawn(fn: int)
    | Fetch(arg: int)
    | ReadBat(arg: int)
    | ReadFolder(arg: int)
    | Sleep(seconds: int)
    | CloseHandle(handle: int)

  /** How a slice of actor code ends, or the direct effect it reaches. */
  datatype Outcome<+T> =
    | Yielded(t: T)
    | Halted(t: T)
    | Raised(t: T)
    | Effect(op: int, args: seq<int>, t: T)
    | Blocked(req: Request, t: T)

  /** What is deposited in an actor before it resumes. */
  datatype Response = Plain(v: int) | Mail(payload: int, caps: seq<int>) | Result(data: Data)

  /** Actor code and the pure helpers of the scheduler.  parseFetch gives the hash
      of a well-formed request; a malformed one crashes its actor. */
  datatype Machine<!T> = Machine(
    resume: T -> Outcome<T>,
    deposit: (T, Response) -> T,
    start: int -> T,
    hash: seq<int> -> int,
    parseFetch: int -> Option<int>)

  /** Resting is a root between two drives: neither queued nor waiting. */
  datatype Status = Runnable | Waiting | Finished | Crashed | Resting

  datatype Verdict = Completed | Failed | Deadlocked

  /** The embedder's evaluation on a root of its own, and how the last one ended. */
  datatype Drive = Idle | Driving(root: nat) | Driven(root: nat, verdict: Verdict)

  datatype Message = Message(payload: int, caps: seq<nat>)

  /** `http` is the request hash of the fetch an actor is parked on. */
  datatype Actor<T> = Actor(t: T, status: Status, mailbox: seq<Message>, handles: seq<Option<nat>>, http: Option<int>)

  /** The part of the scheduler both modes share; an actor's id is its index. */
  datatype Core<T> = Core(actors: seq<Actor<T>>, queue: seq<nat>, running: Option<nat>, drive: Drive)

  // ---------------------------------------------------------- shared operations

  function Update<T>(c: Core<T>, a: nat, x: Actor<T>): Core<T>
    requires a < |c.actors|
  {
    c.(actors := c.actors[a := x])
  }

  /** Deposit a response and make the actor runnable: er_http_resume and the
      common tail of every service. */
  function Wake<T>(m: Machine<T>, c: Core<T>, a: nat, r: Response): Core<T>
    requires a < |c.actors|
  {
    var x := c.actors[a];
    Update(c, a, x.(t := m.deposit(x.t, r), status := Runnable, http := None)).(queue := c.queue + [a])
  }

  /** er_recv_ready: the mailbox head becomes the response, its capabilities fresh
      handles of the receiver. */
  function RecvReady<T>(m: Machine<T>, c: Core<T>, a: nat): Core<T>
    requires a < |c.actors| && c.actors[a].mailbox != []
  {
    var x := c.actors[a];
    var msg := x.mailbox[0];
    var minted := seq(|msg.caps|, i => |x.handles| + i);
    var granted := seq(|msg.caps|, i requires 0 <= i < |msg.caps| => Some(msg.caps[i]));
    Wake(m, Update(c, a, x.(mailbox := x.mailbox[1..], handles := x.handles + granted)), a,
         Mail(msg.payload, minted))
  }

  /** er_deliver: append, and wake an actor waiting on Recv (not on a fetch). */
  function Deliver<T>(m: Machine<T>, c: Core<T>, to: nat, msg: Message): Core<T>
    requires to < |c.actors|
  {
    var x := c.actors[to];
    var c' := Update(c, to, x.(mailbox := x.mailbox + [msg]));
    if x.status.Waiting? && x.http.None? then RecvReady(m, c', to) else c'
  }

  /** The drive is over: its root goes back to the embedder, whatever else is queued. */
  function EndDrive<T>(c: Core<T>, a: nat, verdict: Verdict): Core<T>
    requires a < |c.actors|
  {
    Update(c, a, c.actors[a].(status := Resting)).(drive := Driven(a, verdict))
  }

  /** An actor that fails never resumes; a root's fate is its embedder's. */
  function Crash<T>(c: Core<T>, a: nat): Core<T>
    requires a < |c.actors|
  {
    if c.drive == Driving(a) then EndDrive(c, a, Failed)
    else Update(c, a, c.actors[a].(status := Crashed))
  }

  /** The entry of er_scheduler_drive: a root at rest is given code and queued. */
  function Arm<T>(m: Machine<T>, c: Core<T>, a: nat, fn: int): Core<T>
    requires a < |c.actors|
  {
    var x := c.actors[a].(t := m.start(fn), status := Runnable);
    Update(c, a, x).(queue := c.queue + [a], drive := Driving(a))
  }

  predicate CanArm<T>(c: Core<T>, a: nat) {
    c.running.None? && !c.drive.Driving? && a < |c.actors| && c.actors[a].status.Resting?
  }

  /** A drive is under way. */
  predicate Drives<T>(c: Core<T>) {
    c.drive.Driving? && c.drive.root < |c.actors|
  }

  function HandleOf<T>(x: Actor<T>, h: int): Option<nat> {
    if 0 <= h < |x.handles| then x.handles[h] else None
  }

  /** The live actors behind a row of handles; None when one is not live. */
  function LoadCaps<T>(x: Actor<T>, caps: seq<int>): Option<seq<nat>> {
    if caps == [] then Some([])
    else
      match HandleOf(x, caps[0])
      case None => None
      case Some(target) =>
        match LoadCaps(x, caps[1..])
        case None => None
        case Some(rest) => Some([target] + rest)
  }

  /** A request whose service needs nothing from the host. */
  function Serve<T>(m: Machine<T>, c: Core<T>, a: nat, req: Request): Core<T>
    requires a < |c.actors|
  {
    var x := c.actors[a];
    match req
    case Recv =>
      if x.mailbox == [] then Update(c, a, x.(status := Waiting)) else RecvReady(m, c, a)
    case Send(h, payload) =>
      (match HandleOf(x, h)
       case None => Crash(c, a)
       case Some(to) =>
         if to < |c.actors| then SendTo(m, c, a, to, Message(payload, [])) else Crash(c, a))
    case SendCaps(h, payload, caps) =>
      (match HandleOf(x, h)
       case None => Crash(c, a)
       case Some(to) =>
         match LoadCaps(x, caps)
         case None => Crash(c, a)
         case Some(targets) =>
           if to < |c.actors| then SendTo(m, c, a, to, Message(payload, targets)) else Crash(c, a))
    case Spawn(fn) =>
      var id := |c.actors|;
      var child := Actor(m.start(fn), Runnable, [], [Some(id)], None);
      var grown := c.(actors := c.actors + [child], queue := c.queue + [id]);
      Wake(m, Update(grown, a, x.(handles := x.handles + [Some(id)])), a, Plain(|x.handles|))
    case Sleep(_) => Wake(m, c, a, Plain(0))
    case CloseHandle(h) =>
      var closed := if 0 <= h < |x.handles| then x.handles[h := None] else x.handles;
      Wake(m, Update(c, a, x.(handles := closed)), a, Plain(0))
    case Fetch(_) => c
    case ReadBat(_) => c
    case ReadFolder(_) => c
  }

  /** Deliver first, so a waiting receiver queues ahead of the sender. */
  function SendTo<T>(m: Machine<T>, c: Core<T>, a: nat, to: nat, msg: Message): Core<T>
    requires a < |c.actors| && to < |c.actors|
  {
    Wake(m, Deliver(m, c, to, msg), a, Plain(0))
  }

  predicate Logged<T>(o: Outcome<T>) {
    o.Effect? || (o.Blocked? && (o.req.Fetch? || o.req.ReadBat? || o.req.ReadFolder?))
  }

  /** The end of a slice that needs nothing from the host. */
  function Settle<T>(m: Machine<T>, c: Core<T>, a: nat, o: Outcome<T>): Core<T>
    requires a < |c.actors| && !Logged(o)
  {
    var x := c.actors[a];
    var c' := Update(c, a, x.(t := o.t)).(running := None);
    match o
    case Yielded(_) => c'.(queue := c'.queue + [a])
    case Halted(_) =>
      if c'.drive == Driving(a) then EndDrive(c', a, Completed) else Update(c', a, c'.actors[a].(status := Finished))
    case Raised(_) => Crash(c', a)
    case Blocked(req, _) => Serve(m, c', a, req)
    case Effect(_, _, _) => c'
  }

  /** The thread as a logged outcome left it; a direct effect stays in its slice. */
  function Suspend<T>(c: Core<T>, a: nat, o: Outcome<T>): Core<T>
    requires a < |c.actors|
  {
    Update(c, a, c.actors[a].(t := o.t)).(running := if o.Effect? then Some(a) else None)
  }

  function Continue<T>(m: Machine<T>, c: Core<T>, a: nat, data: Data): Core<T>
    requires a < |c.actors|
  {
    var x := c.actors[a];
    Update(c, a, x.(t := m.deposit(x.t, Result(data))))
  }

  function Park<T>(c: Core<T>, a: nat, hash: int): Core<T>
    requires a < |c.actors|
  {
    Update(c, a, c.actors[a].(status := Waiting, http := Some(hash)))
  }

  function Dispatch<T>(c: Core<T>): Core<T>
    requires c.queue != []
  {
    c.(queue := c.queue[1..], running := Some(c.queue[0]))
  }

  // ------------------------------------------------------------------- the log

  datatype Kind = Io | Injected | Bat | Folder | FetchDone | FetchRefused

  datatype Event = Event(kind: Kind, actor: nat, op: int, hash: int, data: Data)

  /** The event a logged outcome leaves, given the host's answer. */
  function EventOf<T>(m: Machine<T>, a: nat, o: Outcome<T>, data: Data): Event
    requires Logged(o)
  {
    match o
    case Effect(op, args, _) => Event(Io, a, op, m.hash(args), data)
    case Blocked(req, _) =>
      if req.ReadBat? then Event(Bat, a, 0, m.hash([req.arg]), data)
      else if req.ReadFolder? then Event(Folder, a, 0, m.hash([req.arg]), data)
      else Event(FetchRefused, a, 0, 0, data)
  }

  // ------------------------------------------------------------------ recording

  datatype Transfer = Transfer(actor: nat, hash: int)
  datatype Completion = Completion(transfer: Transfer, data: Data)

  datatype Recording<T> = Recording(core: Core<T>, inflight: seq<Transfer>, done: seq<Completion>, log: seq<Event>)

  /** One thing that happens while recording.  Tick is a turn of the scheduler,
      with whatever the host would answer if asked; Finish moves any transfer in
      flight to the completion queue; Inject is a host message; Enter begins a
      drive. */
  datatype Label = Tick(data: Data, refusal: Option<int>) | Finish(at: nat, data: Data) | Inject(to: nat, payload: int)
                 | Enter(root: nat, fn: int)

  function Remove<X>(s: seq<X>, i: nat): seq<X>
    requires i < |s|
  {
    s[..i] + s[i + 1..]
  }

  function RecordSlice<T>(m: Machine<T>, s: Recording<T>, a: nat, data: Data, refusal: Option<int>): Recording<T>
    requires a < |s.core.actors|
  {
    var o := m.resume(s.core.actors[a].t);
    if !Logged(o) then s.(core := Settle(m, s.core, a, o))
    else
      var c := Suspend(s.core, a, o);
      if o.Effect? then s.(core := Continue(m, c, a, data), log := s.log + [EventOf(m, a, o, data)])
      else if !o.req.Fetch? then s.(core := Wake(m, c, a, Result(data)), log := s.log + [EventOf(m, a, o, data)])
      else
        match m.parseFetch(o.req.arg)
        case None => s.(core := Crash(c, a))
        case Some(hash) =>
          match refusal
          case Some(e) => s.(core := Wake(m, c, a, Result([1, e])),
                             log := s.log + [Event(FetchRefused, a, 0, hash, [1, e])])
          case None => s.(core := Park(c, a, hash), inflight := [Transfer(a, hash)] + s.inflight)
  }

  /** The step a label stands for; None when it cannot happen here. */
  function RecordStep<T>(m: Machine<T>, s: Recording<T>, l: Label): Option<Recording<T>> {
    match l
    case Finish(at, data) =>
      if at < |s.inflight| then
        Some(s.(inflight := Remove(s.inflight, at), done := s.done + [Completion(s.inflight[at], data)]))
      else None
    case Inject(to, payload) =>
      if s.core.running.Some? || to >= |s.core.actors| then None
      else if s.core.actors[to].status in {Finished, Crashed} then Some(s)
      else Some(s.(core := Deliver(m, s.core, to, Message(payload, [])),
                   log := s.log + [Event(Injected, to, 0, 0, [payload])]))
    case Enter(root, fn) => if CanArm(s.core, root) then Some(s.(core := Arm(m, s.core, root, fn))) else None
    case Tick(data, refusal) =>
      match s.core.running
      case Some(a) => if a < |s.core.actors| then Some(RecordSlice(m, s, a, data, refusal)) else None
      case None =>
        if s.core.queue != [] then Some(s.(core := Dispatch(s.core)))
        else if s.done != [] && s.done[0].transfer.actor < |s.core.actors| then
          var x := s.done[0];
          Some(s.(core := Wake(m, s.core, x.transfer.actor, Result(x.data)), done := s.done[1..],
                  log := s.log + [Event(FetchDone, x.transfer.actor, 0, x.transfer.hash, x.data)]))
        else if s.done == [] && s.inflight == [] && Drives(s.core) then
          Some(s.(core := EndDrive(s.core, s.core.drive.root, Deadlocked)))
        else None
  }

  // ------------------------------------------------------------------- replaying

  datatype Replaying<T> = Replaying(core: Core<T>, cursor: nat)

  /** The fields a replay compares: the operation's name only at a direct effect. */
  predicate Matches(e: Event, x: Event) {
    e.kind == x.kind && e.actor == x.actor && e.hash == x.hash && (x.kind.Io? ==> e.op == x.op)
  }

  /** None is a failed divergence check, which aborts the replay. */
  function ReplaySlice<T>(m: Machine<T>, log: seq<Event>, p: Replaying<T>, a: nat): Option<Replaying<T>>
    requires a < |p.core.actors|
  {
    var o := m.resume(p.core.actors[a].t);
    if !Logged(o) then Some(p.(core := Settle(m, p.core, a, o)))
    else
      var c := Suspend(p.core, a, o);
      if o.Blocked? && o.req.Fetch? then
        match m.parseFetch(o.req.arg)
        case None => Some(p.(core := Crash(c, a)))
        case Some(hash) =>
          if p.cursor < |log| && log[p.cursor].kind.FetchRefused? && log[p.cursor].actor == a then
            if log[p.cursor].hash != hash then None
            else Some(Replaying(Wake(m, c, a, Result(log[p.cursor].data)), p.cursor + 1))
          else Some(p.(core := Park(c, a, hash)))
      else if p.cursor >= |log| then None
      else
        var e := log[p.cursor];
        if !Matches(e, EventOf(m, a, o, e.data)) then None
        else if o.Effect? then Some(Replaying(Continue(m, c, a, e.data), p.cursor + 1))
        else Some(Replaying(Wake(m, c, a, Result(e.data)), p.cursor + 1))
  }

  predicate Parked<T>(c: Core<T>) {
    exists a :: 0 <= a < |c.actors| && c.actors[a].http.Some?
  }

  /** A turn of the replaying scheduler: the running slice, else the queue, else
      the next logged completion; a drive with nothing left to do is a deadlock,
      and a run with nothing left to do leaves the state as it is. */
  function ReplayTick<T>(m: Machine<T>, log: seq<Event>, p: Replaying<T>): Option<Replaying<T>> {
    match p.core.running
    case Some(a) => if a < |p.core.actors| then ReplaySlice(m, log, p, a) else None
    case None =>
      if p.core.queue != [] then Some(p.(core := Dispatch(p.core)))
      else if !Parked(p.core) then
        Some(if Drives(p.core) then p.(core := EndDrive(p.core, p.core.drive.root, Deadlocked)) else p)
      else if p.cursor >= |log| then None
      else
        var e := log[p.cursor];
        if !e.kind.FetchDone? || e.actor >= |p.core.actors| || p.core.actors[e.actor].http != Some(e.hash) then None
        else Some(Replaying(Wake(m, p.core, e.actor, Result(e.data)), p.cursor + 1))
  }

  function ReplayEnter<T>(m: Machine<T>, p: Replaying<T>, root: nat, fn: int): Option<Replaying<T>> {
    if CanArm(p.core, root) then Some(p.(core := Arm(m, p.core, root, fn))) else None
  }

  function ReplayInject<T>(m: Machine<T>, log: seq<Event>, p: Replaying<T>, to: nat,
                           payload: int): Option<Replaying<T>> {
    if p.core.running.Some? || to >= |p.core.actors| then None
    else if p.core.actors[to].status in {Finished, Crashed} then Some(p)
    else if p.cursor >= |log| then None
    else if !log[p.cursor].kind.Injected? || log[p.cursor].actor != to || log[p.cursor].data != [payload] then None
    else Some(Replaying(Deliver(m, p.core, to, Message(payload, [])), p.cursor + 1))
  }
}
