/** The publication protocol of the native store as a state machine: staged data,
    a data sync, one superblock overwritten, a closing sync, and a crash or an
    abandoned process at any point in between. */
module Checkpoint {

  const START := 131072
  const GRANULE := 65536

  /** A superblock.  `id` numbers the checkpoints in the order they were composed;
      it stands for the root, journal and index offsets the block carries. */
  datatype Super = Super(generation: nat, end: nat, id: nat)

  /** What a slot of the file holds: a block whose checksum matches, or not one. */
  datatype Slot = Whole(sb: Super) | Torn

  type Data = map<nat, int>

  /** Progress of one checkpoint call. */
  datatype Phase =
    | Idle
    | Sealed(candidate: Super)
    | DataSynced(candidate: Super)
    | SuperWritten(candidate: Super)

  datatype Process =
    | Closed
    | Open(slot: nat, committed: Super, next: nat, poisoned: bool, phase: Phase)

  /** `cached` is what reads return; `durable` is what a crash leaves at the
      places that have been synced. */
  datatype File = File(data: Data, slots: seq<Slot>)

  /** `history` records the data that checkpoint i was composed of, and `closed`
      the newest checkpoint whose closing sync completed. */
  datatype State = State(cached: File, durable: File, process: Process, history: seq<Data>, closed: nat)

  predicate FileOk(f: File) {
    |f.slots| == 2
  }

  /** Two data regions agree below an offset. */
  ghost predicate Same(a: Data, b: Data, end: nat) {
    forall o :: START <= o < end ==> (o in a <==> o in b) && (o in a ==> a[o] == b[o])
  }

  function RoundUp(n: nat): (r: nat)
    ensures n <= r < n + 65536 && r % 65536 == 0
  {
    (n + GRANULE - 1) / GRANULE * GRANULE
  }

  // ------------------------------------------------------------------- the steps

  /** A freshly created arena: generation 1, empty, synced. */
  ghost predicate Init(s: State) {
    && s.cached == File(map[], [Whole(Super(1, START, 0)), Torn]) && s.durable == s.cached
    && s.process == Open(0, Super(1, START, 0), START, false, Idle)
    && s.history == [map[]] && s.closed == 0
  }

  ghost predicate Writable(s: State) {
    s.process.Open? && !s.process.poisoned && s.process.phase.Idle?
  }

  /** nalloc and the write into the new extent: never below the allocation point. */
  ghost predicate Stage(s: State, s': State, off: nat, value: int) {
    && Writable(s) && off >= s.process.next
    && s' == s.(cached := s.cached.(data := s.cached.data[off := value]), process := s.process.(next := off + 1))
  }

  /** Emission and sealing: the candidate's end is the rounded allocation point. */
  ghost predicate Seal(s: State, s': State) {
    && Writable(s)
    && var end := RoundUp(s.process.next);
       var candidate := Super(s.process.committed.generation + 1, end, |s.history|);
       s' == s.(process := s.process.(next := end, phase := Sealed(candidate)), history := s.history + [s.cached.data])
  }

  /** A failure before the superblock write: the call returns, staging is kept. */
  ghost predicate FailEarly(s: State, s': State) {
    && s.process.Open? && (s.process.phase.Sealed? || s.process.phase.DataSynced?)
    && s' == s.(process := s.process.(phase := Idle))
  }

  /** fsync makes everything written so far durable, superblocks included. */
  ghost predicate SyncData(s: State, s': State) {
    && s.process.Open? && s.process.phase.Sealed?
    && s' == s.(durable := s.cached, process := s.process.(phase := DataSynced(s.process.phase.candidate)))
  }

  /** The slot that is not current is overwritten; the write may come out partial. */
  ghost predicate WriteSuper(s: State, s': State, torn: bool) {
    && s.process.Open? && s.process.phase.DataSynced? && FileOk(s.cached) && s.process.slot < 2
    && var candidate := s.process.phase.candidate;
       s' == s.(cached :=
           s.cached.(slots := s.cached.slots[1 - s.process.slot := if torn then Torn else Whole(candidate)]),
                process := s.process.(poisoned := true, phase := if torn then Idle else SuperWritten(candidate)))
  }

  /** A failure after the superblock write: the store stays poisoned. */
  ghost predicate FailLate(s: State, s': State) {
    && s.process.Open? && s.process.phase.SuperWritten?
    && s' == s.(process := s.process.(phase := Idle))
  }

  /** The closing sync, and then either a fault or the new current slot. */
  ghost predicate SyncSuper(s: State, s': State, fault: bool) {
    && s.process.Open? && s.process.phase.SuperWritten? && s.process.slot < 2
    && var candidate := s.process.phase.candidate;
       s' == s.(durable := s.cached, closed := candidate.id,
                process := if fault then s.process.(phase := Idle)
                           else Open(1 - s.process.slot, candidate, candidate.end, false, Idle))
  }

  /** The process ends, or is abandoned, without the machine going down. */
  ghost predicate Abandon(s: State, s': State) {
    s' == s.(process := Closed)
  }

  /** After a crash a slot holds its last synced contents, its last written
      contents, or neither, and unsynced data is arbitrary. */
  ghost predicate SlotAfterCrash(cached: Slot, durable: Slot, after: Slot) {
    if cached == durable then after == cached else after == cached || after == durable || after == Torn
  }

  ghost predicate Crash(s: State, s': State) {
    && FileOk(s.cached) && FileOk(s.durable) && FileOk(s'.cached)
    && (forall i :: 0 <= i < 2 ==> SlotAfterCrash(s.cached.slots[i], s.durable.slots[i], s'.cached.slots[i]))
    && (forall o :: (o in s.cached.data <==> o in s.durable.data)
                    && (o in s.cached.data ==> s.cached.data[o] == s.durable.data[o])
                    ==> (o in s'.cached.data <==> o in s.cached.data)
                        && (o in s.cached.data ==> s'.cached.data[o] == s.cached.data[o]))
    && s' == State(s'.cached, s'.cached, Closed, s.history, s.closed)
  }

  /** nopen: the valid block of greatest generation, slot 0 on a tie. */
  function Choose(f: File): (r: nat)
    requires FileOk(f) && (f.slots[0].Whole? || f.slots[1].Whole?)
    ensures r < 2 && f.slots[r].Whole?
  {
    if f.slots[1].Whole? && (!f.slots[0].Whole? || f.slots[1].sb.generation > f.slots[0].sb.generation) then 1 else 0
  }

  predicate CanOpen(f: File) {
    FileOk(f) && (f.slots[0].Whole? || f.slots[1].Whole?)
  }

  /** Open the chosen checkpoint and discard everything staged beyond it. */
  ghost predicate Reopen(s: State, s': State) {
    && s.process.Closed? && CanOpen(s.cached)
    && var slot := Choose(s.cached);
       var sb := s.cached.slots[slot].sb;
       s' == s.(cached := s.cached.(data := map o | o in s.cached.data && o < sb.end :: s.cached.data[o]),
                process := Open(slot, sb, sb.end, false, Idle))
  }

  ghost predicate Next(s: State, s': State) {
    || (exists off: nat, value: int :: Stage(s, s', off, value))
    || Seal(s, s') || FailEarly(s, s') || SyncData(s, s')
    || (exists torn: bool :: WriteSuper(s, s', torn))
    || FailLate(s, s')
    || (exists fault: bool :: SyncSuper(s, s', fault))
    || Abandon(s, s') || Crash(s, s') || Reopen(s, s')
  }

  /** A run from a fresh arena. */
  ghost predicate Run(states: seq<State>) {
    && states != [] && Init(states[0])
    && forall i :: 0 <= i < |states| - 1 ==> Next(states[i], states[i + 1])
  }

  // --------------------------------------------------------------- the invariant

  /** A block whose checkpoint is intact: its data is the recorded data, it has
      been synced, and nothing will be written below its end. */
  ghost predicate Intact(s: State, sb: Super) {
    && sb.id < |s.history| && START <= sb.end
    && Same(s.cached.data, s.history[sb.id], sb.end) && Same(s.durable.data, s.history[sb.id], sb.end)
  }

  /** a is b, or older than b in generation, id and extent alike. */
  ghost predicate AtMost(a: Super, b: Super) {
    a == b || (a.generation < b.generation && a.id < b.id && a.end <= b.end)
  }

  /** Slot i is synced and holds a checkpoint at least as new as the last closed. */
  ghost predicate Safe(s: State, i: nat)
    requires i < 2 && FileOk(s.cached) && FileOk(s.durable)
  {
    s.cached.slots[i] == s.durable.slots[i] && s.cached.slots[i].Whole? && s.cached.slots[i].sb.id >= s.closed
  }

  /** A whole block in either layer of slot i. */
  ghost predicate Holds(s: State, i: nat, sb: Super)
    requires i < 2 && FileOk(s.cached) && FileOk(s.durable)
  {
    s.cached.slots[i] == Whole(sb) || s.durable.slots[i] == Whole(sb)
  }

  /** top is readable, and no block of either layer is newer. */
  ghost predicate Newest(s: State, top: Super)
    requires FileOk(s.cached) && FileOk(s.durable)
  {
    && (s.cached.slots[0] == Whole(top) || s.cached.slots[1] == Whole(top))
    && (forall i, sb :: 0 <= i < 2 && Holds(s, i, sb) ==> AtMost(sb, top))
  }

  ghost predicate Inv(s: State) {
    && FileOk(s.cached) && FileOk(s.durable)
    && (forall i, sb :: 0 <= i < 2 && Holds(s, i, sb) ==> Intact(s, sb))
    && (forall i, j, a, b :: 0 <= i < 2 && 0 <= j < 2 && Holds(s, i, a) && Holds(s, j, b) ==>
        AtMost(a, b) || AtMost(b, a))
    && (exists top :: Newest(s, top))
    && (Safe(s, 0) || Safe(s, 1))
    && (s.process.Open? ==> ProcessInv(s))
  }

  ghost predicate ProcessInv(s: State)
    requires FileOk(s.cached) && FileOk(s.durable) && s.process.Open?
  {
    var p := s.process;
    && p.slot < 2
    && s.cached.slots[p.slot] == Whole(p.committed) && START <= p.committed.end <= p.next
    && (!p.poisoned ==> Newest(s, p.committed))
    && (p.poisoned ==> p.phase.Idle? || p.phase.SuperWritten?)
    && (p.phase.SuperWritten? ==> p.poisoned)
    && (!p.phase.Idle? ==>
          && p.phase.candidate.generation == p.committed.generation + 1
          && p.committed.id < p.phase.candidate.id < |s.history|
          && p.committed.end <= p.phase.candidate.end == p.next
          && Same(s.cached.data, s.history[p.phase.candidate.id], p.phase.candidate.end))
    && (p.phase.DataSynced? ==> s.durable == s.cached)
    && (p.phase.SuperWritten? ==>
          && s.durable.data == s.cached.data
          && s.cached.slots[1 - p.slot] == Whole(p.phase.candidate)
          && Newest(s, p.phase.candidate))
  }

  // ---------------------------------------------------------- every step keeps it

  lemma InitInv(s: State)
    requires Init(s)
    ensures Inv(s)
  {
    assert Newest(s, Super(1, START, 0));
  }

  lemma StageInv(s: State, s': State, off: nat, value: int)
    requires Inv(s) && Stage(s, s', off, value)
    ensures Inv(s')
  {
    assert forall i, sb :: 0 <= i < 2 && Holds(s', i, sb) ==> Holds(s, i, sb);
    assert Newest(s', s.process.committed);
  }

  lemma SealInv(s: State, s': State)
    requires Inv(s) && Seal(s, s')
    ensures Inv(s')
  {
    assert forall i, sb :: 0 <= i < 2 && Holds(s', i, sb) ==> Holds(s, i, sb);
    assert Newest(s', s.process.committed);
    assert Holds(s, s.process.slot, s.process.committed);
  }

  lemma FailEarlyInv(s: State, s': State)
    requires Inv(s) && FailEarly(s, s')
    ensures Inv(s')
  {
    assert forall i, sb :: 0 <= i < 2 && Holds(s', i, sb) ==> Holds(s, i, sb);
    assert Newest(s', s.process.committed);
  }

  lemma SyncDataInv(s: State, s': State)
    requires Inv(s) && SyncData(s, s')
    ensures Inv(s')
  {
    assert forall i, sb :: 0 <= i < 2 && Holds(s', i, sb) ==> Holds(s, i, sb);
    assert Newest(s', s.process.committed);
    CommittedSince(s);
  }

  /** While nothing is in doubt, the current checkpoint is the last closed or newer. */
  lemma CommittedSince(s: State)
    requires Inv(s) && s.process.Open? && !s.process.poisoned
    ensures s.process.committed.id >= s.closed
  {
    var i := if Safe(s, 0) then 0 else 1;
    assert Holds(s, i, s.cached.slots[i].sb);
  }

  lemma WriteSuperInv(s: State, s': State, torn: bool)
    requires Inv(s) && WriteSuper(s, s', torn)
    ensures Inv(s')
  {
    CommittedSince(s);
    var p := s.process;
    assert Safe(s', p.slot);
    forall i, sb | 0 <= i < 2 && Holds(s', i, sb)
      ensures Holds(s, i, sb) || sb == p.phase.candidate
    {
    }
    assert Newest(s', if torn then p.committed else p.phase.candidate);
  }

  lemma FailLateInv(s: State, s': State)
    requires Inv(s) && FailLate(s, s')
    ensures Inv(s')
  {
    assert forall i, sb :: 0 <= i < 2 && Holds(s', i, sb) ==> Holds(s, i, sb);
    assert Newest(s', s.process.phase.candidate);
  }

  lemma SyncSuperInv(s: State, s': State, fault: bool)
    requires Inv(s) && SyncSuper(s, s', fault)
    ensures Inv(s')
  {
    assert forall i, sb :: 0 <= i < 2 && Holds(s', i, sb) ==> Holds(s, i, sb);
    assert Newest(s', s.process.phase.candidate);
    assert Safe(s', 1 - s.process.slot);
    assert Holds(s, 1 - s.process.slot, s.process.phase.candidate);
  }

  lemma AbandonInv(s: State, s': State)
    requires Inv(s) && Abandon(s, s')
    ensures Inv(s')
  {
    assert forall i, sb :: 0 <= i < 2 && Holds(s', i, sb) ==> Holds(s, i, sb);
    var top :| Newest(s, top);
    assert Newest(s', top);
  }

  lemma CrashHolds(s: State, s': State, i: nat, sb: Super)
    requires Inv(s) && Crash(s, s') && i < 2 && Holds(s', i, sb)
    ensures Holds(s, i, sb) && Intact(s', sb)
  {
    assert Holds(s, i, sb);
    assert Intact(s, sb);
  }

  lemma CrashInv(s: State, s': State)
    requires Inv(s) && Crash(s, s')
    ensures Inv(s')
  {
    forall i, sb | 0 <= i < 2 && Holds(s', i, sb)
      ensures Holds(s, i, sb) && Intact(s', sb)
    {
      CrashHolds(s, s', i, sb);
    }
    var i := if Safe(s, 0) then 0 else 1;
    assert Safe(s', i);
    NewestAfterCrash(s, s', i);
  }

  /** Of two surviving blocks one is the newest; a lone survivor is. */
  lemma NewestAfterCrash(s: State, s': State, i: nat)
    requires Inv(s) && Crash(s, s') && i < 2 && Safe(s, i) && Safe(s', i)
    requires forall j, sb :: 0 <= j < 2 && Holds(s', j, sb) ==> Holds(s, j, sb)
    ensures exists top :: Newest(s', top)
  {
    var mine := s'.cached.slots[i].sb;
    assert Holds(s, i, mine);
    var other := s'.cached.slots[1 - i];
    if other.Whole? && AtMost(mine, other.sb) {
      assert Newest(s', other.sb);
    } else {
      assert Newest(s', mine);
    }
  }

  lemma ReopenInv(s: State, s': State)
    requires Inv(s) && Reopen(s, s')
    ensures Inv(s')
  {
    ChoiceIsNewest(s);
    var sb := s.cached.slots[Choose(s.cached)].sb;
    assert Holds(s, Choose(s.cached), sb);
    assert forall i, x :: 0 <= i < 2 && Holds(s', i, x) ==> Holds(s, i, x);
    assert Newest(s', sb);
  }

  lemma ChoiceIsNewest(s: State)
    requires Inv(s)
    ensures CanOpen(s.cached)
    ensures Newest(s, s.cached.slots[Choose(s.cached)].sb)
  {
    var top :| Newest(s, top);
    var k := Choose(s.cached);
    assert Holds(s, k, s.cached.slots[k].sb);
  }

  lemma {:induction false} NextInv(s: State, s': State)
    requires Inv(s) && Next(s, s')
    ensures Inv(s')
  {
    hide Inv, Stage, Seal, FailEarly, SyncData, WriteSuper, FailLate, SyncSuper, Abandon, Crash, Reopen;
    if exists off: nat, value: int :: Stage(s, s', off, value) {
      var off: nat, value: int :| Stage(s, s', off, value);
      StageInv(s, s', off, value);
    } else if Seal(s, s') {
      SealInv(s, s');
    } else if FailEarly(s, s') {
      FailEarlyInv(s, s');
    } else if SyncData(s, s') {
      SyncDataInv(s, s');
    } else if exists torn: bool :: WriteSuper(s, s', torn) {
      var torn: bool :| WriteSuper(s, s', torn);
      WriteSuperInv(s, s', torn);
    } else if FailLate(s, s') {
      FailLateInv(s, s');
    } else if exists fault: bool :: SyncSuper(s, s', fault) {
      var fault: bool :| SyncSuper(s, s', fault);
      SyncSuperInv(s, s', fault);
    } else if Abandon(s, s') {
      AbandonInv(s, s');
    } else if Crash(s, s') {
      CrashInv(s, s');
    } else {
      ReopenInv(s, s');
    }
  }

  lemma {:induction false} RunInv(states: seq<State>, i: nat)
    requires Run(states) && i < |states|
    ensures Inv(states[i])
  {
    if i == 0 {
      InitInv(states[0]);
    } else {
      RunInv(states, i - 1);
      NextInv(states[i - 1], states[i]);
    }
  }

  // -------------------------------------------------------------- crash safety

  /** A store opened on this file shows one whole checkpoint, no older than
      `since`: its block, and exactly the data that checkpoint was composed of. */
  ghost predicate OpensWhole(f: File, history: seq<Data>, since: nat) {
    && CanOpen(f)
    && var sb := f.slots[Choose(f)].sb;
       since <= sb.id < |history| && Same(f.data, history[sb.id], sb.end)
  }

  /** Main result: at every point of every run, a crash leaves a file that
      opens, and opens to exactly one whole checkpoint which is the last one whose
      closing sync completed or a newer one.  So does abandoning the process. */
  lemma {:induction false} CrashSafety(states: seq<State>, i: nat, after: State)
    requires Run(states) && i < |states|
    requires Crash(states[i], after) || Abandon(states[i], after)
    ensures OpensWhole(after.cached, states[i].history, states[i].closed)
  {
    RunInv(states, i);
    if Crash(states[i], after) {
      CrashInv(states[i], after);
    } else {
      AbandonInv(states[i], after);
    }
    ChoiceIsNewest(after);
    var k := Choose(after.cached);
    assert Holds(after, k, after.cached.slots[k].sb);
    var j := if Safe(after, 0) then 0 else 1;
    assert Holds(after, j, after.cached.slots[j].sb);
  }

  /** What was closed stays closed: a completed closing sync is never undone by
      any later step, crashes included. */
  lemma {:induction false} ClosedNeverRegresses(states: seq<State>, i: nat, j: nat)
    requires Run(states) && i <= j < |states|
    ensures states[i].closed <= states[j].closed
    ensures |states[i].history| <= |states[j].history| && states[i].history == states[j].history[..|states[i].history|]
    decreases j - i
  {
    hide Inv, Next, Init;
    if i < j {
      ClosedNeverRegresses(states, i, j - 1);
      RunInv(states, j - 1);
      ClosedStep(states[j - 1], states[j]);
    }
  }

  lemma {:induction false} ClosedStep(s: State, s': State)
    requires Inv(s) && Next(s, s')
    ensures s.closed <= s'.closed && |s.history| <= |s'.history| && s.history == s'.history[..|s.history|]
  {
    if exists fault: bool :: SyncSuper(s, s', fault) {
      var i := if Safe(s, 0) then 0 else 1;
      assert Holds(s, i, s.cached.slots[i].sb);
    }
  }
}
