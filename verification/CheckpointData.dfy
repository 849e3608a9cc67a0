/**
  What a checkpoint is for (pkg/plan/src/store_native.c:718-796, 974-1007): a value
  staged before a checkpoint whose closing sync completed is found in its place after
  any crash, however many checkpoints, failures and reopenings came in between.
 */
module CheckpointData {
  import opened Checkpoint

  /** The numbers of the arena: two superblock granules in front of the data. */
  lemma ArenaNumbers()
    ensures GRANULE == 65536 && START == 2 * GRANULE
  {
  }

  ghost predicate Has(d: Data, off: nat, v: int) {
    off in d && d[off] == v
  }

  // ------------------------------------------------------------------ before the seal

  /** While its process is open a staged value stays, below the allocation point. */
  lemma {:induction false} StagedStays(states: seq<State>, i: nat, j: nat, off: nat, v: int)
    requires Run(states) && i < j < |states| && Stage(states[i], states[i + 1], off, v)
    requires forall m :: i <= m <= j ==> states[m].process.Open?
    ensures Has(states[j].cached.data, off, v) && off < states[j].process.next && off >= START
    decreases j
  {
    hide Next, Inv;
    if j == i + 1 {
      RunInv(states, i);
      AboveStart(states[i]);
    } else {
      StagedStays(states, i, j - 1, off, v);
      RunNext(states, j - 1);
      RunInv(states, j - 1);
      OpenStep(states[j - 1], states[j], off, v);
    }
  }

  lemma AboveStart(s: State)
    requires Inv(s) && s.process.Open?
    ensures s.process.next >= START
  {
  }

  lemma RunNext(states: seq<State>, i: nat)
    requires Run(states) && i < |states| - 1
    ensures Next(states[i], states[i + 1])
  {
    hide Next;
  }

  lemma {:induction false} OpenStep(s: State, s': State, off: nat, v: int)
    requires Next(s, s') && s.process.Open? && s'.process.Open? && Inv(s)
    requires Has(s.cached.data, off, v) && off < s.process.next
    ensures Has(s'.cached.data, off, v) && off < s'.process.next
  {
    hide Intact, Newest, Safe;
  }

  // ------------------------------------------------------------------- after the close

  /** Every block no older than checkpoint `k`, in the file or on its way there, has it. */
  ghost predicate Datum(s: State, k: nat, off: nat, v: int) {
    && s.closed >= k && off >= START
    && (FileOk(s.cached) && FileOk(s.durable) ==>
          forall i, sb :: 0 <= i < 2 && Holds(s, i, sb) && sb.id >= k ==> Carries(s, sb, off, v))
    && (s.process.Open? && !s.process.phase.Idle? && s.process.phase.candidate.id >= k ==>
          Carries(s, s.process.phase.candidate, off, v))
  }

  ghost predicate Carries(s: State, sb: Super, off: nat, v: int) {
    sb.id < |s.history| && off < sb.end && Has(s.history[sb.id], off, v)
  }

  /** The close of the checkpoint that has it. */
  lemma {:induction false} ClosedHas(s: State, s': State, fault: bool, off: nat, v: int)
    requires Inv(s) && SyncSuper(s, s', fault) && off >= START
    requires Carries(s, s.process.phase.candidate, off, v)
    ensures Datum(s', s.process.phase.candidate.id, off, v)
  {
    SyncSuperInv(s, s', fault);
    var top := s.process.phase.candidate;
    forall i, sb | 0 <= i < 2 && Holds(s', i, sb) && sb.id >= top.id ensures Carries(s', sb, off, v) {
      assert Holds(s, i, sb);
      assert AtMost(sb, top);
    }
  }

  /** No step loses it. */
  lemma {:induction false} DatumStep(s: State, s': State, k: nat, off: nat, v: int)
    requires Inv(s) && Next(s, s') && Datum(s, k, off, v)
    ensures Datum(s', k, off, v)
  {
    hide Newest, Same, Intact, Safe, ProcessInv, RoundUp;
    ClosedStep(s, s');
    NextInv(s, s');
    forall i, sb | 0 <= i < 2 && Holds(s', i, sb) && sb.id >= k ensures Carries(s', sb, off, v) {
      if Holds(s, 0, sb) || Holds(s, 1, sb) {
        assert Carries(s, sb, off, v);
      } else {
        assert s.process.Open? && s.process.phase.DataSynced? && sb == s.process.phase.candidate;
      }
    }
    if s'.process.Open? && !s'.process.phase.Idle? && s'.process.phase.candidate.id >= k {
      if Seal(s, s') {
        SealedHas(s, s', k, off, v);
      }
    }
  }

  /** A new checkpoint is sealed over data that still has it. */
  lemma {:induction false} SealedHas(s: State, s': State, k: nat, off: nat, v: int)
    requires Inv(s) && Seal(s, s') && Datum(s, k, off, v)
    ensures Carries(s', s'.process.phase.candidate, off, v)
  {
    CommittedSince(s);
    var sb := s.process.committed;
    assert Holds(s, s.process.slot, sb);
    assert Carries(s, sb, off, v) && Intact(s, sb);
    assert off in s.cached.data <==> off in s.history[sb.id];
  }

  lemma {:induction false} DatumRun(states: seq<State>, i: nat, j: nat, k: nat, off: nat, v: int)
    requires Run(states) && i <= j < |states| && Datum(states[i], k, off, v)
    ensures Datum(states[j], k, off, v)
    decreases j
  {
    hide Next, Inv, Datum;
    if i < j {
      DatumRun(states, i, j - 1, k, off, v);
      RunInv(states, j - 1);
      RunNext(states, j - 1);
      DatumStep(states[j - 1], states[j], k, off, v);
    }
  }

  /** A file that opens to a checkpoint with the value in its place. */
  ghost predicate OpensWith(f: File, off: nat, v: int) {
    CanOpen(f) && var sb := f.slots[Choose(f)].sb; off < sb.end && Has(f.data, off, v)
  }

  /** Main result: staged at `i`, sealed at `j`, closed at `c`; whatever happens up to `n`,
      and if the machine or the process then goes down, opening the file finds it. */
  lemma {:induction false} ClosedIsDurable(states: seq<State>, i: nat, j: nat, c: nat, n: nat, off: nat, v: int,
                                           fault: bool,
                                           after: State)
    requires Run(states) && i < j < c < n < |states|
    requires Stage(states[i], states[i + 1], off, v) && Seal(states[j], states[j + 1])
    requires forall m :: i <= m <= j ==> states[m].process.Open?
    requires SyncSuper(states[c], states[c + 1], fault)
             && states[c].process.phase.candidate == states[j + 1].process.phase.candidate
    requires Crash(states[n], after) || Abandon(states[n], after)
    ensures OpensWith(after.cached, off, v)
  {
    hide Next;
    StagedStays(states, i, j, off, v);
    var sb := states[j + 1].process.phase.candidate;
    assert Carries(states[j + 1], sb, off, v);
    ClosedNeverRegresses(states, j + 1, c);
    assert Carries(states[c], sb, off, v);
    RunInv(states, c);
    ClosedHas(states[c], states[c + 1], fault, off, v);
    DatumRun(states, c + 1, n, sb.id, off, v);
    RunInv(states, n);
    DownHas(states[n], after, sb.id, off, v);
  }

  lemma {:induction false} DownHas(s: State, after: State, k: nat, off: nat, v: int)
    requires Inv(s) && Datum(s, k, off, v) && (Crash(s, after) || Abandon(s, after))
    ensures OpensWith(after.cached, off, v)
  {
    if Crash(s, after) {
      CrashInv(s, after);
    } else {
      AbandonInv(s, after);
    }
    DatumStep(s, after, k, off, v);
    ChoiceIsNewest(after);
    var i := Choose(after.cached);
    var sb := after.cached.slots[i].sb;
    assert Holds(after, i, sb);
    var j := if Safe(after, 0) then 0 else 1;
    assert Holds(after, j, after.cached.slots[j].sb);
    assert Carries(after, sb, off, v) && Intact(after, sb);
    assert off in after.cached.data <==> off in after.history[sb.id];
  }

  // --------------------------------------------------------------------- what can happen

  /** A checkpoint in which nothing fails takes four steps: it ends with everything that was
      staged durable, in a store that can be written to again. */
  lemma {:induction false} Publishes(s: State) returns (sealed: State, synced: State, written: State, done: State)
    requires Inv(s) && Writable(s)
    ensures Next(s, sealed) && Next(sealed, synced) && Next(synced, written) && Next(written, done)
    ensures Writable(done) && done.closed == |s.history| && done.process.committed.id == done.closed
    ensures done.history == s.history + [s.cached.data] && done.durable == done.cached
            && done.cached.data == s.cached.data
    ensures done.process.committed.generation == s.process.committed.generation + 1
            && done.process.slot == 1 - s.process.slot
    ensures CanOpen(done.cached) && done.cached.slots[Choose(done.cached)] == Whole(done.process.committed)
  {
    hide Newest, Intact, Safe;
    var p := s.process;
    var end := RoundUp(p.next);
    var candidate := Super(p.committed.generation + 1, end, |s.history|);
    sealed := s.(process := p.(next := end, phase := Sealed(candidate)), history := s.history + [s.cached.data]);
    synced := sealed.(durable := sealed.cached, process := sealed.process.(phase := DataSynced(candidate)));
    written := synced.(cached := synced.cached.(slots := synced.cached.slots[1 - p.slot := Whole(candidate)]),
                       process := synced.process.(poisoned := true, phase := SuperWritten(candidate)));
    done := written.(durable := written.cached, closed := candidate.id,
                     process := Open(1 - p.slot, candidate, end, false, Idle));
    assert Seal(s, sealed) && SyncData(sealed, synced) && WriteSuper(synced, written, false)
        && SyncSuper(written, done, false);
  }

  /** Whatever state the process is left in, it can be ended and the file opened again, with
      nothing staged and the newest whole checkpoint current. */
  lemma {:induction false} Recovers(s: State) returns (down: State, up: State)
    requires Inv(s)
    ensures Next(s, down) && Next(down, up) && Writable(up) && up.process.next == up.process.committed.end
    ensures down.cached == s.cached && up.cached.slots == s.cached.slots
    ensures Newest(s, up.process.committed) && forall o :: o in up.cached.data ==> o < up.process.next
  {
    hide Intact, Safe, Newest;
    down := s.(process := Closed);
    assert Abandon(s, down);
    ChoiceIsNewest(s);
    var slot := Choose(s.cached);
    var sb := s.cached.slots[slot].sb;
    up := down.(cached := s.cached.(data := map o | o in s.cached.data && o < sb.end :: s.cached.data[o]),
                process := Open(slot, sb, sb.end, false, Idle));
    assert Reopen(down, up);
  }

  /** A crash may come at any point, leave either version of a slot whose write was not
      synced, or a torn one, and anything at all where data was not. */
  lemma CrashAnywhere(s: State, slots: seq<Slot>, data: Data)
    requires FileOk(s.cached) && FileOk(s.durable) && |slots| == 2
    requires forall i :: 0 <= i < 2 ==>
               slots[i] == s.cached.slots[i]
                   || (s.cached.slots[i] != s.durable.slots[i] && slots[i] in {s.durable.slots[i], Torn})
    requires forall o ::
             (o in s.cached.data && o in s.durable.data && s.cached.data[o] == s.durable.data[o] ==>
             Has(data, o, s.cached.data[o]))
                         && (o !in s.cached.data && o !in s.durable.data ==> o !in data)
    ensures Next(s, State(File(data, slots), File(data, slots), Closed, s.history, s.closed))
  {
    var after := State(File(data, slots), File(data, slots), Closed, s.history, s.closed);
    assert Crash(s, after);
  }
}
