/**
  What each step of the slab heap decides (pkg/plan/src/gc2.c:192-238, 299-395, 652-673):
  where a new object goes and when the heap grows, the order in which slots are reused and
  spans are swept, and exactly what a rollback leaves.
 */
module SweepLaws {
  import opened Basics
  import opened Slabs
  import opened Sweep

  // -------------------------------------------------------------------------- allocation

  /** No object of a reachable state is younger than the serial. */
  lemma {:induction false} Serials(s: State, id: nat, k: nat, n: nat)
    requires Inv(s) && Alive(s, id, k, n)
    ensures n <= s.serial
  {
    hide SpanOk, Bytes, Extent;
    assert SpanInv(s, id);
  }

  /** What the assisting loop leaves alone. */
  lemma {:induction false} AssistKeeps(s: State, klass: nat)
    requires Inv(s)
    ensures var r := Assist(s, klass);
            r.serial == s.serial && r.epoch == s.epoch && |r.spans| == |s.spans| && r.tx == s.tx && r.work <= s.work
    decreases |s.work|
  {
    hide Inv, FreeWhere;
    assert |s.avail| == CLASSES && WorkOk(s) by { Parts(s); }
    if Wanting(s, klass) && s.work != [] {
      PopSweepInv(s);
      PopSweepWork(s);
      PopKeeps(s);
      AssistKeeps(PopSweep(s), klass);
    }
  }

  lemma {:induction false} PopKeeps(s: State)
    requires Inv(s) && s.work != []
    ensures |s.avail| == CLASSES && WorkOk(s)
    ensures var r := PopSweep(s);
            && r.serial == s.serial && r.epoch == s.epoch && |r.spans| == |s.spans| && r.tx == s.tx
            && r.work == s.work[..|s.work| - 1]
  {
    hide FreeWhere, SpanInv;
  }

  /** The one new object of an allocation: in a span of its class, at a place that was free. */
  ghost predicate Places(s: State, r: State, klass: nat, id: nat, k: nat) {
    && r.serial == s.serial + 1 && Alive(r, id, k, r.serial) && !IsMarked(r, id, k)
    && r.spans[id].value.klass == klass && id !in r.work
    && forall j: nat, l: nat :: Alive(r, j, l, r.serial) ==> j == id && l == k
  }

  /** Nothing of a class has room, and no span is left to sweep. */
  ghost predicate Exhausted(s: State, klass: nat) {
    && s.work == []
    && forall id: nat :: id < |s.spans| && s.spans[id].Some? && s.spans[id].value.klass == klass && klass < 15 ==>
         s.spans[id].value.free == []
  }

  lemma {:induction false} WantingIsExhausted(s: State, klass: nat)
    requires Inv(s) && |s.avail| == CLASSES && Wanting(s, klass) && s.work == []
    ensures Exhausted(s, klass)
  {
    hide SpanOk, Bytes, Extent;
    forall id: nat | id < |s.spans| && s.spans[id].Some? && s.spans[id].value.klass == klass && klass < 15
      ensures s.spans[id].value.free == []
    {
      assert SpanInv(s, id);
      assert Offered(s, id, s.spans[id].value);
    }
  }

  lemma {:induction false} ServePlaces(s: State, klass: nat)
    requires Inv(s) && klass < CLASSES && s.avail[klass] != []
    ensures var id := s.avail[klass][0];
            && id < |s.spans| && s.spans[id].Some? && s.spans[id].value.free != []
            && s.spans[id].value.free[0] < |s.spans[id].value.slots|
            && Places(s, Serve(s, id), klass, id, s.spans[id].value.free[0]) && |Serve(s, id).spans| == |s.spans|
  {
    hide SpanOk, Bytes, Extent, SpanInv;
    ServeInv(s, klass);
    var id := s.avail[klass][0];
    assert ListedOk(s, klass, id);
    var k := s.spans[id].value.free[0];
    var r := Serve(s, id);
    forall j: nat, l: nat | Alive(r, j, l, r.serial) ensures j == id && l == k {
      if j != id || l != k {
        assert Alive(s, j, l, r.serial);
        Serials(s, j, l, r.serial);
      }
    }
  }

  lemma {:induction false} GrowPlaces(s: State, klass: nat, e: Grant)
    requires Inv(s) && |s.avail| == CLASSES && Wanting(s, klass) && GrantOk(s, e)
    ensures Places(s, Grow(s, klass, e), klass, |s.spans|, 0) && |Grow(s, klass, e).spans| == |s.spans| + 1
  {
    hide SpanOk, Bytes, Extent, SpanInv;
    GrowInv(s, klass, e);
    var r := Grow(s, klass, e);
    assert |s.spans| !in r.work by { WorkBelow(s); }
    forall j: nat, l: nat | Alive(r, j, l, r.serial) ensures j == |s.spans| && l == 0 {
      if j < |s.spans| {
        assert Alive(s, j, l, r.serial);
        Serials(s, j, l, r.serial);
      }
    }
  }

  lemma WorkBelow(s: State)
    requires Inv(s)
    ensures |s.spans| !in s.work
  {
    hide SpanInv;
  }

  /** Main result: an allocation makes exactly one object, in a span of its class that is
      not waiting to be swept; it fails, or takes a new span, only when every span of the
      class is full and nothing is left to sweep. */
  lemma {:induction false} AllocLaw(s: State, klass: nat, grant: Option<Grant>) returns (id: nat, k: nat)
    requires Inv(s) && Enabled(s, Alloc(klass, grant))
    ensures var r := Next(s, Alloc(klass, grant));
            && r.epoch == s.epoch && r.tx == s.tx && r.work <= s.work
            && (if r.serial == s.serial then grant.None? && Exhausted(r, klass) && |r.spans| == |s.spans|
                else Places(s, r, klass, id, k))
            && (|r.spans| > |s.spans| ==>
                grant.Some? && id == |s.spans| && k == 0 && Exhausted(Assist(s, klass), klass))
  {
    hide Inv, Assist, Places, Exhausted, Serve, Grow;
    AssistKeeps(s, klass);
    var s1 := Assist(s, klass);
    assert |s1.avail| == CLASSES by { Parts(s1); }
    id, k := 0, 0;
    if !Wanting(s1, klass) {
      ServePlaces(s1, klass);
      id := s1.avail[klass][0];
      k := s1.spans[id].value.free[0];
      ServeKeeps(s1, id);
      PlacesFrom(s, s1, Serve(s1, id), klass, id, k);
    } else {
      WantingIsExhausted(s1, klass);
      if grant.Some? {
        GrowPlaces(s1, klass, grant.value);
        GrowKeeps(s1, klass, grant.value);
        id := |s1.spans|;
        PlacesFrom(s, s1, Grow(s1, klass, grant.value), klass, id, k);
      }
    }
  }

  lemma PlacesFrom(s: State, s1: State, r: State, klass: nat, id: nat, k: nat)
    requires Places(s1, r, klass, id, k) && s1.serial == s.serial
    ensures Places(s, r, klass, id, k) && r.serial == s.serial + 1
  {
  }

  lemma ServeKeeps(s: State, id: nat)
    requires |s.avail| == CLASSES && id < |s.spans| && s.spans[id].Some? && s.spans[id].value.free != []
    requires s.spans[id].value.free[0] < |s.spans[id].value.slots|
    ensures var r := Serve(s, id); r.epoch == s.epoch && r.tx == s.tx && r.work == s.work
  {
  }

  lemma GrowKeeps(s: State, klass: nat, e: Grant)
    requires |s.avail| == CLASSES && e.count > 0
    ensures var r := Grow(s, klass, e); r.epoch == s.epoch && r.tx == s.tx && r.work == s.work
  {
  }

  // ------------------------------------------------------------------ the order of reuse

  ghost predicate Descending(q: seq<nat>) {
    forall i, j :: 0 <= i < j < |q| ==> q[i] > q[j]
  }

  /** The slot freed last is handed out first. */
  lemma {:induction false} FreedLastOut(sp: Span, drop: Slot -> bool, i: nat) returns (freed: seq<nat>)
    requires SpanOk(sp) && i <= |sp.slots|
    ensures FreeWhere(sp, drop, i).free == freed + sp.free && Descending(freed)
    ensures forall k :: k in freed <==> i <= k < |sp.slots| && IsLive(sp.slots[k]) && drop(sp.slots[k])
    decreases |sp.slots| - i
  {
    hide SpanOk;
    if i == |sp.slots| {
      freed := [];
    } else if IsLive(sp.slots[i]) && drop(sp.slots[i]) {
      SlotFreeOk(sp, i);
      var rest := FreedLastOut(SlotFree(sp, i), drop, i + 1);
      freed := rest + [i];
      assert freed + sp.free == rest + ([i] + sp.free);
      assert forall j :: 0 <= j < |rest| ==> rest[j] in rest;
    } else {
      freed := FreedLastOut(sp, drop, i + 1);
    }
  }

  /** Spans are swept from the end of the queue, which only a mark fills. */
  lemma {:induction false} QueueShrinks(s: State, step: Step)
    requires Inv(s) && Enabled(s, step)
    ensures var r := Next(s, step);
            match step
            case Mark(live, order) => r.work == order && r.epoch == s.serial && r.sweeping
            case SweepOne => s.work != [] && r.work == s.work[..|s.work| - 1]
            case EndSweep => r == s.(sweeping := false) && s.work == []
            case _ => r.work <= s.work && r.sweeping == s.sweeping
  {
    hide Inv, Assist, RollFrom, FreeWhere;
    match step
    case Alloc(klass, grant) =>
      var id, k := AllocLaw(s, klass, grant);
      AllocSweeping(s, klass, grant);
    case SweepOne => PopKeeps(s);
    case Rollback =>
      assert |s.avail| == CLASSES by { Parts(s); }
      RollKeeps(s, s.tx.value, |s.spans|);
    case _ =>
  }

  lemma {:induction false} AllocSweeping(s: State, klass: nat, grant: Option<Grant>)
    requires Inv(s) && Enabled(s, Alloc(klass, grant))
    ensures Next(s, Alloc(klass, grant)).sweeping == s.sweeping
  {
    hide Inv, Assist;
    AssistSweeping(s, klass);
    var s1 := Assist(s, klass);
    assert |s1.avail| == CLASSES by { Parts(s1); }
    if !Wanting(s1, klass) {
      ServeInv(s1, klass);
    }
  }

  lemma {:induction false} AssistSweeping(s: State, klass: nat)
    requires Inv(s)
    ensures Assist(s, klass).sweeping == s.sweeping
    decreases |s.work|
  {
    hide Inv, FreeWhere;
    assert |s.avail| == CLASSES && WorkOk(s) by { Parts(s); }
    if Wanting(s, klass) && s.work != [] {
      PopSweepInv(s);
      PopSweepWork(s);
      AssistSweeping(PopSweep(s), klass);
    }
  }

  lemma {:induction false} RollKeeps(s: State, c: nat, n: nat)
    requires |s.avail| == CLASSES && n <= |s.spans|
    ensures RollFrom(s, c, n).work == s.work && RollFrom(s, c, n).sweeping == s.sweeping
    decreases n
  {
    hide FreeWhere;
    if n > 0 {
      var id := n - 1;
      if s.spans[id].Some? && Touched(s.spans[id].value, c) {
        RollKeeps(Settle(s, id, s.spans[id].value, FreeWhere(s.spans[id].value, Newer(c), 0)), c, n - 1);
      } else {
        RollKeeps(s, c, n - 1);
      }
    }
  }

  // ------------------------------------------------------------------------ transactions

  /** Main result: a rollback leaves exactly the objects from before the checkpoint, and the
      serial with which the transaction began. */
  lemma {:induction false} RollbackLaw(s: State, id: nat, k: nat, n: nat)
    requires Inv(s) && s.tx.Some?
    ensures var r := Next(s, Rollback);
            && r.serial == s.tx.value && r.tx.None?
            && (Alive(r, id, k, n) <==> Alive(s, id, k, n) && n <= s.tx.value)
  {
    hide SpanOk, Bytes, Extent, RollFrom, SpanInv;
    RollbackInv(s);
    var r := RollFrom(s, s.tx.value, |s.spans|);
    if id < |s.spans| && id < |r.spans| {
      assert SpanRolled(s.spans[id], r.spans[id], s.tx.value);
    }
  }

  /** A transaction remembers the serial it began at, until it ends. */
  lemma {:induction false} CheckpointKept(s: State, step: Step)
    requires Inv(s) && Enabled(s, step)
    ensures Next(s, step).tx == match step
                                case Begin => Some(s.serial)
                                case Commit => None
                                case Rollback => None
                                case _ => s.tx
  {
    hide Inv, Assist, RollFrom, FreeWhere;
    match step
    case Alloc(klass, grant) => var id, k := AllocLaw(s, klass, grant);
    case SweepOne => PopKeeps(s);
    case _ =>
  }

  /** A mark sets exactly the marks that tracing found, and closes every span to allocation. */
  lemma {:induction false} MarkLaw(s: State, live: set<(nat, nat)>, order: seq<nat>, id: nat, k: nat, n: nat)
    requires Inv(s) && Enabled(s, Mark(live, order))
    ensures var r := Next(s, Mark(live, order));
            && (Alive(r, id, k, n) <==> Alive(s, id, k, n))
            && (Alive(r, id, k, n) ==> (IsMarked(r, id, k) <==> (id, k) in live))
            && (forall c :: 0 <= c < |r.avail| ==> r.avail[c] == [])
  {
    hide SpanOk, Bytes, Extent, SpanInv;
  }
}
