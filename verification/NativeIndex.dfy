/** The native store's index operations as the program has them: a validated
    descent, in-place path rebuilding, and memoised emission of the overlay. */
module NativeIndex {
  import opened Basics
  import opened Patricia
  import opened Overlay

  const RECORD_BYTES := 112
  const HEADER_BYTES := 48

  // ------------------------------------------------------- facts about a descent

  lemma {:induction false} StepsPrefix(m: Memory, ref: nat, t: Tree, key: Key, split: nat, lo: nat)
    requires Denotes(m, ref, t) && WellFormed(t, lo) && split <= KEY_BITS
    ensures var full, part := StepsTo(m, ref, t, key, KEY_BITS), StepsTo(m, ref, t, key, split);
            && |part| <= |full| && part == full[..|part|]
            && (forall i :: 0 <= i < |part| ==> part[i].node.bit < split)
            && (forall i :: |part| <= i < |full| ==> full[i].node.bit >= split)
            && StopRef(m, ref, t, key, split) ==
               (if |part| < |full| then full[|part|].ref else StopRef(m, ref, t, key, KEY_BITS))
    decreases t
  {
    var full, part := StepsTo(m, ref, t, key, KEY_BITS), StepsTo(m, ref, t, key, split);
    if t.Branch? {
      var next := Child(Fetch(m, ref).value, key[t.bit]);
      if t.bit < split {
        StepsPrefix(m, next, Side(t, key), key, split, t.bit + 1);
        var full' := StepsTo(m, next, Side(t, key), key, KEY_BITS);
        assert full == [full[0]] + full';
      } else {
        StepsAbove(m, next, Side(t, key), key, t.bit + 1);
        assert part == full[..0];
      }
    }
  }

  lemma {:induction false} StepsAbove(m: Memory, ref: nat, t: Tree, key: Key, lo: nat)
    requires Denotes(m, ref, t) && WellFormed(t, lo)
    ensures forall i :: 0 <= i < |StepsTo(m, ref, t, key, KEY_BITS)| ==>
              lo <= StepsTo(m, ref, t, key, KEY_BITS)[i].node.bit < KEY_BITS
    decreases t
  {
    if t.Branch? {
      StepsAbove(m, Child(Fetch(m, ref).value, key[t.bit]), Side(t, key), key, t.bit + 1);
    }
  }

  /** The stopping point of a full descent is the leaf the key reaches. */
  lemma {:induction false} StopIsReach(t: Tree, key: Key, lo: nat)
    requires WellFormed(t, lo)
    ensures WellFormed(t, 0) && StopTree(t, key, KEY_BITS) == Reach(t, key)
    decreases t
  {
    Weaken(t, lo, 0);
    if t.Branch? {
      StopIsReach(Side(t, key), key, t.bit + 1);
    }
  }

  // ------------------------------------------------------------ where paths fork

  lemma {:induction false} LeafReads(m: Memory, ref: nat, key: Key, value: nat)
    requires Odd(ref) && ref / 2 < |m.nodes|
    requires m.nodes[ref / 2] == WorkNode(Record(KEY_BITS, key, 0, 0, value), 0)
    ensures Reads(m, ref, Leaf(key, value)) && Slots(m, ref, Leaf(key, value)) == {ref / 2}
  {
  }

  /** The nodes written where the descent stopped, and the reference to them. */
  function ForkNodes(nodes: seq<WorkNode>, cur: nat, key: Key, value: nat, split: nat): (seq<WorkNode>, nat)
    requires split <= KEY_BITS && (Odd(cur) ==> cur / 2 < |nodes|)
  {
    var leaf := Record(KEY_BITS, key, 0, 0, value);
    if split == KEY_BITS then Store(nodes, cur, leaf)
    else
      var branch := SetChild(SetChild(Record(split, NoKey(), 0, 0, 0), key[split], 2 * |nodes| + 1), !key[split], cur);
      (nodes + [WorkNode(leaf, 0)] + [WorkNode(branch, 0)], 2 * (|nodes| + 1) + 1)
  }

  lemma {:induction false} ForkReplaces(m: Memory, cur: nat, t: Tree, key: Key, value: nat, split: nat)
    requires Reads(m, cur, t) && split <= KEY_BITS && (split == KEY_BITS ==> t.Leaf?)
    ensures Odd(cur) ==> cur / 2 < |m.nodes|
    ensures var (nodes, ref) := ForkNodes(m.nodes, cur, key, value, split);
            Replaces(m, Slots(m, cur, t), m.(nodes := nodes), ref, Fork(t, key, value, split))
  {
    hide Reads, Denotes, Owned, Memo, Slots;
    ReadsBranch(m, cur, t);
    RangeOf(m, cur, t);
    OwnSlot(m, cur, t);
    var (nodes, ref) := ForkNodes(m.nodes, cur, key, value, split);
    var m' := m.(nodes := nodes);
    if split == KEY_BITS {
      LeafReads(m', ref, key, value);
    } else {
      LeafReads(m', 2 * |m.nodes| + 1, key, value);
      Frame(m, m', cur, t);
      var branch := nodes[ref / 2].node;
      if key[split] {
        StoredBranch(m', ref, branch, t, Leaf(key, value));
      } else {
        StoredBranch(m', ref, branch, Leaf(key, value), t);
      }
    }
  }

  lemma {:induction false} OwnSlot(m: Memory, ref: nat, t: Tree)
    requires Reads(m, ref, t)
    ensures Odd(ref) ==> ref / 2 in Slots(m, ref, t)
  {
  }

  // ------------------------------------------------------------------ emission

  /** A written trie can be read back from disk, with no overlay at all. */
  lemma {:induction false} WrittenReads(arena: map<nat, Record>, off: nat, t: Tree)
    requires Written(arena, off, t) && forall o :: o in arena ==> !Odd(o)
    ensures Reads(Memory(arena, arena, []), off, t) && Slots(Memory(arena, arena, []), off, t) == {}
    decreases t
  {
    match t
    case Leaf(_, _) =>
    case Branch(_, l, r) =>
      WrittenReads(arena, arena[off].zero, l);
      WrittenReads(arena, arena[off].one, r);
  }

  // ------------------------------------------------------- a descent in progress

  /** cur denotes the subtree sub that key's bits lead to, with bits from lo on. */
  ghost predicate OnPath(m: Memory, root: nat, t: Tree, key: Key, cur: nat, sub: Tree, lo: nat) {
    && Denotes(m, root, t) && WellFormed(t, 0)
    && Denotes(m, cur, sub) && WellFormed(sub, lo) && WellFormed(sub, 0)
    && Reach(t, key) == Reach(sub, key)
    && StopRef(m, root, t, key, KEY_BITS) == StopRef(m, cur, sub, key, KEY_BITS)
  }

  lemma {:induction false} OnPathStart(m: Memory, root: nat, t: Tree, key: Key)
    requires Reads(m, root, t) && WellFormed(t, 0)
    ensures OnPath(m, root, t, key, root, t, 0) && Denotes(m, root, t)
  {
  }

  lemma {:induction false} OnPathNode(m: Memory, root: nat, t: Tree, key: Key, cur: nat, sub: Tree, lo: nat)
    requires OnPath(m, root, t, key, cur, sub, lo)
    ensures Denotes(m, cur, sub) && WellFormed(t, 0)
    ensures Fetch(m, cur).Some?
    ensures var x := Fetch(m, cur).value;
            && (x.bit == KEY_BITS <==> sub.Leaf?) && (lo <= KEY_BITS ==> lo <= x.bit <= KEY_BITS)
            && (sub.Branch? ==> x.bit == sub.bit < KEY_BITS)
            && (x.bit == KEY_BITS ==> x.key == Reach(t, key).key && x.value == Reach(t, key).value
                                      && cur == StopRef(m, root, t, key, KEY_BITS)
                                      && StepsTo(m, cur, sub, key, KEY_BITS) == [])
  {
  }

  lemma {:induction false} OnPathStep(m: Memory, root: nat, t: Tree, key: Key, cur: nat, sub: Tree, lo: nat)
    requires OnPath(m, root, t, key, cur, sub, lo) && sub.Branch?
    ensures Fetch(m, cur).Some? && sub.bit < KEY_BITS
    ensures var x := Fetch(m, cur).value;
            && x.bit == sub.bit && Child(x, key[x.bit]) != 0
            && OnPath(m, root, t, key, Child(x, key[x.bit]), Side(sub, key), x.bit + 1)
            && Denotes(m, cur, sub) && Denotes(m, Child(x, key[x.bit]), Side(sub, key))
            && StepsTo(m, cur, sub, key, KEY_BITS) ==
               [Step(cur, x, key[x.bit])] + StepsTo(m, Child(x, key[x.bit]), Side(sub, key), key, KEY_BITS)
  {
    Weaken(sub.left, sub.bit + 1, 0);
    Weaken(sub.right, sub.bit + 1, 0);
    DenotesNonzero(m, Fetch(m, cur).value.zero, sub.left);
    DenotesNonzero(m, Fetch(m, cur).value.one, sub.right);
  }

  /** A recorded descent: `steps` so far, at `cur`, which denotes `sub`. */
  ghost predicate Descended(m: Memory, root: nat, t: Tree, key: Key, cur: nat, sub: Tree, lo: nat, steps: seq<Step>) {
    && OnPath(m, root, t, key, cur, sub, lo) && Denotes(m, root, t) && Denotes(m, cur, sub)
    && StepsTo(m, root, t, key, KEY_BITS) == steps + StepsTo(m, cur, sub, key, KEY_BITS)
  }

  lemma {:induction false} DescendStart(m: Memory, root: nat, t: Tree, key: Key)
    requires Reads(m, root, t) && WellFormed(t, 0)
    ensures Descended(m, root, t, key, root, t, 0, [])
  {
    hide StepsTo, OnPath, Denotes, Reads, WellFormed;
    OnPathStart(m, root, t, key);
    assert [] + StepsTo(m, root, t, key, KEY_BITS) == StepsTo(m, root, t, key, KEY_BITS);
  }

  lemma {:induction false} DescendNode(m: Memory, root: nat, t: Tree, key: Key, cur: nat, sub: Tree, lo: nat,
                                       steps: seq<Step>)
    requires Descended(m, root, t, key, cur, sub, lo, steps) && lo <= KEY_BITS
    ensures Fetch(m, cur).Some?
    ensures var x := Fetch(m, cur).value;
            && lo <= x.bit <= KEY_BITS
            && (x.bit == KEY_BITS ==> x.key == Reach(t, key).key && x.value == Reach(t, key).value
                                      && Denotes(m, root, t) && WellFormed(t, 0)
                                      && cur == StopRef(m, root, t, key, KEY_BITS)
                                      && StepsTo(m, root, t, key, KEY_BITS) == steps)
            && (x.bit < KEY_BITS ==> sub.Branch? && x.bit == sub.bit
                                     && Descended(m, root, t, key, Child(x, key[x.bit]), Side(sub, key), x.bit + 1,
                                         steps + [Step(cur, x, key[x.bit])]))
  {
    hide StepsTo, StopRef, Denotes, WellFormed;
    OnPathNode(m, root, t, key, cur, sub, lo);
    var x := Fetch(m, cur).value;
    if x.bit == KEY_BITS {
      assert steps + [] == steps;
    } else {
      OnPathStep(m, root, t, key, cur, sub, lo);
      var rest := StepsTo(m, Child(x, key[x.bit]), Side(sub, key), key, KEY_BITS);
      assert steps + ([Step(cur, x, key[x.bit])] + rest) == steps + [Step(cur, x, key[x.bit])] + rest;
    }
  }

  lemma {:induction false} DenotesNonzero(m: Memory, ref: nat, t: Tree)
    requires Denotes(m, ref, t)
    ensures ref != 0
  {
  }

  // ------------------------------------------------------- what an insert leaves

  /** The trie at root has become t' at root', inside its own slots and fresh ones;
      disk, arena and every other slot are as they were. */
  ghost predicate Inserted(m: Memory, root: nat, t: Tree, m': Memory, root': nat, t': Tree) {
    && m'.disk == m.disk && m'.arena == m.arena && |m.nodes| <= |m'.nodes|
    && root' != 0 && Reads(m', root', t') && WellFormed(t', 0)
    && (forall s :: s in Slots(m', root', t') ==> s in Slots(m, root, t) || s >= |m.nodes|)
    && (forall s :: 0 <= s < |m.nodes| && s !in Slots(m, root, t) ==> m'.nodes[s] == m.nodes[s])
  }

  lemma {:induction false} PutSame(t: Tree, key: Key, value: nat, lo: nat)
    requires WellFormed(t, lo) && WellFormed(t, 0) && Reach(t, key) == Leaf(key, value)
    ensures Put(t, key, value, KEY_BITS) == t
    decreases t
  {
    if t.Branch? {
      Weaken(t.left, t.bit + 1, 0);
      Weaken(t.right, t.bit + 1, 0);
      PutSame(Side(t, key), key, value, t.bit + 1);
    }
  }

  /** A key already bound to the value is left alone. */
  lemma {:induction false} InsertedSame(m: Memory, root: nat, t: Tree, key: Key, value: nat)
    requires Reads(m, root, t) && WellFormed(t, 0) && Reach(t, key) == Leaf(key, value)
    ensures Inserted(m, root, t, m, root, Patricia.Insert(t, key, value))
  {
    PutSame(t, key, value, 0);
    DenotesNonzero(m, root, t);
    assert FirstDifference(key, key, 0) == KEY_BITS;
  }

  /** Forking where the descent stops and rebuilding the path is Patricia insertion. */
  lemma {:induction false} InsertedByRebuild(m: Memory, root: nat, t: Tree, key: Key, value: nat, split: nat)
    requires Reads(m, root, t) && WellFormed(t, 0) && split == FirstDifference(key, Reach(t, key).key, 0)
    ensures var cur := StopRef(m, root, t, key, split);
            && (Odd(cur) ==> cur / 2 < |m.nodes|)
            && var (nodes, changed) := ForkNodes(m.nodes, cur, key, value, split);
            && StepsIn(StepsTo(m, root, t, key, split), |nodes|)
            && var (nodes', root') := Rebuild(nodes, StepsTo(m, root, t, key, split), changed);
            && Inserted(m, root, t, m.(nodes := nodes'), root', Patricia.Insert(t, key, value))
  {
    hide Reads, Denotes, Owned, Memo, Slots, WellFormed, Fork, Put, ForkNodes, StepsTo, StopRef, StopTree,
        FirstDifference, Rebuild;
    ReadsBranch(m, root, t);
    StopReads(m, root, t, key, split);
    var cur, sub := StopRef(m, root, t, key, split), StopTree(t, key, split);
    if split == KEY_BITS {
      StopIsReach(t, key, 0);
    }
    ForkReplaces(m, cur, sub, key, value, split);
    var (nodes, changed) := ForkNodes(m.nodes, cur, key, value, split);
    RebuildReplaces(m, root, t, key, value, split, m.(nodes := nodes), changed);
    SplitFound(t, key);
    PutWellFormed(t, key, value, split, 0);
    var (nodes', root') := Rebuild(nodes, StepsTo(m, root, t, key, split), changed);
    ReadsBranch(m.(nodes := nodes'), root', Put(t, key, value, split));
    DenotesNonzero(m.(nodes := nodes'), root', Put(t, key, value, split));
  }

  /** The loop that compares the new key with the reached one. */
  method CommonPrefix(a: Key, b: Key) returns (split: nat)
    ensures split == FirstDifference(a, b, 0)
  {
    split := 0;
    while split < KEY_BITS && a[split] == b[split]
      invariant split <= KEY_BITS && Agree(a, b, split)
      invariant FirstDifference(a, b, split) == FirstDifference(a, b, 0)
    {
      split := split + 1;
    }
  }

  // -------------------------------------------------------------------- the class

  const GRANULE := 65536
  const CAPACITY := 0x40_0000_0000
  const START := 2 * GRANULE

  /** Where an extent may begin: on a word, and inside one granule or at the start of one. */
  ghost predicate Suits(off: int, size: int) {
    off % 8 == 0 && (off % GRANULE == 0 || (size < GRANULE && off % GRANULE + size <= GRANULE))
  }

  /** The first such place at or behind `from`. */
  ghost predicate LeastFit(from: int, off: int, size: int) {
    from <= off && Suits(off, size) && forall o :: from <= o < off ==> !Suits(o, size)
  }

  /** The first place for an extent is too far on for the arena. */
  ghost predicate NoRoom(from: int, size: int) {
    exists at :: LeastFit(from, at, size) && at + size > 0x40_0000_0000
  }

  /** There is no room for an index record only when the arena is all but full. */
  lemma NearlyFull(from: int)
    requires NoRoom(from, 112)
    ensures from + 65536 + 112 > 0x40_0000_0000
  {
    hide Suits;
    var at :| LeastFit(from, at, 112) && at + 112 > 0x40_0000_0000;
    var up := NextGranule(from);
    GranuleSuits(up);
  }

  lemma NextGranule(from: int) returns (up: int)
    ensures from <= up < from + 65536 && up % 65536 == 0
  {
    up := from + 65535 - (from + 65535) % 65536;
  }

  lemma GranuleSuits(up: int)
    requires up % 65536 == 0
    ensures Suits(up, 112)
  {
    assert up == up / 65536 * 65536;
    assert up == up / 65536 * 8192 * 8;
  }

  /** The sizes of the format: an index record, an extent's header and the arena. */
  lemma Sizes()
    ensures RECORD_BYTES == 112 && HEADER_BYTES == 48 && GRANULE == 65536 && START == 131072 && CAPACITY == 274877906944
  {
  }

  function WordsUp(len: nat): (size: nat)
    ensures len <= size < len + 8 && size % 8 == 0
  {
    (len + 7) / 8 * 8
  }

  /** An extent no longer than a granule stays in one. */
  lemma OneGranule(from: nat, at: nat, size: nat)
    requires from % 8 == 0 && size > 0 && size % 8 == 0
    requires at == if size >= GRANULE || from % GRANULE + size > GRANULE then RoundUp(from) else from
    ensures at % 8 == 0 && (at + size) % 8 == 0 && (size <= GRANULE ==> at / GRANULE == (at + size - 1) / GRANULE)
  {
    var k := at / GRANULE;
    assert at == k * GRANULE + at % GRANULE;
    if size <= GRANULE {
      assert at % GRANULE + size <= GRANULE;
    }
  }

  /** Rounding up skips nothing that would do. */
  lemma {:induction false} SuitsLeast(from: nat, at: nat, size: nat)
    requires from % 8 == 0
    requires at == if size >= GRANULE || from % GRANULE + size > GRANULE then RoundUp(from) else from
    ensures LeastFit(from, at, size)
  {
    forall o | from <= o < at ensures !Suits(o, size) {
      assert o / GRANULE == from / GRANULE;
    }
  }

  function RoundUp(n: nat): (r: nat)
    ensures r >= n && r % GRANULE == 0 && r < n + GRANULE
  {
    (n + GRANULE - 1) / GRANULE * GRANULE
  }

  /** The index half of native_store: committed records, staged records, the
      allocation point and the overlay.  Reference 0 is the empty trie. */
  class IndexStore {
    var disk: map<nat, Record>
    var arena: map<nat, Record>
    var next: nat
    var nodes: seq<WorkNode>
    var objects: nat
    var cache: nat

    function Mem(): Memory
      reads this
    {
      Memory(disk, arena, nodes)
    }

    /** Records lie below the allocation point at aligned, nonzero offsets, and
        everything committed is among them. */
    ghost predicate ArenaOk()
      reads this
    {
      && next % 8 == 0 && START <= next
      && (forall o :: o in arena ==> START <= o < next && o % 8 == 0)
      && Grows(disk, arena) && disk.Keys <= arena.Keys
    }

    /** A root holds a working trie, or 0 and none. */
    ghost predicate Holds(root: nat, t: Option<Tree>)
      reads this
    {
      match t
      case None => root == 0
      case Some(tree) => root != 0 && Reads(Mem(), root, tree) && WellFormed(tree, 0)
    }

    ghost function RootSlots(root: nat, t: Option<Tree>): set<nat>
      reads this
    {
      match t
      case None => {}
      case Some(tree) => Slots(Mem(), root, tree)
    }

    /** The whole store: two tries over one overlay, sharing no node. */
    ghost predicate Valid(o: Option<Tree>, c: Option<Tree>)
      reads this
    {
      && ArenaOk()
      && Holds(objects, o) && Holds(cache, c)
      && RootSlots(objects, o) !! RootSlots(cache, c)
    }

    /** nlookup_inner: follow a key's bits, refusing missing nodes and bits that
        do not increase.  0 means absent. */
    method LookupFrom(root: nat, key: Key, ghost t: Option<Tree>) returns (ok: bool, value: nat)
      ensures Holds(root, t) && t.None? ==> ok && value == 0
      ensures Holds(root, t) && t.Some? ==>
                ok && value == (match Patricia.Lookup(t.value, key) case None => 0 case Some(v) => v)
    {
      hide WellFormed, Denotes, Owned, Memo, StepsTo, StopRef, OnPath, Keys;
      ghost var good := Holds(root, t) && t.Some?;
      if good {
        OnPathStart(Mem(), root, t.value, key);
      }
      ghost var sub := if good then t.value else Leaf(key, 0);
      ghost var lo: nat := 0;
      value := 0;
      var ref, prior, first, depth := root, 0, true, 0;
      while ref != 0 && depth <= 256
        invariant good ==> ref != 0 && OnPath(Mem(), root, t.value, key, ref, sub, lo)
        invariant first ==> lo == 0
        invariant !first ==> lo == prior + 1
        invariant value == 0 && depth <= lo <= KEY_BITS
        invariant root == 0 ==> ref == 0
        decreases 257 - depth
      {
        var x := Fetch(Mem(), ref);
        if good {
          OnPathNode(Mem(), root, t.value, key, ref, sub, lo);
        }
        if x.None? || x.value.bit > KEY_BITS || (!first && x.value.bit <= prior) {
          return false, 0;
        }
        var p := x.value;
        if p.bit == KEY_BITS {
          return true, if p.key == key then p.value else 0;
        }
        first, prior := false, p.bit;
        if good {
          OnPathStep(Mem(), root, t.value, key, ref, sub, lo);
          sub := Side(sub, key);
        }
        lo := p.bit + 1;
        ref := Child(p, key[p.bit]);
        if ref == 0 {
          return false, 0;
        }
        depth := depth + 1;
      }
      return ref == 0, 0;
    }

    /** The recorded descent of ninsert.  Nothing has been changed when it fails. */
    method Descend(root: nat, key: Key, ghost t: Tree) returns (ok: bool, steps: seq<Step>, cur: nat, leaf: Record)
      requires root != 0
      ensures ok ==> leaf.bit == KEY_BITS && StepsIn(steps, |nodes|) && (Odd(cur) ==> cur / 2 < |nodes|)
      ensures Reads(Mem(), root, t) && WellFormed(t, 0) ==>
                && ok && steps == StepsTo(Mem(), root, t, key, KEY_BITS)
                && cur == StopRef(Mem(), root, t, key, KEY_BITS)
                && leaf.key == Reach(t, key).key && leaf.value == Reach(t, key).value
    {
      hide WellFormed, Denotes, Owned, Memo, StepsTo, StopRef, OnPath, Keys, Descended, Reach, Reads;
      ghost var m := Mem();
      ghost var good := Reads(m, root, t) && WellFormed(t, 0);
      ghost var sub := t;
      steps, cur, ok := [], root, true;
      var lo := 0;
      if good {
        DescendStart(m, root, t, key);
      }
      while true
        invariant good ==> Descended(m, root, t, key, cur, sub, lo, steps)
        invariant |steps| <= lo <= KEY_BITS && lo == (if steps == [] then 0 else steps[|steps| - 1].node.bit + 1)
        invariant StepsIn(steps, |nodes|)
        decreases KEY_BITS - lo
      {
        var x := Fetch(Mem(), cur);
        if good {
          DescendNode(m, root, t, key, cur, sub, lo, steps);
        }
        if x.None? || x.value.bit > KEY_BITS || (steps != [] && x.value.bit <= steps[|steps| - 1].node.bit) {
          return false, steps, cur, Record(KEY_BITS, key, 0, 0, 0);
        }
        leaf := x.value;
        if leaf.bit == KEY_BITS {
          return;
        }
        if |steps| >= 256 {
          return false, steps, cur, leaf;
        }
        if good {
          sub := Side(sub, key);
        }
        steps := steps + [Step(cur, leaf, key[leaf.bit])];
        cur, lo := Child(leaf, key[leaf.bit]), leaf.bit + 1;
      }
    }

    /** ninsert: after a validated descent, rebuild the path in the overlay.  A
        failed insert has changed nothing; on a working trie it cannot fail. */
    method Insert(root: nat, key: Key, value: nat, ghost t: Option<Tree>) returns (ok: bool, root': nat)
      modifies this`nodes
      ensures !ok ==> nodes == old(nodes) && root' == root
      ensures old(Holds(root, t)) && t.None? ==>
                && ok && root' == 2 * |old(nodes)| + 1
                && nodes == old(nodes) + [WorkNode(Record(KEY_BITS, key, 0, 0, value), 0)]
      ensures old(Holds(root, t)) && t.Some? ==>
                ok && Inserted(old(Mem()), root, t.value, Mem(), root', Patricia.Insert(t.value, key, value))
    {
      hide Reads, Denotes, Owned, Memo, Slots, StepsTo, StopRef, WellFormed, Rebuild, Inserted, FirstDifference, Keys,
           Put, ForkNodes, Patricia.Insert, Store, SetChild;
      ok, root' := true, root;
      if root == 0 {
        nodes := nodes + [WorkNode(Record(KEY_BITS, key, 0, 0, value), 0)];
        root' := 2 * (|nodes| - 1) + 1;
        return;
      }
      ghost var m := Mem();
      ghost var good := Holds(root, t) && t.Some?;
      ghost var tree := if good then t.value else Leaf(key, value);
      var steps: seq<Step>, cur: nat, leaf: Record;
      ok, steps, cur, leaf := Descend(root, key, tree);
      if !ok {
        return;
      }
      var split := CommonPrefix(key, leaf.key);
      if split == KEY_BITS && leaf.value == value {
        if good {
          KeysEqual(key, leaf.key);
          InsertedSame(m, root, tree, key, value);
        }
        return;
      }
      ghost var deepest := cur;
      var count: nat := |steps|;
      if good {
        ReadsBranch(m, root, tree);
        StepsPrefix(m, root, tree, key, split, 0);
        InsertedByRebuild(m, root, tree, key, value, split);
      }
      while count != 0 && steps[count - 1].node.bit >= split
        invariant count <= |steps|
        invariant good ==> |StepsTo(m, root, tree, key, split)| <= count
        invariant cur == (if count < |steps| then steps[count].ref else deepest)
        invariant Odd(cur) ==> cur / 2 < |nodes|
      {
        count := count - 1;
        cur := steps[count].ref;
      }
      assert good ==> count == |StepsTo(m, root, tree, key, split)|;
      ForkGrows(nodes, cur, key, value, split);
      var changed: nat;
      nodes, changed := ForkNodes(nodes, cur, key, value, split).0, ForkNodes(nodes, cur, key, value, split).1;
      ghost var final := Rebuild(nodes, steps[..count], changed);
      while count != 0
        invariant count <= |steps| && StepsIn(steps, |nodes|)
        invariant Rebuild(nodes, steps[..count], changed) == final
      {
        count := count - 1;
        var step := steps[count];
        RebuildLast(nodes, steps, count, changed);
        var stored := Store(nodes, step.ref, SetChild(step.node, step.dir, changed));
        nodes, changed := stored.0, stored.1;
      }
      RebuildNone(nodes, changed);
      root' := changed;
    }

    /** nalloc: an aligned extent at or after next, inside one granule when it
        fits one.  Growing the file may fail at any time, which is a fault. */
    method Alloc(len: nat) returns (ok: bool, off: nat, fault: bool)
      requires next % 8 == 0
      modifies this`next
      ensures ok ==> !fault
      ensures !ok ==> next == old(next)
      ensures !ok && !fault ==> len > 0x40_0000_0000 || len < 48 || NoRoom(next, WordsUp(len))
      ensures ok ==> HEADER_BYTES <= len && old(next) <= off && off % 8 == 0 && next <= CAPACITY
      ensures ok ==> off + len <= next < off + len + 8 && next % 8 == 0
      ensures ok && len <= GRANULE ==> off / GRANULE == (next - 1) / GRANULE
      ensures ok ==> LeastFit(old(next), off, next - off)
    {
      hide LeastFit, RoundUp;
      if len > CAPACITY || len < HEADER_BYTES {
        return false, 0, false;
      }
      var size := WordsUp(len);
      var at := next;
      if size >= GRANULE || at % GRANULE + size > GRANULE {
        at := RoundUp(at);
      }
      SuitsLeast(next, at, size);
      OneGranule(next, at, size);
      if at > CAPACITY || size > CAPACITY - at {
        return false, 0, false;
      }
      if * {
        return false, 0, true;
      }
      next := at + size;
      return true, at, false;
    }

    /** The two recursive calls of nemit, on the children of an overlay branch. */
    method EmitChildren(ref: nat, ghost t: Tree) returns (ok: bool, zero: nat, one: nat, fault: bool)
      requires ArenaOk() && Reads(Mem(), ref, t) && Odd(ref) && t.Branch? && WellFormed(t, t.bit)
      modifies this`arena, this`next, this`nodes
      ensures ArenaOk() && Staged(old(Mem()), Mem(), old(Slots(Mem(), ref, t))) && old(next) <= next
      ensures Reads(Mem(), ref, t) && Slots(Mem(), ref, t) == old(Slots(Mem(), ref, t))
      ensures Fetch(Mem(), ref) == old(Fetch(Mem(), ref)) && nodes[ref / 2] == old(nodes[ref / 2])
      ensures ok ==> Written(arena, zero, t.left) && Written(arena, one, t.right)
      ensures !ok && !fault ==> NoRoom(next, 112)
      decreases t, 0
    {
      hide Denotes, Owned, Memo, Slots, Written, WellFormed, Reads;
      ghost var m0 := Mem();
      SidesOf(m0, ref, t);
      WellFormedSides(t);
      var src := nodes[ref / 2].node;
      zero, one := 0, 0;
      ok, zero, fault := Emit(src.zero, src.bit + 1, t.left);
      ghost var m1 := Mem();
      StagedFrame(m0, m1, src.one, t.right, Slots(m0, src.zero, t.left));
      ParentReads(m0, m1, ref, t);
      StagedWiden(m0, m1, Slots(m0, src.zero, t.left), Slots(m0, ref, t));
      if !ok {
        return;
      }
      SidesOf(m1, ref, t);
      ok, one, fault := Emit(src.one, src.bit + 1, t.right);
      ghost var m2 := Mem();
      StagedFrame(m1, m2, src.zero, t.left, Slots(m1, src.one, t.right));
      ParentReads(m1, m2, ref, t);
      StagedWiden(m1, m2, Slots(m1, src.one, t.right), Slots(m0, ref, t));
      StagedTwice(m0, m1, m2, Slots(m0, ref, t));
      if ok {
        StagedWritten(m1, m2, zero, t.left);
      }
    }

    /** nemit: write a subtree's records in dependency order, reusing offsets that
        an earlier, failed Save already staged.  A failure keeps what was staged. */
    method Emit(ref: nat, minimum: nat, ghost t: Tree) returns (ok: bool, out: nat, fault: bool)
      requires ArenaOk() && Reads(Mem(), ref, t) && WellFormed(t, minimum) && minimum <= KEY_BITS
      modifies this`arena, this`next, this`nodes
      ensures ArenaOk() && Staged(old(Mem()), Mem(), old(Slots(Mem(), ref, t))) && old(next) <= next
      ensures Reads(Mem(), ref, t) && Slots(Mem(), ref, t) == old(Slots(Mem(), ref, t))
      ensures ok ==> Written(arena, out, t)
      ensures !ok && !fault ==> NoRoom(next, 112)
      decreases t, 1
    {
      hide Denotes, Owned, Memo, Slots, Written, WellFormed, Reads;
      ghost var m0 := Mem();
      ok, out, fault := false, 0, false;
      EmitFacts(m0, ref, t, minimum);
      if !Odd(ref) {
        return true, ref, false;
      }
      var src := nodes[ref / 2].node;
      if src.bit < minimum || src.bit > KEY_BITS {
        assert false;
        return;
      }
      if nodes[ref / 2].emitted != 0 {
        return true, nodes[ref / 2].emitted, false;
      }
      var record := src;
      if src.bit < KEY_BITS {
        WellFormedAt(t, minimum);
        var zero, one;
        ok, zero, one, fault := EmitChildren(ref, t);
        if !ok {
          return false, 0, fault;
        }
        record := record.(zero := zero, one := one);
      }
      ghost var m1 := Mem();
      var off;
      ok, off, fault := Alloc(RECORD_BYTES);
      if !ok {
        return false, 0, fault;
      }
      RecordWritten(m1, off, record, t);
      arena := arena[off := record];
      nodes := nodes[ref / 2 := WorkNode(src, off)];
      RecordRemembered(m1, Mem(), ref, t, off);
      StagedTwice(m0, m1, Mem(), Slots(m0, ref, t));
      out := off;
      // the fault point after an index record
      fault := *;
      ok := !fault;
    }

    /** pl_native_stage and nput: bind a key in one of the two tries.  The other
        trie is untouched, although both live in the same overlay. */
    method PutObject(key: Key, value: nat, ghost o: Option<Tree>, ghost c: Option<Tree>) returns (ok: bool)
      requires Valid(o, c)
      modifies this`nodes, this`objects
      ensures ok && Valid(Some(Updated(o, key, value)), c)
    {
      hide Denotes, Owned, Memo, Slots, WellFormed, Reads, Patricia.Insert, Staged;
      ghost var m := Mem();
      ok, objects := Insert(objects, key, value, o);
      PutSplits(m, Mem(), old(objects), objects, o, key, value, cache, c);
    }

    method PutCache(key: Key, value: nat, ghost o: Option<Tree>, ghost c: Option<Tree>) returns (ok: bool)
      requires Valid(o, c)
      modifies this`nodes, this`cache
      ensures ok && Valid(o, Some(Updated(c, key, value)))
    {
      hide Denotes, Owned, Memo, Slots, WellFormed, Reads, Patricia.Insert, Staged;
      ghost var m := Mem();
      ok, cache := Insert(cache, key, value, c);
      PutSplits(m, Mem(), old(cache), cache, c, key, value, objects, o);
    }

    /** Emit one root; the empty trie is written as offset 0. */
    method EmitRoot(root: nat, ghost t: Option<Tree>) returns (ok: bool, out: nat, fault: bool)
      requires ArenaOk() && Holds(root, t)
      modifies this`arena, this`next, this`nodes
      ensures ArenaOk() && Staged(old(Mem()), Mem(), old(RootSlots(root, t)))
      ensures Holds(root, t) && RootSlots(root, t) == old(RootSlots(root, t))
      ensures ok ==> (match t case None => out == 0 case Some(tree) => Written(arena, out, tree))
      ensures !ok && !fault ==> NoRoom(next, 112)
    {
      if root == 0 {
        return true, 0, false;
      }
      ok, out, fault := Emit(root, 0, t.value);
    }

    /** The index half of a checkpoint: emit both tries and, when everything has
        succeeded, make the staged records the committed ones and drop the
        overlay.  Whether it fails or succeeds, both tries still hold the same
        bindings, and on success they hold them without any overlay node. */
    method Save(ghost o: Option<Tree>, ghost c: Option<Tree>) returns (ok: bool, fault: bool)
      requires Valid(o, c)
      modifies this
      ensures Valid(o, c)
      ensures ok ==> nodes == [] && disk == arena
      ensures !ok ==> disk == old(disk) && objects == old(objects) && cache == old(cache)
      ensures !ok ==> fault || NoRoom(next, 112)
    {
      hide Denotes, Owned, Memo, Slots, WellFormed, Reads, Written;
      ghost var m0 := Mem();
      var first, second;
      ok, first, fault := EmitRoot(objects, o);
      ghost var m1 := Mem();
      HeldFrame(m0, m1, RootSlots(objects, o), cache, c);
      if !ok {
        return;
      }
      ok, second, fault := EmitRoot(cache, c);
      ghost var m2 := Mem();
      HeldFrame(m1, m2, RootSlots(cache, c), objects, o);
      if !ok {
        return;
      }
      // the fault points between emission and publication
      if * {
        return false, true;
      }
      if o.Some? {
        StagedWritten(m1, m2, first, o.value);
        WrittenReads(arena, first, o.value);
        ReadsNonzero(Memory(arena, arena, []), first, o.value);
      }
      if c.Some? {
        WrittenReads(arena, second, c.value);
        ReadsNonzero(Memory(arena, arena, []), second, c.value);
      }
      disk, nodes, objects, cache := arena, [], first, second;
    }
  }

  /** The trie after binding a key. */
  ghost function Updated(t: Option<Tree>, key: Key, value: nat): Tree
    requires t.Some? ==> WellFormed(t.value, 0)
  {
    match t
    case None => Leaf(key, value)
    case Some(tree) => Patricia.Insert(tree, key, value)
  }

  ghost function Find(t: Option<Tree>, key: Key): Option<nat>
    requires t.Some? ==> WellFormed(t.value, 0)
  {
    match t
    case None => None
    case Some(tree) => Patricia.Lookup(tree, key)
  }

  /** Binding a key changes what is found for that key and for no other. */
  lemma {:induction false} UpdatedFinds(t: Option<Tree>, key: Key, value: nat, other: Key)
    requires t.Some? ==> WellFormed(t.value, 0)
    ensures WellFormed(Updated(t, key, value), 0)
    ensures Find(Some(Updated(t, key, value)), other) == if other == key then Some(value) else Find(t, other)
  {
    match t
    case None =>
    case Some(tree) => InsertIsUpdate(tree, key, value, other);
  }

  lemma {:induction false} ReadsNonzero(m: Memory, ref: nat, t: Tree)
    requires Reads(m, ref, t)
    ensures ref != 0
  {
    DenotesNonzero(m, ref, t);
  }

  ghost predicate HeldIn(m: Memory, root: nat, t: Option<Tree>) {
    match t
    case None => root == 0
    case Some(tree) => root != 0 && Reads(m, root, tree) && WellFormed(tree, 0)
  }

  ghost function SlotsIn(m: Memory, root: nat, t: Option<Tree>): set<nat> {
    match t
    case None => {}
    case Some(tree) => Slots(m, root, tree)
  }

  lemma {:induction false} HeldFrame(m: Memory, m': Memory, own: set<nat>, root: nat, t: Option<Tree>)
    requires Staged(m, m', own) && HeldIn(m, root, t) && own !! SlotsIn(m, root, t)
    ensures HeldIn(m', root, t) && SlotsIn(m', root, t) == SlotsIn(m, root, t)
  {
    hide Denotes, Owned, Memo, Slots, WellFormed, Reads;
    if t.Some? {
      StagedFrame(m, m', root, t.value, own);
    }
  }

  /** After an insert into one trie, that trie is updated, the other still holds,
      and they still share no slot. */
  lemma {:induction false} PutSplits(m: Memory, m': Memory, root: nat, root': nat, t: Option<Tree>, key: Key,
                                     value: nat,
                                     other: nat, u: Option<Tree>)
    requires HeldIn(m, root, t) && HeldIn(m, other, u) && SlotsIn(m, root, t) !! SlotsIn(m, other, u)
    requires m'.disk == m.disk && m'.arena == m.arena
    requires t.None? ==>
             root' == 2 * |m.nodes| + 1 && m'.nodes == m.nodes + [WorkNode(Record(KEY_BITS, key, 0, 0, value), 0)]
    requires t.Some? ==> Inserted(m, root, t.value, m', root', Patricia.Insert(t.value, key, value))
    ensures HeldIn(m', root', Some(Updated(t, key, value))) && HeldIn(m', other, u)
    ensures SlotsIn(m', root', Some(Updated(t, key, value))) !! SlotsIn(m', other, u)
  {
    hide Denotes, Owned, Memo, Slots, Reads, Patricia.Insert;
    if u.Some? {
      RangeOf(m, other, u.value);
      Frame(m, m', other, u.value);
    }
    if t.None? {
      LeafReads(m', root', key, value);
    }
  }

  // ------------------------------------------------------------ emission lemmas

  /** Emission appends records, and touches only remembered offsets in `own`. */
  ghost predicate Staged(m: Memory, m': Memory, own: set<nat>) {
    && m'.disk == m.disk && Grows(m.arena, m'.arena)
    && |m'.nodes| == |m.nodes|
    && (forall s :: 0 <= s < |m.nodes| ==> m'.nodes[s].node == m.nodes[s].node)
    && (forall s :: 0 <= s < |m.nodes| && s !in own ==> m'.nodes[s] == m.nodes[s])
  }

  lemma {:induction false} StagedFrame(m: Memory, m': Memory, ref: nat, t: Tree, own: set<nat>)
    requires Staged(m, m', own) && Reads(m, ref, t) && own !! Slots(m, ref, t)
    ensures Reads(m', ref, t) && Slots(m', ref, t) == Slots(m, ref, t)
  {
    hide Denotes, Owned, Memo, Slots;
    RangeOf(m, ref, t);
    Frame(m, m', ref, t);
  }

  lemma {:induction false} StagedWiden(m: Memory, m': Memory, own: set<nat>, more: set<nat>)
    requires Staged(m, m', own) && own <= more
    ensures Staged(m, m', more)
  {
  }

  lemma {:induction false} StagedTwice(m: Memory, m': Memory, m'': Memory, own: set<nat>)
    requires Staged(m, m', own) && Staged(m', m'', own)
    ensures Staged(m, m'', own)
  {
  }

  lemma {:induction false} StagedWritten(m: Memory, m': Memory, off: nat, t: Tree)
    requires Grows(m.arena, m'.arena) && Written(m.arena, off, t)
    ensures Written(m'.arena, off, t)
  {
    WrittenGrows(m.arena, m'.arena, off, t);
  }

  lemma {:induction false} SidesOf(m: Memory, ref: nat, t: Tree)
    requires Reads(m, ref, t) && Odd(ref) && t.Branch?
    ensures ref / 2 < |m.nodes| && Fetch(m, ref) == Some(m.nodes[ref / 2].node)
    ensures var x := m.nodes[ref / 2].node;
            && x.bit == t.bit < KEY_BITS
            && Reads(m, x.zero, t.left) && Reads(m, x.one, t.right)
            && Slots(m, ref, t) == {ref / 2} + Slots(m, x.zero, t.left) + Slots(m, x.one, t.right)
            && {ref / 2} !! Slots(m, x.zero, t.left) !! Slots(m, x.one, t.right)
  {
  }

  lemma {:induction false} WellFormedSides(t: Tree)
    requires t.Branch? && WellFormed(t, t.bit)
    ensures WellFormed(t.left, t.bit + 1) && WellFormed(t.right, t.bit + 1)
  {
  }

  lemma {:induction false} WellFormedAt(t: Tree, lo: nat)
    requires t.Branch? && WellFormed(t, lo)
    ensures WellFormed(t, t.bit)
  {
  }

  /** A parent whose node is untouched reads as before when its children do. */
  lemma {:induction false} ParentReads(m: Memory, m': Memory, ref: nat, t: Tree)
    requires Reads(m, ref, t) && Odd(ref) && t.Branch?
    requires ref / 2 < |m.nodes| == |m'.nodes| && m'.nodes[ref / 2] == m.nodes[ref / 2] && Grows(m.arena, m'.arena)
    requires var x := m.nodes[ref / 2].node;
             && Reads(m', x.zero, t.left) && Slots(m', x.zero, t.left) == Slots(m, x.zero, t.left)
             && Reads(m', x.one, t.right) && Slots(m', x.one, t.right) == Slots(m, x.one, t.right)
    ensures Reads(m', ref, t) && Slots(m', ref, t) == Slots(m, ref, t)
  {
    if m.nodes[ref / 2].emitted != 0 {
      WrittenGrows(m.arena, m'.arena, m.nodes[ref / 2].emitted, t);
    }
  }

  lemma {:induction false} EmitFacts(m: Memory, ref: nat, t: Tree, minimum: nat)
    requires Reads(m, ref, t) && WellFormed(t, minimum)
    ensures Fetch(m, ref).Some? && Staged(m, m, Slots(m, ref, t))
    ensures !Odd(ref) ==> Written(m.arena, ref, t)
    ensures Odd(ref) ==>
              && ref / 2 < |m.nodes| && ref / 2 in Slots(m, ref, t)
              && (m.nodes[ref / 2].emitted != 0 ==> Written(m.arena, m.nodes[ref / 2].emitted, t))
              && (m.nodes[ref / 2].node.bit < KEY_BITS <==> t.Branch?)
              && m.nodes[ref / 2].node.bit <= KEY_BITS
              && (t.Leaf? ==> m.nodes[ref / 2].node.key == t.key && m.nodes[ref / 2].node.value == t.value)
              && (t.Branch? ==> m.nodes[ref / 2].node.bit == t.bit)
              && (minimum <= KEY_BITS ==> minimum <= m.nodes[ref / 2].node.bit)
  {
  }

  /** A record placed above everything written denotes the subtree. */
  lemma {:induction false} RecordWritten(m: Memory, off: nat, x: Record, t: Tree)
    requires off != 0 && (forall o :: o in m.arena ==> o < off)
    requires t.Leaf? ==> x.bit == KEY_BITS && x.key == t.key && x.value == t.value
    requires t.Branch? ==>
             x.bit == t.bit < KEY_BITS && Written(m.arena, x.zero, t.left) && Written(m.arena, x.one, t.right)
    ensures Grows(m.arena, m.arena[off := x]) && Written(m.arena[off := x], off, t)
  {
    if t.Branch? {
      WrittenGrows(m.arena, m.arena[off := x], x.zero, t.left);
      WrittenGrows(m.arena, m.arena[off := x], x.one, t.right);
    }
  }

  /** Remembering the offset keeps the trie and everything else as it was. */
  lemma {:induction false} RecordRemembered(m: Memory, m': Memory, ref: nat, t: Tree, off: nat)
    requires Reads(m, ref, t) && Odd(ref) && ref / 2 < |m.nodes|
    requires m' == Memory(m.disk, m'.arena, m.nodes[ref / 2 := WorkNode(m.nodes[ref / 2].node, off)])
    requires Grows(m.arena, m'.arena) && Written(m'.arena, off, t)
    ensures Reads(m', ref, t) && Slots(m', ref, t) == Slots(m, ref, t) && Staged(m, m', Slots(m, ref, t))
  {
    if t.Branch? {
      SidesOf(m, ref, t);
      var x := m.nodes[ref / 2].node;
      Frame(m, m', x.zero, t.left);
      Frame(m, m', x.one, t.right);
    }
  }

  lemma KeysEqual(a: Key, b: Key)
    requires FirstDifference(a, b, 0) == KEY_BITS
    ensures a == b
  {
  }

  lemma {:induction false} ForkGrows(nodes: seq<WorkNode>, cur: nat, key: Key, value: nat, split: nat)
    requires split <= KEY_BITS && (Odd(cur) ==> cur / 2 < |nodes|)
    ensures |ForkNodes(nodes, cur, key, value, split).0| >= |nodes|
  {
  }

  lemma {:induction false} RebuildLast(nodes: seq<WorkNode>, steps: seq<Step>, i: nat, changed: nat)
    requires i < |steps| && StepsIn(steps, |nodes|)
    ensures Odd(steps[i].ref) ==> steps[i].ref / 2 < |nodes|
    ensures var (nodes', ref) := Store(nodes, steps[i].ref, SetChild(steps[i].node, steps[i].dir, changed));
            && StepsIn(steps, |nodes'|)
            && Rebuild(nodes, steps[..i + 1], changed) == Rebuild(nodes', steps[..i], ref)
  {
    assert steps[..i + 1][..i] == steps[..i];
  }

  lemma RebuildNone(nodes: seq<WorkNode>, changed: nat)
    ensures Rebuild(nodes, [], changed) == (nodes, changed)
  {
  }
}
