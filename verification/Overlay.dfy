/** The working index of the native store: immutable records on disk, addressed by
    even references, under a process-local overlay of mutable nodes, addressed by
    odd references.  This module gives the memory a reading as Patricia tries
    and proves how in-place path rebuilding changes that reading. */
module Overlay {
  import opened Basics
  import opened Patricia

  /** An index record: a leaf has bit 256; reference 0 is no node. */
  datatype Record = Record(bit: nat, key: Key, zero: nat, one: nat, value: nat)

  /** An overlay node and the offset of its staged copy, 0 when it has none. */
  datatype WorkNode = WorkNode(node: Record, emitted: nat)

  /** `disk` holds the records that pass validation below the committed end;
      `arena` those and the records staged since, which no reference reaches yet. */
  datatype Memory = Memory(disk: map<nat, Record>, arena: map<nat, Record>, nodes: seq<WorkNode>)

  /** The key field of a branch record. */
  function NoKey(): Key {
    seq(KEY_BITS, i => false)
  }

  predicate Odd(ref: nat) {
    ref % 2 == 1
  }

  /** nworking_node */
  function Fetch(m: Memory, ref: nat): Option<Record> {
    if Odd(ref) then if ref / 2 < |m.nodes| then Some(m.nodes[ref / 2].node) else None
    else if ref in m.disk && ref != 0 then Some(m.disk[ref]) else None
  }

  function Child(x: Record, dir: bool): nat {
    if dir then x.one else x.zero
  }

  function SetChild(x: Record, dir: bool, ref: nat): Record {
    if dir then x.(one := ref) else x.(zero := ref)
  }

  /** The reference denotes the trie. */
  ghost predicate Denotes(m: Memory, ref: nat, t: Tree)
    decreases t
  {
    match Fetch(m, ref)
    case None => false
    case Some(x) =>
      match t
      case Leaf(k, v) => x.bit == KEY_BITS && x.key == k && x.value == v
      case Branch(b, l, r) => x.bit == b < KEY_BITS && Denotes(m, x.zero, l) && Denotes(m, x.one, r)
  }

  function Own(ref: nat): set<nat> {
    if Odd(ref) then {ref / 2} else {}
  }

  /** The overlay slots a trie occupies. */
  ghost function Slots(m: Memory, ref: nat, t: Tree): set<nat>
    decreases t
  {
    match Fetch(m, ref)
    case None => {}
    case Some(x) =>
      match t
      case Leaf(_, _) => Own(ref)
      case Branch(_, l, r) => Own(ref) + Slots(m, x.zero, l) + Slots(m, x.one, r)
  }

  /** Overlay nodes have one parent each, and a disk record never refers to one. */
  ghost predicate Owned(m: Memory, ref: nat, t: Tree)
    decreases t
  {
    match Fetch(m, ref)
    case None => false
    case Some(x) =>
      match t
      case Leaf(_, _) => true
      case Branch(_, l, r) =>
        && Owned(m, x.zero, l) && Owned(m, x.one, r)
        && Own(ref) !! Slots(m, x.zero, l) !! Slots(m, x.one, r)
        && (!Odd(ref) ==> Slots(m, x.zero, l) == {} && Slots(m, x.one, r) == {})
  }

  /** A written record denotes the trie, children at lower offsets than parents. */
  ghost predicate Written(arena: map<nat, Record>, off: nat, t: Tree)
    decreases t
  {
    && off in arena && off != 0
    && var x := arena[off];
       match t
       case Leaf(k, v) => x.bit == KEY_BITS && x.key == k && x.value == v
       case Branch(b, l, r) =>
         && x.bit == b < KEY_BITS && x.zero < off && x.one < off
         && Written(arena, x.zero, l) && Written(arena, x.one, r)
  }

  /** Every remembered offset denotes its node's current subtree. */
  ghost predicate Memo(m: Memory, ref: nat, t: Tree)
    decreases t
  {
    match Fetch(m, ref)
    case None => false
    case Some(x) =>
      && (Odd(ref) && m.nodes[ref / 2].emitted != 0 ==> Written(m.arena, m.nodes[ref / 2].emitted, t))
      && (!Odd(ref) ==> Written(m.arena, ref, t))
      && (match t
          case Leaf(_, _) => true
          case Branch(_, l, r) => Memo(m, x.zero, l) && Memo(m, x.one, r))
  }

  /** The invariant of a working trie. */
  ghost predicate Reads(m: Memory, ref: nat, t: Tree) {
    Denotes(m, ref, t) && Owned(m, ref, t) && Memo(m, ref, t)
  }

  ghost predicate Grows(a: map<nat, Record>, a': map<nat, Record>) {
    forall o :: o in a ==> o in a' && a'[o] == a[o]
  }

  lemma {:induction false} WrittenGrows(a: map<nat, Record>, a': map<nat, Record>, off: nat, t: Tree)
    requires Written(a, off, t) && Grows(a, a')
    ensures Written(a', off, t)
  {
    match t
    case Leaf(_, _) =>
    case Branch(_, l, r) =>
      WrittenGrows(a, a', a[off].zero, l);
      WrittenGrows(a, a', a[off].one, r);
  }

  /** m' keeps all records, and every slot of `keep`. */
  ghost predicate Extends(m: Memory, m': Memory, keep: set<nat>) {
    && m'.disk == m.disk && Grows(m.arena, m'.arena) && |m.nodes| <= |m'.nodes|
    && forall s :: s in keep && s < |m.nodes| ==> m'.nodes[s] == m.nodes[s]
  }

  lemma {:induction false} SlotsInRange(m: Memory, ref: nat, t: Tree)
    requires Denotes(m, ref, t)
    ensures forall s :: s in Slots(m, ref, t) ==> s < |m.nodes|
    decreases t
  {
    match t
    case Leaf(_, _) =>
    case Branch(_, l, r) =>
      var x := Fetch(m, ref).value;
      SlotsInRange(m, x.zero, l);
      SlotsInRange(m, x.one, r);
  }

  /** A trie is unaffected by changes outside its own slots. */
  lemma {:induction false} Frame(m: Memory, m': Memory, ref: nat, t: Tree)
    requires Reads(m, ref, t) && Extends(m, m', Slots(m, ref, t))
    ensures Reads(m', ref, t) && Slots(m', ref, t) == Slots(m, ref, t)
    decreases t
  {
    SlotsInRange(m, ref, t);
    var x := Fetch(m, ref).value;
    assert Odd(ref) ==> ref / 2 in Slots(m, ref, t);
    assert Fetch(m', ref) == Fetch(m, ref);
    if Odd(ref) && m.nodes[ref / 2].emitted != 0 {
      WrittenGrows(m.arena, m'.arena, m.nodes[ref / 2].emitted, t);
    } else if !Odd(ref) {
      WrittenGrows(m.arena, m'.arena, ref, t);
    }
    match t
    case Leaf(_, _) =>
    case Branch(_, l, r) =>
      Frame(m, m', x.zero, l);
      Frame(m, m', x.one, r);
  }

  // -------------------------------------------------------------- path rebuilding

  /** One recorded ancestor: its reference, its record then, and the way taken. */
  datatype Step = Step(ref: nat, node: Record, dir: bool)

  /** Store a changed record: in place over an overlay node, else as a new one. */
  function Store(nodes: seq<WorkNode>, ref: nat, x: Record): (r: (seq<WorkNode>, nat))
    requires Odd(ref) ==> ref / 2 < |nodes|
    ensures |nodes| <= |r.0|
  {
    if Odd(ref) then (nodes[ref / 2 := WorkNode(x, 0)], ref)
    else (nodes + [WorkNode(x, 0)], 2 * |nodes| + 1)
  }

  ghost predicate StepsIn(steps: seq<Step>, n: nat) {
    forall i :: 0 <= i < |steps| && Odd(steps[i].ref) ==> steps[i].ref / 2 < n
  }

  /** Re-link the recorded ancestors, last first, to a changed child. */
  function Rebuild(nodes: seq<WorkNode>, steps: seq<Step>, changed: nat): (r: (seq<WorkNode>, nat))
    requires StepsIn(steps, |nodes|)
    ensures |nodes| <= |r.0|
    decreases |steps|
  {
    if steps == [] then (nodes, changed)
    else
      var last := steps[|steps| - 1];
      var (nodes', ref) := Store(nodes, last.ref, SetChild(last.node, last.dir, changed));
      Rebuild(nodes', steps[..|steps| - 1], ref)
  }

  lemma {:induction false} RebuildFirst(nodes: seq<WorkNode>, first: Step, steps: seq<Step>, changed: nat)
    requires StepsIn([first] + steps, |nodes|)
    ensures StepsIn(steps, |nodes|) && (Odd(first.ref) ==> first.ref / 2 < |nodes|)
    ensures var (nodes', ref) := Rebuild(nodes, steps, changed);
            Rebuild(nodes, [first] + steps, changed) == Store(nodes', first.ref, SetChild(first.node, first.dir, ref))
    decreases |steps|
  {
    var all := [first] + steps;
    assert forall i :: 0 <= i < |steps| ==> steps[i] == all[i + 1];
    assert all[0] == first;
    if steps == [] {
      assert all[..0] == [];
    } else {
      var last := steps[|steps| - 1];
      var (nodes', ref) := Store(nodes, last.ref, SetChild(last.node, last.dir, changed));
      var front := steps[..|steps| - 1];
      assert all[..|all| - 1] == [first] + front;
      RebuildFirst(nodes', first, front, ref);
    }
  }

  /** The ancestors recorded while following a key past every bit before split. */
  ghost function StepsTo(m: Memory, ref: nat, t: Tree, key: Key, split: nat): seq<Step>
    requires Denotes(m, ref, t)
    decreases t
  {
    if t.Branch? && t.bit < split then
      var x := Fetch(m, ref).value;
      [Step(ref, x, key[t.bit])] + StepsTo(m, Child(x, key[t.bit]), Side(t, key), key, split)
    else []
  }

  /** Where that descent stops. */
  ghost function StopRef(m: Memory, ref: nat, t: Tree, key: Key, split: nat): nat
    requires Denotes(m, ref, t)
    decreases t
  {
    if t.Branch? && t.bit < split then
      StopRef(m, Child(Fetch(m, ref).value, key[t.bit]), Side(t, key), key, split)
    else ref
  }

  ghost function StopTree(t: Tree, key: Key, split: nat): Tree {
    if t.Branch? && t.bit < split && t.bit < KEY_BITS then StopTree(Side(t, key), key, split) else t
  }

  lemma {:induction false} StopReads(m: Memory, ref: nat, t: Tree, key: Key, split: nat)
    requires Reads(m, ref, t)
    ensures Reads(m, StopRef(m, ref, t, key, split), StopTree(t, key, split))
    ensures Slots(m, StopRef(m, ref, t, key, split), StopTree(t, key, split)) <= Slots(m, ref, t)
    ensures StepsIn(StepsTo(m, ref, t, key, split), |m.nodes|)
    decreases t
  {
    if t.Branch? && t.bit < split {
      StopReads(m, Child(Fetch(m, ref).value, key[t.bit]), Side(t, key), key, split);
    }
  }

  /** What a changed subtree promises its parent: it reads as t', occupies old
      slots of the subtree it replaces or fresh ones, and disturbed no others. */
  ghost predicate Replaces(m: Memory, own: set<nat>, m': Memory, ref: nat, t': Tree) {
    && m'.disk == m.disk && m'.arena == m.arena && |m.nodes| <= |m'.nodes|
    && Reads(m', ref, t')
    && Odd(ref) && m'.nodes[ref / 2].emitted == 0
    && (forall s :: s in Slots(m', ref, t') ==> s in own || s >= |m.nodes|)
    && (forall s :: 0 <= s < |m.nodes| && s !in own ==> m'.nodes[s] == m.nodes[s])
  }

  /** A stored branch reads as its children do, if they share nothing. */
  lemma {:induction false} StoredBranch(m: Memory, ref: nat, x: Record, l: Tree, r: Tree)
    requires Odd(ref) && ref / 2 < |m.nodes| && m.nodes[ref / 2] == WorkNode(x, 0)
    requires x.bit < KEY_BITS && Reads(m, x.zero, l) && Reads(m, x.one, r)
    requires {ref / 2} !! Slots(m, x.zero, l) !! Slots(m, x.one, r)
    ensures Reads(m, ref, Branch(x.bit, l, r))
    ensures Slots(m, ref, Branch(x.bit, l, r)) == {ref / 2} + Slots(m, x.zero, l) + Slots(m, x.one, r)
  {
  }

  lemma {:induction false} SidesApart(m: Memory, ref: nat, t: Tree, key: Key)
    requires Reads(m, ref, t) && t.Branch?
    ensures Fetch(m, ref).Some? && t.bit < KEY_BITS
    ensures var x := Fetch(m, ref).value;
            var mine := Slots(m, Child(x, key[t.bit]), Side(t, key));
            var others := Slots(m, Child(x, !key[t.bit]), if key[t.bit] then t.left else t.right);
            && Reads(m, Child(x, !key[t.bit]), if key[t.bit] then t.left else t.right)
            && mine !! others && Own(ref) !! mine && Own(ref) !! others
            && Slots(m, ref, t) == Own(ref) + mine + others
            && x.bit == t.bit
    ensures forall s :: s in Slots(m, ref, t) ==> s < |m.nodes|
  {
    SlotsInRange(m, ref, t);
  }

  /** Re-linking one ancestor to its changed child. */
  lemma {:induction false} StoreReplaces(m: Memory, ref: nat, t: Tree, key: Key, m': Memory, changed: nat, side: Tree)
    requires Reads(m, ref, t) && t.Branch?
    requires Replaces(m, Slots(m, Child(Fetch(m, ref).value, key[t.bit]), Side(t, key)), m', changed, side)
    ensures Odd(ref) ==> ref / 2 < |m'.nodes|
    ensures var (nodes, ref') := Store(m'.nodes, ref, SetChild(Fetch(m, ref).value, key[t.bit], changed));
            Replaces(m, Slots(m, ref, t), m'.(nodes := nodes), ref', Graft(t, key, side))
  {
    hide Reads, Denotes, Owned, Memo, Slots;
    SidesApart(m, ref, t, key);
    var x := Fetch(m, ref).value;
    var dir := key[t.bit];
    var other, otherRef := if dir then t.left else t.right, Child(x, !dir);
    var (nodes, ref') := Store(m'.nodes, ref, SetChild(x, dir, changed));
    var m'' := m'.(nodes := nodes);
    RangeOf(m', changed, side);
    Frame(m, m', otherRef, other);
    Frame(m', m'', otherRef, other);
    Frame(m', m'', changed, side);
    if dir {
      StoredBranch(m'', ref', SetChild(x, dir, changed), other, side);
    } else {
      StoredBranch(m'', ref', SetChild(x, dir, changed), side, other);
    }
  }

  lemma {:induction false} RangeOf(m: Memory, ref: nat, t: Tree)
    requires Reads(m, ref, t)
    ensures forall s :: s in Slots(m, ref, t) ==> s < |m.nodes|
  {
    SlotsInRange(m, ref, t);
  }

  /** Rebuilding the recorded path turns a changed subtree into a changed trie. */
  lemma {:induction false} RebuildReplaces(m: Memory, ref: nat, t: Tree, key: Key, value: nat, split: nat,
                                           m': Memory, changed: nat)
    requires Reads(m, ref, t)
    requires Replaces(m, Slots(m, StopRef(m, ref, t, key, split), StopTree(t, key, split)), m', changed,
                      Fork(StopTree(t, key, split), key, value, split))
    ensures StepsIn(StepsTo(m, ref, t, key, split), |m'.nodes|)
    ensures var (nodes, ref') := Rebuild(m'.nodes, StepsTo(m, ref, t, key, split), changed);
            Replaces(m, Slots(m, ref, t), m'.(nodes := nodes), ref', Put(t, key, value, split))
    decreases t
  {
    hide Replaces, Reads, Denotes, Owned, Memo, Slots, Fork;
    ReadsBranch(m, ref, t);
    StopReads(m, ref, t, key, split);
    ReplacesGrows(m, Slots(m, StopRef(m, ref, t, key, split), StopTree(t, key, split)), m', changed,
                  Fork(StopTree(t, key, split), key, value, split));
    if t.Branch? && t.bit < split {
      var x := Fetch(m, ref).value;
      var dir := key[t.bit];
      RebuildReplaces(m, Child(x, dir), Side(t, key), key, value, split, m', changed);
      var rest := StepsTo(m, Child(x, dir), Side(t, key), key, split);
      RebuildFirst(m'.nodes, Step(ref, x, dir), rest, changed);
      var (nodes, ref') := Rebuild(m'.nodes, rest, changed);
      StoreReplaces(m, ref, t, key, m'.(nodes := nodes), ref', Put(Side(t, key), key, value, split));
    }
  }

  lemma {:induction false} ReplacesGrows(m: Memory, own: set<nat>, m': Memory, ref: nat, t': Tree)
    requires Replaces(m, own, m', ref, t')
    ensures |m.nodes| <= |m'.nodes|
  {
  }

  lemma {:induction false} ReadsBranch(m: Memory, ref: nat, t: Tree)
    requires Reads(m, ref, t)
    ensures Fetch(m, ref).Some? && Denotes(m, ref, t)
    ensures t.Branch? ==> t.bit < KEY_BITS && Reads(m, Fetch(m, ref).value.zero, t.left)
                          && Reads(m, Fetch(m, ref).value.one, t.right)
  {
  }
}
