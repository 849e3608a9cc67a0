/** Patricia tries over 256-bit keys, as values: what the native store's index
    denotes, and what inserting into it means. */
module Patricia {
  import opened Basics

  const KEY_BITS := 256

  /** A key is its 256 bits, most significant first. */
  type Key = k: seq<bool> | |k| == KEY_BITS witness seq(KEY_BITS, i => false)

  datatype Tree =
    | Leaf(key: Key, value: nat)
    | Branch(bit: nat, left: Tree, right: Tree)

  ghost function Keys(t: Tree): set<Key> {
    match t
    case Leaf(k, _) => {k}
    case Branch(_, l, r) => Keys(l) + Keys(r)
  }

  /** Two keys agree on every bit before n. */
  predicate Agree(a: Key, b: Key, n: nat) {
    forall i :: 0 <= i < n && i < KEY_BITS ==> a[i] == b[i]
  }

  /** Bits increase strictly along every path from lo; a branch sends keys by its
      bit; and all keys under a branch agree before it. */
  ghost predicate WellFormed(t: Tree, lo: nat) {
    match t
    case Leaf(_, _) => true
    case Branch(b, l, r) =>
      && lo <= b < KEY_BITS
      && WellFormed(l, b + 1) && WellFormed(r, b + 1)
      && (forall k :: k in Keys(l) ==> !k[b])
      && (forall k :: k in Keys(r) ==> k[b])
      && (forall k, k' :: k in Keys(t) && k' in Keys(t) ==> Agree(k, k', b))
  }

  function Side(t: Tree, key: Key): Tree
    requires t.Branch? && t.bit < KEY_BITS
  {
    if key[t.bit] then t.right else t.left
  }

  /** The leaf a key's bits lead to. */
  ghost function Reach(t: Tree, key: Key): (r: Tree)
    requires WellFormed(t, 0)
    ensures r.Leaf? && r.key in Keys(t)
  {
    match t
    case Leaf(_, _) => t
    case Branch(_, _, _) =>
      Weaken(t.left, t.bit + 1, 0);
      Weaken(t.right, t.bit + 1, 0);
      Reach(Side(t, key), key)
  }

  lemma {:induction false} Weaken(t: Tree, lo: nat, lo': nat)
    requires WellFormed(t, lo) && lo' <= lo
    ensures WellFormed(t, lo')
  {
  }

  /** nlookup: the value of a key, found along its bits. */
  ghost function Lookup(t: Tree, key: Key): Option<nat>
    requires WellFormed(t, 0)
  {
    var leaf := Reach(t, key);
    if leaf.key == key then Some(leaf.value) else None
  }

  /** Membership in a trie is what its path search reports. */
  lemma {:induction false} LookupKeys(t: Tree, key: Key)
    requires WellFormed(t, 0)
    ensures Lookup(t, key).Some? <==> key in Keys(t)
  {
    match t
    case Leaf(_, _) =>
    case Branch(b, l, r) =>
      Weaken(l, b + 1, 0);
      Weaken(r, b + 1, 0);
      LookupKeys(Side(t, key), key);
  }

  /** First bit on which two keys differ, from i on; 256 when none does. */
  function FirstDifference(a: Key, b: Key, i: nat): (r: nat)
    requires i <= KEY_BITS && Agree(a, b, i)
    ensures i <= r <= KEY_BITS && Agree(a, b, r)
    ensures r < KEY_BITS ==> a[r] != b[r]
    ensures r == KEY_BITS <==> a == b
    decreases KEY_BITS - i
  {
    if i == KEY_BITS then
      assert a == b;
      KEY_BITS
    else if a[i] != b[i] then i
    else FirstDifference(a, b, i + 1)
  }

  /** Insert below every branch whose bit precedes split. */
  function Put(t: Tree, key: Key, value: nat, split: nat): Tree {
    match t
    case Branch(b, l, r) =>
      if b < split && b < KEY_BITS then
        if key[b] then Branch(b, l, Put(r, key, value, split)) else Branch(b, Put(l, key, value, split), r)
      else Fork(t, key, value, split)
    case Leaf(_, _) => Fork(t, key, value, split)
  }

  /** The new subtree where the descent stops: the leaf replaced, or a branch. */
  function Fork(t: Tree, key: Key, value: nat, split: nat): Tree {
    if split >= KEY_BITS then Leaf(key, value)
    else if key[split] then Branch(split, t, Leaf(key, value))
    else Branch(split, Leaf(key, value), t)
  }

  /** The insertion point: all keys below agree with the reached key up to and
      including split, and so differ from the new key exactly there. */
  ghost predicate SplitsAt(t: Tree, key: Key, split: nat) {
    && split <= KEY_BITS
    && (forall k :: k in Keys(t) ==> split < KEY_BITS ==> k != key)
    && (match t
        case Leaf(k, _) =>
            Agree(k, key, split) && (split < KEY_BITS ==> k[split] != key[split]) && (split == KEY_BITS ==> k == key)
        case Branch(b, l, r) =>
          b != split && (if b < split && b < KEY_BITS then SplitsAt(Side(t, key), key, split)
                         else forall k :: k in Keys(t) ==>
                             Agree(k, key, split) && split < KEY_BITS && k[split] != key[split]))
  }

  /** The first difference from the reached leaf is a proper insertion point. */
  lemma {:induction false} SplitFound(t: Tree, key: Key)
    requires WellFormed(t, 0)
    ensures SplitsAt(t, key, FirstDifference(key, Reach(t, key).key, 0))
  {
    var leaf := Reach(t, key);
    var split := FirstDifference(key, leaf.key, 0);
    LookupKeys(t, key);
    match t
    case Leaf(_, _) =>
    case Branch(b, l, r) =>
      Weaken(l, b + 1, 0);
      Weaken(r, b + 1, 0);
      SplitFound(Side(t, key), key);
      assert leaf.key in Keys(Side(t, key));
      if b >= split {
        forall k | k in Keys(t)
          ensures Agree(k, key, split) && split < KEY_BITS && k[split] != key[split]
        {
          assert Agree(k, leaf.key, b);
        }
      }
  }

  lemma {:induction false} PutKeys(t: Tree, key: Key, value: nat, split: nat)
    requires SplitsAt(t, key, split)
    ensures Keys(Put(t, key, value, split)) == Keys(t) + {key}
  {
    match t
    case Leaf(_, _) =>
    case Branch(b, _, _) =>
      if b < split && b < KEY_BITS {
        PutKeys(Side(t, key), key, value, split);
      }
  }

  lemma {:induction false} SplitWitness(t: Tree, key: Key, split: nat) returns (k: Key)
    requires SplitsAt(t, key, split)
    ensures k in Keys(t) && Agree(k, key, split)
  {
    match t
    case Leaf(k', _) => k := k';
    case Branch(b, l, r) =>
      if b < split && b < KEY_BITS {
        k := SplitWitness(Side(t, key), key, split);
      } else {
        k := SomeKey(t);
      }
  }

  lemma {:induction false} SomeKey(t: Tree) returns (k: Key)
    ensures k in Keys(t)
  {
    match t
    case Leaf(k', _) => k := k';
    case Branch(_, l, _) => k := SomeKey(l);
  }

  function Graft(t: Tree, key: Key, side: Tree): Tree
    requires t.Branch? && t.bit < KEY_BITS
  {
    if key[t.bit] then Branch(t.bit, t.left, side) else Branch(t.bit, side, t.right)
  }

  lemma {:induction false} GraftWellFormed(t: Tree, key: Key, side: Tree, lo: nat)
    requires WellFormed(t, lo) && t.Branch? && WellFormed(side, t.bit + 1)
    requires Keys(side) == Keys(Side(t, key)) + {key}
    requires forall k :: k in Keys(t) ==> Agree(k, key, t.bit)
    ensures WellFormed(Graft(t, key, side), lo)
  {
    assert Keys(Graft(t, key, side)) == Keys(t) + {key};
  }

  /** Where the descent stops above a proper split, every key lies on the other side. */
  lemma {:induction false} StopKeys(t: Tree, key: Key, split: nat)
    requires SplitsAt(t, key, split) && split < KEY_BITS && (t.Branch? ==> t.bit >= split)
    ensures t.Branch? ==> t.bit > split
    ensures forall k :: k in Keys(t) ==> Agree(k, key, split) && k[split] != key[split]
  {
  }

  lemma {:induction false} PutWellFormed(t: Tree, key: Key, value: nat, split: nat, lo: nat)
    requires WellFormed(t, lo) && SplitsAt(t, key, split) && lo <= split
    ensures WellFormed(Put(t, key, value, split), lo)
  {
    hide Keys;
    if t.Branch? && t.bit < split && t.bit < KEY_BITS {
      var side := Put(Side(t, key), key, value, split);
      PutWellFormed(Side(t, key), key, value, split, t.bit + 1);
      PutKeys(Side(t, key), key, value, split);
      var w := SplitWitness(t, key, split);
      forall k | k in Keys(t)
        ensures Agree(k, key, t.bit)
      {
        assert Agree(k, w, t.bit);
      }
      GraftWellFormed(t, key, side, lo);
      assert Put(t, key, value, split) == Graft(t, key, side);
    } else if split < KEY_BITS {
      StopKeys(t, key, split);
      ForkWellFormed(t, key, value, split, lo);
    }
  }

  lemma {:induction false} ForkWellFormed(t: Tree, key: Key, value: nat, split: nat, lo: nat)
    requires WellFormed(t, lo) && lo <= split < KEY_BITS
    requires t.Branch? ==> t.bit > split
    requires forall k :: k in Keys(t) ==> Agree(k, key, split) && k[split] != key[split]
    ensures WellFormed(Fork(t, key, value, split), lo)
  {
  }

  /** Insertion is map update: the key gets the value and no other key changes. */
  lemma {:induction false} PutLookup(t: Tree, key: Key, value: nat, split: nat, other: Key)
    requires WellFormed(t, 0) && SplitsAt(t, key, split)
    ensures WellFormed(Put(t, key, value, split), 0)
    ensures Lookup(Put(t, key, value, split), other) == if other == key then Some(value) else Lookup(t, other)
  {
    PutWellFormed(t, key, value, split, 0);
    if t.Branch? && t.bit < split && t.bit < KEY_BITS {
      Weaken(t.left, t.bit + 1, 0);
      Weaken(t.right, t.bit + 1, 0);
      if other[t.bit] == key[t.bit] {
        PutLookup(Side(t, key), key, value, split, other);
      }
    } else if split < KEY_BITS {
      ForkLookup(t, key, value, split, other);
    }
  }

  lemma {:induction false} ForkLookup(t: Tree, key: Key, value: nat, split: nat, other: Key)
    requires WellFormed(t, 0) && SplitsAt(t, key, split) && split < KEY_BITS
    requires t.Branch? ==> !(t.bit < split && t.bit < KEY_BITS)
    requires WellFormed(Fork(t, key, value, split), 0)
    ensures Lookup(Fork(t, key, value, split), other) == if other == key then Some(value) else Lookup(t, other)
  {
    var f := Fork(t, key, value, split);
    StopKeys(t, key, split);
    LookupKeys(t, other);
    if other[split] != key[split] {
      assert Side(f, other) == t;
      assert Reach(f, other) == Reach(t, other);
    } else {
      assert Side(f, other) == Leaf(key, value);
      assert Reach(f, other) == Leaf(key, value);
    }
  }

  /** Inserting a key at the first difference from the leaf it reaches. */
  ghost function Insert(t: Tree, key: Key, value: nat): Tree
    requires WellFormed(t, 0)
  {
    Put(t, key, value, FirstDifference(key, Reach(t, key).key, 0))
  }

  /** The map law of insertion, for every key. */
  lemma {:induction false} InsertIsUpdate(t: Tree, key: Key, value: nat, other: Key)
    requires WellFormed(t, 0)
    ensures WellFormed(Insert(t, key, value), 0)
    ensures Lookup(Insert(t, key, value), other) == if other == key then Some(value) else Lookup(t, other)
  {
    SplitFound(t, key);
    PutLookup(t, key, value, FirstDifference(key, Reach(t, key).key, 0), other);
  }
}
