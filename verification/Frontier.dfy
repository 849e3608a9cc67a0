/** The disclosure schedule of the Merkle natural ("MNAT") stream.

    A natural of n leaves is hashed as a binary tree whose left subtree is the
    largest power of two below n.  The stream first discloses the left spine and
    then, after each completed leaf, opens the unopened interval with the least
    start.  This module proves that the schedule always discloses a leaf's hash
    before the leaf completes, and never has anything left over. */
module Frontier {
  import opened Basics
  import opened Bytes

  // ------------------------------------------------------------- splitting

  predicate PowerOfTwo(k: nat) {
    k == 1 || (k > 1 && k % 2 == 0 && PowerOfTwo(k / 2))
  }

  /** The doubling search of split_power, started at k. */
  function SplitFrom(k: nat, n: nat): (r: nat)
    requires 1 <= k < n
    requires PowerOfTwo(k)
    ensures k <= r < n <= 2 * r
    ensures PowerOfTwo(r)
    decreases n - k
  {
    if k <= (n - 1) / 2 then SplitFrom(2 * k, n) else k
  }

  /** The largest power of two strictly below n. */
  function Split(n: nat): (r: nat)
    requires n > 1
    ensures 1 <= r < n <= 2 * r
    ensures PowerOfTwo(r)
  {
    SplitFrom(1, n)
  }

  method SplitPower(n: nat) returns (k: nat)
    requires n > 1
    ensures k == Split(n)
  {
    hide SplitFrom, PowerOfTwo;
    SplitStart(n);
    k := 1;
    while k <= (n - 1) / 2
      invariant 1 <= k < n
      invariant PowerOfTwo(k)
      invariant SplitFrom(k, n) == Split(n)
      decreases n - k
    {
      SplitFromStep(k, n);
      k := 2 * k;
    }
    SplitFromStep(k, n);
  }

  lemma SplitStart(n: nat)
    requires n > 1
    ensures PowerOfTwo(1) && SplitFrom(1, n) == Split(n)
  {
  }

  lemma SplitFromStep(k: nat, n: nat)
    requires 1 <= k < n && PowerOfTwo(k)
    ensures if k <= (n - 1) / 2 then 2 * k < n && PowerOfTwo(2 * k) && SplitFrom(k, n) == SplitFrom(2 * k, n)
            else SplitFrom(k, n) == k
  {
  }

  /** The largest power of two below n is the only one that n fits twice. */
  lemma {:induction false} SplitIs(k: nat, n: nat)
    requires PowerOfTwo(k) && k < n <= 2 * k
    ensures Split(n) == k
  {
    PowersApart(k, Split(n));
  }

  lemma {:induction false} PowersApart(a: nat, b: nat)
    requires PowerOfTwo(a) && PowerOfTwo(b) && a < 2 * b && b < 2 * a
    ensures a == b
    decreases a
  {
    if a > 1 && b > 1 {
      PowersApart(a / 2, b / 2);
    }
  }

  lemma {:induction false} SplitFromMonotone(k: nat, a: nat, b: nat)
    requires 1 <= k < a <= b
    requires PowerOfTwo(k)
    ensures SplitFrom(k, a) <= SplitFrom(k, b)
    decreases a - k
  {
    if k <= (a - 1) / 2 {
      SplitFromMonotone(2 * k, a, b);
    }
  }

  /** Openings needed before the leftmost leaf of an interval is disclosed. */
  function LeftDepth(count: nat): nat
    requires count >= 1
  {
    if count == 1 then 0 else 1 + LeftDepth(Split(count))
  }

  lemma {:induction false} LeftDepthMonotone(a: nat, b: nat)
    requires 1 <= a <= b
    ensures LeftDepth(a) <= LeftDepth(b)
    decreases b
  {
    if a > 1 {
      SplitFromMonotone(1, a, b);
      LeftDepthMonotone(Split(a), Split(b));
    }
  }

  // -------------------------------------------------------------- the lists

  /** An interval of leaves together with the hash disclosed for it. */
  datatype Item = Item(start: nat, count: nat, hash: Hash)

  function LeftItem(t: Item, h: Hash): Item
    requires t.count > 1
  {
    Item(t.start, Split(t.count), h)
  }

  function RightItem(t: Item, h: Hash): Item
    requires t.count > 1
  {
    Item(t.start + Split(t.count), t.count - Split(t.count), h)
  }

  /** Sorted insertion of the decoder: None when the start is already present. */
  function Insert(xs: seq<Item>, x: Item): Option<seq<Item>> {
    if xs == [] || x.start < xs[0].start then Some([x] + xs)
    else if x.start == xs[0].start then None
    else match Insert(xs[1..], x)
      case None => None
      case Some(r) => Some([xs[0]] + r)
  }

  ghost predicate AllBelow(xs: seq<Item>, n: nat) {
    forall x :: x in xs ==> x.start < n
  }

  ghost predicate AllAbove(xs: seq<Item>, n: nat) {
    forall x :: x in xs ==> n < x.start
  }

  lemma {:induction false} InsertBetween(xs: seq<Item>, x: Item, ys: seq<Item>)
    requires AllBelow(xs, x.start)
    requires ys == [] || x.start < ys[0].start
    ensures Insert(xs + ys, x) == Some(xs + [x] + ys)
  {
    if xs == [] {
      assert xs + ys == ys;
      assert xs + [x] + ys == [x] + ys;
    } else {
      var zs := xs + ys;
      assert zs[1..] == xs[1..] + ys;
      InsertBetween(xs[1..], x, ys);
      assert [xs[0]] + (xs[1..] + [x] + ys) == xs + [x] + ys;
    }
  }

  lemma {:induction false} InsertDuplicate(xs: seq<Item>, x: Item, at: nat)
    requires at < |xs|
    requires forall j :: 0 <= j < at ==> xs[j].start < x.start
    requires x.start == xs[at].start
    ensures Insert(xs, x) == None
  {
    if at > 0 {
      InsertDuplicate(xs[1..], x, at - 1);
    }
  }

  /** unopened_insert and expected_insert: a linear scan for the position. */
  method InsertSorted(xs: seq<Item>, x: Item) returns (r: Option<seq<Item>>)
    ensures r == Insert(xs, x)
  {
    var at := 0;
    while at < |xs| && xs[at].start < x.start
      invariant at <= |xs|
      invariant forall j :: 0 <= j < at ==> xs[j].start < x.start
    {
      at := at + 1;
    }
    if at < |xs| && xs[at].start == x.start {
      InsertDuplicate(xs, x, at);
      return None;
    }
    assert xs == xs[..at] + xs[at..];
    InsertBetween(xs[..at], x, xs[at..]);
    return Some(xs[..at] + [x] + xs[at..]);
  }

  // --------------------------------------------------------------- the tiling

  /** The disclosed items, in order, cover [lo, hi) without gap or overlap. */
  ghost predicate Tiles(t: seq<Item>, lo: nat, hi: nat) {
    if t == [] then lo == hi
    else t[0].start == lo && t[0].count >= 1 && Tiles(t[1..], lo + t[0].count, hi)
  }

  /** The item at position p is at most p + slack openings away from its first leaf. */
  ghost predicate Timely(t: seq<Item>, slack: nat) {
    t == [] || (t[0].count >= 1 && LeftDepth(t[0].count) <= slack && Timely(t[1..], slack + 1))
  }

  /** An item as it shows in the unopened, respectively the expected, list. */
  ghost function IfWide(x: Item): seq<Item> {
    if x.count == 1 then [] else [x]
  }

  ghost function IfLeaf(x: Item): seq<Item> {
    if x.count == 1 then [x] else []
  }

  ghost function Unopened(t: seq<Item>): seq<Item> {
    if t == [] then [] else IfWide(t[0]) + Unopened(t[1..])
  }

  ghost function Expected(t: seq<Item>): seq<Item> {
    if t == [] then [] else IfLeaf(t[0]) + Expected(t[1..])
  }

  lemma {:induction false} StartsBounded(t: seq<Item>, lo: nat, hi: nat)
    requires Tiles(t, lo, hi)
    ensures lo <= hi
    ensures forall x :: x in Unopened(t) + Expected(t) ==> lo <= x.start && x.start + x.count <= hi
  {
    if t != [] {
      StartsBounded(t[1..], lo + t[0].count, hi);
    }
  }

  /** Replace the first unopened item by its two children. */
  ghost function OpenFirst(t: seq<Item>, hl: Hash, hr: Hash): seq<Item> {
    if t == [] then []
    else if t[0].count <= 1 then [t[0]] + OpenFirst(t[1..], hl, hr)
    else [LeftItem(t[0], hl), RightItem(t[0], hr)] + t[1..]
  }

  lemma {:induction false} OpenFirstTiles(t: seq<Item>, lo: nat, hi: nat, hl: Hash, hr: Hash)
    requires Tiles(t, lo, hi)
    ensures Tiles(OpenFirst(t, hl, hr), lo, hi)
  {
    if t != [] {
      var o := OpenFirst(t, hl, hr);
      if t[0].count <= 1 {
        OpenFirstTiles(t[1..], lo + t[0].count, hi, hl, hr);
        assert o[1..] == OpenFirst(t[1..], hl, hr);
      } else {
        assert o[1..][1..] == t[1..];
      }
    }
  }

  /** Opening one item pays for the position every later item loses. */
  lemma {:induction false} OpenFirstTimely(t: seq<Item>, slack: nat, hl: Hash, hr: Hash)
    requires Timely(t, slack + 1)
    ensures Timely(OpenFirst(t, hl, hr), slack)
  {
    if t != [] {
      var o := OpenFirst(t, hl, hr);
      if t[0].count <= 1 {
        OpenFirstTimely(t[1..], slack + 1, hl, hr);
        assert o[1..] == OpenFirst(t[1..], hl, hr);
      } else {
        LeftDepthMonotone(t[0].count - Split(t[0].count), Split(t[0].count));
        assert o[1..][1..] == t[1..];
      }
    }
  }

  // ------------------------------------------------- lists track the tiling

  /** The disclosed leaves before the first unopened item, and what follows it. */
  ghost function Ahead(t: seq<Item>): seq<Item> {
    if t == [] || t[0].count != 1 then [] else [t[0]] + Ahead(t[1..])
  }

  ghost function Behind(t: seq<Item>): seq<Item> {
    if t == [] then [] else if t[0].count != 1 then t[1..] else Behind(t[1..])
  }

  lemma {:induction false} SplitAtFirst(t: seq<Item>, lo: nat, hi: nat)
    requires Tiles(t, lo, hi) && Unopened(t) != []
    ensures Unopened(t) == [Unopened(t)[0]] + Unopened(Behind(t))
    ensures Expected(t) == Ahead(t) + Expected(Behind(t))
    ensures var m := Unopened(t)[0];
            && m.count > 1 && lo <= m.start
            && AllBelow(Ahead(t), m.start)
            && Tiles(Behind(t), m.start + m.count, hi)
  {
    if t[0].count == 1 {
      SplitAtFirst(t[1..], lo + 1, hi);
      assert Unopened(t) == Unopened(t[1..]);
      assert Expected(t) == [t[0]] + (Ahead(t[1..]) + Expected(Behind(t[1..])));
    }
  }

  lemma PartsOfCons(t: seq<Item>)
    requires t != []
    ensures Unopened(t) == IfWide(t[0]) + Unopened(t[1..]) && Expected(t) == IfLeaf(t[0]) + Expected(t[1..])
  {
  }

  lemma Regroup(a: seq<Item>, b: seq<Item>, c: seq<Item>)
    ensures a + (b + c) == (a + b) + c
  {
  }

  lemma {:induction false} PartsOfConcat(x: seq<Item>, y: seq<Item>)
    ensures Unopened(x + y) == Unopened(x) + Unopened(y)
    ensures Expected(x + y) == Expected(x) + Expected(y)
    decreases |x|
  {
    hide IfWide, IfLeaf;
    if x == [] {
      assert x + y == y;
    } else {
      var z := x + y;
      assert z[0] == x[0] && z[1..] == x[1..] + y;
      PartsOfConcat(x[1..], y);
      PartsOfCons(z);
      PartsOfCons(x);
      Regroup(IfWide(x[0]), Unopened(x[1..]), Unopened(y));
      Regroup(IfLeaf(x[0]), Expected(x[1..]), Expected(y));
    }
  }

  lemma {:induction false} AheadParts(t: seq<Item>)
    ensures Unopened(Ahead(t)) == [] && Expected(Ahead(t)) == Ahead(t)
  {
    if t != [] && t[0].count == 1 {
      AheadParts(t[1..]);
      assert Ahead(t)[1..] == Ahead(t[1..]);
    }
  }

  lemma TilesNext(t: seq<Item>, lo: nat, hi: nat)
    requires Tiles(t, lo, hi) && t != []
    ensures t[0].count >= 1 && (t[0].count == 1 ==> Tiles(t[1..], lo + 1, hi))
  {
  }

  lemma {:induction false} OpenFirstSplices(t: seq<Item>, lo: nat, hi: nat, hl: Hash, hr: Hash)
    requires Tiles(t, lo, hi) && Unopened(t) != [] && Unopened(t)[0].count > 1
    ensures OpenFirst(t, hl, hr) ==
            Ahead(t) + [LeftItem(Unopened(t)[0], hl), RightItem(Unopened(t)[0], hr)] + Behind(t)
  {
    hide Tiles;
    if t[0].count == 1 {
      TilesNext(t, lo, hi);
      PartsOfCons(t);
      OpenFirstSplices(t[1..], lo + 1, hi, hl, hr);
      assert Unopened(t) == Unopened(t[1..]);
      var l, r := LeftItem(Unopened(t)[0], hl), RightItem(Unopened(t)[0], hr);
      assert [t[0]] + (Ahead(t[1..]) + [l, r] + Behind(t[1..])) == ([t[0]] + Ahead(t[1..])) + [l, r] + Behind(t[1..]);
    } else {
      TilesNext(t, lo, hi);
      PartsOfCons(t);
      assert Ahead(t) == [];
    }
  }

  lemma PartsOfPair(l: Item, r: Item)
    ensures Unopened([l, r]) == IfWide(l) + IfWide(r)
    ensures Expected([l, r]) == IfLeaf(l) + IfLeaf(r)
  {
    hide IfWide, IfLeaf;
    PartsOfCons([l, r]);
    assert [l, r][1..] == [r];
    PartsOfCons([r]);
    assert [r][1..] == [];
  }

  lemma OpenFirstParts(t: seq<Item>, lo: nat, hi: nat, hl: Hash, hr: Hash)
    requires Tiles(t, lo, hi) && Unopened(t) != [] && Unopened(t)[0].count > 1
    ensures var l, r := LeftItem(Unopened(t)[0], hl), RightItem(Unopened(t)[0], hr);
            && Unopened(OpenFirst(t, hl, hr)) == IfWide(l) + IfWide(r) + Unopened(Behind(t))
            && Expected(OpenFirst(t, hl, hr)) == Ahead(t) + (IfLeaf(l) + IfLeaf(r)) + Expected(Behind(t))
  {
    hide Tiles, Unopened, Expected, IfWide, IfLeaf, OpenFirst, Ahead, Behind, LeftItem, RightItem;
    var a, b := Ahead(t), Behind(t);
    var l, r := LeftItem(Unopened(t)[0], hl), RightItem(Unopened(t)[0], hr);
    OpenFirstSplices(t, lo, hi, hl, hr);
    AheadParts(t);
    PartsOfConcat(a + [l, r], b);
    PartsOfConcat(a, [l, r]);
    PartsOfPair(l, r);
    assert [] + (IfWide(l) + IfWide(r)) == IfWide(l) + IfWide(r);
  }

  // ------------------------------------------------------------ the schedule

  /** The two queues of the decoder: intervals still to open and leaf hashes
      disclosed but not yet matched. */
  datatype Queues = Queues(unopened: seq<Item>, expected: seq<Item>)

  /** File a disclosed child in the queue it belongs to; None on a duplicate. */
  function File(q: Queues, child: Item): Option<Queues> {
    if child.count == 1 then
      match Insert(q.expected, child)
      case None => None
      case Some(e) => Some(q.(expected := e))
    else
      match Insert(q.unopened, child)
      case None => None
      case Some(u) => Some(q.(unopened := u))
  }

  /** Open the least unopened interval, whose children hash to hl and hr. */
  function Open(q: Queues, hl: Hash, hr: Hash): Option<Queues>
    requires q.unopened != [] && q.unopened[0].count > 1
  {
    var parent := q.unopened[0];
    match File(q.(unopened := q.unopened[1..]), LeftItem(parent, hl))
    case None => None
    case Some(q1) => File(q1, RightItem(parent, hr))
  }

  /** The queues are exactly the two halves of a timely tiling of [lo, hi). */
  ghost predicate Tracks(q: Queues, t: seq<Item>, lo: nat, hi: nat, slack: nat) {
    && Tiles(t, lo, hi)
    && Timely(t, slack)
    && q.unopened == Unopened(t)
    && q.expected == Expected(t)
  }

  /** Filing the two children lands each where the opened tiling wants it. */
  lemma FileChildren(u: seq<Item>, a: seq<Item>, e: seq<Item>, l: Item, r: Item)
    requires 1 <= r.count <= l.count && l.start < r.start
    requires AllBelow(a, l.start) && AllAbove(e, r.start) && AllAbove(u, r.start)
    ensures File(Queues(u, a + e), l).Some?
    ensures File(File(Queues(u, a + e), l).value, r) ==
            Some(Queues(IfWide(l) + IfWide(r) + u, a + (IfLeaf(l) + IfLeaf(r)) + e))
  {
    hide AllBelow, AllAbove, Insert;
    AboveLess(e, l.start, r.start);
    AboveLess(u, l.start, r.start);
    BelowMore(a, l, r.start);
    BelowMore([], l, r.start);
    assert [] + [l] == [l];
    if l.count == 1 {
      InsertBetween(a, l, e);
      InsertBetween(a + [l], r, e);
      assert a + [l] + [r] + e == a + ([l] + [r]) + e;
      assert [] + [] + u == u;
    } else {
      InsertBetween([], l, u);
      assert [] + u == u && [] + [l] + u == [l] + u && [] + [l] == [l];
      if r.count == 1 {
        InsertBetween(a, r, e);
        assert [l] + [] + u == [l] + u;
        assert a + ([] + [r]) + e == a + [r] + e;
      } else {
        InsertBetween([l], r, u);
        assert a + ([] + []) + e == a + e;
      }
    }
  }

  lemma AboveLess(xs: seq<Item>, m: nat, n: nat)
    requires AllAbove(xs, n) && m <= n
    ensures AllAbove(xs, m) && (xs == [] || (m < xs[0].start && n < xs[0].start))
  {
  }

  lemma BelowMore(xs: seq<Item>, x: Item, n: nat)
    requires x.start < n
    ensures AllBelow([], x.start) && (AllBelow(xs, x.start) ==> AllBelow(xs, n) && AllBelow(xs + [x], n))
  {
  }

  lemma BehindAbove(behind: seq<Item>, m: Item, hi: nat)
    requires Tiles(behind, m.start + m.count, hi) && m.count > 1
    ensures var r := m.start + Split(m.count);
            AllAbove(Unopened(behind), r) && AllAbove(Expected(behind), r)
  {
    hide Tiles, Unopened, Expected;
    StartsBounded(behind, m.start + m.count, hi);
    assert forall x :: x in Unopened(behind) ==> x in Unopened(behind) + Expected(behind);
    assert forall x :: x in Expected(behind) ==> x in Unopened(behind) + Expected(behind);
  }

  /** Opening the least interval keeps the queues in step with the tiling. */
  lemma OpenTracks(q: Queues, t: seq<Item>, lo: nat, hi: nat, hl: Hash, hr: Hash)
    requires Tracks(q, t, lo, hi, 1)
    requires q.unopened != []
    ensures q.unopened[0].count > 1 && lo <= q.unopened[0].start
    ensures Open(q, hl, hr).Some?
    ensures Tracks(Open(q, hl, hr).value, OpenFirst(t, hl, hr), lo, hi, 0)
  {
    hide Tiles, Timely, Unopened, Expected, OpenFirst, Ahead, Behind, File, IfWide, IfLeaf, AllAbove, AllBelow;
    OpenFirstTiles(t, lo, hi, hl, hr);
    OpenFirstTimely(t, 0, hl, hr);
    SplitAtFirst(t, lo, hi);
    OpenFirstParts(t, lo, hi, hl, hr);
    var m := q.unopened[0];
    BehindAbove(Behind(t), m, hi);
    assert q.unopened[1..] == Unopened(Behind(t));
    FileChildren(Unopened(Behind(t)), Ahead(t), Expected(Behind(t)), LeftItem(m, hl), RightItem(m, hr));
  }

  /** The item at the front of a tracked tiling is the current leaf itself. */
  lemma HeadIsLeaf(q: Queues, t: seq<Item>, lo: nat, hi: nat)
    requires Tracks(q, t, lo, hi, 0) && lo < hi
    ensures t != [] && t[0].count == 1 && t[0].start == lo
    ensures q.expected != [] && q.expected[0] == t[0]
    ensures Tracks(Queues(q.unopened, q.expected[1..]), t[1..], lo + 1, hi, 1)
  {
    assert q.expected == [t[0]] + Expected(t[1..]);
  }

  // ---------------------------------------------------------- the left spine

  /** Disclose the right siblings along the path to leaf 0, shallowest first. */
  function FileSpine(q: Queues, count: nat, siblings: seq<Hash>): Option<Queues>
    requires count >= 1 && |siblings| == LeftDepth(count)
    decreases count
  {
    if count == 1 then Some(q)
    else
      var k := Split(count);
      match File(q, Item(k, count - k, siblings[0]))
      case None => None
      case Some(q1) => FileSpine(q1, k, siblings[1..])
  }

  function InitialQueues(n: nat, first: Hash, siblings: seq<Hash>): Option<Queues>
    requires n >= 1 && |siblings| == LeftDepth(n)
  {
    FileSpine(Queues([], [Item(0, 1, first)]), n, siblings)
  }

  ghost function SpineTiling(count: nat, siblings: seq<Hash>, above: seq<Item>): seq<Item>
    requires count >= 1 && |siblings| == LeftDepth(count)
  {
    if count == 1 then above
    else
      var k := Split(count);
      SpineTiling(k, siblings[1..], [Item(k, count - k, siblings[0])] + above)
  }

  ghost function InitialTiling(n: nat, first: Hash, siblings: seq<Hash>): seq<Item>
    requires n >= 1 && |siblings| == LeftDepth(n)
  {
    [Item(0, 1, first)] + SpineTiling(n, siblings, [])
  }

  lemma FileSibling(first: Item, x: Item, above: seq<Item>, hi: nat)
    requires first.start == 0 && x.start > 0 && x.count >= 1
    requires Tiles(above, x.start + x.count, hi)
    ensures File(Queues(Unopened(above), [first] + Expected(above)), x)
         == Some(Queues(Unopened([x] + above), [first] + Expected([x] + above)))
  {
    var above' := [x] + above;
    assert above'[1..] == above;
    StartsBounded(above, x.start + x.count, hi);
    var u, e := Unopened(above), Expected(above);
    if x.count == 1 {
      InsertBetween([first], x, e);
      assert [first] + [x] + e == [first] + ([x] + e);
    } else {
      InsertBetween([], x, u);
      assert [] + u == u && [] + [x] + u == [x] + u;
      assert [] + e == e;
    }
  }

  lemma {:induction false} FileSpineTracks(q: Queues, count: nat, siblings: seq<Hash>, first: Item,
                                           above: seq<Item>, hi: nat)
    requires count >= 1 && |siblings| == LeftDepth(count)
    requires first.start == 0 && first.count == 1
    requires Tiles(above, count, hi) && Timely(above, 1 + LeftDepth(count))
    requires q == Queues(Unopened(above), [first] + Expected(above))
    ensures FileSpine(q, count, siblings).Some?
    ensures Tracks(FileSpine(q, count, siblings).value,
                   [first] + SpineTiling(count, siblings, above), 0, hi, 0)
    decreases count
  {
    if count == 1 {
      var t := [first] + above;
      assert t[1..] == above;
      assert Unopened(t) == [] + Unopened(above);
    } else {
      var k := Split(count);
      var x := Item(k, count - k, siblings[0]);
      var above' := [x] + above;
      assert above'[1..] == above;
      LeftDepthMonotone(count - k, k);
      FileSibling(first, x, above, hi);
      FileSpineTracks(File(q, x).value, k, siblings[1..], first, above', hi);
    }
  }

  lemma InitialTracks(n: nat, first: Hash, siblings: seq<Hash>)
    requires n >= 1 && |siblings| == LeftDepth(n)
    ensures InitialQueues(n, first, siblings).Some?
    ensures Tracks(InitialQueues(n, first, siblings).value, InitialTiling(n, first, siblings), 0, n, 0)
  {
    FileSpineTracks(Queues([], [Item(0, 1, first)]), n, siblings, Item(0, 1, first), [], n);
  }

  // ------------------------------------------------------- the whole schedule

  /** The hashes disclosed for the left spine of a tree with node hashes `hash`. */
  function SpineHashes(hash: (nat, nat) -> Hash, count: nat): (r: seq<Hash>)
    requires count >= 1
    ensures |r| == LeftDepth(count)
  {
    if count == 1 then []
    else var k := Split(count); [hash(k, count - k)] + SpineHashes(hash, k)
  }

  /** Leaf i completes: None when no hash was disclosed for it, when the opening
      reaches back to i or before it, or when a queue refuses a child. */
  function CompleteLeaf(hash: (nat, nat) -> Hash, q: Queues, i: nat): Option<Queues> {
    if q.expected == [] || q.expected[0].start != i then None
    else if q.unopened == [] then Some(q.(expected := q.expected[1..]))
    else
      var parent := q.unopened[0];
      if parent.count <= 1 || parent.start <= i then None
      else
        var k := Split(parent.count);
        Open(q.(expected := q.expected[1..]),
             hash(parent.start, k), hash(parent.start + k, parent.count - k))
  }

  lemma CompleteLeafTracks(hash: (nat, nat) -> Hash, q: Queues, t: seq<Item>, i: nat, n: nat)
    returns (t': seq<Item>)
    requires Tracks(q, t, i, n, 0) && i < n
    ensures CompleteLeaf(hash, q, i).Some?
    ensures Tracks(CompleteLeaf(hash, q, i).value, t', i + 1, n, 0)
  {
    hide Tiles, Timely, Unopened, Expected, OpenFirst, Split, Open;
    HeadIsLeaf(q, t, i, n);
    var q1 := q.(expected := q.expected[1..]);
    if q1.unopened == [] {
      NothingUnopened(t[1..], 1);
      t' := t[1..];
    } else {
      SplitAtFirst(t[1..], i + 1, n);
      var parent := q1.unopened[0];
      var k := Split(parent.count);
      var hl, hr := hash(parent.start, k), hash(parent.start + k, parent.count - k);
      OpenTracks(q1, t[1..], i + 1, n, hl, hr);
      t' := OpenFirst(t[1..], hl, hr);
    }
  }

  /** The queues once `done` leaves of an n-leaf tree have completed. */
  function Schedule(hash: (nat, nat) -> Hash, n: nat, done: nat): Option<Queues>
    requires n >= 1
  {
    if done == 0 then InitialQueues(n, hash(0, 1), SpineHashes(hash, n))
    else
      match Schedule(hash, n, done - 1)
      case None => None
      case Some(q) => CompleteLeaf(hash, q, done - 1)
  }

  lemma {:induction false} ScheduleTracks(hash: (nat, nat) -> Hash, n: nat, done: nat) returns (t: seq<Item>)
    requires n >= 1 && done <= n
    ensures Schedule(hash, n, done).Some?
    ensures Tracks(Schedule(hash, n, done).value, t, done, n, 0)
  {
    hide Tracks, CompleteLeaf, InitialQueues, InitialTiling, SpineHashes;
    if done == 0 {
      InitialTracks(n, hash(0, 1), SpineHashes(hash, n));
      t := InitialTiling(n, hash(0, 1), SpineHashes(hash, n));
    } else {
      t := ScheduleTracks(hash, n, done - 1);
      t := CompleteLeafTracks(hash, Schedule(hash, n, done - 1).value, t, done - 1, n);
    }
  }

  lemma EmptyTiling(t: seq<Item>, n: nat)
    requires Tiles(t, n, n)
    ensures t == []
  {
    if t != [] {
      StartsBounded(t[1..], n + t[0].count, n);
    }
  }

  /** Main result: for every leaf count and every prefix of the run, the
      schedule has not failed, the next leaf's hash has been disclosed, nothing
      unopened lies at or behind the next leaf, and after the last leaf both
      queues are empty. */
  lemma ScheduleNeverStalls(hash: (nat, nat) -> Hash, n: nat, done: nat)
    requires n >= 1 && done <= n
    ensures Schedule(hash, n, done).Some?
    ensures var q := Schedule(hash, n, done).value;
            && (done < n ==> q.expected != [] && q.expected[0].start == done)
            && (forall x :: x in q.unopened ==> x.start > done)
            && (done == n ==> q == Queues([], []))
  {
    var t := ScheduleTracks(hash, n, done);
    var q := Schedule(hash, n, done).value;
    if done < n {
      HeadIsLeaf(q, t, done, n);
      StartsBounded(t[1..], done + 1, n);
    } else {
      EmptyTiling(t, n);
    }
  }

  /** With nothing left to open, every item is a leaf and is timely anywhere. */
  lemma {:induction false} NothingUnopened(t: seq<Item>, slack: nat)
    requires Unopened(t) == [] && Timely(t, slack)
    ensures Timely(t, 0)
    ensures forall x :: x in t ==> x.count == 1
    ensures Expected(t) == t
  {
    LeavesTimely(t, slack, 0);
  }

  lemma {:induction false} LeavesTimely(t: seq<Item>, slack: nat, slack': nat)
    requires Unopened(t) == [] && Timely(t, slack)
    ensures Timely(t, slack')
    ensures forall x :: x in t ==> x.count == 1
    ensures Expected(t) == t
  {
    if t != [] {
      LeavesTimely(t[1..], slack + 1, slack' + 1);
    }
  }
}
