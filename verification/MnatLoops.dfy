/** encode_mnat and decode_mnat in the form the program has them: a node array
    built bottom-up, queues updated in place, and nested page and leaf loops.
    Each is proved to compute its specification in module Mnat. */
module MnatLoops {
  import opened Bytes
  import opened Frontier
  import opened Mnat
  import opened MnatProof

  // ------------------------------------------------------------------- encoding

  datatype Node = Node(start: nat, count: nat, left: nat, right: nat, hash: Hash)

  /** Node j of the array: authentic, with its children earlier in the array. */
  ghost predicate NodeOk(h: Scheme, b: seq<byte>, nodes: seq<Node>, j: nat)
    requires j < |nodes|
  {
    var x := nodes[j];
    && x.count >= 1 && x.start + x.count <= LeafCount(|b|)
    && x.hash == TreeHash(h, b, x.start, x.count)
    && (x.count > 1 ==>
          && x.left < j && x.right < j
          && nodes[x.left].start == x.start && nodes[x.left].count == Split(x.count)
          && nodes[x.right].start == x.start + Split(x.count)
          && nodes[x.right].count == x.count - Split(x.count))
  }

  ghost predicate TreeOk(h: Scheme, b: seq<byte>, nodes: seq<Node>) {
    forall j :: 0 <= j < |nodes| ==> NodeOk(h, b, nodes, j)
  }

  /** mnat_build: hash an interval, appending its nodes in post-order. */
  method BuildTree(h: Scheme, b: seq<byte>, nodes: seq<Node>, start: nat, count: nat) returns (r: seq<Node>)
    requires count >= 1 && start + count <= LeafCount(|b|) && TreeOk(h, b, nodes)
    ensures TreeOk(h, b, r) && nodes < r
    ensures r[|r| - 1].start == start && r[|r| - 1].count == count
    ensures r[|nodes|].start == start && r[|nodes|].count == 1
    decreases count
  {
    hide TreeOk, Split;
    if count == 1 {
      var leaf := Node(start, 1, 0, 0, h.leaf(start, Leaf(b, start)));
      PushOk(h, b, nodes, leaf);
      r := nodes + [leaf];
    } else {
      var k := SplitPower(count);
      r := BuildTree(h, b, nodes, start, k);
      var left := |r| - 1;
      r := BuildTree(h, b, r, start + k, count - k);
      var right := |r| - 1;
      var node := Node(start, count, left, right, h.node(start, count, r[left].hash, r[right].hash));
      JoinOk(h, b, r, node);
      PushOk(h, b, r, node);
      r := r + [node];
    }
  }

  lemma {:induction false} JoinOk(h: Scheme, b: seq<byte>, nodes: seq<Node>, x: Node)
    requires TreeOk(h, b, nodes) && x.count > 1 && x.start + x.count <= LeafCount(|b|) && x.left < |nodes|
             && x.right < |nodes|
    requires nodes[x.left].start == x.start && nodes[x.left].count == Split(x.count)
    requires nodes[x.right].start == x.start + Split(x.count) && nodes[x.right].count == x.count - Split(x.count)
    requires x.hash == h.node(x.start, x.count, nodes[x.left].hash, nodes[x.right].hash)
    ensures NodeOk(h, b, nodes + [x], |nodes|)
  {
    hide Split;
    assert NodeOk(h, b, nodes, x.left) && NodeOk(h, b, nodes, x.right);
  }

  lemma {:induction false} PushOk(h: Scheme, b: seq<byte>, nodes: seq<Node>, x: Node)
    requires TreeOk(h, b, nodes) && NodeOk(h, b, nodes + [x], |nodes|)
    ensures TreeOk(h, b, nodes + [x])
  {
    forall j | 0 <= j < |nodes|
      ensures NodeOk(h, b, nodes + [x], j)
    {
      assert NodeOk(h, b, nodes, j);
    }
  }

  ghost function ItemOf(nodes: seq<Node>, j: nat): Item
    requires j < |nodes|
  {
    Item(nodes[j].start, nodes[j].count, nodes[j].hash)
  }

  ghost predicate Indices(nodes: seq<Node>, queue: seq<nat>) {
    forall k :: 0 <= k < |queue| ==> queue[k] < |nodes|
  }

  /** The queue of node indices, seen as intervals. */
  ghost function Items(nodes: seq<Node>, queue: seq<nat>): (r: seq<Item>)
    requires Indices(nodes, queue)
    ensures |r| == |queue|
    ensures forall k :: 0 <= k < |queue| ==> r[k] == ItemOf(nodes, queue[k])
  {
    if queue == [] then [] else [ItemOf(nodes, queue[0])] + Items(nodes, queue[1..])
  }

  lemma {:induction false} ItemsInsert(nodes: seq<Node>, queue: seq<nat>, j: nat, at: nat)
    requires Indices(nodes, queue) && j < |nodes| && at <= |queue|
    requires forall k :: 0 <= k < at ==> nodes[queue[k]].start < nodes[j].start
    requires at < |queue| ==> nodes[queue[at]].start >= nodes[j].start
    ensures Indices(nodes, queue[..at] + [j] + queue[at..])
    ensures Items(nodes, queue[..at] + [j] + queue[at..]) == QueueInsert(Items(nodes, queue), ItemOf(nodes, j))
  {
    hide ItemOf, Items, QueueInsert;
    var r := queue[..at] + [j] + queue[at..];
    assert Indices(nodes, r) by { InsertIndices(nodes, queue, j, at); }
    var items, x := Items(nodes, queue), ItemOf(nodes, j);
    assert x.start == nodes[j].start && forall k :: 0 <= k < |queue| ==>
        items[k].start == nodes[queue[k]].start by { Starts(nodes, queue, j); }
    if at == 0 {
      assert r[0] == j && r[1..] == queue;
      InsertHere(items, x);
    } else {
      assert forall k :: 0 <= k < |queue| - 1 ==> queue[1..][k] == queue[k + 1];
      ItemsInsert(nodes, queue[1..], j, at - 1);
      assert r[0] == queue[0];
      assert queue[1..][..at - 1] + [j] + queue[1..][at - 1..] == r[1..];
      assert items[0].start < x.start;
      ItemsCons(nodes, queue);
      InsertLater(items, x);
    }
    ItemsCons(nodes, r);
  }

  lemma InsertIndices(nodes: seq<Node>, queue: seq<nat>, j: nat, at: nat)
    requires Indices(nodes, queue) && j < |nodes| && at <= |queue|
    ensures Indices(nodes, queue[..at] + [j] + queue[at..])
  {
  }

  lemma Starts(nodes: seq<Node>, queue: seq<nat>, j: nat)
    requires Indices(nodes, queue) && j < |nodes|
    ensures ItemOf(nodes, j).start == nodes[j].start && forall k :: 0 <= k < |queue| ==>
            Items(nodes, queue)[k].start == nodes[queue[k]].start
  {
  }

  lemma ItemsCons(nodes: seq<Node>, queue: seq<nat>)
    requires Indices(nodes, queue) && queue != []
    ensures Indices(nodes, queue[1..]) && Items(nodes, queue) == [ItemOf(nodes, queue[0])] + Items(nodes, queue[1..])
  {
  }

  lemma InsertHere(items: seq<Item>, x: Item)
    requires items != [] ==> items[0].start >= x.start
    ensures QueueInsert(items, x) == [x] + items
  {
  }

  lemma InsertLater(items: seq<Item>, x: Item)
    requires items != [] && items[0].start < x.start
    ensures QueueInsert(items, x) == [items[0]] + QueueInsert(items[1..], x)
  {
  }

  /** node_queue_insert */
  method InsertNode(nodes: seq<Node>, queue: seq<nat>, j: nat) returns (r: seq<nat>)
    requires Indices(nodes, queue) && j < |nodes|
    ensures Indices(nodes, r)
    ensures Items(nodes, r) == QueueInsert(Items(nodes, queue), ItemOf(nodes, j))
  {
    var at := 0;
    while at < |queue| && nodes[queue[at]].start < nodes[j].start
      invariant at <= |queue|
      invariant forall k :: 0 <= k < at ==> nodes[queue[k]].start < nodes[j].start
    {
      at := at + 1;
    }
    ItemsInsert(nodes, queue, j, at);
    r := queue[..at] + [j] + queue[at..];
  }

  ghost predicate WideQueue(nodes: seq<Node>, queue: seq<nat>) {
    Indices(nodes, queue) && forall k :: 0 <= k < |queue| ==> nodes[queue[k]].count > 1
  }

  /** Enqueue node j unless it is a leaf. */
  method EnqueueNode(nodes: seq<Node>, queue: seq<nat>, j: nat) returns (r: seq<nat>)
    requires WideQueue(nodes, queue) && j < |nodes| && nodes[j].count >= 1
    ensures WideQueue(nodes, r)
    ensures Items(nodes, r) == Enqueue(Items(nodes, queue), ItemOf(nodes, j))
  {
    r := queue;
    if nodes[j].count > 1 {
      r := InsertNode(nodes, queue, j);
      InsertWide(Items(nodes, queue), ItemOf(nodes, j));
      assert forall k :: 0 <= k < |r| ==> Items(nodes, r)[k].count > 1;
    }
  }

  lemma {:induction false} InsertWide(xs: seq<Item>, x: Item)
    requires x.count > 1 && forall k :: 0 <= k < |xs| ==> xs[k].count > 1
    ensures forall k :: 0 <= k < |QueueInsert(xs, x)| ==> QueueInsert(xs, x)[k].count > 1
  {
    if xs != [] && xs[0].start < x.start {
      InsertWide(xs[1..], x);
    }
  }

  lemma {:induction false} SpineStep(h: Scheme, b: seq<byte>, count: nat, u: seq<Item>)
    requires 1 < count <= LeafCount(|b|) && QueueOk(u, LeafCount(|b|))
    ensures var k := Split(count);
            var right := Item(k, count - k, TreeHash(h, b, k, count - k));
            && QueueOk(Enqueue(u, right), LeafCount(|b|))
            && SpineQueue(h, b, count, u) == SpineQueue(h, b, k, Enqueue(u, right))
            && Concat(TreeHashes(h, b, count)) == right.hash + Concat(TreeHashes(h, b, k))
  {
    var k := Split(count);
    QueueInsertOk(u, Item(k, count - k, TreeHash(h, b, k, count - k)), LeafCount(|b|));
    assert TreeHashes(h, b, count)[1..] == TreeHashes(h, b, k);
  }

  lemma {:induction false} SpineEnd(h: Scheme, b: seq<byte>, u: seq<Item>)
    requires 1 <= LeafCount(|b|) && QueueOk(u, LeafCount(|b|))
    ensures SpineQueue(h, b, 1, u) == u && Concat(TreeHashes(h, b, 1)) == []
  {
  }

  /** The hashes beside the path to leaf 0, and the first queue. */
  method WriteSpine(h: Scheme, b: seq<byte>, nodes: seq<Node>) returns (out: seq<byte>, queue: seq<nat>)
    requires nodes != [] && TreeOk(h, b, nodes)
    requires nodes[|nodes| - 1].start == 0 && nodes[|nodes| - 1].count == LeafCount(|b|) >= 1
    ensures WideQueue(nodes, queue)
    ensures QueueOk([], LeafCount(|b|)) && Items(nodes, queue) == SpineQueue(h, b, LeafCount(|b|), [])
    ensures out == Concat(TreeHashes(h, b, LeafCount(|b|)))
  {
    hide TreeHash, Enqueue, SpineQueue, TreeHashes, Concat, QueueOk, Split, LeafCount;
    var n := LeafCount(|b|);
    EmptyQueueOk(n);
    ghost var all, target := Concat(TreeHashes(h, b, n)), SpineQueue(h, b, n, []);
    out, queue := [], [];
    var cur: nat := |nodes| - 1;
    EmptyWide(nodes);
    assert NodeOk(h, b, nodes, cur);
    while nodes[cur].count > 1
      invariant cur < |nodes| && NodeOk(h, b, nodes, cur) && nodes[cur].start == 0
      invariant WideQueue(nodes, queue) && QueueOk(Items(nodes, queue), n)
      invariant SpineQueue(h, b, nodes[cur].count, Items(nodes, queue)) == target
      invariant out + Concat(TreeHashes(h, b, nodes[cur].count)) == all
      decreases nodes[cur].count
    {
      var right, left := nodes[cur].right, nodes[cur].left;
      assert NodeOk(h, b, nodes, right) && NodeOk(h, b, nodes, left);
      SpineStep(h, b, nodes[cur].count, Items(nodes, queue));
      ghost var tail := Concat(TreeHashes(h, b, nodes[left].count));
      assert out + (nodes[right].hash + tail) == out + nodes[right].hash + tail;
      out := out + nodes[right].hash;
      queue := EnqueueNode(nodes, queue, right);
      cur := left;
    }
    SpineEnd(h, b, Items(nodes, queue));
  }

  lemma EmptyWide(nodes: seq<Node>)
    ensures WideQueue(nodes, []) && Items(nodes, []) == []
  {
  }

  /** Write the children of the least unopened interval and queue them. */
  method OpenHead(h: Scheme, b: seq<byte>, nodes: seq<Node>, queue: seq<nat>) returns (out: seq<byte>, r: seq<nat>)
    requires TreeOk(h, b, nodes) && WideQueue(nodes, queue) && QueueOk(Items(nodes, queue), LeafCount(|b|))
    ensures WideQueue(nodes, r)
    ensures out == Disclosure(h, b, Items(nodes, queue))
    ensures Items(nodes, r) == NextQueue(h, b, Items(nodes, queue))
  {
    hide TreeHash, Enqueue;
    out, r := [], queue;
    if queue != [] {
      var p := nodes[queue[0]];
      ghost var u := Items(nodes, queue);
      assert NodeOk(h, b, nodes, queue[0]);
      assert NodeOk(h, b, nodes, p.left) && NodeOk(h, b, nodes, p.right);
      assert ItemOf(nodes, p.left) == LeftOf(h, b, u[0]) && ItemOf(nodes, p.right) == RightOf(h, b, u[0]);
      out := nodes[p.left].hash + nodes[p.right].hash;
      r := queue[1..];
      assert Items(nodes, r) == u[1..];
      r := EnqueueNode(nodes, r, p.left);
      r := EnqueueNode(nodes, r, p.right);
    }
  }

  /** The encoder's queue after the leaves i, i + 1, ..., n - 1 have been written. */
  ghost function FinalQueue(h: Scheme, b: seq<byte>, u: seq<Item>, i: nat): seq<Item>
    requires i <= LeafCount(|b|) && QueueOk(u, LeafCount(|b|))
    decreases LeafCount(|b|) - i
  {
    if i == LeafCount(|b|) then u else FinalQueue(h, b, NextQueue(h, b, u), i + 1)
  }

  lemma {:induction false} QueueCloses(h: Scheme, b: seq<byte>, q: Queues, t: seq<Item>, i: nat)
    requires i <= LeafCount(|b|) && Tracks(q, t, i, LeafCount(|b|), 0) && Authentic(h, b, t)
    ensures QueueOk(q.unopened, LeafCount(|b|)) && FinalQueue(h, b, q.unopened, i) == []
    decreases LeafCount(|b|) - i
  {
    hide Authentic, NextQueue, Disclosure, OpenNext, MatchLeaf, TreeHash, LeafCount;
    var n := LeafCount(|b|);
    TracksQueueOk(q, t, i, n);
    if i == n {
      EmptyTiling(t, n);
    } else {
      MatchLeafOpens(h, Leaf(b, i), q, t, i, n, []);
      HeadAuthentic(h, b, t);
      OpenNextForward(h, b, Taken(q), t[1..], i, []);
      var s := Disclosure(h, b, q.unopened) + [];
      OpenNextTracks(h, Taken(q), t[1..], i, n, s);
      QueueCloses(h, b, OpenNext(h, i, Taken(q), s).value.0, Opened(Taken(q), t[1..], s), i + 1);
    }
  }

  /** The branch that reports an unclosed frontier is never taken. */
  lemma {:induction false} SpineQueueCloses(h: Scheme, b: seq<byte>)
    requires b != []
    ensures QueueOk([], LeafCount(|b|))
    ensures FinalQueue(h, b, SpineQueue(h, b, LeafCount(|b|), []), 0) == []
  {
    hide Authentic, Tracks, SpineTiling, SpineQueue, TreeHash, FileSpine, TreeHashes, FinalQueue, LeftDepth;
    var n := LeafCount(|b|);
    EmptyQueueOk(n);
    var first, siblings := TreeHash(h, b, 0, 1), TreeHashes(h, b, n);
    InitialTracks(n, first, siblings);
    InitialAuthentic(h, b, n);
    SpineQueueIsFileSpine(h, b, Queues([], [Item(0, 1, first)]), n);
    QueueCloses(h, b, InitialQueues(n, first, siblings).value, InitialTiling(n, first, siblings), 0);
  }

  /** What is still to be written in the middle of a page, before leaf i. */
  ghost function InPage(h: Scheme, b: seq<byte>, pw: nat, u: seq<Item>, i: nat): seq<byte>
    requires i <= LeafCount(|b|) && QueueOk(u, LeafCount(|b|))
  {
    if i == LeafCount(|b|) then []
    else Leaf(b, i) + Disclosure(h, b, u) + EncodeLeaves(h, b, pw, NextQueue(h, b, u), i + 1)
  }

  lemma {:induction false} InPageStep(h: Scheme, b: seq<byte>, pw: nat, u: seq<Item>, i: nat)
    requires i <= LeafCount(|b|) && QueueOk(u, LeafCount(|b|))
    ensures i == LeafCount(|b|) ==> EncodeLeaves(h, b, pw, u, i) == InPage(h, b, pw, u, i) == []
                                    && FinalQueue(h, b, u, i) == u
    ensures i < LeafCount(|b|) ==>
              && EncodeLeaves(h, b, pw, u, i) == PageHeader(|b|, pw, i) + InPage(h, b, pw, u, i)
              && InPage(h, b, pw, u, i)
                  == Leaf(b, i) + (Disclosure(h, b, u) + EncodeLeaves(h, b, pw, NextQueue(h, b, u), i + 1))
              && FinalQueue(h, b, u, i) == FinalQueue(h, b, NextQueue(h, b, u), i + 1)
  {
    hide NextQueue, Disclosure, Leaf;
    if i < LeafCount(|b|) {
      var tail := EncodeLeaves(h, b, pw, NextQueue(h, b, u), i + 1);
      assert PageHeader(|b|, pw, i) + Leaf(b, i) + Disclosure(h, b, u) + tail
          == PageHeader(|b|, pw, i) + (Leaf(b, i) + Disclosure(h, b, u) + tail);
    }
  }

  /** Leaf and page arithmetic at the start of leaf i, `done` bytes into its page. */
  lemma {:induction false} LeafGeometry(len: nat, page: nat, pageLen: nat, i: nat)
    requires page % PAGE_LEAVES == 0 && page <= i && page * LEAF_BYTES < len
    requires pageLen == Min(len - page * LEAF_BYTES, PAGE_BYTES)
    requires (i - page) * LEAF_BYTES < pageLen
    ensures i < LeafCount(len) && LeafStart(len, i) == i * LEAF_BYTES
    ensures var seg := Min(pageLen - (i - page) * LEAF_BYTES, LEAF_BYTES);
            && seg == LeafStart(len, i + 1) - i * LEAF_BYTES
            && (seg == LEAF_BYTES || i * LEAF_BYTES + seg == len)
    ensures (i + 1 - page) * LEAF_BYTES < pageLen ==> (i + 1) % PAGE_LEAVES != 0
    ensures (i + 1 - page) * LEAF_BYTES >= pageLen ==> LeafStart(len, i + 1) == len || (i + 1) % PAGE_LEAVES == 0
  {
  }

  /** The page and leaf loops of the encoder. */
  method WriteLeaves(h: Scheme, b: seq<byte>, nodes: seq<Node>, first: seq<nat>, pw: nat)
    returns (out: seq<byte>, queue: seq<nat>)
    requires TreeOk(h, b, nodes) && WideQueue(nodes, first) && QueueOk(Items(nodes, first), LeafCount(|b|))
    ensures out == EncodeLeaves(h, b, pw, Items(nodes, first), 0)
    ensures WideQueue(nodes, queue) && Items(nodes, queue) == FinalQueue(h, b, Items(nodes, first), 0)
  {
    hide NextQueue, Disclosure, EncodeLeaves, InPage, FinalQueue, TreeHash, QueueOk, Items, NodeOk, LeafStart,
        LeafCount,
         TreeOk, LittleEndian;
    var n := LeafCount(|b|);
    NoLeaves(|b|);
    ghost var all := EncodeLeaves(h, b, pw, Items(nodes, first), 0);
    ghost var last := FinalQueue(h, b, Items(nodes, first), 0);
    out, queue := [], first;
    var payload := 0;
    ghost var i: nat := 0;
    while payload < |b|
      invariant i <= n && payload == LeafStart(|b|, i) && payload <= |b|
      invariant payload < |b| ==> i % PAGE_LEAVES == 0 && payload == i * LEAF_BYTES
      invariant payload == |b| <==> i == n
      invariant WideQueue(nodes, queue) && QueueOk(Items(nodes, queue), n)
      invariant out + EncodeLeaves(h, b, pw, Items(nodes, queue), i) == all
      invariant FinalQueue(h, b, Items(nodes, queue), i) == last
      decreases |b| - payload
    {
      var pageLen := Min(|b| - payload, PAGE_BYTES);
      InPageStep(h, b, pw, Items(nodes, queue), i);
      ghost var before, body := out, InPage(h, b, pw, Items(nodes, queue), i);
      var leaves;
      leaves, queue, i := WritePage(h, b, nodes, queue, pw, payload, pageLen, i);
      ghost var rest := EncodeLeaves(h, b, pw, Items(nodes, queue), i);
      out := out + LittleEndian(pageLen, pw) + leaves;
      assert before + (LittleEndian(pageLen, pw) + (leaves + rest)) == out + rest;
      payload := payload + pageLen;
    }
    InPageStep(h, b, pw, Items(nodes, queue), i);
    assert out + [] == out;
  }

  /** Where the payload stands after leaf `i` of the page. */
  lemma {:induction false} LeafAdvance(b: seq<byte>, len: nat, page: nat, pageLen: nat, i: nat, seg: nat)
    requires len == |b| && page % PAGE_LEAVES == 0 && page <= i && page * LEAF_BYTES < len
    requires pageLen == Min(len - page * LEAF_BYTES, PAGE_BYTES) && (i - page) * LEAF_BYTES < pageLen
    requires seg == Min(pageLen - (i - page) * LEAF_BYTES, LEAF_BYTES)
    ensures var end := i * LEAF_BYTES + seg;
            && 0 < seg && i < LeafCount(len) && LeafStart(len, i + 1) == end <= len && (seg == LEAF_BYTES || end == len)
            && (end == len <==> i + 1 == LeafCount(len)) && Leaf(b, i) == b[i * LEAF_BYTES..end]
            && (end < page * LEAF_BYTES + pageLen ==> end == (i + 1) * LEAF_BYTES && (i + 1) % PAGE_LEAVES != 0)
            && (end == page * LEAF_BYTES + pageLen ==>
                end == len || (end == (i + 1) * LEAF_BYTES && (i + 1) % PAGE_LEAVES == 0))
  {
    LeafGeometry(len, page, pageLen, i);
  }

  /** Inside a page no length field comes in between. */
  lemma {:induction false} NoField(h: Scheme, b: seq<byte>, pw: nat, u: seq<Item>, i: nat)
    requires i < LeafCount(|b|) && QueueOk(u, LeafCount(|b|)) && i % PAGE_LEAVES != 0
    ensures EncodeLeaves(h, b, pw, u, i) == InPage(h, b, pw, u, i)
  {
    hide EncodeLeaves, InPage, QueueOk;
    InPageStep(h, b, pw, u, i);
    assert PageHeader(|b|, pw, i) == [];
    assert [] + InPage(h, b, pw, u, i) == InPage(h, b, pw, u, i);
  }

  /** A leaf and its disclosure come next. */
  lemma {:induction false} LeafWritten(h: Scheme, b: seq<byte>, pw: nat, u: seq<Item>, i: nat, sofar: seq<byte>)
    requires i < LeafCount(|b|) && QueueOk(u, LeafCount(|b|))
    ensures sofar + InPage(h, b, pw, u, i)
            == sofar + Leaf(b, i) + Disclosure(h, b, u) + EncodeLeaves(h, b, pw, NextQueue(h, b, u), i + 1)
    ensures FinalQueue(h, b, u, i) == FinalQueue(h, b, NextQueue(h, b, u), i + 1)
  {
    hide NextQueue, Disclosure, EncodeLeaves, InPage, FinalQueue, Leaf, QueueOk;
    InPageStep(h, b, pw, u, i);
  }

  lemma NoLeaves(len: nat)
    ensures LeafStart(len, 0) == 0 && (LeafCount(len) == 0 <==> len == 0)
  {
  }

  /** The leaves of one page, and what they disclose. */
  method WritePage(h: Scheme, b: seq<byte>, nodes: seq<Node>, first: seq<nat>, pw: nat, start: nat, pageLen: nat,
                   ghost page: nat)
    returns (out: seq<byte>, queue: seq<nat>, ghost i: nat)
    requires TreeOk(h, b, nodes) && WideQueue(nodes, first) && QueueOk(Items(nodes, first), LeafCount(|b|))
    requires page < LeafCount(|b|) && page % PAGE_LEAVES == 0 && start == page * LEAF_BYTES < |b|
    requires pageLen == Min(|b| - start, PAGE_BYTES)
    ensures page < i <= LeafCount(|b|) && LeafStart(|b|, i) == start + pageLen
    ensures start + pageLen == |b| <==> i == LeafCount(|b|)
    ensures start + pageLen < |b| ==> i % PAGE_LEAVES == 0 && start + pageLen == i * LEAF_BYTES
    ensures WideQueue(nodes, queue) && QueueOk(Items(nodes, queue), LeafCount(|b|))
    ensures InPage(h, b, pw, Items(nodes, first), page) == out + EncodeLeaves(h, b, pw, Items(nodes, queue), i)
    ensures FinalQueue(h, b, Items(nodes, queue), i) == FinalQueue(h, b, Items(nodes, first), page)
  {
    hide NextQueue, Disclosure, EncodeLeaves, InPage, FinalQueue, TreeHash, QueueOk, Items, NodeOk, LeafStart,
        LeafCount,
         Leaf, TreeOk;
    var n := LeafCount(|b|);
    ghost var all := InPage(h, b, pw, Items(nodes, first), page);
    ghost var last := FinalQueue(h, b, Items(nodes, first), page);
    out, queue, i := [], first, page;
    var payload, leaf, inPage := start, 0, 0;
    assert out + all == all;
    while inPage < pageLen
      invariant page <= i <= n && leaf == 0 && inPage <= pageLen && payload == start + inPage <= |b|
      invariant inPage > 0 ==> i > page && payload == LeafStart(|b|, i) && (payload == |b| <==> i == n)
      invariant inPage < pageLen ==> payload == i * LEAF_BYTES && i < n
      invariant inPage == pageLen ==> payload == |b| || (i % PAGE_LEAVES == 0 && payload == i * LEAF_BYTES)
      invariant WideQueue(nodes, queue) && QueueOk(Items(nodes, queue), n)
      invariant inPage < pageLen ==> out + InPage(h, b, pw, Items(nodes, queue), i) == all
      invariant inPage == pageLen ==> out + EncodeLeaves(h, b, pw, Items(nodes, queue), i) == all
      invariant FinalQueue(h, b, Items(nodes, queue), i) == last
      decreases pageLen - inPage
    {
      var leafRem := LEAF_BYTES - leaf;
      var seg := Min(pageLen - inPage, leafRem);
      LeafAdvance(b, |b|, page, pageLen, i, seg);
      LeafWritten(h, b, pw, Items(nodes, queue), i, out);
      out := out + b[payload..payload + seg];
      payload, inPage, leaf := payload + seg, inPage + seg, leaf + seg;
      if leaf == LEAF_BYTES || payload == |b| {
        leaf := 0;
        var d;
        d, queue := OpenHead(h, b, nodes, queue);
        out := out + d;
      }
      i := i + 1;
      if inPage < pageLen {
        NoField(h, b, pw, Items(nodes, queue), i);
      }
    }
  }

  /** encode_mnat: the stream of the specification, and the frontier closed. */
  method EncodeStream(h: Scheme, b: seq<byte>) returns (closed: bool, out: seq<byte>)
    requires b != []
    ensures closed
    ensures out == EncodeMnat(h, b)
  {
    hide TreeHash, TreeHashes, EncodeLeaves, FinalQueue, SpineQueue, Concat, EncodeHeader, Width;
    var n := LeafCount(|b|);
    var nodes := BuildTree(h, b, [], 0, n);
    assert NodeOk(h, b, nodes, 0) && NodeOk(h, b, nodes, |nodes| - 1);
    var bits := BitLength(b);
    PageWidthSmall(|b|);
    var pw := Width(MaxPage(|b|));
    var root := h.root(bits, nodes[|nodes| - 1].hash);
    out := [0xf9] + EncodeHeader(bits, pw, root);
    var spine, queue := WriteSpine(h, b, nodes);
    ghost var first := queue;
    var leaves;
    leaves, queue := WriteLeaves(h, b, nodes, queue, pw);
    SpineQueueCloses(h, b);
    closed := queue == [];
    ConcatFirst(nodes[0].hash, TreeHashes(h, b, n));
    var body := nodes[0].hash + spine + leaves;
    out := out + body;
  }

  lemma ConcatFirst(first: Hash, hs: seq<Hash>)
    ensures Concat([first] + hs) == first + Concat(hs)
  {
    assert ([first] + hs)[1..] == hs;
  }
}
