/**
  Building byte trees (pkg/plan/src/bat.c:198-267): bounded chunks, joined
  pairwise in place until one balanced tree is left, which opens and reads back
  as the bytes it was built from.
 */
module BatBuild {
  import opened Basics
  import opened Bytes
  import opened Bat
  import opened BatCursor
  import opened Frontier

  const CHUNK_BYTES: nat := 0x10_0000

  /** A wrapper that states its own length, opens without excess and means `m`. */
  ghost predicate Whole(v: Val, m: seq<byte>) {
    Means(v) == Some(m) && Peak(v) == |m| && v.App? && |v.args| == 3 && v.args[1] == Num(|m|)
  }

  function Wrapped(len: nat, v: Val): (r: Val) {
    App(Num(0), [TAG_BAT, Num(len), v])
  }

  function Chunk(b: seq<byte>): (v: Val) {
    Wrapped(|b|, App(Num(0), [TAG_SLICE, Pin(Num(FromLittleEndian(b))), Num(0), Num(|b|)]))
  }

  lemma {:induction false} ChunkMeans(b: seq<byte>)
    requires |b| < U64
    ensures Whole(Chunk(b), b)
  {
    var leaf := App(Num(0), [TAG_SLICE, Pin(Num(FromLittleEndian(b))), Num(0), Num(|b|)]);
    assert ShapeOf(leaf) == Window(FromLittleEndian(b), 0, |b|);
    assert ShapeOf(Chunk(b)) == Check(|b|, leaf);
    SliceOfBytes(b);
  }

  /** The lengths are read off the two wrappers. */
  function Join(l: Val, r: Val): (v: Val)
    requires l.App? && |l.args| == 3 && IsSize(l.args[1]) && r.App? && |r.args| == 3 && IsSize(r.args[1])
  {
    Wrapped(l.args[1].n + r.args[1].n, App(Num(0), [TAG_CAT, l, r]))
  }

  lemma {:induction false} JoinMeans(l: Val, r: Val, a: seq<byte>, b: seq<byte>)
    requires Whole(l, a) && Whole(r, b) && |a| + |b| < U64
    ensures Whole(Join(l, r), a + b)
  {
    var cat := App(Num(0), [TAG_CAT, l, r]);
    assert ShapeOf(cat) == Cat(l, r);
    assert ShapeOf(Join(l, r)) == Check(|a + b|, cat);
  }

  function Flat<X>(parts: seq<seq<X>>): (r: seq<X>) {
    if parts == [] then [] else Flat(parts[..|parts| - 1]) + parts[|parts| - 1]
  }

  lemma FlatOne<X>(parts: seq<seq<X>>, p: seq<X>)
    ensures Flat(parts + [p]) == Flat(parts) + p
  {
    assert (parts + [p])[..|parts|] == parts;
  }

  lemma {:induction false} FlatAppend<X>(a: seq<seq<X>>, b: seq<seq<X>>)
    ensures Flat(a + b) == Flat(a) + Flat(b)
    decreases |b|
  {
    if b == [] {
      assert a + b == a;
    } else {
      var front := b[..|b| - 1];
      assert a + b == (a + front) + [b[|b| - 1]];
      FlatOne(a + front, b[|b| - 1]);
      FlatAppend(a, front);
    }
  }

  lemma FlatSingle<X>(p: seq<X>)
    ensures Flat([p]) == p && Flat<X>([]) == []
  {
    FlatOne([], p);
  }

  // ---------------------------------------------------------------- the tree that is built

  /** Chunks of 1 MiB but for the last, and one empty chunk for no bytes at all. */
  function Pieces(b: seq<byte>): (r: seq<seq<byte>>)
    ensures r != [] && forall i :: 0 <= i < |r| ==> |r[i]| <= 0x10_0000 && (i < |r| - 1 ==> |r[i]| == 0x10_0000)
    ensures b != [] ==> r[|r| - 1] != []
    decreases |b|
  {
    if |b| <= CHUNK_BYTES then [b] else [b[..CHUNK_BYTES]] + Pieces(b[CHUNK_BYTES..])
  }

  lemma {:induction false} PiecesFlat(b: seq<byte>)
    ensures Flat(Pieces(b)) == b
    decreases |b|
  {
    FlatSingle(b);
    if |b| > CHUNK_BYTES {
      PiecesFlat(b[CHUNK_BYTES..]);
      FlatAppend([b[..CHUNK_BYTES]], Pieces(b[CHUNK_BYTES..]));
      FlatSingle(b[..CHUNK_BYTES]);
    }
  }

  /** The balanced tree over some chunks: as many as the largest power of two leaves room
      for go left. */
  function Balanced(parts: seq<seq<byte>>): (v: Val)
    requires parts != []
    decreases |parts|
  {
    if |parts| == 1 then Chunk(parts[0])
    else
      var k := Split(|parts|);
      Wrapped(|Flat(parts)|, App(Num(0), [TAG_CAT, Balanced(parts[..k]), Balanced(parts[k..])]))
  }

  lemma {:induction false} BalancedMeans(parts: seq<seq<byte>>)
    requires parts != [] && |Flat(parts)| < U64
    ensures Whole(Balanced(parts), Flat(parts))
    decreases |parts|
  {
    hide Whole, Flat, Split, Chunk;
    if |parts| == 1 {
      FlatSingle(parts[0]);
      assert parts == [parts[0]];
      ChunkMeans(parts[0]);
    } else {
      var k := Split(|parts|);
      assert parts[..k] + parts[k..] == parts;
      FlatAppend(parts[..k], parts[k..]);
      BalancedMeans(parts[..k]);
      BalancedMeans(parts[k..]);
      JoinFits(Balanced(parts[..k]), Balanced(parts[k..]), Flat(parts[..k]), Flat(parts[k..]));
    }
  }

  lemma BalancedUnfold(parts: seq<seq<byte>>)
    requires |parts| > 1
    ensures var k := Split(|parts|);
            Balanced(parts)
                == Wrapped(|Flat(parts)|, App(Num(0), [TAG_CAT, Balanced(parts[..k]), Balanced(parts[k..])]))
  {
  }

  /** A full tree joined with one that is no larger. */
  lemma {:induction false} BalancedJoin(a: seq<seq<byte>>, b: seq<seq<byte>>)
    requires PowerOfTwo(|a|) && 1 <= |b| <= |a| && |Flat(a + b)| < U64
    ensures var l, r := Balanced(a), Balanced(b);
            && l.App? && |l.args| == 3 && IsSize(l.args[1]) && r.App? && |r.args| == 3 && IsSize(r.args[1])
            && Balanced(a + b) == Join(l, r)
  {
    hide Whole, Flat, Balanced, PowerOfTwo;
    SplitIs(|a|, |a| + |b|);
    assert (a + b)[..|a|] == a && (a + b)[|a|..] == b;
    BalancedUnfold(a + b);
    FlatAppend(a, b);
    BalancedMeans(a);
    BalancedMeans(b);
    JoinFits(Balanced(a), Balanced(b), Flat(a), Flat(b));
  }

  lemma JoinFits(l: Val, r: Val, a: seq<byte>, b: seq<byte>)
    requires Whole(l, a) && Whole(r, b) && |a| + |b| < U64
    ensures l.App? && |l.args| == 3 && IsSize(l.args[1]) && r.App? && |r.args| == 3 && IsSize(r.args[1])
    ensures l.args[1].n == |a| && r.args[1].n == |b| && Whole(Join(l, r), a + b)
  {
    JoinMeans(l, r, a, b);
  }

  // -------------------------------------------------------------------------- the passes

  /** The stack between two passes: the trees of `w` chunks each, but for the last. */
  ghost predicate Row(stack: seq<Val>, groups: seq<seq<seq<byte>>>, w: nat) {
    PowerOfTwo(w) && |stack| == |groups| && forall i :: 0 <= i < |stack| ==>
        Grouped(stack[i], groups[i], w, i == |stack| - 1)
  }

  ghost predicate Grouped(v: Val, group: seq<seq<byte>>, w: nat, last: bool) {
    1 <= |group| <= w && (!last ==> |group| == w) && v == Balanced(group)
  }

  /** One pass over the stack: neighbours are joined, an odd one is kept. */
  method JoinPairs(stack0: seq<Val>, ghost groups0: seq<seq<seq<byte>>>, ghost w: nat)
                   returns (stack: seq<Val>, ghost groups: seq<seq<seq<byte>>>)
    requires Row(stack0, groups0, w) && |stack0| > 1 && |Flat(Flat(groups0))| < U64
    ensures Row(stack, groups, 2 * w) && Flat(groups) == Flat(groups0) && 0 < |stack| < |stack0|
  {
    hide Flat, Balanced;
    var vals, dst, i := stack0, 0, 0;
    groups := [];
    FlatSingle<seq<byte>>([]);
    while i < |stack0|
      invariant 0 <= dst && dst == (i + 1) / 2 && 0 <= i <= |stack0| + 1 && |vals| == |stack0| && |groups| == dst
                && (i % 2 == 0)
      invariant forall k :: i <= k < |stack0| ==> vals[k] == stack0[k]
      invariant forall k :: 0 <= k < dst ==> Grouped(vals[k], groups[k], 2 * w, i >= |stack0| && k == dst - 1)
      invariant Flat(groups) == Flat(groups0[..if i <= |stack0| then i else |stack0|])
    {
      var v := vals[i];
      ghost var group := groups0[i];
      assert Grouped(stack0[i], groups0[i], w, i == |stack0| - 1);
      FlatUpTo(groups0, i);
      if i + 1 < |stack0| {
        assert Grouped(stack0[i + 1], groups0[i + 1], w, i + 1 == |stack0| - 1);
        FlatUpTo(groups0, i + 1);
        PairFits(groups0, i);
        BalancedJoin(groups0[i], groups0[i + 1]);
        group := groups0[i] + groups0[i + 1];
        v := Join(v, vals[i + 1]);
      }
      FlatOne(groups, group);
      assert Flat(groups0[..i]) + group == Flat(groups0[..if i + 2 <= |stack0| then i + 2 else |stack0|]);
      vals := vals[dst := v];
      dst := dst + 1;
      groups := groups + [group];
      i := i + 2;
    }
    assert groups0[..|stack0|] == groups0;
    stack := vals[..dst];
  }

  lemma {:induction false} FlatUpTo<X>(parts: seq<seq<X>>, i: nat)
    requires i < |parts|
    ensures Flat(parts[..i + 1]) == Flat(parts[..i]) + parts[i]
  {
    assert parts[..i + 1] == parts[..i] + [parts[i]];
    FlatOne(parts[..i], parts[i]);
  }

  lemma {:induction false} PairFits(groups: seq<seq<seq<byte>>>, i: nat)
    requires i + 1 < |groups|
    ensures |Flat(groups[i] + groups[i + 1])| <= |Flat(Flat(groups))|
  {
    hide Flat;
    var two := groups[i] + groups[i + 1];
    FlatUpTo(groups, i);
    FlatUpTo(groups, i + 1);
    assert groups[..i + 2] + groups[i + 2..] == groups;
    FlatAppend(groups[..i + 2], groups[i + 2..]);
    assert Flat(groups) == (Flat(groups[..i]) + two) + Flat(groups[i + 2..]);
    FlatAppend(Flat(groups[..i]) + two, Flat(groups[i + 2..]));
    FlatAppend(Flat(groups[..i]), two);
  }

  /** The chunks so far, and what they leave of the bytes. */
  ghost predicate Cut(bytes: seq<byte>, at: nat, parts: seq<seq<byte>>) {
    at <= |bytes| && Pieces(bytes) == parts + if at == |bytes| && parts != [] then [] else Pieces(bytes[at..])
  }

  lemma {:induction false} CutNext(bytes: seq<byte>, at: nat, n: nat, parts: seq<seq<byte>>)
    requires Cut(bytes, at, parts) && (at < |bytes| || parts == [])
    requires n == if |bytes| - at < CHUNK_BYTES then |bytes| - at else CHUNK_BYTES
    ensures Cut(bytes, at + n, parts + [bytes[at..at + n]])
  {
    hide Pieces;
    NextPiece(bytes, at, n);
  }

  lemma CutAtStart(bytes: seq<byte>)
    ensures Cut(bytes, 0, [])
  {
    hide Pieces;
    assert bytes[0..] == bytes;
  }

  /** The first loop of pl_bat_from_bytes: the chunks in order. */
  method PushChunks(bytes: seq<byte>) returns (stack: seq<Val>)
    ensures |stack| == |Pieces(bytes)| && forall i :: 0 <= i < |stack| ==> stack[i] == Chunk(Pieces(bytes)[i])
  {
    hide Pieces, Chunk, Cut;
    stack := [];
    ghost var parts: seq<seq<byte>> := [];
    var at := 0;
    CutAtStart(bytes);
    while at < |bytes| || stack == []
      invariant 0 <= at <= |bytes| && Cut(bytes, at, parts) && |parts| == |stack|
      invariant forall i :: 0 <= i < |stack| ==> stack[i] == Chunk(parts[i])
      decreases |bytes| - at, stack == []
    {
      var n := if |bytes| - at < CHUNK_BYTES then |bytes| - at else CHUNK_BYTES;
      CutNext(bytes, at, n, parts);
      stack, parts := stack + [Chunk(bytes[at..at + n])], parts + [bytes[at..at + n]];
      at := at + n;
    }
    CutAll(bytes, parts);
  }

  lemma CutAll(bytes: seq<byte>, parts: seq<seq<byte>>)
    requires Cut(bytes, |bytes|, parts) && parts != []
    ensures parts == Pieces(bytes)
  {
    hide Pieces;
  }

  /** pl_bat_from_bytes. */
  method FromBytes(bytes: seq<byte>) returns (tree: Val)
    requires |bytes| < U64
    ensures Whole(tree, bytes) && tree == Balanced(Pieces(bytes))
  {
    hide Whole, Flat, Balanced, Pieces, Chunk, Grouped, PowerOfTwo;
    var stack := PushChunks(bytes);
    ghost var parts := Pieces(bytes);
    ghost var groups, w: nat := Singly(parts), 1;
    PiecesFlat(bytes);
    BalancedMeans(parts);
    BalancedOnes(stack, parts);
    while |stack| > 1
      invariant Row(stack, groups, w) && Flat(groups) == parts && stack != []
      decreases |stack|
    {
      stack, groups := JoinPairs(stack, groups, w);
      w := 2 * w;
    }
    OneLeft(stack, groups, w);
    tree := stack[0];
  }

  lemma OneLeft(stack: seq<Val>, groups: seq<seq<seq<byte>>>, w: nat)
    requires Row(stack, groups, w) && |stack| == 1
    ensures Flat(groups) != [] && stack[0] == Balanced(Flat(groups))
  {
    hide Balanced;
    assert Grouped(stack[0], groups[0], w, true);
    assert groups == [groups[0]];
    FlatSingle(groups[0]);
  }

  /** Each chunk on its own. */
  ghost function Singly(parts: seq<seq<byte>>): (r: seq<seq<seq<byte>>>)
    ensures |r| == |parts| && forall i :: 0 <= i < |r| ==> r[i] == [parts[i]]
  {
    seq(|parts|, i requires 0 <= i < |parts| => [parts[i]])
  }

  lemma {:induction false} SinglyFlat(parts: seq<seq<byte>>)
    ensures Flat(Singly(parts)) == parts
    decreases |parts|
  {
    if parts != [] {
      var front := parts[..|parts| - 1];
      SinglyFlat(front);
      assert Singly(parts) == Singly(front) + [[parts[|parts| - 1]]];
      FlatOne(Singly(front), [parts[|parts| - 1]]);
    }
  }

  lemma {:induction false} BalancedOnes(stack: seq<Val>, parts: seq<seq<byte>>)
    requires |stack| == |parts| && forall i :: 0 <= i < |stack| ==> stack[i] == Chunk(parts[i])
    ensures Row(stack, Singly(parts), 1) && Flat(Singly(parts)) == parts
  {
    SinglyFlat(parts);
    forall i | 0 <= i < |stack| ensures Grouped(stack[i], Singly(parts)[i], 1, i == |stack| - 1) {
      assert Balanced([parts[i]]) == Chunk(parts[i]);
    }
  }

  lemma {:induction false} NextPiece(bytes: seq<byte>, at: nat, n: nat)
    requires at <= |bytes| && n == if |bytes| - at < CHUNK_BYTES then |bytes| - at else CHUNK_BYTES
    ensures Pieces(bytes[at..]) == [bytes[at..at + n]] + if at + n == |bytes| then [] else Pieces(bytes[at + n..])
  {
    if at + n < |bytes| {
      assert bytes[at..][..n] == bytes[at..at + n] && bytes[at..][n..] == bytes[at + n..];
    } else {
      assert bytes[at..] == bytes[at..at + n];
    }
  }

  /** Main result: any bytes, trailing zeros included, survive building, opening
      and reading any part back. */
  method RoundTrip(bytes: seq<byte>, offset: nat, size: nat) returns (got: seq<byte>)
    requires |bytes| < U64 && offset + size <= |bytes|
    ensures got == bytes[offset..offset + size]
  {
    hide Spread, Solid, Means, Peak, ShapeOf;
    var tree := FromBytes(bytes);
    assert Opens(tree, 0);
    var c := new Cursor();
    var ok := c.Open(tree);
    ok := c.Seek(offset);
    var out := new byte[size];
    var n := c.Read(out, size);
    got := out[..n];
  }
}
