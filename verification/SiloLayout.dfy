/**
  The Silo wire format in numbers (pkg/plan/src/silo.c:40-62, 277-522): which opcode and
  which bytes every kind of node is written with. Content addresses depend on each of
  these, which no round trip can see.
 */
module SiloLayout {
  import opened Basics
  import opened Bytes
  import opened Frontier
  import opened Mnat
  import opened Silo

  // ------------------------------------------------------------------------ scalars

  function Pow256(k: nat): (r: nat)
    ensures r >= 1
  {
    if k == 0 then 1 else 256 * Pow256(k - 1)
  }

  /** A scalar without its lowest `i` bytes. */
  function Shifted(v: nat, i: nat): (r: nat) {
    if i == 0 then v else Shifted(v, i - 1) / 256
  }

  /** Byte i of a scalar is the lowest one left after i bytes. */
  lemma {:induction false} ScalarDigits(v: nat, width: nat, i: nat)
    requires i < width
    ensures LittleEndian(v, width)[i] == Shifted(v, i) % 256
    decreases i
  {
    if i > 0 {
      ScalarDigits(v / 256, width - 1, i - 1);
      ShiftedOnce(v, i - 1);
    }
  }

  lemma {:induction false} ShiftedOnce(v: nat, i: nat)
    ensures Shifted(v / 256, i) == Shifted(v, i + 1)
    decreases i
  {
    if i > 0 {
      ShiftedOnce(v, i - 1);
    }
  }

  /** A width is the number of bytes needed, and one for zero. */
  lemma {:induction false} WidthLaw(v: nat, k: nat)
    requires k > 0
    ensures Width(v) <= k <==> v < Pow256(k)
    decreases k
  {
    assert Pow256(k) == 256 * Pow256(k - 1);
    if k > 1 && v >= 256 {
      WidthLaw(v / 256, k - 1);
    }
  }

  lemma SmallWidths(v: nat)
    ensures (Width(v) == 1 <==> v < 0x100) && (Width(v) == 2 <==> 0x100 <= v < 0x1_0000)
    ensures Width(v) == 3 <==> 0x1_0000 <= v < 0x100_0000
  {
    WidthLaw(v, 1);
    WidthLaw(v, 2);
    WidthLaw(v, 3);
    assert Pow256(1) == 0x100 && Pow256(2) == 0x1_0000 && Pow256(3) == 0x100_0000;
  }

  lemma TwoBytes(v: nat)
    ensures LittleEndian(v, 1) == [v % 256] && LittleEndian(v, 2) == [v % 256, v / 256 % 256]
  {
    assert LittleEndian(v / 256, 1) == [v / 256 % 256] + LittleEndian(v / 256 / 256, 0);
  }

  // ----------------------------------------------------------------------- naturals

  /** Every natural's form: one byte up to 63, then its bytes behind their count, then
      behind a counted length up to 8192 bytes, and pages above. */
  lemma {:induction false} NatLayout(h: Scheme, b: seq<byte>)
    requires Normal(b)
    ensures b == [] ==> EncodeNat(h, b) == [0x80]
    ensures |b| == 1 && b[0] <= 63 ==> EncodeNat(h, b) == [0x80 + b[0]]
    ensures (|b| == 1 && b[0] > 63) || 2 <= |b| <= 31 ==> EncodeNat(h, b) == [0xc0 + |b|] + b
    ensures 32 <= |b| <= 255 ==> EncodeNat(h, b) == [0xe1, |b|] + b
    ensures 256 <= |b| <= 8192 ==> EncodeNat(h, b) == [0xe2, |b| % 256, |b| / 256] + b
    ensures |b| > 8192 ==> EncodeNat(h, b) == EncodeMnat(h, b)
  {
    hide EncodeMnat;
    SmallWidths(|b|);
    TwoBytes(|b|);
  }

  /** The opcode tells the form, exactly. */
  lemma {:induction false} NatOpcodes(h: Scheme, b: seq<byte>)
    requires Normal(b)
    ensures EncodeNat(h, b) != []
    ensures var op := EncodeNat(h, b)[0];
            && (0x80 <= op <= 0xbf <==> b == [] || (|b| == 1 && b[0] <= 63))
            && (0xc1 <= op <= 0xdf <==> (|b| == 1 && b[0] > 63) || 2 <= |b| <= 31)
            && (0xe1 <= op <= 0xe2 <==> 32 <= |b| <= 8192) && (op == 0xf9 <==> |b| > 8192)
  {
    NatLayout(h, b);
    if |b| > 8192 {
      PagedHead(h, b);
    }
  }

  // ----------------------------------------------------------------- paged naturals

  /** The head of a paged natural: opcode, no flags, the two widths less one, the bit
      length, the root over that length and the tree, and the hash of the first leaf. */
  lemma {:induction false} PagedHead(h: Scheme, b: seq<byte>)
    requires Normal(b) && |b| > 8192
    ensures var bits := 8 * (|b| - 1) + Bits(b[|b| - 1]);
            var lw, pw := Width(bits), if |b| < 65536 then 2 else 3;
            var root := h.root(bits, TreeHash(h, b, 0, LeafCount(|b|)));
            EncodeMnat(h, b) == [0xf9, 0, (lw - 1) % 256, pw - 1] + LittleEndian(bits, lw) + root + EncodeBody(h, b)
    ensures var first := h.leaf(0, b[..1024]); |EncodeBody(h, b)| >= 32 && EncodeBody(h, b)[..32] == first
  {
    hide TreeHashes, EncodeLeaves, SpineQueue, TreeHash, EncodeBody, LittleEndian;
    SmallWidths(MaxPage(|b|));
    BodyFirst(h, b);
  }

  lemma {:induction false} BodyFirst(h: Scheme, b: seq<byte>)
    requires |b| > 8192
    ensures |EncodeBody(h, b)| >= 32 && EncodeBody(h, b)[..32] == h.leaf(0, b[..1024])
  {
    hide TreeHashes, EncodeLeaves, SpineQueue, LittleEndian;
    var first := TreeHash(h, b, 0, 1);
    assert Leaf(b, 0) == b[..1024];
    var hs := [first] + TreeHashes(h, b, LeafCount(|b|));
    assert Concat(hs) == first + Concat(hs[1..]);
  }

  /** The bits of a byte: its highest one bit, counted from one. */
  lemma {:induction false} TopBit(b: nat, k: nat)
    requires Pow2(k) <= b < Pow2(k + 1)
    ensures Bits(b) == k + 1
    decreases k
  {
    if k > 0 {
      TopBit(b / 2, k - 1);
    }
  }

  /** Leaves are 1024 bytes, the last one what is left. */
  lemma {:induction false} LeafLaw(b: seq<byte>, i: nat)
    requires 1024 * i < |b|
    ensures i < LeafCount(|b|) && Leaf(b, i) == b[1024 * i..if 1024 * (i + 1) < |b| then 1024 * (i + 1) else |b|]
    ensures i + 1 == LeafCount(|b|) <==> |b| <= 1024 * (i + 1)
  {
  }

  /** A leaf hashes its index and its bytes. */
  lemma LeafHashLaw(h: Scheme, b: seq<byte>, i: nat)
    requires 1024 * i < |b|
    ensures i < LeafCount(|b|)
    ensures TreeHash(h, b, i, 1) == h.leaf(i, b[1024 * i..if 1024 * (i + 1) < |b| then 1024 * (i + 1) else |b|])
  {
    hide Leaf, LeafCount;
    LeafLaw(b, i);
  }

  /** A node hashes its interval and its halves; the left one holds the largest power
      of two of leaves that leaves something for the right. */
  lemma {:induction false} NodeHashLaw(h: Scheme, b: seq<byte>, start: nat, count: nat, e: nat)
    requires Pow2(e) < count <= 2 * Pow2(e) && start + count <= LeafCount(|b|)
    ensures TreeHash(h, b, start, count)
            == h.node(start, count, TreeHash(h, b, start, Pow2(e)), TreeHash(h, b, start + Pow2(e), count - Pow2(e)))
  {
    hide Leaf, LeafCount, Pow2, Split;
    SplitLaw(count, e);
  }

  lemma {:induction false} SplitLaw(count: nat, e: nat)
    requires Pow2(e) < count <= 2 * Pow2(e)
    ensures Split(count) == Pow2(e)
  {
    PowIsPower(e);
    SplitIs(Pow2(e), count);
  }

  lemma {:induction false} PowIsPower(e: nat)
    ensures PowerOfTwo(Pow2(e))
    decreases e
  {
    if e > 0 {
      PowIsPower(e - 1);
    }
  }

  /** What is written for leaf `i`: a page length every 64 leaves, the leaf, and the two
      hashes under the first interval still unopened. */
  lemma {:induction false} LeafRecordLaw(h: Scheme, b: seq<byte>, pw: nat, u: seq<Item>, i: nat)
    requires 1024 * i < |b| && i < LeafCount(|b|) && QueueOk(u, LeafCount(|b|))
    ensures var page := if |b| - 1024 * i < 65536 then |b| - 1024 * i else 65536;
            var field := if i % 64 == 0 then LittleEndian(page, pw) else [];
            var shown := if u == [] then [] else
                            var k := Split(u[0].count);
                            TreeHash(h, b, u[0].start, k) + TreeHash(h, b, u[0].start + k, u[0].count - k);
            LeafRecord(h, b, pw, u, i) == field + Leaf(b, i) + shown
  {
    hide TreeHash, LittleEndian, Leaf;
  }

  /** The leaves follow each other, each disclosure moving the queue of unopened
      intervals: the first leaves it, and halves of more than one leaf enter it. */
  lemma {:induction false} LeavesLaw(h: Scheme, b: seq<byte>, pw: nat, u: seq<Item>, i: nat)
    requires i <= LeafCount(|b|) && QueueOk(u, LeafCount(|b|))
    ensures i == LeafCount(|b|) ==> EncodeLeaves(h, b, pw, u, i) == []
    ensures i < LeafCount(|b|) ==>
              EncodeLeaves(h, b, pw, u, i)
                  == LeafRecord(h, b, pw, u, i) + EncodeLeaves(h, b, pw, NextQueue(h, b, u), i + 1)
    ensures forall x: Item :: x in NextQueue(h, b, u) <==>
              u != [] && (x in u[1..] || (x.count > 1 && (x == LeftOf(h, b, u[0]) || x == RightOf(h, b, u[0]))))
  {
    hide LeafRecord, TreeHash;
    if u != [] {
      var l, r := LeftOf(h, b, u[0]), RightOf(h, b, u[0]);
      EnqueueMembers(u[1..], l);
      EnqueueMembers(Enqueue(u[1..], l), r);
    }
  }

  lemma EnqueueMembers(u: seq<Item>, x: Item)
    ensures forall y :: y in Enqueue(u, x) <==> y in u || (x.count > 1 && y == x)
  {
    InsertMembers(u, x);
  }

  lemma {:induction false} InsertMembers(u: seq<Item>, x: Item)
    ensures forall y :: y in QueueInsert(u, x) <==> y in u || y == x
    decreases |u|
  {
    if u != [] && u[0].start < x.start {
      var rest := QueueInsert(u[1..], x);
      InsertMembers(u[1..], x);
      assert QueueInsert(u, x) == [u[0]] + rest;
      forall y ensures y in [u[0]] + rest <==> y in u || y == x {
        assert u == [u[0]] + u[1..];
      }
    } else {
      assert QueueInsert(u, x) == [x] + u;
    }
  }

  // ---------------------------------------------------------- laws, pins, applications

  /** An arity is written as a small natural, and must be one of 63 bits above zero. */
  lemma {:induction false} ArityLayout(arity: nat)
    ensures 1 <= arity <= 63 ==> EncodeArity(arity) == Some([0x80 + arity])
    ensures 64 <= arity <= 0x7fff_ffff_ffff_ffff ==>
              Width(arity) <= 8 && EncodeArity(arity) == Some([0xc0 + Width(arity)] + LittleEndian(arity, Width(arity)))
    ensures EncodeArity(arity) == None <==> arity == 0 || arity > 0x7fff_ffff_ffff_ffff
  {
    hide LittleEndian, Width;
    if 64 <= arity <= 0x7fff_ffff_ffff_ffff {
      ScalarWidthSmall(arity);
    }
  }

  /** A law: 0xf0, its name, its arity, its body. */
  lemma {:induction false} LawLayout(c: Encoder, arity: nat, name: Val, body: Val, depth: nat)
    requires depth <= 4096 && EncodeNode(c, name, depth + 1).Some? && EncodeNode(c, body, depth + 1).Some?
    requires EncodeArity(arity).Some?
    ensures EncodeNode(c, Law(arity, name, body), depth)
            == Some([0xf0] + EncodeNode(c, name, depth + 1).value + EncodeArity(arity).value
                + EncodeNode(c, body, depth + 1).value)
  {
    hide EncodeNode, EncodeArity;
    LawParts(c, arity, name, body, depth);
  }

  lemma LawParts(c: Encoder, arity: nat, name: Val, body: Val, depth: nat)
    requires depth <= 4096
    ensures EncodeNode(c, Law(arity, name, body), depth)
            == Append(Append(Append(Some([0xf0]), EncodeNode(c, name, depth + 1)), EncodeArity(arity)),
                      EncodeNode(c, body, depth + 1))
  {
    hide EncodeArity, Append, EncodeNat, EncodePin, IndexOf, EncodeSpine;
  }

  /** A pin: its place in the table, behind 0xf0 and the width of that. */
  lemma {:induction false} PinLayout(c: Encoder, i: nat, depth: nat)
    requires i < |c.pins| && Distinct(c.pins) && depth <= 4096
    ensures i < 0x100 ==> EncodeNode(c, Pin(c.pins[i]), depth) == Some([0xf1, i])
    ensures 0x100 <= i < 0x1_0000 ==> EncodeNode(c, Pin(c.pins[i]), depth) == Some([0xf2, i % 256, i / 256])
    ensures 0x1_0000 <= i < 0x100_0000 ==> EncodeNode(c, Pin(c.pins[i]), depth) == Some([0xf3] + LittleEndian(i, 3))
  {
    hide LittleEndian, Width, IndexOf;
    IndexHere(c.pins, i);
    SmallWidths(i);
    TwoBytes(i);
    if i < 0x1_0000 {
      assert [0xf1] + [i % 256] == [0xf1, i % 256] && [0xf2] + [i % 256, i / 256] == [0xf2, i % 256, i / 256];
    }
  }

  lemma {:induction false} IndexHere(pins: seq<Hash>, i: nat)
    requires i < |pins| && Distinct(pins)
    ensures IndexOf(pins, pins[i]) == Some(i)
    decreases i
  {
    if i > 0 {
      assert pins[1..][i - 1] == pins[i] && pins[0] != pins[i];
      IndexHere(pins[1..], i - 1);
    }
  }

  /** An application of at most fifteen arguments: eight times their number, the
      head, the arguments in order. */
  lemma {:induction false} AppLayout(c: Encoder, head: Val, args: seq<Val>, depth: nat)
    requires 1 <= |args| <= 15 && depth <= 4096
    ensures EncodeNode(c, App(head, args), depth)
            == Append(Append(Some([8 * |args|]), EncodeNode(c, head, depth + 1)),
                EncodeArgs(c, args, 0, |args|, depth + 1))
  {
    hide EncodeArgs;
    var v := App(head, args);
    assert EncodeNode(c, v, depth) == EncodeSpine(c, v, |args|, depth);
  }

  /** A wider one: the last one to fifteen arguments in this row, so that the rows
      inside are full. */
  lemma {:induction false} WideLayout(c: Encoder, v: Val, n: nat, depth: nat)
    requires v.App? && 15 < n <= |v.args| && depth <= 4096
    ensures var r := (n - 1) % 15 + 1;
            EncodeSpine(c, v, n, depth)
            == Append(Append(Some([8 * r]), EncodeSpine(c, v, n - r, depth + 1)),
                EncodeArgs(c, v.args, n - r, n, depth + 1))
  {
    hide EncodeArgs;
    assert Outer(n) == (n - 1) % 15 + 1;
  }

  /** Arguments are written one after the other. */
  lemma {:induction false} ArgsLayout(c: Encoder, xs: seq<Val>, lo: nat, hi: nat, depth: nat)
    requires lo < hi <= |xs|
    ensures EncodeArgs(c, xs, lo, lo, depth) == Some([])
    ensures EncodeArgs(c, xs, lo, hi, depth)
            == Append(EncodeNode(c, xs[lo], depth), EncodeArgs(c, xs, lo + 1, hi, depth))
  {
    hide EncodeNode;
  }

  /** The stream: SILO and the version, the number of pins, their hashes, the value. */
  lemma {:induction false} StreamLayout(c: Encoder, v: Val)
    requires Distinct(c.pins) && |c.pins| <= 0xfffff && EncodeNode(c, v, 0).Some?
    ensures var count := if c.pins == [] then [0]
            else [Width(|c.pins|) % 256] + LittleEndian(|c.pins|, Width(|c.pins|));
            Encode(c, v)
                == Some(['S' as int, 'I' as int, 'L' as int, 'O' as int, 1] + count + Concat(c.pins)
                + EncodeNode(c, v, 0).value)
  {
    hide EncodeNode, LittleEndian, Concat;
    PinWidthSmall(|c.pins|);
  }

  /** Limits of the format and of the runtime. */
  lemma Limits()
    ensures MAX_DEPTH == 4096 && NAT63_MAX == 9223372036854775807 && MAX_PIN_COUNT == 1048575
    ensures NEED_LIMIT == 1048576 && MAX_ARGS == 4294967293 && MAX_NAT_BYTES == 8388600
  {
  }
}
