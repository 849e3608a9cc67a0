/** The Merkle natural codec: specification functions for the bytes written by
    encode_mnat and accepted by decode_mnat. */
module Mnat {
  import opened Basics
  import opened Bytes
  import opened Frontier

  const LEAF_BYTES := 1024
  const PAGE_BYTES := 65536
  const PAGE_LEAVES := 64
  const NAT_CUTOVER := 8192
  const MAX_PIN_COUNT := 0xFFFFF
  const MAX_NAT_BYTES := 8 * MAX_PIN_COUNT

  function Min(a: nat, b: nat): nat {
    if a < b then a else b
  }

  /** The three hash constructions of the format: of a leaf from its index and
      bytes, of an interior node from its interval and children, and of the whole
      natural from its bit length and tree; and the checksum of a page. */
  datatype Scheme = Scheme(
    leaf: (nat, seq<byte>) -> Hash,
    node: (nat, nat, Hash, Hash) -> Hash,
    root: (nat, Hash) -> Hash,
    check: seq<byte> -> nat)

  // ------------------------------------------------------- leaves and the tree

  function LeafCount(len: nat): nat {
    (len + LEAF_BYTES - 1) / LEAF_BYTES
  }

  /** The offset at which leaf i starts; the end of the payload after the last. */
  function LeafStart(len: nat, i: nat): nat {
    Min(i * LEAF_BYTES, len)
  }

  function Leaf(b: seq<byte>, i: nat): (r: seq<byte>)
    requires i < LeafCount(|b|)
    ensures 0 < |r| <= LEAF_BYTES
    ensures |r| == LeafStart(|b|, i + 1) - LeafStart(|b|, i)
  {
    b[LeafStart(|b|, i)..LeafStart(|b|, i + 1)]
  }

  function TreeHash(h: Scheme, b: seq<byte>, start: nat, count: nat): Hash
    requires count >= 1 && start + count <= LeafCount(|b|)
    decreases count
  {
    if count == 1 then h.leaf(start, Leaf(b, start))
    else
      var k := Split(count);
      h.node(start, count, TreeHash(h, b, start, k), TreeHash(h, b, start + k, count - k))
  }

  // ------------------------------------------------------- the encoder's queue

  /** node_queue_insert: before the first entry whose start is not smaller. */
  function QueueInsert(xs: seq<Item>, x: Item): seq<Item> {
    if xs == [] || x.start <= xs[0].start then [x] + xs else [xs[0]] + QueueInsert(xs[1..], x)
  }

  lemma {:induction false} QueueInsertIsInsert(xs: seq<Item>, x: Item)
    requires Insert(xs, x).Some?
    ensures QueueInsert(xs, x) == Insert(xs, x).value
  {
    if xs != [] && xs[0].start < x.start {
      QueueInsertIsInsert(xs[1..], x);
    }
  }

  ghost predicate InTree(x: Item, n: nat) {
    x.count >= 1 && x.start + x.count <= n
  }

  function LeftOf(h: Scheme, b: seq<byte>, x: Item): Item
    requires x.count > 1 && InTree(x, LeafCount(|b|))
  {
    LeftItem(x, TreeHash(h, b, x.start, Split(x.count)))
  }

  function RightOf(h: Scheme, b: seq<byte>, x: Item): Item
    requires x.count > 1 && InTree(x, LeafCount(|b|))
  {
    RightItem(x, TreeHash(h, b, x.start + Split(x.count), x.count - Split(x.count)))
  }

  ghost predicate QueueOk(u: seq<Item>, n: nat) {
    forall x :: x in u ==> x.count > 1 && InTree(x, n)
  }

  /** The two child hashes written after a leaf, if an interval is still unopened. */
  function Disclosure(h: Scheme, b: seq<byte>, u: seq<Item>): seq<byte>
    requires QueueOk(u, LeafCount(|b|))
  {
    if u == [] then [] else LeftOf(h, b, u[0]).hash + RightOf(h, b, u[0]).hash
  }

  function Enqueue(u: seq<Item>, x: Item): seq<Item> {
    if x.count > 1 then QueueInsert(u, x) else u
  }

  function NextQueue(h: Scheme, b: seq<byte>, u: seq<Item>): (r: seq<Item>)
    requires QueueOk(u, LeafCount(|b|))
    ensures QueueOk(r, LeafCount(|b|))
  {
    if u == [] then []
    else
      QueueInsertOk(u[1..], LeftOf(h, b, u[0]), LeafCount(|b|));
      var u1 := Enqueue(u[1..], LeftOf(h, b, u[0]));
      QueueInsertOk(u1, RightOf(h, b, u[0]), LeafCount(|b|));
      Enqueue(u1, RightOf(h, b, u[0]))
  }

  lemma {:induction false} QueueInsertOk(u: seq<Item>, x: Item, n: nat)
    requires QueueOk(u, n) && InTree(x, n)
    ensures QueueOk(Enqueue(u, x), n)
  {
    if x.count > 1 && u != [] && u[0].start < x.start {
      QueueInsertOk(u[1..], x, n);
    }
  }

  /** Opening with the tree's own hashes moves the decoder's unopened list
      exactly as the encoder's queue moves. */
  lemma OpenIsNextQueue(h: Scheme, b: seq<byte>, q: Queues)
    requires QueueOk(q.unopened, LeafCount(|b|)) && q.unopened != []
    requires Open(q, LeftOf(h, b, q.unopened[0]).hash, RightOf(h, b, q.unopened[0]).hash).Some?
    ensures Open(q, LeftOf(h, b, q.unopened[0]).hash, RightOf(h, b, q.unopened[0]).hash).value.unopened
         == NextQueue(h, b, q.unopened)
  {
    var l, r := LeftOf(h, b, q.unopened[0]), RightOf(h, b, q.unopened[0]);
    var q1 := q.(unopened := q.unopened[1..]);
    if l.count > 1 {
      QueueInsertIsInsert(q1.unopened, l);
    }
    var q2 := File(q1, l).value;
    assert q2.unopened == Enqueue(q.unopened[1..], l);
    if r.count > 1 {
      QueueInsertIsInsert(q2.unopened, r);
    }
  }

  // ------------------------------------------------------------ encoded pages

  /** The length field that precedes leaf i when i opens a page. */
  function PageHeader(len: nat, pageWidth: nat, i: nat): seq<byte>
    requires i * LEAF_BYTES <= len
  {
    if i % PAGE_LEAVES == 0 then LittleEndian(Min(len - i * LEAF_BYTES, PAGE_BYTES), pageWidth)
    else []
  }

  /** All that is written for leaf i while u is still unopened. */
  function LeafRecord(h: Scheme, b: seq<byte>, pageWidth: nat, u: seq<Item>, i: nat): seq<byte>
    requires i < LeafCount(|b|) && QueueOk(u, LeafCount(|b|))
  {
    PageHeader(|b|, pageWidth, i) + Leaf(b, i) + Disclosure(h, b, u)
  }

  function EncodeLeaves(h: Scheme, b: seq<byte>, pageWidth: nat, u: seq<Item>, i: nat): seq<byte>
    requires i <= LeafCount(|b|) && QueueOk(u, LeafCount(|b|))
    decreases LeafCount(|b|) - i
  {
    if i == LeafCount(|b|) then []
    else LeafRecord(h, b, pageWidth, u, i)
         + EncodeLeaves(h, b, pageWidth, NextQueue(h, b, u), i + 1)
  }

  /** Bits of a byte, counted as nat_bit_length counts them. */
  function Bits(b: nat): nat {
    if b == 0 then 0 else 1 + Bits(b / 2)
  }

  function BitLength(b: seq<byte>): nat
    requires b != []
  {
    (|b| - 1) * 8 + Bits(b[|b| - 1])
  }

  function Concat(hs: seq<Hash>): seq<byte> {
    if hs == [] then [] else hs[0] + Concat(hs[1..])
  }

  /** A natural's byte string: nonempty here, and no leading (high) zero byte. */
  predicate Normal(b: seq<byte>) {
    b == [] || b[|b| - 1] != 0
  }

  function TreeHashes(h: Scheme, b: seq<byte>, count: nat): (r: seq<Hash>)
    requires 1 <= count <= LeafCount(|b|)
    ensures |r| == LeftDepth(count)
  {
    if count == 1 then []
    else var k := Split(count); [TreeHash(h, b, k, count - k)] + TreeHashes(h, b, k)
  }

  /** The encoder's queue once the spine has been written. */
  function SpineQueue(h: Scheme, b: seq<byte>, count: nat, u: seq<Item>): (r: seq<Item>)
    requires 1 <= count <= LeafCount(|b|) && QueueOk(u, LeafCount(|b|))
    ensures QueueOk(r, LeafCount(|b|))
    decreases count
  {
    if count == 1 then u
    else
      var k := Split(count);
      var right := Item(k, count - k, TreeHash(h, b, k, count - k));
      QueueInsertOk(u, right, LeafCount(|b|));
      SpineQueue(h, b, k, Enqueue(u, right))
  }

  function MaxPage(len: nat): nat {
    Min(len, PAGE_BYTES)
  }

  /** The initial proof and the leaves, as the encoder writes them. */
  function EncodeBody(h: Scheme, b: seq<byte>): seq<byte>
    requires b != []
  {
    var n := LeafCount(|b|);
    Concat([TreeHash(h, b, 0, 1)] + TreeHashes(h, b, n))
    + EncodeLeaves(h, b, Width(MaxPage(|b|)), SpineQueue(h, b, n, []), 0)
  }

  function EncodeHeader(bits: nat, pageWidth: nat, root: Hash): seq<byte>
    requires 1 <= pageWidth <= 256
  {
    [0, (Width(bits) - 1) % 256, pageWidth - 1] + LittleEndian(bits, Width(bits)) + root
  }

  /** The canonical MNAT stream of a natural, opcode included. */
  function EncodeMnat(h: Scheme, b: seq<byte>): seq<byte>
    requires b != []
  {
    PageWidthSmall(|b|);
    [0xf9] + EncodeHeader(BitLength(b), Width(MaxPage(|b|)),
                          h.root(BitLength(b), TreeHash(h, b, 0, LeafCount(|b|))))
    + EncodeBody(h, b)
  }

  lemma PageWidthSmall(len: nat)
    ensures 1 <= Width(MaxPage(len)) <= 3
  {
    WidthMonotone(MaxPage(len), PAGE_BYTES);
    assert Width(65536) == 3;
  }

  // ------------------------------------------------------------------ decoding

  datatype Params = Params(h: Scheme, len: nat, pageWidth: nat, canonical: bool)

  /** expected_take: the hash disclosed for leaf i, removed from the list. */
  function Take(xs: seq<Item>, i: nat): Option<(Hash, seq<Item>)> {
    if xs == [] || xs[0].start > i then None
    else if xs[0].start == i then Some((xs[0].hash, xs[1..]))
    else match Take(xs[1..], i)
      case None => None
      case Some(r) => Some((r.0, [xs[0]] + r.1))
  }

  /** After leaf i: read and check the opening of the least unopened interval. */
  function OpenNext(h: Scheme, i: nat, q: Queues, s: seq<byte>): (r: Option<(Queues, seq<byte>)>)
    ensures r.Some? ==> |r.value.1| <= |s|
  {
    if q.unopened == [] then Some((q, s))
    else if |s| < 64 then None
    else
      var parent := q.unopened[0];
      var hl: Hash, hr: Hash := s[..32], s[32..64];
      if h.node(parent.start, parent.count, hl, hr) != parent.hash then None
      else if parent.count <= 1 || parent.start <= i then None
      else match Open(q, hl, hr)
        case None => None
        case Some(q') => Some((q', s[64..]))
  }

  /** Leaf i has been read in full: match its hash, then open an interval. */
  function MatchLeaf(h: Scheme, i: nat, leaf: seq<byte>, q: Queues, s: seq<byte>)
    : (r: Option<(Queues, seq<byte>)>)
    ensures r.Some? ==> |r.value.1| <= |s|
  {
    match Take(q.expected, i)
    case None => None
    case Some((wanted, rest)) =>
      if h.leaf(i, leaf) != wanted then None
      else OpenNext(h, i, q.(expected := rest), s)
  }

  /** The page and leaf loops, from payload `acc` with `page` bytes of the
      current page still to come. */
  function DecodePages(p: Params, q: Queues, acc: seq<byte>, page: nat, s: seq<byte>)
    : (r: Option<(seq<byte>, Queues, seq<byte>)>)
    requires |acc| <= p.len
    ensures r.Some? ==> acc <= r.value.0 && |r.value.0| == p.len && |r.value.2| <= |s|
    decreases p.len - |acc|, if page == 0 then 1 else 0
  {
    if |acc| == p.len then Some((acc, q, s))
    else if page == 0 then
      if |s| < p.pageWidth then None
      else
        var length := FromLittleEndian(s[..p.pageWidth]);
        if length == 0 || length > p.len - |acc| then None
        else if p.canonical && length != Min(p.len - |acc|, PAGE_BYTES) then None
        else DecodePages(p, q, acc, length, s[p.pageWidth..])
    else
      var i := |acc| / LEAF_BYTES;
      var leafEnd := LeafStart(p.len, i + 1);
      var n := Min(page, leafEnd - |acc|);
      if |s| < n then None
      else
        var acc' := acc + s[..n];
        if |acc'| < leafEnd then DecodePages(p, q, acc', page - n, s[n..])
        else match MatchLeaf(p.h, i, acc'[i * LEAF_BYTES..], q, s[n..])
          case None => None
          case Some((q', s')) => DecodePages(p, q', acc', page - n, s')
  }

  /** The rest of one page: `page` more payload bytes and what is disclosed between them. */
  function PageBody(p: Params, q: Queues, acc: seq<byte>, page: nat, s: seq<byte>)
    : (r: Option<(seq<byte>, Queues, seq<byte>)>)
    requires |acc| + page <= p.len
    ensures r.Some? ==> acc <= r.value.0 && |r.value.0| == |acc| + page && |r.value.2| <= |s|
    decreases page
  {
    if page == 0 then Some((acc, q, s))
    else
      var i := |acc| / LEAF_BYTES;
      var leafEnd := LeafStart(p.len, i + 1);
      var n := Min(page, leafEnd - |acc|);
      if |s| < n then None
      else
        var acc' := acc + s[..n];
        if |acc'| < leafEnd then PageBody(p, q, acc', page - n, s[n..])
        else match MatchLeaf(p.h, i, acc'[i * LEAF_BYTES..], q, s[n..])
          case None => None
          case Some((q', s')) => PageBody(p, q', acc', page - n, s')
  }

  /** The page loop of a stream whose pages end in the checksum of their bytes,
      which only the relaxed profile reads. */
  function DecodeChecked(p: Params, q: Queues, acc: seq<byte>, s: seq<byte>)
    : (r: Option<(seq<byte>, Queues, seq<byte>)>)
    requires |acc| <= p.len
    ensures r.Some? ==> acc <= r.value.0 && |r.value.0| == p.len && |r.value.2| <= |s|
    decreases p.len - |acc|
  {
    if |acc| == p.len then Some((acc, q, s))
    else if |s| < p.pageWidth then None
    else
      var length := FromLittleEndian(s[..p.pageWidth]);
      if length == 0 || length > p.len - |acc| then None
      else match PageBody(p, q, acc, length, s[p.pageWidth..])
        case None => None
        case Some((acc', q', s')) =>
          if |s'| < 4 || FromLittleEndian(s'[..4]) != p.h.check(s[..|s| - |s'|]) then None
          else DecodeChecked(p, q', acc', s'[4..])
  }

  /** Read the sibling hashes of the path to leaf 0. */
  function ReadHashes(count: nat, s: seq<byte>): (r: Option<(seq<Hash>, seq<byte>)>)
    ensures r.Some? ==> |r.value.0| == count && |r.value.1| <= |s|
    decreases count
  {
    if count == 0 then Some(([], s))
    else if |s| < 32 then None
    else
      var first: Hash := s[..32];
      match ReadHashes(count - 1, s[32..])
      case None => None
      case Some((hs, rest)) => Some(([first] + hs, rest))
  }

  /** Fold the initial proof bottom-up: the siblings are shallowest first. */
  function FoldProof(h: Scheme, count: nat, first: Hash, siblings: seq<Hash>): Hash
    requires count >= 1 && |siblings| == LeftDepth(count)
    decreases count
  {
    if count == 1 then first
    else h.node(0, count, FoldProof(h, Split(count), first, siblings[1..]), siblings[0])
  }

  /** The fields of the fixed header, read before the initial proof. */
  datatype Header = Header(bits: nat, pageWidth: nat, root: Hash, checked: bool)

  function ByteLength(bits: nat): nat {
    bits / 8 + (if bits % 8 != 0 then 1 else 0)
  }

  /** The flag byte (bit 0 announces page checksums), the two widths, the bit length
      and the declared root. */
  function DecodeHeader(s: seq<byte>): (r: Option<(Header, seq<byte>)>)
    ensures r.Some? ==> |r.value.1| < |s|
  {
    if |s| < 3 || s[0] > 1 then None
    else
      var lw: nat, pw: nat := (s[1] as int + 1) % 256, (s[2] as int + 1) % 256;
      if lw > 8 || pw > 8 || |s| < 3 + lw + 32 then None
      else
        var bits := FromLittleEndian(s[3..3 + lw]);
        if bits == 0 || lw != Width(bits) then None
        else Some((Header(bits, pw, s[3 + lw..3 + lw + 32], s[0] == 1), s[3 + lw + 32..]))
  }

  /** The initial proof and the leaves. */
  function DecodeBody(h: Scheme, canonical: bool, header: Header, s: seq<byte>): (r: Option<(seq<byte>, seq<byte>)>)
    requires header.bits > 0
    ensures r.Some? ==> |r.value.1| <= |s| && |r.value.0| == ByteLength(header.bits)
  {
    var len := ByteLength(header.bits);
    var n := LeafCount(len);
    match ReadHashes(1 + LeftDepth(n), s)
    case None => None
    case Some((hs, s1)) =>
      if h.root(header.bits, FoldProof(h, n, hs[0], hs[1..])) != header.root then None
      else match InitialQueues(n, hs[0], hs[1..])
        case None => None
        case Some(q) =>
          var p := Params(h, len, header.pageWidth, canonical);
          match if header.checked then DecodeChecked(p, q, [], s1) else DecodePages(p, q, [], 0, s1)
          case None => None
          case Some((b, q', rest)) => if q' != Queues([], []) then None else Some((b, rest))
  }

  /** decode_mnat on the bytes after the opcode: the natural's bytes and the
      unread rest. */
  function DecodeMnat(h: Scheme, canonical: bool, s: seq<byte>): (r: Option<(seq<byte>, seq<byte>)>)
    ensures r.Some? ==> |r.value.1| < |s| && r.value.0 != []
  {
    match DecodeHeader(s)
    case None => None
    case Some((header, s1)) =>
      var len := ByteLength(header.bits);
      if len > MAX_NAT_BYTES || (canonical && (header.checked || len <= NAT_CUTOVER)) then None
      else match DecodeBody(h, canonical, header, s1)
        case None => None
        case Some((b, rest)) =>
          if Bits(b[len - 1]) != (header.bits - 1) % 8 + 1 then None
          else if canonical && header.pageWidth != Width(MaxPage(len)) then None
          else Some((b, rest))
  }
}
