/**
  The relaxed profile of decode_mnat (pkg/plan/src/silo.c:893-1126): pages of any lengths,
  which may cut leaves, and a page width of the writer's choice. What it accepts is proved
  to be exactly the paged streams of a natural, and in either profile, with or without
  checksums, the declared root is the root hash of the natural that comes out.
 */
module MnatRelaxed {
  import opened Basics
  import opened Bytes
  import opened Frontier
  import opened Mnat
  import opened MnatProof

  function Sum(lengths: seq<nat>): (r: nat) {
    if lengths == [] then 0 else lengths[0] + Sum(lengths[1..])
  }

  /** Page lengths for what is left: none is empty, each fits its field. */
  ghost predicate Pages(lengths: seq<nat>, left: nat, pageWidth: nat) {
    Sum(lengths) == left && forall i :: 0 <= i < |lengths| ==> lengths[i] > 0 && Width(lengths[i]) <= pageWidth
  }

  lemma PagesTail(lengths: seq<nat>, left: nat, pageWidth: nat)
    requires Pages(lengths, left, pageWidth)
    ensures left == 0 <==> lengths == []
    ensures lengths != [] ==> lengths[0] <= left && Pages(lengths[1..], left - lengths[0], pageWidth)
  {
    if lengths != [] {
      assert forall i :: 0 <= i < |lengths| - 1 ==> lengths[1..][i] == lengths[i + 1];
    }
  }

  /** The payload from byte `at` on, `page` bytes into whose page are still to come: each
      page led by its length, each leaf followed by what is disclosed after it. */
  function Paged(h: Scheme, b: seq<byte>, pageWidth: nat, u: seq<Item>, at: nat, page: nat,
                 lengths: seq<nat>): (r: seq<byte>)
    requires QueueOk(u, LeafCount(|b|)) && at + page <= |b|
    decreases |b| - at, |lengths|
  {
    if at == |b| then []
    else if page == 0 then
      if lengths == [] || at + lengths[0] > |b| then []
      else LittleEndian(lengths[0], pageWidth) + Paged(h, b, pageWidth, u, at, lengths[0], lengths[1..])
    else
      LeafAhead(|b|, at);
      var end := LeafStart(|b|, at / LEAF_BYTES + 1);
      var n := Min(page, end - at);
      b[at..at + n] + if at + n < end then Paged(h, b, pageWidth, u, at + n, page - n, lengths)
                      else Disclosure(h, b, u) + Paged(h, b, pageWidth, NextQueue(h, b, u), at + n, page - n, lengths)
  }

  /** The leaf that byte `at` belongs to; past the last at the end. */
  ghost function LeafAt(len: nat, at: nat): (i: nat) {
    if at < len then at / LEAF_BYTES else LeafCount(len)
  }

  lemma {:induction false} LeafEnds(len: nat, at: nat)
    requires at < len
    ensures var i := at / LEAF_BYTES;
            && i < LeafCount(len) && i * LEAF_BYTES == LeafStart(len, i) <= at < LeafStart(len, i + 1) <= len
            && LeafAt(len, LeafStart(len, i + 1)) == i + 1
            && forall m: nat :: at <= m < LeafStart(len, i + 1) ==> LeafAt(len, m) == i
  {
  }

  // ---------------------------------------------------------------------- one leaf

  lemma {:induction false} LeafForward(h: Scheme, b: seq<byte>, q: Queues, t: seq<Item>, i: nat, rest: seq<byte>)
    returns (q': Queues, t': seq<Item>)
    requires i < LeafCount(|b|) && Tracks(q, t, i, LeafCount(|b|), 0) && Authentic(h, b, t)
    ensures QueueOk(q.unopened, LeafCount(|b|)) && q'.unopened == NextQueue(h, b, q.unopened)
    ensures MatchLeaf(h, i, Leaf(b, i), q, Disclosure(h, b, q.unopened) + rest) == Some((q', rest))
    ensures Tracks(q', t', i + 1, LeafCount(|b|), 0) && Authentic(h, b, t')
  {
    hide NextQueue, Disclosure, Unopened, Expected, Timely, Tiles, OpenNext, MatchLeaf, Opened, LeafCount, TreeHash,
         Authentic, Leaf;
    TracksQueueOk(q, t, i, LeafCount(|b|));
    var d := Disclosure(h, b, q.unopened) + rest;
    MatchLeafOpens(h, Leaf(b, i), q, t, i, LeafCount(|b|), d);
    HeadAuthentic(h, b, t);
    OpenNextForward(h, b, Taken(q), t[1..], i, rest);
    OpenNextTracks(h, Taken(q), t[1..], i, LeafCount(|b|), d);
    q' := OpenNext(h, i, Taken(q), d).value.0;
    t' := Opened(Taken(q), t[1..], d);
  }

  lemma {:induction false} LeafTracks(h: Scheme, leaf: seq<byte>, q: Queues, t: seq<Item>, i: nat, n: nat, d: seq<byte>)
    returns (t': seq<Item>)
    requires i < n && Tracks(q, t, i, n, 0) && MatchLeaf(h, i, leaf, q, d).Some?
    ensures t != [] && q.expected != [] && t' == Opened(Taken(q), t[1..], d)
    ensures Tracks(MatchLeaf(h, i, leaf, q, d).value.0, t', i + 1, n, 0)
  {
    hide Unopened, Expected, Timely, Tiles, OpenNext, MatchLeaf, Opened;
    MatchLeafOpens(h, leaf, q, t, i, n, d);
    OpenNextTracks(h, Taken(q), t[1..], i, n, d);
    t' := Opened(Taken(q), t[1..], d);
  }

  lemma {:induction false} LeafBackward(h: Scheme, b: seq<byte>, q: Queues, t: seq<Item>, i: nat, d: seq<byte>)
    requires i < LeafCount(|b|) && Tracks(q, t, i, LeafCount(|b|), 0) && MatchLeaf(h, i, Leaf(b, i), q, d).Some?
    requires t != [] && q.expected != [] && Authentic(h, b, Opened(Taken(q), t[1..], d))
    ensures QueueOk(q.unopened, LeafCount(|b|)) && Authentic(h, b, t)
    ensures var (q', s') := MatchLeaf(h, i, Leaf(b, i), q, d).value;
            d == Disclosure(h, b, q.unopened) + s' && q'.unopened == NextQueue(h, b, q.unopened)
  {
    hide NextQueue, Disclosure, Unopened, Expected, Timely, Tiles, OpenNext, MatchLeaf, Opened, LeafCount, TreeHash,
         Authentic, Leaf;
    MatchLeafOpens(h, Leaf(b, i), q, t, i, LeafCount(|b|), d);
    OpenNextBackward(h, b, Taken(q), t[1..], i, d);
    TailAuthentic(h, b, t);
  }

  // ------------------------------------------------------------------------ the pages

  lemma PagedHead(h: Scheme, b: seq<byte>, pageWidth: nat, u: seq<Item>, at: nat, lengths: seq<nat>)
    requires QueueOk(u, LeafCount(|b|)) && at < |b| && lengths != [] && at + lengths[0] <= |b|
    ensures Paged(h, b, pageWidth, u, at, 0, lengths)
            == LittleEndian(lengths[0], pageWidth) + Paged(h, b, pageWidth, u, at, lengths[0], lengths[1..])
  {
    hide QueueOk;
  }

  lemma PagedStep(h: Scheme, b: seq<byte>, pageWidth: nat, u: seq<Item>, at: nat, page: nat, lengths: seq<nat>, n: nat)
    requires QueueOk(u, LeafCount(|b|)) && at < |b| && page > 0 && at + page <= |b|
    requires LeafStart(|b|, at / LEAF_BYTES + 1) > at && n == Min(page, LeafStart(|b|, at / LEAF_BYTES + 1) - at)
    ensures Paged(h, b, pageWidth, u, at, page, lengths)
            == b[at..at + n]
               + (if at + n < LeafStart(|b|, at / LEAF_BYTES + 1) then
                    Paged(h, b, pageWidth, u, at + n, page - n, lengths)
                  else
                    Disclosure(h, b, u) + Paged(h, b, pageWidth, NextQueue(h, b, u), at + n, page - n, lengths))
  {
    hide QueueOk, NextQueue, Disclosure, LeafStart, LeafCount, LittleEndian;
  }

  lemma PagedDone(h: Scheme, b: seq<byte>, pageWidth: nat, u: seq<Item>, lengths: seq<nat>)
    requires QueueOk(u, LeafCount(|b|))
    ensures Paged(h, b, pageWidth, u, |b|, 0, lengths) == []
  {
    hide QueueOk;
  }

  lemma {:induction false} EndOfPages(p: Params, q: Queues, t: seq<Item>, acc: seq<byte>, s: seq<byte>)
    requires |acc| == p.len && Tracks(q, t, LeafCount(p.len), LeafCount(p.len), 0)
    ensures Authentic(p.h, acc, t) && q == Queues([], []) && DecodePages(p, q, acc, 0, s) == Some((acc, q, s))
  {
    EmptyTiling(t, LeafCount(p.len));
  }

  /** A segment read in front of what is known to follow it. */
  lemma {:induction false} Assembled(h: Scheme, b: seq<byte>, pageWidth: nat, u: seq<Item>, acc: seq<byte>, page: nat,
                                     lengths: seq<nat>, n: nat, s: seq<byte>, rest: seq<byte>)
    requires QueueOk(u, LeafCount(|b|)) && |acc| < |b| && page > 0 && |acc| + page <= |b|
    requires var end := LeafStart(|b|, |acc| / LEAF_BYTES + 1); end > |acc| && n == Min(page, end - |acc|)
    requires n <= |s| && acc + s[..n] <= b
    requires s[n..] == if |acc| + n < LeafStart(|b|, |acc| / LEAF_BYTES + 1)
                       then Paged(h, b, pageWidth, u, |acc| + n, page - n, lengths) + rest
                       else Disclosure(h, b, u)
                            + (Paged(h, b, pageWidth, NextQueue(h, b, u), |acc| + n, page - n, lengths) + rest)
    ensures s == Paged(h, b, pageWidth, u, |acc|, page, lengths) + rest
  {
    hide Paged, QueueOk, NextQueue, Disclosure, LeafStart, LeafCount;
    PagedStep(h, b, pageWidth, u, |acc|, page, lengths, n);
    assert b[|acc|..|acc| + n] == b[..|acc + s[..n]|][|acc|..] == s[..n];
    assert s == s[..n] + s[n..];
  }

  /** Whatever the decoder accepts is some paged stream of an authentic payload. */
  lemma {:induction false} PagesTell(p: Params, q: Queues, t: seq<Item>, acc: seq<byte>, page: nat, s: seq<byte>)
    returns (lengths: seq<nat>)
    requires !p.canonical && |acc| + page <= p.len && Tracks(q, t, LeafAt(p.len, |acc|), LeafCount(p.len), 0)
    requires DecodePages(p, q, acc, page, s).Some?
    ensures QueueOk(q.unopened, LeafCount(p.len)) && Pages(lengths, p.len - |acc| - page, p.pageWidth)
    ensures var (b, q', rest) := DecodePages(p, q, acc, page, s).value;
            && Authentic(p.h, b, t) && q' == Queues([], [])
            && s == Paged(p.h, b, p.pageWidth, q.unopened, |acc|, page, lengths) + rest
    decreases p.len - |acc|, if page == 0 then 1 else 0
  {
    hide Authentic, NextQueue, Disclosure, DecodePages, LeafCount, Unopened, Expected, Timely, TreeHash, Tiles, Tracks,
         QueueOk, MatchLeaf, Opened, Paged, LeafAt, LeafStart, FromLittleEndian, Taken, Pages, Width,
         LittleEndian, Leaf;
    TracksQueueOk(q, t, LeafAt(p.len, |acc|), LeafCount(p.len));
    lengths := [];
    NoneLeft(p.pageWidth);
    var (b, _, rest) := DecodePages(p, q, acc, page, s).value;
    if |acc| == p.len {
      AtEnd(p.len);
      EndOfPages(p, q, t, acc, s);
      PagedDone(p.h, b, p.pageWidth, q.unopened, []);
      assert s == [] + s;
    } else if page == 0 {
      var length := PageOpens(p, q, acc, s);
      var more := PagesTell(p, q, t, acc, length, s[p.pageWidth..]);
      lengths := [length] + more;
      PagesCons(length, more, p.len - |acc| - length, p.pageWidth);
      PagedHead(p.h, b, p.pageWidth, q.unopened, |acc|, lengths);
      assert s == s[..p.pageWidth] + s[p.pageWidth..];
    } else {
      var i := |acc| / LEAF_BYTES;
      LeafEnds(p.len, |acc|);
      var n := Min(page, LeafStart(p.len, i + 1) - |acc|);
      PageStep(p, q, acc, page, s, i, n);
      var acc' := acc + s[..n];
      if |acc'| < LeafStart(p.len, i + 1) {
        lengths := PagesTell(p, q, t, acc', page - n, s[n..]);
        Assembled(p.h, b, p.pageWidth, q.unopened, acc, page, lengths, n, s, rest);
      } else {
        var leaf := acc'[i * LEAF_BYTES..];
        var (q', s') := MatchLeaf(p.h, i, leaf, q, s[n..]).value;
        var t' := LeafTracks(p.h, leaf, q, t, i, LeafCount(p.len), s[n..]);
        lengths := PagesTell(p, q', t', acc', page - n, s');
        assert leaf == Leaf(b, i) by { LeafRead(b, acc', i); }
        LeafBackward(p.h, b, q, t, i, s[n..]);
        Assembled(p.h, b, p.pageWidth, q.unopened, acc, page, lengths, n, s, rest);
      }
    }
  }

  lemma NoneLeft(pageWidth: nat)
    ensures Pages([], 0, pageWidth)
  {
  }

  lemma PagesCons(length: nat, more: seq<nat>, left: nat, pageWidth: nat)
    requires Pages(more, left, pageWidth) && length > 0 && Width(length) <= pageWidth
    ensures Pages([length] + more, length + left, pageWidth) && ([length] + more)[1..] == more
  {
    assert ([length] + more)[1..] == more;
  }

  lemma AtEnd(len: nat)
    ensures LeafAt(len, len) == LeafCount(len)
  {
  }

  lemma LeafRead(b: seq<byte>, acc: seq<byte>, i: nat)
    requires acc <= b && i < LeafCount(|b|) && |acc| == LeafStart(|b|, i + 1)
             && i * LEAF_BYTES == LeafStart(|b|, i) <= |acc|
    ensures acc[i * LEAF_BYTES..] == Leaf(b, i)
  {
  }

  /** A page field that is accepted. */
  lemma {:induction false} PageOpens(p: Params, q: Queues, acc: seq<byte>, s: seq<byte>) returns (length: nat)
    requires !p.canonical && |acc| < p.len && DecodePages(p, q, acc, 0, s).Some?
    ensures |s| >= p.pageWidth && 0 < length <= p.len - |acc| && LittleEndian(length, p.pageWidth) == s[..p.pageWidth]
    ensures Width(length) <= p.pageWidth
    ensures DecodePages(p, q, acc, 0, s) == DecodePages(p, q, acc, length, s[p.pageWidth..])
  {
    hide FromLittleEndian, MatchLeaf, LeafStart, LittleEndian, Width;
    length := FromLittleEndian(s[..p.pageWidth]);
    BytesRoundTrip(s[..p.pageWidth]);
    PagesBegin(p, q, acc, s[..p.pageWidth], s[p.pageWidth..]);
    assert s == s[..p.pageWidth] + s[p.pageWidth..];
    FieldWidth(s[..p.pageWidth]);
  }

  lemma {:induction false} FieldWidth(b: seq<byte>)
    ensures b != [] ==> Width(FromLittleEndian(b)) <= |b|
    ensures b == [] ==> FromLittleEndian(b) == 0
  {
    if b != [] {
      FieldWidth(b[1..]);
    }
  }

  /** And every paged stream is accepted. */
  lemma {:induction false} PagesAccept(p: Params, b: seq<byte>, q: Queues, t: seq<Item>, at: nat, page: nat,
                                       lengths: seq<nat>, rest: seq<byte>)
    requires !p.canonical && |b| == p.len && at + page <= p.len && Pages(lengths, p.len - at - page, p.pageWidth)
    requires Tracks(q, t, LeafAt(p.len, at), LeafCount(p.len), 0) && Authentic(p.h, b, t)
    ensures QueueOk(q.unopened, LeafCount(p.len))
    ensures DecodePages(p, q, b[..at], page, Paged(p.h, b, p.pageWidth, q.unopened, at, page, lengths) + rest)
            == Some((b, Queues([], []), rest))
    decreases p.len - at, |lengths|
  {
    hide Authentic, NextQueue, Disclosure, DecodePages, LeafCount, Unopened, Expected, Timely, TreeHash, Tiles, Tracks,
         QueueOk, MatchLeaf, Opened, Paged, LeafAt, LeafStart, FromLittleEndian, Pages;
    TracksQueueOk(q, t, LeafAt(p.len, at), LeafCount(p.len));
    PagesTail(lengths, p.len - at - page, p.pageWidth);
    if at == p.len {
      AtEnd(p.len);
      EndOfPages(p, q, t, b, rest);
      PagedDone(p.h, b, p.pageWidth, q.unopened, lengths);
      assert b[..at] == b && [] + rest == rest;
    } else if page == 0 {
      PagesAccept(p, b, q, t, at, lengths[0], lengths[1..], rest);
      PagedHead(p.h, b, p.pageWidth, q.unopened, at, lengths);
      var tail := Paged(p.h, b, p.pageWidth, q.unopened, at, lengths[0], lengths[1..]);
      var field := LittleEndian(lengths[0], p.pageWidth);
      assert field + tail + rest == field + (tail + rest);
      FieldRead(lengths, p.pageWidth, p.len - at);
      PagesBegin(p, q, b[..at], field, tail + rest);
    } else {
      var i := at / LEAF_BYTES;
      LeafEnds(p.len, at);
      var n := Min(page, LeafStart(p.len, i + 1) - at);
      PagedStep(p.h, b, p.pageWidth, q.unopened, at, page, lengths, n);
      var piece := b[at..at + n];
      assert b[..at] + piece == b[..at + n];
      if at + n < LeafStart(p.len, i + 1) {
        PagesAccept(p, b, q, t, at + n, page - n, lengths, rest);
        var tail := Paged(p.h, b, p.pageWidth, q.unopened, at + n, page - n, lengths) + rest;
        SegmentRead(piece, [], Paged(p.h, b, p.pageWidth, q.unopened, at + n, page - n, lengths), rest, tail);
        PageStep(p, q, b[..at], page, piece + tail, i, n);
      } else {
        var d, u := Disclosure(p.h, b, q.unopened), NextQueue(p.h, b, q.unopened);
        var tail := Paged(p.h, b, p.pageWidth, u, at + n, page - n, lengths);
        var q', t' := LeafForward(p.h, b, q, t, i, tail + rest);
        PagesAccept(p, b, q', t', at + n, page - n, lengths, rest);
        SegmentRead(piece, d, tail, rest, d + (tail + rest));
        PageStep(p, q, b[..at], page, piece + (d + (tail + rest)), i, n);
        assert b[..at + n][i * LEAF_BYTES..] == Leaf(b, i) by { LeafRead(b, b[..at + n], i); }
      }
    }
  }

  lemma SegmentRead(piece: seq<byte>, d: seq<byte>, tail: seq<byte>, rest: seq<byte>, all: seq<byte>)
    requires all == d + (tail + rest)
    ensures (piece + (d + tail)) + rest == piece + all && (d == [] ==> (piece + tail) + rest == piece + all)
    ensures (piece + all)[..|piece|] == piece && (piece + all)[|piece|..] == all
  {
  }

  lemma FieldRead(lengths: seq<nat>, pageWidth: nat, left: nat)
    requires lengths != [] && Pages(lengths, left, pageWidth)
    ensures FromLittleEndian(LittleEndian(lengths[0], pageWidth)) == lengths[0] && 0 < lengths[0] <= left
  {
    LittleEndianRoundTrip(lengths[0], pageWidth);
  }

  // ----------------------------------------------------------------------- whole streams

  /** The relaxed stream of a natural, from its header on. */
  function RelaxedStream(h: Scheme, b: seq<byte>, pageWidth: nat, lengths: seq<nat>): (r: seq<byte>)
    requires b != [] && 1 <= pageWidth <= 8
  {
    var n := LeafCount(|b|);
    EmptyQueueOk(n);
    EncodeHeader(BitLength(b), pageWidth, h.root(BitLength(b), TreeHash(h, b, 0, n)))
    + (Concat([TreeHash(h, b, 0, 1)] + TreeHashes(h, b, n))
       + Paged(h, b, pageWidth, SpineQueue(h, b, n, []), 0, 0, lengths))
  }

  lemma {:induction false} BodyAccepts(h: Scheme, b: seq<byte>, pageWidth: nat, lengths: seq<nat>, rest: seq<byte>)
    requires b != [] && Normal(b) && Pages(lengths, |b|, pageWidth)
    ensures var n := LeafCount(|b|); QueueOk([], n)
    ensures var n := LeafCount(|b|);
            var header := Header(BitLength(b), pageWidth, h.root(BitLength(b), TreeHash(h, b, 0, n)), false);
            && header.bits > 0
            && DecodeBody(h, false, header,
                          Concat([TreeHash(h, b, 0, 1)] + TreeHashes(h, b, n))
                          + (Paged(h, b, pageWidth, SpineQueue(h, b, n, []), 0, 0, lengths) + rest)) == Some((b, rest))
  {
    hide Authentic, Tracks, DecodePages, Paged, FileSpine, SpineTiling, SpineQueue, TreeHash, ReadHashes,
         FoldProof, TreeHashes, LeftDepth, Concat, QueueOk, Pages, BitLength, Width;
    BitLengthFacts(b);
    var n := LeafCount(|b|);
    EmptyQueueOk(n);
    var first, siblings := TreeHash(h, b, 0, 1), TreeHashes(h, b, n);
    var leaves := Paged(h, b, pageWidth, SpineQueue(h, b, n, []), 0, 0, lengths);
    ReadHashesForward([first] + siblings, leaves + rest);
    assert ([first] + siblings)[1..] == siblings;
    FoldIsTreeHash(h, b, n);
    InitialTracks(n, first, siblings);
    InitialAuthentic(h, b, n);
    SpineQueueIsFileSpine(h, b, Queues([], [Item(0, 1, first)]), n);
    assert b[..0] == [];
    PagesAccept(Params(h, |b|, pageWidth, false), b, InitialQueues(n, first, siblings).value,
                InitialTiling(n, first, siblings), 0, 0, lengths, rest);
  }

  /** Main result: every way to cut a natural into pages is accepted. */
  lemma {:induction false} RelaxedAccepts(h: Scheme, b: seq<byte>, pageWidth: nat, lengths: seq<nat>, rest: seq<byte>)
    requires b != [] && Normal(b) && |b| <= MAX_NAT_BYTES && 1 <= pageWidth <= 8 && Pages(lengths, |b|, pageWidth)
    ensures DecodeMnat(h, false, RelaxedStream(h, b, pageWidth, lengths) + rest) == Some((b, rest))
  {
    hide TreeHash, EncodeHeader, DecodeHeader, DecodeBody, Paged, Width, Bits, Concat, SpineQueue, Pages, QueueOk,
         TreeHashes, BitLength;
    var n := LeafCount(|b|);
    var root := h.root(BitLength(b), TreeHash(h, b, 0, n));
    BitLengthFacts(b);
    EmptyQueueOk(n);
    var proof := Concat([TreeHash(h, b, 0, 1)] + TreeHashes(h, b, n));
    var pages := Paged(h, b, pageWidth, SpineQueue(h, b, n, []), 0, 0, lengths);
    var e := EncodeHeader(BitLength(b), pageWidth, root);
    assert (e + (proof + pages)) + rest == e + (proof + (pages + rest));
    HeaderRoundTrip(BitLength(b), pageWidth, root, proof + (pages + rest));
    BodyAccepts(h, b, pageWidth, lengths, rest);
  }

  lemma {:induction false} BodyTells(h: Scheme, header: Header, s: seq<byte>) returns (lengths: seq<nat>)
    requires header.bits > 0 && !header.checked && DecodeBody(h, false, header, s).Some?
    ensures var (b, rest) := DecodeBody(h, false, header, s).value;
            var n := LeafCount(|b|);
            && b != [] && Pages(lengths, |b|, header.pageWidth) && QueueOk([], n)
            && s == Concat([TreeHash(h, b, 0, 1)] + TreeHashes(h, b, n))
                    + (Paged(h, b, header.pageWidth, SpineQueue(h, b, n, []), 0, 0, lengths) + rest)
            && header.root == h.root(header.bits, TreeHash(h, b, 0, n))
  {
    hide Authentic, Tracks, DecodePages, Paged, FileSpine, SpineTiling, SpineQueue, TreeHash, ReadHashes,
         FoldProof, TreeHashes, LeftDepth, Concat, QueueOk, Pages;
    var (b, rest) := DecodeBody(h, false, header, s).value;
    var len := ByteLength(header.bits);
    var n := LeafCount(len);
    var (hs, s1) := ReadHashes(1 + LeftDepth(n), s).value;
    var first, siblings := hs[0], hs[1..];
    ReadHashesBackward(1 + LeftDepth(n), s);
    InitialTracks(n, first, siblings);
    var q := InitialQueues(n, first, siblings).value;
    lengths := PagesTell(Params(h, len, header.pageWidth, false), q, InitialTiling(n, first, siblings), [], 0, s1);
    InitialForces(h, b, n, first, siblings);
    FoldIsTreeHash(h, b, n);
    EmptyQueueOk(n);
    SpineQueueIsFileSpine(h, b, Queues([], [Item(0, 1, first)]), n);
    assert hs == [first] + siblings;
  }

  /** Main result: a stream without checksums that is accepted is the natural it decodes to,
      cut into pages. */
  lemma {:induction false} RelaxedTells(h: Scheme, s: seq<byte>) returns (lengths: seq<nat>)
    requires DecodeMnat(h, false, s).Some? && !DecodeHeader(s).value.0.checked
    ensures var (b, rest) := DecodeMnat(h, false, s).value;
            var pw := DecodeHeader(s).value.0.pageWidth;
            && Normal(b) && |b| <= MAX_NAT_BYTES && 1 <= pw <= 8 && Pages(lengths, |b|, pw)
            && s == RelaxedStream(h, b, pw, lengths) + rest
  {
    hide TreeHash, EncodeHeader, DecodeHeader, DecodeBody, Paged, Width, Bits, Concat, SpineQueue, QueueOk, TreeHashes;
    var (b, rest) := DecodeMnat(h, false, s).value;
    var (header, s1) := DecodeHeader(s).value;
    HeaderBits(s);
    lengths := BodyTells(h, header, s1);
    PagesNonzero(lengths, |b|, header.pageWidth);
    HeaderCanonical(s);
    BitLengthFromTop(b, header.bits);
    var n := LeafCount(|b|);
    var proof := Concat([TreeHash(h, b, 0, 1)] + TreeHashes(h, b, n));
    var pages := Paged(h, b, header.pageWidth, SpineQueue(h, b, n, []), 0, 0, lengths);
    var e := EncodeHeader(header.bits, header.pageWidth, header.root);
    assert e + (proof + (pages + rest)) == (e + (proof + pages)) + rest;
  }

  lemma HeaderBits(s: seq<byte>)
    requires DecodeHeader(s).Some?
    ensures DecodeHeader(s).value.0.bits > 0 && DecodeHeader(s).value.0.pageWidth <= 8
  {
    hide Width, FromLittleEndian;
  }

  lemma PagesNonzero(lengths: seq<nat>, left: nat, pageWidth: nat)
    requires Pages(lengths, left, pageWidth) && left > 0
    ensures pageWidth >= 1
  {
    PagesTail(lengths, left, pageWidth);
    assert Width(lengths[0]) <= pageWidth;
  }

  /** Main result: in either profile, with checksums or without, the root that a stream
      declares is the root hash of the natural that comes out of it. */
  lemma {:induction false} RootIsAuthentic(h: Scheme, canonical: bool, s: seq<byte>)
    requires DecodeMnat(h, canonical, s).Some?
    ensures var b := DecodeMnat(h, canonical, s).value.0;
            && Normal(b) && DecodeHeader(s).value.0.bits == BitLength(b)
            && DecodeHeader(s).value.0.root == h.root(BitLength(b), TreeHash(h, b, 0, LeafCount(|b|)))
  {
    hide TreeHash, DecodeHeader, DecodeBody, Bits;
    var (b, rest) := DecodeMnat(h, canonical, s).value;
    var (header, s1) := DecodeHeader(s).value;
    HeaderBits(s);
    BitLengthFromTop(b, header.bits);
    if canonical {
      BodyBackward(h, header, s1);
    } else if header.checked {
      CheckedRoot(h, header, s1);
    } else {
      var lengths := BodyTells(h, header, s1);
    }
  }

  lemma {:induction false} CheckedRoot(h: Scheme, header: Header, s: seq<byte>)
    requires header.bits > 0 && header.checked && DecodeBody(h, false, header, s).Some?
    ensures var b := DecodeBody(h, false, header, s).value.0;
            b != [] && header.root == h.root(header.bits, TreeHash(h, b, 0, LeafCount(|b|)))
  {
    hide DecodePages, DecodeChecked, FileSpine, TreeHash, ReadHashes, FoldProof, LeftDepth, Concat, InitialQueues;
    var len := ByteLength(header.bits);
    var n := LeafCount(len);
    var (hs, s1) := ReadHashes(1 + LeftDepth(n), s).value;
    var q := InitialQueues(n, hs[0], hs[1..]).value;
    var p := Params(h, len, header.pageWidth, false);
    var (b, q', rest) := DecodeChecked(p, q, [], s1).value;
    var t := CheckedIsPlain(p, q, [], s1);
    ReadHashesBackward(1 + LeftDepth(n), s);
    ReadHashesForward(hs, t + rest);
    var plain := header.(checked := false);
    assert DecodeBody(h, false, plain, Concat(hs) + (t + rest)) == Some((b, rest));
    var lengths := BodyTells(h, plain, Concat(hs) + (t + rest));
  }

  /** The checksum of a page is that of its length field and everything up to the checksum:
      with it decoding goes on behind the page, with any other four bytes it fails. */
  lemma {:induction false} ChecksumLaw(p: Params, q: Queues, acc: seq<byte>, field: seq<byte>, body: seq<byte>,
                                       crc: seq<byte>, rest: seq<byte>)
    requires |acc| < p.len && |field| == p.pageWidth && 0 < FromLittleEndian(field) <= p.len - |acc| && |crc| == 4
    requires PageBody(p, q, acc, FromLittleEndian(field), body).Some?
             && PageBody(p, q, acc, FromLittleEndian(field), body).value.2 == []
    ensures var (acc', q', _) := PageBody(p, q, acc, FromLittleEndian(field), body).value;
            DecodeChecked(p, q, acc, field + (body + (crc + rest)))
            == if FromLittleEndian(crc) == p.h.check(field + body) then DecodeChecked(p, q', acc', rest) else None
  {
    hide PageBody, FromLittleEndian;
    var s := field + (body + (crc + rest));
    assert body[..|body|] == body;
    PageLocal(p, q, acc, FromLittleEndian(field), body, crc + rest);
    assert s[..p.pageWidth] == field && s[p.pageWidth..] == body + (crc + rest);
    assert (crc + rest)[..4] == crc && (crc + rest)[4..] == rest;
    assert s[..|s| - |crc + rest|] == field + body;
  }
}
