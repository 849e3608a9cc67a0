/** The MNAT codec is a bijection on naturals: decoding undoes encoding, and
    every canonical stream is the encoding of what it decodes to.  The hash
    function is arbitrary: the decoder authenticates every disclosed hash against
    the payload, so no collision assumption is needed. */
module MnatProof {
  import opened Basics
  import opened Bytes
  import opened Frontier
  import opened Mnat

  /** Every disclosed hash is the tree hash of its interval of the payload. */
  ghost predicate Authentic(h: Scheme, b: seq<byte>, t: seq<Item>) {
    forall x :: x in t ==> InTree(x, LeafCount(|b|)) && x.hash == TreeHash(h, b, x.start, x.count)
  }

  lemma {:induction false} TilingInTree(t: seq<Item>, lo: nat, hi: nat)
    requires Tiles(t, lo, hi)
    ensures forall x :: x in t ==> InTree(x, hi) && x.start >= lo
    ensures forall x :: x in Unopened(t) ==> x in t && x.count > 1
    ensures QueueOk(Unopened(t), hi)
  {
    if t != [] {
      TilingInTree(t[1..], lo + t[0].count, hi);
      StartsBounded(t[1..], lo + t[0].count, hi);
    }
  }

  /** Opening changes the tiling only at the opened interval. */
  lemma {:induction false} OpenFirstMembers(t: seq<Item>, lo: nat, hi: nat, hl: Hash, hr: Hash)
    requires Tiles(t, lo, hi) && Unopened(t) != []
    ensures Unopened(t)[0].count > 1 && Unopened(t)[0] in t
    ensures var m := Unopened(t)[0]; var o := OpenFirst(t, hl, hr);
            && LeftItem(m, hl) in o && RightItem(m, hr) in o
            && (forall x :: x in t ==> x == m || x in o)
            && (forall x :: x in o ==> x in t || x == LeftItem(m, hl) || x == RightItem(m, hr))
  {
    if t[0].count == 1 {
      OpenFirstMembers(t[1..], lo + 1, hi, hl, hr);
      assert Unopened(t) == Unopened(t[1..]);
    } else {
      var o := OpenFirst(t, hl, hr);
      assert o[0] == LeftItem(t[0], hl) && o[1] == RightItem(t[0], hr);
      assert forall j :: 1 <= j < |t| ==> t[j] == o[j + 1];
    }
  }

  /** The children the encoder discloses carry the parent's authentic hash. */
  lemma {:induction false} ParentHash(h: Scheme, b: seq<byte>, m: Item)
    requires m.count > 1 && InTree(m, LeafCount(|b|))
    ensures TreeHash(h, b, m.start, m.count)
         == h.node(m.start, m.count, LeftOf(h, b, m).hash, RightOf(h, b, m).hash)
  {
  }

  // --------------------------------------------------------------- one leaf

  /** The tiling after the opening read from s. */
  ghost function Opened(q: Queues, t: seq<Item>, s: seq<byte>): seq<Item> {
    if q.unopened == [] || |s| < 64 then t else OpenFirst(t, s[..32], s[32..64])
  }

  lemma DisclosureSlices(hl: Hash, hr: Hash, rest: seq<byte>)
    ensures var s := hl + hr + rest;
            |s| >= 64 && s[..32] == hl && s[32..64] == hr && s[64..] == rest
  {
  }

  lemma {:induction false} OpenAuthentic(h: Scheme, b: seq<byte>, t: seq<Item>, lo: nat)
    requires Tiles(t, lo, LeafCount(|b|)) && Unopened(t) != [] && Authentic(h, b, t)
    ensures Unopened(t)[0].count > 1 && InTree(Unopened(t)[0], LeafCount(|b|))
    ensures var m := Unopened(t)[0];
            && m.hash == h.node(m.start, m.count, LeftOf(h, b, m).hash, RightOf(h, b, m).hash)
            && Authentic(h, b, OpenFirst(t, LeftOf(h, b, m).hash, RightOf(h, b, m).hash))
  {
    hide Tiles, Unopened, OpenFirst, TreeHash, LeafCount, Split;
    TilingInTree(t, lo, LeafCount(|b|));
    var m := Unopened(t)[0];
    OpenFirstMembers(t, lo, LeafCount(|b|), LeftOf(h, b, m).hash, RightOf(h, b, m).hash);
    ParentHash(h, b, m);
  }

  lemma {:induction false} OpenNextForward(h: Scheme, b: seq<byte>, q: Queues, t: seq<Item>, i: nat, rest: seq<byte>)
    requires Tracks(q, t, i + 1, LeafCount(|b|), 1) && Authentic(h, b, t)
    ensures QueueOk(q.unopened, LeafCount(|b|))
    ensures OpenNext(h, i, q, Disclosure(h, b, q.unopened) + rest).Some?
    ensures var r := OpenNext(h, i, q, Disclosure(h, b, q.unopened) + rest).value;
            r.1 == rest && r.0.unopened == NextQueue(h, b, q.unopened)
    ensures Authentic(h, b, Opened(q, t, Disclosure(h, b, q.unopened) + rest))
  {
    TilingInTree(t, i + 1, LeafCount(|b|));
    if q.unopened == [] {
      assert [] + rest == rest;
    } else {
      var m := q.unopened[0];
      OpenAuthentic(h, b, t, i + 1);
      var hl, hr := LeftOf(h, b, m).hash, RightOf(h, b, m).hash;
      DisclosureSlices(hl, hr, rest);
      OpenTracks(q, t, i + 1, LeafCount(|b|), hl, hr);
      OpenIsNextQueue(h, b, q);
    }
  }

  lemma {:induction false} OpenNextTracks(h: Scheme, q: Queues, t: seq<Item>, i: nat, n: nat, s: seq<byte>)
    requires Tracks(q, t, i + 1, n, 1) && OpenNext(h, i, q, s).Some?
    ensures Tracks(OpenNext(h, i, q, s).value.0, Opened(q, t, s), i + 1, n, 0)
  {
    if q.unopened == [] {
      NothingUnopened(t, 1);
    } else {
      OpenTracks(q, t, i + 1, n, s[..32], s[32..64]);
    }
  }

  /** If what was opened is authentic, so is what it was opened from, and the
      bytes read are the encoder's disclosure. */
  lemma {:induction false} OpenNextBackward(h: Scheme, b: seq<byte>, q: Queues, t: seq<Item>, i: nat, s: seq<byte>)
    requires Tracks(q, t, i + 1, LeafCount(|b|), 1) && OpenNext(h, i, q, s).Some?
    requires Authentic(h, b, Opened(q, t, s))
    ensures QueueOk(q.unopened, LeafCount(|b|))
    ensures Authentic(h, b, t)
    ensures s == Disclosure(h, b, q.unopened) + OpenNext(h, i, q, s).value.1
    ensures OpenNext(h, i, q, s).value.0.unopened == NextQueue(h, b, q.unopened)
  {
    hide Tiles, Timely, Unopened, Expected, OpenFirst, TreeHash, Open, LeafCount, Split;
    var n := LeafCount(|b|);
    TilingInTree(t, i + 1, n);
    if q.unopened == [] {
      assert s == [] + s;
    } else {
      var m := q.unopened[0];
      var hl: Hash, hr: Hash := s[..32], s[32..64];
      OpenFirstMembers(t, i + 1, n, hl, hr);
      assert hl == LeftOf(h, b, m).hash && hr == RightOf(h, b, m).hash;
      ParentHash(h, b, m);
      OpenIsNextQueue(h, b, q);
      assert s == hl + hr + s[64..];
    }
  }

  /** The queues once the current leaf's hash has been taken. */
  ghost function Taken(q: Queues): Queues
    requires q.expected != []
  {
    q.(expected := q.expected[1..])
  }

  lemma {:induction false} MatchLeafOpens(h: Scheme, leaf: seq<byte>, q: Queues, t: seq<Item>, i: nat, n: nat,
                                          s: seq<byte>)
    requires i < n && Tracks(q, t, i, n, 0)
    ensures t != [] && q.expected != [] && t[0].start == i && t[0].count == 1
    ensures Tracks(Taken(q), t[1..], i + 1, n, 1)
    ensures MatchLeaf(h, i, leaf, q, s)
         == if h.leaf(i, leaf) != t[0].hash then None else OpenNext(h, i, Taken(q), s)
  {
    HeadIsLeaf(q, t, i, n);
  }

  // -------------------------------------------------------------- page by page

  /** One segment of a leaf. */
  lemma {:induction false} PageStep(p: Params, q: Queues, acc: seq<byte>, page: nat, s: seq<byte>, i: nat, n: nat)
    requires |acc| < p.len && page > 0 && i == |acc| / LEAF_BYTES && |acc| <= LeafStart(p.len, i + 1) <= p.len
    requires n == Min(page, LeafStart(p.len, i + 1) - |acc|)
    ensures DecodePages(p, q, acc, page, s) ==
            if |s| < n then None
            else
              var acc' := acc + s[..n];
              if |acc'| < LeafStart(p.len, i + 1) then DecodePages(p, q, acc', page - n, s[n..])
              else match MatchLeaf(p.h, i, acc'[i * LEAF_BYTES..], q, s[n..])
                case None => None
                case Some((q', s')) => DecodePages(p, q', acc', page - n, s')
  {
    hide MatchLeaf, FromLittleEndian, LeafStart;
  }

  lemma BodyStep(p: Params, q: Queues, acc: seq<byte>, page: nat, s: seq<byte>, i: nat, n: nat)
    requires |acc| + page <= p.len && page > 0 && i == |acc| / LEAF_BYTES && |acc| < LeafStart(p.len, i + 1)
    requires n == Min(page, LeafStart(p.len, i + 1) - |acc|)
    ensures PageBody(p, q, acc, page, s) ==
            if |s| < n then None
            else
              var acc' := acc + s[..n];
              if |acc'| < LeafStart(p.len, i + 1) then PageBody(p, q, acc', page - n, s[n..])
              else match MatchLeaf(p.h, i, acc'[i * LEAF_BYTES..], q, s[n..])
                case None => None
                case Some((q', s')) => PageBody(p, q', acc', page - n, s')
  {
    hide MatchLeaf, LeafStart;
  }

  lemma BodyDone(p: Params, q: Queues, acc: seq<byte>, s: seq<byte>)
    requires |acc| <= p.len
    ensures PageBody(p, q, acc, 0, s) == Some((acc, q, s))
  {
  }

  /** Page by page: what is left of a page, and then the next ones. */
  lemma {:induction false} PagesSplit(p: Params, q: Queues, acc: seq<byte>, page: nat, s: seq<byte>)
    requires |acc| + page <= p.len
    ensures DecodePages(p, q, acc, page, s) ==
            match PageBody(p, q, acc, page, s)
            case None => None
            case Some((acc', q', s')) => DecodePages(p, q', acc', 0, s')
    decreases page
  {
    hide MatchLeaf, FromLittleEndian, LeafStart, DecodePages;
    if page > 0 {
      var i := |acc| / LEAF_BYTES;
      assert |acc| < LeafStart(p.len, i + 1) <= p.len by { LeafAhead(p.len, |acc|); }
      var n := Min(page, LeafStart(p.len, i + 1) - |acc|);
      PageStep(p, q, acc, page, s, i, n);
      if |s| >= n {
        var acc' := acc + s[..n];
        if |acc'| < LeafStart(p.len, i + 1) {
          PagesSplit(p, q, acc', page - n, s[n..]);
        } else {
          var m := MatchLeaf(p.h, i, acc'[i * LEAF_BYTES..], q, s[n..]);
          if m.Some? {
            PagesSplit(p, m.value.0, acc', page - n, m.value.1);
          }
        }
      }
    }
  }

  lemma LeafAhead(len: nat, off: nat)
    requires off < len
    ensures off < LeafStart(len, off / LEAF_BYTES + 1) <= len
  {
  }

  // ------------------------------------------------------- pages with a checksum

  /** A completed leaf reads a disclosure or nothing, and does not look beyond. */
  lemma {:induction false} MatchLocal(h: Scheme, i: nat, leaf: seq<byte>, q: Queues, s: seq<byte>, more: seq<byte>)
    requires MatchLeaf(h, i, leaf, q, s).Some?
    ensures var (q', s') := MatchLeaf(h, i, leaf, q, s).value;
            var n := |s| - |s'|; s' == s[n..] && MatchLeaf(h, i, leaf, q, s[..n] + more) == Some((q', more))
  {
    hide Open, Take;
    var (q', s') := MatchLeaf(h, i, leaf, q, s).value;
    var n := |s| - |s'|;
    var t := s[..n] + more;
    if n == 64 {
      assert t[..32] == s[..32] && t[32..64] == s[32..64] && t[64..] == more;
    } else {
      assert t == more;
    }
  }

  /** Nor does a page. */
  lemma {:induction false} PageLocal(p: Params, q: Queues, acc: seq<byte>, page: nat, s: seq<byte>, more: seq<byte>)
    requires |acc| + page <= p.len && PageBody(p, q, acc, page, s).Some?
    ensures var (acc', q', s') := PageBody(p, q, acc, page, s).value;
            var n := |s| - |s'|;
            s' == s[n..] && PageBody(p, q, acc, page, s[..n] + more) == Some((acc', q', more))
    decreases page
  {
    hide MatchLeaf, LeafStart, PageBody;
    var (acc', q', s') := PageBody(p, q, acc, page, s).value;
    var t := s[..|s| - |s'|] + more;
    if page == 0 {
      BodyDone(p, q, acc, s);
      BodyDone(p, q, acc, more);
      assert t == more;
    } else {
      var i := |acc| / LEAF_BYTES;
      assert |acc| < LeafStart(p.len, i + 1) <= p.len by { LeafAhead(p.len, |acc|); }
      var n := Min(page, LeafStart(p.len, i + 1) - |acc|);
      BodyStep(p, q, acc, page, s, i, n);
      var next := acc + s[..n];
      if |next| < LeafStart(p.len, i + 1) {
        PageLocal(p, q, next, page - n, s[n..], more);
        Prefixed(s, n, |s'|, more);
      } else {
        var (q1, s1) := MatchLeaf(p.h, i, next[i * LEAF_BYTES..], q, s[n..]).value;
        PageLocal(p, q1, next, page - n, s1, more);
        MatchLocal(p.h, i, next[i * LEAF_BYTES..], q, s[n..], s1[..|s1| - |s'|] + more);
        LeafPrefixed(s, n, s1, |s'|, more);
      }
      BodyStep(p, q, acc, page, t, i, n);
    }
  }

  /** A leaf's bytes, what it disclosed, and the rest of the page. */
  lemma {:induction false} LeafPrefixed(s: seq<byte>, n: nat, s1: seq<byte>, left: nat, more: seq<byte>)
    requires n + |s1| <= |s| && left <= |s1| && s1 == s[n..][|s| - n - |s1|..]
    ensures var t := s[..|s| - left] + more;
            && |t| >= n && t[..n] == s[..n] && s1[|s1| - left..] == s[|s| - left..]
            && t[n..] == s[n..][..|s| - n - |s1|] + (s1[..|s1| - left] + more)
  {
    Prefixed(s, n, left, more);
    var u := s[n..];
    assert u[..|u| - left] == u[..|u| - |s1|] + s1[..|s1| - left];
  }

  /** The bytes read, in two parts. */
  lemma Prefixed(s: seq<byte>, n: nat, left: nat, more: seq<byte>)
    requires n + left <= |s|
    ensures var t := s[..|s| - left] + more;
            |t| >= n && t[..n] == s[..n] && t[n..] == s[n..][..|s| - n - left] + more
                && s[n..][|s| - n - left..] == s[|s| - left..]
  {
  }

  /** Checksums add nothing: an accepted stream with them is an accepted stream
      without them, of the same natural. */
  lemma {:induction false} CheckedIsPlain(p: Params, q: Queues, acc: seq<byte>, s: seq<byte>) returns (t: seq<byte>)
    requires !p.canonical && |acc| <= p.len && DecodeChecked(p, q, acc, s).Some?
    ensures var (b, q', rest) := DecodeChecked(p, q, acc, s).value;
            DecodePages(p, q, acc, 0, t + rest) == Some((b, q', rest))
    decreases p.len - |acc|
  {
    hide PageBody, FromLittleEndian, DecodePages;
    var (b, q', rest) := DecodeChecked(p, q, acc, s).value;
    t := [];
    if |acc| == p.len {
      assert t + rest == rest;
      NoPages(p, q, acc, rest);
    } else {
      var length := FromLittleEndian(s[..p.pageWidth]);
      var body := s[p.pageWidth..];
      var (acc1, q1, s1) := PageBody(p, q, acc, length, body).value;
      var u := CheckedIsPlain(p, q1, acc1, s1[4..]);
      var page := body[..|body| - |s1|];
      PageLocal(p, q, acc, length, body, u + rest);
      t := s[..p.pageWidth] + page + u;
      assert t + rest == s[..p.pageWidth] + (page + (u + rest));
      PagesSplit(p, q, acc, length, page + (u + rest));
      PagesBegin(p, q, acc, s[..p.pageWidth], page + (u + rest));
    }
  }

  lemma NoPages(p: Params, q: Queues, acc: seq<byte>, s: seq<byte>)
    requires |acc| == p.len
    ensures DecodePages(p, q, acc, 0, s) == Some((acc, q, s))
  {
  }

  /** A page begins with its length. */
  lemma PagesBegin(p: Params, q: Queues, acc: seq<byte>, field: seq<byte>, s: seq<byte>)
    requires !p.canonical && |acc| < p.len && |field| == p.pageWidth && 0 < FromLittleEndian(field) <= p.len - |acc|
    ensures DecodePages(p, q, acc, 0, field + s) == DecodePages(p, q, acc, FromLittleEndian(field), s)
  {
    hide FromLittleEndian, MatchLeaf, LeafStart;
    assert (field + s)[..p.pageWidth] == field && (field + s)[p.pageWidth..] == s;
  }

  /** Bytes of the current page still to come when leaf i starts. */
  function PageLeft(len: nat, i: nat): nat
    requires i < LeafCount(len)
  {
    if i % PAGE_LEAVES == 0 then 0 else Min(len, (i / PAGE_LEAVES + 1) * PAGE_BYTES) - i * LEAF_BYTES
  }

  /** The length field expected in front of leaf i, or nothing. */
  ghost predicate HeaderOk(p: Params, i: nat, s: seq<byte>)
    requires i < LeafCount(p.len)
  {
    i % PAGE_LEAVES == 0 ==>
      |s| >= p.pageWidth && FromLittleEndian(s[..p.pageWidth]) == Min(p.len - i * LEAF_BYTES, PAGE_BYTES)
  }

  ghost function AfterHeader(p: Params, i: nat, s: seq<byte>): seq<byte> {
    if i % PAGE_LEAVES == 0 && |s| >= p.pageWidth then s[p.pageWidth..] else s
  }

  /** In canonical streams the pages split between leaves, so one leaf is one step. */
  ghost function DecodeLeaf(p: Params, q: Queues, i: nat, s: seq<byte>): Option<(seq<byte>, Queues, seq<byte>)>
    requires i < LeafCount(p.len)
  {
    var s1 := AfterHeader(p, i, s);
    var k := LeafStart(p.len, i + 1) - i * LEAF_BYTES;
    if !HeaderOk(p, i, s) || |s1| < k then None
    else match MatchLeaf(p.h, i, s1[..k], q, s1[k..])
      case None => None
      case Some((q', s')) => Some((s1[..k], q', s'))
  }

  /** Bytes of the page left once leaf i has been read. */
  function PageAfter(len: nat, i: nat): nat
    requires i < LeafCount(len)
  {
    Min(len, (i / PAGE_LEAVES + 1) * PAGE_BYTES) - LeafStart(len, i + 1)
  }

  lemma {:induction false} PageArithmetic(len: nat, i: nat)
    requires i < LeafCount(len)
    ensures i * LEAF_BYTES < len
    ensures (i / PAGE_LEAVES + 1) * PAGE_BYTES >= (i + 1) * LEAF_BYTES
    ensures i % PAGE_LEAVES == 0 ==> (i / PAGE_LEAVES + 1) * PAGE_BYTES == i * LEAF_BYTES + PAGE_BYTES
    ensures i + 1 < LeafCount(len) ==> PageAfter(len, i) == PageLeft(len, i + 1)
    ensures i + 1 < LeafCount(len) <==> LeafStart(len, i + 1) < len
  {
    hide PageAfter, PageLeft;
    NextPage(i);
    if i + 1 < LeafCount(len) {
      PageGoesOn(len, i);
    }
  }

  lemma NextPage(i: nat)
    ensures (i + 1) % PAGE_LEAVES == 0 <==> (i + 1) / PAGE_LEAVES == i / PAGE_LEAVES + 1
    ensures (i + 1) % PAGE_LEAVES != 0 <==> (i + 1) / PAGE_LEAVES == i / PAGE_LEAVES
    ensures (i + 1) % PAGE_LEAVES == 0 ==> (i / PAGE_LEAVES + 1) * PAGE_BYTES == (i + 1) * LEAF_BYTES
  {
  }

  lemma PageGoesOn(len: nat, i: nat)
    requires i + 1 < LeafCount(len)
    ensures PageAfter(len, i) == PageLeft(len, i + 1)
  {
    NextPage(i);
    assert (i + 1) * LEAF_BYTES < len;
  }

  lemma {:induction false} LeafInPage(p: Params, q: Queues, acc: seq<byte>, page: nat, s: seq<byte>, i: nat)
    requires p.canonical && i < LeafCount(p.len) && |acc| == i * LEAF_BYTES < p.len
    requires page >= LeafStart(p.len, i + 1) - i * LEAF_BYTES > 0
    ensures DecodePages(p, q, acc, page, s) ==
            var k := LeafStart(p.len, i + 1) - i * LEAF_BYTES;
            if |s| < k then None
            else match MatchLeaf(p.h, i, s[..k], q, s[k..])
              case None => None
              case Some((q', s')) => DecodePages(p, q', acc + s[..k], page - k, s')
  {
    hide MatchLeaf, DecodePages, LeafStart, LeafCount;
    var k := LeafStart(p.len, i + 1) - i * LEAF_BYTES;
    LeafStartAt(p.len, i);
    PageStep(p, q, acc, page, s, i, k);
    if |s| >= k {
      var acc' := acc + s[..k];
      assert acc'[i * LEAF_BYTES..] == s[..k];
    }
  }

  lemma LeafStartAt(len: nat, i: nat)
    requires i < LeafCount(len)
    ensures (i * LEAF_BYTES) / LEAF_BYTES == i && LeafStart(len, i + 1) <= len
            && i * LEAF_BYTES <= LeafStart(len, i + 1)
  {
  }

  lemma {:induction false} LeafStep(p: Params, q: Queues, acc: seq<byte>, s: seq<byte>, i: nat)
    requires p.canonical && i < LeafCount(p.len) && |acc| == i * LEAF_BYTES < p.len
    ensures DecodePages(p, q, acc, PageLeft(p.len, i), s) ==
            match DecodeLeaf(p, q, i, s)
            case None => None
            case Some((leaf, q', s')) => DecodePages(p, q', acc + leaf, PageAfter(p.len, i), s')
  {
    hide MatchLeaf, DecodePages, FromLittleEndian;
    PageArithmetic(p.len, i);
    var page := Min(p.len, (i / PAGE_LEAVES + 1) * PAGE_BYTES) - i * LEAF_BYTES;
    PageHead(p, q, acc, s, i);
    if HeaderOk(p, i, s) {
      LeafInPage(p, q, acc, page, AfterHeader(p, i, s), i);
    }
  }

  /** Reading the page length, where there is one in front of leaf i. */
  lemma {:induction false} PageHead(p: Params, q: Queues, acc: seq<byte>, s: seq<byte>, i: nat)
    requires p.canonical && i < LeafCount(p.len) && |acc| == i * LEAF_BYTES < p.len
    ensures var page := Min(p.len, (i / PAGE_LEAVES + 1) * PAGE_BYTES) - i * LEAF_BYTES;
            && page > 0
            && DecodePages(p, q, acc, PageLeft(p.len, i), s) ==
               if HeaderOk(p, i, s) then DecodePages(p, q, acc, page, AfterHeader(p, i, s)) else None
  {
    hide MatchLeaf, FromLittleEndian, LeafStart;
    PageArithmetic(p.len, i);
  }

  // ------------------------------------------------------- encoder and decoder

  lemma {:induction false} HeaderForward(p: Params, i: nat, tail: seq<byte>)
    requires i < LeafCount(p.len) && p.pageWidth >= Width(MaxPage(p.len))
    ensures i * LEAF_BYTES <= p.len
    ensures HeaderOk(p, i, PageHeader(p.len, p.pageWidth, i) + tail)
    ensures AfterHeader(p, i, PageHeader(p.len, p.pageWidth, i) + tail) == tail
  {
    PageArithmetic(p.len, i);
    var header := PageHeader(p.len, p.pageWidth, i);
    var s := header + tail;
    if i % PAGE_LEAVES == 0 {
      var v := Min(p.len - i * LEAF_BYTES, PAGE_BYTES);
      WidthMonotone(v, MaxPage(p.len));
      LittleEndianRoundTrip(v, p.pageWidth);
      assert s[..p.pageWidth] == header && s[p.pageWidth..] == tail;
    } else {
      assert s == tail;
    }
  }

  lemma {:induction false} HeaderBackward(p: Params, i: nat, s: seq<byte>)
    requires i < LeafCount(p.len) && HeaderOk(p, i, s)
    ensures i * LEAF_BYTES <= p.len
    ensures s == PageHeader(p.len, p.pageWidth, i) + AfterHeader(p, i, s)
  {
    PageArithmetic(p.len, i);
    if i % PAGE_LEAVES == 0 {
      BytesRoundTrip(s[..p.pageWidth]);
      assert s == s[..p.pageWidth] + s[p.pageWidth..];
    } else {
      assert s == [] + s;
    }
  }

  lemma {:induction false} HeadAuthentic(h: Scheme, b: seq<byte>, t: seq<Item>)
    requires t != [] && Authentic(h, b, t) && t[0].count == 1
    ensures t[0].start < LeafCount(|b|) && t[0].hash == h.leaf(t[0].start, Leaf(b, t[0].start))
    ensures Authentic(h, b, t[1..])
  {
    assert t[0] in t;
  }

  lemma {:induction false} TailAuthentic(h: Scheme, b: seq<byte>, t: seq<Item>)
    requires t != [] && t[0].count == 1 && t[0].start < LeafCount(|b|) && Authentic(h, b, t[1..])
    requires t[0].hash == h.leaf(t[0].start, Leaf(b, t[0].start))
    ensures Authentic(h, b, t)
  {
    assert t == [t[0]] + t[1..];
  }

  lemma {:induction false} DecodeLeafForward(p: Params, b: seq<byte>, q: Queues, t: seq<Item>, i: nat, rest: seq<byte>)
    returns (q': Queues, t': seq<Item>)
    requires |b| == p.len && i < LeafCount(p.len) && p.pageWidth >= Width(MaxPage(p.len))
    requires Tracks(q, t, i, LeafCount(p.len), 0) && Authentic(p.h, b, t)
    ensures QueueOk(q.unopened, LeafCount(p.len))
    ensures DecodeLeaf(p, q, i, LeafRecord(p.h, b, p.pageWidth, q.unopened, i) + rest)
         == Some((Leaf(b, i), q', rest))
    ensures q'.unopened == NextQueue(p.h, b, q.unopened)
    ensures Tracks(q', t', i + 1, LeafCount(p.len), 0) && Authentic(p.h, b, t')
  {
    hide NextQueue, Disclosure, PageHeader, HeaderOk, AfterHeader, Unopened, Expected, Timely, Tiles, OpenNext,
         MatchLeaf, Opened, LeafCount;
    var n := LeafCount(p.len);
    TilingInTree(t, i, n);
    PageAtStep(p.len, i);
    var header, leaf, d := PageHeader(p.len, p.pageWidth, i), Leaf(b, i), Disclosure(p.h, b, q.unopened);
    HeaderForward(p, i, leaf + (d + rest));
    assert header + leaf + d + rest == header + (leaf + (d + rest));
    assert (leaf + (d + rest))[..|leaf|] == leaf && (leaf + (d + rest))[|leaf|..] == d + rest;
    MatchLeafOpens(p.h, leaf, q, t, i, n, d + rest);
    HeadAuthentic(p.h, b, t);
    OpenNextForward(p.h, b, Taken(q), t[1..], i, rest);
    OpenNextTracks(p.h, Taken(q), t[1..], i, n, d + rest);
    q' := OpenNext(p.h, i, Taken(q), d + rest).value.0;
    t' := Opened(Taken(q), t[1..], d + rest);
  }

  lemma {:induction false} DecodeLeafTracks(p: Params, q: Queues, t: seq<Item>, i: nat, s: seq<byte>)
    returns (t': seq<Item>, d: seq<byte>)
    requires i < LeafCount(p.len) && Tracks(q, t, i, LeafCount(p.len), 0) && DecodeLeaf(p, q, i, s).Some?
    ensures t != [] && q.expected != []
    ensures var (leaf, q', s') := DecodeLeaf(p, q, i, s).value;
            && |leaf| == LeafStart(p.len, i + 1) - i * LEAF_BYTES
            && HeaderOk(p, i, s) && AfterHeader(p, i, s) == leaf + d
            && MatchLeaf(p.h, i, leaf, q, d) == Some((q', s'))
            && Tracks(q', t', i + 1, LeafCount(p.len), 0)
            && t' == Opened(Taken(q), t[1..], d)
  {
    var n := LeafCount(p.len);
    var s1 := AfterHeader(p, i, s);
    var k := LeafStart(p.len, i + 1) - i * LEAF_BYTES;
    d := s1[k..];
    assert s1 == s1[..k] + d;
    MatchLeafOpens(p.h, s1[..k], q, t, i, n, d);
    OpenNextTracks(p.h, Taken(q), t[1..], i, n, d);
    t' := Opened(Taken(q), t[1..], d);
  }

  lemma {:induction false} DecodeLeafBackward(p: Params, b: seq<byte>, q: Queues, t: seq<Item>, i: nat, s: seq<byte>,
                                              d: seq<byte>)
    requires |b| == p.len && i < LeafCount(p.len) && Tracks(q, t, i, LeafCount(p.len), 0)
    requires t != [] && q.expected != []
    requires HeaderOk(p, i, s) && AfterHeader(p, i, s) == Leaf(b, i) + d
    requires MatchLeaf(p.h, i, Leaf(b, i), q, d).Some?
    requires Authentic(p.h, b, Opened(Taken(q), t[1..], d))
    ensures QueueOk(q.unopened, LeafCount(p.len))
    ensures Authentic(p.h, b, t)
    ensures var (q', s') := MatchLeaf(p.h, i, Leaf(b, i), q, d).value;
            && s == LeafRecord(p.h, b, p.pageWidth, q.unopened, i) + s'
            && q'.unopened == NextQueue(p.h, b, q.unopened)
  {
    hide NextQueue, Disclosure, PageHeader, HeaderOk, AfterHeader, Unopened, Expected, Timely, Tiles, OpenNext,
         MatchLeaf, Opened, LeafCount, TreeHash;
    MatchLeafOpens(p.h, Leaf(b, i), q, t, i, LeafCount(p.len), d);
    OpenNextBackward(p.h, b, Taken(q), t[1..], i, d);
    HeaderBackward(p, i, s);
    TilingInTree(t, i, LeafCount(p.len));
    TailAuthentic(p.h, b, t);
    var s' := MatchLeaf(p.h, i, Leaf(b, i), q, d).value.1;
    assert PageHeader(p.len, p.pageWidth, i) + (Leaf(b, i) + (Disclosure(p.h, b, q.unopened) + s'))
        == LeafRecord(p.h, b, p.pageWidth, q.unopened, i) + s';
  }

  /** Bytes of the page left at leaf i, also past the last leaf. */
  ghost function PageAt(len: nat, i: nat): nat
    requires i <= LeafCount(len)
  {
    if i < LeafCount(len) then PageLeft(len, i) else if i == 0 then 0 else PageAfter(len, i - 1)
  }

  lemma {:induction false} PageAtStep(len: nat, i: nat)
    requires i < LeafCount(len)
    ensures PageAt(len, i) == PageLeft(len, i) && PageAt(len, i + 1) == PageAfter(len, i)
    ensures LeafStart(len, i) == i * LEAF_BYTES < len
    ensures LeafStart(len, i) <= LeafStart(len, i + 1) <= len
  {
    PageArithmetic(len, i);
  }

  lemma {:induction false} TracksQueueOk(q: Queues, t: seq<Item>, lo: nat, hi: nat)
    requires Tracks(q, t, lo, hi, 0)
    ensures QueueOk(q.unopened, hi)
  {
    TilingInTree(t, lo, hi);
  }

  lemma {:induction false} PagesDone(p: Params, q: Queues, t: seq<Item>, acc: seq<byte>, page: nat, s: seq<byte>)
    requires |acc| == LeafStart(p.len, LeafCount(p.len))
    requires Tracks(q, t, LeafCount(p.len), LeafCount(p.len), 0)
    ensures |acc| == p.len && Authentic(p.h, acc, t)
    ensures DecodePages(p, q, acc, page, s) == Some((acc, Queues([], []), s))
  {
    EmptyTiling(t, LeafCount(p.len));
  }

  lemma {:induction false} PagesForward(p: Params, b: seq<byte>, q: Queues, t: seq<Item>, i: nat, rest: seq<byte>)
    requires p.canonical && |b| == p.len && i <= LeafCount(p.len) && p.pageWidth >= Width(MaxPage(p.len))
    requires Tracks(q, t, i, LeafCount(p.len), 0) && Authentic(p.h, b, t)
    ensures QueueOk(q.unopened, LeafCount(p.len))
    ensures DecodePages(p, q, b[..LeafStart(p.len, i)], PageAt(p.len, i),
                        EncodeLeaves(p.h, b, p.pageWidth, q.unopened, i) + rest)
         == Some((b, Queues([], []), rest))
    decreases LeafCount(p.len) - i
  {
    hide Authentic, NextQueue, Disclosure, LeafRecord, DecodeLeaf, DecodePages, PageAt, PageLeft, PageAfter,
         LeafCount, Unopened, Expected, Timely, TreeHash, Tiles, Tracks, QueueOk, Taken, MatchLeaf, Opened,
         HeaderOk, AfterHeader;
    TracksQueueOk(q, t, i, LeafCount(p.len));
    if i == LeafCount(p.len) {
      PagesDone(p, q, t, b[..LeafStart(p.len, i)], PageAt(p.len, i), rest);
      assert b[..LeafStart(p.len, i)] == b;
      assert [] + rest == rest;
    } else {
      PageAtStep(p.len, i);
      var tail := EncodeLeaves(p.h, b, p.pageWidth, NextQueue(p.h, b, q.unopened), i + 1);
      var q', t' := DecodeLeafForward(p, b, q, t, i, tail + rest);
      var one := LeafRecord(p.h, b, p.pageWidth, q.unopened, i);
      assert one + tail + rest == one + (tail + rest);
      LeafStep(p, q, b[..LeafStart(p.len, i)], one + tail + rest, i);
      assert b[..LeafStart(p.len, i)] + Leaf(b, i) == b[..LeafStart(p.len, i + 1)];
      PagesForward(p, b, q', t', i + 1, rest);
    }
  }

  lemma {:induction false} PagesBackward(p: Params, q: Queues, t: seq<Item>, i: nat, acc: seq<byte>, s: seq<byte>)
    requires p.canonical && i <= LeafCount(p.len) && |acc| == LeafStart(p.len, i)
    requires Tracks(q, t, i, LeafCount(p.len), 0)
    requires DecodePages(p, q, acc, PageAt(p.len, i), s).Some?
    ensures QueueOk(q.unopened, LeafCount(p.len))
    ensures var (b, q', rest) := DecodePages(p, q, acc, PageAt(p.len, i), s).value;
            && Authentic(p.h, b, t)
            && q' == Queues([], [])
            && s == EncodeLeaves(p.h, b, p.pageWidth, q.unopened, i) + rest
    decreases LeafCount(p.len) - i
  {
    hide Authentic, NextQueue, Disclosure, LeafRecord, DecodeLeaf, DecodePages, PageAt, PageLeft, PageAfter,
         LeafCount, Unopened, Expected, Timely, TreeHash, Tiles, Tracks, QueueOk, Taken, MatchLeaf, Opened,
         HeaderOk, AfterHeader;
    TracksQueueOk(q, t, i, LeafCount(p.len));
    if i == LeafCount(p.len) {
      PagesDone(p, q, t, acc, PageAt(p.len, i), s);
      assert s == [] + s;
    } else {
      PageAtStep(p.len, i);
      LeafStep(p, q, acc, s, i);
      var (b, _, rest) := DecodePages(p, q, acc, PageAt(p.len, i), s).value;
      var (leaf, q', s') := DecodeLeaf(p, q, i, s).value;
      var t', d := DecodeLeafTracks(p, q, t, i, s);
      PagesBackward(p, q', t', i + 1, acc + leaf, s');
      assert acc + leaf <= b;
      assert Leaf(b, i) == b[..|acc + leaf|][|acc|..] == leaf;
      DecodeLeafBackward(p, b, q, t, i, s, d);
      var one := LeafRecord(p.h, b, p.pageWidth, q.unopened, i);
      var tail := EncodeLeaves(p.h, b, p.pageWidth, q'.unopened, i + 1);
      assert one + (tail + rest) == one + tail + rest;
    }
  }

  // ---------------------------------------------------------- the initial proof

  lemma {:induction false} ReadHashesForward(hs: seq<Hash>, rest: seq<byte>)
    ensures ReadHashes(|hs|, Concat(hs) + rest) == Some((hs, rest))
  {
    if hs == [] {
      assert Concat(hs) + rest == rest;
    } else {
      var s := Concat(hs) + rest;
      assert s[..32] == hs[0] && s[32..] == Concat(hs[1..]) + rest;
      ReadHashesForward(hs[1..], rest);
      assert hs == [hs[0]] + hs[1..];
    }
  }

  lemma {:induction false} ReadHashesBackward(count: nat, s: seq<byte>)
    requires ReadHashes(count, s).Some?
    ensures s == Concat(ReadHashes(count, s).value.0) + ReadHashes(count, s).value.1
    decreases count
  {
    if count == 0 {
      assert s == [] + s;
    } else {
      ReadHashesBackward(count - 1, s[32..]);
      var hs, rest := ReadHashes(count - 1, s[32..]).value.0, ReadHashes(count - 1, s[32..]).value.1;
      var first: Hash := s[..32];
      assert ([first] + hs)[1..] == hs;
      assert s == s[..32] + s[32..];
    }
  }

  lemma {:induction false} FoldIsTreeHash(h: Scheme, b: seq<byte>, count: nat)
    requires 1 <= count <= LeafCount(|b|)
    ensures FoldProof(h, count, TreeHash(h, b, 0, 1), TreeHashes(h, b, count)) == TreeHash(h, b, 0, count)
    decreases count
  {
    if count > 1 {
      FoldIsTreeHash(h, b, Split(count));
      assert TreeHashes(h, b, count)[1..] == TreeHashes(h, b, Split(count));
    }
  }

  lemma {:induction false} ConsAuthentic(h: Scheme, b: seq<byte>, x: Item, t: seq<Item>)
    requires Authentic(h, b, t) && InTree(x, LeafCount(|b|)) && x.hash == TreeHash(h, b, x.start, x.count)
    ensures Authentic(h, b, [x] + t)
  {
  }

  lemma {:induction false} SpineAuthentic(h: Scheme, b: seq<byte>, count: nat, above: seq<Item>)
    requires 1 <= count <= LeafCount(|b|) && Authentic(h, b, above)
    ensures Authentic(h, b, SpineTiling(count, TreeHashes(h, b, count), above))
    decreases count
  {
    hide Authentic, TreeHash;
    if count > 1 {
      var k := Split(count);
      assert TreeHashes(h, b, count)[1..] == TreeHashes(h, b, k);
      var x := Item(k, count - k, TreeHash(h, b, k, count - k));
      ConsAuthentic(h, b, x, above);
      SpineAuthentic(h, b, k, [x] + above);
    }
  }

  lemma {:induction false} SpineForces(h: Scheme, b: seq<byte>, count: nat, siblings: seq<Hash>, above: seq<Item>)
    requires 1 <= count <= LeafCount(|b|) && |siblings| == LeftDepth(count)
    requires Authentic(h, b, SpineTiling(count, siblings, above))
    ensures siblings == TreeHashes(h, b, count)
    ensures forall x :: x in above ==> x in SpineTiling(count, siblings, above)
    decreases count
  {
    if count > 1 {
      var k := Split(count);
      var x := Item(k, count - k, siblings[0]);
      SpineForces(h, b, k, siblings[1..], [x] + above);
      assert x in [x] + above;
    }
  }

  lemma {:induction false} SpineQueueIsFileSpine(h: Scheme, b: seq<byte>, q: Queues, count: nat)
    requires 1 <= count <= LeafCount(|b|) && QueueOk(q.unopened, LeafCount(|b|))
    requires FileSpine(q, count, TreeHashes(h, b, count)).Some?
    ensures FileSpine(q, count, TreeHashes(h, b, count)).value.unopened == SpineQueue(h, b, count, q.unopened)
    decreases count
  {
    if count > 1 {
      var k := Split(count);
      assert TreeHashes(h, b, count)[1..] == TreeHashes(h, b, k);
      var right := Item(k, count - k, TreeHash(h, b, k, count - k));
      if right.count > 1 {
        QueueInsertIsInsert(q.unopened, right);
      }
      QueueInsertOk(q.unopened, right, LeafCount(|b|));
      SpineQueueIsFileSpine(h, b, File(q, right).value, k);
    }
  }

  // -------------------------------------------------------------- the theorems

  lemma {:induction false} BodyForward(h: Scheme, b: seq<byte>, bits: nat, rest: seq<byte>)
    requires b != [] && bits > 0 && ByteLength(bits) == |b|
    ensures var root := h.root(bits, TreeHash(h, b, 0, LeafCount(|b|)));
            DecodeBody(h, true, Header(bits, Width(MaxPage(|b|)), root, false), EncodeBody(h, b) + rest)
            == Some((b, rest))
  {
    hide Authentic, Tracks, DecodePages, EncodeLeaves, FileSpine, SpineTiling, SpineQueue, TreeHash, ReadHashes,
         FoldProof, TreeHashes, LeftDepth, Concat, QueueOk;
    var n := LeafCount(|b|);
    EmptyQueueOk(n);
    var first, siblings := TreeHash(h, b, 0, 1), TreeHashes(h, b, n);
    var pw := Width(MaxPage(|b|));
    var leaves := EncodeLeaves(h, b, pw, SpineQueue(h, b, n, []), 0);
    ReadHashesForward([first] + siblings, leaves + rest);
    assert EncodeBody(h, b) + rest == Concat([first] + siblings) + (leaves + rest);
    assert ([first] + siblings)[1..] == siblings;
    FoldIsTreeHash(h, b, n);
    InitialTracks(n, first, siblings);
    InitialAuthentic(h, b, n);
    SpineQueueIsFileSpine(h, b, Queues([], [Item(0, 1, first)]), n);
    var p := Params(h, |b|, pw, true);
    assert b[..0] == [] && PageAt(|b|, 0) == 0;
    PagesForward(p, b, InitialQueues(n, first, siblings).value, InitialTiling(n, first, siblings), 0, rest);
  }

  lemma EmptyQueueOk(n: nat)
    ensures QueueOk([], n)
  {
  }

  lemma {:induction false} InitialAuthentic(h: Scheme, b: seq<byte>, n: nat)
    requires 1 <= n <= LeafCount(|b|)
    ensures Authentic(h, b, InitialTiling(n, TreeHash(h, b, 0, 1), TreeHashes(h, b, n)))
  {
    SpineAuthentic(h, b, n, []);
  }

  lemma {:induction false} InitialForces(h: Scheme, b: seq<byte>, n: nat, first: Hash, siblings: seq<Hash>)
    requires 1 <= n <= LeafCount(|b|) && |siblings| == LeftDepth(n)
    requires Authentic(h, b, InitialTiling(n, first, siblings))
    ensures first == TreeHash(h, b, 0, 1) && siblings == TreeHashes(h, b, n)
  {
    var t := InitialTiling(n, first, siblings);
    assert t[0] in t;
    assert t[1..] == SpineTiling(n, siblings, []);
    assert forall x :: x in t[1..] ==> x in t;
    SpineForces(h, b, n, siblings, []);
  }

  /** Whatever the decoder accepts is the encoder's own proof and leaves, and the
      declared root is the natural's root hash. */
  lemma {:induction false} BodyBackward(h: Scheme, header: Header, s: seq<byte>)
    requires header.bits > 0 && header.pageWidth == Width(MaxPage(ByteLength(header.bits))) && !header.checked
    requires DecodeBody(h, true, header, s).Some?
    ensures var (b, rest) := DecodeBody(h, true, header, s).value;
            && b != []
            && s == EncodeBody(h, b) + rest
            && header.root == h.root(header.bits, TreeHash(h, b, 0, LeafCount(|b|)))
  {
    hide Authentic, Tracks, DecodePages, EncodeLeaves, FileSpine, SpineTiling, SpineQueue, TreeHash, ReadHashes,
         FoldProof, TreeHashes, LeftDepth, Concat, QueueOk;
    var (b, rest) := DecodeBody(h, true, header, s).value;
    var len := ByteLength(header.bits);
    var n := LeafCount(len);
    var (hs, s1) := ReadHashes(1 + LeftDepth(n), s).value;
    var first, siblings := hs[0], hs[1..];
    ReadHashesBackward(1 + LeftDepth(n), s);
    InitialTracks(n, first, siblings);
    var q := InitialQueues(n, first, siblings).value;
    var p := Params(h, len, header.pageWidth, true);
    assert PageAt(len, 0) == 0;
    PagesBackward(p, q, InitialTiling(n, first, siblings), 0, [], s1);
    InitialForces(h, b, n, first, siblings);
    FoldIsTreeHash(h, b, n);
    EmptyQueueOk(n);
    SpineQueueIsFileSpine(h, b, Queues([], [Item(0, 1, first)]), n);
    assert hs == [first] + siblings;
    var leaves := EncodeLeaves(h, b, header.pageWidth, q.unopened, 0);
    assert Concat(hs) + (leaves + rest) == Concat(hs) + leaves + rest;
  }

  lemma {:induction false} HeaderRoundTrip(bits: nat, pw: nat, root: Hash, rest: seq<byte>)
    requires bits > 0 && Width(bits) <= 8 && 1 <= pw <= 8
    ensures DecodeHeader(EncodeHeader(bits, pw, root) + rest) == Some((Header(bits, pw, root, false), rest))
  {
    hide Width, LittleEndian, FromLittleEndian;
    var lw := Width(bits);
    LittleEndianRoundTrip(bits, lw);
    var s := EncodeHeader(bits, pw, root) + rest;
    FourParts([0, lw - 1, pw - 1], LittleEndian(bits, lw), root, rest);
    assert (lw - 1) % 256 == lw - 1;
    assert s == [0, lw - 1, pw - 1] + LittleEndian(bits, lw) + root + rest;
  }

  lemma FourParts(a: seq<byte>, b: seq<byte>, c: seq<byte>, d: seq<byte>)
    ensures var s, n := a + b + c + d, |a| + |b|;
            && s[..|a|] == a && s[|a|..n] == b && s[n..n + |c|] == c && s[n + |c|..] == d
            && (forall i :: 0 <= i < |a| ==> s[i] == a[i])
  {
  }

  lemma {:induction false} HeaderCanonical(s: seq<byte>)
    requires DecodeHeader(s).Some? && DecodeHeader(s).value.0.pageWidth >= 1 && !DecodeHeader(s).value.0.checked
    ensures var (header, rest) := DecodeHeader(s).value;
            && header.bits > 0 && header.pageWidth <= 8
            && s == EncodeHeader(header.bits, header.pageWidth, header.root) + rest
  {
    hide Width, LittleEndian, FromLittleEndian;
    var (header, rest) := DecodeHeader(s).value;
    var lw := Width(header.bits);
    BytesRoundTrip(s[3..3 + lw]);
    assert s == s[..3] + s[3..3 + lw] + s[3 + lw..3 + lw + 32] + s[3 + lw + 32..];
    assert s[..3] == [s[0], s[1], s[2]];
    assert s[1] == lw - 1 && s[2] == header.pageWidth - 1 && (lw - 1) % 256 == lw - 1;
  }

  lemma {:induction false} BitsSpan(b: nat, k: nat)
    ensures Bits(b) == k + 1 <==> Pow2(k) <= b < Pow2(k + 1)
    ensures b < Pow2(k) ==> Bits(b) <= k
  {
    if k > 0 && b > 0 {
      BitsSpan(b / 2, k - 1);
    } else if b > 1 {
      assert Bits(b) == 1 + (1 + Bits(b / 2 / 2));
    }
  }

  lemma {:induction false} BitsOfByte(b: nat)
    requires 0 < b < 256
    ensures 1 <= Bits(b) <= 8
  {
    assert Pow2(8) == 256;
    BitsSpan(b, 8);
  }

  lemma {:induction false} BitLengthFacts(b: seq<byte>)
    requires b != [] && Normal(b)
    ensures BitLength(b) > 0 && ByteLength(BitLength(b)) == |b|
    ensures (BitLength(b) - 1) % 8 + 1 == Bits(b[|b| - 1])
    ensures |b| <= MAX_NAT_BYTES ==> Width(BitLength(b)) <= 8
  {
    BitsOfByte(b[|b| - 1]);
    if |b| <= MAX_NAT_BYTES {
      WidthMonotone(BitLength(b), 8 * MAX_NAT_BYTES);
      assert Width(3) == 1 && Width(1023) == 2 && Width(262143) == 3 && Width(67108800) == 4;
    }
  }

  lemma {:induction false} BitLengthFromTop(b: seq<byte>, bits: nat)
    requires bits > 0 && |b| == ByteLength(bits) && Bits(b[|b| - 1]) == (bits - 1) % 8 + 1
    ensures BitLength(b) == bits && Normal(b)
  {
  }

  /** Decoding an encoded natural gives the natural back, and stops exactly at
      the end of its encoding. */
  lemma {:induction false} MnatRoundTrip(h: Scheme, b: seq<byte>, rest: seq<byte>)
    requires Normal(b) && NAT_CUTOVER < |b| <= MAX_NAT_BYTES
    ensures EncodeMnat(h, b) != [] && EncodeMnat(h, b)[0] == 0xf9
    ensures DecodeMnat(h, true, EncodeMnat(h, b)[1..] + rest) == Some((b, rest))
  {
    hide TreeHash, EncodeHeader, DecodeHeader, DecodeBody, EncodeBody, Width, Bits;
    var bits, pw := BitLength(b), Width(MaxPage(|b|));
    var root := h.root(bits, TreeHash(h, b, 0, LeafCount(|b|)));
    PageWidthSmall(|b|);
    BitLengthFacts(b);
    assert EncodeMnat(h, b)[1..] + rest == EncodeHeader(bits, pw, root) + (EncodeBody(h, b) + rest);
    HeaderRoundTrip(bits, pw, root, EncodeBody(h, b) + rest);
    BodyForward(h, b, bits, rest);
  }

  /** Every canonical stream is the encoding of the natural it decodes to. */
  lemma {:induction false} MnatCanonical(h: Scheme, s: seq<byte>)
    requires DecodeMnat(h, true, s).Some?
    ensures var (b, rest) := DecodeMnat(h, true, s).value;
            && Normal(b) && NAT_CUTOVER < |b| <= MAX_NAT_BYTES
            && [0xf9] + s == EncodeMnat(h, b) + rest
  {
    hide TreeHash, EncodeHeader, DecodeHeader, DecodeBody, EncodeBody, Width, Bits;
    var (b, rest) := DecodeMnat(h, true, s).value;
    var (header, s1) := DecodeHeader(s).value;
    HeaderCanonical(s);
    BodyBackward(h, header, s1);
    BitLengthFromTop(b, header.bits);
    var e := EncodeHeader(header.bits, header.pageWidth, header.root);
    assert [0xf9] + (e + (EncodeBody(h, b) + rest)) == [0xf9] + e + EncodeBody(h, b) + rest;
  }
}
