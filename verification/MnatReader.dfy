/** decode_mnat as the program has it: the proof path is read and folded by
    loops, the two queues are updated in place, and the payload arrives through
    nested page and leaf loops.  Proved to compute Mnat.DecodeMnat. */
module MnatReader {
  import opened Basics
  import opened Bytes
  import opened Frontier
  import opened Mnat
  import opened MnatProof

  /** A right sibling on the path to leaf 0, with the count of its parent. */
  datatype Sibling = Sibling(start: nat, count: nat, parentCount: nat, hash: Hash)

  /** The path really is the left spine of a tree of `top` leaves, down to `bottom`. */
  ghost predicate PathOk(path: seq<Sibling>, top: nat, bottom: nat) {
    if path == [] then top == bottom
    else
      && top > 1 && path[0].parentCount == top
      && path[0].start == Split(top) && path[0].count == top - Split(top)
      && PathOk(path[1..], Split(top), bottom)
  }

  ghost function HashesOf(path: seq<Sibling>): (r: seq<Hash>)
    ensures |r| == |path|
  {
    if path == [] then [] else [path[0].hash] + HashesOf(path[1..])
  }

  lemma {:induction false} PathExtend(path: seq<Sibling>, top: nat, x: Sibling)
    requires x.parentCount > 1 && PathOk(path, top, x.parentCount)
    requires x.start == Split(x.parentCount) && x.count == x.parentCount - Split(x.parentCount)
    ensures PathOk(path + [x], top, Split(x.parentCount))
    ensures HashesOf(path + [x]) == HashesOf(path) + [x.hash]
  {
    if path == [] {
      assert (path + [x])[1..] == [];
    } else {
      PathExtend(path[1..], Split(top), x);
      assert (path + [x])[1..] == path[1..] + [x];
    }
  }

  lemma {:induction false} PathDepth(path: seq<Sibling>, top: nat, bottom: nat)
    requires top >= 1 && PathOk(path, top, bottom)
    ensures bottom >= 1 && LeftDepth(top) == |path| + LeftDepth(bottom)
  {
    if path != [] {
      PathDepth(path[1..], Split(top), bottom);
    }
  }

  /** Entry i of a path, and the path from there on. */
  lemma {:induction false} PathAt(path: seq<Sibling>, top: nat, bottom: nat, i: nat)
    requires i <= |path| && PathOk(path, top, bottom)
    ensures PathOk(path[i..], if i < |path| then path[i].parentCount else bottom, bottom)
    ensures HashesOf(path)[i..] == HashesOf(path[i..])
  {
    if i == 0 {
      assert path[0..] == path;
    } else {
      PathAt(path[1..], Split(top), bottom, i - 1);
      assert path[i..] == path[1..][i - 1..];
      assert HashesOf(path)[i..] == HashesOf(path[1..])[i - 1..];
    }
  }

  lemma {:induction false} ReadHashesChain(a: nat, b: nat, s: seq<byte>)
    ensures ReadHashes(a + b, s) ==
            match ReadHashes(a, s)
            case None => None
            case Some((hs, rest)) =>
              match ReadHashes(b, rest)
              case None => None
              case Some((hs', rest')) => Some((hs + hs', rest'))
    decreases a
  {
    if a == 0 {
      match ReadHashes(b, s)
      case None =>
      case Some(r) => assert [] + r.0 == r.0;
    } else if |s| >= 32 {
      ReadHashesChain(a - 1, b, s[32..]);
      var first: Hash := s[..32];
      match ReadHashes(a - 1, s[32..])
      case None =>
      case Some((hs, rest)) =>
        match ReadHashes(b, rest)
        case None =>
        case Some((hs', rest')) => assert [first] + hs + hs' == [first] + (hs + hs');
    }
  }

  lemma {:induction false} ReadOne(s: seq<byte>)
    ensures |s| < 32 ==> ReadHashes(1, s) == None
    ensures |s| >= 32 ==> ReadHashes(1, s) == Some(([s[..32]], s[32..]))
  {
    if |s| >= 32 {
      var first: Hash := s[..32];
      assert ReadHashes(0, s[32..]) == Some(([], s[32..]));
      assert [first] + [] == [first];
    }
  }

  /** Read the first leaf's hash and the siblings beside its path. */
  method ReadPath(n: nat, s: seq<byte>) returns (ok: bool, first: Hash, path: seq<Sibling>, rest: seq<byte>)
    requires n >= 1
    ensures ok <==> ReadHashes(1 + LeftDepth(n), s).Some?
    ensures ok ==> PathOk(path, n, 1) && ReadHashes(1 + LeftDepth(n), s) == Some(([first] + HashesOf(path), rest))
  {
    hide ReadHashes, Split;
    first, path, rest, ok := seq(HASH_BYTES, i => 0), [], s, true;
    ReadHashesChain(1, LeftDepth(n), s);
    ReadOne(s);
    if |s| < 32 {
      return false, first, path, rest;
    }
    first, rest := s[..32], s[32..];
    var count := n;
    assert [first] + HashesOf(path) == [first];
    while count > 1
      invariant count >= 1 && PathOk(path, n, count)
      invariant ReadHashes(1 + |path|, s) == Some(([first] + HashesOf(path), rest))
      decreases count
    {
      PathDepth(path, n, count);
      ReadHashesChain(1 + |path|, LeftDepth(count), s);
      ReadHashesChain(1, LeftDepth(Split(count)), rest);
      ReadHashesChain(1 + |path|, 1, s);
      ReadOne(rest);
      var k := SplitPower(count);
      if |rest| < 32 {
        return false, first, path, rest;
      }
      var x := Sibling(k, count - k, count, rest[..32]);
      PathExtend(path, n, x);
      assert [first] + (HashesOf(path) + [x.hash]) == [first] + HashesOf(path) + [x.hash];
      path, rest, count := path + [x], rest[32..], k;
    }
    PathDepth(path, n, 1);
  }

  /** Fold the initial proof from the deepest sibling up. */
  method FoldPath(h: Scheme, first: Hash, path: seq<Sibling>, n: nat) returns (folded: Hash)
    requires n >= 1 && PathOk(path, n, 1)
    ensures |path| == LeftDepth(n) && folded == FoldProof(h, n, first, HashesOf(path))
  {
    PathDepth(path, n, 1);
    folded := first;
    var i := |path|;
    assert path[i..] == [];
    ghost var count := 1;
    while i > 0
      invariant i <= |path| && count >= 1 && PathOk(path[i..], count, 1) && |path| - i == LeftDepth(count)
      invariant i < |path| ==> count == path[i].parentCount
      invariant i == 0 ==> count == n
      invariant folded == FoldProof(h, count, first, HashesOf(path[i..]))
    {
      i := i - 1;
      PathAt(path, n, 1, i);
      var x := path[i];
      assert path[i..][0] == x && path[i..][1..] == path[i + 1..];
      assert i + 1 < |path| ==> path[i..][1] == path[i + 1];
      PathAt(path, n, 1, i + 1);
      assert Split(x.parentCount) == count by {
        if i + 1 == |path| {
          assert path[i + 1..] == [];
        }
      }
      folded := h.node(0, x.parentCount, folded, x.hash);
      count := x.parentCount;
      PathDepth(path[i..], count, 1);
    }
    assert path[0..] == path;
  }

  /** File one disclosed interval: expected if it is a leaf, unopened otherwise. */
  method FileItem(q: Queues, x: Item) returns (r: Option<Queues>)
    ensures r == File(q, x)
  {
    if x.count == 1 {
      var e := InsertSorted(q.expected, x);
      r := if e.None? then None else Some(q.(expected := e.value));
    } else {
      var u := InsertSorted(q.unopened, x);
      r := if u.None? then None else Some(q.(unopened := u.value));
    }
  }

  method FilePath(first: Hash, path: seq<Sibling>, n: nat) returns (r: Option<Queues>)
    requires n >= 1 && PathOk(path, n, 1)
    ensures |path| == LeftDepth(n) && r == InitialQueues(n, first, HashesOf(path))
  {
    PathDepth(path, n, 1);
    var q := Queues([], [Item(0, 1, first)]);
    var i := 0;
    ghost var count := n;
    assert path[0..] == path;
    while i < |path|
      invariant i <= |path| && count >= 1 && PathOk(path[i..], count, 1) && |path| - i == LeftDepth(count)
      invariant FileSpine(q, count, HashesOf(path[i..])) == InitialQueues(n, first, HashesOf(path))
    {
      var x := path[i];
      assert path[i..][0] == x && path[i..][1..] == path[i + 1..];
      assert HashesOf(path[i..])[1..] == HashesOf(path[i + 1..]);
      var filed := FileItem(q, Item(x.start, x.count, x.hash));
      if filed.None? {
        return None;
      }
      q := filed.value;
      count := Split(count);
      i := i + 1;
    }
    assert path[i..] == [];
    return Some(q);
  }

  lemma {:induction false} TakeAt(xs: seq<Item>, i: nat, at: nat)
    requires at <= |xs| && forall j :: 0 <= j < at ==> xs[j].start < i
    ensures at < |xs| && xs[at].start == i ==> Take(xs, i) == Some((xs[at].hash, xs[..at] + xs[at + 1..]))
    ensures at == |xs| || xs[at].start > i ==> Take(xs, i) == None
  {
    if at > 0 {
      TakeAt(xs[1..], i, at - 1);
      if at < |xs| && xs[at].start == i {
        assert [xs[0]] + (xs[1..][..at - 1] + xs[1..][at..]) == xs[..at] + xs[at + 1..];
      }
    } else if xs != [] {
      assert xs[..0] + xs[1..] == xs[1..];
    }
  }

  /** expected_take */
  method TakeExpected(xs: seq<Item>, i: nat) returns (r: Option<(Hash, seq<Item>)>)
    ensures r == Take(xs, i)
  {
    var at := 0;
    while at < |xs|
      invariant at <= |xs| && forall j :: 0 <= j < at ==> xs[j].start < i
    {
      TakeAt(xs, i, at);
      if xs[at].start == i {
        return Some((xs[at].hash, xs[..at] + xs[at + 1..]));
      }
      if xs[at].start > i {
        return None;
      }
      at := at + 1;
    }
    TakeAt(xs, i, at);
    return None;
  }

  /** A completed leaf: match its hash and open the least unopened interval. */
  method CompleteLeaf(h: Scheme, i: nat, leaf: seq<byte>, q: Queues, s: seq<byte>)
    returns (r: Option<(Queues, seq<byte>)>)
    ensures r == MatchLeaf(h, i, leaf, q, s)
  {
    hide Take, Insert;
    var taken := TakeExpected(q.expected, i);
    if taken.None? || h.leaf(i, leaf) != taken.value.0 {
      return None;
    }
    var q1 := q.(expected := taken.value.1);
    if q1.unopened == [] {
      return Some((q1, s));
    }
    var parent := q1.unopened[0];
    if |s| < 64 {
      return None;
    }
    var hl: Hash, hr: Hash := s[..32], s[32..64];
    if h.node(parent.start, parent.count, hl, hr) != parent.hash || parent.count <= 1 {
      return None;
    }
    var k := SplitPower(parent.count);
    var children := [Item(parent.start, k, hl), Item(parent.start + k, parent.count - k, hr)];
    q1 := q1.(unopened := q1.unopened[1..]);
    if children[0].start <= i {
      return None;
    }
    var filed := FileItem(q1, children[0]);
    if filed.None? || children[1].start <= i {
      return None;
    }
    filed := FileItem(filed.value, children[1]);
    if filed.None? {
      return None;
    }
    return Some((filed.value, s[64..]));
  }

  /** Where the payload stands: leafIndex complete leaves and leafLen bytes more. */
  ghost predicate Position(len: nat, off: nat, leafIndex: nat, leafLen: nat) {
    && off <= len
    && (off < len ==> leafLen < LEAF_BYTES && off == leafIndex * LEAF_BYTES + leafLen)
    && (off == len ==> leafLen == 0 && leafIndex == LeafCount(len))
  }

  lemma {:induction false} Segment(len: nat, off: nat, leafIndex: nat, leafLen: nat, page: nat)
    requires Position(len, off, leafIndex, leafLen) && off < len && page > 0
    ensures off / LEAF_BYTES == leafIndex && leafIndex * LEAF_BYTES < len
    ensures var leafTotal := Min(len - leafIndex * LEAF_BYTES, LEAF_BYTES);
            && leafLen < leafTotal
            && LeafStart(len, leafIndex + 1) == leafIndex * LEAF_BYTES + leafTotal
            && var n := Min(page, leafTotal - leafLen);
            && n == Min(page, LeafStart(len, leafIndex + 1) - off)
            && (leafLen + n == leafTotal ==> Position(len, off + n, leafIndex + 1, 0))
            && (leafLen + n < leafTotal ==> Position(len, off + n, leafIndex, leafLen + n))
  {
  }

  /** The page loop: read a page length, then the leaves it holds. */
  method ReadPages(p: Params, checked: bool, q0: Queues, s0: seq<byte>)
    returns (r: Option<(seq<byte>, Queues, seq<byte>)>, maxPage: nat)
    requires checked ==> !p.canonical
    ensures r == if checked then DecodeChecked(p, q0, [], s0) else DecodePages(p, q0, [], 0, s0)
    ensures r.Some? && p.canonical && p.len > 0 ==> maxPage == MaxPage(p.len)
  {
    hide MatchLeaf, FromLittleEndian, PageBody, LeafStart;
    var q, s, acc: seq<byte> := q0, s0, [];
    var leafIndex, leafLen := 0, 0;
    maxPage := 0;
    while |acc| < p.len
      invariant Position(p.len, |acc|, leafIndex, leafLen)
      invariant checked ==> DecodeChecked(p, q0, [], s0) == DecodeChecked(p, q, acc, s)
      invariant !checked ==> DecodePages(p, q0, [], 0, s0) == DecodePages(p, q, acc, 0, s)
      invariant |acc| == 0 ==> maxPage == 0
      invariant p.canonical && |acc| > 0 ==> maxPage == MaxPage(p.len)
      decreases p.len - |acc|
    {
      if |s| < p.pageWidth {
        return None, maxPage;
      }
      var pageLen := FromLittleEndian(s[..p.pageWidth]);
      if pageLen == 0 || pageLen > p.len - |acc| {
        return None, maxPage;
      }
      if pageLen > maxPage {
        maxPage := pageLen;
      }
      var canonicalPage := Min(p.len - |acc|, PAGE_BYTES);
      if p.canonical && pageLen != canonicalPage {
        return None, maxPage;
      }
      var start := s;
      PagesSplit(p, q, acc, pageLen, s[p.pageWidth..]);
      var ok;
      ok, q, acc, s, leafIndex, leafLen := ReadPage(p, q, acc, s[p.pageWidth..], leafIndex, leafLen, pageLen);
      if !ok {
        return None, maxPage;
      }
      if checked {
        if |s| < 4 || FromLittleEndian(s[..4]) != p.h.check(start[..|start| - |s|]) {
          return None, maxPage;
        }
        s := s[4..];
      }
    }
    if leafLen != 0 || leafIndex != LeafCount(p.len) {
      return None, maxPage;
    }
    return Some((acc, q, s)), maxPage;
  }

  /** The leaves, or parts of leaves, of one page. */
  method ReadPage(p: Params, q0: Queues, acc0: seq<byte>, s0: seq<byte>, index0: nat, len0: nat, pageLen: nat)
    returns (ok: bool, q: Queues, acc: seq<byte>, s: seq<byte>, leafIndex: nat, leafLen: nat)
    requires Position(p.len, |acc0|, index0, len0) && |acc0| + pageLen <= p.len
    ensures PageBody(p, q0, acc0, pageLen, s0) == if ok then Some((acc, q, s)) else None
    ensures ok ==> Position(p.len, |acc|, leafIndex, leafLen)
  {
    hide MatchLeaf, FromLittleEndian, Position, LeafStart, PageBody;
    ok, q, acc, s, leafIndex, leafLen := true, q0, acc0, s0, index0, len0;
    var pageDone := 0;
    while pageDone < pageLen
      invariant pageDone <= pageLen && |acc| == |acc0| + pageDone
      invariant Position(p.len, |acc|, leafIndex, leafLen)
      invariant PageBody(p, q0, acc0, pageLen, s0) == PageBody(p, q, acc, pageLen - pageDone, s)
      decreases pageLen - pageDone
    {
      Segment(p.len, |acc|, leafIndex, leafLen, pageLen - pageDone);
      var leafTotal := Min(p.len - leafIndex * LEAF_BYTES, LEAF_BYTES);
      var n := Min(pageLen - pageDone, leafTotal - leafLen);
      BodyStep(p, q, acc, pageLen - pageDone, s, leafIndex, n);
      if |s| < n {
        ok := false;
        return;
      }
      acc, s := acc + s[..n], s[n..];
      leafLen, pageDone := leafLen + n, pageDone + n;
      if leafLen == leafTotal {
        var matched := CompleteLeaf(p.h, leafIndex, acc[leafIndex * LEAF_BYTES..], q, s);
        if matched.None? {
          ok := false;
          return;
        }
        q, s := matched.value.0, matched.value.1;
        leafIndex, leafLen := leafIndex + 1, 0;
      }
    }
    BodyDone(p, q, acc, s);
  }

  /** decode_mnat */
  method DecodeStream(h: Scheme, canonical: bool, s: seq<byte>) returns (r: Option<(seq<byte>, seq<byte>)>)
    ensures r == DecodeMnat(h, canonical, s)
  {
    hide DecodePages, DecodeChecked, ReadHashes, FoldProof, FileSpine, Bits, Width, LeftDepth, LeafCount, PathOk;
    var header := DecodeHeader(s);
    if header.None? {
      return None;
    }
    var (fixed, s1) := header.value;
    var len := ByteLength(fixed.bits);
    if len > MAX_NAT_BYTES || (canonical && (fixed.checked || len <= NAT_CUTOVER)) {
      return None;
    }
    var n := LeafCount(len);
    LeafCountPositive(len);
    var ok, first, path, s2 := ReadPath(n, s1);
    if !ok {
      return None;
    }
    var folded := FoldPath(h, first, path, n);
    assert ([first] + HashesOf(path))[1..] == HashesOf(path);
    if h.root(fixed.bits, folded) != fixed.root {
      return None;
    }
    var q := FilePath(first, path, n);
    if q.None? {
      return None;
    }
    var pages, maxPage := ReadPages(Params(h, len, fixed.pageWidth, canonical), fixed.checked, q.value, s2);
    if pages.None? {
      return None;
    }
    var (b, left, rest) := pages.value;
    if left.unopened != [] || left.expected != [] {
      return None;
    }
    if Bits(b[len - 1]) != (fixed.bits - 1) % 8 + 1 {
      return None;
    }
    if canonical && (fixed.pageWidth != Width(MaxPage(len)) || maxPage != MaxPage(len)) {
      return None;
    }
    return Some((b, rest));
  }

  lemma LeafCountPositive(len: nat)
    requires len > 0
    ensures LeafCount(len) >= 1
  {
  }
}
