/**
  Byte trees (pkg/plan/src/bat.c:36-151): what a tree means as a byte string,
  and which trees a cursor can open.
 */
module Bat {
  import opened Basics
  import opened Bytes

  /** PLAN values, as far as byte trees look into them. */
  datatype Val = Num(n: nat) | Pin(body: Val) | App(head: Val, args: seq<Val>) | Other(id: nat)

  const TAG_CAT: Val := Num(0x746163)
  const TAG_BAT: Val := Num(0x746162)
  const TAG_RANGE: Val := Num(0x65676e6172)
  const TAG_REPEAT: Val := Num(0x746165706572)
  const TAG_TEXT: Val := Num(0x74786574)
  const TAG_SLICE: Val := Num(0x6563696c73)

  const U64: nat := 0x1_0000_0000_0000_0000

  /** Byte i of a natural, zero beyond its end. */
  function ByteAt(n: nat, i: nat): (r: byte)
    decreases i
  {
    if i == 0 then n % 256 else ByteAt(n / 256, i - 1)
  }

  function ByteLen(n: nat): (r: nat) {
    if n == 0 then 0 else Width(n)
  }

  function Slice(n: nat, off: nat, len: nat): (r: seq<byte>)
    ensures |r| == len && forall i :: 0 <= i < len ==> r[i] == ByteAt(n, off + i)
    decreases len
  {
    if len == 0 then [] else Slice(n, off, len - 1) + [ByteAt(n, off + len - 1)]
  }

  function Repeat(b: byte, len: nat): (r: seq<byte>)
    ensures |r| == len
  {
    seq(len, _ => b)
  }

  /** A size operand is a natural of one limb. */
  predicate IsSize(v: Val) {
    v.Num? && v.n < U64
  }

  datatype Shape =
    | Bad
    | Cat(left: Val, right: Val)
    | Check(len: nat, tree: Val)
    | Crop(tree: Val, off: nat, len: nat)
    | Fill(b: byte, len: nat)
    | Window(n: nat, off: nat, len: nat)

  /** What kind of node this is; Bad when it is none or an operand is not right. */
  function ShapeOf(v: Val): (r: Shape)
    ensures r.Cat? ==> r.left < v && r.right < v
    ensures r.Check? || r.Crop? ==> r.tree < v
    ensures r.Check? ==> r.len < U64
    ensures r.Crop? ==> r.off < U64 && r.len < U64
  {
    if !v.App? || v.head != Num(0) then Bad
    else
      var f, n := v.args, |v.args|;
      if n == 3 && f[0] == TAG_CAT then Cat(f[1], f[2])
      else if n == 3 && f[0] == TAG_BAT then if IsSize(f[1]) then Check(f[1].n, f[2]) else Bad
      else if n == 4 && f[0] == TAG_RANGE then if IsSize(f[2]) && IsSize(f[3]) then Crop(f[1], f[2].n, f[3].n) else Bad
      else if n == 3 && f[0] == TAG_REPEAT then if f[1].Num? && IsSize(f[2]) then Fill(ByteAt(f[1].n, 0), f[2].n)
          else Bad
      else if n == 2 && f[0] == TAG_TEXT then
        var src := if f[1].Pin? then f[1].body else f[1];
        if src.Num? then Window(src.n, 0, ByteLen(src.n)) else Bad
      else if n == 4 && f[0] == TAG_SLICE then
        var src := if f[1].Pin? then f[1].body else f[1];
        if src.Num? && IsSize(f[2]) && IsSize(f[3]) then Window(src.n, f[2].n, f[3].n) else Bad
      else Bad
  }

  /** The byte string a tree denotes, if it denotes one. */
  function Means(v: Val): (r: Option<seq<byte>>)
    decreases v
  {
    match ShapeOf(v)
    case Bad => None
    case Cat(l, r) =>
      var a, b := Means(l), Means(r);
      if a.Some? && b.Some? then Some(a.value + b.value) else None
    case Check(len, t) =>
      var a := Means(t);
      if a.Some? && |a.value| == len then a else None
    case Crop(t, off, len) =>
      var a := Means(t);
      if a.Some? && off + len <= |a.value| then Some(a.value[off..off + len]) else None
    case Fill(b, len) => Some(Repeat(b, len))
    case Window(n, off, len) => Some(Slice(n, off, len))
  }

  /** The most bytes the flattener has on hand at any time. */
  function Peak(v: Val): (r: nat)
    ensures Means(v).Some? ==> |Means(v).value| <= r
    decreases v
  {
    match ShapeOf(v)
    case Bad => 0
    case Cat(l, r) =>
      var a := Means(l);
      var right := (if a.Some? then |a.value| else 0) + Peak(r);
      if Peak(l) < right then right else Peak(l)
    case Check(_, t) => Peak(t)
    case Crop(t, _, _) => Peak(t)
    case Fill(_, len) => len
    case Window(_, _, len) => len
  }

  /** Trees a cursor can open: they denote something, and flattening them never
      counts past 64 bits. */
  predicate Opens(v: Val, before: nat) {
    Means(v).Some? && before + Peak(v) < U64
  }

  // ------------------------------------------------------------------------ spans

  /** `source` is a natural, or zero for a repeated byte. */
  datatype Span = Span(source: nat, off: nat, len: nat, b: byte)

  function SpanBytes(s: Span): (r: seq<byte>)
    ensures |r| == s.len
  {
    if s.source == 0 then Repeat(s.b, s.len) else Slice(s.source, s.off, s.len)
  }

  function Spread(spans: seq<Span>): (r: seq<byte>)
    decreases |spans|
  {
    if spans == [] then [] else Spread(spans[..|spans| - 1]) + SpanBytes(spans[|spans| - 1])
  }

  lemma {:induction false} SpreadAppend(a: seq<Span>, b: seq<Span>)
    ensures Spread(a + b) == Spread(a) + Spread(b)
    decreases |b|
  {
    hide SpanBytes;
    if b == [] {
      assert a + b == a;
    } else {
      var rest, last := b[..|b| - 1], b[|b| - 1];
      assert (a + b)[..|a + b| - 1] == a + rest;
      SpreadAppend(a, rest);
      assert (a + b)[|a + b| - 1] == last;
      assert Spread(a + b) == (Spread(a) + Spread(rest)) + SpanBytes(last);
      assert (Spread(a) + Spread(rest)) + SpanBytes(last) == Spread(a) + (Spread(rest) + SpanBytes(last));
    }
  }

  lemma {:induction false} SpreadSplit(spans: seq<Span>, i: nat)
    requires i < |spans|
    ensures Spread(spans[..i + 1]) == Spread(spans[..i]) + SpanBytes(spans[i])
    ensures |Spread(spans[..i])| + spans[i].len <= |Spread(spans)|
    ensures Spread(spans)[|Spread(spans[..i])|..|Spread(spans[..i])| + spans[i].len] == SpanBytes(spans[i])
  {
    hide Spread, SpanBytes;
    assert spans[..i + 1] == spans[..i] + [spans[i]];
    SpreadOne(spans[..i], spans[i]);
    SpreadAppend(spans[..i + 1], spans[i + 1..]);
    assert spans[..i + 1] + spans[i + 1..] == spans;
    Middle(Spread(spans[..i]), SpanBytes(spans[i]), Spread(spans[i + 1..]));
  }

  lemma SpreadOne(spans: seq<Span>, s: Span)
    ensures Spread(spans + [s]) == Spread(spans) + SpanBytes(s)
  {
    hide SpanBytes;
    assert (spans + [s])[..|spans|] == spans;
  }

  lemma Middle(a: seq<byte>, b: seq<byte>, c: seq<byte>)
    ensures ((a + b) + c)[|a|..|a| + |b|] == b
  {
  }

  lemma SubSlice(a: seq<byte>, lo: nat, hi: nat, x: nat, y: nat)
    requires lo <= hi <= |a| && x <= y <= hi - lo
    ensures a[lo..hi][x..y] == a[lo + x..lo + y]
  {
    var l, r := a[lo..hi][x..y], a[lo + x..lo + y];
    assert |l| == |r| && forall i :: 0 <= i < |l| ==> l[i] == a[lo + x + i] && r[i] == a[lo + x + i];
  }

  lemma JoinSlices(a: seq<byte>, x: nat, y: nat, z: nat)
    requires x <= y <= z <= |a|
    ensures a[x..y] + a[y..z] == a[x..z]
  {
  }

  /** A span with `skip` bytes dropped in front and kept to `len`. */
  lemma {:induction false} SpanCut(s: Span, skip: nat, len: nat)
    requires skip + len <= s.len
    ensures SpanBytes(s.(off := s.off + skip, len := len)) == SpanBytes(s)[skip..skip + len]
  {
    var t := s.(off := s.off + skip, len := len);
    forall i | 0 <= i < len ensures SpanBytes(t)[i] == SpanBytes(s)[skip + i] {
      assert s.off + skip + i == s.off + (skip + i);
    }
  }

  // -------------------------------------------------------------------- leaf windows

  lemma {:induction false} BeyondEnd(n: nat, i: nat)
    requires i >= ByteLen(n)
    ensures ByteAt(n, i) == 0
    decreases i
  {
    if i == 0 {
      assert n == 0;
    } else if n >= 256 {
      BeyondEnd(n / 256, i - 1);
    } else {
      BeyondEnd(0, i - 1);
      assert n / 256 == 0;
    }
  }

  /** A window is the bytes that are there, then zeros. */
  lemma {:induction false} WindowParts(n: nat, off: nat, len: nat)
    ensures var rest := if off < ByteLen(n) then ByteLen(n) - off else 0;
            var here := if rest > len then len else rest;
            && Slice(n, off, len) == SpanBytes(Span(n, off, here, 0)) + SpanBytes(Span(0, 0, len - here, 0))
  {
    var rest := if off < ByteLen(n) then ByteLen(n) - off else 0;
    var here := if rest > len then len else rest;
    var parts := SpanBytes(Span(n, off, here, 0)) + SpanBytes(Span(0, 0, len - here, 0));
    forall i | 0 <= i < len ensures Slice(n, off, len)[i] == parts[i] {
      if i >= here {
        BeyondEnd(n, off + i);
      }
    }
  }

  lemma {:induction false} ByteAtLittleEndian(n: nat, width: nat, i: nat)
    requires i < width
    ensures LittleEndian(n, width)[i] == ByteAt(n, i)
    decreases i
  {
    if i > 0 {
      ByteAtLittleEndian(n / 256, width - 1, i - 1);
    }
  }

  /** A chunk keeps its trailing zero bytes, which its natural cannot. */
  lemma {:induction false} SliceOfBytes(b: seq<byte>)
    ensures Slice(FromLittleEndian(b), 0, |b|) == b
  {
    BytesRoundTrip(b);
    forall i | 0 <= i < |b| ensures Slice(FromLittleEndian(b), 0, |b|)[i] == b[i] {
      ByteAtLittleEndian(FromLittleEndian(b), |b|, i);
    }
  }

  // ------------------------------------------------------- the meaning of pending work

  datatype Task =
    | Node(v: Val)
    | Verify(start: nat, len: nat)
    | Trim(start: nat, first: nat, off: nat, len: nat)

  /** What is left to do, as a function of the bytes so far; None is failure. */
  function Rest(stack: seq<Task>, done: seq<byte>): (r: Option<seq<byte>>)
    decreases |stack|
  {
    if stack == [] then Some(done)
    else
      var under := stack[..|stack| - 1];
      match stack[|stack| - 1]
      case Node(v) => if Opens(v, |done|) then Rest(under, done + Means(v).value) else None
      case Verify(start, len) => if start <= |done| && |done| - start == len then Rest(under, done) else None
      case Trim(start, _, off, len) =>
        if start <= |done|
            && off + len <= |done| - start then Rest(under, done[..start] + done[start + off..start + off + len])
            else None
  }

  function Size(v: Val): (r: nat)
    ensures r >= 1
    decreases v
  {
    match ShapeOf(v)
    case Cat(l, r) => 1 + Size(l) + Size(r)
    case Check(_, t) => 1 + Size(t)
    case Crop(t, _, _) => 1 + Size(t)
    case _ => 1
  }

  function Work(stack: seq<Task>): (r: nat)
    decreases |stack|
  {
    if stack == [] then 0
    else
      var top := stack[|stack| - 1];
      Work(stack[..|stack| - 1]) + if top.Node? then 2 * Size(top.v) else 1
  }

  lemma {:induction false} RestTwo(stack: seq<Task>, a: Task, b: Task, done: seq<byte>)
    ensures var s := stack + [a, b]; s[..|s| - 1] == stack + [a] && s[|s| - 1] == b && (stack + [a])[..|stack|] == stack
    ensures Work(stack + [a, b])
            == Work(stack) + (if a.Node? then 2 * Size(a.v) else 1) + (if b.Node? then 2 * Size(b.v) else 1)
  {
    var s := stack + [a, b];
    assert s[..|s| - 1] == stack + [a];
    assert (stack + [a])[..|stack + [a]| - 1] == stack;
  }

  /** Taking a concatenation apart. */
  lemma {:induction false} RestCat(stack: seq<Task>, v: Val, done: seq<byte>)
    requires ShapeOf(v).Cat?
    ensures var sh := ShapeOf(v); Rest(stack + [Node(v)], done) == Rest(stack + [Node(sh.right), Node(sh.left)], done)
  {
    hide ShapeOf;
    var sh := ShapeOf(v);
    RestTwo(stack, Node(sh.right), Node(sh.left), done);
    assert (stack + [Node(v)])[..|stack|] == stack;
    var l, r := Means(sh.left), Means(sh.right);
    if l.Some? && r.Some? {
      assert done + (l.value + r.value) == (done + l.value) + r.value;
    }
  }

  lemma {:induction false} RestCheck(stack: seq<Task>, v: Val, done: seq<byte>)
    requires ShapeOf(v).Check?
    ensures var sh := ShapeOf(v);
            Rest(stack + [Node(v)], done) == Rest(stack + [Verify(|done|, sh.len), Node(sh.tree)], done)
  {
    hide ShapeOf;
    var sh := ShapeOf(v);
    RestTwo(stack, Verify(|done|, sh.len), Node(sh.tree), done);
    assert (stack + [Node(v)])[..|stack|] == stack;
  }

  lemma {:induction false} RestCrop(stack: seq<Task>, v: Val, done: seq<byte>, first: nat)
    requires ShapeOf(v).Crop?
    ensures var sh := ShapeOf(v);
            Rest(stack + [Node(v)], done) == Rest(stack + [Trim(|done|, first, sh.off, sh.len), Node(sh.tree)], done)
  {
    hide ShapeOf;
    var sh := ShapeOf(v);
    RestTwo(stack, Trim(|done|, first, sh.off, sh.len), Node(sh.tree), done);
    assert (stack + [Node(v)])[..|stack|] == stack;
    var m := Means(sh.tree);
    if m.Some? && sh.off + sh.len <= |m.value| {
      var all := done + m.value;
      assert all[..|done|] + all[|done| + sh.off..|done| + sh.off + sh.len] == done + m.value[sh.off..sh.off + sh.len];
    }
  }

  lemma {:induction false} Prefixes(spans: seq<Span>, i: nat)
    requires i <= |spans|
    ensures |Spread(spans[..i])| <= |Spread(spans)|
    ensures Spread(spans[..i]) == Spread(spans)[..|Spread(spans[..i])|]
  {
    hide Spread;
    SpreadAppend(spans[..i], spans[i..]);
    assert spans[..i] + spans[i..] == spans;
  }

  // ------------------------------------------------------------------ cropping in place

  ghost predicate Solid(spans: seq<Span>) {
    forall i :: 0 <= i < |spans| ==> spans[i].len > 0
  }

  /** Span i of `was` is next, `skip` bytes of it still to drop and `remain` of
      the `len` bytes still to keep; `used` is what has been kept so far. */
  ghost predicate Cropping(was: seq<Span>, used: seq<Span>, i: nat, start: nat, off: nat, len: nat, skip: nat,
                           remain: nat) {
    var all := Spread(was);
    && i <= |was| && remain <= len && (skip > 0 ==> remain == len) && Solid(used)
    && start + off + len <= |all|
    && start + off + (len - remain) == |Spread(was[..i])| + skip
    && Spread(used) == all[..start] + all[start + off..start + off + (len - remain)]
  }

  lemma {:induction false} CropSkip(was: seq<Span>, used: seq<Span>, i: nat, start: nat, off: nat, len: nat,
                                    skip: nat, remain: nat)
    requires Cropping(was, used, i, start, off, len, skip, remain) && i < |was| && skip >= was[i].len
    ensures Cropping(was, used, i + 1, start, off, len, skip - was[i].len, remain)
  {
    hide Spread, SpanBytes;
    SpreadSplit(was, i);
  }

  lemma {:induction false} CropKeep(was: seq<Span>, used: seq<Span>, i: nat, start: nat, off: nat, len: nat,
                                    skip: nat, remain: nat, kept: nat)
    requires Cropping(was, used, i, start, off, len, skip, remain) && i < |was| && skip < was[i].len && remain > 0
    requires kept == if was[i].len - skip > remain then remain else was[i].len - skip
    ensures remain > kept ==>
            Cropping(was, used + [was[i].(off := was[i].off + skip, len := kept)], i + 1, start, off, len, 0,
            remain - kept)
    ensures remain == kept ==>
            Spread(used + [was[i].(off := was[i].off + skip, len := kept)])
            == Spread(was)[..start] + Spread(was)[start + off..start + off + len]
    ensures Solid(used + [was[i].(off := was[i].off + skip, len := kept)])
  {
    hide SpanBytes, Spread;
    var s := was[i].(off := was[i].off + skip, len := kept);
    var all, at, lo := Spread(was), |Spread(was[..i])|, start + off;
    SpreadOne(used, s);
    KeptBytes(was, i, skip, kept);
    var from := lo + (len - remain);
    assert from == at + skip;
    JoinSlices(all, lo, from, from + kept);
    SpreadSplit(was, i);
    assert Spread(used + [s]) == all[..start] + (all[lo..from] + all[from..from + kept]);
  }

  lemma {:induction false} KeptBytes(was: seq<Span>, i: nat, skip: nat, kept: nat)
    requires i < |was| && skip + kept <= was[i].len
    ensures var at := |Spread(was[..i])|;
            at + was[i].len <= |Spread(was)| &&
            SpanBytes(was[i].(off := was[i].off + skip, len := kept)) == Spread(was)[at + skip..at + skip + kept]
  {
    hide Spread, SpanBytes;
    SpreadSplit(was, i);
    SpanCut(was[i], skip, kept);
    var at := |Spread(was[..i])|;
    SubSlice(Spread(was), at, at + was[i].len, skip, skip + kept);
  }
}
