/**
  What each kind of byte-tree node means (pkg/plan/src/bat.c:99-143), stated on the
  node itself: its tag in ASCII, its operands in place, and the bytes it denotes.
 */
module BatLaws {
  import opened Basics
  import opened Bytes
  import opened Bat

  /** A name as the natural whose bytes are its letters, first letter lowest. */
  function Ascii(name: string): (n: nat) {
    if name == [] then 0 else name[0] as int + 256 * Ascii(name[1..])
  }

  /** (0 name operands…) */
  function NodeOf(name: string, operands: seq<Val>): (v: Val) {
    App(Num(0), [Num(Ascii(name))] + operands)
  }

  lemma TagsAreNames()
    ensures Ascii("cat") == 0x746163 && Ascii("bat") == 0x746162 && Ascii("text") == 0x74786574
    ensures Ascii("range") == 0x65676e6172 && Ascii("slice") == 0x6563696c73 && Ascii("repeat") == 0x746165706572
  {
    assert "cat"[1..] == "at" && "at"[1..] == "t" && "t"[1..] == "";
    assert "bat"[1..] == "at";
    assert "text"[1..] == "ext" && "ext"[1..] == "xt" && "xt"[1..] == "t";
    assert "range"[1..] == "ange" && "ange"[1..] == "nge" && "nge"[1..] == "ge" && "ge"[1..] == "e" && "e"[1..] == "";
    assert "slice"[1..] == "lice" && "lice"[1..] == "ice" && "ice"[1..] == "ce" && "ce"[1..] == "e";
    assert "repeat"[1..] == "epeat" && "epeat"[1..] == "peat" && "peat"[1..] == "eat" && "eat"[1..] == "at";
  }

  /** cat: the bytes of the left tree, then those of the right one. */
  lemma {:induction false} CatLaw(a: Val, b: Val)
    ensures Means(NodeOf("cat", [a, b])) ==
            if Means(a).Some? && Means(b).Some? then Some(Means(a).value + Means(b).value) else None
  {
    TagsAreNames();
  }

  /** bat: the tree, if it has the stated length. */
  lemma {:induction false} BatLaw(len: nat, t: Val)
    ensures Means(NodeOf("bat", [Num(len), t])) ==
            if len < U64 && Means(t).Some? && |Means(t).value| == len then Means(t) else None
  {
    TagsAreNames();
  }

  /** range: `len` bytes of the tree from `off` on, if it has them. */
  lemma {:induction false} RangeLaw(t: Val, off: nat, len: nat)
    ensures Means(NodeOf("range", [t, Num(off), Num(len)])) ==
            if off < U64 && len < U64 && Means(t).Some? && off + len <= |Means(t).value|
            then Some(Means(t).value[off..off + len]) else None
  {
    TagsAreNames();
  }

  /** repeat: the lowest byte of a natural, `len` times. */
  lemma {:induction false} RepeatLaw(n: nat, len: nat)
    ensures Means(NodeOf("repeat", [Num(n), Num(len)])) == if len < U64 then Some(seq(len, _ => n % 256)) else None
  {
    TagsAreNames();
  }

  /** text: the bytes of a natural, which may be pinned. */
  lemma {:induction false} TextLaw(b: seq<byte>)
    requires b != [] ==> b[|b| - 1] != 0
    ensures Means(NodeOf("text", [Num(FromLittleEndian(b))])) == Some(b)
    ensures Means(NodeOf("text", [Pin(Num(FromLittleEndian(b)))])) == Some(b)
  {
    TagsAreNames();
    SliceOfBytes(b);
    NormalWidth(b);
  }

  lemma {:induction false} NormalWidth(b: seq<byte>)
    requires b != [] ==> b[|b| - 1] != 0
    ensures ByteLen(FromLittleEndian(b)) == |b|
    decreases |b|
  {
    if |b| > 1 {
      NormalWidth(b[1..]);
    }
  }

  /** slice: `len` bytes of a natural from `off` on, with zeros beyond its end. */
  lemma {:induction false} SliceLaw(b: seq<byte>, off: nat, len: nat)
    ensures var n, bytes := FromLittleEndian(b), seq(len, i requires 0 <= i => if off + i < |b| then b[off + i] else 0);
            && Means(NodeOf("slice", [Num(n), Num(off), Num(len)]))
                == (if off < U64 && len < U64 then Some(bytes) else None)
            && Means(NodeOf("slice", [Pin(Num(n)), Num(off), Num(len)]))
                == (if off < U64 && len < U64 then Some(bytes) else None)
  {
    TagsAreNames();
    var n, bytes := FromLittleEndian(b), seq(len, i requires 0 <= i => if off + i < |b| then b[off + i] else 0);
    SliceOfBytes(b);
    forall i | 0 <= i < len ensures Slice(n, off, len)[i] == bytes[i] {
      if off + i < |b| {
        assert Slice(n, 0, |b|)[off + i] == b[off + i];
      } else {
        ShortEnd(b);
        BeyondEnd(n, off + i);
      }
    }
    assert Slice(n, off, len) == bytes;
  }

  lemma {:induction false} ShortEnd(b: seq<byte>)
    ensures ByteLen(FromLittleEndian(b)) <= |b|
    decreases |b|
  {
    if b != [] {
      ShortEnd(b[1..]);
    }
  }

  predicate IsNat(v: Val) {
    v.Num? || (v.Pin? && v.body.Num?)
  }

  /** One of the six kinds, with its operands of the right sort. */
  predicate IsNode(v: Val) {
    v.App? && v.head == Num(0) &&
    var f := v.args;
    || (|f| == 3 && f[0] == Num(Ascii("cat")))
    || (|f| == 3 && f[0] == Num(Ascii("bat")) && f[1].Num?)
    || (|f| == 4 && f[0] == Num(Ascii("range")) && f[2].Num? && f[3].Num?)
    || (|f| == 3 && f[0] == Num(Ascii("repeat")) && f[1].Num? && f[2].Num?)
    || (|f| == 2 && f[0] == Num(Ascii("text")) && IsNat(f[1]))
    || (|f| == 4 && f[0] == Num(Ascii("slice")) && IsNat(f[1]) && f[2].Num? && f[3].Num?)
  }

  /** And nothing else denotes bytes. */
  lemma {:induction false} NothingElse(v: Val)
    requires Means(v).Some?
    ensures IsNode(v)
  {
    hide Ascii;
    TagsAreNames();
  }
}
