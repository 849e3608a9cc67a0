/** The Silo codec is a bijection between flat normal values with their
    first-occurrence pin tables and canonical streams. */
module SiloProof {
  import opened Basics
  import opened Bytes
  import opened Mnat
  import opened MnatProof
  import opened Silo

  // ------------------------------------------------------------------ naturals

  lemma {:induction false} SmallBytes(b: seq<byte>)
    requires b != [] && Normal(b)
    ensures FromLittleEndian(b) <= 63 <==> |b| == 1 && b[0] <= 63
  {
    if |b| == 1 {
      assert b[1..] == [];
    } else {
      WidthOfBytes(b);
    }
  }

  lemma {:induction false} MediumRoundTrip(d: Decoder, b: seq<byte>, rest: seq<byte>)
    requires b != [] && Normal(b) && |b| <= 31 && !(|b| == 1 && b[0] <= 63)
    ensures DecodeNat(d, 0xc0 + |b|, b + rest) == Some((b, rest))
  {
    var s := b + rest;
    assert s[..|b|] == b && s[|b|..] == rest && s[|b| - 1] == b[|b| - 1];
    SmallBytes(b);
  }

  lemma {:induction false} BigRoundTrip(d: Decoder, b: seq<byte>, rest: seq<byte>)
    requires Normal(b) && 31 < |b| <= NAT_CUTOVER
    ensures Width(|b|) <= 2
    ensures DecodeNat(d, 0xe0 + Width(|b|), LittleEndian(|b|, Width(|b|)) + b + rest) == Some((b, rest))
  {
    hide FromLittleEndian, LittleEndian, Width;
    LengthWidthSmall(|b|);
    var lw := Width(|b|);
    LittleEndianRoundTrip(|b|, lw);
    var s := LittleEndian(|b|, lw) + b + rest;
    assert s[..lw] == LittleEndian(|b|, lw);
    var t := s[lw..];
    assert t == b + rest;
    assert t[..|b|] == b && t[|b|..] == rest && t[|b| - 1] == b[|b| - 1];
  }

  /** The builder reads a canonical MNAT just as the scanner did. */
  lemma {:induction false} PagesRelax(p: Params, p': Params, q: Frontier.Queues, acc: seq<byte>, page: nat,
                                      s: seq<byte>)
    requires p.canonical && p' == Params(p.h, p.len, p.pageWidth, false)
    requires |acc| <= p.len && DecodePages(p, q, acc, page, s).Some?
    ensures DecodePages(p', q, acc, page, s) == DecodePages(p, q, acc, page, s)
    decreases p.len - |acc|, if page == 0 then 2 else 1
  {
    hide MatchLeaf, FromLittleEndian, LeafStart;
    if |acc| < p.len {
      if page == 0 {
        PagesRelax(p, p', q, acc, FromLittleEndian(s[..p.pageWidth]), s[p.pageWidth..]);
      } else {
        SegmentRelax(p, p', q, acc, page, s);
      }
    }
  }

  lemma {:induction false} SegmentRelax(p: Params, p': Params, q: Frontier.Queues, acc: seq<byte>, page: nat,
                                        s: seq<byte>)
    requires p.canonical && p' == Params(p.h, p.len, p.pageWidth, false)
    requires |acc| < p.len && page > 0 && DecodePages(p, q, acc, page, s).Some?
    ensures DecodePages(p', q, acc, page, s) == DecodePages(p, q, acc, page, s)
    decreases p.len - |acc|, 0
  {
    hide MatchLeaf, DecodePages, LeafStart;
    var i := |acc| / LEAF_BYTES;
    var leafEnd := LeafStart(p.len, i + 1);
    assert |acc| < leafEnd <= p.len by { LeafAhead(p.len, |acc|); }
    var n := Min(page, leafEnd - |acc|);
    PageStep(p, q, acc, page, s, i, n);
    PageStep(p', q, acc, page, s, i, n);
    var acc' := acc + s[..n];
    if |acc'| < leafEnd {
      PagesRelax(p, p', q, acc', page - n, s[n..]);
    } else {
      var (q', s') := MatchLeaf(p.h, i, acc'[i * LEAF_BYTES..], q, s[n..]).value;
      PagesRelax(p, p', q', acc', page - n, s');
    }
  }

  lemma {:induction false} MnatRelax(h: Scheme, s: seq<byte>)
    requires DecodeMnat(h, true, s).Some?
    ensures DecodeMnat(h, false, s) == DecodeMnat(h, true, s)
  {
    hide DecodePages, DecodeHeader, ReadHashes, FoldProof, Bits, Width, Frontier.LeftDepth, Frontier.FileSpine;
    var (header, s1) := DecodeHeader(s).value;
    var n := LeafCount(ByteLength(header.bits));
    var (hs, s2) := ReadHashes(1 + Frontier.LeftDepth(n), s1).value;
    var q := Frontier.InitialQueues(n, hs[0], hs[1..]).value;
    var len, pw := ByteLength(header.bits), header.pageWidth;
    PagesRelax(Params(h, len, pw, true), Params(h, len, pw, false), q, [], 0, s2);
  }

  lemma {:induction false} NatRoundTrip(d: Decoder, b: seq<byte>, rest: seq<byte>)
    requires Normal(b) && |b| <= MAX_NAT_BYTES
    ensures EncodeNat(d.h, b) != [] && NatOpcode(EncodeNat(d.h, b)[0])
    ensures DecodeNat(d, EncodeNat(d.h, b)[0], EncodeNat(d.h, b)[1..] + rest) == Some((b, rest))
  {
    hide DecodeMnat, EncodeMnat;
    var e := EncodeNat(d.h, b);
    if b == [] || (|b| == 1 && b[0] <= 63) {
      assert e[1..] + rest == rest;
      assert b == [] || b == [b[0]];
    } else if |b| <= 31 {
      assert e[1..] == b;
      MediumRoundTrip(d, b, rest);
    } else if |b| <= NAT_CUTOVER {
      BigRoundTrip(d, b, rest);
      assert e[1..] == LittleEndian(|b|, Width(|b|)) + b;
    } else {
      MnatRoundTrip(d.h, b, rest);
      MnatRelax(d.h, EncodeMnat(d.h, b)[1..] + rest);
    }
  }

  lemma {:induction false} BigCanonical(d: Decoder, op: byte, s: seq<byte>)
    requires d.canonical && 0xe1 <= op <= 0xef && DecodeNat(d, op, s).Some?
    ensures var (b, rest) := DecodeNat(d, op, s).value;
            && Normal(b) && 31 < |b| <= NAT_CUTOVER && op == 0xe0 + Width(|b|)
            && s == LittleEndian(|b|, Width(|b|)) + b + rest
  {
    hide FromLittleEndian, LittleEndian, Width;
    var lw := op - 0xe0;
    var (b, rest) := DecodeNat(d, op, s).value;
    LengthWidthSmall(|b|);
    BytesRoundTrip(s[..lw]);
    assert s == s[..lw] + b + rest;
  }

  lemma {:induction false} NatCanonical(d: Decoder, op: byte, s: seq<byte>)
    requires d.canonical && DecodeNat(d, op, s).Some?
    ensures var (b, rest) := DecodeNat(d, op, s).value;
            && Normal(b) && |b| <= MAX_NAT_BYTES
            && [op] + s == EncodeNat(d.h, b) + rest
  {
    hide DecodeMnat, EncodeMnat, FromLittleEndian, LittleEndian, Width;
    var (b, rest) := DecodeNat(d, op, s).value;
    if 0x80 <= op <= 0xbf {
    } else if 0xc1 <= op <= 0xdf {
      SmallBytes(b);
      assert [op] + s == [op] + b + rest;
    } else if 0xe1 <= op <= 0xef {
      BigCanonical(d, op, s);
      assert [op] + s == [op] + LittleEndian(|b|, Width(|b|)) + b + rest;
    } else {
      MnatCanonical(d.h, s);
    }
  }

  lemma {:induction false} ScalarFacts(v: nat)
    requires 0 < v <= NAT63_MAX
    ensures Normal(ScalarBytes(v)) && 0 < |ScalarBytes(v)| <= 8
    ensures FromLittleEndian(ScalarBytes(v)) == v
  {
    ScalarWidthSmall(v);
    LastByteNonzero(v);
    LittleEndianRoundTrip(v, Width(v));
  }

  lemma {:induction false} ArityIsNat(h: Scheme, v: nat)
    requires 0 < v <= NAT63_MAX
    ensures EncodeArity(v) == Some(EncodeNat(h, ScalarBytes(v)))
  {
    hide LittleEndian, FromLittleEndian, Width, EncodeMnat;
    ScalarFacts(v);
    SmallBytes(ScalarBytes(v));
    ScalarWidthSmall(v);
    if v <= 63 {
      OneByte(ScalarBytes(v), v);
    }
  }

  lemma OneByte(b: seq<byte>, v: nat)
    requires |b| == 1 && FromLittleEndian(b) == v
    ensures b == [v]
  {
    assert b[1..] == [];
  }

  lemma {:induction false} BytesAreScalar(b: seq<byte>)
    requires b != [] && Normal(b)
    ensures b == ScalarBytes(FromLittleEndian(b))
  {
    WidthOfBytes(b);
    BytesRoundTrip(b);
  }

  // ----------------------------------------------------------------- pin usage

  /** The uses recorded by the decoder after reading v; None when a canonical
      table would not be in first-use order. */
  function UsedAfter(d: Decoder, v: Val, used: seq<nat>): Option<seq<nat>>
    decreases v, 1, 0
  {
    match v
    case Nat(_) => Some(used)
    case Pin(hash) =>
      (match IndexOf(d.pins, hash)
       case None => None
       case Some(i) => NotePin(d, used, i))
    case Law(_, name, body) =>
      (match UsedAfter(d, name, used)
       case None => None
       case Some(u) => UsedAfter(d, body, u))
    case App(head, args) =>
      (match UsedAfter(d, head, used)
       case None => None
       case Some(u) => UsedAfterArgs(d, args, 0, |args|, u))
  }

  function UsedAfterArgs(d: Decoder, xs: seq<Val>, lo: nat, hi: nat, used: seq<nat>): Option<seq<nat>>
    requires lo <= hi <= |xs|
    decreases xs, 0, hi - lo
  {
    if lo == hi then Some(used)
    else match UsedAfter(d, xs[lo], used)
      case None => None
      case Some(u) => UsedAfterArgs(d, xs, lo + 1, hi, u)
  }

  lemma {:induction false} UsedAfterSplit(d: Decoder, xs: seq<Val>, lo: nat, mid: nat, hi: nat, used: seq<nat>)
    requires lo <= mid <= hi <= |xs|
    ensures UsedAfterArgs(d, xs, lo, hi, used) ==
            match UsedAfterArgs(d, xs, lo, mid, used)
            case None => None
            case Some(u) => UsedAfterArgs(d, xs, mid, hi, u)
    decreases mid - lo
  {
    if lo < mid {
      match UsedAfter(d, xs[lo], used)
      case None =>
      case Some(u) => UsedAfterSplit(d, xs, lo + 1, mid, hi, u);
    }
  }

  // --------------------------------------------------------- decode after encode

  /** What the builder's limits accept.  Every wire level of a spine is
      materialised, and the innermost level of a long spine holds fifteen
      arguments, so it is that level's remaining arity that must fit. */
  predicate Buildable(pinArity: Hash -> nat, v: Val)
    decreases v, 1, 0
  {
    match v
    case Nat(_) => true
    case Pin(_) => true
    case Law(_, name, body) => Buildable(pinArity, name) && Buildable(pinArity, body)
    case App(head, args) => args != [] ==> SpineBuildable(pinArity, v, |args|)
  }

  predicate SpineBuildable(pinArity: Hash -> nat, v: Val, n: nat)
    requires v.App? && 0 < n <= |v.args|
    decreases v, 0, 1
  {
    && n <= MAX_ARGS
    && Need(Arity(pinArity, v.head), Min(n, 15)) < NEED_LIMIT
    && Buildable(pinArity, v.head)
    && ArgsBuildable(pinArity, v.args, 0, n)
  }

  predicate ArgsBuildable(pinArity: Hash -> nat, xs: seq<Val>, lo: nat, hi: nat)
    requires lo <= hi <= |xs|
    decreases xs, 0, 0
  {
    forall i :: lo <= i < hi ==> Buildable(pinArity, xs[i])
  }

  function Wire(v: Val): nat {
    if v.App? && v.args != [] then Outer(|v.args|) else 0
  }

  ghost predicate Passes(d: Decoder, v: Val) {
    d.build ==> Buildable(d.pinArity, v)
  }

  function EncoderOf(d: Decoder): Encoder {
    Encoder(d.h, d.pins)
  }

  lemma {:induction false} PinRoundTrip(d: Decoder, i: nat, used: seq<nat>, rest: seq<byte>)
    requires i < |d.pins| && EncodePin(i).Some?
    ensures var e := EncodePin(i).value;
            && e != [] && 0xf1 <= e[0] <= 0xf8
            && DecodePin(d, used, e[0] - 0xf0, e[1..] + rest) ==
               match NotePin(d, used, i)
               case None => None
               case Some(u) => Some(Reading(Pin(d.pins[i]), 0, u, rest))
  {
    hide LittleEndian, FromLittleEndian, NotePin;
    var w := Width(i);
    var e := EncodePin(i).value;
    LittleEndianRoundTrip(i, w);
    assert e[1..] == LittleEndian(i, w);
    assert (e[1..] + rest)[..w] == LittleEndian(i, w) && (e[1..] + rest)[w..] == rest;
  }

  /** DecodeNode on an opcode and what follows it. */
  lemma {:induction false} Dispatch(d: Decoder, depth: nat, used: seq<nat>, op: byte, s: seq<byte>)
    requires depth <= MAX_DEPTH
    ensures DecodeNode(d, depth, used, [op] + s) ==
            if NatOpcode(op) then
              (match DecodeNat(d, op, s)
               case None => None
               case Some((b, rest)) => Some(Reading(Nat(b), 0, used, rest)))
            else if AppOpcode(op) then DecodeApp(d, depth, used, op / 8, s)
            else if op == 0xf0 then DecodeLaw(d, depth, used, s)
            else if 0xf1 <= op <= 0xf8 then DecodePin(d, used, op - 0xf0, s)
            else None
  {
    hide DecodeNat, DecodeApp, DecodeLaw, DecodePin;
    assert ([op] + s)[1..] == s;
  }

  lemma {:induction false} NatNodeRoundTrip(d: Decoder, b: seq<byte>, depth: nat, used: seq<nat>, rest: seq<byte>)
    requires Normal(b) && |b| <= MAX_NAT_BYTES && depth <= MAX_DEPTH
    ensures DecodeNode(d, depth, used, EncodeNat(d.h, b) + rest) == Some(Reading(Nat(b), 0, used, rest))
  {
    hide DecodeNat, DecodeApp, DecodeLaw, DecodePin, EncodeNat, DecodeNode;
    var e := EncodeNat(d.h, b);
    NatRoundTrip(d, b, rest);
    Dispatch(d, depth, used, e[0], e[1..] + rest);
    assert e + rest == [e[0]] + (e[1..] + rest);
  }

  lemma {:induction false} NodeRoundTrip(d: Decoder, v: Val, depth: nat, used: seq<nat>, rest: seq<byte>)
    requires WellFormed(v) && EncodeNode(EncoderOf(d), v, depth).Some? && UsedAfter(d, v, used).Some?
    ensures DecodeNode(d, depth, used, EncodeNode(EncoderOf(d), v, depth).value + rest) ==
            if Passes(d, v) then Some(Reading(v, Wire(v), UsedAfter(d, v, used).value, rest)) else None
    decreases v, 2, 0
  {
    hide DecodeNat, DecodeApp, DecodeLaw, DecodePin, EncodeNat, DecodeNode, EncodePin, EncodeSpine, NotePin;
    match v
    case Nat(b) => NatNodeRoundTrip(d, b, depth, used, rest);
    case Pin(hash) =>
      var i := IndexOf(d.pins, hash).value;
      var e := EncodePin(i).value;
      PinRoundTrip(d, i, used, rest);
      Dispatch(d, depth, used, e[0], e[1..] + rest);
      assert e + rest == [e[0]] + (e[1..] + rest);
    case Law(arity, name, body) => LawRoundTrip(d, v, depth, used, rest);
    case App(head, args) =>
      SpineRoundTrip(d, v, |args|, depth, used, rest);
      assert args[..|args|] == args;
  }

  lemma {:induction false} LawRoundTrip(d: Decoder, v: Val, depth: nat, used: seq<nat>, rest: seq<byte>)
    requires v.Law? && WellFormed(v) && EncodeNode(EncoderOf(d), v, depth).Some? && UsedAfter(d, v, used).Some?
    ensures DecodeNode(d, depth, used, EncodeNode(EncoderOf(d), v, depth).value + rest) ==
            if Passes(d, v) then Some(Reading(v, 0, UsedAfter(d, v, used).value, rest)) else None
    decreases v, 1, 0
  {
    hide DecodeNat, DecodeApp, DecodePin, EncodeNat, DecodeNode, EncodePin, EncodeSpine, EncodeArity, FromLittleEndian;
    var c := EncoderOf(d);
    var e1 := EncodeNode(c, v.name, depth + 1).value;
    var e2 := EncodeArity(v.arity).value;
    var e3 := EncodeNode(c, v.body, depth + 1).value;
    var u1 := UsedAfter(d, v.name, used).value;
    assert 0 < v.arity <= NAT63_MAX by { ArityPositive(v.arity); }
    assert EncodeNode(c, v, depth).value + rest == [0xf0] + (e1 + (e2 + (e3 + rest)));
    Dispatch(d, depth, used, 0xf0, e1 + (e2 + (e3 + rest)));
    NodeRoundTrip(d, v.name, depth + 1, used, e2 + (e3 + rest));
    if Passes(d, v.name) {
      ScalarFacts(v.arity);
      ArityIsNat(d.h, v.arity);
      NodeDepth(c, v.name, depth + 1);
      NatNodeRoundTrip(d, ScalarBytes(v.arity), depth + 1, u1, e3 + rest);
      NodeRoundTrip(d, v.body, depth + 1, u1, rest);
    }
  }

  lemma ArityPositive(v: nat)
    requires EncodeArity(v).Some?
    ensures 0 < v <= NAT63_MAX
  {
  }

  lemma {:induction false} NodeDepth(c: Encoder, v: Val, depth: nat)
    requires EncodeNode(c, v, depth).Some?
    ensures depth <= MAX_DEPTH
  {
  }

  lemma {:induction false} SpineLevel(pinArity: Hash -> nat, v: Val, n: nat)
    requires v.App? && 0 < n <= |v.args|
    ensures var inner := n - Outer(n);
            SpineBuildable(pinArity, v, n) <==>
              && (if inner != 0 then SpineBuildable(pinArity, v, inner) else Buildable(pinArity, v.head))
              && ArgsBuildable(pinArity, v.args, inner, n)
              && FitsRuntime(pinArity, App(v.head, v.args[..n]))
  {
  }

  /** The operand of a wire application: the shorter spine, or the head itself. */
  ghost function Inner(v: Val, inner: nat): Val
    requires v.App? && inner <= |v.args|
  {
    if inner != 0 then App(v.head, v.args[..inner]) else v.head
  }

  lemma {:induction false} FlattenInner(v: Val, inner: nat, n: nat)
    requires v.App? && !v.head.App? && inner <= n <= |v.args|
    ensures Flatten(Inner(v, inner), v.args[inner..n]) == App(v.head, v.args[..n])
  {
    assert inner != 0 ==> v.args[..inner] + v.args[inner..n] == v.args[..n];
    assert inner == 0 ==> v.args[inner..n] == v.args[..n];
  }

  /** Put the parts of one wire application together. */
  lemma {:induction false} AppFromParts(d: Decoder, v: Val, n: nat, depth: nat, used: seq<nat>, u1: seq<nat>,
                                        u2: seq<nat>,
                                        headOk: bool, argsOk: bool, wire: nat, s: seq<byte>, s1: seq<byte>,
                                            rest: seq<byte>)
    requires v.App? && !v.head.App? && 0 < n <= |v.args| && depth <= MAX_DEPTH
    requires n != Outer(n) ==> wire == 15
    requires DecodeNode(d, depth + 1, used, s) ==
             if headOk then Some(Reading(Inner(v, n - Outer(n)), wire, u1, s1)) else None
    requires DecodeArgs(d, depth + 1, u1, Outer(n), s1) ==
             if argsOk then Some((v.args[n - Outer(n)..n], u2, rest)) else None
    ensures DecodeNode(d, depth, used, [8 * Outer(n)] + s) ==
            if headOk && argsOk && (d.build ==> FitsRuntime(d.pinArity, App(v.head, v.args[..n])))
            then Some(Reading(App(v.head, v.args[..n]), Outer(n), u2, rest)) else None
  {
    hide DecodeNode, DecodeArgs, DecodeNat, DecodeLaw, DecodePin, FitsRuntime, Flatten;
    Dispatch(d, depth, used, 8 * Outer(n), s);
    FlattenInner(v, n - Outer(n), n);
  }

  lemma {:induction false} SpineRoundTrip(d: Decoder, v: Val, n: nat, depth: nat, used: seq<nat>, rest: seq<byte>)
    requires v.App? && 0 < n <= |v.args| && WellFormed(v) && EncodeSpine(EncoderOf(d), v, n, depth).Some?
    requires UsedAfter(d, v.head, used).Some?
    requires UsedAfterArgs(d, v.args, 0, n, UsedAfter(d, v.head, used).value).Some?
    ensures DecodeNode(d, depth, used, EncodeSpine(EncoderOf(d), v, n, depth).value + rest) ==
            if d.build ==> SpineBuildable(d.pinArity, v, n) then
              Some(Reading(App(v.head, v.args[..n]), Outer(n),
                           UsedAfterArgs(d, v.args, 0, n, UsedAfter(d, v.head, used).value).value, rest))
            else None
    decreases v, 1, n
  {
    hide DecodeNat, DecodeLaw, DecodePin, DecodeApp, EncodeNat, DecodeNode, DecodeArgs, EncodeNode, EncodeArgs,
         UsedAfter, UsedAfterArgs, FitsRuntime, SpineBuildable, ArgsBuildable, WellFormed, Buildable;
    var c := EncoderOf(d);
    var inner := n - Outer(n);
    var u := UsedAfter(d, v.head, used).value;
    UsedAfterSplit(d, v.args, 0, inner, n, u);
    UsedNone(d, v.args, u);
    SpineLevel(d.pinArity, v, n);
    WellFormedParts(v);
    var ea := EncodeArgs(c, v.args, inner, n, depth + 1).value;
    var u1 := UsedAfterArgs(d, v.args, 0, inner, u).value;
    var u2 := UsedAfterArgs(d, v.args, inner, n, u1).value;
    ArgsRoundTrip(d, v.args, inner, n, depth + 1, u1, rest);
    var argsOk := d.build ==> ArgsBuildable(d.pinArity, v.args, inner, n);
    if inner != 0 {
      var eh := EncodeSpine(c, v, inner, depth + 1).value;
      SpineRoundTrip(d, v, inner, depth + 1, used, ea + rest);
      var headOk := d.build ==> SpineBuildable(d.pinArity, v, inner);
      AppFromParts(d, v, n, depth, used, u1, u2, headOk, argsOk, 15, eh + (ea + rest), ea + rest, rest);
      assert EncodeSpine(c, v, n, depth).value + rest == [8 * Outer(n)] + (eh + (ea + rest));
    } else {
      var eh := EncodeNode(c, v.head, depth + 1).value;
      NodeRoundTrip(d, v.head, depth + 1, used, ea + rest);
      AppFromParts(d, v, n, depth, used, u1, u2, Passes(d, v.head), argsOk, Wire(v.head), eh + (ea + rest),
          ea + rest, rest);
      assert EncodeSpine(c, v, n, depth).value + rest == [8 * Outer(n)] + (eh + (ea + rest));
    }
  }

  lemma {:induction false} UsedNone(d: Decoder, xs: seq<Val>, used: seq<nat>)
    ensures UsedAfterArgs(d, xs, 0, 0, used) == Some(used)
  {
  }

  lemma {:induction false} WellFormedParts(v: Val)
    requires v.App? && WellFormed(v)
    ensures !v.head.App? && WellFormed(v.head)
    ensures forall i :: 0 <= i < |v.args| ==> WellFormed(v.args[i])
  {
  }

  lemma {:induction false} ArgsRoundTrip(d: Decoder, xs: seq<Val>, lo: nat, hi: nat, depth: nat, used: seq<nat>,
                                         rest: seq<byte>)
    requires lo <= hi <= |xs| && (forall i :: lo <= i < hi ==> WellFormed(xs[i]))
    requires EncodeArgs(EncoderOf(d), xs, lo, hi, depth).Some? && UsedAfterArgs(d, xs, lo, hi, used).Some?
    ensures DecodeArgs(d, depth, used, hi - lo, EncodeArgs(EncoderOf(d), xs, lo, hi, depth).value + rest) ==
            if d.build ==> ArgsBuildable(d.pinArity, xs, lo, hi) then
              Some((xs[lo..hi], UsedAfterArgs(d, xs, lo, hi, used).value, rest))
            else None
    decreases xs, 0, hi - lo
  {
    hide DecodeNode, EncodeNode, UsedAfter, WellFormed, Buildable;
    if lo == hi {
      assert [] + rest == rest;
    } else {
      var c := EncoderOf(d);
      var e1, e2 := EncodeNode(c, xs[lo], depth).value, EncodeArgs(c, xs, lo + 1, hi, depth).value;
      assert e1 + e2 + rest == e1 + (e2 + rest);
      NodeRoundTrip(d, xs[lo], depth, used, e2 + rest);
      ArgsRoundTrip(d, xs, lo + 1, hi, depth, UsedAfter(d, xs[lo], used).value, rest);
      assert xs[lo..hi] == [xs[lo]] + xs[lo + 1..hi];
    }
  }

  // --------------------------------------------------------- encode after decode

  lemma {:induction false} EncodeArgsSame(c: Encoder, xs: seq<Val>, lo: nat, hi: nat, ys: seq<Val>, lo': nat,
                                          depth: nat)
    requires lo <= hi <= |xs| && lo' + (hi - lo) <= |ys|
    requires forall i :: lo <= i < hi ==> xs[i] == ys[i - lo + lo']
    ensures EncodeArgs(c, xs, lo, hi, depth) == EncodeArgs(c, ys, lo', lo' + (hi - lo), depth)
    decreases hi - lo
  {
    hide EncodeNode;
    if lo < hi {
      EncodeArgsSame(c, xs, lo + 1, hi, ys, lo' + 1, depth);
    }
  }

  lemma {:induction false} UsedAfterSame(d: Decoder, xs: seq<Val>, lo: nat, hi: nat, ys: seq<Val>, lo': nat,
                                         used: seq<nat>)
    requires lo <= hi <= |xs| && lo' + (hi - lo) <= |ys|
    requires forall i :: lo <= i < hi ==> xs[i] == ys[i - lo + lo']
    ensures UsedAfterArgs(d, xs, lo, hi, used) == UsedAfterArgs(d, ys, lo', lo' + (hi - lo), used)
    decreases hi - lo
  {
    hide UsedAfter;
    if lo < hi && UsedAfter(d, xs[lo], used).Some? {
      UsedAfterSame(d, xs, lo + 1, hi, ys, lo' + 1, UsedAfter(d, xs[lo], used).value);
    }
  }

  lemma {:induction false} EncodeSpinePrefix(c: Encoder, v: Val, w: Val, n: nat, depth: nat)
    requires v.App? && w.App? && v.head == w.head && 0 < n <= |v.args| && n <= |w.args|
    requires forall i :: 0 <= i < n ==> v.args[i] == w.args[i]
    ensures EncodeSpine(c, v, n, depth) == EncodeSpine(c, w, n, depth)
    decreases n
  {
    hide EncodeNode, EncodeArgs;
    var inner := n - Outer(n);
    EncodeArgsSame(c, v.args, inner, n, w.args, inner, depth + 1);
    if inner != 0 {
      EncodeSpinePrefix(c, v, w, inner, depth + 1);
    }
  }

  lemma {:induction false} IndexOfDistinct(pins: seq<Hash>, i: nat)
    requires Distinct(pins) && i < |pins|
    ensures IndexOf(pins, pins[i]) == Some(i)
  {
    if i > 0 {
      IndexOfDistinct(pins[1..], i - 1);
    }
  }

  /** What the canonical decoder guarantees of a node it has read. */
  ghost predicate Faithful(d: Decoder, depth: nat, used: seq<nat>, s: seq<byte>, r: Reading) {
    && WellFormed(r.val)
    && EncodeNode(EncoderOf(d), r.val, depth).Some?
    && s == EncodeNode(EncoderOf(d), r.val, depth).value + r.rest
    && UsedAfter(d, r.val, used) == Some(r.used)
    && r.wire == Wire(r.val)
    && (r.val.App? ==> r.val.args != [])
  }

  lemma {:induction false} PinCanonical(d: Decoder, depth: nat, used: seq<nat>, width: nat, s: seq<byte>)
    requires Distinct(d.pins) && 1 <= width <= 8 && depth <= MAX_DEPTH && DecodePin(d, used, width, s).Some?
    ensures Faithful(d, depth, used, [0xf0 + width] + s, DecodePin(d, used, width, s).value)
  {
    hide LittleEndian, FromLittleEndian, NotePin;
    var i := FromLittleEndian(s[..width]);
    IndexOfDistinct(d.pins, i);
    BytesRoundTrip(s[..width]);
    assert [0xf0 + width] + s == [0xf0 + width] + s[..width] + s[width..];
  }

  lemma {:induction false} NodeCanonical(d: Decoder, depth: nat, used: seq<nat>, s: seq<byte>)
    requires d.canonical && Distinct(d.pins) && DecodeNode(d, depth, used, s).Some?
    ensures Faithful(d, depth, used, s, DecodeNode(d, depth, used, s).value)
    decreases |s|, 1, 0
  {
    hide DecodeNat, DecodeApp, DecodeLaw, DecodePin, EncodeNat, DecodeNode;
    NodeNonempty(d, depth, used, s);
    var op, s1 := s[0], s[1..];
    assert s == [op] + s1;
    Dispatch(d, depth, used, op, s1);
    if NatOpcode(op) {
      NatCanonical(d, op, s1);
    } else if AppOpcode(op) {
      AppCanonical(d, depth, used, op / 8, s1);
    } else if op == 0xf0 {
      LawCanonical(d, depth, used, s1);
    } else {
      PinCanonical(d, depth, used, op - 0xf0, s1);
    }
  }

  lemma {:induction false} NodeNonempty(d: Decoder, depth: nat, used: seq<nat>, s: seq<byte>)
    requires DecodeNode(d, depth, used, s).Some?
    ensures s != [] && depth <= MAX_DEPTH
  {
  }

  lemma {:induction false} LawCanonical(d: Decoder, depth: nat, used: seq<nat>, s: seq<byte>)
    requires d.canonical && Distinct(d.pins) && depth <= MAX_DEPTH && DecodeLaw(d, depth, used, s).Some?
    ensures Faithful(d, depth, used, [0xf0] + s, DecodeLaw(d, depth, used, s).value)
    decreases |s|, 2, 0
  {
    hide DecodeNode, EncodeNat, EncodeArity, FromLittleEndian, ScalarBytes;
    var c := EncoderOf(d);
    var name := DecodeNode(d, depth + 1, used, s).value;
    var arity := DecodeNode(d, depth + 1, name.used, name.rest).value;
    var body := DecodeNode(d, depth + 1, arity.used, arity.rest).value;
    NodeCanonical(d, depth + 1, used, s);
    NodeCanonical(d, depth + 1, name.used, name.rest);
    NodeCanonical(d, depth + 1, arity.used, arity.rest);
    var a := FromLittleEndian(arity.val.bytes);
    EmptyIsZero();
    BytesAreScalar(arity.val.bytes);
    ArityIsNat(d.h, a);
    var e1, e2 := EncodeNode(c, name.val, depth + 1).value, EncodeArity(a).value;
    var e3 := EncodeNode(c, body.val, depth + 1).value;
    assert [0xf0] + (e1 + (e2 + (e3 + body.rest))) == [0xf0] + e1 + e2 + e3 + body.rest;
  }

  lemma EmptyIsZero()
    ensures FromLittleEndian([]) == 0
  {
  }

  lemma {:induction false} ArgsCanonical(d: Decoder, depth: nat, used: seq<nat>, n: nat, s: seq<byte>)
    requires d.canonical && Distinct(d.pins) && DecodeArgs(d, depth, used, n, s).Some?
    ensures var (xs, used', rest) := DecodeArgs(d, depth, used, n, s).value;
            && |xs| == n && (forall x :: x in xs ==> WellFormed(x))
            && EncodeArgs(EncoderOf(d), xs, 0, n, depth).Some?
            && s == EncodeArgs(EncoderOf(d), xs, 0, n, depth).value + rest
            && UsedAfterArgs(d, xs, 0, n, used) == Some(used')
    decreases |s|, 2, n
  {
    hide DecodeNode, EncodeNode, WellFormed, UsedAfter;
    if n == 0 {
      assert s == [] + s;
    } else {
      var c := EncoderOf(d);
      var first := DecodeNode(d, depth, used, s).value;
      NodeCanonical(d, depth, used, s);
      var (others, used', rest) := DecodeArgs(d, depth, first.used, n - 1, first.rest).value;
      ArgsCanonical(d, depth, first.used, n - 1, first.rest);
      var xs := [first.val] + others;
      ArgsCons(d, first.val, others, depth, used, first.used);
      var e1, e2 := EncodeNode(c, first.val, depth).value, EncodeArgs(c, others, 0, n - 1, depth).value;
      assert e1 + (e2 + rest) == e1 + e2 + rest;
    }
  }

  lemma EncodeArgsStep(c: Encoder, xs: seq<Val>, depth: nat)
    requires xs != []
    ensures EncodeArgs(c, xs, 0, |xs|, depth) == Append(EncodeNode(c, xs[0], depth), EncodeArgs(c, xs, 1, |xs|, depth))
  {
    hide EncodeNode, Append;
  }

  lemma UsedArgsStep(d: Decoder, xs: seq<Val>, used: seq<nat>)
    requires xs != [] && UsedAfter(d, xs[0], used).Some?
    ensures UsedAfterArgs(d, xs, 0, |xs|, used) == UsedAfterArgs(d, xs, 1, |xs|, UsedAfter(d, xs[0], used).value)
  {
    hide UsedAfter;
  }

  /** Encoding and pin use of a row, from its first element and the rest. */
  lemma {:induction false} ArgsCons(d: Decoder, x: Val, others: seq<Val>, depth: nat, used: seq<nat>, after: seq<nat>)
    requires UsedAfter(d, x, used) == Some(after)
    ensures var c, xs, n := EncoderOf(d), [x] + others, |others| + 1;
            && EncodeArgs(c, xs, 0, n, depth)
                == Append(EncodeNode(c, x, depth), EncodeArgs(c, others, 0, |others|, depth))
            && UsedAfterArgs(d, xs, 0, n, used) == UsedAfterArgs(d, others, 0, |others|, after)
  {
    hide EncodeNode, UsedAfter, EncodeArgs, UsedAfterArgs, Append;
    var c, xs, n := EncoderOf(d), [x] + others, |others| + 1;
    EncodeArgsStep(c, xs, depth);
    UsedArgsStep(d, xs, used);
    assert xs[0] == x;
    EncodeArgsSame(c, others, 0, n - 1, xs, 1, depth);
    UsedAfterSame(d, others, 0, n - 1, xs, 1, after);
  }

  lemma {:induction false} OuterOfSum(m: nat, n: nat)
    requires 1 <= n <= 15 && (m == 0 || Outer(m) == 15)
    ensures Outer(m + n) == n
  {
  }

  /** The spine collected from a decoded operand and its arguments encodes to the
      operand's own bytes followed by the arguments'. */
  lemma {:induction false} EncodeFlatten(c: Encoder, head: Val, args: seq<Val>, depth: nat)
    requires 1 <= |args| <= 15 && (head.App? ==> head.args != [] && Outer(|head.args|) == 15)
    requires depth <= MAX_DEPTH
    ensures EncodeNode(c, Flatten(head, args), depth) ==
            Append(Append(Some([8 * |args|]), EncodeNode(c, head, depth + 1)),
                   EncodeArgs(c, args, 0, |args|, depth + 1))
  {
    hide EncodeArgs;
    var v := Flatten(head, args);
    if head.App? {
      var m := |head.args|;
      OuterOfSum(m, |args|);
      EncodeArgsSame(c, args, 0, |args|, v.args, m, depth + 1);
      EncodeSpinePrefix(c, head, v, m, depth + 1);
      SpineDepth(c, v, m, depth + 1);
    } else {
      OuterOfSum(0, |args|);
    }
  }

  lemma {:induction false} SpineDepth(c: Encoder, v: Val, n: nat, depth: nat)
    requires v.App? && 0 < n <= |v.args|
    ensures depth > MAX_DEPTH ==> EncodeSpine(c, v, n, depth).None?
  {
  }

  lemma {:induction false} UsedFlatten(d: Decoder, head: Val, args: seq<Val>, used: seq<nat>)
    requires head.App? ==> !head.head.App?
    requires UsedAfter(d, head, used).Some?
    ensures UsedAfter(d, Flatten(head, args), used) == UsedAfterArgs(d, args, 0, |args|, UsedAfter(d, head, used).value)
  {
    hide UsedAfterArgs;
    if head.App? {
      var v := Flatten(head, args);
      var m := |head.args|;
      var u := UsedAfter(d, head.head, used).value;
      UsedAfterSplit(d, v.args, 0, m, |v.args|, u);
      UsedAfterSame(d, head.args, 0, m, v.args, 0, u);
      UsedAfterSame(d, args, 0, |args|, v.args, m, UsedAfter(d, head, used).value);
    }
  }

  lemma {:induction false} WellFormedFlatten(head: Val, args: seq<Val>)
    requires WellFormed(head) && (forall x :: x in args ==> WellFormed(x))
    ensures WellFormed(Flatten(head, args))
  {
  }

  lemma {:induction false} AppCanonical(d: Decoder, depth: nat, used: seq<nat>, n: nat, s: seq<byte>)
    requires d.canonical && Distinct(d.pins) && depth <= MAX_DEPTH && 1 <= n <= 15
    requires DecodeApp(d, depth, used, n, s).Some?
    ensures Faithful(d, depth, used, [8 * n] + s, DecodeApp(d, depth, used, n, s).value)
    decreases |s|, 2, 0
  {
    hide DecodeNode, DecodeArgs, EncodeNode, EncodeArgs, WellFormed, UsedAfter, UsedAfterArgs, FitsRuntime;
    var c := EncoderOf(d);
    var head := DecodeNode(d, depth + 1, used, s).value;
    var (args, used', rest) := DecodeArgs(d, depth + 1, head.used, n, head.rest).value;
    NodeCanonical(d, depth + 1, used, s);
    ArgsCanonical(d, depth + 1, head.used, n, head.rest);
    EncodeFlatten(c, head.val, args, depth);
    if head.val.App? {
      WellFormedParts(head.val);
      OuterOfSum(|head.val.args|, n);
    }
    UsedFlatten(d, head.val, args, used);
    WellFormedFlatten(head.val, args);
    var eh, ea := EncodeNode(c, head.val, depth + 1).value, EncodeArgs(c, args, 0, n, depth + 1).value;
    assert [8 * n] + (eh + (ea + rest)) == [8 * n] + eh + ea + rest;
  }
}
