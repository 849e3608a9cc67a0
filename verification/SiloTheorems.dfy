/** The main results about Silo streams: the round trip, canonicity, the exact
    condition under which a canonical stream can be rebuilt, and injectivity. */
module SiloTheorems {
  import opened Basics
  import opened Bytes
  import opened Mnat
  import opened MnatProof
  import opened Silo
  import opened SiloProof
  import opened SiloLimits

  // ------------------------------------------------------------- the pin table

  /** The pins of v in order of first occurrence, appended to those seen. */
  function FirstUses(v: Val, seen: seq<Hash>): (r: seq<Hash>)
    ensures seen <= r
    decreases v, 1, 0
  {
    match v
    case Nat(_) => seen
    case Pin(hash) => if hash in seen then seen else seen + [hash]
    case Law(_, name, body) => FirstUses(body, FirstUses(name, seen))
    case App(head, args) => FirstUsesArgs(args, 0, |args|, FirstUses(head, seen))
  }

  function FirstUsesArgs(xs: seq<Val>, lo: nat, hi: nat, seen: seq<Hash>): (r: seq<Hash>)
    requires lo <= hi <= |xs|
    ensures seen <= r
    decreases xs, 0, hi - lo
  {
    if lo == hi then seen else FirstUsesArgs(xs, lo + 1, hi, FirstUses(xs[lo], seen))
  }

  /** The indices 0, 1, ..., k - 1. */
  function Iota(k: nat): (r: seq<nat>)
    ensures |r| == k && forall i :: 0 <= i < k ==> r[i] == i
  {
    seq(k, i => i)
  }

  ghost predicate Scanner(d: Decoder) {
    d.canonical && d.capture && Distinct(d.pins)
  }

  /** The outcome of one use: f is the table it asks for. */
  ghost predicate Agrees(d: Decoder, f: seq<Hash>, used: Option<seq<nat>>) {
    if f <= d.pins then used == Some(Iota(|f|)) else used.None?
  }

  lemma {:induction false} PinAgrees(d: Decoder, hash: Hash, k: nat)
    requires Scanner(d) && k <= |d.pins|
    ensures Agrees(d, FirstUses(Pin(hash), d.pins[..k]), UsedAfter(d, Pin(hash), Iota(k)))
  {
    var seen := d.pins[..k];
    var f := FirstUses(Pin(hash), seen);
    match IndexOf(d.pins, hash)
    case None =>
      assert hash !in seen;
      assert f[k] == hash;
    case Some(i) =>
      assert hash in seen <==> i < k by {
        assert i < k ==> seen[i] == hash;
      }
      assert i in Iota(k) <==> i < k by {
        assert i < k ==> Iota(k)[i] == i;
      }
      if i >= k {
        assert f[k] == hash;
        assert f <= d.pins <==> i == k;
        assert i == k ==> Iota(k) + [k] == Iota(k + 1);
      }
  }

  /** The scanner's first-use check accepts a value exactly when the pin table
      starts with the value's first occurrences. */
  lemma {:induction false} UsesAgree(d: Decoder, v: Val, k: nat)
    requires Scanner(d) && k <= |d.pins|
    ensures Agrees(d, FirstUses(v, d.pins[..k]), UsedAfter(d, v, Iota(k)))
    decreases v, 1, 0
  {
    var seen := d.pins[..k];
    match v
    case Nat(_) =>
    case Pin(hash) => PinAgrees(d, hash, k);
    case Law(_, name, body) =>
      UsesAgree(d, name, k);
      var f := FirstUses(name, seen);
      if f <= d.pins {
        assert f == d.pins[..|f|];
        UsesAgree(d, body, |f|);
      }
    case App(head, args) =>
      UsesAgree(d, head, k);
      var f := FirstUses(head, seen);
      if f <= d.pins {
        assert f == d.pins[..|f|];
        UsesAgreeArgs(d, args, 0, |args|, |f|);
      }
  }

  lemma {:induction false} UsesAgreeArgs(d: Decoder, xs: seq<Val>, lo: nat, hi: nat, k: nat)
    requires Scanner(d) && k <= |d.pins| && lo <= hi <= |xs|
    ensures Agrees(d, FirstUsesArgs(xs, lo, hi, d.pins[..k]), UsedAfterArgs(d, xs, lo, hi, Iota(k)))
    decreases xs, 0, hi - lo
  {
    if lo < hi {
      UsesAgree(d, xs[lo], k);
      var f := FirstUses(xs[lo], d.pins[..k]);
      if f <= d.pins {
        assert f == d.pins[..|f|];
        UsesAgreeArgs(d, xs, lo + 1, hi, |f|);
      }
    }
  }

  /** A pass that does not capture uses accepts whatever the scanner accepted. */
  lemma {:induction false} UsesIgnored(d: Decoder, d': Decoder, v: Val, used: seq<nat>, used': seq<nat>)
    requires d.pins == d'.pins && !d'.capture && UsedAfter(d, v, used).Some?
    ensures UsedAfter(d', v, used') == Some(used')
    decreases v, 1, 0
  {
    match v
    case Nat(_) =>
    case Pin(_) =>
    case Law(_, name, body) =>
      UsesIgnored(d, d', name, used, used');
      UsesIgnored(d, d', body, UsedAfter(d, name, used).value, used');
    case App(head, args) =>
      UsesIgnored(d, d', head, used, used');
      UsesIgnoredArgs(d, d', args, 0, |args|, UsedAfter(d, head, used).value, used');
  }

  lemma {:induction false} UsesIgnoredArgs(d: Decoder, d': Decoder, xs: seq<Val>, lo: nat, hi: nat,
                                           used: seq<nat>, used': seq<nat>)
    requires d.pins == d'.pins && !d'.capture && lo <= hi <= |xs| && UsedAfterArgs(d, xs, lo, hi, used).Some?
    ensures UsedAfterArgs(d', xs, lo, hi, used') == Some(used')
    decreases xs, 0, hi - lo
  {
    if lo < hi {
      UsesIgnored(d, d', xs[lo], used, used');
      UsesIgnoredArgs(d, d', xs, lo + 1, hi, UsedAfter(d, xs[lo], used).value, used');
    }
  }

  lemma {:induction false} VarnatRoundTrip(v: nat, rest: seq<byte>)
    requires Width(v) <= 8
    ensures DecodeVarnat(EncodeVarnat(v) + rest) == Some((v, rest))
  {
    hide LittleEndian, Width;
    var s := EncodeVarnat(v) + rest;
    if v == 0 {
      assert s[1..1] == [] && s[1..] == rest;
    } else {
      var w := Width(v);
      LittleEndianRoundTrip(v, w);
      assert s[1..1 + w] == LittleEndian(v, w) && s[1 + w..] == rest;
    }
  }

  lemma {:induction false} VarnatCanonical(s: seq<byte>)
    requires DecodeVarnat(s).Some?
    ensures Width(DecodeVarnat(s).value.0) <= 8
    ensures s == EncodeVarnat(DecodeVarnat(s).value.0) + DecodeVarnat(s).value.1
  {
    hide LittleEndian;
    var w := s[0];
    BytesRoundTrip(s[1..1 + w]);
    assert s == [w] + s[1..1 + w] + s[1 + w..];
  }

  /** The stream up to the root node. */
  function EncodeTable(pins: seq<Hash>): seq<byte>
    requires |pins| <= MAX_PIN_COUNT
  {
    PinWidthSmall(|pins|);
    MAGIC + EncodeVarnat(|pins|) + Concat(pins)
  }

  lemma {:induction false} TableRoundTrip(pins: seq<Hash>, rest: seq<byte>)
    requires |pins| <= MAX_PIN_COUNT && Distinct(pins)
    ensures DecodeTable(EncodeTable(pins) + rest) == Some((pins, rest))
  {
    hide DecodeVarnat, EncodeVarnat, ReadHashes, Concat, Width;
    PinWidthSmall(|pins|);
    var s := EncodeTable(pins) + rest;
    var tail := EncodeVarnat(|pins|) + (Concat(pins) + rest);
    assert s == MAGIC + tail;
    assert s[..5] == MAGIC && s[5..] == tail;
    VarnatRoundTrip(|pins|, Concat(pins) + rest);
    ReadHashesForward(pins, rest);
  }

  lemma {:induction false} TableCanonical(s: seq<byte>)
    requires DecodeTable(s).Some?
    ensures var (pins, rest) := DecodeTable(s).value;
            |pins| <= MAX_PIN_COUNT && Distinct(pins) && s == EncodeTable(pins) + rest
  {
    hide DecodeVarnat, EncodeVarnat, ReadHashes, Concat, Width;
    var (count, s1) := DecodeVarnat(s[5..]).value;
    var (pins, rest) := ReadHashes(count, s1).value;
    VarnatCanonical(s[5..]);
    ReadHashesBackward(count, s1);
    assert s == MAGIC + s[5..];
    assert MAGIC + (EncodeVarnat(count) + (Concat(pins) + rest)) == MAGIC + EncodeVarnat(count) + Concat(pins) + rest;
  }

  // --------------------------------------------------------------- the theorems

  /** Later uses only add to a table. */
  lemma {:induction false} HasPinsMore(v: Val, pins: seq<Hash>, more: seq<Hash>)
    requires HasPins(pins, v) && pins <= more
    ensures HasPins(more, v)
    decreases v
  {
    match v
    case Nat(_) =>
    case Pin(hash) =>
      var i :| 0 <= i < |pins| && pins[i] == hash;
      assert more[i] == hash;
    case Law(_, name, body) =>
      HasPinsMore(name, pins, more);
      HasPinsMore(body, pins, more);
    case App(head, args) =>
      HasPinsMore(head, pins, more);
      forall j | 0 <= j < |args| ensures HasPins(more, args[j]) {
        HasPinsMore(args[j], pins, more);
      }
  }

  /** A first-occurrence table has every pin of its value, each once. */
  lemma {:induction false} FirstUsesTable(v: Val, seen: seq<Hash>)
    requires Distinct(seen)
    ensures Distinct(FirstUses(v, seen)) && HasPins(FirstUses(v, seen), v)
    decreases v, 1, 0
  {
    match v
    case Nat(_) =>
    case Pin(hash) =>
    case Law(_, name, body) =>
      FirstUsesTable(name, seen);
      FirstUsesTable(body, FirstUses(name, seen));
      HasPinsMore(name, FirstUses(name, seen), FirstUses(v, seen));
    case App(head, args) =>
      FirstUsesTable(head, seen);
      FirstUsesTableArgs(args, 0, FirstUses(head, seen));
      HasPinsMore(head, FirstUses(head, seen), FirstUses(v, seen));
  }

  lemma {:induction false} FirstUsesTableArgs(xs: seq<Val>, lo: nat, seen: seq<Hash>)
    requires Distinct(seen) && lo <= |xs|
    ensures var r := FirstUsesArgs(xs, lo, |xs|, seen); Distinct(r) && forall j :: lo <= j < |xs| ==> HasPins(r, xs[j])
    decreases xs, 0, |xs| - lo
  {
    if lo < |xs| {
      FirstUsesTable(xs[lo], seen);
      FirstUsesTableArgs(xs, lo + 1, FirstUses(xs[lo], seen));
      HasPinsMore(xs[lo], FirstUses(xs[lo], seen), FirstUsesArgs(xs, lo, |xs|, seen));
    }
  }

  /** A value within the format's limits: every wire level at most 4096, law
      arities from 1 to 2^63 - 1, no empty application, and no more distinct pins
      than a table may hold. */
  predicate WithinLimits(v: Val) {
    Encodable(v, 0) && |FirstUses(v, [])| <= MAX_PIN_COUNT
  }

  /** The encoder succeeds exactly on the values within those limits. */
  lemma {:induction false} EncodesExactly(h: Scheme, v: Val)
    ensures Encode(Encoder(h, FirstUses(v, [])), v).Some? <==> WithinLimits(v)
  {
    hide EncodeNode, Encodable, HasPins, EncodeVarnat, Concat;
    FirstUsesTable(v, []);
    if |FirstUses(v, [])| <= MAX_PIN_COUNT {
      NodeEncodes(Encoder(h, FirstUses(v, [])), v, 0);
    }
  }

  /** Main result: every flat normal value within the limits encodes, with its
      first-occurrence pin table, to a stream the canonical scan accepts and reads
      as that table and that value; and the builder returns the value exactly when
      it fits the runtime limits at every wire level. */
  lemma {:induction false} RoundTrip(h: Scheme, pinArity: Hash -> nat, v: Val)
    requires WellFormed(v) && WithinLimits(v)
    ensures Encode(Encoder(h, FirstUses(v, [])), v).Some?
    ensures var s := Encode(Encoder(h, FirstUses(v, [])), v).value;
            && Scan(h, s) == Some((FirstUses(v, []), v))
            && Build(h, pinArity, s) == if Buildable(pinArity, v) then Some(v) else None
  {
    hide DecodeNode, EncodeNode, DecodeTable, UsedAfter, WellFormed, Buildable, Distinct, Encodable;
    EncodesExactly(h, v);
    var pins := FirstUses(v, []);
    var d := Decoder(h, pins, x => 0, true, true, false);
    var d' := Decoder(h, pins, pinArity, false, false, true);
    var e := EncodeNode(EncoderOf(d), v, 0).value;
    var s := EncodeTable(pins) + e;
    TableRoundTrip(pins, e);
    assert pins[..0] == [] && Iota(0) == [];
    UsesAgree(d, v, 0);
    UsesIgnored(d, d', v, [], []);
    NodeRoundTrip(d, v, 0, [], []);
    NodeRoundTrip(d', v, 0, [], []);
    assert e + [] == e;
  }

  /** Every stream the canonical scan accepts is the encoding of the value it
      denotes, and its pin table is that value's first-occurrence table. */
  lemma {:induction false} Canonical(h: Scheme, s: seq<byte>)
    requires Scan(h, s).Some?
    ensures var (pins, v) := Scan(h, s).value;
            && WellFormed(v) && WithinLimits(v)
            && pins == FirstUses(v, [])
            && Encode(Encoder(h, pins), v) == Some(s)
  {
    hide DecodeNode, EncodeNode, DecodeTable, UsedAfter, WellFormed, Distinct, Encodable;
    var (pins, s1) := DecodeTable(s).value;
    TableCanonical(s);
    var d := Decoder(h, pins, x => 0, true, true, false);
    NodeCanonical(d, 0, [], s1);
    var r := DecodeNode(d, 0, [], s1).value;
    assert pins[..0] == [] && Iota(0) == [];
    UsesAgree(d, r.val, 0);
    assert EncodeNode(EncoderOf(d), r.val, 0).value + [] == EncodeNode(EncoderOf(d), r.val, 0).value;
    assert pins == FirstUses(r.val, []) && Encode(Encoder(h, pins), r.val) == Some(s);
    EncodesExactly(h, r.val);
  }

  /** Content addressing is sound: streams identify values and tables. */
  lemma {:induction false} EncodingIsInjective(h: Scheme, v: Val, w: Val)
    requires WellFormed(v) && WellFormed(w)
    requires Encode(Encoder(h, FirstUses(v, [])), v).Some?
    requires Encode(Encoder(h, FirstUses(v, [])), v) == Encode(Encoder(h, FirstUses(w, [])), w)
    ensures v == w
  {
    hide DecodeNode, EncodeNode, Encode, Scan, Build, WellFormed, WithinLimits;
    EncodesExactly(h, v);
    EncodesExactly(h, w);
    RoundTrip(h, x => 0, v);
    RoundTrip(h, x => 0, w);
  }

  // ----------------------------------------- a legal value that cannot be rebuilt

  /** The runtime's own limit on an application: what is still needed after all
      of its arguments. */
  predicate Legal(pinArity: Hash -> nat, v: Val) {
    match v
    case Nat(_) => true
    case Pin(_) => true
    case Law(_, name, body) => Legal(pinArity, name) && Legal(pinArity, body)
    case App(head, args) =>
      && args != [] && FitsRuntime(pinArity, v)
      && Legal(pinArity, head)
      && forall x :: x in args ==> Legal(pinArity, x)
  }

  /** A law applied to thirty arguments whose arity exceeds the header field by
      twenty: thirty arguments leave a representable need, fifteen do not. */
  function Wide(): Val {
    App(Law(NEED_LIMIT + 20, Nat([]), Nat([])), seq(30, i => Nat([])))
  }

  lemma {:induction false} WideFits(pinArity: Hash -> nat)
    ensures WellFormed(Wide()) && Legal(pinArity, Wide()) && !Buildable(pinArity, Wide()) && WithinLimits(Wide())
  {
    var v := Wide();
    assert v.args != [];
    assert Need(Arity(pinArity, v.head), Min(30, 15)) >= NEED_LIMIT;
    assert !SpineBuildable(pinArity, v, 30);
    assert Encodable(v.head, 2) && Encodable(v, 0);
    NoPins(v.args, 0);
    assert FirstUses(v.head, []) == [];
  }

  lemma {:induction false} NoPins(xs: seq<Val>, lo: nat)
    requires lo <= |xs| && forall i :: 0 <= i < |xs| ==> xs[i].Nat?
    ensures FirstUsesArgs(xs, lo, |xs|, []) == []
    decreases |xs| - lo
  {
    if lo < |xs| {
      NoPins(xs, lo + 1);
    }
  }

  /** It is legal, it encodes and the canonical scan reads it back, and yet the
      builder refuses its stream. */
  lemma {:induction false} LegalButNotBuildable(h: Scheme, pinArity: Hash -> nat)
    ensures WellFormed(Wide()) && Legal(pinArity, Wide())
    ensures Encode(Encoder(h, FirstUses(Wide(), [])), Wide()).Some?
    ensures var s := Encode(Encoder(h, FirstUses(Wide(), [])), Wide()).value;
            Scan(h, s) == Some((FirstUses(Wide(), []), Wide())) && Build(h, pinArity, s) == None
  {
    hide *;
    WideFits(pinArity);
    RoundTrip(h, pinArity, Wide());
  }

  /** Under the stated arity limit the builder accepts every legal value. */
  predicate ModestArity(pinArity: Hash -> nat, v: Val) {
    match v
    case Nat(_) => true
    case Pin(_) => true
    case Law(_, name, body) => ModestArity(pinArity, name) && ModestArity(pinArity, body)
    case App(head, args) =>
      && args != [] && |args| <= MAX_ARGS && Arity(pinArity, head) < NEED_LIMIT
      && ModestArity(pinArity, head)
      && forall x :: x in args ==> ModestArity(pinArity, x)
  }

  lemma {:induction false} ModestIsBuildable(pinArity: Hash -> nat, v: Val)
    requires ModestArity(pinArity, v)
    ensures Buildable(pinArity, v)
  {
    match v
    case Nat(_) =>
    case Pin(_) =>
    case Law(_, name, body) =>
      ModestIsBuildable(pinArity, name);
      ModestIsBuildable(pinArity, body);
    case App(head, args) =>
      ModestIsBuildable(pinArity, head);
      forall i | 0 <= i < |args|
        ensures Buildable(pinArity, args[i])
      {
        ModestIsBuildable(pinArity, args[i]);
      }
  }
}
