/** Which values the Silo encoder accepts, said without running it: the wire
    levels a value takes, its law arities and the pins it needs. */
module SiloLimits {
  import opened Bytes
  import opened Mnat
  import opened Silo

  /** The wire level of the head of an n-argument application at level `depth`:
      one for every row of fifteen. */
  function HeadLevel(n: nat, depth: nat): (r: nat)
    requires n > 0
    ensures r > depth
  {
    depth + 1 + (n - 1) / 15
  }

  /** The wire level of its j-th argument: inner rows hold the earlier ones. */
  function ArgLevel(n: nat, j: nat, depth: nat): (r: nat)
    requires j < n
    ensures depth < r <= HeadLevel(n, depth)
  {
    HeadLevel(n, depth) - j / 15
  }

  /** Within the format's limits when written at wire level `depth`. */
  predicate Encodable(v: Val, depth: nat) {
    && depth <= MAX_DEPTH
    && match v
       case Nat(_) => true
       case Pin(_) => true
       case Law(arity, name, body) =>
         0 < arity <= NAT63_MAX && Encodable(name, depth + 1) && Encodable(body, depth + 1)
       case App(head, args) =>
         && args != [] && Encodable(head, HeadLevel(|args|, depth))
         && forall j :: 0 <= j < |args| ==> Encodable(args[j], ArgLevel(|args|, j, depth))
  }

  /** Every pin the value mentions is in the table. */
  predicate HasPins(pins: seq<Hash>, v: Val) {
    match v
    case Nat(_) => true
    case Pin(hash) => hash in pins
    case Law(_, name, body) => HasPins(pins, name) && HasPins(pins, body)
    case App(head, args) => HasPins(pins, head) && forall j :: 0 <= j < |args| ==> HasPins(pins, args[j])
  }

  // ------------------------------------------------------------ the encoder's domain

  lemma {:induction false} PinEncodes(c: Encoder, hash: Hash, depth: nat)
    requires |c.pins| <= MAX_PIN_COUNT
    ensures EncodeNode(c, Pin(hash), depth).Some? <==> depth <= MAX_DEPTH && hash in c.pins
  {
    hide LittleEndian;
    var i := IndexOf(c.pins, hash);
    if i.Some? {
      PinWidthSmall(i.value);
    }
  }

  /** Main result for one node: the encoder succeeds exactly on what fits. */
  lemma {:induction false} NodeEncodes(c: Encoder, v: Val, depth: nat)
    requires |c.pins| <= MAX_PIN_COUNT
    ensures EncodeNode(c, v, depth).Some? <==> Encodable(v, depth) && HasPins(c.pins, v)
    decreases v, 2, 0
  {
    hide EncodeSpine, EncodeNat, LittleEndian, EncodePin;
    match v
    case Nat(_) =>
    case Pin(hash) => PinEncodes(c, hash, depth);
    case Law(arity, name, body) =>
      NodeEncodes(c, name, depth + 1);
      NodeEncodes(c, body, depth + 1);
    case App(head, args) =>
      if args != [] {
        SpineEncodes(c, v, |args|, depth);
      }
  }

  ghost predicate SpineFits(c: Encoder, v: Val, n: nat, depth: nat)
    requires v.App? && 0 < n <= |v.args|
  {
    && Encodable(v.head, HeadLevel(n, depth)) && HasPins(c.pins, v.head)
    && forall j :: 0 <= j < n ==> ArgFits(c, v.args[j], ArgLevel(n, j, depth))
  }

  ghost predicate ArgFits(c: Encoder, x: Val, depth: nat) {
    Encodable(x, depth) && HasPins(c.pins, x)
  }

  lemma EncodableLevel(v: Val, depth: nat)
    requires Encodable(v, depth)
    ensures depth <= MAX_DEPTH
  {
  }

  /** A row of the spine sits one level above the rows inside it. */
  lemma {:induction false} RowLevels(n: nat, depth: nat)
    requires n > 0
    ensures var inner := n - Outer(n);
            && (inner == 0 ==> HeadLevel(n, depth) == depth + 1)
            && (inner > 0 ==> HeadLevel(inner, depth + 1) == HeadLevel(n, depth))
            && (forall j :: 0 <= j < inner ==> ArgLevel(inner, j, depth + 1) == ArgLevel(n, j, depth))
            && (forall j :: inner <= j < n ==> ArgLevel(n, j, depth) == depth + 1)
  {
  }

  lemma {:induction false} SpineEncodes(c: Encoder, v: Val, n: nat, depth: nat)
    requires |c.pins| <= MAX_PIN_COUNT && v.App? && 0 < n <= |v.args|
    ensures EncodeSpine(c, v, n, depth).Some? <==> SpineFits(c, v, n, depth)
    decreases v, 1, n
  {
    hide EncodeNode, EncodeArgs, Encodable, HasPins, Outer, HeadLevel, ArgLevel;
    var inner := n - Outer(n);
    RowLevels(n, depth);
    ArgsEncode(c, v.args, inner, n, depth + 1);
    if inner > 0 {
      SpineEncodes(c, v, inner, depth + 1);
    } else {
      NodeEncodes(c, v.head, depth + 1);
    }
    if SpineFits(c, v, n, depth) {
      EncodableLevel(v.head, HeadLevel(n, depth));
    }
    SpineParts(c, v, n, depth);
  }

  /** The spine fits when its outermost row and what is inside it do. */
  lemma {:induction false} SpineParts(c: Encoder, v: Val, n: nat, depth: nat)
    requires v.App? && 0 < n <= |v.args|
    ensures var inner := n - Outer(n);
            SpineFits(c, v, n, depth) <==>
              && (if inner > 0 then SpineFits(c, v, inner, depth + 1) else ArgFits(c, v.head, depth + 1))
              && (forall j :: inner <= j < n ==> ArgFits(c, v.args[j], depth + 1))
  {
    hide Encodable, HasPins, Outer, HeadLevel, ArgLevel;
    RowLevels(n, depth);
    var inner := n - Outer(n);
    if SpineFits(c, v, n, depth) {
      forall j | inner <= j < n ensures ArgFits(c, v.args[j], depth + 1) {
        assert ArgFits(c, v.args[j], ArgLevel(n, j, depth));
      }
      forall j | 0 <= j < inner ensures ArgFits(c, v.args[j], ArgLevel(inner, j, depth + 1)) {
        assert ArgFits(c, v.args[j], ArgLevel(n, j, depth));
      }
    }
    if (if inner > 0 then SpineFits(c, v, inner, depth + 1) else ArgFits(c, v.head, depth + 1)) &&
       forall j :: inner <= j < n ==> ArgFits(c, v.args[j], depth + 1) {
      forall j | 0 <= j < n ensures ArgFits(c, v.args[j], ArgLevel(n, j, depth)) {
        if j < inner {
          assert ArgFits(c, v.args[j], ArgLevel(inner, j, depth + 1));
        }
      }
    }
  }

  lemma {:induction false} ArgsEncode(c: Encoder, xs: seq<Val>, lo: nat, hi: nat, depth: nat)
    requires |c.pins| <= MAX_PIN_COUNT && lo <= hi <= |xs|
    ensures EncodeArgs(c, xs, lo, hi, depth).Some? <==> forall j :: lo <= j < hi ==> ArgFits(c, xs[j], depth)
    decreases xs, 0, hi - lo
  {
    hide EncodeNode, Encodable, HasPins;
    if lo < hi {
      NodeEncodes(c, xs[lo], depth);
      ArgsEncode(c, xs, lo + 1, hi, depth);
    }
  }
}
