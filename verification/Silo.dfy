/** The Silo node codec: how a normal PLAN value becomes a canonical byte stream,
    and what the scanner and the builder accept. */
module Silo {
  import opened Basics
  import opened Bytes
  import opened Mnat

  const MAX_DEPTH := 4096
  const NAT63_MAX := 0x7fff_ffff_ffff_ffff
  const NEED_LIMIT := 0x10_0000
  const MAX_ARGS := 0xffff_ffff - 2
  const MAGIC: seq<byte> := [83, 73, 76, 79, 1]

  /** A normal PLAN value.  A natural is its little-endian bytes without a zero
      top byte; a pin is known by the hash of its contents. */
  datatype Val =
    | Nat(bytes: seq<byte>)
    | Pin(hash: Hash)
    | Law(arity: nat, name: Val, body: Val)
    | App(head: Val, args: seq<Val>)

  /** Flat and normal: naturals without a zero top byte, spines collected. */
  predicate WellFormed(v: Val) {
    match v
    case Nat(bytes) => Normal(bytes) && |bytes| <= MAX_NAT_BYTES
    case Pin(_) => true
    case Law(arity, name, body) => WellFormed(name) && WellFormed(body)
    case App(head, args) => !head.App? && WellFormed(head) && forall x :: x in args ==> WellFormed(x)
  }

  // -------------------------------------------------------------------- encoder

  function IndexOf(pins: seq<Hash>, hash: Hash): (r: Option<nat>)
    ensures r.Some? ==> r.value < |pins| && pins[r.value] == hash
    ensures r.None? ==> hash !in pins
  {
    if pins == [] then None
    else if pins[0] == hash then Some(0)
    else match IndexOf(pins[1..], hash)
      case None => None
      case Some(i) => Some(i + 1)
  }

  function EncodeNat(h: Scheme, b: seq<byte>): seq<byte> {
    if b == [] then [0x80]
    else if |b| == 1 && b[0] <= 63 then [0x80 + b[0]]
    else if |b| <= 31 then [0xc0 + |b|] + b
    else if |b| <= NAT_CUTOVER then
      LengthWidthSmall(|b|);
      [0xe0 + Width(|b|)] + LittleEndian(|b|, Width(|b|)) + b
    else EncodeMnat(h, b)
  }

  lemma {:induction false} LengthWidthSmall(len: nat)
    requires len <= NAT_CUTOVER
    ensures Width(len) <= 2
  {
    WidthMonotone(len, NAT_CUTOVER);
    assert Width(8192) == 2;
  }

  /** The bytes of a scalar as a natural. */
  function ScalarBytes(v: nat): seq<byte> {
    if v == 0 then [] else LittleEndian(v, Width(v))
  }

  function EncodeArity(v: nat): Option<seq<byte>> {
    if v == 0 || v > NAT63_MAX then None
    else if v <= 63 then Some([0x80 + v])
    else
      ScalarWidthSmall(v);
      Some([0xc0 + Width(v)] + LittleEndian(v, Width(v)))
  }

  lemma {:induction false} ScalarWidthSmall(v: nat)
    requires v <= NAT63_MAX
    ensures Width(v) <= 8
  {
    WidthMonotone(v, 0xffff_ffff_ffff_ffff);
    assert Width(0xffff_ffff) == 4 by { assert Width(0xffff) == 2; }
    assert Width(0xffff_ffff_ffff) == 6;
    assert Width(0xffff_ffff_ffff_ffff) == 8;
  }

  function EncodePin(index: nat): Option<seq<byte>> {
    if Width(index) > 8 then None
    else Some([0xf0 + Width(index)] + LittleEndian(index, Width(index)))
  }

  function Append(a: Option<seq<byte>>, b: Option<seq<byte>>): Option<seq<byte>> {
    if a.None? || b.None? then None else Some(a.value + b.value)
  }

  /** How many arguments the outermost application of an n-argument spine holds. */
  function Outer(n: nat): (r: nat)
    requires n > 0
    ensures 1 <= r <= 15 && r <= n && (n - r) % 15 == 0
  {
    if n <= 15 then n else if n % 15 == 0 then 15 else n % 15
  }

  datatype Encoder = Encoder(h: Scheme, pins: seq<Hash>)

  function EncodeNode(c: Encoder, v: Val, depth: nat): Option<seq<byte>>
    decreases v, 2, 0
  {
    if depth > MAX_DEPTH then None
    else match v
      case Nat(bytes) => Some(EncodeNat(c.h, bytes))
      case Pin(hash) =>
        (match IndexOf(c.pins, hash)
         case None => None
         case Some(i) => EncodePin(i))
      case Law(arity, name, body) =>
        Append(Append(Append(Some([0xf0]), EncodeNode(c, name, depth + 1)), EncodeArity(arity)),
               EncodeNode(c, body, depth + 1))
      case App(head, args) =>
        if args == [] then None else EncodeSpine(c, v, |args|, depth)
  }

  /** The first n arguments of a spine, at most fifteen per wire application. */
  function EncodeSpine(c: Encoder, v: Val, n: nat, depth: nat): Option<seq<byte>>
    requires v.App? && 0 < n <= |v.args|
    decreases v, 1, n
  {
    if depth > MAX_DEPTH then None
    else
      var inner := n - Outer(n);
      Append(Append(Some([8 * Outer(n)]),
                    if inner != 0 then EncodeSpine(c, v, inner, depth + 1) else EncodeNode(c, v.head, depth + 1)),
             EncodeArgs(c, v.args, inner, n, depth + 1))
  }

  /** The arguments xs[lo..hi], one after another. */
  function EncodeArgs(c: Encoder, xs: seq<Val>, lo: nat, hi: nat, depth: nat): Option<seq<byte>>
    requires lo <= hi <= |xs|
    decreases xs, 0, hi - lo
  {
    if lo == hi then Some([])
    else Append(EncodeNode(c, xs[lo], depth), EncodeArgs(c, xs, lo + 1, hi, depth))
  }

  /** A scalar with its width in front; zero has width zero. */
  function EncodeVarnat(v: nat): seq<byte>
    requires Width(v) <= 8
  {
    if v == 0 then [0] else [Width(v)] + LittleEndian(v, Width(v))
  }

  lemma {:induction false} PinWidthSmall(v: nat)
    requires v <= MAX_PIN_COUNT
    ensures Width(v) <= 3
  {
    WidthMonotone(v, MAX_PIN_COUNT);
    assert Width(0xfff) == 2 && Width(0xfffff) == 3;
  }

  /** pl_silo_encode_resolved: magic, pin table, root node. */
  function Encode(c: Encoder, v: Val): Option<seq<byte>> {
    if |c.pins| > MAX_PIN_COUNT || !Distinct(c.pins) then None
    else
      PinWidthSmall(|c.pins|);
      Append(Some(MAGIC + EncodeVarnat(|c.pins|) + Concat(c.pins)), EncodeNode(c, v, 0))
  }

  // -------------------------------------------------------------------- decoder

  /** One decoder serves three passes: `canonical` adds the canonical-profile
      checks, `capture` records first uses of pins, `build` applies the runtime's
      size limits to what is materialised. */
  datatype Decoder = Decoder(h: Scheme, pins: seq<Hash>, pinArity: Hash -> nat,
                             canonical: bool, capture: bool, build: bool)

  /** A decoded node: the value, the argument count of its own wire application,
      the pins used so far in order of first use, and the unread bytes. */
  datatype Reading = Reading(val: Val, wire: nat, used: seq<nat>, rest: seq<byte>)

  function Arity(pinArity: Hash -> nat, v: Val): nat {
    match v
    case Nat(_) => 0
    case Pin(hash) => pinArity(hash)
    case Law(arity, _, _) => arity
    case App(head, args) => Need(Arity(pinArity, head), |args|)
  }

  function Need(arity: nat, n: nat): nat {
    if arity <= n then 0 else arity - n
  }

  function DecodeContiguous(len: nat, s: seq<byte>): (r: Option<(seq<byte>, seq<byte>)>)
    ensures r.Some? ==> |r.value.1| <= |s|
  {
    if len == 0 || len > MAX_NAT_BYTES || |s| < len || s[len - 1] == 0 then None
    else Some((s[..len], s[len..]))
  }

  predicate ZeroFrom(b: seq<byte>, i: nat) {
    forall j :: i <= j < |b| ==> b[j] == 0
  }

  /** The natural introduced by opcode op, read from the bytes after it. */
  function DecodeNat(d: Decoder, op: byte, s: seq<byte>): (r: Option<(seq<byte>, seq<byte>)>)
    ensures r.Some? ==> |r.value.1| <= |s|
  {
    if 0x80 <= op <= 0xbf then Some((if op == 0x80 then [] else [op - 0x80], s))
    else if 0xc1 <= op <= 0xdf then
      match DecodeContiguous(op - 0xc0, s)
      case None => None
      case Some((b, rest)) =>
        if d.canonical && |b| <= 8 && FromLittleEndian(b) <= 63 then None else Some((b, rest))
    else if 0xe1 <= op <= 0xef then
      var lw := op - 0xe0;
      if |s| < lw || !ZeroFrom(s[..lw], 8) then None
      else
        var len := FromLittleEndian(s[..Min(lw, 8)]);
        if d.canonical && (lw != Width(len) || len < 32 || len > NAT_CUTOVER) then None
        else DecodeContiguous(len, s[lw..])
    else if op == 0xf9 then DecodeMnat(d.h, d.canonical, s)
    else None
  }

  predicate NatOpcode(op: byte) {
    0x80 <= op <= 0xbf || 0xc1 <= op <= 0xdf || 0xe1 <= op <= 0xef || op == 0xf9
  }

  predicate AppOpcode(op: byte) {
    0x08 <= op <= 0x78 && op % 8 == 0
  }

  /** Record the first use of pin i; canonical tables list pins in that order. */
  function NotePin(d: Decoder, used: seq<nat>, i: nat): Option<seq<nat>> {
    if !d.capture || i in used then Some(used)
    else if d.canonical && i != |used| then None
    else Some(used + [i])
  }

  /** Attach n more arguments to a decoded head, collecting its spine. */
  function Flatten(head: Val, args: seq<Val>): Val {
    match head
    case App(inner, first) => App(inner, first + args)
    case _ => App(head, args)
  }

  predicate FitsRuntime(pinArity: Hash -> nat, v: Val)
    requires v.App?
  {
    |v.args| <= MAX_ARGS && Need(Arity(pinArity, v.head), |v.args|) < NEED_LIMIT
  }

  function DecodeNode(d: Decoder, depth: nat, used: seq<nat>, s: seq<byte>): (r: Option<Reading>)
    ensures r.Some? ==> |r.value.rest| < |s|
    decreases |s|, 1, 0
  {
    if depth > MAX_DEPTH || s == [] then None
    else
      var op, s := s[0], s[1..];
      if NatOpcode(op) then
        match DecodeNat(d, op, s)
        case None => None
        case Some((b, rest)) => Some(Reading(Nat(b), 0, used, rest))
      else if AppOpcode(op) then DecodeApp(d, depth, used, op / 8, s)
      else if op == 0xf0 then DecodeLaw(d, depth, used, s)
      else if 0xf1 <= op <= 0xf8 then DecodePin(d, used, op - 0xf0, s)
      else None
  }

  function DecodePin(d: Decoder, used: seq<nat>, width: nat, s: seq<byte>): (r: Option<Reading>)
    ensures r.Some? ==> |r.value.rest| <= |s|
  {
    if |s| < width then None
    else
      var i := FromLittleEndian(s[..width]);
      if width != Width(i) || i >= |d.pins| then None
      else match NotePin(d, used, i)
        case None => None
        case Some(used') => Some(Reading(Pin(d.pins[i]), 0, used', s[width..]))
  }

  function DecodeLaw(d: Decoder, depth: nat, used: seq<nat>, s: seq<byte>): (r: Option<Reading>)
    ensures r.Some? ==> |r.value.rest| <= |s|
    decreases |s|, 2, 0
  {
    match DecodeNode(d, depth + 1, used, s)
    case None => None
    case Some(name) =>
      match DecodeNode(d, depth + 1, name.used, name.rest)
      case None => None
      case Some(arity) =>
        if !arity.val.Nat? || |arity.val.bytes| > 8 then None
        else
          var a := FromLittleEndian(arity.val.bytes);
          if a == 0 || a > NAT63_MAX then None
          else match DecodeNode(d, depth + 1, arity.used, arity.rest)
            case None => None
            case Some(body) => Some(Reading(Law(a, name.val, body.val), 0, body.used, body.rest))
  }

  function DecodeApp(d: Decoder, depth: nat, used: seq<nat>, n: nat, s: seq<byte>): (r: Option<Reading>)
    ensures r.Some? ==> |r.value.rest| <= |s|
    decreases |s|, 2, 0
  {
    match DecodeNode(d, depth + 1, used, s)
    case None => None
    case Some(head) =>
      if d.canonical && head.val.App? && head.wire != 15 then None
      else match DecodeArgs(d, depth + 1, head.used, n, head.rest)
        case None => None
        case Some((args, used', rest)) =>
          var v := Flatten(head.val, args);
          if d.build && !FitsRuntime(d.pinArity, v) then None
          else Some(Reading(v, n, used', rest))
  }

  function DecodeArgs(d: Decoder, depth: nat, used: seq<nat>, n: nat, s: seq<byte>)
    : (r: Option<(seq<Val>, seq<nat>, seq<byte>)>)
    ensures r.Some? ==> |r.value.2| <= |s| && |r.value.0| == n
    decreases |s|, 2, n
  {
    if n == 0 then Some(([], used, s))
    else match DecodeNode(d, depth, used, s)
      case None => None
      case Some(first) =>
        match DecodeArgs(d, depth, first.used, n - 1, first.rest)
        case None => None
        case Some((others, used', rest)) => Some(([first.val] + others, used', rest))
  }

  function DecodeVarnat(s: seq<byte>): (r: Option<(nat, seq<byte>)>)
    ensures r.Some? ==> |r.value.1| <= |s|
  {
    if s == [] || s[0] > 8 || |s| < 1 + s[0] then None
    else
      var w := s[0];
      var v := FromLittleEndian(s[1..1 + w]);
      if (v == 0 && w != 0) || (v != 0 && w != Width(v)) then None else Some((v, s[1 + w..]))
  }

  /** decode_header: the pin table, which must not repeat a hash. */
  function DecodeTable(s: seq<byte>): Option<(seq<Hash>, seq<byte>)> {
    if |s| < 5 || s[..5] != MAGIC then None
    else match DecodeVarnat(s[5..])
      case None => None
      case Some((count, s1)) =>
        if count > MAX_PIN_COUNT then None
        else match ReadHashes(count, s1)
          case None => None
          case Some((pins, s2)) => if Distinct(pins) then Some((pins, s2)) else None
  }

  /** pl_silo_scan_stream with the canonical profile: the pin table, and the value
      the stream denotes. */
  function Scan(h: Scheme, s: seq<byte>): Option<(seq<Hash>, Val)> {
    match DecodeTable(s)
    case None => None
    case Some((pins, s1)) =>
      match DecodeNode(Decoder(h, pins, x => 0, true, true, false), 0, [], s1)
      case None => None
      case Some(r) => if r.rest != [] || |r.used| != |pins| then None else Some((pins, r.val))
  }

  /** pl_silo_build_stream: a second pass without the canonical checks. */
  function Build(h: Scheme, pinArity: Hash -> nat, s: seq<byte>): Option<Val> {
    match DecodeTable(s)
    case None => None
    case Some((pins, s1)) =>
      match DecodeNode(Decoder(h, pins, pinArity, false, false, true), 0, [], s1)
      case None => None
      case Some(r) => if r.rest != [] then None else Some(r.val)
  }
}
