/**
  The collector's loops, in place on the two semispaces and the root slots
  (pkg/plan/src/heap.c:349-503), and what a collection means for a program:
  every path of field reads from every root finds the same thing as before.
 */
module CheneyLoops {
  import opened Cheney

  lemma {:induction false} ResolveGround(h: seq<Entry>, v: Val)
    requires WellFormed(h) && ValOk(h, v)
    ensures var w := Resolve(h, v); ValOk(h, w) && !IsInd(h, w) && (w.Ptr? ==> w.addr < |h| && IsObject(h[w.addr]))
  {
    assert forall a :: 0 <= a < |h| && h[a].Ind? ==> ValOk(h, h[a].to) by {
      forall a | 0 <= a < |h| && h[a].Ind? ensures ValOk(h, h[a].to) {
        assert EntryOk(h, a);
      }
    }
    if v.Ptr? {
      assert !IsInd(h, Resolve(h, Ptr(v.addr)));
    }
  }

  /** pl_forward: short-circuit indirections, then evacuate at most once. */
  method Forward(v0: Val, from: array<Entry>, to: array<Entry>, free0: nat, ghost h: seq<Entry>, ghost roots: seq<Val>,
                 ghost order0: seq<nat>, ghost moved0: map<nat, nat>, ghost scanned: nat, ghost part: nat)
    returns (v: Val, free: nat, ghost order: seq<nat>, ghost moved: map<nat, nat>)
    requires from != to && Inv(h, roots, from[..], to[..], free0, order0, moved0, scanned, part) && ValOk(h, v0)
    requires Resolve(h, v0).Ptr? ==> Reachable(h, roots, Resolve(h, v0).addr)
    requires scanned == |order0| ==> part == 0
    modifies from, to
    ensures Inv(h, roots, from[..], to[..], free, order, moved, scanned, part)
    ensures Extends(moved0, moved) && order0 <= order
    ensures Arrived(h, moved, v0) && v == Fix(h, moved, v0)
  {
    hide Inv, Reachable, Arrived, WellFormed, Chase, Resolve, EntryOk, Fix;
    v, free, order, moved := v0, free0, order0, moved0;
    ghost var fuel: nat := |h|;
    InvParts(h, roots, from[..], to[..], free, order, moved, scanned, part);
    ChaseStart(h, v0);
    while true
      invariant ValOk(h, v) && Chase(h, v, fuel) == Resolve(h, v0)
      invariant from[..] == old(from[..]) && to[..] == old(to[..])
      decreases fuel
    {
      ChaseStep(h, v0, v, fuel);
      if !v.Ptr? {
        Landed(h, moved, v0, v);
        return;
      }
      var a := v.addr;
      assert from[..][a] == from[a];
      if from[a].Fwd? {
        Landed(h, moved, v0, Ptr(a));
        v := from[a].to;
        return;
      } else if from[a].Ind? {
        v := from[a].to;
        fuel := fuel - 1;
      } else {
        var e := from[a];
        assert e == h[a];
        Room(h, roots, from[..], to[..], free, order, moved, scanned, part, a);
        Evacuate(h, roots, from[..], to[..], free, order, moved, scanned, part, a);
        ghost var from0 := from[..];
        CopyCells(to, free, e);
        from[a] := Fwd(CellsOf(e), Ptr(free));
        assert from[..] == from0[a := Fwd(CellsOf(h[a]), Ptr(free))];
        v := Ptr(free);
        order, moved := order + [a], moved[a := free];
        free := free + CellsOf(e);
        Landed(h, moved, v0, Ptr(a));
        return;
      }
    }
  }

  /** The memcpy: the entry, and nothing else in the cells it covers. */
  method CopyCells(to: array<Entry>, at: nat, e: Entry)
    requires CellsOf(e) > 0 && at + CellsOf(e) <= to.Length
    modifies to
    ensures to[..] == Placed(old(to[..]), at, e)
  {
    ghost var to0 := to[..];
    to[at] := e;
    for k := 1 to CellsOf(e)
      invariant to[at] == e && forall c :: at < c < at + k ==> to[c] == Vacant
      invariant forall c :: 0 <= c < to.Length && !(at <= c < at + k) ==> to[c] == to0[c]
    {
      to[at + k] := Vacant;
    }
    assert to[..] == Placed(to0, at, e);
  }

  lemma ChaseStart(h: seq<Entry>, v: Val)
    ensures Chase(h, v, |h|) == Resolve(h, v)
  {
  }

  lemma {:induction false} ChaseStep(h: seq<Entry>, v0: Val, v: Val, fuel: nat)
    requires WellFormed(h) && ValOk(h, v0) && ValOk(h, v) && Chase(h, v, fuel) == Resolve(h, v0)
    ensures if IsInd(h, v) then fuel > 0 && Chase(h, h[v.addr].to, fuel - 1) == Resolve(h, v0) && ValOk(h, h[v.addr].to)
            else v == Resolve(h, v0)
    ensures v.Ptr? ==> v.addr < |h| && !h[v.addr].Fwd? && !h[v.addr].Vacant?
  {
    ResolveGround(h, v0);
    if v.Ptr? {
      assert EntryOk(h, v.addr);
    }
  }

  lemma Landed(h: seq<Entry>, moved: map<nat, nat>, v0: Val, w: Val)
    requires Resolve(h, v0) == w && (w.Ptr? ==> w.addr in moved)
    ensures Arrived(h, moved, v0) && Fix(h, moved, v0) == if w.Ptr? then Ptr(moved[w.addr]) else w
  {
  }

  lemma InvParts(h: seq<Entry>, roots: seq<Val>, from: seq<Entry>, to: seq<Entry>, free: nat,
                 order: seq<nat>, moved: map<nat, nat>, scanned: nat, part: nat)
    requires Inv(h, roots, from, to, free, order, moved, scanned, part)
    ensures WellFormed(h) && |from| == |h| <= |to| && Objects(h, order) && scanned <= |order|
            && free == Off(h, order, |order|) <= |h|
    ensures forall a :: 0 <= a < |h| ==> from[a] == if a in moved then Fwd(CellsOf(h[a]), Ptr(moved[a])) else h[a]
    ensures forall a :: a in moved ==> a < |h| && IsObject(h[a])
  {
    hide WellFormed;
    CopiesFit(h, order);
    forall a | a in moved ensures a < |h| && IsObject(h[a]) {
      assert a in order;
    }
  }

  // -------------------------------------------------------------------- scanning

  /** The object in hand is as the scan has left it so far. */
  lemma {:induction false} InHand(h: seq<Entry>, roots: seq<Val>, from: seq<Entry>, to: seq<Entry>, free: nat,
                                  order: seq<nat>, moved: map<nat, nat>, scanned: nat, part: nat)
    requires Inv(h, roots, from, to, free, order, moved, scanned, part) && scanned < |order|
    ensures Objects(h, order) && |h| <= |to|
    ensures var at, e := Off(h, order, scanned), h[order[scanned]];
            && at + CellsOf(e) <= free <= |h| && CellsOf(e) >= 2 && at < |to|
            && part <= |Edges(e)| && to[at] == Part(h, moved, e, part) && Off(h, order, scanned + 1) == at + CellsOf(e)
            && EntryOk(h, order[scanned]) && Reachable(h, roots, order[scanned])
  {
    hide Reachable;
    OffGrows(h, order, scanned, |order|);
    CopiesFit(h, order);
    assert PlaceOk(h, to, order, moved, scanned, part, scanned);
    assert EntryOk(h, order[scanned]);
  }

  lemma {:induction false} EdgeIn(h: seq<Entry>, roots: seq<Val>, a: nat, i: nat)
    requires WellFormed(h) && a < |h| && Reachable(h, roots, a) && i < |Edges(h[a])|
    ensures ValOk(h, Edges(h[a])[i])
    ensures var w := Resolve(h, Edges(h[a])[i]); w.Ptr? ==> Reachable(h, roots, w.addr)
  {
    hide Reachable, Resolve;
    assert EntryOk(h, a);
    var w := Resolve(h, Edges(h[a])[i]);
    if w.Ptr? {
      assert Edge(h, a, w.addr);
      EdgeReachable(h, roots, a, w.addr);
    }
  }

  /** Redirecting one more edge of the object in hand. */
  lemma {:induction false} PartMore(h: seq<Entry>, roots: seq<Val>, from: seq<Entry>, to: seq<Entry>, free: nat,
                                    order: seq<nat>, moved: map<nat, nat>, scanned: nat, part: nat)
    requires Inv(h, roots, from, to, free, order, moved, scanned, part) && scanned < |order| && Objects(h, order)
    requires var e := h[order[scanned]]; part < |Edges(e)| && Arrived(h, moved, Edges(e)[part])
    requires Off(h, order, scanned) < |to|
    ensures Inv(h, roots, from, to[Off(h, order, scanned) := Part(h, moved, h[order[scanned]], part + 1)], free,
            order, moved, scanned, part + 1)
  {
    hide WellFormed, Copied, FromOk, Part, Edges, Image, Arrived;
    var e, at := h[order[scanned]], Off(h, order, scanned);
    var to1, more := to[at := Part(h, moved, e, part + 1)], part + 1;
    forall k | 0 <= k < |order| ensures PlaceOk(h, to1, order, moved, scanned, more, k) {
      assert PlaceOk(h, to, order, moved, scanned, part, k);
      if k < scanned {
        OffGrows(h, order, k, scanned);
      } else if scanned < k {
        OffGrows(h, order, scanned, k);
      }
    }
  }

  /** The object in hand is finished. */
  lemma {:induction false} PartDone(h: seq<Entry>, roots: seq<Val>, from: seq<Entry>, to: seq<Entry>, free: nat,
                                    order: seq<nat>, moved: map<nat, nat>, scanned: nat, part: nat)
    requires Inv(h, roots, from, to, free, order, moved, scanned, part) && scanned < |order| && Objects(h, order)
    requires part == |Edges(h[order[scanned]])| && Off(h, order, scanned) < |to|
    ensures Inv(h, roots, from, to[Off(h, order, scanned) := Image(h, moved, h[order[scanned]])], free, order, moved,
            scanned + 1, 0)
  {
    hide WellFormed, Copied, FromOk, Part, Edges, Image;
    var e, at := h[order[scanned]], Off(h, order, scanned);
    var to1, more := to[at := Image(h, moved, e)], scanned + 1;
    assert PlaceOk(h, to, order, moved, scanned, part, scanned);
    forall k | 0 <= k < |order| ensures PlaceOk(h, to1, order, moved, more, 0, k) {
      assert PlaceOk(h, to, order, moved, scanned, part, k);
      if k < scanned {
        OffGrows(h, order, k, scanned);
      } else if scanned < k {
        OffGrows(h, order, scanned, k);
        PartNone(h, moved, h[order[k]]);
      }
    }
  }

  lemma PartFields(h: seq<Entry>, moved: map<nat, nat>, e: Entry, n: nat)
    requires n < |Edges(e)|
    ensures e.Obj? ==>
            Part(h, moved, e, n).Obj? && |Part(h, moved, e, n).fields| == |e.fields|
            && Part(h, moved, e, n).fields[n] == e.fields[n] &&
                       Part(h, moved, e, n + 1)
                           == Part(h, moved, e,
                           n).(fields := Part(h, moved, e, n).fields[n := Fix(h, moved, e.fields[n])])
    ensures e.Proxy? ==>
            n == 0 && Part(h, moved, e, 0) == e && Part(h, moved, e, 1) == e.(body := Fix(h, moved, e.body))
  {
  }

  /** One object of the scan: redirect its traced words, in order. */
  method ScanObject(from: array<Entry>, to: array<Entry>, scan: nat, free0: nat, ghost h: seq<Entry>,
                    ghost roots: seq<Val>,
                    ghost order0: seq<nat>, ghost moved0: map<nat, nat>, ghost scanned: nat)
    returns (free: nat, ghost order: seq<nat>, ghost moved: map<nat, nat>)
    requires from != to && Inv(h, roots, from[..], to[..], free0, order0, moved0, scanned, 0)
    requires Objects(h, order0) && scanned < |order0| && scan == Off(h, order0, scanned)
    modifies from, to
    ensures Inv(h, roots, from[..], to[..], free, order, moved, scanned + 1, 0)
    ensures Extends(moved0, moved) && order0 <= order && Objects(h, order) && scan == Off(h, order, scanned)
  {
    hide Inv, Reachable, Part, Image, Arrived, WellFormed, EntryOk, Traced, Off, Edges;
    free, order, moved := free0, order0, moved0;
    InHand(h, roots, from[..], to[..], free, order, moved, scanned, 0);
    ghost var a := order[scanned];
    ghost var e0 := h[a];
    PartNone(h, moved, e0);
    assert to[..][scan] == to[scan];
    ghost var part: nat := 0;
    EdgeCount(h, a);
    if to[scan].Proxy? {
      if to[scan].target == NONE {
        free, order, moved, part := ScanField(from, to, scan, 0, free, h, roots, order, moved, scanned);
      }
    } else {
      var count := Traced(to[scan].kind, to[scan].cells);
      var i: nat := 0;
      while i < count
        invariant i == part <= count == |Edges(e0)|
        invariant Inv(h, roots, from[..], to[..], free, order, moved, scanned, part) && Extends(moved0, moved)
        invariant Objects(h, order) && order0 <= order && scan == Off(h, order, scanned)
      {
        free, order, moved, part := ScanField(from, to, scan, i, free, h, roots, order, moved, scanned);
        i := i + 1;
      }
    }
    InHand(h, roots, from[..], to[..], free, order, moved, scanned, part);
    PartDone(h, roots, from[..], to[..], free, order, moved, scanned, part);
    ImageShape(h, moved, e0, part);
    assert to[..][scan] == to[scan];
    ghost var to0 := to[..];
    if to[scan].Proxy? && to[scan].target != NONE {
      to[scan] := to[scan].(body := NONE);
    }
    assert to[..] == to0[scan := Image(h, moved, e0)];
  }

  /** pl_cheney_scan: finish the copies in order, while evacuation adds more. */
  method Scan(from: array<Entry>, to: array<Entry>, free0: nat, ghost h: seq<Entry>, ghost roots: seq<Val>,
              ghost order0: seq<nat>, ghost moved0: map<nat, nat>)
    returns (free: nat, ghost order: seq<nat>, ghost moved: map<nat, nat>)
    requires from != to && Inv(h, roots, from[..], to[..], free0, order0, moved0, 0, 0)
    modifies from, to
    ensures Inv(h, roots, from[..], to[..], free, order, moved, |order|, 0) && Extends(moved0, moved)
  {
    hide Inv, Reachable, Part, Image, Arrived, WellFormed, EntryOk, Traced, Edges, CellsOf, IsObject;
    free, order, moved := free0, order0, moved0;
    var scan: nat := 0;
    ghost var scanned: nat := 0;
    InvParts(h, roots, from[..], to[..], free, order, moved, scanned, 0);
    while scan < free
      invariant Inv(h, roots, from[..], to[..], free, order, moved, scanned, 0) && Extends(moved0, moved)
      invariant Objects(h, order) && scanned <= |order| && scan == Off(h, order, scanned)
                && free == Off(h, order, |order|)
      invariant scan <= free <= |h|
      decreases |h| - scan
    {
      InHand(h, roots, from[..], to[..], free, order, moved, scanned, 0);
      PartNone(h, moved, h[order[scanned]]);
      assert to[..][scan] == to[scan];
      var cells := CellsOf(to[scan]);
      ghost var order1 := order;
      free, order, moved := ScanObject(from, to, scan, free, h, roots, order, moved, scanned);
      assert order[scanned] == order1[scanned];
      scanned := scanned + 1;
      scan := scan + cells;
      InvParts(h, roots, from[..], to[..], free, order, moved, scanned, 0);
      ScanBehind(h, order, scanned);
    }
    if scanned < |order| {
      InHand(h, roots, from[..], to[..], free, order, moved, scanned, 0);
      assert false;
    }
  }

  lemma {:induction false} ScanBehind(h: seq<Entry>, order: seq<nat>, k: nat)
    requires WellFormed(h) && Objects(h, order) && k <= |order|
    ensures Off(h, order, k) <= Off(h, order, |order|)
  {
    if k < |order| {
      OffGrows(h, order, k, |order|);
    }
  }

  lemma EdgeCount(h: seq<Entry>, a: nat)
    requires a < |h| && EntryOk(h, a) && IsObject(h[a])
    ensures h[a].Obj? ==> Traced(h[a].kind, h[a].cells) == |Edges(h[a])|
    ensures h[a].Proxy? ==> |Edges(h[a])| == if h[a].target == NONE then 1 else 0
  {
  }

  lemma ImageShape(h: seq<Entry>, moved: map<nat, nat>, e: Entry, n: nat)
    requires n == |Edges(e)|
    ensures IsObject(e) ==>
            (Part(h, moved, e, n).Proxy? <==> e.Proxy?) && (e.Proxy? ==> Part(h, moved, e, n).target == e.target)
    ensures e.Proxy? && e.target != NONE ==> Image(h, moved, e) == Part(h, moved, e, n).(body := NONE)
    ensures !(e.Proxy? && e.target != NONE) ==> Image(h, moved, e) == Part(h, moved, e, n)
  {
  }

  /** One traced word of the object in hand. */
  method ScanField(from: array<Entry>, to: array<Entry>, scan: nat, i: nat, free0: nat, ghost h: seq<Entry>,
                   ghost roots: seq<Val>,
                   ghost order0: seq<nat>, ghost moved0: map<nat, nat>, ghost scanned: nat)
    returns (free: nat, ghost order: seq<nat>, ghost moved: map<nat, nat>, ghost part: nat)
    requires from != to && Inv(h, roots, from[..], to[..], free0, order0, moved0, scanned, i)
    requires Objects(h, order0) && scanned < |order0| && scan == Off(h, order0, scanned)
             && i < |Edges(h[order0[scanned]])|
    modifies from, to
    ensures Inv(h, roots, from[..], to[..], free, order, moved, scanned, part) && part == i + 1
    ensures Extends(moved0, moved) && order0 <= order && Objects(h, order) && scan == Off(h, order, scanned)
  {
    hide Inv, Reachable, Part, Image, Arrived, WellFormed, EntryOk;
    ghost var e0 := h[order0[scanned]];
    InvParts(h, roots, from[..], to[..], free0, order0, moved0, scanned, i);
    InHand(h, roots, from[..], to[..], free0, order0, moved0, scanned, i);
    EdgeIn(h, roots, order0[scanned], i);
    PartFields(h, moved0, e0, i);
    assert to[..][scan] == to[scan];
    var v := if to[scan].Obj? then to[scan].fields[i] else to[scan].body;
    assert v == Edges(e0)[i];
    v, free, order, moved := Forward(v, from, to, free0, h, roots, order0, moved0, scanned, i);
    InvParts(h, roots, from[..], to[..], free, order, moved, scanned, i);
    assert order[scanned] == order0[scanned];
    OffSame(h, order0, order, scanned);
    InHand(h, roots, from[..], to[..], free, order, moved, scanned, i);
    PartMore(h, roots, from[..], to[..], free, order, moved, scanned, i);
    PartFields(h, moved, e0, i);
    assert to[..][scan] == to[scan];
    ghost var to0 := to[..];
    if to[scan].Obj? {
      to[scan] := to[scan].(fields := to[scan].fields[i := v]);
    } else {
      to[scan] := to[scan].(body := v);
    }
    assert to[..] == to0[scan := Part(h, moved, e0, i + 1)];
    part := i + 1;
  }

  lemma {:induction false} OffSame(h: seq<Entry>, order: seq<nat>, more: seq<nat>, k: nat)
    requires order <= more && Objects(h, more) && k <= |order|
    ensures Objects(h, order) && Off(h, order, k) == Off(h, more, k)
    decreases k
  {
    assert forall j :: 0 <= j < |order| ==> order[j] == more[j];
    if k > 0 {
      OffSame(h, order, more, k - 1);
    }
  }

  // -------------------------------------------------------------------- a whole collection

  /** What a collection has done: `to` is exactly the reachable objects, each once,
      laid end to end with every edge redirected. */
  ghost predicate Collected(h: seq<Entry>, roots: seq<Val>, to: seq<Entry>, roots1: seq<Val>, free: nat,
                            order: seq<nat>, moved: map<nat, nat>) {
    && WellFormed(h) && Copied(h, roots, order, moved) && ToOk(h, to, order, moved, |order|, 0)
    && free == Off(h, order, |order|) == |to| <= |h|
    && (forall a :: a in moved <==> Reachable(h, roots, a))
    && |roots1| == |roots|
    && (forall k :: 0 <= k < |roots| ==> Arrived(h, moved, roots[k]) && roots1[k] == Fix(h, moved, roots[k]))
  }

  lemma {:induction false} AllReached(h: seq<Entry>, roots: seq<Val>, from: seq<Entry>, to: seq<Entry>, free: nat,
                                      order: seq<nat>, moved: map<nat, nat>, a: nat)
    requires Inv(h, roots, from, to, free, order, moved, |order|, 0)
    requires forall k :: 0 <= k < |roots| ==> Arrived(h, moved, roots[k])
    requires Reachable(h, roots, a)
    ensures a in moved
  {
    hide Reachable, WellFormed, FromOk, Path, Image, Part, Off;
    var s := moved.Keys;
    forall x | RootOf(h, roots, x) ensures x in s {
      var k :| 0 <= k < |roots| && Resolve(h, roots[k]) == Ptr(x);
      assert Arrived(h, moved, roots[k]);
    }
    forall x, y | x in s && Edge(h, x, y) ensures y in s {
      EdgeStays(h, roots, from, to, free, order, moved, x, y);
    }
    PathStays(h, roots, s, a);
  }

  lemma {:induction false} PathStays(h: seq<Entry>, roots: seq<Val>, s: set<nat>, a: nat)
    requires Reachable(h, roots, a) && (forall x :: RootOf(h, roots, x) ==> x in s)
             && (forall x, y :: x in s && Edge(h, x, y) ==> y in s)
    ensures a in s
  {
    hide RootOf, Edge;
    var path :| Path(h, roots, path) && path[|path| - 1] == a;
    ClosedHasAll(h, roots, path, s);
  }

  lemma {:induction false} EdgeStays(h: seq<Entry>, roots: seq<Val>, from: seq<Entry>, to: seq<Entry>, free: nat,
                                     order: seq<nat>, moved: map<nat, nat>, x: nat, y: nat)
    requires Inv(h, roots, from, to, free, order, moved, |order|, 0) && x in moved && Edge(h, x, y)
    ensures y in moved
  {
    hide Reachable, WellFormed, FromOk, Image, Part, Off, Resolve;
    assert x in order;
    var k :| 0 <= k < |order| && order[k] == x;
    assert PlaceOk(h, to, order, moved, |order|, 0, k);
    var i :| 0 <= i < |Edges(h[x])| && Resolve(h, Edges(h[x])[i]) == Ptr(y);
    assert Arrived(h, moved, Edges(h[x])[i]);
  }

  lemma {:induction false} ArrivedStays(h: seq<Entry>, moved: map<nat, nat>, more: map<nat, nat>, v: Val)
    requires Extends(moved, more) && Arrived(h, moved, v)
    ensures Arrived(h, more, v) && Fix(h, more, v) == Fix(h, moved, v)
  {
  }

  /** pl_collect_into: the root slots first, then the scan. */
  method Collect(from: array<Entry>, to: array<Entry>, roots: array<Val>)
    returns (free: nat, ghost order: seq<nat>, ghost moved: map<nat, nat>)
    requires from != to && WellFormed(from[..]) && to.Length >= from.Length
    requires forall k :: 0 <= k < roots.Length ==> ValOk(from[..], roots[k])
    modifies from, to, roots
    ensures free <= to.Length && Collected(old(from[..]), old(roots[..]), to[..free], roots[..], free, order, moved)
    ensures WellFormed(to[..free]) && forall k :: 0 <= k < roots.Length ==> ValOk(to[..free], roots[k])
  {
    hide Inv, Reachable, WellFormed, Arrived, Fix, Resolve, Collected;
    ghost var h, roots0 := from[..], roots[..];
    free, order, moved := 0, [], map[];
    InvStart(h, roots0, to[..]);
    var k: nat := 0;
    while k < roots.Length
      invariant k <= roots.Length && Inv(h, roots0, from[..], to[..], free, order, moved, 0, 0)
      invariant forall j :: 0 <= j < k ==> Arrived(h, moved, roots0[j]) && roots[j] == Fix(h, moved, roots0[j])
      invariant forall j :: k <= j < roots.Length ==> roots[j] == roots0[j]
    {
      ghost var before := moved;
      assert Resolve(h, roots0[k]).Ptr? ==> Reachable(h, roots0, Resolve(h, roots0[k]).addr) by {
        RootIn(h, roots0, k);
      }
      var v;
      v, free, order, moved := Forward(roots[k], from, to, free, h, roots0, order, moved, 0, 0);
      roots[k] := v;
      forall j | 0 <= j < k ensures Arrived(h, moved, roots0[j]) && roots[j] == Fix(h, moved, roots0[j]) {
        ArrivedStays(h, before, moved, roots0[j]);
      }
      k := k + 1;
    }
    ghost var before := moved;
    free, order, moved := Scan(from, to, free, h, roots0, order, moved);
    forall j | 0 <= j < roots.Length ensures Arrived(h, moved, roots0[j]) && roots[j] == Fix(h, moved, roots0[j]) {
      ArrivedStays(h, before, moved, roots0[j]);
    }
    Finished(h, roots0, from[..], to[..], roots[..], free, order, moved);
    NextOk(h, roots0, to[..free], roots[..], free, order, moved);
  }

  lemma RootIn(h: seq<Entry>, roots: seq<Val>, k: nat)
    requires k < |roots|
    ensures Resolve(h, roots[k]).Ptr? ==> Reachable(h, roots, Resolve(h, roots[k]).addr)
  {
    hide Reachable, Resolve;
    if Resolve(h, roots[k]).Ptr? {
      RootReachable(h, roots, Resolve(h, roots[k]).addr);
    }
  }

  lemma InvStart(h: seq<Entry>, roots: seq<Val>, to: seq<Entry>)
    requires WellFormed(h) && |to| >= |h|
    ensures Inv(h, roots, h, to, 0, [], map[], 0, 0)
  {
  }

  lemma {:induction false} Finished(h: seq<Entry>, roots: seq<Val>, from: seq<Entry>, to: seq<Entry>,
                                    roots1: seq<Val>, free: nat, order: seq<nat>, moved: map<nat, nat>)
    requires Inv(h, roots, from, to, free, order, moved, |order|, 0) && |roots1| == |roots|
    requires forall k :: 0 <= k < |roots| ==> Arrived(h, moved, roots[k]) && roots1[k] == Fix(h, moved, roots[k])
    ensures free <= |to| && Collected(h, roots, to[..free], roots1, free, order, moved)
  {
    hide Reachable, WellFormed, FromOk, ToOk, Off, Arrived, Fix;
    CopiesFit(h, order);
    Trimmed(h, to, order, moved, free);
    forall a ensures a in moved <==> Reachable(h, roots, a) {
      if a in moved {
        assert a in order;
        var k :| 0 <= k < |order| && order[k] == a;
        assert Reachable(h, roots, order[k]);
      }
      if Reachable(h, roots, a) {
        AllReached(h, roots, from, to, free, order, moved, a);
      }
    }
  }

  lemma {:induction false} Trimmed(h: seq<Entry>, to: seq<Entry>, order: seq<nat>, moved: map<nat, nat>, free: nat)
    requires WellFormed(h) && Objects(h, order) && ToOk(h, to, order, moved, |order|, 0)
             && free == Off(h, order, |order|) <= |to|
    ensures ToOk(h, to[..free], order, moved, |order|, 0)
  {
    hide WellFormed, CopyOk;
    var n := |order|;
    forall k | 0 <= k < |order| ensures PlaceOk(h, to[..free], order, moved, n, 0, k) {
      assert PlaceOk(h, to, order, moved, n, 0, k);
      OffGrows(h, order, k, n);
    }
  }

  // --------------------------------------------------------- the next collection's heap

  lemma {:induction false} FixOk(h: seq<Entry>, roots: seq<Val>, to: seq<Entry>, roots1: seq<Val>, free: nat,
                                 order: seq<nat>, moved: map<nat, nat>, v: Val)
    requires Collected(h, roots, to, roots1, free, order, moved) && Arrived(h, moved, v)
    ensures ValOk(to, Fix(h, moved, v))
  {
    hide Collected, Resolve, Image;
    var w := Resolve(h, v);
    if w.Ptr? {
      CopyAt(h, roots, to, roots1, free, order, moved, w.addr);
      ImageEdges(h, moved, h[w.addr]);
    }
  }

  lemma {:induction false} ImageOk(h: seq<Entry>, roots: seq<Val>, to: seq<Entry>, roots1: seq<Val>, free: nat,
                                   order: seq<nat>, moved: map<nat, nat>, a: nat)
    requires Collected(h, roots, to, roots1, free, order, moved) && a in moved
    ensures a < |h| && moved[a] < |to| && EntryOk(to, moved[a]) && CellsOf(to[moved[a]]) == CellsOf(h[a])
  {
    hide Collected, Fix, Resolve, Image, ValOk;
    CopyAt(h, roots, to, roots1, free, order, moved, a);
    var e, f := h[a], to[moved[a]];
    assert EntryOk(h, a) by { SourceOk(h, roots, to, roots1, free, order, moved, a); }
    ImageEdges(h, moved, e);
    forall i | 0 <= i < |Edges(e)| ensures ValOk(to, Edges(f)[i]) {
      assert Arrived(h, moved, Edges(e)[i]);
      FixOk(h, roots, to, roots1, free, order, moved, Edges(e)[i]);
    }
    ImageFields(h, moved, e);
    PlainOk(to);
    if e.Proxy? && e.target == NONE {
      assert ValOk(to, Edges(f)[0]);
    }
  }

  lemma PlainOk(to: seq<Entry>)
    ensures ValOk(to, NONE)
  {
  }

  lemma SourceOk(h: seq<Entry>, roots: seq<Val>, to: seq<Entry>, roots1: seq<Val>, free: nat, order: seq<nat>,
                 moved: map<nat, nat>, a: nat)
    requires Collected(h, roots, to, roots1, free, order, moved) && a < |h|
    ensures EntryOk(h, a)
  {
    hide Reachable, ToOk, Off, EntryOk, Resolve;
  }

  lemma ImageFields(h: seq<Entry>, moved: map<nat, nat>, e: Entry)
    ensures e.Obj? ==>
            Image(h, moved, e).Obj? && Image(h, moved, e).kind == e.kind && Image(h, moved, e).cells == e.cells
    ensures e.Proxy? ==>
            Image(h, moved, e).Proxy? && Image(h, moved, e).cells == e.cells && Image(h, moved, e).target == e.target
    ensures e.Proxy? && e.target != NONE ==> Image(h, moved, e).body == NONE
  {
    hide Fix;
  }

  /** Every cell below `free` belongs to one copy. */
  lemma {:induction false} CellOf(h: seq<Entry>, order: seq<nat>, n: nat, c: nat) returns (k: nat)
    requires Objects(h, order) && n <= |order| && c < Off(h, order, n)
    ensures k < n && Off(h, order, k) <= c < Off(h, order, k) + CellsOf(h[order[k]])
    decreases n
  {
    hide CellsOf, IsObject;
    if c < Off(h, order, n - 1) {
      k := CellOf(h, order, n - 1, c);
    } else {
      k := n - 1;
    }
  }

  /** What one cell of the new heap holds: nothing, or an entry that has its cells to itself. */
  ghost predicate CellOk(to: seq<Entry>, c: nat)
    requires c < |to|
  {
    EntryOk(to, c) && !to[c].Ind? && c + CellsOf(to[c]) <= |to| && Blank(to, c, CellsOf(to[c]))
  }

  lemma {:induction false} CellsOk(h: seq<Entry>, roots: seq<Val>, to: seq<Entry>, roots1: seq<Val>, free: nat,
                                   order: seq<nat>, moved: map<nat, nat>, c: nat)
    requires Collected(h, roots, to, roots1, free, order, moved) && c < |to|
    ensures CellOk(to, c)
  {
    hide Reachable, WellFormed, Image, EntryOk, CellsOf;
    var k := CellOf(h, order, |order|, c);
    assert PlaceOk(h, to, order, moved, |order|, 0, k);
    OffGrows(h, order, k, |order|);
    assert order[k] in order;
    if c == Off(h, order, k) {
      ImageOk(h, roots, to, roots1, free, order, moved, order[k]);
      CopyAt(h, roots, to, roots1, free, order, moved, order[k]);
      ImageEdges(h, moved, h[order[k]]);
    } else {
      assert to[c].Vacant?;
      VacantOk(to, c);
    }
  }

  lemma VacantOk(to: seq<Entry>, c: nat)
    requires c < |to| && to[c].Vacant?
    ensures CellOk(to, c)
  {
  }

  /** A collection leaves a heap fit for the next one. */
  lemma {:induction false} NextOk(h: seq<Entry>, roots: seq<Val>, to: seq<Entry>, roots1: seq<Val>, free: nat,
                                  order: seq<nat>, moved: map<nat, nat>)
    requires Collected(h, roots, to, roots1, free, order, moved)
    ensures WellFormed(to) && forall k :: 0 <= k < |roots1| ==> ValOk(to, roots1[k])
  {
    hide Copied, ToOk, Reachable, Off, CellOk, ValOk, Arrived, Fix, WellFormed;
    forall k | 0 <= k < |roots1| ensures ValOk(to, roots1[k]) {
      FixOk(h, roots, to, roots1, free, order, moved, roots[k]);
    }
    forall c | 0 <= c < |to| ensures CellOk(to, c) {
      CellsOk(h, roots, to, roots1, free, order, moved, c);
    }
    NoInds(to);
  }

  lemma {:induction false} NoInds(to: seq<Entry>)
    requires forall c :: 0 <= c < |to| ==> CellOk(to, c)
    ensures WellFormed(to)
  {
    hide EntryOk, CellsOf;
    forall a | 0 <= a < |to| ensures EntryOk(to, a) && a + CellsOf(to[a]) <= |to| && !IsInd(to, Resolve(to, Ptr(a))) {
      assert CellOk(to, a);
      assert Resolve(to, Ptr(a)) == Ptr(a);
    }
    forall a, b | 0 <= a < b < |to| && b < a + CellsOf(to[a]) ensures to[b].Vacant? {
      assert CellOk(to, a);
    }
  }

  // ---------------------------------------------------------------- what a program sees

  datatype Found = Nowhere | Word(v: Val) | At(addr: nat)

  /** Read along a path of traced fields, looking through indirections. */
  function Walk(h: seq<Entry>, v: Val, path: seq<nat>): (r: Found)
    decreases |path|
  {
    var w := Resolve(h, v);
    if path == [] then (if w.Ptr? then At(w.addr) else Word(w))
    else if w.Ptr? && w.addr < |h| && path[0] < |Edges(h[w.addr])| then Walk(h, Edges(h[w.addr])[path[0]], path[1..])
    else Nowhere
  }

  /** Everything about an object but its edges. */
  function Header(e: Entry): (r: Entry) {
    match e
    case Obj(_, _, _, fields) => e.(fields := [])
    case Proxy(_, _, _, _) => e.(body := NONE)
    case _ => e
  }

  /** The same place, before and after. */
  ghost predicate Matches(h: seq<Entry>, to: seq<Entry>, moved: map<nat, nat>, x: Found, y: Found) {
    match x
    case At(a) => a in moved && a < |h| && y == At(moved[a]) && moved[a] < |to| && Header(to[moved[a]]) == Header(h[a])
    case _ => x == y
  }

  lemma {:induction false} ImageEdges(h: seq<Entry>, moved: map<nat, nat>, e: Entry)
    requires IsObject(e)
    ensures var f := Image(h, moved, e);
            && IsObject(f) && Header(f) == Header(e) && |Edges(f)| == |Edges(e)|
            && forall i :: 0 <= i < |Edges(e)| ==> Edges(f)[i] == Fix(h, moved, Edges(e)[i])
  {
    hide Resolve, Fix;
  }

  lemma {:induction false} CopyAt(h: seq<Entry>, roots: seq<Val>, to: seq<Entry>, roots1: seq<Val>, free: nat,
                                  order: seq<nat>, moved: map<nat, nat>, a: nat)
    requires Collected(h, roots, to, roots1, free, order, moved) && a in moved
    ensures a < |h| && IsObject(h[a]) && moved[a] < |to| && to[moved[a]] == Image(h, moved, h[a])
            && EdgesArrived(h, moved, h[a], |Edges(h[a])|)
  {
    hide Reachable, WellFormed, Image, Edges, Off, Fix, Arrived, EdgesArrived;
    assert a in order;
    var k :| 0 <= k < |order| && order[k] == a;
    assert PlaceOk(h, to, order, moved, |order|, 0, k);
  }

  /** Main result: every path from every live value reads the same thing. */
  lemma {:induction false} WalkAgrees(h: seq<Entry>, roots: seq<Val>, to: seq<Entry>, roots1: seq<Val>, free: nat,
                                      order: seq<nat>, moved: map<nat, nat>,
                                      v: Val, path: seq<nat>)
    requires Collected(h, roots, to, roots1, free, order, moved) && Arrived(h, moved, v)
    ensures Matches(h, to, moved, Walk(h, v, path), Walk(to, Fix(h, moved, v), path))
    decreases |path|
  {
    hide Collected, Image, Edges, Header;
    var w := Resolve(h, v);
    if w.Ptr? {
      var a := w.addr;
      CopyAt(h, roots, to, roots1, free, order, moved, a);
      ImageEdges(h, moved, h[a]);
      assert Resolve(to, Ptr(moved[a])) == Ptr(moved[a]);
      if path != [] && path[0] < |Edges(h[a])| {
        assert Arrived(h, moved, Edges(h[a])[path[0]]);
        WalkAgrees(h, roots, to, roots1, free, order, moved, Edges(h[a])[path[0]], path[1..]);
      }
    } else {
      assert Fix(h, moved, v) == w && Resolve(to, w) == w;
    }
  }

  /** Sharing is neither lost nor introduced: two objects have one copy exactly
      when they are one object. */
  lemma {:induction false} SharingKept(h: seq<Entry>, roots: seq<Val>, to: seq<Entry>, roots1: seq<Val>, free: nat,
                                       order: seq<nat>, moved: map<nat, nat>,
                                       a: nat, b: nat)
    requires Collected(h, roots, to, roots1, free, order, moved) && a in moved && b in moved
    ensures moved[a] == moved[b] <==> a == b
    ensures moved[a] + CellsOf(h[a]) <= free
  {
    hide Reachable, ToOk, Off;
    assert a in order && b in order;
    var i :| 0 <= i < |order| && order[i] == a;
    var j :| 0 <= j < |order| && order[j] == b;
    OffGrows(h, order, i, |order|);
    if i < j {
      OffGrows(h, order, i, j);
    } else if j < i {
      OffGrows(h, order, j, i);
    }
  }

  /** The graph seen from the root slots, paths and sharing together. */
  lemma {:induction false} SameGraph(h: seq<Entry>, roots: seq<Val>, to: seq<Entry>, roots1: seq<Val>, free: nat,
                                     order: seq<nat>, moved: map<nat, nat>,
                                     k: nat, p: seq<nat>, l: nat, q: seq<nat>)
    requires Collected(h, roots, to, roots1, free, order, moved) && k < |roots| && l < |roots|
    ensures Matches(h, to, moved, Walk(h, roots[k], p), Walk(to, roots1[k], p))
    ensures Walk(h, roots[k], p) == Walk(h, roots[l], q) <==> Walk(to, roots1[k], p) == Walk(to, roots1[l], q)
  {
    hide Walk, Copied, ToOk, WellFormed, Reachable, Off, Header;
    WalkAgrees(h, roots, to, roots1, free, order, moved, roots[k], p);
    WalkAgrees(h, roots, to, roots1, free, order, moved, roots[l], q);
    var x, y := Walk(h, roots[k], p), Walk(h, roots[l], q);
    if x.At? && y.At? {
      SharingKept(h, roots, to, roots1, free, order, moved, x.addr, y.addr);
    }
  }

  // ------------------------------------------------------------- collections in a row

  /** A heap in use and the values that are live in it. */
  datatype Space = Space(heap: seq<Entry>, roots: seq<Val>)

  ghost predicate CollectedTo(x: Space, y: Space) {
    exists free, order, moved :: Collected(x.heap, x.roots, y.heap, y.roots, free, order, moved)
  }

  /** What a program can tell of a place: nothing there, a word, or an object's own data. */
  datatype Sight = Absent | Plain(v: Val) | Object(header: Entry)

  function View(h: seq<Entry>, v: Val, path: seq<nat>): (r: Sight) {
    match Walk(h, v, path)
    case Nowhere => Absent
    case Word(w) => Plain(w)
    case At(a) => if a < |h| then Object(Header(h[a])) else Absent
  }

  /** Two spaces a program cannot tell apart: by what it reads, or by what is shared. */
  ghost predicate Alike(x: Space, y: Space, k: nat, p: seq<nat>, l: nat, q: seq<nat>) {
    |x.roots| == |y.roots| &&
    (k < |x.roots| && l < |x.roots| ==>
       && View(x.heap, x.roots[k], p) == View(y.heap, y.roots[k], p)
       && (Walk(x.heap, x.roots[k], p) == Walk(x.heap, x.roots[l], q) <==>
             Walk(y.heap, y.roots[k], p) == Walk(y.heap, y.roots[l], q)))
  }

  lemma {:induction false} OneCollection(x: Space, y: Space, k: nat, p: seq<nat>, l: nat, q: seq<nat>)
    requires CollectedTo(x, y)
    ensures Alike(x, y, k, p, l, q) && WellFormed(y.heap)
  {
    hide Copied, ToOk, WellFormed, Reachable, Walk, Header, Off, Arrived, Fix;
    var free, order, moved :| Collected(x.heap, x.roots, y.heap, y.roots, free, order, moved);
    NextOk(x.heap, x.roots, y.heap, y.roots, free, order, moved);
    if k < |x.roots| && l < |x.roots| {
      SameGraph(x.heap, x.roots, y.heap, y.roots, free, order, moved, k, p, l, q);
    }
  }

  /** Main result: after any number of collections every path of reads from every
      root still finds the same, and the same paths still meet. */
  lemma {:induction false} CollectionsKeep(spaces: seq<Space>, n: nat, k: nat, p: seq<nat>, l: nat, q: seq<nat>)
    requires n < |spaces| && WellFormed(spaces[0].heap)
    requires forall i :: 0 <= i < n ==> CollectedTo(spaces[i], spaces[i + 1])
    ensures Alike(spaces[0], spaces[n], k, p, l, q) && WellFormed(spaces[n].heap)
    decreases n
  {
    hide WellFormed, CollectedTo, View, Walk;
    if n > 0 {
      CollectionsKeep(spaces, n - 1, k, p, l, q);
      assert CollectedTo(spaces[n - 1], spaces[n - 1 + 1]);
      OneCollection(spaces[n - 1], spaces[n], k, p, l, q);
    }
  }
}
