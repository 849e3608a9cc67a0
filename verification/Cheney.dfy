/**
  The copying collector (pkg/plan/src/heap.c:349-503). Addresses are cell
  offsets; an entry sits at its first cell and the cells it covers are vacant.
  Naturals, store values and the words an object does not trace are opaque.
 */
module Cheney {
  import opened Basics

  datatype Val = Nat(n: nat) | Stable(id: nat) | Ptr(addr: nat)

  datatype Kind = BigNat | App | Env | Law | Thunk | Thke | Blackhole

  /** `data` stands for every word of the object that is not traced. A proxy
      traces its body until it is given a target, which lives in the store. */
  datatype Entry =
    | Vacant
    | Obj(kind: Kind, cells: nat, data: int, fields: seq<Val>)
    | Proxy(cells: nat, data: int, target: Val, body: Val)
    | Ind(cells: nat, to: Val)
    | Fwd(cells: nat, to: Val)

  const NONE: Val := Nat(0)

  /** How many words of an object the scan traces. */
  function Traced(kind: Kind, cells: nat): (n: int) {
    match kind
    case BigNat => 0
    case App => cells - 1
    case Env => cells - 1
    case Law => 2
    case Thunk => 2
    case Thke => cells - 2
    case Blackhole => 1
  }

  /** One header word, and a second untraced one in a counted thunk; laws trace their
      name and body, thunks their code and environment, blackholes what they wait on. */
  lemma TracedWords(cells: nat)
    ensures Traced(BigNat, cells) == 0 && Traced(App, cells) + 1 == cells && Traced(Env, cells) + 1 == cells
    ensures Traced(Law, cells) == 2 && Traced(Thunk, cells) == 2 && Traced(Thke, cells) + 2 == cells
            && Traced(Blackhole, cells) == 1
  {
  }

  /** The traced edges of an entry. */
  function Edges(e: Entry): (r: seq<Val>) {
    match e
    case Obj(_, _, _, fields) => fields
    case Proxy(_, _, target, body) => if target == NONE then [body] else []
    case _ => []
  }

  /** A proxy is an edge to its body until it has a target, and none after that; an
      indirection or a vacant cell is no object, and covers nothing if it is vacant. */
  lemma EdgesOf(cells: nat, data: int, target: Val, body: Val, fields: seq<Val>, kind: Kind)
    ensures Edges(Obj(kind, cells, data, fields)) == fields && Edges(Proxy(cells, data, Nat(0), body)) == [body]
    ensures target.Stable? ==> Edges(Proxy(cells, data, target, body)) == []
    ensures Edges(Ind(cells, body)) == [] && Edges(Vacant) == [] && CellsOf(Vacant) == 0
  {
  }

  predicate IsObject(e: Entry) {
    e.Obj? || e.Proxy?
  }

  // ---------------------------------------------------------------- well-formed heaps

  predicate ValOk(h: seq<Entry>, v: Val) {
    v.Ptr? ==> v.addr < |h| && (IsObject(h[v.addr]) || h[v.addr].Ind?)
  }

  /** Follow indirections, at most `fuel` of them. */
  function Chase(h: seq<Entry>, v: Val, fuel: nat): (r: Val)
    ensures ValOk(h, v) && (forall a :: 0 <= a < |h| && h[a].Ind? ==> ValOk(h, h[a].to)) ==> ValOk(h, r)
    decreases fuel
  {
    if v.Ptr? && v.addr < |h| && h[v.addr].Ind? && fuel > 0 then Chase(h, h[v.addr].to, fuel - 1) else v
  }

  function Resolve(h: seq<Entry>, v: Val): (r: Val) {
    Chase(h, v, |h|)
  }

  predicate IsInd(h: seq<Entry>, v: Val) {
    v.Ptr? && v.addr < |h| && h[v.addr].Ind?
  }

  predicate EntryOk(h: seq<Entry>, a: nat)
    requires a < |h|
  {
    match h[a]
    case Vacant => true
    case Obj(kind, cells, _, fields) =>
        cells >= 2 && |fields| == Traced(kind, cells) && forall i :: 0 <= i < |fields| ==> ValOk(h, fields[i])
    case Proxy(cells, _, target, body) => cells >= 2 && (target == NONE || target.Stable?) && ValOk(h, body)
    case Ind(cells, to) => cells >= 2 && ValOk(h, to)
    case Fwd(_, _) => false
  }

  function CellsOf(e: Entry): (n: nat) {
    if e.Vacant? then 0 else e.cells
  }

  /** Entries do not overlap, and no chain of indirections is endless. */
  ghost predicate WellFormed(h: seq<Entry>) {
    && (forall a :: 0 <= a < |h| ==> EntryOk(h, a))
    && (forall a :: 0 <= a < |h| ==> a + CellsOf(h[a]) <= |h|)
    && (forall a, b :: 0 <= a < b < |h| && b < a + CellsOf(h[a]) ==> h[b].Vacant?)
    && (forall a :: 0 <= a < |h| ==> !IsInd(h, Resolve(h, Ptr(a))))
  }

  // ---------------------------------------------------------------- reachability

  ghost predicate Edge(h: seq<Entry>, a: nat, b: nat) {
    a < |h| && exists i :: 0 <= i < |Edges(h[a])| && Resolve(h, Edges(h[a])[i]) == Ptr(b)
  }

  ghost predicate RootOf(h: seq<Entry>, roots: seq<Val>, a: nat) {
    exists k :: 0 <= k < |roots| && Resolve(h, roots[k]) == Ptr(a)
  }

  ghost predicate Path(h: seq<Entry>, roots: seq<Val>, path: seq<nat>) {
    path != [] && RootOf(h, roots, path[0]) && forall i :: 0 <= i < |path| - 1 ==> Edge(h, path[i], path[i + 1])
  }

  ghost predicate Reachable(h: seq<Entry>, roots: seq<Val>, a: nat) {
    exists path :: Path(h, roots, path) && path[|path| - 1] == a
  }

  lemma {:induction false} RootReachable(h: seq<Entry>, roots: seq<Val>, a: nat)
    requires RootOf(h, roots, a)
    ensures Reachable(h, roots, a)
  {
    assert Path(h, roots, [a]);
    assert [a][|[a]| - 1] == a;
  }

  lemma {:induction false} EdgeReachable(h: seq<Entry>, roots: seq<Val>, a: nat, b: nat)
    requires Reachable(h, roots, a) && Edge(h, a, b)
    ensures Reachable(h, roots, b)
  {
    var path :| Path(h, roots, path) && path[|path| - 1] == a;
    var longer := path + [b];
    forall i | 0 <= i < |longer| - 1 ensures Edge(h, longer[i], longer[i + 1]) {
      assert longer[i] == path[i];
      if i < |path| - 1 {
        assert longer[i + 1] == path[i + 1];
      }
    }
    assert longer[0] == path[0];
    assert Path(h, roots, longer) && longer[|longer| - 1] == b;
  }

  /** A set that has the roots and is closed under edges has everything reachable. */
  lemma {:induction false} ClosedHasAll(h: seq<Entry>, roots: seq<Val>, path: seq<nat>, s: set<nat>)
    requires Path(h, roots, path) && (forall a :: RootOf(h, roots, a) ==> a in s)
             && (forall a, b :: a in s && Edge(h, a, b) ==> b in s)
    ensures path[|path| - 1] in s
    decreases |path|
  {
    if |path| > 1 {
      var shorter := path[..|path| - 1];
      forall i | 0 <= i < |shorter| - 1 ensures Edge(h, shorter[i], shorter[i + 1]) {
        assert Edge(h, path[i], path[i + 1]);
      }
      assert Path(h, roots, shorter);
      ClosedHasAll(h, roots, shorter, s);
      assert Edge(h, path[|path| - 2], path[|path| - 1]);
    }
  }

  // ---------------------------------------------------------------- layout of the copies

  /** Offset of the i-th copied object: the cells of those before it. */
  function Off(h: seq<Entry>, order: seq<nat>, i: nat): (r: nat)
    requires i <= |order| && forall k :: 0 <= k < |order| ==> order[k] < |h|
    decreases i
  {
    if i == 0 then 0 else Off(h, order, i - 1) + CellsOf(h[order[i - 1]])
  }

  ghost predicate Objects(h: seq<Entry>, order: seq<nat>) {
    forall k :: 0 <= k < |order| ==> order[k] < |h| && IsObject(h[order[k]])
  }

  lemma {:induction false} OffPrefix(h: seq<Entry>, order: seq<nat>, a: nat, i: nat)
    requires i <= |order| && Objects(h, order) && a < |h| && IsObject(h[a])
    ensures Off(h, order + [a], i) == Off(h, order, i)
    decreases i
  {
    if i > 0 {
      OffPrefix(h, order, a, i - 1);
    }
  }

  lemma {:induction false} OffGrows(h: seq<Entry>, order: seq<nat>, i: nat, j: nat)
    requires WellFormed(h) && Objects(h, order) && i < j <= |order|
    ensures Off(h, order, i) + CellsOf(h[order[i]]) <= Off(h, order, j) && CellsOf(h[order[i]]) >= 2
    decreases j
  {
    assert EntryOk(h, order[i]);
    if i < j - 1 {
      OffGrows(h, order, i, j - 1);
    }
  }

  function Span(a: nat, n: nat): (r: set<nat>)
    ensures |r| == n && forall k :: k in r <==> a <= k < a + n
    decreases n
  {
    if n == 0 then {} else Span(a, n - 1) + {a + n - 1}
  }

  function Covered(h: seq<Entry>, order: seq<nat>): (r: set<nat>)
    requires Objects(h, order)
    decreases |order|
  {
    if order == [] then {}
    else
      var a := order[|order| - 1];
      Covered(h, order[..|order| - 1]) + Span(a, CellsOf(h[a]))
  }

  lemma Apart(h: seq<Entry>, a: nat, b: nat)
    requires WellFormed(h) && a < |h| && b < |h| && a != b && IsObject(h[a]) && IsObject(h[b])
    ensures Span(a, CellsOf(h[a])) !! Span(b, CellsOf(h[b]))
  {
  }

  lemma {:induction false} CoveredApart(h: seq<Entry>, order: seq<nat>, b: nat)
    requires WellFormed(h) && Objects(h, order) && b < |h| && IsObject(h[b]) && b !in order
    ensures Covered(h, order) !! Span(b, CellsOf(h[b]))
    decreases |order|
  {
    hide WellFormed;
    if order != [] {
      assert order[|order| - 1] in order && forall x :: x in order[..|order| - 1] ==> x in order;
      CoveredApart(h, order[..|order| - 1], b);
      Apart(h, order[|order| - 1], b);
    }
  }

  lemma {:induction false} CoveredSize(h: seq<Entry>, order: seq<nat>)
    requires WellFormed(h) && Objects(h, order) && Distinct(order)
    ensures |Covered(h, order)| == Off(h, order, |order|) && Covered(h, order) <= Span(0, |h|)
    decreases |order|
  {
    hide WellFormed, Span, CellsOf, IsObject;
    if order != [] {
      var rest, a := order[..|order| - 1], order[|order| - 1];
      CoveredSize(h, rest);
      assert rest + [a] == order;
      OffPrefix(h, rest, a, |rest|);
      CoveredApart(h, rest, a);
      SpanInside(h, a);
      UnionSize(Covered(h, rest), Span(a, CellsOf(h[a])));
    }
  }

  lemma UnionSize(a: set<nat>, b: set<nat>)
    requires a !! b
    ensures |a + b| == |a| + |b|
  {
  }

  lemma SpanInside(h: seq<Entry>, a: nat)
    requires WellFormed(h) && a < |h|
    ensures Span(a, CellsOf(h[a])) <= Span(0, |h|)
  {
  }

  /** The copies never need more cells than from-space uses. */
  lemma {:induction false} CopiesFit(h: seq<Entry>, order: seq<nat>)
    requires WellFormed(h) && Objects(h, order) && Distinct(order)
    ensures Off(h, order, |order|) <= |h|
  {
    CoveredSize(h, order);
    SubsetSize(Covered(h, order), Span(0, |h|));
  }

  lemma SubsetSize(a: set<nat>, b: set<nat>)
    requires a <= b
    ensures |a| <= |b|
  {
    assert b == a + (b - a);
  }

  // -------------------------------------------------------------------- images

  /** Where a value points after the collection. */
  function Fix(h: seq<Entry>, moved: map<nat, nat>, v: Val): (r: Val) {
    var w := Resolve(h, v);
    if w.Ptr? && w.addr in moved then Ptr(moved[w.addr]) else w
  }

  predicate Arrived(h: seq<Entry>, moved: map<nat, nat>, v: Val) {
    var w := Resolve(h, v);
    w.Ptr? ==> w.addr in moved
  }

  /** An entry with its first `n` traced edges redirected. */
  function Part(h: seq<Entry>, moved: map<nat, nat>, e: Entry, n: nat): (r: Entry)
    requires n <= |Edges(e)|
  {
    match e
    case Obj(_, _, _, fields) =>
      e.(fields := seq(|fields|, i requires 0 <= i < |fields| => if i < n then Fix(h, moved, fields[i]) else fields[i]))
    case Proxy(_, _, _, body) => if n == 1 then e.(body := Fix(h, moved, body)) else e
    case _ => e
  }

  /** The finished copy; a proxy that has its target sheds its body. */
  function Image(h: seq<Entry>, moved: map<nat, nat>, e: Entry): (r: Entry) {
    if e.Proxy? && e.target != NONE then e.(body := NONE) else Part(h, moved, e, |Edges(e)|)
  }

  ghost predicate EdgesArrived(h: seq<Entry>, moved: map<nat, nat>, e: Entry, n: nat)
    requires n <= |Edges(e)|
  {
    forall i :: 0 <= i < n ==> Arrived(h, moved, Edges(e)[i])
  }

  ghost predicate Extends(moved: map<nat, nat>, more: map<nat, nat>) {
    forall a :: a in moved ==> a in more && more[a] == moved[a]
  }

  lemma {:induction false} PartStable(h: seq<Entry>, moved: map<nat, nat>, more: map<nat, nat>, e: Entry, n: nat)
    requires n <= |Edges(e)| && EdgesArrived(h, moved, e, n) && Extends(moved, more)
    ensures Part(h, more, e, n) == Part(h, moved, e, n) && EdgesArrived(h, more, e, n)
  {
    hide Resolve;
    if e.Obj? {
      assert Edges(e) == e.fields;
      forall i | 0 <= i < n ensures Fix(h, more, e.fields[i]) == Fix(h, moved, e.fields[i]) {
        assert Arrived(h, moved, Edges(e)[i]);
      }
    } else if n == 1 {
      assert Arrived(h, moved, Edges(e)[0]);
    }
  }

  // -------------------------------------------------------------------- the invariant

  /** `order` lists what has been copied; `scanned` of the copies are finished
      and `part` edges of the next one. */
  ghost predicate Copied(h: seq<Entry>, roots: seq<Val>, order: seq<nat>, moved: map<nat, nat>) {
    && Objects(h, order) && Distinct(order)
    && (forall k :: 0 <= k < |order| ==> Reachable(h, roots, order[k]))
    && (forall a :: a in moved <==> a in order)
    && (forall k :: 0 <= k < |order| ==> moved[order[k]] == Off(h, order, k))
  }

  ghost predicate FromOk(h: seq<Entry>, from: seq<Entry>, moved: map<nat, nat>) {
    |from| == |h| && forall a :: 0 <= a < |h| ==>
        from[a] == if a in moved then Fwd(CellsOf(h[a]), Ptr(moved[a])) else h[a]
  }

  ghost predicate CopyOk(h: seq<Entry>, copy: Entry, order: seq<nat>, moved: map<nat, nat>, scanned: nat,
                         part: nat, k: nat)
    requires k < |order| && Objects(h, order)
  {
    var e := h[order[k]];
    if k < scanned then copy == Image(h, moved, e) && EdgesArrived(h, moved, e, |Edges(e)|)
    else if k == scanned then part <= |Edges(e)| && copy == Part(h, moved, e, part) && EdgesArrived(h, moved, e, part)
    else copy == e
  }

  ghost predicate ToOk(h: seq<Entry>, to: seq<Entry>, order: seq<nat>, moved: map<nat, nat>, scanned: nat, part: nat)
    requires Objects(h, order)
  {
    && scanned <= |order| && (scanned == |order| ==> part == 0)
    && forall k :: 0 <= k < |order| ==> PlaceOk(h, to, order, moved, scanned, part, k)
  }

  /** The k-th copy sits at its offset, and the cells it covers are vacant. */
  ghost predicate PlaceOk(h: seq<Entry>, to: seq<Entry>, order: seq<nat>, moved: map<nat, nat>, scanned: nat,
                          part: nat, k: nat)
    requires k < |order| && Objects(h, order)
  {
    && Off(h, order, k) < |to| && CopyOk(h, to[Off(h, order, k)], order, moved, scanned, part, k)
    && Blank(to, Off(h, order, k), CellsOf(h[order[k]]))
  }

  /** The `n` cells from `at` on hold at most one entry, at `at`. */
  ghost predicate Blank(to: seq<Entry>, at: nat, n: nat) {
    forall c :: at < c < at + n && c < |to| ==> to[c].Vacant?
  }

  /** An object copied whole to `at`. */
  function Placed(to: seq<Entry>, at: nat, e: Entry): (r: seq<Entry>)
    requires at + CellsOf(e) <= |to| && CellsOf(e) > 0
    ensures |r| == |to| && r[at] == e && Blank(r, at, CellsOf(e))
    ensures forall c :: 0 <= c < |to| && !(at <= c < at + CellsOf(e)) ==> r[c] == to[c]
  {
    to[..at] + [e] + seq(CellsOf(e) - 1, _ => Vacant) + to[at + CellsOf(e)..]
  }

  ghost predicate Inv(h: seq<Entry>, roots: seq<Val>, from: seq<Entry>, to: seq<Entry>, free: nat,
                      order: seq<nat>, moved: map<nat, nat>, scanned: nat, part: nat)
  {
    && WellFormed(h) && |to| >= |h| && Copied(h, roots, order, moved) && FromOk(h, from, moved)
    && free == Off(h, order, |order|) && ToOk(h, to, order, moved, scanned, part)
  }

  /** Evacuating one more object. */
  lemma {:induction false} CopiedMore(h: seq<Entry>, roots: seq<Val>, order: seq<nat>, moved: map<nat, nat>, a: nat)
    requires Copied(h, roots, order, moved) && a !in moved && a < |h| && IsObject(h[a]) && Reachable(h, roots, a)
    ensures Copied(h, roots, order + [a], moved[a := Off(h, order, |order|)])
  {
    hide Reachable, Off;
    var order1, moved1 := order + [a], moved[a := Off(h, order, |order|)];
    assert a !in order;
    assert Objects(h, order1) && Distinct(order1);
    forall x ensures x in moved1 <==> x in order1 {
      assert x in order1 <==> x in order || x == a;
    }
    forall k | 0 <= k < |order1| ensures moved1[order1[k]] == Off(h, order1, k) && Reachable(h, roots, order1[k]) {
      OffPrefix(h, order, a, k);
      if k < |order| {
        assert order1[k] == order[k] && order[k] in order;
      }
    }
  }

  lemma {:induction false} ToMore(h: seq<Entry>, to: seq<Entry>, order: seq<nat>, moved: map<nat, nat>, scanned: nat,
                                  part: nat, a: nat)
    requires WellFormed(h) && Objects(h, order) && ToOk(h, to, order, moved, scanned, part)
    requires a !in moved && a < |h| && IsObject(h[a]) && CellsOf(h[a]) > 0
             && Off(h, order, |order|) + CellsOf(h[a]) <= |to|
    ensures ToOk(h, Placed(to, Off(h, order, |order|), h[a]), order + [a], moved[a := Off(h, order, |order|)],
            scanned, part)
  {
    hide WellFormed, Image, Part, Edges, Placed;
    var free := Off(h, order, |order|);
    var order1, moved1, to1 := order + [a], moved[a := free], Placed(to, free, h[a]);
    forall k | 0 <= k < |order1| ensures PlaceOk(h, to1, order1, moved1, scanned, part, k) {
      OffPrefix(h, order, a, k);
      if k < |order| {
        OffGrows(h, order, k, |order|);
        assert PlaceOk(h, to, order, moved, scanned, part, k);
        CopyStable(h, to[Off(h, order, k)], order, a, moved, moved1, scanned, part, k);
      } else {
        PartNone(h, moved1, h[a]);
      }
    }
  }

  lemma PartNone(h: seq<Entry>, moved: map<nat, nat>, e: Entry)
    ensures Part(h, moved, e, 0) == e
  {
  }

  lemma {:induction false} CopyStable(h: seq<Entry>, copy: Entry, order: seq<nat>, a: nat, moved: map<nat, nat>,
                                      more: map<nat, nat>, scanned: nat, part: nat, k: nat)
    requires k < |order| && Objects(h, order) && CopyOk(h, copy, order, moved, scanned, part, k)
             && Extends(moved, more) && a < |h| && IsObject(h[a])
    ensures CopyOk(h, copy, order + [a], more, scanned, part, k)
  {
    hide Part, Edges, EdgesArrived;
    var e := h[order[k]];
    if k < scanned {
      PartStable(h, moved, more, e, |Edges(e)|);
    } else if k == scanned {
      PartStable(h, moved, more, e, part);
    }
  }

  lemma {:induction false} Evacuate(h: seq<Entry>, roots: seq<Val>, from: seq<Entry>, to: seq<Entry>, free: nat,
                                    order: seq<nat>, moved: map<nat, nat>, scanned: nat, part: nat, a: nat)
    requires Inv(h, roots, from, to, free, order, moved, scanned, part)
    requires a !in moved && a < |h| == |from| && IsObject(h[a]) && Reachable(h, roots, a)
    requires CellsOf(h[a]) > 0 && free + CellsOf(h[a]) <= |to|
    ensures Inv(h, roots, from[a := Fwd(CellsOf(h[a]), Ptr(free))], Placed(to, free, h[a]), free + CellsOf(h[a]),
                order + [a], moved[a := free], scanned, part)
  {
    hide WellFormed, Reachable, ToOk, Placed, FromOk, CellsOf;
    CopiedMore(h, roots, order, moved, a);
    OffPrefix(h, order, a, |order|);
    ToMore(h, to, order, moved, scanned, part, a);
    FromMore(h, from, moved, a, free);
  }

  lemma FromMore(h: seq<Entry>, from: seq<Entry>, moved: map<nat, nat>, a: nat, free: nat)
    requires FromOk(h, from, moved) && a < |h| == |from|
    ensures FromOk(h, from[a := Fwd(CellsOf(h[a]), Ptr(free))], moved[a := free])
  {
  }

  /** There is room for it. */
  lemma {:induction false} Room(h: seq<Entry>, roots: seq<Val>, from: seq<Entry>, to: seq<Entry>, free: nat,
                                order: seq<nat>, moved: map<nat, nat>, scanned: nat, part: nat, a: nat)
    requires Inv(h, roots, from, to, free, order, moved, scanned, part)
    requires a !in moved && a < |h| && IsObject(h[a]) && Reachable(h, roots, a)
    ensures |from| == |h| && free + CellsOf(h[a]) <= |h| <= |to| && CellsOf(h[a]) > 0
  {
    hide WellFormed, Reachable, ToOk;
    CopiedMore(h, roots, order, moved, a);
    CopiesFit(h, order + [a]);
    OffPrefix(h, order, a, |order|);
    CellsAt(h, a);
  }

  lemma CellsAt(h: seq<Entry>, a: nat)
    requires WellFormed(h) && a < |h| && IsObject(h[a])
    ensures CellsOf(h[a]) >= 2
  {
    assert EntryOk(h, a);
  }
}
