/**
  Thunk updates (pkg/plan/src/eval.c:63-104, 633-659, 795-818, 1685-1697): runs
  of update frames share one frame and a slice of a side stack. Every operation
  is proved to do what a plain stack with one frame per entered thunk does.
 */
module UpdateStack {

  type Ref = nat

  /** Just enough of a heap object: a bytecode thunk with its blackhole flag, a
      legacy thunk and its blackhole, or a finished one. */
  datatype Cell = Thke(hole: bool, noUpdate: bool, code: int) | Thunk(expr: int) | Blackhole | Ind(value: int)

  /** `argc` targets: `first` here, the rest in the side stack from `base` on. */
  datatype Frame = Upd(first: Ref, base: nat, argc: nat) | Legacy(target: Ref, expr: int) | Other(id: int)

  /** The plain stack: one frame per thunk. */
  datatype Plain = One(target: Ref) | Old(target: Ref, expr: int) | Rest(id: int)

  // ----------------------------------------------------------------- the refinement

  /** The side-stack slots the frames own, in frame order. */
  function Owned(frames: seq<Frame>): (r: nat)
    decreases |frames|
  {
    if frames == [] then 0
    else
      var f := frames[|frames| - 1];
      Owned(frames[..|frames| - 1]) + if f.Upd? && f.argc > 0 then f.argc - 1 else 0
  }

  /** The slices partition the side stack in frame order. */
  ghost predicate Sliced(frames: seq<Frame>)
    decreases |frames|
  {
    frames == [] ||
    var rest, f := frames[..|frames| - 1], frames[|frames| - 1];
    Sliced(rest) && (f.Upd? ==> f.argc >= 1 && (f.argc >= 2 ==> f.base == Owned(rest)))
  }

  function Ones(targets: seq<Ref>): (r: seq<Plain>) {
    seq(|targets|, i requires 0 <= i < |targets| => One(targets[i]))
  }

  /** The targets of an update frame, in the order they were entered. */
  function Targets(f: Frame, side: seq<Ref>, base: nat): (r: seq<Ref>)
    requires f.Upd? && f.argc >= 1 && base + f.argc - 1 <= |side|
  {
    [f.first] + side[base..base + f.argc - 1]
  }

  /** The plain stack that frames and side stack stand for. */
  function Expand(frames: seq<Frame>, side: seq<Ref>): (r: seq<Plain>)
    requires Sliced(frames) && Owned(frames) <= |side|
    decreases |frames|
  {
    if frames == [] then []
    else
      var rest, f := frames[..|frames| - 1], frames[|frames| - 1];
      Expand(rest, side) + match f
                           case Upd(_, _, _) => Ones(Targets(f, side, Owned(rest)))
                           case Legacy(a, e) => [Old(a, e)]
                           case Other(id) => [Rest(id)]
  }

  lemma {:induction false} SlicedPrefix(frames: seq<Frame>, n: nat)
    requires Sliced(frames) && n <= |frames|
    ensures Sliced(frames[..n]) && Owned(frames[..n]) <= Owned(frames)
    decreases |frames|
  {
    if n < |frames| {
      SlicedPrefix(frames[..|frames| - 1], n);
      assert frames[..|frames| - 1][..n] == frames[..n];
    } else {
      assert frames[..n] == frames;
    }
  }

  lemma SliceAgree(a: seq<Ref>, b: seq<Ref>, n: nat, lo: nat, hi: nat)
    requires n <= |a| && n <= |b| && a[..n] == b[..n] && lo <= hi <= n
    ensures a[lo..hi] == b[lo..hi]
  {
    assert a[lo..hi] == a[..n][lo..hi];
    assert b[lo..hi] == b[..n][lo..hi];
  }

  /** Only the owned part of the side stack matters. */
  lemma {:induction false} ExpandLocal(frames: seq<Frame>, side: seq<Ref>, side1: seq<Ref>)
    requires Sliced(frames) && Owned(frames) <= |side| && Owned(frames) <= |side1|
    requires side[..Owned(frames)] == side1[..Owned(frames)]
    ensures Expand(frames, side) == Expand(frames, side1)
    decreases |frames|
  {
    if frames != [] {
      var rest, f := frames[..|frames| - 1], frames[|frames| - 1];
      var n := Owned(rest);
      SliceAgree(side, side1, Owned(frames), 0, n);
      ExpandLocal(rest, side, side1);
      if f.Upd? {
        SliceAgree(side, side1, Owned(frames), n, n + f.argc - 1);
      }
    }
  }

  lemma {:induction false} ExpandPrefix(frames: seq<Frame>, side: seq<Ref>, n: nat)
    requires Sliced(frames) && Owned(frames) <= |side| && n <= |frames|
    ensures Sliced(frames[..n]) && Owned(frames[..n]) <= |side| && Expand(frames[..n], side) <= Expand(frames, side)
    decreases |frames|
  {
    SlicedPrefix(frames, n);
    if n < |frames| {
      ExpandPrefix(frames[..|frames| - 1], side, n);
      assert frames[..|frames| - 1][..n] == frames[..n];
    } else {
      assert frames[..n] == frames;
    }
  }

  // ------------------------------------------------------------ what the plain stack owns

  ghost predicate Owns(p: Plain, r: Ref) {
    !p.Rest? && p.target == r
  }

  /** Every entered thunk is blackholed, and no two frames own one thunk. */
  ghost predicate Blackholed(plain: seq<Plain>, heap: map<Ref, Cell>) {
    && (forall i :: 0 <= i < |plain| && plain[i].One? ==>
        plain[i].target in heap && heap[plain[i].target].Thke? && heap[plain[i].target].hole)
    && (forall i :: 0 <= i < |plain| && plain[i].Old? ==> plain[i].target in heap && heap[plain[i].target].Blackhole?)
    && (forall i, j :: 0 <= i < j < |plain| && !plain[i].Rest? && !plain[j].Rest? ==>
        plain[i].target != plain[j].target)
  }

  /** The plain machine's unwind: roll back one frame at a time, top first. */
  function Unwound(plain: seq<Plain>, heap: map<Ref, Cell>, n: nat): (r: map<Ref, Cell>)
    decreases |plain|
  {
    if |plain| <= n then heap
    else
      var top := plain[|plain| - 1];
      Unwound(plain[..|plain| - 1], Restored(top, heap), n)
  }

  function Restored(p: Plain, heap: map<Ref, Cell>): (r: map<Ref, Cell>) {
    match p
    case One(a) => if a in heap && heap[a].Thke? then heap[a := heap[a].(hole := false)] else heap
    case Old(a, e) => heap[a := Thunk(e)]
    case Rest(_) => heap
  }

  /** The plain machine's return: update and pop, top first. */
  function Returned(plain: seq<Plain>, heap: map<Ref, Cell>, n: nat, v: int): (r: map<Ref, Cell>)
    decreases |plain|
  {
    if |plain| <= n then heap
    else
      var top := plain[|plain| - 1];
      Returned(plain[..|plain| - 1], if top.Rest? then heap else heap[top.target := Ind(v)], n, v)
  }

  lemma {:induction false} UnwoundSplit(plain: seq<Plain>, heap: map<Ref, Cell>, n: nat, m: nat)
    requires n <= m <= |plain|
    ensures Unwound(plain, heap, n) == Unwound(plain[..m], Unwound(plain, heap, m), n)
    decreases |plain|
  {
    if m < |plain| {
      UnwoundSplit(plain[..|plain| - 1], Restored(plain[|plain| - 1], heap), n, m);
      assert plain[..|plain| - 1][..m] == plain[..m];
    } else {
      assert plain[..m] == plain;
    }
  }

  /** Rolling back exactly the discarded frames' thunks, and nothing else. */
  lemma {:induction false} UnwoundExactly(plain: seq<Plain>, heap: map<Ref, Cell>, n: nat, r: Ref)
    requires n <= |plain| && Blackholed(plain, heap)
    ensures var h := Unwound(plain, heap, n);
            && (forall i :: n <= i < |plain| && plain[i] == One(r) ==> r in h && h[r] == heap[r].(hole := false))
            && (forall i :: n <= i < |plain| && plain[i].Old? && plain[i].target == r ==>
                r in h && h[r] == Thunk(plain[i].expr))
            && ((forall i :: n <= i < |plain| ==> !Owns(plain[i], r)) ==>
                (r in h <==> r in heap) && (r in heap ==> h[r] == heap[r]))
    decreases |plain|
  {
    if n < |plain| {
      var rest, top := plain[..|plain| - 1], plain[|plain| - 1];
      var heap1 := Restored(top, heap);
      StillBlackholed(plain, heap);
      UnwoundExactly(rest, heap1, n, r);
      assert forall i :: n <= i < |rest| ==> rest[i] == plain[i];
      if !top.Rest? && top.target == r {
        assert forall i :: n <= i < |rest| ==> !Owns(rest[i], r);
      }
    }
  }

  lemma {:induction false} StillBlackholed(plain: seq<Plain>, heap: map<Ref, Cell>)
    requires plain != [] && Blackholed(plain, heap)
    ensures Blackholed(plain[..|plain| - 1], Restored(plain[|plain| - 1], heap))
  {
    var rest := plain[..|plain| - 1];
    assert forall i :: 0 <= i < |rest| ==> rest[i] == plain[i];
  }

  lemma {:induction false} StillUpdated(plain: seq<Plain>, heap: map<Ref, Cell>, v: int)
    requires plain != [] && Blackholed(plain, heap)
    ensures var top := plain[|plain| - 1];
            Blackholed(plain[..|plain| - 1], if top.Rest? then heap else heap[top.target := Ind(v)])
  {
    var rest := plain[..|plain| - 1];
    assert forall i :: 0 <= i < |rest| ==> rest[i] == plain[i];
  }

  // ------------------------------------------------------------------------ pushing

  /** A frame of its own. */
  lemma {:induction false} PushFresh(frames: seq<Frame>, side: seq<Ref>, f: Frame)
    requires Sliced(frames) && Owned(frames) == |side| && (f.Upd? ==> f.argc == 1)
    ensures Sliced(frames + [f]) && Owned(frames + [f]) == |side|
    ensures Expand(frames + [f], side) ==
            Expand(frames, side) + [match f case Upd(a, _, _) => One(a) case Legacy(a, e) =>
                Old(a, e) case Other(id) => Rest(id)]
  {
    assert (frames + [f])[..|frames|] == frames;
    if f.Upd? {
      assert Targets(f, side, |side|) == [f.first];
      assert Ones([f.first]) == [One(f.first)];
    }
  }

  lemma FrameSplit(rest: seq<Frame>, f: Frame, side: seq<Ref>)
    ensures Sliced(rest + [f]) <==> Sliced(rest) && (f.Upd? ==> f.argc >= 1 && (f.argc >= 2 ==> f.base == Owned(rest)))
    ensures f.Upd? && f.argc >= 1 ==> Owned(rest + [f]) == Owned(rest) + f.argc - 1
    ensures Sliced(rest + [f]) && Owned(rest + [f]) <= |side| && f.Upd? ==>
              Expand(rest + [f], side) == Expand(rest, side) + Ones(Targets(f, side, Owned(rest)))
  {
    assert (rest + [f])[..|rest|] == rest;
  }

  /** One more target for the top frame. */
  lemma {:induction false} PushShared(frames: seq<Frame>, side: seq<Ref>, v: Ref)
    requires Sliced(frames) && Owned(frames) == |side| && frames != [] && frames[|frames| - 1].Upd?
    ensures var f := frames[|frames| - 1];
            var frames1 := frames[..|frames| - 1] + [Upd(f.first, if f.argc == 1 then |side| else f.base, f.argc + 1)];
            && (f.argc >= 2 ==> f.base + f.argc - 1 == |side|)
            && Sliced(frames1) && Owned(frames1) == |side| + 1
            && Expand(frames1, side + [v]) == Expand(frames, side) + [One(v)]
  {
    hide Sliced, Owned, Expand, Targets, Ones;
    var rest, f := frames[..|frames| - 1], frames[|frames| - 1];
    var g := Upd(f.first, if f.argc == 1 then |side| else f.base, f.argc + 1);
    assert frames == rest + [f];
    FrameSplit(rest, f, side);
    FrameSplit(rest, g, side + [v]);
    var n := Owned(rest);
    assert (side + [v])[..n] == side[..n];
    ExpandLocal(rest, side, side + [v]);
    TargetsGrow(f, g, side, v, n);
  }

  lemma TargetsGrow(f: Frame, g: Frame, side: seq<Ref>, v: Ref, n: nat)
    requires f.Upd? && g.Upd? && f.argc >= 1 && g.argc == f.argc + 1 && g.first == f.first && n + f.argc - 1 == |side|
    ensures Ones(Targets(g, side + [v], n)) == Ones(Targets(f, side, n)) + [One(v)]
  {
    assert Targets(g, side + [v], n) == Targets(f, side, n) + [v];
  }

  /** Sharing is as wide as it can be: two update frames meet only where a run begins. */
  ghost predicate Shared(frames: seq<Frame>, bases: seq<nat>) {
    forall i :: 0 < i < |frames| && frames[i - 1].Upd? && frames[i].Upd? ==> i in bases
  }

  // ------------------------------------------------------------------------ the stack

  class Updates {
    var frames: seq<Frame>
    var side: seq<Ref>
    var heap: map<Ref, Cell>
    /** Where each nested run began: its frames are its own. */
    var bases: seq<nat>
    ghost var plain: seq<Plain>
    ghost var marks: seq<nat>

    /** Frames and side stack stand for the plain stack, and the heap agrees. */
    ghost predicate Refines()
      reads this
    {
      && Sliced(frames) && Owned(frames) == |side| && plain == Expand(frames, side) && Blackholed(plain, heap)
      && Marked(frames, side, bases, marks)
    }

    ghost predicate Valid()
      reads this
    {
      Refines() && Shared(frames, bases)
    }

    constructor (heap0: map<Ref, Cell>)
      ensures Valid() && plain == [] && heap == heap0 && bases == []
    {
      frames, side, heap, bases, plain, marks := [], [], heap0, [], [], [];
    }

    function Base(): (r: nat)
      reads this
    {
      if bases == [] then 0 else bases[|bases| - 1]
    }

    /** A nested run begins at the current top. */
    method Begin()
      requires Valid()
      modifies this`bases, this`marks
      ensures Valid() && bases == old(bases) + [|frames|] && marks == old(marks) + [|plain|]
    {
      assert frames[..|frames|] == frames;
      bases, marks := bases + [|frames|], marks + [|plain|];
    }

    /** A run that is back at its base is done. */
    method Finish()
      requires Valid() && bases != [] && |frames| == Base()
      modifies this`bases, this`marks
      ensures Valid() && bases == old(bases)[..|old(bases)| - 1] && |plain| == old(marks)[|old(bases)| - 1]
    {
      hide Expand, Sliced, Owned, Blackholed;
      assert MarkAt(frames, side, Base(), marks[|bases| - 1]);
      assert frames[..|frames|] == frames;
      SharedLess(frames, bases);
      bases, marks := bases[..|bases| - 1], marks[..|bases| - 1];
    }

    method PushOther(id: int)
      requires Valid()
      modifies this`frames, this`plain
      ensures Valid() && plain == old(plain) + [Rest(id)]
    {
      PushFresh(frames, side, Other(id));
      MarkedMore(frames, side, frames + [Other(id)], side, bases, marks);
      frames := frames + [Other(id)];
      plain := plain + [Rest(id)];
    }

    /** Entering a legacy thunk. */
    method EnterLegacy(v: Ref)
      requires Valid() && v in heap && heap[v].Thunk?
      modifies this`frames, this`plain, this`heap
      ensures Valid() && plain == old(plain) + [Old(v, old(heap)[v].expr)] && heap == old(heap)[v := Blackhole]
    {
      var f := Legacy(v, heap[v].expr);
      PushFresh(frames, side, f);
      MarkedMore(frames, side, frames + [f], side, bases, marks);
      plain := plain + [Old(v, heap[v].expr)];
      heap := heap[v := Blackhole];
      frames := frames + [f];
    }

    /** Entering a bytecode thunk: false is the blackhole found again. */
    method Enter(v: Ref) returns (ok: bool)
      requires Valid() && v in heap && heap[v].Thke?
      modifies this`frames, this`side, this`plain, this`heap
      ensures Valid() && (ok <==> old(heap)[v].noUpdate || !old(heap)[v].hole)
      ensures if ok && !old(heap)[v].noUpdate then plain == old(plain) + [One(v)]
              && heap == old(heap)[v := old(heap)[v].(hole := true)]
              else plain == old(plain) && heap == old(heap)
    {
      if heap[v].noUpdate {
        return true;
      }
      if heap[v].hole {
        return false;
      }
      heap := heap[v := heap[v].(hole := true)];
      plain := plain + [One(v)];
      PushTarget(v);
      ok := true;
    }

    /** pl_push_thke_update: share the run's top update frame if there is one. */
    method PushTarget(v: Ref)
      requires Sliced(frames) && Owned(frames) == |side| && Marked(frames, side, bases, marks) && Shared(frames, bases)
      modifies this`frames, this`side
      ensures Sliced(frames) && Owned(frames) == |side| && Marked(frames, side, bases, marks) && Shared(frames, bases)
      ensures var n := |old(frames)|;
              |frames| == if n > Base() && old(frames)[n - 1].Upd? then n else n + 1
      ensures Expand(frames, side) == old(Expand(frames, side)) + [One(v)]
    {
      hide Sliced, Owned, Expand, Marked;
      if |frames| > Base() && frames[|frames| - 1].Upd? {
        var f, rest := frames[|frames| - 1], frames[..|frames| - 1];
        PushShared(frames, side, v);
        var g := if f.argc == 1 then Upd(f.first, |side|, 2) else Upd(f.first, f.base, f.argc + 1);
        MarkedShared(frames, side, rest + [g], side + [v], bases, marks);
        side := side + [v];
        frames := rest + [g];
      } else {
        BaseIsLast(frames, side, bases, marks);
        PushFresh(frames, side, Upd(v, 0, 1));
        MarkedMore(frames, side, frames + [Upd(v, 0, 1)], side, bases, marks);
        frames := frames + [Upd(v, 0, 1)];
      }
    }

    /** pl_restore_thke, whose assertions always hold here. */
    method RestoreTarget(ghost p: seq<Plain>, a: Ref)
      requires p != [] && Blackholed(p, heap) && p[|p| - 1] == One(a)
      modifies this`heap
      ensures heap == Restored(One(a), old(heap)) && Blackholed(p[..|p| - 1], heap)
    {
      assert a in heap && heap[a].Thke? && heap[a].hole;
      StillBlackholed(p, heap);
      heap := heap[a := heap[a].(hole := false)];
    }

    /** Roll back an update frame's targets, last entered first. */
    method RestoreTargets(f: Frame, ghost under: seq<Plain>, ghost low: nat)
      requires f.Upd? && f.argc >= 1 && low + f.argc - 1 == |side| && (f.argc >= 2 ==> f.base == low)
      requires Blackholed(under + Ones(Targets(f, side, low)), heap)
      modifies this`heap
      ensures heap == Unwound(under + Ones(Targets(f, side, low)), old(heap), |under|) && Blackholed(under, heap)
    {
      hide Blackholed;
      ghost var all := Targets(f, side, low);
      assert all[..|all|] == all;
      ghost var p := under + Ones(all);
      var j := f.argc - 1;
      while j > 0
        invariant 0 <= j <= f.argc - 1 && p == under + Ones(all[..j + 1]) && Blackholed(p, heap)
        invariant Unwound(p, heap, |under|) == old(Unwound(under + Ones(all), heap, |under|))
        decreases j
      {
        OnesTop(under, all, j);
        RestoreTarget(p, side[f.base + j - 1]);
        p := p[..|p| - 1];
        j := j - 1;
      }
      OnesTop(under, all, 0);
      RestoreTarget(p, f.first);
      UnwoundNone(under, heap);
    }

    /** Roll back one frame and release its slice. */
    method UnwindFrame()
      requires Refines() && frames != [] && Base() < |frames|
      modifies this`frames, this`side, this`plain, this`heap
      ensures Refines() && frames == old(frames)[..|old(frames)| - 1] && |plain| <= |old(plain)|
              && plain == old(plain)[..|plain|]
      ensures heap == Unwound(old(plain), old(heap), |plain|) && |side| <= |old(side)| && side == old(side)[..|side|]
    {
      hide Marked, Expand, Sliced, Owned, Blackholed, Targets, Ones;
      var f := frames[|frames| - 1];
      ghost var rest, low := frames[..|frames| - 1], Owned(frames[..|frames| - 1]);
      PopShape(frames, side);
      MarkedLess(frames, side, bases, marks);
      ghost var under := Expand(rest, side);
      assert side[..|side|] == side;
      UnwoundNone(under, heap);
      if f.Upd? {
        RestoreTargets(f, under, low);
        if f.argc >= 2 {
          side := side[..f.base];
        }
      } else {
        StillBlackholed(plain, heap);
        UnwoundTop(plain, heap);
        if f.Legacy? {
          heap := heap[f.target := Thunk(f.expr)];
        }
      }
      assert side == old(side)[..low];
      frames := frames[..|frames| - 1];
      plain := under;
    }

    /** pl_unwind_frames to any frame of the current run, such as its innermost
        Try: the discarded frames' thunks are rolled back, top first. */
    method UnwindTo(n: nat)
      requires Refines() && Base() <= n <= |frames|
      modifies this`frames, this`side, this`plain, this`heap
      ensures Refines() && (old(Valid()) ==> Valid()) && frames == old(frames)[..n] && |side| <= |old(side)|
              && side == old(side)[..|side|]
      ensures |plain| <= |old(plain)| && plain == old(plain)[..|plain|]
      ensures heap == Unwound(old(plain), old(heap), |plain|)
    {
      hide Expand, Sliced, Owned, Unwound, Blackholed, Marked;
      ghost var frames0, side0, plain0, heap0 := frames, side, plain, heap;
      assert plain0 == plain0[..|plain0|];
      UnwoundNone(plain, heap);
      while |frames| > n
        invariant Refines() && n <= |frames| <= |frames0| && frames == frames0[..|frames|]
        invariant |side| <= |side0| && side == side0[..|side|]
        invariant |plain| <= |plain0| && plain == plain0[..|plain|] && heap == Unwound(plain0, heap0, |plain|)
        decreases |frames|
      {
        ghost var p := plain;
        UnwindFrame();
        UnwoundSplit(plain0, heap0, |plain|, |p|);
        assert plain0[..|p|][..|plain|] == plain0[..|plain|];
      }
    }

    /** An unwind that leaves the j-th nested run, and those inside it, for good. */
    method Unwind(j: nat)
      requires Valid() && j < |bases|
      modifies this
      ensures Valid() && bases == old(bases)[..j] && marks == old(marks)[..j] && frames == old(frames)[..old(bases)[j]]
      ensures old(marks)[j] <= |old(plain)| && plain == old(plain)[..old(marks)[j]]
      ensures heap == Unwound(old(plain), old(heap), old(marks)[j])
    {
      hide Expand, Sliced, Owned, Unwound, Blackholed, MarkAt;
      var n := bases[j];
      ghost var frames0, side0, m := frames, side, marks[j];
      assert MarkAt(frames, side, n, m);
      bases, marks := bases[..j], marks[..j];
      UnwindTo(n);
      SharedBelow(frames0, old(bases), j);
      MarkReached(frames0, side0, side, n, m);
    }

    /** Update an update frame's targets, last entered first. */
    method UpdateTargets(f: Frame, v: int, ghost under: seq<Plain>, ghost low: nat)
      requires f.Upd? && f.argc >= 1 && low + f.argc - 1 == |side| && (f.argc >= 2 ==> f.base == low)
      requires Blackholed(under + Ones(Targets(f, side, low)), heap)
      modifies this`heap
      ensures heap == Returned(under + Ones(Targets(f, side, low)), old(heap), |under|, v) && Blackholed(under, heap)
    {
      hide Blackholed;
      ghost var all := Targets(f, side, low);
      assert all[..|all|] == all;
      ghost var p := under + Ones(all);
      var i := f.argc - 1;
      while i > 0
        invariant 0 <= i <= f.argc - 1 && p == under + Ones(all[..i + 1]) && Blackholed(p, heap)
        invariant Returned(p, heap, |under|, v) == old(Returned(under + Ones(all), heap, |under|, v))
        decreases i
      {
        OnesTop(under, all, i);
        StillUpdated(p, heap, v);
        heap := heap[side[f.base + i - 1] := Ind(v)];
        p := p[..|p| - 1];
        i := i - 1;
      }
      OnesTop(under, all, 0);
      StillUpdated(p, heap, v);
      heap := heap[f.first := Ind(v)];
      ReturnedNone(under, heap, v);
    }

    /** A value returns to the top update frame, which is done with. */
    method Return(v: int)
      requires Valid() && frames != [] && Base() < |frames| && !frames[|frames| - 1].Other?
      modifies this`frames, this`side, this`plain, this`heap
      ensures Valid() && frames == old(frames)[..|old(frames)| - 1]
      ensures |plain| <= |old(plain)| && plain == old(plain)[..|plain|]
              && heap == Returned(old(plain), old(heap), |plain|, v)
    {
      hide Marked, Expand, Sliced, Owned, Blackholed, Targets, Ones;
      var f := frames[|frames| - 1];
      ghost var rest, low := frames[..|frames| - 1], Owned(frames[..|frames| - 1]);
      PopShape(frames, side);
      MarkedLess(frames, side, bases, marks);
      ghost var under := Expand(rest, side);
      assert side[..|side|] == side;
      ReturnedNone(under, heap, v);
      if f.Upd? {
        UpdateTargets(f, v, under, low);
        if f.argc >= 2 {
          side := side[..f.base];
        }
      } else {
        StillUpdated(plain, heap, v);
        ReturnedTop(plain, heap, v);
        heap := heap[f.target := Ind(v)];
      }
      assert side == old(side)[..low];
      frames := frames[..|frames| - 1];
      plain := under;
    }
  }

  /** A run that has pushed nothing began at the top. */
  lemma BaseIsLast(frames: seq<Frame>, side: seq<Ref>, bases: seq<nat>, marks: seq<nat>)
    requires Sliced(frames) && Owned(frames) <= |side| && Marked(frames, side, bases, marks)
    ensures |frames| > 0 && |frames| <= (if bases == [] then 0 else bases[|bases| - 1]) ==> |frames| in bases
  {
  }

  lemma SharedLess(frames: seq<Frame>, bases: seq<nat>)
    requires Shared(frames, bases) && bases != [] && bases[|bases| - 1] == |frames|
    ensures Shared(frames, bases[..|bases| - 1])
  {
    forall i | 0 < i < |frames| && frames[i - 1].Upd? && frames[i].Upd? ensures i in bases[..|bases| - 1] {
      assert bases == bases[..|bases| - 1] + [|frames|];
    }
  }

  lemma SharedBelow(frames: seq<Frame>, bases: seq<nat>, j: nat)
    requires Shared(frames, bases) && j < |bases| && bases[j] <= |frames|
    requires forall i, k :: 0 <= i < k < |bases| ==> bases[i] <= bases[k]
    ensures Shared(frames[..bases[j]], bases[..j])
  {
    forall i | 0 < i < bases[j] && frames[i - 1].Upd? && frames[i].Upd? ensures i in bases[..j] {
      var k :| 0 <= k < |bases| && bases[k] == i;
      assert k < j;
      assert bases[..j][k] == i;
    }
  }

  lemma UnwoundTop(plain: seq<Plain>, heap: map<Ref, Cell>)
    requires plain != []
    ensures Unwound(plain, heap, |plain| - 1) == Restored(plain[|plain| - 1], heap)
  {
  }

  lemma ReturnedTop(plain: seq<Plain>, heap: map<Ref, Cell>, v: int)
    requires plain != []
    ensures var top := plain[|plain| - 1];
            Returned(plain, heap, |plain| - 1, v) == if top.Rest? then heap else heap[top.target := Ind(v)]
  {
  }

  lemma ReturnedNone(plain: seq<Plain>, heap: map<Ref, Cell>, v: int)
    ensures Returned(plain, heap, |plain|, v) == heap
  {
  }

  lemma UnwoundNone(plain: seq<Plain>, heap: map<Ref, Cell>)
    ensures Unwound(plain, heap, |plain|) == heap
  {
  }

  lemma {:induction false} MarkReached(frames: seq<Frame>, side: seq<Ref>, side1: seq<Ref>, n: nat, m: nat)
    requires Sliced(frames) && Owned(frames) <= |side| && n <= |frames| && MarkAt(frames, side, n, m)
    requires Sliced(frames[..n]) && Owned(frames[..n]) == |side1| <= |side| && side1 == side[..|side1|]
    ensures |Expand(frames[..n], side1)| == m
  {
    assert side1[..|side1|] == side1;
    ExpandLocal(frames[..n], side, side1);
  }

  /** The top frame, as a piece of the plain stack. */
  lemma {:induction false} PopShape(frames: seq<Frame>, side: seq<Ref>)
    requires Sliced(frames) && Owned(frames) == |side| && frames != []
    ensures var rest, f := frames[..|frames| - 1], frames[|frames| - 1];
            && Sliced(rest) && Owned(rest) <= |side|
            && (f.Upd? ==> f.argc >= 1 && Owned(rest) + f.argc - 1 == |side| && (f.argc >= 2 ==> f.base == Owned(rest)))
            && (f.Upd? ==> var all := Targets(f, side, Owned(rest));
                Expand(frames, side) == Expand(rest, side) + Ones(all) && all[..|all|] == all && |all| == f.argc)
            && (!f.Upd? ==> Owned(rest) == |side|)
            && (f.Legacy? ==> Expand(frames, side) == Expand(rest, side) + [Old(f.target, f.expr)])
            && (f.Other? ==> Expand(frames, side) == Expand(rest, side) + [Rest(f.id)])
            && Expand(rest, side[..Owned(rest)]) == Expand(rest, side)
  {
    var rest := frames[..|frames| - 1];
    ExpandLocal(rest, side, side[..Owned(rest)]);
  }

  /** The last target of the ones still on the plain stack. */
  lemma {:induction false} OnesTop(under: seq<Plain>, all: seq<Ref>, j: nat)
    requires j < |all|
    ensures var p := under + Ones(all[..j + 1]);
            p != [] && p[|p| - 1] == One(all[j]) && p[..|p| - 1] == under + Ones(all[..j])
    ensures under + Ones(all[..0]) == under
  {
    assert Ones(all[..j + 1]) == Ones(all[..j]) + [One(all[j])];
  }

  lemma {:induction false} MarksKept(frames: seq<Frame>, side: seq<Ref>, frames1: seq<Frame>, side1: seq<Ref>, n: nat,
                                     bases: seq<nat>, marks: seq<nat>)
    requires Sliced(frames) && Owned(frames) <= |side| && Sliced(frames1) && Owned(frames1) <= |side1|
    requires n <= |frames| && n <= |frames1| && frames[..n] == frames1[..n] && Marked(frames, side, bases, marks)
    requires var k := Owned(frames[..n]); k <= |side| && k <= |side1| && side[..k] == side1[..k]
    requires forall j :: 0 <= j < |bases| ==> bases[j] <= n
    ensures Marked(frames1, side1, bases, marks)
  {
    forall j | 0 <= j < |bases| ensures MarkAt(frames1, side1, bases[j], marks[j]) {
      var b := bases[j];
      assert MarkAt(frames, side, b, marks[j]);
      assert frames[..b] == frames[..n][..b] == frames1[..n][..b] == frames1[..b];
      SlicedPrefix(frames, n);
      SlicedPrefix(frames[..n], b);
      assert frames[..n][..b] == frames[..b];
      SlicedPrefix(frames, b);
      SlicedPrefix(frames1, b);
      SliceAgree(side, side1, Owned(frames[..n]), 0, Owned(frames[..b]));
      ExpandLocal(frames[..b], side, side1);
    }
  }

  lemma {:induction false} MarkedMore(frames: seq<Frame>, side: seq<Ref>, frames1: seq<Frame>, side1: seq<Ref>,
                                      bases: seq<nat>, marks: seq<nat>)
    requires Sliced(frames) && Owned(frames) <= |side| && Sliced(frames1) && Owned(frames1) <= |side1|
             && Marked(frames, side, bases, marks)
    requires |frames| <= |frames1| && frames1[..|frames|] == frames && side == side1
    ensures Marked(frames1, side1, bases, marks)
  {
    assert frames[..|frames|] == frames;
    MarksKept(frames, side, frames1, side1, |frames|, bases, marks);
  }

  ghost predicate Within(bases: seq<nat>, n: nat) {
    forall j :: 0 <= j < |bases| ==> bases[j] <= n
  }

  lemma {:induction false} BasesWithin(frames: seq<Frame>, side: seq<Ref>, bases: seq<nat>, marks: seq<nat>)
    requires Sliced(frames) && Owned(frames) <= |side| && Marked(frames, side, bases, marks)
    requires (if bases == [] then 0 else bases[|bases| - 1]) < |frames|
    ensures Within(bases, |frames| - 1)
  {
  }

  lemma {:induction false} MarkedShared(frames: seq<Frame>, side: seq<Ref>, frames1: seq<Frame>, side1: seq<Ref>,
                                        bases: seq<nat>, marks: seq<nat>)
    requires Sliced(frames) && Owned(frames) <= |side| && Sliced(frames1) && Owned(frames1) <= |side1|
             && Marked(frames, side, bases, marks)
    requires |frames| == |frames1| > 0 && frames[..|frames| - 1] == frames1[..|frames| - 1] && |side| <= |side1|
             && side1[..|side|] == side
    requires (if bases == [] then 0 else bases[|bases| - 1]) < |frames|
    ensures Marked(frames1, side1, bases, marks)
  {
    BasesWithin(frames, side, bases, marks);
    SlicedPrefix(frames, |frames| - 1);
    assert side[..|side|] == side;
    SliceAgree(side, side1, |side|, 0, Owned(frames[..|frames| - 1]));
    MarksKept(frames, side, frames1, side1, |frames| - 1, bases, marks);
  }

  /** Popping the top frame and its slice. */
  lemma {:induction false} MarkedLess(frames: seq<Frame>, side: seq<Ref>, bases: seq<nat>, marks: seq<nat>)
    requires Sliced(frames) && Owned(frames) == |side| && Marked(frames, side, bases, marks) && frames != []
    requires (if bases == [] then 0 else bases[|bases| - 1]) < |frames|
    ensures var rest := frames[..|frames| - 1];
            Sliced(rest) && Owned(rest) <= |side| && Marked(rest, side[..Owned(rest)], bases, marks)
  {
    var rest := frames[..|frames| - 1];
    BasesWithin(frames, side, bases, marks);
    SlicedPrefix(frames, |rest|);
    assert rest[..|rest|] == rest;
    assert side[..Owned(rest)][..Owned(rest)] == side[..Owned(rest)];
    MarksKept(frames, side, rest, side[..Owned(rest)], |rest|, bases, marks);
  }

  /** Each nested run's beginning, in frames and in plain frames. */
  ghost predicate Marked(frames: seq<Frame>, side: seq<Ref>, bases: seq<nat>, marks: seq<nat>)
    requires Sliced(frames) && Owned(frames) <= |side|
  {
    && |bases| == |marks| && (forall j :: 0 <= j < |bases| ==> bases[j] <= |frames|)
    && (forall i, j :: 0 <= i < j < |bases| ==> bases[i] <= bases[j])
    && (forall j :: 0 <= j < |bases| ==> MarkAt(frames, side, bases[j], marks[j]))
  }

  ghost predicate MarkAt(frames: seq<Frame>, side: seq<Ref>, b: nat, m: nat)
    requires Sliced(frames) && Owned(frames) <= |side| && b <= |frames|
  {
    SlicedPrefix(frames, b);
    |Expand(frames[..b], side)| == m
  }

  /** What a plain return does: every popped frame's thunk has the value. */
  lemma {:induction false} ReturnedExactly(plain: seq<Plain>, heap: map<Ref, Cell>, n: nat, v: int, r: Ref)
    requires n <= |plain|
    ensures var h := Returned(plain, heap, n, v);
            if exists i :: n <= i < |plain| && Owns(plain[i], r) then r in h && h[r] == Ind(v)
            else (r in h <==> r in heap) && (r in heap ==> h[r] == heap[r])
    decreases |plain|
  {
    if n < |plain| {
      var rest, top := plain[..|plain| - 1], plain[|plain| - 1];
      var heap1 := if top.Rest? then heap else heap[top.target := Ind(v)];
      ReturnedExactly(rest, heap1, n, v, r);
      if i :| n <= i < |plain| && Owns(plain[i], r) {
        assert i < |rest| ==> Owns(rest[i], r);
      }
      if i :| n <= i < |rest| && Owns(rest[i], r) {
        assert Owns(plain[i], r);
      }
    }
  }

  ghost predicate Holds(f: Frame, k: nat) {
    f.Upd? && f.argc >= 2 && f.base <= k < f.base + f.argc - 1
  }

  /** The slices partition the side stack: every slot is in exactly one. */
  lemma {:induction false} SlotOwner(frames: seq<Frame>, k: nat) returns (i: nat)
    requires Sliced(frames) && k < Owned(frames)
    ensures i < |frames| && Holds(frames[i], k)
    ensures forall j :: 0 <= j < |frames| && Holds(frames[j], k) ==> j == i
    decreases |frames|
  {
    var rest, f := frames[..|frames| - 1], frames[|frames| - 1];
    if k < Owned(rest) {
      i := SlotOwner(rest, k);
      assert forall j :: 0 <= j < |rest| ==> rest[j] == frames[j];
    } else {
      i := |rest|;
      forall j | 0 <= j < |frames| && Holds(frames[j], k) ensures j == i {
        if j < |rest| {
          assert rest[j] == frames[j];
          SliceBelow(rest, j);
        }
      }
    }
  }

  lemma {:induction false} SliceBelow(frames: seq<Frame>, j: nat)
    requires Sliced(frames) && j < |frames| && frames[j].Upd? && frames[j].argc >= 2
    ensures frames[j].base + frames[j].argc - 1 <= Owned(frames)
    decreases |frames|
  {
    if j < |frames| - 1 {
      SliceBelow(frames[..|frames| - 1], j);
    }
  }
}
