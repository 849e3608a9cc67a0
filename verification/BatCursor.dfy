/**
  The cursor over a byte tree (pkg/plan/src/bat.c:36-196): an explicit-stack
  flattener that crops its span array in place, then seeks and reads.
 */
module BatCursor {
  import opened Basics
  import opened Bytes
  import opened Bat

  class Cursor {
    var spans: seq<Span>
    var count: nat
    var length: nat
    var index: nat
    var within: nat
    var position: nat

    /** The first `count` spans are in use and none of them is empty. */
    ghost predicate Sized()
      reads this`spans, this`count, this`length
    {
      count <= |spans| && Solid(spans[..count]) && length == |Contents()|
    }

    ghost function Contents(): (r: seq<byte>)
      reads this`spans, this`count
    {
      Spread(if count <= |spans| then spans[..count] else spans)
    }

    /** The read position is where the index and the offset within its span say. */
    ghost predicate Valid()
      reads this
    {
      && Sized() && index <= count && position == |Spread(spans[..index])| + within
      && (if index < count then within < spans[index].len else within == 0)
    }

    constructor ()
      ensures Sized() && Contents() == [] && Valid() && position == 0 && count == 0
    {
      spans, count, length, index, within, position := [], 0, 0, 0, 0, 0;
    }

    /** bat_span: append a span unless it is empty; refuse to count past 64 bits. */
    method Append(s: Span) returns (ok: bool)
      requires Sized() && length < U64
      modifies this`spans, this`count, this`length
      ensures ok <==> old(length) + s.len < U64
      ensures ok ==> Sized() && Contents() == old(Contents()) + SpanBytes(s) && length < U64
      ensures ok ==> old(count) <= count <= |spans| && spans[..old(count)] == old(spans[..count])
    {
      ok := true;
      if s.len == 0 {
        assert SpanBytes(s) == [];
        return;
      }
      if length + s.len >= U64 {
        return false;
      }
      ghost var used := spans[..count];
      spans := if count < |spans| then spans[count := s] else spans + [s];
      count := count + 1;
      length := length + s.len;
      assert spans[..count] == used + [s] && (used + [s])[..|used|] == used;
    }

    /** The range step: keep `len` bytes from `off` of what came after `first`,
        overwriting the spans in place. */
    method Crop(start: nat, first: nat, off: nat, len: nat)
      requires Sized() && first <= count && start == |Spread(spans[..first])| && off + len <= length - start
      modifies this`spans, this`count, this`length
      ensures Sized() && count >= first && length <= old(length) && spans[..first] == old(spans[..first])
      ensures Contents() == old(Contents())[..start] + old(Contents())[start + off..start + off + len]
    {
      hide Cropping, Spread;
      ghost var was := spans[..count];
      var end := count;
      count, length := first, start;
      var skip: nat, remain: nat := off, len;
      var i := first;
      assert was[..first] == spans[..first];
      CropStart(was, first, start, off, len);
      while i < end && remain > 0
        invariant first <= count <= i <= end == |was| <= |spans| && remain <= len && length == start + (len - remain)
        invariant (forall k :: i <= k < end ==> spans[k] == was[k]) && spans[..first] == was[..first]
        invariant remain > 0 ==> Cropping(was, spans[..count], i, start, off, len, skip, remain)
        invariant remain == 0 ==> Solid(spans[..count]) && Kept(was, spans[..count], start, off, len)
        decreases end - i
      {
        var s := spans[i];
        if skip >= s.len {
          CropSkip(was, spans[..count], i, start, off, len, skip, remain);
          skip := skip - s.len;
        } else {
          var kept := if s.len - skip > remain then remain else s.len - skip;
          ghost var used := spans[..count];
          CropKeep(was, used, i, start, off, len, skip, remain, kept);
          s := s.(off := s.off + skip, len := kept);
          spans := spans[count := s];
          count := count + 1;
          assert spans[..count] == used + [s];
          length := length + kept;
          remain := remain - kept;
          skip := 0;
        }
        i := i + 1;
      }
      if remain > 0 {
        CropEnds(was, spans[..count], start, off, len, skip, remain);
      }
    }

    method Close()
      modifies this
      ensures Valid() && Contents() == [] && index == 0 && within == 0 && position == 0
    {
      spans, count, length, index, within, position := [], 0, 0, 0, 0, 0;
    }

    /** A leaf: the bytes that are there, then zeros. */
    method Leaf(n: nat, off: nat, len: nat) returns (ok: bool)
      requires Sized() && length < U64
      modifies this`spans, this`count, this`length
      ensures ok <==> old(length) + len < U64
      ensures ok ==> Sized() && length < U64 && Contents() == old(Contents()) + Slice(n, off, len)
      ensures ok ==> old(count) <= count <= |spans| && spans[..old(count)] == old(spans[..count])
    {
      hide Spread, SpanBytes, Slice;
      ghost var was, done := spans[..count], Contents();
      var rest := if off < ByteLen(n) then ByteLen(n) - off else 0;
      var here := if rest > len then len else rest;
      WindowParts(n, off, len);
      ok := Append(Span(n, off, here, 0));
      if ok {
        ghost var mid := spans[..count];
        ok := Append(Span(0, 0, len - here, 0));
        if ok {
          assert spans[..|was|] == spans[..|mid|][..|was|] == mid[..|was|] == was;
          assert Contents() == done + Slice(n, off, len);
        }
      }
    }

    /** One node taken off the stack. */
    method Expand(v: Val, under: seq<Task>) returns (ok: bool, stack: seq<Task>)
      requires Sized() && length < U64 && TrimsOk(under, spans[..count])
      modifies this`spans, this`count, this`length
      ensures !ok ==> Rest(under + [Node(v)], old(Contents())) == None
      ensures ok ==> Sized() && length < U64 && TrimsOk(stack, spans[..count]) && Work(stack) < Work(under + [Node(v)])
      ensures ok ==> Rest(stack, Contents()) == Rest(under + [Node(v)], old(Contents()))
    {
      hide Spread, Work, Size, Rest, TrimsOk, SpanBytes, Slice, Solid, Opens, Means, Peak;
      ok, stack := true, under;
      ghost var was := spans[..count];
      RestNode(under, v, Contents());
      RestUnder(under, Node(v), Contents());
      match ShapeOf(v) {
        case Bad => ok := false;
        case Cat(l, r) =>
          TrimsTwo(under, Node(r), Node(l), was);
          stack := under + [Node(r), Node(l)];
        case Check(len, t) =>
          TrimsTwo(under, Verify(length, len), Node(t), was);
          stack := under + [Verify(length, len), Node(t)];
        case Crop(t, off, len) =>
          RestCrop(under, v, Contents(), count);
          TrimsTwo(under, Trim(length, count, off, len), Node(t), was);
          stack := under + [Trim(length, count, off, len), Node(t)];
        case Fill(b, len) =>
          SpanFill(b, len);
          ok := Append(Span(0, 0, len, b));
          if ok { TrimsMore(under, was, spans[..count]); }
        case Window(n, off, len) =>
          ok := Leaf(n, off, len);
          if ok { TrimsMore(under, was, spans[..count]); }
      }
    }

    /** A length check or a range, once its part is flattened. */
    method Conclude(task: Task, under: seq<Task>) returns (ok: bool)
      requires Sized() && length < U64 && TrimsOk(under + [task], spans[..count]) && !task.Node?
      modifies this`spans, this`count, this`length
      ensures !ok ==> Rest(under + [task], old(Contents())) == None
      ensures ok ==>
              Sized() && length < U64 && TrimsOk(under, spans[..count])
              && Rest(under, Contents()) == Rest(under + [task], old(Contents()))
    {
      hide Spread, Work, Rest, TrimsOk, Solid;
      ghost var was := spans[..count];
      TrimsUnder(under, task, was);
      RestUnder(under, task, Contents());
      if task.Verify? {
        ok := length - task.start == task.len;
      } else {
        ok := task.off <= length - task.start && task.len <= length - task.start - task.off;
        if ok {
          TrimTop(under, task, was);
          assert was[..task.first] == spans[..task.first];
          Crop(task.start, task.first, task.off, task.len);
          assert spans[..count][..task.first] == spans[..task.first];
          TrimsLess(under, was, spans[..count], task.first);
        }
      }
    }

    /** pl_bat_open: flatten with an explicit stack. It succeeds exactly on the
        trees that open, and then holds exactly their bytes. */
    method Open(tree: Val) returns (ok: bool)
      modifies this
      ensures ok <==> Opens(tree, 0)
      ensures Valid() && position == 0 && Contents() == if ok then Means(tree).value else []
    {
      hide Spread, Means, ShapeOf, Work, Size, Peak, Rest, TrimsOk, Solid;
      Close();
      var stack := [Node(tree)];
      RestOne(tree);
      TrimsEmpty(tree, spans[..count]);
      while stack != []
        invariant Sized() && length < U64 && TrimsOk(stack, spans[..count]) && index == within == position == 0
        invariant Rest(stack, Contents()) == if Opens(tree, 0) then Some(Means(tree).value) else None
        decreases Work(stack)
      {
        var task, under := stack[|stack| - 1], stack[..|stack| - 1];
        assert stack == under + [task];
        TrimsUnder(under, task, spans[..count]);
        RestUnder(under, task, Contents());
        if task.Node? {
          ok, stack := Expand(task.v, under);
        } else {
          ok := Conclude(task, under);
          stack := under;
        }
        if !ok {
          Close();
          return;
        }
      }
      RestNil(Contents());
      ok := true;
      Fresh();
    }

    /** pl_bat_seek. */
    method Seek(offset0: nat) returns (ok: bool)
      requires Sized()
      modifies this`index, this`within, this`position
      ensures ok <==> offset0 <= length
      ensures ok ==> Valid() && position == offset0
      ensures !ok ==> index == old(index) && within == old(within) && position == old(position)
    {
      hide Spread;
      if offset0 > length {
        return false;
      }
      var offset: nat := offset0;
      position, index := offset, 0;
      SpreadNone(spans);
      while index < count && offset >= spans[index].len
        invariant position == offset0 && index <= count && offset0 == |Spread(spans[..index])| + offset
        decreases count - index
      {
        SpreadNext(spans, count, index);
        offset := offset - spans[index].len;
        index := index + 1;
      }
      within := offset;
      ok := true;
      assert index == count ==> offset == 0 by { Total(); }
      Seated();
    }

    lemma Total()
      requires Sized()
      ensures length == |Spread(spans[..count])|
    {
    }

    /** As much of the current span as is wanted. */
    method ReadSpan(out: array<byte>, at: nat, want: nat) returns (n: nat)
      requires Valid() && index < count && at + want <= out.Length && want > 0
      modifies out, this`index, this`within, this`position
      ensures Valid() && position == old(position) + n && 0 < n <= want && position <= length
      ensures out[..at] == old(out[..at]) && out[at + n..] == old(out[at + n..])
      ensures out[at..at + n] == Contents()[old(position)..position]
    {
      hide Spread, Solid, SpanBytes, Contents;
      var s := spans[index];
      var remain := s.len - within;
      n := if remain < want then remain else want;
      Piece(n);
      CopySpan(out, at, s, within, n);
      within := within + n;
      position := position + n;
      if within == s.len {
        index := index + 1;
        within := 0;
      }
      Seated();
    }

    lemma Piece(n: nat)
      requires Valid() && index < count && within + n <= spans[index].len
      ensures position + n <= |Contents()|
              && |Spread(spans[..index + 1])| == |Spread(spans[..index])| + spans[index].len
      ensures SpanBytes(spans[index].(off := spans[index].off + within, len := n)) == Contents()[position..position + n]
    {
      hide Spread, SpanBytes;
      SpreadNext(spans, count, index);
      KeptBytes(spans[..count], index, within, n);
      assert spans[..count][..index] == spans[..index] && spans[..count][index] == spans[index];
    }

    lemma Seated()
      requires Sized() && index <= count && position == |Spread(spans[..index])| + within
      requires if index < count then within < spans[index].len || within == 0 else within == 0
      ensures Valid() && position <= length
    {
      hide Spread;
      if index < count {
        assert spans[..count][index].len > 0;
        SpreadNext(spans, count, index);
      }
    }

    /** pl_bat_read: copy span by span until the buffer is full or the bytes end. */
    method Read(out: array<byte>, size: nat) returns (done: nat)
      requires Valid() && size <= out.Length
      modifies out, this`index, this`within, this`position
      ensures Valid() && position == old(position) + done
      ensures done == if size <= length - old(position) then size else length - old(position)
      ensures old(position) + done <= length && out[..done] == Contents()[old(position)..old(position) + done]
      ensures out[done..] == old(out[done..])
    {
      hide Spread, Solid, Valid, Sized;
      ghost var from, all := position, Contents();
      assert |all| == length by { Whole(); }
      done := 0;
      WithinAll();
      while done < size && index < count
        invariant Valid() && position == from + done && done <= size && from + done <= length == |all|
        invariant out[..done] == all[from..from + done] && out[done..] == old(out[done..])
        decreases size - done
      {
        ghost var before := out[..done];
        var n := ReadSpan(out, done, size - done);
        assert out[..done + n] == before + out[done..done + n];
        assert all[from..from + done] + all[from + done..from + done + n] == all[from..from + done + n];
        assert out[done + n..] == old(out[done..])[n..] == old(out[done + n..]);
        done := done + n;
      }
      if done < size {
        AtEnd();
      }
    }

    lemma Whole()
      requires Valid()
      ensures |Contents()| == length && index <= count
    {
    }

    lemma WithinAll()
      requires Valid()
      ensures position <= length && (index < count ==> position < length)
    {
      Prefixes(spans[..count], index);
      assert spans[..count][..index] == spans[..index];
      if index < count {
        SpreadNext(spans, count, index);
      }
    }

    lemma AtEnd()
      requires Valid() && index >= count
      ensures position == length
    {
    }

    lemma Fresh()
      requires Sized() && index == within == position == 0
      ensures Valid()
    {
      assert spans[..0] == [];
    }
  }

  /** The bytes of one span into the buffer. */
  method CopySpan(out: array<byte>, at: nat, s: Span, within: nat, n: nat)
    requires at + n <= out.Length && within + n <= s.len
    modifies out
    ensures out[..at] == old(out[..at]) && out[at + n..] == old(out[at + n..])
    ensures out[at..at + n] == SpanBytes(s.(off := s.off + within, len := n))
  {
    ghost var piece := SpanBytes(s.(off := s.off + within, len := n));
    for i := 0 to n
      invariant out[..at] == old(out[..at]) && out[at + n..] == old(out[at + n..])
      invariant forall k :: 0 <= k < i ==> out[at + k] == piece[k]
    {
      out[at + i] := if s.source == 0 then s.b else ByteAt(s.source, s.off + within + i);
    }
  }

  lemma SpreadNone(spans: seq<Span>)
    ensures Spread(spans[..0]) == []
  {
  }

  lemma {:induction false} SpreadNext(spans: seq<Span>, count: nat, i: nat)
    requires i < count <= |spans|
    ensures |Spread(spans[..i + 1])| == |Spread(spans[..i])| + spans[i].len <= |Spread(spans[..count])|
  {
    hide Spread;
    SpreadSplit(spans[..count], i);
    assert spans[..count][..i] == spans[..i] && spans[..count][..i + 1] == spans[..i + 1];
  }

  /** Every pending range still knows where its part begins, and those below
      begin no later. */
  ghost predicate TrimsOk(stack: seq<Task>, used: seq<Span>) {
    && (forall j :: 0 <= j < |stack| && stack[j].Trim? ==>
        stack[j].first <= |used| && stack[j].start == |Spread(used[..stack[j].first])|)
    && (forall j, k :: 0 <= j < k < |stack| && stack[j].Trim? && stack[k].Trim? ==> stack[j].first <= stack[k].first)
  }

  lemma TrimsEmpty(tree: Val, used: seq<Span>)
    ensures TrimsOk([Node(tree)], used)
  {
  }

  lemma TrimsUnder(under: seq<Task>, task: Task, used: seq<Span>)
    requires TrimsOk(under + [task], used)
    ensures TrimsOk(under, used)
  {
    assert forall j :: 0 <= j < |under| ==> under[j] == (under + [task])[j];
  }

  lemma TrimTop(under: seq<Task>, task: Task, used: seq<Span>)
    requires TrimsOk(under + [task], used) && task.Trim?
    ensures task.first <= |used| && task.start == |Spread(used[..task.first])|
    ensures forall j :: 0 <= j < |under| && under[j].Trim? ==> under[j].first <= task.first
  {
    var all := under + [task];
    assert all[|under|] == task;
    assert forall j :: 0 <= j < |under| ==> under[j] == all[j];
  }

  lemma TrimsPush(under: seq<Task>, task: Task, used: seq<Span>)
    requires TrimsOk(under, used) && (task.Trim? ==> task.first == |used| && task.start == |Spread(used)|)
    ensures TrimsOk(under + [task], used)
  {
    assert used[..|used|] == used;
    assert forall j :: 0 <= j < |under| ==> under[j] == (under + [task])[j];
  }

  lemma TrimsTwo(under: seq<Task>, a: Task, b: Task, used: seq<Span>)
    requires TrimsOk(under, used) && b.Node? && (a.Trim? ==> a.first == |used| && a.start == |Spread(used)|)
    ensures TrimsOk(under + [a, b], used)
  {
    hide TrimsOk;
    TrimsPush(under, a, used);
    TrimsPush(under + [a], b, used);
    assert under + [a] + [b] == under + [a, b];
  }

  lemma SpanFill(b: byte, len: nat)
    ensures SpanBytes(Span(0, 0, len, b)) == Repeat(b, len)
  {
  }

  lemma TrimsMore(under: seq<Task>, used: seq<Span>, more: seq<Span>)
    requires TrimsOk(under, used) && |used| <= |more| && more[..|used|] == used
    ensures TrimsOk(under, more)
  {
    forall j | 0 <= j < |under| && under[j].Trim? ensures under[j].first <= |more|
        && under[j].start == |Spread(more[..under[j].first])| {
      assert more[..under[j].first] == used[..under[j].first];
    }
  }

  lemma TrimsLess(under: seq<Task>, used: seq<Span>, less: seq<Span>, first: nat)
    requires TrimsOk(under, used) && first <= |used| && first <= |less| && less[..first] == used[..first]
    requires forall j :: 0 <= j < |under| && under[j].Trim? ==> under[j].first <= first
    ensures TrimsOk(under, less)
  {
    forall j | 0 <= j < |under| && under[j].Trim? ensures under[j].first <= |less|
        && under[j].start == |Spread(less[..under[j].first])| {
      assert less[..under[j].first] == less[..first][..under[j].first] == used[..first][..under[j].first]
          == used[..under[j].first];
    }
  }

  lemma RestOne(tree: Val)
    ensures Rest([Node(tree)], []) == if Opens(tree, 0) then Some(Means(tree).value) else None
    ensures Spread([]) == []
  {
    assert [Node(tree)][..0] == [];
    if Opens(tree, 0) {
      assert [] + Means(tree).value == Means(tree).value;
    }
  }

  lemma RestNil(done: seq<byte>)
    ensures Rest([], done) == Some(done)
  {
  }

  /** The checks on the top of the stack, without its node. */
  lemma RestUnder(under: seq<Task>, task: Task, done: seq<byte>)
    ensures Work(under) < Work(under + [task])
    ensures task.Verify? ==> Rest(under + [task], done) ==
                             if task.start <= |done| && |done| - task.start == task.len then Rest(under, done) else None
    ensures task.Trim? ==> Rest(under + [task], done) ==
                           if task.start <= |done| && task.off + task.len <= |done| - task.start
                           then Rest(under,
                               done[..task.start] + done[task.start + task.off..task.start + task.off + task.len])
                               else None
  {
    assert (under + [task])[..|under|] == under;
  }

  /** One node: what each shape turns into, and that there is less work after. */
  lemma {:induction false} RestNode(under: seq<Task>, v: Val, done: seq<byte>)
    ensures var sh, r := ShapeOf(v), Rest(under + [Node(v)], done);
            match sh
            case Bad => r == None
            case Cat(l, rt) =>
                r == Rest(under + [Node(rt), Node(l)], done)
                && Work(under + [Node(rt), Node(l)]) < Work(under + [Node(v)])
            case Check(len, t) =>
              var next := under + [Verify(|done|, len), Node(t)];
              r == Rest(next, done) && Work(next) < Work(under + [Node(v)])
            case Crop(t, off, len) =>
              forall first: nat :: Work(under + [Trim(|done|, first, off, len), Node(t)]) < Work(under + [Node(v)])
            case Fill(b, len) => r == if |done| + len < U64 then Rest(under, done + Repeat(b, len)) else None
            case Window(n, off, len) => r == if |done| + len < U64 then Rest(under, done + Slice(n, off, len)) else None
  {
    hide ShapeOf, Rest;
    var sh := ShapeOf(v);
    match sh
    case Cat(l, r) =>
      RestCat(under, v, done);
      WorkTwo(under, v, Node(r), Node(l));
    case Check(len, t) =>
      RestCheck(under, v, done);
      WorkTwo(under, v, Verify(|done|, len), Node(t));
    case Crop(t, off, len) =>
      forall first: nat ensures Work(under + [Trim(|done|, first, off, len), Node(t)]) < Work(under + [Node(v)]) {
        WorkTwo(under, v, Trim(|done|, first, off, len), Node(t));
      }
    case _ =>
      RestLeaf(under, v, done);
  }

  lemma RestLeaf(under: seq<Task>, v: Val, done: seq<byte>)
    ensures Rest(under + [Node(v)], done) == if Opens(v, |done|) then Rest(under, done + Means(v).value) else None
  {
    assert (under + [Node(v)])[..|under|] == under;
  }

  lemma {:induction false} WorkTwo(under: seq<Task>, v: Val, a: Task, b: Task)
    requires b.Node? && Size(v) == 1 + Size(b.v) + if a.Node? then Size(a.v) else 0
    ensures Work(under + [a, b]) < Work(under + [Node(v)])
  {
    hide Size;
    RestTwo(under, a, b, []);
    assert (under + [Node(v)])[..|under|] == under;
  }

  ghost predicate Kept(was: seq<Span>, used: seq<Span>, start: nat, off: nat, len: nat) {
    start + off + len <= |Spread(was)|
        && Spread(used) == Spread(was)[..start] + Spread(was)[start + off..start + off + len]
  }

  lemma {:induction false} CropStart(was: seq<Span>, first: nat, start: nat, off: nat, len: nat)
    requires first <= |was| && Solid(was) && start == |Spread(was[..first])| && start + off + len <= |Spread(was)|
    ensures Cropping(was, was[..first], first, start, off, len, off, len)
            && (len == 0 ==> Kept(was, was[..first], start, off, len))
  {
    hide Spread;
    Prefixes(was, first);
  }

  /** The span array cannot run out before the bytes do. */
  lemma CropEnds(was: seq<Span>, used: seq<Span>, start: nat, off: nat, len: nat, skip: nat, remain: nat)
    requires Cropping(was, used, |was|, start, off, len, skip, remain)
    ensures remain == 0
  {
    assert was[..|was|] == was;
  }
}
