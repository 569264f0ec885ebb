/** What whole runs leave behind: nothing, once everything is freed, and no trace of what was stored. */
module Recovery {
  import opened Memory
  import opened PageState
  import opened PageSpec
  import opened Invariant
  import opened Runs
  import Exactness

  /** Secrecy: after any legal run from a fresh page, every byte outside the live blocks is zero. */
  lemma NothingLeftBehind(page: Page, ops: seq<Op>, i: nat)
    requires page.Valid() && Inv(Initial(page)) && Legal(Initial(page), ops)
    requires i < page.size && !Covered(Run(Initial(page), ops).live, page.base + i)
    ensures |Run(Initial(page), ops).mem| == page.size && Run(Initial(page), ops).mem[i] == 0
  {
    RunKeepsInv(Initial(page), ops);
  }

  /** The stack is empty exactly when nothing is live. */
  lemma EmptyStackIff(s: State)
    requires Inv(s)
    ensures s.top == 0 <==> s.live == map[]
    ensures s.bytes == 0 <==> s.live == map[]
  {
    BytesBelowTop(s);
    if s.live != map[] {
      var p :| p in s.live;
      EndsBelowTop(s, p);
    }
  }

  /** With nothing live the allocator is as good as new, whatever happened before. */
  lemma EmptyIsInitial(s: State)
    requires Inv(s) && s.live == map[]
    ensures s == Initial(s.page)
  {
    EmptyStackIff(s);
    forall i | 0 <= i < |s.mem| ensures s.mem[i] == 0 {
      assert !Covered(s.live, s.page.base + i);
    }
    assert s.mem == Zeros(s.page.size);
  }

  // Freeing everything

  datatype Handle = Handle(ptr: nat, layout: Layout)

  // `handles` lists every live block once, each with a layout that fits it
  ghost predicate Lists(live: Blocks, handles: seq<Handle>) {
    && (forall i :: 0 <= i < |handles| ==> handles[i].layout.size > 0 && Fits(live, handles[i].ptr, handles[i].layout))
    && (forall i, j :: 0 <= i < j < |handles| ==> handles[i].ptr != handles[j].ptr)
    && (forall p :: p in live ==> exists i :: 0 <= i < |handles| && handles[i].ptr == p)
  }

  ghost function Frees(handles: seq<Handle>): seq<Op> {
    seq(|handles|, i requires 0 <= i < |handles| => DeallocateOp(handles[i].ptr, handles[i].layout))
  }

  lemma ListsRest(live: Blocks, handles: seq<Handle>)
    requires handles != [] && Lists(live, handles)
    ensures Lists(live - {handles[0].ptr}, handles[1..])
  {
    var rest, tail := live - {handles[0].ptr}, handles[1..];
    forall i | 0 <= i < |tail| ensures tail[i].layout.size > 0 && Fits(rest, tail[i].ptr, tail[i].layout) {
      assert tail[i] == handles[i + 1];
    }
    forall p | p in rest ensures exists i :: 0 <= i < |tail| && tail[i].ptr == p {
      var i :| 0 <= i < |handles| && handles[i].ptr == p;
      assert tail[i - 1].ptr == p;
    }
  }

  /** Freeing every live block, in whatever order, leads back to the initial state. */
  lemma {:induction false} FreeingAllRecovers(s: State, handles: seq<Handle>)
    requires Inv(s) && Lists(s.live, handles)
    ensures Legal(s, Frees(handles)) && Run(s, Frees(handles)) == Initial(s.page)
    decreases |handles|
  {
    var ops := Frees(handles);
    if handles == [] {
      assert s.live == map[];
      EmptyIsInitial(s);
    } else {
      assert Fits(s.live, handles[0].ptr, handles[0].layout);
      assert ops[0] == DeallocateOp(handles[0].ptr, handles[0].layout) && ops[1..] == Frees(handles[1..]);
      StepKeepsInv(s, ops[0]);
      ListsRest(s.live, handles);
      FreeingAllRecovers(Step(s, ops[0]).s, handles[1..]);
    }
  }

  // Refused requests

  // The run without the calls that were refused
  ghost function Granted(s: State, ops: seq<Op>): seq<Op>
    requires Inv(s) && Legal(s, ops)
    decreases |ops|
  {
    if ops == [] then []
    else
      StepKeepsInv(s, ops[0]);
      var o := Step(s, ops[0]);
      (if o.reply.AllocError? then [] else [ops[0]]) + Granted(o.s, ops[1..])
  }

  /** Refused requests could as well never have been made: leaving them out changes nothing. */
  lemma {:induction false} RefusedCallsLeaveNoTrace(s: State, ops: seq<Op>)
    requires Inv(s) && Legal(s, ops)
    ensures Legal(s, Granted(s, ops)) && Run(s, Granted(s, ops)) == Run(s, ops)
    decreases |ops|
  {
    if ops == [] {
    } else {
      StepKeepsInv(s, ops[0]);
      var o := Step(s, ops[0]);
      RefusedCallsLeaveNoTrace(o.s, ops[1..]);
      if o.reply.AllocError? {
        Exactness.RefusalChangesNothing(s, ops[0]);
        assert Granted(s, ops) == Granted(o.s, ops[1..]);
      } else {
        assert Granted(s, ops)[1..] == Granted(o.s, ops[1..]);
      }
    }
  }

  // Noninterference

  // Equal but for what the blocks hold
  ghost predicate SameButData(s: State, t: State) {
    s.page == t.page && s.bytes == t.bytes && s.top == t.top && s.live == t.live
  }

  ghost predicate SameOp(a: Op, b: Op) {
    a == b || (a.WriteOp? && b.WriteOp? && a.ptr == b.ptr && a.at == b.at && |a.data| == |b.data|)
  }

  ghost predicate SameOps(a: seq<Op>, b: seq<Op>) {
    |a| == |b| && forall i :: 0 <= i < |a| ==> SameOp(a[i], b[i])
  }

  lemma AllocateIgnoresData(s: State, t: State, layout: Layout)
    requires SameButData(s, t)
    ensures Allocate(s, layout).reply == Allocate(t, layout).reply
    ensures SameButData(Allocate(s, layout).s, Allocate(t, layout).s)
  {
    assert Place(s, layout.align) == Place(t, layout.align);
  }

  lemma MoveIgnoresData(s: State, t: State, ptr: nat, oldLayout: Layout, newLayout: Layout, n: nat)
    requires Sized(s) && Sized(t) && SameButData(s, t) && Fits(s.live, ptr, oldLayout)
    requires ptr in s.live ==> ptr < s.page.base + s.top
    requires n <= oldLayout.size && n <= newLayout.size
    ensures var x, y := Move(s, ptr, oldLayout, newLayout, n), Move(t, ptr, oldLayout, newLayout, n);
            x.reply == y.reply && SameButData(x.s, y.s)
  {
    AllocateIgnoresData(s, t, newLayout);
  }

  lemma GrowIgnoresData(s: State, t: State, ptr: nat, oldLayout: Layout, newLayout: Layout)
    requires Inv(s) && Inv(t) && SameButData(s, t) && GrowOk(s, ptr, oldLayout, newLayout)
    ensures var x, y := Grow(s, ptr, oldLayout, newLayout), Grow(t, ptr, oldLayout, newLayout);
            x.reply == y.reply && SameButData(x.s, y.s)
    ensures var x, y := ReallocGrow(s, ptr, oldLayout, newLayout), ReallocGrow(t, ptr, oldLayout, newLayout);
            x.reply == y.reply && SameButData(x.s, y.s)
  {
    InvSized(s, ptr);
    InvSized(t, ptr);
    AllocateIgnoresData(s, t, newLayout);
    MoveIgnoresData(s, t, ptr, oldLayout, newLayout, oldLayout.size);
  }

  lemma ShrinkIgnoresData(s: State, t: State, ptr: nat, oldLayout: Layout, newLayout: Layout)
    requires Inv(s) && Inv(t) && SameButData(s, t) && ShrinkOk(s, ptr, oldLayout, newLayout)
    ensures var x, y := Shrink(s, ptr, oldLayout, newLayout), Shrink(t, ptr, oldLayout, newLayout);
            x.reply == y.reply && SameButData(x.s, y.s)
    ensures var x, y := ReallocShrink(s, ptr, oldLayout, newLayout), ReallocShrink(t, ptr, oldLayout, newLayout);
            x.reply == y.reply && SameButData(x.s, y.s)
  {
    InvSized(s, ptr);
    InvSized(t, ptr);
    MoveIgnoresData(s, t, ptr, oldLayout, newLayout, newLayout.size);
  }

  lemma StepIgnoresData(s: State, t: State, a: Op, b: Op)
    requires Inv(s) && Inv(t) && SameButData(s, t) && SameOp(a, b) && Permitted(s, a)
    ensures Permitted(t, b)
    ensures Step(s, a).reply == Step(t, b).reply
    ensures SameButData(Step(s, a).s, Step(t, b).s)
  {
    match a
    case AllocateOp(layout) => AllocateIgnoresData(s, t, layout);
    case DeallocateOp(ptr, layout) =>
    case GrowOp(ptr, oldLayout, newLayout) => GrowIgnoresData(s, t, ptr, oldLayout, newLayout);
    case ShrinkOp(ptr, oldLayout, newLayout) => ShrinkIgnoresData(s, t, ptr, oldLayout, newLayout);
    case ReallocGrowOp(ptr, oldLayout, newLayout) => GrowIgnoresData(s, t, ptr, oldLayout, newLayout);
    case ReallocShrinkOp(ptr, oldLayout, newLayout) => ShrinkIgnoresData(s, t, ptr, oldLayout, newLayout);
    case WriteOp(ptr, at, data) =>
  }

  lemma {:induction false} RunIgnoresData(s: State, t: State, a: seq<Op>, b: seq<Op>)
    requires Inv(s) && Inv(t) && SameButData(s, t) && SameOps(a, b) && Legal(s, a)
    ensures Legal(t, b) && Replies(s, a) == Replies(t, b)
    ensures SameButData(Run(s, a), Run(t, b))
    decreases |a|
  {
    if a == [] {
    } else {
      assert SameOp(a[0], b[0]);
      StepIgnoresData(s, t, a[0], b[0]);
      StepKeepsInv(s, a[0]);
      StepKeepsInv(t, b[0]);
      assert SameOps(a[1..], b[1..]);
      RunIgnoresData(Step(s, a[0]).s, Step(t, b[0]).s, a[1..], b[1..]);
    }
  }

  // Nothing outside the blocks of the one tells it from the other
  ghost predicate SameFromOutside(x: State, y: State) {
    && SameButData(x, y)
    && |x.mem| == |y.mem|
    && (forall i :: 0 <= i < |x.mem| && !Covered(x.live, x.page.base + i) ==> x.mem[i] == y.mem[i])
    && (x.live == map[] ==> x == y)
  }

  lemma FreeMemoryIsSame(x: State, y: State)
    requires Inv(x) && Inv(y) && SameButData(x, y)
    ensures SameFromOutside(x, y)
  {
    if x.live == map[] {
      EmptyIsInitial(x);
      EmptyIsInitial(y);
    }
  }

  /**
   What clients store shows nowhere but in their own live blocks. Two runs that differ only in the
   bytes written get the same replies, and end with the same books and the same free memory; once
   all blocks are freed the two allocators are identical.
   */
  lemma StoredDataDoesNotLeak(s: State, a: seq<Op>, b: seq<Op>)
    requires Inv(s) && SameOps(a, b) && Legal(s, a)
    ensures Legal(s, b) && Replies(s, a) == Replies(s, b)
    ensures SameFromOutside(Run(s, a), Run(s, b))
  {
    RunIgnoresData(s, s, a, b);
    RunKeepsInv(s, a);
    RunKeepsInv(s, b);
    FreeMemoryIsSame(Run(s, a), Run(s, b));
  }
}
