/** When requests succeed, where blocks go, what a refusal costs, and what rewinding can rely on. */
module Exactness {
  import opened Memory
  import opened PageState
  import opened PageSpec
  import opened Invariant
  import opened Runs
  import opened TopOfStack
  import opened Usize
  import Refinement

  // Address `a` is suitably aligned, free, and has `n` bytes of page above it
  ghost predicate Candidate(s: State, layout: Layout, a: nat)
    requires layout.align > 0
  {
    Suitable(s, layout.align, a) && a + Round8(layout.size) <= s.page.base + s.page.size
  }

  // What a request for a new block gets: a dangling pointer for no bytes, and otherwise the lowest
  // candidate, or a refusal exactly when there is none
  ghost predicate Exact(s: State, layout: Layout, reply: Reply)
    requires layout.align > 0
  {
    if layout.size == 0 then
      reply == Ok(layout.align, 0)
    else if forall a: nat :: !Candidate(s, layout, a) then
      reply == AllocError
    else
      && reply.Ok?
      && reply.len == Round8(layout.size)
      && Candidate(s, layout, reply.ptr)
      && forall a: nat :: Candidate(s, layout, a) ==> reply.ptr <= a
  }

  /**
   Allocation is exact: it refuses exactly when memory is asked for and no suitable address at or
   above the stack pointer leaves room for the rounded size. Otherwise it grants the lowest one.
   */
  lemma AllocateIsExact(s: State, layout: Layout)
    requires layout.Valid(s.page.bits)
    ensures layout.align > 0
    ensures Exact(s, layout, Allocate(s, layout).reply)
    ensures Allocate(s, layout).reply.AllocError?
       <==> layout.size > 0 && forall a: nat :: !Candidate(s, layout, a)
  {
    PlaceIsLowest(s, layout.align);
    if HasRoom(s, layout) {
      assert Candidate(s, layout, Place(s, layout.align));
    } else {
      forall a: nat ensures !Candidate(s, layout, a) {
        assert Suitable(s, layout.align, a) ==> Place(s, layout.align) <= a;
      }
    }
  }

  /** The forced reallocations are as exact: they never reuse the block, and fail only for want of room. */
  lemma ReallocGrowIsExact(s: State, ptr: nat, oldLayout: Layout, newLayout: Layout)
    requires Inv(s) && GrowOk(s, ptr, oldLayout, newLayout)
    ensures newLayout.align > 0
    ensures Exact(s, newLayout, ReallocGrow(s, ptr, oldLayout, newLayout).reply)
    ensures ReallocGrow(s, ptr, oldLayout, newLayout).reply.AllocError?
       <==> newLayout.size > 0 && forall a: nat :: !Candidate(s, newLayout, a)
  {
    AllocateIsExact(s, newLayout);
  }

  lemma ReallocShrinkIsExact(s: State, ptr: nat, oldLayout: Layout, newLayout: Layout)
    requires Inv(s) && ShrinkOk(s, ptr, oldLayout, newLayout)
    ensures newLayout.align > 0
    ensures Exact(s, newLayout, ReallocShrink(s, ptr, oldLayout, newLayout).reply)
    ensures ReallocShrink(s, ptr, oldLayout, newLayout).reply.AllocError?
       <==> newLayout.size > 0 && forall a: nat :: !Candidate(s, newLayout, a)
  {
    AllocateIsExact(s, newLayout);
  }

  /**
   Growing keeps the pointer exactly when the block is the highest, the stack top is not stale, the
   pointer meets the new alignment, and the page has room above it. Otherwise it is as exact as an
   allocation.
   */
  lemma GrowIsExact(s: State, ptr: nat, oldLayout: Layout, newLayout: Layout)
    requires Inv(s) && GrowOk(s, ptr, oldLayout, newLayout)
    ensures newLayout.align > 0
    ensures var reply := Grow(s, ptr, oldLayout, newLayout).reply;
            var stays := oldLayout.size > 0 && reply == Ok(ptr, Round8(newLayout.size));
            && (stays <==>
                && oldLayout.size > 0
                && ptr % newLayout.align == 0
                && Topmost(s.live, ptr)
                && Snug(s)
                && ptr + Round8(newLayout.size) <= s.page.base + s.page.size)
            && (!stays ==> Exact(s, newLayout, reply))
  {
    AllocateIsExact(s, newLayout);
    if oldLayout.size > 0 {
      LastIffTopmost(s, ptr);
      InvSized(s, ptr);
      PlaceAboveTop(s, newLayout.align);
    }
  }

  /**
   Growing fails exactly when memory is asked for, the block, if there is one, cannot stay where it
   is, and no new block fits.
   */
  lemma GrowFailsIff(s: State, ptr: nat, oldLayout: Layout, newLayout: Layout)
    requires Inv(s) && GrowOk(s, ptr, oldLayout, newLayout)
    ensures newLayout.align > 0
    ensures Grow(s, ptr, oldLayout, newLayout).reply.AllocError?
       <==> && newLayout.size > 0
            && !(&& oldLayout.size > 0
                 && ptr % newLayout.align == 0
                 && Topmost(s.live, ptr)
                 && Snug(s)
                 && ptr + Round8(newLayout.size) <= s.page.base + s.page.size)
            && forall a: nat :: !Candidate(s, newLayout, a)
  {
    GrowIsExact(s, ptr, oldLayout, newLayout);
  }

  /**
   Shrinking to some bytes keeps the pointer exactly when it meets the new alignment, wherever in the
   page the block is. Otherwise it is as exact as an allocation.
   */
  lemma ShrinkIsExact(s: State, ptr: nat, oldLayout: Layout, newLayout: Layout)
    requires Inv(s) && ShrinkOk(s, ptr, oldLayout, newLayout)
    ensures newLayout.align > 0
    ensures var reply := Shrink(s, ptr, oldLayout, newLayout).reply;
            var stays := newLayout.size > 0 && reply == Ok(ptr, Round8(newLayout.size));
            && (stays <==> newLayout.size > 0 && ptr % newLayout.align == 0)
            && (!stays ==> Exact(s, newLayout, reply))
  {
    AllocateIsExact(s, newLayout);
    InvSized(s, ptr);
    PlaceAboveTop(s, newLayout.align);
  }

  /** Shrinking fails only for want of alignment, and then exactly when no new block fits. */
  lemma ShrinkFailsIff(s: State, ptr: nat, oldLayout: Layout, newLayout: Layout)
    requires Inv(s) && ShrinkOk(s, ptr, oldLayout, newLayout)
    ensures newLayout.align > 0
    ensures Shrink(s, ptr, oldLayout, newLayout).reply.AllocError?
       <==> newLayout.size > 0 && ptr % newLayout.align != 0 && forall a: nat :: !Candidate(s, newLayout, a)
  {
    ShrinkIsExact(s, ptr, oldLayout, newLayout);
  }

  // What a call asks for, when it asks for memory
  function Requested(op: Op): seq<Layout> {
    match op
    case AllocateOp(layout) => [layout]
    case GrowOp(_, _, newLayout) => [newLayout]
    case ShrinkOp(_, _, newLayout) => [newLayout]
    case ReallocGrowOp(_, _, newLayout) => [newLayout]
    case ReallocShrinkOp(_, _, newLayout) => [newLayout]
    case DeallocateOp(_, _) => []
    case WriteOp(_, _, _) => []
  }

  // The block a call gives up when it asks for no bytes
  ghost function WithoutOld(s: State, op: Op): State
    requires Sized(s) && Permitted(s, op)
  {
    match op
    case ShrinkOp(ptr, oldLayout, _) => Deallocate(s, ptr, oldLayout)
    case ReallocShrinkOp(ptr, oldLayout, _) => Deallocate(s, ptr, oldLayout)
    case _ => s
  }

  /**
   A zero-sized request is never refused, although the documentation says so: it is answered by a
   dangling pointer, and does no more than free the block that is shrunk to nothing.
   */
  lemma ZeroSizeIsNeverRefused(s: State, op: Op)
    requires Inv(s) && Permitted(s, op) && Requested(op) != [] && Requested(op)[0].size == 0
    ensures Sized(s)
    ensures Step(s, op) == Outcome(WithoutOld(s, op), Ok(Requested(op)[0].align, 0))
  {
    InvSized(s, 0);
  }

  /** A refused request changes nothing, through every nested call. */
  lemma RefusalChangesNothing(s: State, op: Op)
    requires Inv(s) && Permitted(s, op)
    ensures Step(s, op).reply.AllocError? ==> Step(s, op).s == s
  {
  }

  // The leak of an allocate-free pair

  // Freeing what was just allocated
  ghost function AllocateFree(s: State, layout: Layout): State
    requires Inv(s) && layout.Valid(s.page.bits) && layout.size > 0 && HasRoom(s, layout)
  {
    AllocateKeepsInv(s, layout);
    var a := Allocate(s, layout);
    InvSized(a.s, a.reply.ptr);
    Release(a.s, a.reply.ptr)
  }

  // Zeroing free memory changes nothing
  lemma RezeroingIsIdentity(s: State, p: nat, n: nat)
    requires Inv(s) && s.page.base + s.top <= p && p + n <= s.page.base + s.page.size
    ensures Blit(s.mem, p - s.page.base, Zeros(n)) == s.mem
  {
    var at := p - s.page.base;
    Refinement.FreeSpaceIsZero(s, p, n);
    forall i | at <= i < at + n ensures s.mem[i] == 0 {
      assert s.mem[i] == s.mem[at..at + n][i - at];
    }
  }

  lemma AllocateFreeResult(s: State, layout: Layout)
    requires Inv(s) && layout.Valid(s.page.bits) && layout.size > 0 && HasRoom(s, layout)
    ensures AllocateFree(s, layout)
         == s.(top := if s.live == map[] then 0 else Place(s, layout.align) - s.page.base)
  {
    var p := Place(s, layout.align);
    PlaceAboveTop(s, layout.align);
    RezeroingIsIdentity(s, p, Round8(layout.size));
    assert p !in s.live by { InvSized(s, p); }
    assert s.live[p := BlockFor(layout)] - {p} == s.live;
  }

  // Rounding a multiple of 8 up to a larger power of two skips at most `d - 8`
  lemma SkipBound(x: nat, d: nat)
    requires IsPowerOfTwo(d) && 8 <= d && x % 8 == 0
    ensures d % 8 == 0 && CeilMultiple(x, d) <= x + d - 8
  {
    EightIsPower();
    PowersDivide(8, d);
    ModTransitive(x, d, 8);
    assert x % d == 0 || x % d >= 8;
  }

  /**
   Allocating and freeing at once restores everything but the stack top, and that too when the
   alignment is at most 8 or nothing else is live. Otherwise the top rises by at most `align - 8`.
   */
  lemma LeakBound(s: State, layout: Layout)
    requires Inv(s) && layout.Valid(s.page.bits) && layout.size > 0 && HasRoom(s, layout)
    ensures var t := AllocateFree(s, layout);
            && t == s.(top := t.top)
            && (layout.align <= 8 || s.live == map[] ==> t == s)
            && (layout.align > 8 ==> s.top <= t.top <= s.top + layout.align - 8)
  {
    AllocateFreeResult(s, layout);
    PlaceAboveTop(s, layout.align);
    EightSums(s.page.base, s.top);
    if layout.align > 8 { SkipBound(s.page.base + s.top, layout.align); }
  }

  lemma AllocateFreeKeepsInv(s: State, layout: Layout)
    requires Inv(s) && layout.Valid(s.page.bits) && layout.size > 0 && HasRoom(s, layout)
    ensures Inv(AllocateFree(s, layout)) && AllocateFree(s, layout).page == s.page
  {
    AllocateKeepsInv(s, layout);
    ReleaseKeepsInv(Allocate(s, layout).s, Allocate(s, layout).reply.ptr);
  }

  lemma CeilIdempotent(x: nat, d: nat)
    requires d > 0
    ensures CeilMultiple(CeilMultiple(x, d), d) == CeilMultiple(x, d)
  {
    CeilIsLeast(x, d);
  }

  // Once the stack top is aligned, the next block of that alignment starts there
  lemma PlaceAgain(s: State, t: State, align: nat)
    requires t.page == s.page && t.page.base + t.top == Place(s, align)
    ensures Place(t, align) == t.page.base + t.top
  {
    CeilIdempotent(s.page.base + s.top, if align <= 8 then 8 else align);
  }

  /**
   Repeating the pair with any layout of the same alignment leaks no more, and for the same layout
   there is room again.
   */
  lemma LeakHappensOnce(s: State, layout: Layout, again: Layout)
    requires Inv(s) && layout.Valid(s.page.bits) && layout.size > 0 && HasRoom(s, layout)
    requires again.Valid(s.page.bits) && again.size > 0 && again.align == layout.align
    ensures Inv(AllocateFree(s, layout)) && AllocateFree(s, layout).page == s.page
    ensures var t := AllocateFree(s, layout);
            HasRoom(t, layout) && (HasRoom(t, again) ==> AllocateFree(t, again) == t)
  {
    AllocateFreeKeepsInv(s, layout);
    var t := AllocateFree(s, layout);
    assert t == s.(top := t.top) && (s.live != map[] ==> t.page.base + t.top == Place(s, layout.align)) by {
      AllocateFreeResult(s, layout);
      PlaceAboveTop(s, layout.align);
    }
    if s.live != map[] { PlaceAgain(s, t, layout.align); }
    if HasRoom(t, again) { AllocateFreeResult(t, again); }
  }
}
