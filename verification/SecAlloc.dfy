/**
 `SecStackSinglePageAlloc` of `src/sec_alloc.rs`. The counters and the page are updated in place as
 in the source; `live` is the ghost set of live blocks. Every method computes the function of the
 same name in `PageSpec` and keeps the invariant. `Add` and `Sub` carry the proof that no machine
 addition or subtraction leaves the word range.
 */
module SecAlloc {
  import opened Memory
  import opened PageState
  import opened Usize
  import opened Util
  import opened Zeroize
  import opened Invariant
  import opened PageArithmetic
  import opened TopOfStack
  import PageSpec

  class SecStackSinglePageAlloc {
    const page: Page
    const mem: array<Byte>
    var bytes: nat
    var stackOffset: nat
    ghost var live: Blocks

    ghost function Abs(): State
      reads this, mem
    {
      State(page, bytes, stackOffset, mem[..], live)
    }

    ghost predicate Valid()
      reads this, mem
    {
      page.Valid() && Inv(Abs())
    }

    /** The allocator over a freshly mapped, zero-filled page. */
    constructor (page: Page)
      requires page.Valid()
      ensures Valid() && fresh(mem)
      ensures Abs() == Initial(page)
    {
      this.page := page;
      mem := new Byte[page.size](_ => 0);
      bytes := 0;
      stackOffset := 0;
      live := map[];
      new;
      assert mem[..] == Zeros(page.size);
      InitialInv(page);
    }

    /**
     Whether the block at `ptr` is the last allocation. `roundedSize` is any multiple of 8 that fits
     it. `s` is the allocator as it was before the call that asks: one that has changed its counter or
     its bytes since then still finds the same stack top.
     */
    method PtrIsLastAllocation(ptr: nat, roundedSize: nat, ghost s: State) returns (last: bool)
      requires page.Valid() && s.page == page && s.top == stackOffset && Inv(s) && ptr in s.live
      requires s.live[ptr].requested <= roundedSize <= s.live[ptr].size && roundedSize % 8 == 0
      ensures last ==> Topmost(s.live, ptr)
      ensures last <==> Topmost(s.live, ptr) && Snug(s)
      ensures last <==> PageSpec.EndsAtTop(s, ptr)
    {
      EndsBelowTop(s, ptr);
      LastIffTopmost(s, ptr);
      assert roundedSize == s.live[ptr].size by { MultipleThatFits(s.live[ptr], roundedSize); }
      assert IsWord(page.bits, page.base + page.size) by { PageWords(page); }
      var allocStartOffset := LargeOffsetFrom(ptr, page.base);
      var allocEndOffset := Add(page.bits, allocStartOffset, roundedSize);
      last := allocEndOffset == stackOffset;
    }

    method AllocateZerosized(align: nat) returns (r: Reply)
      requires IsPowerOfTwo(align)
      ensures r == Ok(align, 0)
    {
      r := Ok(align, 0);
    }

    // The search of the slower path: where a block with an alignment above 8 goes, if it fits
    method NextAligned(stackPtr: nat, layout: Layout, roundedReqSize: nat) returns (fits: bool, ptr: nat)
      requires Valid() && layout.Valid(page.bits) && 0 < layout.size && 8 < layout.align
      requires stackPtr == page.base + stackOffset && roundedReqSize == Round8(layout.size)
      ensures fits <==> PageSpec.HasRoom(Abs(), layout)
      ensures fits ==> ptr == PageSpec.Place(Abs(), layout.align)
    {
      HighAlignPlace(Abs(), layout);
      PageSpec.PlaceAboveTop(Abs(), layout.align);
      ptr := AlignUpPtrMut(page.bits, stackPtr, layout.align);
      if ptr == NULL {
        return false, ptr;
      }
      var nextAlignPageoffset := LargeOffsetFrom(ptr, page.base);
      if nextAlignPageoffset >= page.size {
        return false, ptr;
      }
      fits := roundedReqSize <= Sub(page.size, nextAlignPageoffset);
    }

    // Both paths end by taking `[ptr, ptr + roundedReqSize)`
    method Take(ptr: nat, layout: Layout, roundedReqSize: nat)
      requires page.base <= ptr && roundedReqSize == Round8(layout.size)
      requires IsWord(page.bits, ptr + roundedReqSize) && IsWord(page.bits, bytes + roundedReqSize)
      modifies this
      ensures Abs() == PageSpec.AllocateAt(old(Abs()), ptr, BlockFor(layout))
    {
      stackOffset := Add(page.bits, LargeOffsetFrom(ptr, page.base), roundedReqSize);
      bytes := Add(page.bits, bytes, roundedReqSize);
      live := live[ptr := BlockFor(layout)];
    }

    method AllocateZeroed(layout: Layout) returns (r: Reply)
      requires Valid() && layout.Valid(page.bits)
      modifies this
      ensures Valid()
      ensures PageSpec.Outcome(Abs(), r) == PageSpec.Allocate(old(Abs()), layout)
    {
      ghost var s := Abs();
      if layout.size == 0 {
        r := AllocateZerosized(layout.align);
        return;
      }
      assert IsWord(page.bits, 8) && IsWord(page.bits, page.base + page.size) by { PageWords(page); }
      assert IsPowerOfTwo(8) by { EightIsPower(); }
      var roundedReqSize := BitAnd(WrappingAdd(page.bits, layout.size, 7), BitNot(page.bits, 7));
      assert roundedReqSize == AlignUpUsize(page.bits, layout.size, 8);
      if roundedReqSize == 0 {
        TooLarge(s, layout);
        return AllocError;
      }
      if roundedReqSize > Sub(page.size, stackOffset) {
        TooLarge(s, layout);
        return AllocError;
      }
      assert roundedReqSize == Round8(layout.size) by { TooLarge(s, layout); }
      assert bytes <= stackOffset by { BytesBelowTop(s); }
      var stackPtr := Add(page.bits, page.base, stackOffset);
      if layout.align <= 8 {
        assert layout.align in {1, 2, 4, 8} by { PowersUpTo8(layout.align); } // the debug assertion
        assert PageSpec.Place(s, layout.align) == stackPtr by { LowAlignPlace(s, layout); }
        Take(stackPtr, layout, roundedReqSize);
        r := Ok(stackPtr, roundedReqSize);
      } else {
        var fits, nextAlignedPtr := NextAligned(stackPtr, layout, roundedReqSize);
        if !fits {
          return AllocError;
        }
        PageSpec.PlaceAboveTop(s, layout.align);
        Take(nextAlignedPtr, layout, roundedReqSize);
        r := Ok(nextAlignedPtr, roundedReqSize);
      }
      AllocateKeepsInv(s, layout);
    }

    method Allocate(layout: Layout) returns (r: Reply)
      requires Valid() && layout.Valid(page.bits)
      modifies this
      ensures Valid()
      ensures PageSpec.Outcome(Abs(), r) == PageSpec.Allocate(old(Abs()), layout)
    {
      r := AllocateZeroed(layout);
    }

    // `align_up_usize(size, 8)`
    method RoundUp(size: nat) returns (n: nat)
      requires page.Valid() && IsWord(page.bits, size)
      ensures n == if IsWord(page.bits, Round8(size)) then Round8(size) else 0
    {
      PageWords(page);
      RoundedRequest(page.bits, size);
      n := AlignUpUsize(page.bits, size, 8);
    }

    // The same for a layout that fits a live block: it gives the size of the block
    method RoundUpFitting(ptr: nat, layout: Layout) returns (n: nat)
      requires Valid() && Fits(live, ptr, layout) && layout.size > 0
      ensures n == live[ptr].size
    {
      FittingRounds(Abs(), ptr, layout);
      n := AlignUpUsize(page.bits, layout.size, 8);
    }

    method Deallocate(ptr: nat, layout: Layout)
      requires Valid() && Fits(live, ptr, layout)
      modifies this, mem
      ensures Valid()
      ensures old(PageSpec.Sized(Abs())) && Abs() == old(PageSpec.Deallocate(Abs(), ptr, layout))
    {
      ghost var s := Abs();
      assert PageSpec.Sized(s) by { PageSpec.InvSized(s, ptr); }
      if layout.size == 0 {
        return;
      }
      assert page.base <= ptr && ptr + live[ptr].size <= page.base + stackOffset by { EndsBelowTop(s, ptr); }
      assert IsWord(page.bits, page.base + page.size) by { PageWords(page); }
      assert page.base <= ptr <= Add(page.bits, page.base, stackOffset); // the debug preconditions
      var roundedReqSize := RoundUpFitting(ptr, layout);
      ghost var t := PageSpec.Release(s, ptr);
      ZeroizeMem(page.bits, mem, page.base, ptr, roundedReqSize);
      assert mem[..] == t.mem;
      LastBlockIffNoBytes(s, ptr);
      bytes := Sub(bytes, roundedReqSize);
      live := live - {ptr};
      if bytes == 0 {
        stackOffset := 0;
      } else {
        var allocStartOffset := LargeOffsetFrom(ptr, page.base);
        var allocEndOffset := Add(page.bits, allocStartOffset, roundedReqSize);
        if allocEndOffset == stackOffset {
          stackOffset := allocStartOffset;
        }
      }
      assert Abs() == t;
      ReleaseKeepsInv(s, ptr);
    }

    // Copy between disjoint ranges of the page, which takes the allocator to `t`
    method CopyRange(src: nat, dst: nat, n: nat, ghost t: State)
      requires mem.Length == page.size
      requires page.base <= src && src + n <= page.base + page.size
      requires page.base <= dst && dst + n <= page.base + page.size
      requires src + n <= dst || dst + n <= src
      requires var s, from := Abs(), src - page.base;
               t == s.(mem := Blit(s.mem, dst - page.base, s.mem[from..from + n]))
      modifies mem
      ensures Abs() == t
    {
      CopyNonoverlapping(mem, page.base, src, dst, n);
      assert mem[..] == t.mem;
    }

    // Copy between two blocks. As both are live they do not overlap.
    method CopyBlock(src: nat, dst: nat, n: nat)
      requires Valid() && src in live && dst in live && src != dst
      requires 0 < n <= live[src].size && n <= live[dst].size
      modifies mem
      ensures Valid()
      ensures old(PageSpec.Sized(Abs())) && Abs() == old(PageSpec.Copy(Abs(), src, dst, n))
    {
      ghost var s := Abs();
      BlocksApart(s, src, dst);
      CopyKeepsInv(s, src, dst, n);
      CopyRange(src, dst, n, PageSpec.Copy(s, src, dst, n));
    }

    // Copy into the block at `dst` and free the one at `ptr`: how both reallocations end. Copying
    // nothing is a no-op, whatever the pointers.
    method Transfer(ptr: nat, layout: Layout, dst: nat, n: nat)
      requires Valid() && Fits(live, ptr, layout) && n <= layout.size
      requires n > 0 ==> dst in live && n <= live[dst].size && dst != ptr
      modifies this, mem
      ensures Valid()
      ensures old(PageSpec.Sized(Abs())) && Abs() == old(PageSpec.Transfer(Abs(), ptr, layout, dst, n))
    {
      assert PageSpec.Sized(Abs()) by { PageSpec.InvSized(Abs(), ptr); }
      if n > 0 {
        CopyBlock(ptr, dst, n);
      }
      Deallocate(ptr, layout);
    }

    method ReallocShrink(ptr: nat, oldLayout: Layout, newLayout: Layout) returns (r: Reply)
      requires Valid() && PageSpec.ShrinkOk(Abs(), ptr, oldLayout, newLayout)
      modifies this, mem
      ensures Valid()
      ensures old(Inv(Abs()) && PageSpec.ShrinkOk(Abs(), ptr, oldLayout, newLayout))
      ensures PageSpec.Outcome(Abs(), r) == old(PageSpec.ReallocShrink(Abs(), ptr, oldLayout, newLayout))
    {
      ghost var s := Abs();
      PageSpec.InvSized(s, ptr);
      PageSpec.PlaceAboveTop(s, newLayout.align);
      r := Allocate(newLayout);
      if r == AllocError {
        return;
      }
      Transfer(ptr, oldLayout, r.ptr, newLayout.size);
    }

    method ReallocGrow(ptr: nat, oldLayout: Layout, newLayout: Layout) returns (r: Reply)
      requires Valid() && PageSpec.GrowOk(Abs(), ptr, oldLayout, newLayout)
      modifies this, mem
      ensures Valid()
      ensures old(Inv(Abs()) && PageSpec.GrowOk(Abs(), ptr, oldLayout, newLayout))
      ensures PageSpec.Outcome(Abs(), r) == old(PageSpec.ReallocGrow(Abs(), ptr, oldLayout, newLayout))
    {
      ghost var s := Abs();
      PageSpec.InvSized(s, ptr);
      PageSpec.PlaceAboveTop(s, newLayout.align);
      r := Allocate(newLayout);
      if r == AllocError {
        return;
      }
      Transfer(ptr, oldLayout, r.ptr, oldLayout.size);
    }

    // The in-place branch of `Shrink`
    method ShrinkInPlace(ptr: nat, oldLayout: Layout, newLayout: Layout) returns (r: Reply)
      requires Valid() && Fits(live, ptr, oldLayout) && 0 < newLayout.size <= oldLayout.size
      modifies this, mem
      ensures Valid()
      ensures old(ptr in live && PageSpec.Sized(Abs()) && BlockFor(newLayout).size <= live[ptr].size)
      ensures Abs() == old(PageSpec.Trim(Abs(), ptr, BlockFor(newLayout)))
      ensures r == Ok(ptr, Round8(newLayout.size))
    {
      ghost var s := Abs();
      assert page.base <= ptr && ptr + live[ptr].size <= page.base + stackOffset by { EndsBelowTop(s, ptr); }
      assert IsWord(page.bits, page.base + page.size) by { PageWords(page); }
      assert page.base <= ptr <= Add(page.bits, page.base, stackOffset); // the debug preconditions
      var roundedSize := RoundUpFitting(ptr, oldLayout);
      assert Round8(newLayout.size) <= roundedSize by { PageSpec.RoundedFits(s, ptr, oldLayout, newLayout); }
      var newRoundedSize := RoundUp(newLayout.size);
      var newAllocEnd := Add(page.bits, ptr, newRoundedSize);
      var sizeDecrease := Sub(roundedSize, newRoundedSize);
      assert PageSpec.Sized(s) by { PageSpec.InvSized(s, ptr); }
      ghost var t := PageSpec.Trim(s, ptr, BlockFor(newLayout));
      ZeroizeMem(page.bits, mem, page.base, newAllocEnd, sizeDecrease);
      assert mem[..] == t.mem;
      assert sizeDecrease <= bytes by { BytesBelowTop(s); }
      bytes := Sub(bytes, sizeDecrease);
      var last := PtrIsLastAllocation(ptr, roundedSize, s);
      if last {
        stackOffset := Sub(stackOffset, sizeDecrease);
      }
      live := live[ptr := BlockFor(newLayout)];
      assert Abs() == t;
      BlockForIsGood(newLayout);
      TrimKeepsInv(s, ptr, BlockFor(newLayout));
      r := Ok(ptr, newRoundedSize);
    }

    method Shrink(ptr: nat, oldLayout: Layout, newLayout: Layout) returns (r: Reply)
      requires Valid() && PageSpec.ShrinkOk(Abs(), ptr, oldLayout, newLayout)
      modifies this, mem
      ensures Valid()
      ensures old(Inv(Abs()) && PageSpec.ShrinkOk(Abs(), ptr, oldLayout, newLayout))
      ensures PageSpec.Outcome(Abs(), r) == old(PageSpec.Shrink(Abs(), ptr, oldLayout, newLayout))
    {
      if newLayout.size == 0 {
        Deallocate(ptr, oldLayout);
        r := AllocateZerosized(newLayout.align);
      } else if IsAlignedPtr(ptr, newLayout.align) {
        r := ShrinkInPlace(ptr, oldLayout, newLayout);
      } else {
        r := ReallocShrink(ptr, oldLayout, newLayout);
      }
    }

    method GrowZeroed(ptr: nat, oldLayout: Layout, newLayout: Layout) returns (r: Reply)
      requires Valid() && PageSpec.GrowOk(Abs(), ptr, oldLayout, newLayout)
      modifies this, mem
      ensures Valid()
      ensures old(Inv(Abs()) && PageSpec.GrowOk(Abs(), ptr, oldLayout, newLayout))
      ensures PageSpec.Outcome(Abs(), r) == old(PageSpec.Grow(Abs(), ptr, oldLayout, newLayout))
    {
      ghost var s := Abs();
      if oldLayout.size == 0 {
        r := Allocate(newLayout);
        return;
      }
      assert page.base <= ptr && ptr + live[ptr].size <= page.base + stackOffset && GoodBlock(live[ptr]) by {
        EndsBelowTop(s, ptr);
      }
      assert IsWord(page.bits, page.base + page.size) by { PageWords(page); }
      assert page.base <= ptr <= Add(page.bits, page.base, stackOffset); // the debug preconditions
      if IsAlignedPtr(ptr, newLayout.align) {
        var roundedSize := RoundUpFitting(ptr, oldLayout);
        var last := PtrIsLastAllocation(ptr, roundedSize, s);
        if last {
          assert roundedSize <= Round8(newLayout.size) by { RoundedAbove(s.live[ptr], newLayout.size); }
          var newRoundedSize := RoundUp(newLayout.size);
          if newRoundedSize == 0 {
            EarlyErrorLosesNothing(s, ptr, oldLayout, newLayout);
            return AllocError;
          }
          var allocStartOffset := LargeOffsetFrom(ptr, page.base);
          if newRoundedSize > Sub(page.size, allocStartOffset) {
            EarlyErrorLosesNothing(s, ptr, oldLayout, newLayout);
            return AllocError;
          }
          var sizeIncrease := Sub(newRoundedSize, roundedSize);
          assert bytes <= stackOffset by { BytesBelowTop(s); }
          bytes := Add(page.bits, bytes, sizeIncrease);
          stackOffset := Add(page.bits, stackOffset, sizeIncrease);
          live := live[ptr := BlockFor(newLayout)];
          assert Abs() == PageSpec.Extend(s, ptr, BlockFor(newLayout));
          GrowKeepsInv(s, ptr, oldLayout, newLayout);
          return Ok(ptr, newRoundedSize);
        }
      }
      r := ReallocGrow(ptr, oldLayout, newLayout);
    }

    method Grow(ptr: nat, oldLayout: Layout, newLayout: Layout) returns (r: Reply)
      requires Valid() && PageSpec.GrowOk(Abs(), ptr, oldLayout, newLayout)
      modifies this, mem
      ensures Valid()
      ensures old(Inv(Abs()) && PageSpec.GrowOk(Abs(), ptr, oldLayout, newLayout))
      ensures PageSpec.Outcome(Abs(), r) == old(PageSpec.Grow(Abs(), ptr, oldLayout, newLayout))
    {
      r := GrowZeroed(ptr, oldLayout, newLayout);
    }

    // The test-only self check
    method ConsistencyCheck() returns (ok: bool)
      ensures ok <==> Consistent(Abs())
    {
      EightIsPower();
      ok := stackOffset % 8 == 0
         && stackOffset <= page.size
         && IsAlignedPtr(page.base, 8)
         && bytes <= stackOffset
         && bytes % 8 == 0;
    }

    /** The debug check on drop: abort on allocated bytes or on a byte that is not zero. */
    method Drop() returns (aborts: bool)
      requires mem.Length == page.size
      ensures aborts <==> DropAborts(Abs())
      ensures bytes != 0 ==> aborts
      ensures bytes == 0 ==> (aborts <==> exists i :: 0 <= i < mem.Length && mem[i] != 0)
    {
      if bytes != 0 {
        return true;
      }
      for offset := 0 to page.size
        invariant forall i :: 0 <= i < offset ==> mem[i] == 0
      {
        if mem[offset] != 0 {
          assert Abs().mem[offset] != 0;
          return true;
        }
      }
      return false;
    }
  }
}
