/** What the machine arithmetic of `SecAlloc` computes, in the terms of `PageSpec`. */
module PageArithmetic {
  import opened PageState
  import opened Usize
  import opened Util
  import opened Invariant
  import PageSpec

  /**
   When the block that ends at the stack top cannot grow in place for want of space, a fresh
   allocation would fail too: refusing at once is the same as trying to move.
   */
  lemma EarlyErrorLosesNothing(s: State, ptr: nat, oldLayout: Layout, newLayout: Layout)
    requires Inv(s) && PageSpec.GrowOk(s, ptr, oldLayout, newLayout) && oldLayout.size > 0
    requires PageSpec.EndsAtTop(s, ptr) && ptr + Round8(newLayout.size) > s.page.base + s.page.size
    ensures PageSpec.Allocate(s, newLayout) == PageSpec.Outcome(s, AllocError)
    ensures PageSpec.ReallocGrow(s, ptr, oldLayout, newLayout) == PageSpec.Outcome(s, AllocError)
    ensures PageSpec.Grow(s, ptr, oldLayout, newLayout) == PageSpec.Outcome(s, AllocError)
  {
    PageSpec.PlaceAboveTop(s, newLayout.align);
    EndsBelowTop(s, ptr);
  }

  // The rounded request, computed by masking, is 0 exactly when rounding leaves the word range
  lemma RoundedRequest(bits: nat, size: nat)
    requires IsWord(bits, size) && IsWord(bits, 8)
    ensures IsPowerOfTwo(8)
    ensures AlignUpUsize(bits, size, 8) == if IsWord(bits, Round8(size)) then Round8(size) else 0
  {
    EightIsPower();
    AlignUpIsCeil(bits, size, 8);
  }

  lemma PageWords(page: Page)
    requires page.Valid()
    ensures IsWord(page.bits, 8) && IsWord(page.bits, page.size) && page.base % 8 == 0
    ensures IsWord(page.bits, page.base + page.size)
  {
    PageAligned(page);
  }

  // When the rounded request is 0 or larger than what is left, there is no room
  lemma TooLarge(s: State, layout: Layout)
    requires Inv(s) && s.page.Valid() && layout.Valid(s.page.bits) && layout.size > 0
    ensures IsWord(s.page.bits, 8) && IsPowerOfTwo(8)
    ensures var n := AlignUpUsize(s.page.bits, layout.size, 8);
            if n == 0 || n > s.page.size - s.top then !PageSpec.HasRoom(s, layout) else n == Round8(layout.size)
  {
    PageWords(s.page);
    RoundedRequest(s.page.bits, layout.size);
    PageSpec.PlaceAboveTop(s, layout.align);
    BlockForIsGood(layout);
  }

  // At low alignments a block goes right at the stack top
  lemma LowAlignPlace(s: State, layout: Layout)
    requires Inv(s) && layout.align <= 8
    ensures PageSpec.Place(s, layout.align) == s.page.base + s.top
  {
    EightSums(s.page.base, s.top);
  }

  // At high alignments the aligned-up stack pointer is where the block goes, and null means no room
  lemma HighAlignPlace(s: State, layout: Layout)
    requires Inv(s) && s.page.Valid() && layout.Valid(s.page.bits) && 8 < layout.align
    ensures IsWord(s.page.bits, s.page.base + s.top)
    ensures var q := AlignUpPtrMut(s.page.bits, s.page.base + s.top, layout.align);
            if q == NULL then !PageSpec.HasRoom(s, layout) else q == PageSpec.Place(s, layout.align)
  {
    PageWords(s.page);
    AlignUpIsCeil(s.page.bits, s.page.base + s.top, layout.align);
  }

  // A fitting layout rounds to the size of the block
  lemma FittingRounds(s: State, ptr: nat, layout: Layout)
    requires Inv(s) && s.page.Valid() && Fits(s.live, ptr, layout) && layout.size > 0
    ensures IsWord(s.page.bits, layout.size) && IsWord(s.page.bits, 8) && IsPowerOfTwo(8)
    ensures ptr in s.live && AlignUpUsize(s.page.bits, layout.size, 8) == s.live[ptr].size
  {
    EndsBelowTop(s, ptr);
    PageWords(s.page);
    CeilOfBlock(s.live[ptr]);
    FittingSizesRoundAlike(s.page.bits, s.live[ptr].requested, layout.size);
  }

  lemma CeilOfBlock(b: Block)
    requires GoodBlock(b)
    ensures CeilMultiple(b.requested, 8) == b.size
  {
  }
}
