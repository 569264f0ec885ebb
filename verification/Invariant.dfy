/** The invariant is kept by every building block of every operation. */
module Invariant {
  import opened Maps
  import opened Memory
  import opened PageState
  import opened PageSpec
  import opened Usize

  lemma InitialInv(page: Page)
    requires page.Valid()
    ensures Inv(Initial(page))
  {
    PageAligned(page);
    SumZeroIff(map[], page.base, page.size);
  }

  // An address is aligned to a power of two and to 8 exactly when it is aligned to the larger
  lemma AlignedBoth(a: nat, align: nat)
    requires IsPowerOfTwo(align)
    ensures align > 0
    ensures a % 8 == 0 && a % align == 0 <==> a % (if align <= 8 then 8 else align) == 0
  {
    EightIsPower();
    if align <= 8 {
      PowersDivide(align, 8);
      ModTransitive(a, 8, align);
    } else {
      PowersDivide(8, align);
      ModTransitive(a, align, 8);
    }
  }

  // Pages start on a multiple of 8
  lemma PageAligned(page: Page)
    requires page.Valid()
    ensures page.base % 8 == 0 && page.size % 8 == 0
  {
    EightIsPower();
    PowersDivide(8, page.size);
    ModTransitive(page.base, page.size, 8);
  }

  predicate Suitable(s: State, align: nat, a: nat)
    requires align > 0
  {
    a >= s.page.base + s.top && a % 8 == 0 && a % align == 0
  }

  /** `Place` is the lowest suitable address. */
  lemma PlaceIsLowest(s: State, align: nat)
    requires IsPowerOfTwo(align)
    ensures align > 0 && Suitable(s, align, Place(s, align))
    ensures forall a: nat :: Suitable(s, align, a) ==> Place(s, align) <= a
  {
    var d := if align <= 8 then 8 else align;
    CeilIsLeast(s.page.base + s.top, d);
    AlignedBoth(Place(s, align), align);
    forall a: nat | Suitable(s, align, a) ensures Place(s, align) <= a {
      AlignedBoth(a, align);
    }
  }

  // Every other live block ends at or below the stack top
  lemma EndsBelowTop(s: State, p: nat)
    requires Inv(s) && p in s.live
    ensures BlockOk(s, p) && s.live[p].size >= 8 && s.live[p].size % 8 == 0
  {
    assert BlockOk(s, p);
  }

  // The other blocks stay clear of the block at `p` and of the space above the stack top
  ghost predicate Clear(s: State, s': State, p: nat) {
    forall q :: q in s.live && q != p ==>
                  && q + s.live[q].size <= s'.page.base + s'.top
                  && (q < p ==> q + s.live[q].size <= p)
                  && (q > p ==> p + SizeAt(s'.live, p) <= q)
  }

  // Bytes only change to zero, and do so where the block at `p` gives memory back
  ghost predicate Wiped(s: State, s': State, p: nat)
    requires |s.mem| == |s'.mem|
  {
    forall i :: 0 <= i < |s.mem| ==>
                  && (s'.mem[i] == s.mem[i] || s'.mem[i] == 0)
                  && (p + SizeAt(s'.live, p) <= s.page.base + i < p + SizeAt(s.live, p) ==> s'.mem[i] == 0)
  }

  lemma ReshapePlaced(s: State, s': State, p: nat)
    requires Placed(s) && s'.page == s.page && Agree(s.live, s'.live, p) && Clear(s, s', p)
    requires p in s'.live ==> BlockOk(s', p)
    ensures Placed(s')
  {
    forall q | q in s'.live ensures BlockOk(s', q) {
      if q != p { assert q in s.live && BlockOk(s, q); }
    }
  }

  lemma ReshapeApart(s: State, s': State, p: nat)
    requires Apart(s.live) && Agree(s.live, s'.live, p) && Clear(s, s', p)
    ensures Apart(s'.live)
  {
    forall q, r | q in s'.live && r in s'.live && q < r ensures q + s'.live[q].size <= r {
      assert q != p ==> q in s.live;
      assert r != p ==> r in s.live;
    }
  }

  lemma ReshapeClean(s: State, s': State, p: nat)
    requires Clean(s) && s'.page == s.page && |s'.mem| == |s.mem|
    requires Agree(s.live, s'.live, p) && Wiped(s, s', p)
    ensures Clean(s')
  {
    forall i | 0 <= i < |s'.mem| && !Covered(s'.live, s'.page.base + i) ensures s'.mem[i] == 0 {
      var a := s.page.base + i;
      if Covered(s.live, a) {
        var q :| q in s.live && q <= a < q + s.live[q].size;
        assert q != p ==> q in s'.live;
        assert p in s'.live ==> !(p <= a < p + s'.live[p].size);
      }
    }
  }

  /** Changing one block keeps the invariant when it stays clear of the others and wipes what it leaves. */
  lemma Reshape(s: State, s': State, p: nat)
    requires Inv(s) && Shaped(s') && s'.page == s.page
    requires s.page.base <= p < s.page.base + s.page.size
    requires Agree(s.live, s'.live, p) && Clear(s, s', p) && Wiped(s, s', p)
    requires p in s'.live ==> BlockOk(s', p)
    requires s'.bytes == s.bytes + SizeAt(s'.live, p) - SizeAt(s.live, p)
    requires s'.live == map[] ==> s'.top == 0
    ensures Inv(s')
  {
    ReshapePlaced(s, s', p);
    ReshapeApart(s, s', p);
    ReshapeClean(s, s', p);
    SumChange(s.live, s'.live, s.page.base, s.page.size, p);
  }

  // Sums and differences of multiples of 8
  lemma EightSums(a: int, b: int)
    requires a % 8 == 0 && b % 8 == 0
    ensures (a + b) % 8 == 0 && (a - b) % 8 == 0
  {
  }

  lemma AllocateAtKeepsInv(s: State, p: nat, b: Block)
    requires Inv(s) && GoodBlock(b) && s.page.base + s.top <= p && p % 8 == 0
    requires p + b.size <= s.page.base + s.page.size
    ensures Inv(AllocateAt(s, p, b))
  {
    forall q | q in s.live ensures q + s.live[q].size <= p && q < p {
      EndsBelowTop(s, q);
    }
    EightSums(p, b.size);
    EightSums(p + b.size, s.page.base);
    Reshape(s, AllocateAt(s, p, b), p);
  }

  lemma AllocateKeepsInv(s: State, layout: Layout)
    requires Inv(s) && layout.Valid(s.page.bits)
    ensures Inv(Allocate(s, layout).s)
  {
    if layout.size > 0 && HasRoom(s, layout) {
      PlaceIsLowest(s, layout.align);
      BlockForIsGood(layout);
      AllocateAtKeepsInv(s, Place(s, layout.align), BlockFor(layout));
    }
  }

  /** The block that ends at the stack top lies above every other block. */
  lemma TopmostIsAbove(s: State, p: nat)
    requires Inv(s) && p in s.live && EndsAtTop(s, p)
    ensures forall q :: q in s.live && q != p ==> q + s.live[q].size <= p
  {
    EndsBelowTop(s, p);
    forall q | q in s.live && q != p ensures q + s.live[q].size <= p {
      EndsBelowTop(s, q);
    }
  }

  // The stack top may drop to the end of a shorter block at `p`
  lemma ClearAfter(s: State, s': State, p: nat)
    requires Inv(s) && p in s.live && s'.page == s.page && SizeAt(s'.live, p) <= s.live[p].size
    requires EndsAtTop(s, p) ==> s'.page.base + s'.top >= p
    requires !EndsAtTop(s, p) ==> s'.top >= s.top
    ensures Clear(s, s', p)
  {
    if EndsAtTop(s, p) { TopmostIsAbove(s, p); }
    forall q | q in s.live && q != p
      ensures q + s.live[q].size <= s.page.base + s'.top
    {
      EndsBelowTop(s, q);
    }
  }

  // The parts of a release that `Reshape` asks for

  lemma ReleaseShaped(s: State, p: nat)
    requires Shaped(s) && Sized(s) && p in s.live && BlockOk(s, p)
    ensures Shaped(Release(s, p))
  {
    EightSums(p, s.page.base);
  }

  lemma ReleaseClear(s: State, p: nat)
    requires Inv(s) && Sized(s) && p in s.live
    ensures Clear(s, Release(s, p), p)
  {
    EndsBelowTop(s, p);
    var s' := Release(s, p);
    if s'.live == map[] {
      assert forall q :: q in s.live && q != p ==> q in s'.live;
    } else {
      ClearAfter(s, s', p);
    }
  }

  lemma ReleaseWiped(s: State, p: nat)
    requires Sized(s) && p in s.live
    ensures |Release(s, p).mem| == |s.mem| && Wiped(s, Release(s, p), p)
  {
  }

  lemma ReleaseKeepsInv(s: State, p: nat)
    requires Inv(s) && p in s.live
    ensures Sized(s) && Inv(Release(s, p))
  {
    InvSized(s, p);
    EndsBelowTop(s, p);
    ReleaseShaped(s, p);
    ReleaseClear(s, p);
    ReleaseWiped(s, p);
    Reshape(s, Release(s, p), p);
  }

  // Storing into a live block
  lemma StoreKeepsInv(s: State, p: nat, i: nat, data: seq<Byte>)
    requires Inv(s) && p in s.live && i + |data| <= s.live[p].size
    ensures Sized(s) && Inv(ClientWrite(s, p, i, data))
  {
    InvSized(s, p);
    var s' := ClientWrite(s, p, i, data);
    forall q | q in s'.live ensures BlockOk(s', q) { EndsBelowTop(s, q); }
    forall j | 0 <= j < |s'.mem| && !Covered(s'.live, s.page.base + j) ensures s'.mem[j] == 0 {
      assert !(p <= s.page.base + j < p + s.live[p].size);
    }
  }

  lemma CopyKeepsInv(s: State, src: nat, dst: nat, n: nat)
    requires Inv(s)
    requires n > 0 ==> src in s.live && n <= s.live[src].size && dst in s.live && n <= s.live[dst].size
    ensures Sized(s) && Inv(Copy(s, src, dst, n))
  {
    InvSized(s, dst);
    if n > 0 {
      var from := src - s.page.base;
      StoreKeepsInv(s, dst, 0, s.mem[from..from + n]);
    }
  }

  lemma TrimKeepsInv(s: State, p: nat, b: Block)
    requires Inv(s) && p in s.live && GoodBlock(b) && b.size <= s.live[p].size
    ensures Sized(s) && Inv(Trim(s, p, b))
  {
    InvSized(s, p);
    EndsBelowTop(s, p);
    EightSums(p, s.page.base);
    EightSums(p - s.page.base, b.size);
    var s' := Trim(s, p, b);
    ClearAfter(s, s', p);
    Reshape(s, s', p);
  }

  lemma ExtendKeepsInv(s: State, p: nat, b: Block)
    requires Inv(s) && p in s.live && GoodBlock(b) && s.live[p].size <= b.size
    requires EndsAtTop(s, p) && p + b.size <= s.page.base + s.page.size
    ensures Sized(s) && Inv(Extend(s, p, b))
  {
    InvSized(s, p);
    EndsBelowTop(s, p);
    TopmostIsAbove(s, p);
    EightSums(p, b.size);
    EightSums(p + b.size, s.page.base);
    Reshape(s, Extend(s, p, b), p);
  }

  lemma DeallocateKeepsInv(s: State, ptr: nat, layout: Layout)
    requires Inv(s) && Fits(s.live, ptr, layout)
    ensures Sized(s) && Inv(Deallocate(s, ptr, layout))
  {
    InvSized(s, ptr);
    if layout.size > 0 { ReleaseKeepsInv(s, ptr); }
  }

  lemma TransferKeepsInv(s: State, ptr: nat, layout: Layout, dst: nat, n: nat)
    requires Inv(s) && Fits(s.live, ptr, layout) && n <= layout.size
    requires n > 0 ==> dst in s.live && n <= s.live[dst].size
    ensures Sized(s) && Inv(Transfer(s, ptr, layout, dst, n))
  {
    CopyKeepsInv(s, ptr, dst, n);
    DeallocateKeepsInv(Copy(s, ptr, dst, n), ptr, layout);
  }

  lemma MoveKeepsInv(s: State, ptr: nat, oldLayout: Layout, newLayout: Layout, n: nat)
    requires Inv(s) && Fits(s.live, ptr, oldLayout) && newLayout.Valid(s.page.bits)
    requires n <= oldLayout.size && n <= newLayout.size
    ensures Sized(s) && (ptr in s.live ==> ptr < s.page.base + s.top)
    ensures Inv(Move(s, ptr, oldLayout, newLayout, n).s)
  {
    InvSized(s, ptr);
    PlaceAboveTop(s, newLayout.align);
    AllocateKeepsInv(s, newLayout);
    var a := Allocate(s, newLayout);
    if a.reply.Ok? {
      TransferKeepsInv(a.s, ptr, oldLayout, a.reply.ptr, n);
    }
  }

  lemma GrowKeepsInv(s: State, ptr: nat, oldLayout: Layout, newLayout: Layout)
    requires Inv(s) && GrowOk(s, ptr, oldLayout, newLayout)
    ensures Inv(Grow(s, ptr, oldLayout, newLayout).s)
  {
    if oldLayout.size == 0 {
      AllocateKeepsInv(s, newLayout);
    } else if CanExtend(s, ptr, newLayout) {
      BlockForIsGood(newLayout);
      EndsBelowTop(s, ptr);
      RoundedAbove(s.live[ptr], newLayout.size);
      ExtendKeepsInv(s, ptr, BlockFor(newLayout));
    } else {
      MoveKeepsInv(s, ptr, oldLayout, newLayout, oldLayout.size);
    }
  }

  // A block is no larger than what any size from its request on rounds to
  lemma RoundedAbove(b: Block, n: nat)
    requires GoodBlock(b) && b.requested <= n
    ensures b.size <= Round8(n)
  {
  }

  lemma ShrinkKeepsInv(s: State, ptr: nat, oldLayout: Layout, newLayout: Layout)
    requires Inv(s) && ShrinkOk(s, ptr, oldLayout, newLayout)
    ensures Inv(Shrink(s, ptr, oldLayout, newLayout).s)
  {
    if newLayout.size == 0 {
      DeallocateKeepsInv(s, ptr, oldLayout);
    } else if ptr % newLayout.align == 0 {
      RoundedFits(s, ptr, oldLayout, newLayout);
      BlockForIsGood(newLayout);
      TrimKeepsInv(s, ptr, BlockFor(newLayout));
    } else {
      MoveKeepsInv(s, ptr, oldLayout, newLayout, newLayout.size);
    }
  }

  /** At most the bytes below the stack top are allocated, in multiples of 8. */
  lemma BytesBelowTop(s: State)
    requires Inv(s)
    ensures 0 <= s.bytes <= s.top && s.bytes % 8 == 0
    ensures s.bytes == 0 <==> s.live == map[]
    ensures forall p :: p in s.live ==> s.live[p].size <= s.bytes
  {
    forall p | p in s.live
      ensures s.page.base <= p < s.page.base + s.page.size && p + s.live[p].size <= s.page.base + s.top
      ensures s.live[p].size > 0 && s.live[p].size % 8 == 0
    {
      EndsBelowTop(s, p);
    }
    SumFits(s.live, s.page.base, s.page.size, s.top);
    SumIsMultipleOf8(s.live, s.page.base, s.page.size);
    SumZeroIff(s.live, s.page.base, s.page.size);
    forall p | p in s.live ensures s.live[p].size <= s.bytes {
      SumChange(s.live, s.live - {p}, s.page.base, s.page.size, p);
    }
    if s.live != map[] {
      var p :| p in s.live;
    }
  }

  // Freeing a block empties the allocator exactly when it takes `bytes` to 0
  lemma LastBlockIffNoBytes(s: State, ptr: nat)
    requires Inv(s) && ptr in s.live
    ensures s.live[ptr].size <= s.bytes
    ensures s.live - {ptr} == map[] <==> s.bytes == s.live[ptr].size
  {
    ReleaseKeepsInv(s, ptr);
    BytesBelowTop(s);
    BytesBelowTop(PageSpec.Release(s, ptr));
  }

  // Of the sizes that fit a block only its own is a multiple of 8
  lemma MultipleThatFits(b: Block, n: nat)
    requires GoodBlock(b) && b.requested <= n <= b.size && n % 8 == 0
    ensures n == b.size
  {
  }

  lemma BlocksApart(s: State, p: nat, q: nat)
    requires Inv(s) && p in s.live && q in s.live && p != q
    ensures p + s.live[p].size <= q || q + s.live[q].size <= p
  {
  }

  // What the self check of the tests looks at
  predicate Consistent(s: State) {
    && s.top % 8 == 0
    && s.top <= s.page.size
    && s.page.base % 8 == 0
    && s.bytes <= s.top
    && s.bytes % 8 == 0
  }

  lemma InvIsConsistent(s: State)
    requires Inv(s)
    ensures Consistent(s)
  {
    BytesBelowTop(s);
  }

  // When the debug check on drop aborts
  ghost predicate DropAborts(s: State) {
    s.bytes != 0 || exists i :: 0 <= i < |s.mem| && s.mem[i] != 0
  }

  /** The check on drop aborts exactly when some block was leaked. */
  lemma DropAbortsIffLeaked(s: State)
    requires Inv(s)
    ensures DropAborts(s) <==> s.live != map[]
  {
    BytesBelowTop(s);
    if s.live == map[] {
      forall i | 0 <= i < |s.mem| ensures s.mem[i] == 0 {
        assert !Covered(s.live, s.page.base + i);
      }
    }
  }
}
