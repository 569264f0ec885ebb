/** The page allocator refines the handle store: every legal run of the one is a run of the other. */
module Refinement {
  import opened Maps
  import opened Memory
  import opened PageState
  import opened PageSpec
  import opened Invariant
  import opened Runs
  import opened HandleStore
  import opened Usize

  // What the page holds in the block at `p`
  ghost function Contents(s: State, p: nat): (data: seq<Byte>)
    requires Sized(s) && p in s.live
    ensures |data| == s.live[p].size
  {
    s.mem[p - s.page.base..p - s.page.base + s.live[p].size]
  }

  ghost function View(s: State): Store
    requires Sized(s)
  {
    map p | p in s.live :: CellAt(s, p)
  }

  ghost function CellAt(s: State, p: nat): Cell
    requires Sized(s) && p in s.live
  {
    Cell(s.live[p], Contents(s, p))
  }

  // Free memory reads as zeros
  lemma FreeSpaceIsZero(s: State, p: nat, n: nat)
    requires Inv(s) && s.page.base + s.top <= p && p + n <= s.page.base + s.page.size
    ensures s.mem[p - s.page.base..p - s.page.base + n] == Zeros(n)
  {
    var at := p - s.page.base;
    forall i | at <= i < at + n ensures s.mem[i] == 0 {
      forall q | q in s.live ensures q + s.live[q].size <= p { EndsBelowTop(s, q); }
      assert !Covered(s.live, s.page.base + i);
    }
  }

  // Storing into the block at `p` leaves the contents of the others
  lemma OthersUntouched(s: State, s': State, p: nat, at: nat, data: seq<Byte>)
    requires Sized(s) && Sized(s') && Apart(s.live) && s'.page == s.page && Agree(s.live, s'.live, p)
    requires p in s.live && p <= s.page.base + at && s.page.base + at + |data| <= p + s.live[p].size
    requires s'.mem == Blit(s.mem, at, data)
    ensures Agree(View(s), View(s'), p)
  {
    forall q | q in s.live && q != p ensures CellAt(s', q) == CellAt(s, q) {
      assert q + s.live[q].size <= p || p + s.live[p].size <= q;
    }
  }

  // Only the books change
  lemma SameMemory(s: State, s': State, p: nat)
    requires Sized(s) && Sized(s') && s'.page == s.page && s'.mem == s.mem && Agree(s.live, s'.live, p)
    ensures Agree(View(s), View(s'), p)
  {
    forall q | q in s.live && q != p ensures CellAt(s', q) == CellAt(s, q) {
      assert s'.live[q] == s.live[q];
    }
  }

  lemma ViewAllocateAt(s: State, p: nat, b: Block)
    requires Sized(s) && s.page.base <= p && p + b.size <= s.page.base + s.page.size
    requires s.mem[p - s.page.base..p - s.page.base + b.size] == Zeros(b.size)
    ensures Sized(AllocateAt(s, p, b))
    ensures View(AllocateAt(s, p, b)) == View(s)[p := Cell(b, Zeros(b.size))]
  {
    var s' := AllocateAt(s, p, b);
    assert CellAt(s', p) == Cell(b, Zeros(b.size));
    SameMemory(s, s', p);
    AgreePut(View(s), View(s'), p);
  }

  lemma ViewRelease(s: State, p: nat)
    requires Sized(s) && Apart(s.live) && p in s.live
    ensures Sized(Release(s, p))
    ensures View(Release(s, p)) == View(s) - {p}
  {
    var s' := Release(s, p);
    OthersUntouched(s, s', p, p - s.page.base, Zeros(s.live[p].size));
    AgreePut(View(s), View(s'), p);
  }

  lemma WrittenContents(s: State, p: nat, i: nat, data: seq<Byte>)
    requires Sized(s) && p in s.live && i + |data| <= s.live[p].size
    ensures Sized(ClientWrite(s, p, i, data))
    ensures Contents(ClientWrite(s, p, i, data), p) == Blit(Contents(s, p), i, data)
  {
    var at := p - s.page.base;
    SliceAcross(s.mem, at + i, data, at, at + s.live[p].size);
  }

  lemma ViewWrite(s: State, p: nat, i: nat, data: seq<Byte>)
    requires Sized(s) && Apart(s.live) && p in s.live && i + |data| <= s.live[p].size
    ensures Sized(ClientWrite(s, p, i, data))
    ensures View(ClientWrite(s, p, i, data)) == View(s)[p := Cell(s.live[p], Blit(Contents(s, p), i, data))]
  {
    var s' := ClientWrite(s, p, i, data);
    WrittenContents(s, p, i, data);
    OthersUntouched(s, s', p, p - s.page.base + i, data);
    AgreePut(View(s), View(s'), p);
  }

  lemma TrimmedContents(s: State, p: nat, b: Block)
    requires Sized(s) && p in s.live && b.size <= s.live[p].size
    ensures Sized(Trim(s, p, b)) && Contents(Trim(s, p, b), p) == Contents(s, p)[..b.size]
  {
    var at := p - s.page.base;
    SliceBefore(s.mem, at + b.size, Zeros(s.live[p].size - b.size), at);
    TakeOfSlice(s.mem, at, at + s.live[p].size, b.size);
  }

  lemma ViewTrim(s: State, p: nat, b: Block)
    requires Sized(s) && Apart(s.live) && p in s.live && b.size <= s.live[p].size
    ensures Sized(Trim(s, p, b))
    ensures View(Trim(s, p, b)) == View(s)[p := Cell(b, Contents(s, p)[..b.size])]
  {
    var s' := Trim(s, p, b);
    TrimmedContents(s, p, b);
    OthersUntouched(s, s', p, p - s.page.base + b.size, Zeros(s.live[p].size - b.size));
    AgreePut(View(s), View(s'), p);
  }

  lemma ExtendedContents(s: State, p: nat, b: Block)
    requires Sized(s) && p in s.live && s.live[p].size <= b.size && p + b.size <= s.page.base + s.page.size
    requires var at, n := p - s.page.base, s.live[p].size; s.mem[at + n..at + b.size] == Zeros(b.size - n)
    ensures Sized(Extend(s, p, b))
    ensures Contents(Extend(s, p, b), p) == Contents(s, p) + Zeros(b.size - s.live[p].size)
  {
    var at, n := p - s.page.base, s.live[p].size;
    SliceSplit(s.mem, at, at + n, at + b.size);
  }

  lemma ViewExtend(s: State, p: nat, b: Block)
    requires Sized(s) && p in s.live && s.live[p].size <= b.size && p + b.size <= s.page.base + s.page.size
    requires var at, n := p - s.page.base, s.live[p].size; s.mem[at + n..at + b.size] == Zeros(b.size - n)
    ensures Sized(Extend(s, p, b))
    ensures View(Extend(s, p, b)) == View(s)[p := Cell(b, Contents(s, p) + Zeros(b.size - s.live[p].size))]
  {
    ExtendedContents(s, p, b);
    SameMemory(s, Extend(s, p, b), p);
    AgreePut(View(s), View(Extend(s, p, b)), p);
  }

  // One call at a time

  lemma GrantAllowed(s: State, layout: Layout)
    requires Inv(s) && Sized(s) && layout.Valid(s.page.bits) && layout.size > 0
    ensures MayGrant(View(s), layout, Place(s, layout.align), Round8(layout.size))
  {
    PlaceIsLowest(s, layout.align);
    BlockForIsGood(layout);
    var st := View(s);
    forall q | q in st ensures q + st[q].block.size <= Place(s, layout.align) {
      EndsBelowTop(s, q);
    }
  }

  lemma RefineAllocate(s: State, layout: Layout)
    requires Inv(s) && layout.Valid(s.page.bits)
    ensures Sized(s) && Sized(Allocate(s, layout).s)
    ensures AllocateNext(View(s), layout, Allocate(s, layout).reply, View(Allocate(s, layout).s))
  {
    InvSized(s, 0);
    if layout.size > 0 && HasRoom(s, layout) {
      GrantAllowed(s, layout);
      PlaceAboveTop(s, layout.align);
      FreeSpaceIsZero(s, Place(s, layout.align), Round8(layout.size));
      ViewAllocateAt(s, Place(s, layout.align), BlockFor(layout));
    }
  }

  lemma RefineDeallocate(s: State, ptr: nat, layout: Layout)
    requires Sized(s) && Apart(s.live) && Fits(s.live, ptr, layout)
    ensures Sized(Deallocate(s, ptr, layout))
    ensures View(Deallocate(s, ptr, layout)) == Free(View(s), ptr, layout)
  {
    if layout.size > 0 { ViewRelease(s, ptr); }
  }

  // A copy is a write of what the source holds
  lemma CopyIsWrite(s: State, src: nat, dst: nat, n: nat)
    requires Sized(s) && src in s.live && dst in s.live
    requires 0 < n <= s.live[src].size && n <= s.live[dst].size
    ensures Copy(s, src, dst, n) == ClientWrite(s, dst, 0, Contents(s, src)[..n])
  {
    var at := src - s.page.base;
    TakeOfSlice(s.mem, at, at + s.live[src].size, n);
  }

  lemma ViewCopy(s: State, src: nat, dst: nat, n: nat)
    requires Sized(s) && Apart(s.live) && src in s.live && dst in s.live
    requires 0 < n <= s.live[src].size && n <= s.live[dst].size
    ensures Sized(Copy(s, src, dst, n))
    ensures View(Copy(s, src, dst, n))
         == View(s)[dst := Cell(s.live[dst], Blit(Contents(s, dst), 0, Contents(s, src)[..n]))]
  {
    CopyIsWrite(s, src, dst, n);
    ViewWrite(s, dst, 0, Contents(s, src)[..n]);
  }

  // A copy followed by a free
  lemma ViewTransfer(s: State, ptr: nat, layout: Layout, dst: nat, n: nat)
    requires Sized(s) && Apart(s.live) && Fits(s.live, ptr, layout) && 0 < n <= layout.size
    requires dst in s.live && dst != ptr && n <= s.live[dst].size
    ensures Sized(Transfer(s, ptr, layout, dst, n))
    ensures View(Transfer(s, ptr, layout, dst, n))
         == (View(s) - {ptr})[dst := Cell(s.live[dst], Blit(Contents(s, dst), 0, Contents(s, ptr)[..n]))]
  {
    ViewCopy(s, ptr, dst, n);
    ViewRelease(Copy(s, ptr, dst, n), ptr);
    PutThenDrop(View(s), dst, Cell(s.live[dst], Blit(Contents(s, dst), 0, Contents(s, ptr)[..n])), ptr);
  }

  lemma CopiedIntoZeros(data: seq<Byte>, n: nat, len: nat)
    requires n <= |data| && n <= len
    ensures Blit(Zeros(len), 0, data[..n]) == Resized(data, n, len)
  {
  }

  // Both reallocations, by way of a new block
  lemma RefineMove(s: State, ptr: nat, oldLayout: Layout, newLayout: Layout, n: nat)
    requires Inv(s) && Fits(s.live, ptr, oldLayout) && newLayout.Valid(s.page.bits)
    requires Sized(s) && (ptr in s.live ==> ptr < s.page.base + s.top)
    requires n == Min(oldLayout.size, newLayout.size)
    ensures var o := Move(s, ptr, oldLayout, newLayout, n);
            Sized(o.s) && ResizeNext(View(s), ptr, oldLayout, newLayout, o.reply, View(o.s))
  {
    var a := Allocate(s, newLayout);
    RefineAllocate(s, newLayout);
    if n == 0 {
      if a.reply.Ok? { RefineDeallocate(a.s, ptr, oldLayout); }
    } else if a.reply.Ok? {
      MovedView(s, ptr, oldLayout, newLayout);
    }
  }

  lemma AllocatedContents(s: State, q: nat, b: Block, p: nat)
    requires Sized(s) && s.page.base <= q && q + b.size <= s.page.base + s.page.size && p in s.live && p != q
    requires s.mem[q - s.page.base..q - s.page.base + b.size] == Zeros(b.size)
    ensures var t := AllocateAt(s, q, b);
            Sized(t) && Contents(t, p) == Contents(s, p) && Contents(t, q) == Zeros(b.size)
  {
  }

  // Transfer into a block that was granted at the free address `q`
  lemma ViewAllocateTransfer(s: State, ptr: nat, layout: Layout, q: nat, b: Block, n: nat)
    requires Sized(s) && Fits(s.live, ptr, layout) && 0 < n <= layout.size && n <= b.size && q != ptr
    requires s.page.base <= q && q + b.size <= s.page.base + s.page.size
    requires s.mem[q - s.page.base..q - s.page.base + b.size] == Zeros(b.size)
    requires Sized(AllocateAt(s, q, b)) && Apart(AllocateAt(s, q, b).live)
    ensures Sized(Transfer(AllocateAt(s, q, b), ptr, layout, q, n))
    ensures View(Transfer(AllocateAt(s, q, b), ptr, layout, q, n))
         == (View(s) - {ptr})[q := Cell(b, Resized(Contents(s, ptr), n, b.size))]
  {
    var t, data, zeros := AllocateAt(s, q, b), Contents(s, ptr), Zeros(b.size);
    AllocatedContents(s, q, b, ptr);
    calc {
      View(Transfer(t, ptr, layout, q, n));
      { ViewTransfer(t, ptr, layout, q, n); }
      (View(t) - {ptr})[q := Cell(b, Blit(zeros, 0, data[..n]))];
      { CopiedIntoZeros(data, n, b.size); }
      (View(t) - {ptr})[q := Cell(b, Resized(data, n, b.size))];
      { ViewAllocateAt(s, q, b); }
      (View(s)[q := Cell(b, zeros)] - {ptr})[q := Cell(b, Resized(data, n, b.size))];
      { PutTwice(View(s), q, Cell(b, zeros), Cell(b, Resized(data, n, b.size)), ptr); }
      (View(s) - {ptr})[q := Cell(b, Resized(data, n, b.size))];
    }
  }

  lemma MovedView(s: State, ptr: nat, oldLayout: Layout, newLayout: Layout)
    requires Inv(s) && Fits(s.live, ptr, oldLayout) && newLayout.Valid(s.page.bits)
    requires Sized(s) && ptr in s.live && ptr < s.page.base + s.top
    requires 0 < oldLayout.size && 0 < newLayout.size && HasRoom(s, newLayout)
    ensures var n := Min(oldLayout.size, newLayout.size);
            var o := Move(s, ptr, oldLayout, newLayout, n);
            var q, b := Place(s, newLayout.align), BlockFor(newLayout);
            && Sized(o.s)
            && View(o.s) == (View(s) - {ptr})[q := Cell(b, Resized(Contents(s, ptr), n, b.size))]
  {
    var q, b := Place(s, newLayout.align), BlockFor(newLayout);
    PlaceAboveTop(s, newLayout.align);
    AllocateKeepsInv(s, newLayout);
    InvSized(AllocateAt(s, q, b), q);
    FreeSpaceIsZero(s, q, b.size);
    ViewAllocateTransfer(s, ptr, oldLayout, q, b, Min(oldLayout.size, newLayout.size));
  }

  // A block that stays where it is may take up to `b` when the others are clear of that
  lemma StayAllowed(s: State, ptr: nat, layout: Layout)
    requires Inv(s) && Sized(s) && ptr in s.live && layout.size > 0 && layout.align > 0 && ptr % layout.align == 0
    requires forall q :: q in s.live && q > ptr ==> ptr + BlockFor(layout).size <= q
    ensures MayGrant(View(s) - {ptr}, layout, ptr, BlockFor(layout).size)
  {
    BlockForIsGood(layout);
    EndsBelowTop(s, ptr);
    var st := View(s) - {ptr};
    forall q | q in st ensures q + st[q].block.size <= ptr || ptr + BlockFor(layout).size <= q {
      assert q in s.live && q != ptr;
    }
  }

  // The block at `ptr` was resized where it is
  ghost predicate StayNext(st: Store, ptr: nat, layout: Layout, st': Store) {
    var b := BlockFor(layout);
    && ptr in st
    && MayGrant(st - {ptr}, layout, ptr, b.size)
    && var data := st[ptr].data;
       st' == (st - {ptr})[ptr := Cell(b, Resized(data, Min(|data|, b.size), b.size))]
  }

  lemma CutInPlace(st: Store, ptr: nat, layout: Layout)
    requires ptr in st && MayGrant(st - {ptr}, layout, ptr, BlockFor(layout).size)
    requires BlockFor(layout).size <= |st[ptr].data|
    ensures var b := BlockFor(layout); StayNext(st, ptr, layout, st[ptr := Cell(b, st[ptr].data[..b.size])])
  {
    var b, data := BlockFor(layout), st[ptr].data;
    assert data[..b.size] == Resized(data, b.size, b.size);
    PutOver(st, ptr, Cell(b, data[..b.size]));
  }

  lemma PaddedInPlace(st: Store, ptr: nat, layout: Layout)
    requires ptr in st && MayGrant(st - {ptr}, layout, ptr, BlockFor(layout).size)
    requires |st[ptr].data| <= BlockFor(layout).size
    ensures var b, data := BlockFor(layout), st[ptr].data;
            StayNext(st, ptr, layout, st[ptr := Cell(b, data + Zeros(b.size - |data|))])
  {
    var b, data := BlockFor(layout), st[ptr].data;
    assert data + Zeros(b.size - |data|) == Resized(data, |data|, b.size);
    PutOver(st, ptr, Cell(b, data + Zeros(b.size - |data|)));
  }

  lemma ExtendAllowed(s: State, ptr: nat, layout: Layout)
    requires Inv(s) && Sized(s) && ptr in s.live && s.live[ptr].requested <= layout.size
    requires layout.align > 0 && CanExtend(s, ptr, layout)
    ensures s.live[ptr].size <= BlockFor(layout).size
    ensures MayGrant(View(s) - {ptr}, layout, ptr, BlockFor(layout).size)
  {
    EndsBelowTop(s, ptr);
    TopmostIsAbove(s, ptr);
    RoundedAbove(s.live[ptr], layout.size);
    StayAllowed(s, ptr, layout);
  }

  lemma ViewExtendTop(s: State, ptr: nat, b: Block)
    requires Inv(s) && ptr in s.live && s.live[ptr].size <= b.size
    requires EndsAtTop(s, ptr) && ptr + b.size <= s.page.base + s.page.size
    ensures Sized(s) && Sized(Extend(s, ptr, b))
    ensures View(Extend(s, ptr, b)) == View(s)[ptr := Cell(b, Contents(s, ptr) + Zeros(b.size - s.live[ptr].size))]
  {
    InvSized(s, ptr);
    FreeSpaceIsZero(s, ptr + s.live[ptr].size, b.size - s.live[ptr].size);
    ViewExtend(s, ptr, b);
  }

  lemma RefineExtend(s: State, ptr: nat, layout: Layout)
    requires Inv(s) && Sized(s) && ptr in s.live && s.live[ptr].requested <= layout.size
    requires layout.align > 0 && CanExtend(s, ptr, layout)
    ensures Sized(Extend(s, ptr, BlockFor(layout)))
    ensures StayNext(View(s), ptr, layout, View(Extend(s, ptr, BlockFor(layout))))
  {
    ExtendAllowed(s, ptr, layout);
    ViewExtendTop(s, ptr, BlockFor(layout));
    PaddedInPlace(View(s), ptr, layout);
  }

  lemma RefineTrim(s: State, ptr: nat, layout: Layout)
    requires Inv(s) && Sized(s) && ptr in s.live && 0 < layout.size && BlockFor(layout).size <= s.live[ptr].size
    requires layout.align > 0 && ptr % layout.align == 0
    ensures Sized(Trim(s, ptr, BlockFor(layout)))
    ensures StayNext(View(s), ptr, layout, View(Trim(s, ptr, BlockFor(layout))))
  {
    StayAllowed(s, ptr, layout);
    ViewTrim(s, ptr, BlockFor(layout));
    CutInPlace(View(s), ptr, layout);
  }

  lemma StayIsResize(st: Store, ptr: nat, oldLayout: Layout, layout: Layout, st': Store)
    requires StayNext(st, ptr, layout, st') && oldLayout.size > 0 && layout.size > 0
    ensures ResizeNext(st, ptr, oldLayout, layout, Ok(ptr, BlockFor(layout).size), st')
  {
  }

  lemma RefineReallocGrow(s: State, ptr: nat, oldLayout: Layout, newLayout: Layout)
    requires Inv(s) && GrowOk(s, ptr, oldLayout, newLayout)
    ensures var o := ReallocGrow(s, ptr, oldLayout, newLayout);
            && Sized(s) && Sized(o.s)
            && ResizeNext(View(s), ptr, oldLayout, newLayout, o.reply, View(o.s))
  {
    InvSized(s, ptr);
    RefineMove(s, ptr, oldLayout, newLayout, oldLayout.size);
  }

  lemma RefineReallocShrink(s: State, ptr: nat, oldLayout: Layout, newLayout: Layout)
    requires Inv(s) && ShrinkOk(s, ptr, oldLayout, newLayout)
    ensures var o := ReallocShrink(s, ptr, oldLayout, newLayout);
            && Sized(s) && Sized(o.s)
            && ResizeNext(View(s), ptr, oldLayout, newLayout, o.reply, View(o.s))
  {
    InvSized(s, ptr);
    RefineMove(s, ptr, oldLayout, newLayout, newLayout.size);
  }

  lemma RefineGrow(s: State, ptr: nat, oldLayout: Layout, newLayout: Layout)
    requires Inv(s) && GrowOk(s, ptr, oldLayout, newLayout)
    ensures var o := Grow(s, ptr, oldLayout, newLayout);
            && Sized(s) && Sized(o.s)
            && ResizeNext(View(s), ptr, oldLayout, newLayout, o.reply, View(o.s))
  {
    InvSized(s, ptr);
    if oldLayout.size == 0 {
      RefineAllocate(s, newLayout);
    } else if CanExtend(s, ptr, newLayout) {
      RefineExtend(s, ptr, newLayout);
      StayIsResize(View(s), ptr, oldLayout, newLayout, View(Extend(s, ptr, BlockFor(newLayout))));
    } else {
      RefineReallocGrow(s, ptr, oldLayout, newLayout);
    }
  }

  lemma RefineShrink(s: State, ptr: nat, oldLayout: Layout, newLayout: Layout)
    requires Inv(s) && ShrinkOk(s, ptr, oldLayout, newLayout)
    ensures var o := Shrink(s, ptr, oldLayout, newLayout);
            && Sized(s) && Sized(o.s)
            && ResizeNext(View(s), ptr, oldLayout, newLayout, o.reply, View(o.s))
  {
    InvSized(s, ptr);
    if newLayout.size == 0 {
      RefineDeallocate(s, ptr, oldLayout);
    } else if ptr % newLayout.align == 0 {
      RoundedFits(s, ptr, oldLayout, newLayout);
      RefineTrim(s, ptr, newLayout);
      StayIsResize(View(s), ptr, oldLayout, newLayout, View(Trim(s, ptr, BlockFor(newLayout))));
    } else {
      RefineReallocShrink(s, ptr, oldLayout, newLayout);
    }
  }

  /** Every permitted step of the page allocator is a step of the handle store, with the same reply. */
  lemma StepRefines(s: State, op: Op)
    requires Inv(s) && Permitted(s, op)
    ensures var o := Step(s, op);
            Sized(s) && Sized(o.s) && Next(View(s), op, o.reply, View(o.s))
  {
    InvSized(s, 0);
    match op
    case AllocateOp(layout) => RefineAllocate(s, layout);
    case DeallocateOp(ptr, layout) => RefineDeallocate(s, ptr, layout);
    case GrowOp(ptr, oldLayout, newLayout) => RefineGrow(s, ptr, oldLayout, newLayout);
    case ShrinkOp(ptr, oldLayout, newLayout) => RefineShrink(s, ptr, oldLayout, newLayout);
    case ReallocGrowOp(ptr, oldLayout, newLayout) => RefineReallocGrow(s, ptr, oldLayout, newLayout);
    case ReallocShrinkOp(ptr, oldLayout, newLayout) => RefineReallocShrink(s, ptr, oldLayout, newLayout);
    case WriteOp(ptr, at, data) => ViewWrite(s, ptr, at, data);
  }

  /** Every legal run of the page allocator is a run of the handle store, with the same replies. */
  lemma {:induction false} RunRefines(s: State, ops: seq<Op>)
    requires Inv(s) && Legal(s, ops)
    ensures |Replies(s, ops)| == |ops| && Sized(s) && Sized(Run(s, ops))
    ensures Behaves(View(s), ops, Replies(s, ops), View(Run(s, ops)))
    decreases |ops|
  {
    InvSized(s, 0);
    if ops == [] {
    } else {
      var o := Step(s, ops[0]);
      StepKeepsInv(s, ops[0]);
      StepRefines(s, ops[0]);
      RunRefines(o.s, ops[1..]);
      assert Replies(s, ops)[1..] == Replies(o.s, ops[1..]);
      assert Next(View(s), ops[0], Replies(s, ops)[0], View(o.s));
    }
  }

  /** After any legal run from a fresh page the live blocks are aligned as asked, and apart. */
  lemma FreshRunIsSafe(page: Page, ops: seq<Op>)
    requires page.Valid() && Inv(Initial(page)) && Legal(Initial(page), ops)
    ensures Sized(Run(Initial(page), ops)) && Safe(View(Run(Initial(page), ops)))
  {
    RunRefines(Initial(page), ops);
    BehaviourIsSafe(View(Initial(page)), ops, Replies(Initial(page), ops), View(Run(Initial(page), ops)));
  }
}
