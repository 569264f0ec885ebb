/**
 What each operation of `SecStackSinglePageAlloc` does to the state. These functions speak of live
 blocks and of unbounded arithmetic; the code in `SecAlloc` has neither, and is proved to compute
 them.
 */
module PageSpec {
  import opened Memory
  import opened PageState
  import opened Usize

  datatype Outcome = Outcome(s: State, reply: Reply)

  // The page holds every live block
  ghost predicate Sized(s: State) {
    && |s.mem| == s.page.size
    && forall p :: p in s.live ==> s.page.base <= p && p + s.live[p].size <= s.page.base + s.page.size
  }

  /** Where a block aligned to `align` goes: the lowest such address at or above the stack top. */
  function Place(s: State, align: nat): nat {
    CeilMultiple(s.page.base + s.top, if align <= 8 then 8 else align)
  }

  lemma PlaceAboveTop(s: State, align: nat)
    ensures Place(s, align) >= s.page.base + s.top
  {
    CeilIsLeast(s.page.base + s.top, if align <= 8 then 8 else align);
  }

  // The page has room for `layout` above the stack top
  predicate HasRoom(s: State, layout: Layout) {
    Place(s, layout.align) + Round8(layout.size) <= s.page.base + s.page.size
  }

  function AllocateAt(s: State, p: nat, b: Block): State
    requires s.page.base <= p
  {
    s.(bytes := s.bytes + b.size, top := p + b.size - s.page.base, live := s.live[p := b])
  }

  function Allocate(s: State, layout: Layout): Outcome {
    if layout.size == 0 then
      Outcome(s, Ok(layout.align, 0))
    else if HasRoom(s, layout) then
      var p, n := Place(s, layout.align), Round8(layout.size);
      PlaceAboveTop(s, layout.align);
      Outcome(AllocateAt(s, p, BlockFor(layout)), Ok(p, n))
    else
      Outcome(s, AllocError)
  }

  // Wipe and forget the block at `p`, lowering the stack top where that is safe
  ghost function Release(s: State, p: nat): State
    requires Sized(s) && p in s.live
  {
    var n, rest, at := s.live[p].size, s.live - {p}, p - s.page.base;
    State(s.page,
          s.bytes - n,
          if rest == map[] then 0 else if at + n == s.top then at else s.top,
          Blit(s.mem, at, Zeros(n)),
          rest)
  }

  ghost function Deallocate(s: State, ptr: nat, layout: Layout): State
    requires Sized(s) && Fits(s.live, ptr, layout)
  {
    if layout.size == 0 then s else Release(s, ptr)
  }

  // Copy `n` bytes from the block at `src` into the block at `dst`
  ghost function Copy(s: State, src: nat, dst: nat, n: nat): State
    requires Sized(s)
    requires n > 0 ==> src in s.live && n <= s.live[src].size && dst in s.live && n <= s.live[dst].size
  {
    if n == 0 then s
    else
      var from := src - s.page.base;
      s.(mem := Blit(s.mem, dst - s.page.base, s.mem[from..from + n]))
  }

  // Copy `n` bytes from the block at `ptr` to the one at `dst`, then free the former
  ghost function Transfer(s: State, ptr: nat, layout: Layout, dst: nat, n: nat): State
    requires Sized(s) && Fits(s.live, ptr, layout) && n <= layout.size
    requires n > 0 ==> dst in s.live && n <= s.live[dst].size
  {
    Deallocate(Copy(s, ptr, dst, n), ptr, layout)
  }

  /** Reallocation the long way: a new block, `n` bytes copied, the old block freed. */
  ghost function Move(s: State, ptr: nat, oldLayout: Layout, newLayout: Layout, n: nat): Outcome
    requires Sized(s) && Fits(s.live, ptr, oldLayout)
    requires ptr in s.live ==> ptr < s.page.base + s.top
    requires n <= oldLayout.size && n <= newLayout.size
  {
    PlaceAboveTop(s, newLayout.align);
    var a := Allocate(s, newLayout);
    if a.reply.AllocError? then a
    else Outcome(Transfer(a.s, ptr, oldLayout, a.reply.ptr, n), a.reply)
  }

  // Shorten the block at `p` to `b` in place
  ghost function Trim(s: State, p: nat, b: Block): State
    requires Sized(s) && p in s.live && b.size <= s.live[p].size
  {
    var n, at := s.live[p].size, p - s.page.base;
    s.(bytes := s.bytes - (n - b.size),
       top := if at + n == s.top then at + b.size else s.top,
       mem := Blit(s.mem, at + b.size, Zeros(n - b.size)),
       live := s.live[p := b])
  }

  // Lengthen the topmost block `p` to `b` in place
  ghost function Extend(s: State, p: nat, b: Block): State
    requires Sized(s) && p in s.live
  {
    s.(bytes := s.bytes + b.size - s.live[p].size, top := p + b.size - s.page.base, live := s.live[p := b])
  }

  /** The block at `p` ends exactly at the stack top. */
  predicate EndsAtTop(s: State, p: nat)
    requires p in s.live
  {
    p + s.live[p].size == s.page.base + s.top
  }

  predicate CanExtend(s: State, p: nat, layout: Layout)
    requires p in s.live && layout.align > 0
  {
    && p % layout.align == 0
    && EndsAtTop(s, p)
    && p + Round8(layout.size) <= s.page.base + s.page.size
  }

  // What the `Allocator` contract asks of the caller of the reallocating functions
  ghost predicate GrowOk(s: State, ptr: nat, oldLayout: Layout, newLayout: Layout) {
    Fits(s.live, ptr, oldLayout) && newLayout.Valid(s.page.bits) && oldLayout.size <= newLayout.size
  }

  ghost predicate ShrinkOk(s: State, ptr: nat, oldLayout: Layout, newLayout: Layout) {
    Fits(s.live, ptr, oldLayout) && newLayout.Valid(s.page.bits) && newLayout.size <= oldLayout.size
  }

  /** Extend in place where that is possible, and move otherwise. */
  ghost function Grow(s: State, ptr: nat, oldLayout: Layout, newLayout: Layout): Outcome
    requires Inv(s) && GrowOk(s, ptr, oldLayout, newLayout)
  {
    InvSized(s, ptr);
    if oldLayout.size == 0 then
      Allocate(s, newLayout)
    else if CanExtend(s, ptr, newLayout) then
      Outcome(Extend(s, ptr, BlockFor(newLayout)), Ok(ptr, Round8(newLayout.size)))
    else
      ReallocGrow(s, ptr, oldLayout, newLayout)
  }

  /** Trim in place where the pointer is aligned well enough, and move otherwise. */
  ghost function Shrink(s: State, ptr: nat, oldLayout: Layout, newLayout: Layout): Outcome
    requires Inv(s) && ShrinkOk(s, ptr, oldLayout, newLayout)
  {
    InvSized(s, ptr);
    if newLayout.size == 0 then
      Outcome(Deallocate(s, ptr, oldLayout), Ok(newLayout.align, 0))
    else if ptr % newLayout.align == 0 then
      RoundedFits(s, ptr, oldLayout, newLayout);
      Outcome(Trim(s, ptr, BlockFor(newLayout)), Ok(ptr, Round8(newLayout.size)))
    else
      ReallocShrink(s, ptr, oldLayout, newLayout)
  }

  ghost function ReallocGrow(s: State, ptr: nat, oldLayout: Layout, newLayout: Layout): Outcome
    requires Inv(s) && GrowOk(s, ptr, oldLayout, newLayout)
  {
    InvSized(s, ptr);
    Move(s, ptr, oldLayout, newLayout, oldLayout.size)
  }

  ghost function ReallocShrink(s: State, ptr: nat, oldLayout: Layout, newLayout: Layout): Outcome
    requires Inv(s) && ShrinkOk(s, ptr, oldLayout, newLayout)
  {
    InvSized(s, ptr);
    Move(s, ptr, oldLayout, newLayout, newLayout.size)
  }

  // A client stores `data` at offset `i` of its block
  ghost function ClientWrite(s: State, ptr: nat, i: nat, data: seq<Byte>): State
    requires Sized(s) && ptr in s.live && i + |data| <= s.live[ptr].size
  {
    s.(mem := Blit(s.mem, ptr - s.page.base + i, data))
  }

  lemma InvSized(s: State, ptr: nat)
    requires Inv(s)
    ensures Sized(s)
    ensures ptr in s.live ==> ptr < s.page.base + s.top
  {
    forall p | p in s.live ensures s.page.base <= p < s.page.base + s.top && p + s.live[p].size <= s.page.base + s.top {
      assert BlockOk(s, p);
    }
  }

  // What a shrunken layout rounds to still fits the block
  lemma RoundedFits(s: State, ptr: nat, oldLayout: Layout, newLayout: Layout)
    requires Inv(s) && Fits(s.live, ptr, oldLayout) && 0 < newLayout.size <= oldLayout.size
    ensures ptr in s.live && BlockFor(newLayout).size <= s.live[ptr].size
  {
    assert BlockOk(s, ptr);
    RoundedBelow(newLayout.size, s.live[ptr].size);
  }

  lemma RoundedBelow(n: nat, m: nat)
    requires n <= m && m % 8 == 0
    ensures Round8(n) <= m
  {
  }
}
