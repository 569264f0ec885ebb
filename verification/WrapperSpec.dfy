/**
 `ZeroizeAlloc` over an arbitrary backend, as operations on a heap value. What the backend decides on
 a request, a refusal or any block the allocator contract allows with any contents, is an argument.
 `returned` records every block handed back, and what it then held over its layout size.
 */
module WrapperSpec {
  import opened Maps
  import opened Memory
  import opened PageState

  // A block handed out by the backend: the layout asked for and the length granted
  datatype Grant = Grant(requested: nat, align: nat, len: nat)

  // A block handed back to the backend
  datatype Handover = Handover(ptr: nat, bytes: seq<Byte>)

  datatype Heap = Heap(mem: seq<Byte>, grants: map<nat, Grant>, returned: seq<Handover>)

  datatype Answer = Granted(ptr: nat, fill: seq<Byte>) | Refused

  predicate GrantFits(grants: map<nat, Grant>, ptr: nat, layout: Layout) {
    layout.size == 0
    || (ptr in grants && grants[ptr].requested <= layout.size <= grants[ptr].len && layout.align == grants[ptr].align)
  }

  predicate Bounded(h: Heap) {
    forall p :: p in h.grants ==>
                  0 < p && 0 < h.grants[p].requested <= h.grants[p].len && p + h.grants[p].len <= |h.mem|
  }

  ghost predicate GrantsApart(grants: map<nat, Grant>) {
    forall p, q :: p in grants && q in grants && p != q ==> p + grants[p].len <= q || q + grants[q].len <= p
  }

  // Nothing but zeros was ever handed back
  ghost predicate AllWiped(h: Heap) {
    forall i :: 0 <= i < |h.returned| ==> h.returned[i].bytes == Zeros(|h.returned[i].bytes|)
  }

  ghost predicate HeapInv(h: Heap) {
    Bounded(h) && GrantsApart(h.grants) && AllWiped(h)
  }

  // `[ptr, ptr + len)` is in memory, not at null, and clear of all blocks
  predicate IsNew(h: Heap, ptr: nat, len: nat) {
    0 < ptr && ptr + len <= |h.mem| && forall p :: p in h.grants ==> p + h.grants[p].len <= ptr || ptr + len <= p
  }

  /** The backend's side of the contract: a granted block is large enough, aligned, and new. */
  predicate Acceptable(h: Heap, layout: Layout, zeroed: bool, a: Answer) {
    a.Granted? && layout.size > 0 ==>
      && layout.size <= |a.fill|
      && layout.align > 0
      && a.ptr % layout.align == 0
      && (zeroed ==> a.fill == Zeros(|a.fill|))
      && IsNew(h, a.ptr, |a.fill|)
  }

  // A backend that is about to give the answers `script` gives `a`, and then has `rest` left to give. An
  // answer that is not acceptable, or none, is a refusal.
  ghost predicate Decides(h: Heap, layout: Layout, zeroed: bool, script: seq<Answer>, a: Answer, rest: seq<Answer>) {
    if script == [] then
      a == Refused && rest == []
    else
      && a == (if Acceptable(h, layout, zeroed, script[0]) then script[0] else Refused)
      && rest == script[1..]
  }

  // The operations, of the backend and of the wrapper

  function Allocate(h: Heap, layout: Layout, a: Answer): Heap
    requires a.Granted? && layout.size > 0 ==> a.ptr + |a.fill| <= |h.mem|
  {
    if a.Refused? || layout.size == 0 then h
    else h.(mem := Blit(h.mem, a.ptr, a.fill),
            grants := h.grants[a.ptr := Grant(layout.size, layout.align, |a.fill|)])
  }

  // What the backend does on a free: take the block, with whatever it holds
  function HandBack(h: Heap, ptr: nat, layout: Layout): Heap
    requires Bounded(h) && GrantFits(h.grants, ptr, layout)
  {
    if layout.size == 0 then h
    else h.(grants := h.grants - {ptr}, returned := h.returned + [Handover(ptr, h.mem[ptr..ptr + layout.size])])
  }

  ghost function Wipe(h: Heap, ptr: nat, n: nat): Heap
    requires ptr + n <= |h.mem|
  {
    h.(mem := Blit(h.mem, ptr, Zeros(n)))
  }

  // What the wrapper does on a free: wipe, then hand back
  ghost function Deallocate(h: Heap, ptr: nat, layout: Layout): Heap
    requires Bounded(h) && GrantFits(h.grants, ptr, layout)
  {
    if layout.size == 0 then h else HandBack(Wipe(h, ptr, layout.size), ptr, layout)
  }

  ghost function CopyBytes(h: Heap, src: nat, dst: nat, n: nat): Heap
    requires n > 0 ==> src + n <= |h.mem| && dst + n <= |h.mem|
  {
    if n == 0 then h else h.(mem := Blit(h.mem, dst, h.mem[src..src + n]))
  }

  /** The default `realloc`, `grow` and `shrink`: allocate, copy what both layouts have, free. */
  ghost function Reallocate(h: Heap, ptr: nat, oldLayout: Layout, newLayout: Layout, zeroed: bool, a: Answer): Heap
    requires Bounded(h) && GrantFits(h.grants, ptr, oldLayout) && Acceptable(h, newLayout, zeroed, a)
  {
    if a.Refused? then h
    else
      var g := Allocate(h, newLayout, a);
      var n := Min(oldLayout.size, newLayout.size);
      Deallocate(CopyBytes(g, ptr, a.ptr, n), ptr, oldLayout)
  }

  ghost function ClientWrite(h: Heap, ptr: nat, at: nat, data: seq<Byte>): Heap
    requires Bounded(h) && ptr in h.grants && at + |data| <= h.grants[ptr].len
  {
    h.(mem := Blit(h.mem, ptr + at, data))
  }

  // What the client sees

  ghost function Contents(h: Heap, p: nat): seq<Byte>
    requires Bounded(h) && p in h.grants
  {
    h.mem[p..p + h.grants[p].len]
  }

  ghost function View(h: Heap): map<nat, seq<Byte>>
    requires Bounded(h)
  {
    map p | p in h.grants :: Contents(h, p)
  }

  // The heap changed in `[at, at + n)` only, and no block but the one at `p` reaches in there
  lemma OtherContents(h: Heap, h': Heap, p: nat, at: nat, data: seq<Byte>)
    requires Bounded(h) && Bounded(h') && at + |data| <= |h.mem| && h'.mem == Blit(h.mem, at, data)
    requires Agree(h.grants, h'.grants, p)
    requires forall q :: q in h.grants && q != p ==> q + h.grants[q].len <= at || at + |data| <= q
    ensures Agree(View(h), View(h'), p)
  {
    forall q | q in h.grants && q != p ensures Contents(h', q) == Contents(h, q) {
    }
  }

  // The same for a store into the block at `p`
  lemma OtherContentsInside(h: Heap, h': Heap, p: nat, at: nat, data: seq<Byte>)
    requires Bounded(h) && Bounded(h') && GrantsApart(h.grants) && Agree(h.grants, h'.grants, p)
    requires p in h.grants && p <= at && at + |data| <= p + h.grants[p].len
    requires h'.mem == Blit(h.mem, at, data)
    ensures Agree(View(h), View(h'), p)
  {
    forall q | q in h.grants && q != p ensures q + h.grants[q].len <= at || at + |data| <= q {
    }
    OtherContents(h, h', p, at, data);
  }

  lemma AllocateKeepsHeapInv(h: Heap, layout: Layout, a: Answer)
    requires HeapInv(h) && a.Granted? && 0 < layout.size <= |a.fill| && IsNew(h, a.ptr, |a.fill|)
    ensures HeapInv(Allocate(h, layout, a)) && a.ptr !in h.grants
  {
    var h' := Allocate(h, layout, a);
    forall p | p in h'.grants
      ensures 0 < p && 0 < h'.grants[p].requested <= h'.grants[p].len && p + h'.grants[p].len <= |h'.mem|
    {
      assert p != a.ptr ==> p in h.grants;
    }
    forall p, q | p in h'.grants && q in h'.grants && p != q
      ensures p + h'.grants[p].len <= q || q + h'.grants[q].len <= p
    {
      assert (p != a.ptr ==> p in h.grants) && (q != a.ptr ==> q in h.grants);
    }
  }

  lemma AllocatedContents(h: Heap, layout: Layout, a: Answer)
    requires a.Granted? && 0 < layout.size <= |a.fill| && a.ptr + |a.fill| <= |h.mem|
    requires Bounded(Allocate(h, layout, a))
    ensures Contents(Allocate(h, layout, a), a.ptr) == a.fill
  {
    SliceOfBlit(h.mem, a.ptr, a.fill);
  }

  lemma ViewAllocate(h: Heap, layout: Layout, a: Answer)
    requires HeapInv(h) && a.Granted? && 0 < layout.size <= |a.fill| && IsNew(h, a.ptr, |a.fill|)
    ensures HeapInv(Allocate(h, layout, a)) && a.ptr !in h.grants
    ensures View(Allocate(h, layout, a)) == View(h)[a.ptr := a.fill]
  {
    AllocateKeepsHeapInv(h, layout, a);
    var h' := Allocate(h, layout, a);
    AllocatedContents(h, layout, a);
    OtherContents(h, h', a.ptr, a.ptr, a.fill);
    AgreePut(View(h), View(h'), a.ptr);
  }

  lemma ViewWrite(h: Heap, ptr: nat, at: nat, data: seq<Byte>)
    requires Bounded(h) && GrantsApart(h.grants) && ptr in h.grants && at + |data| <= h.grants[ptr].len
    ensures Bounded(ClientWrite(h, ptr, at, data))
    ensures View(ClientWrite(h, ptr, at, data)) == View(h)[ptr := Blit(Contents(h, ptr), at, data)]
  {
    var h' := ClientWrite(h, ptr, at, data);
    assert Contents(h', ptr) == Blit(Contents(h, ptr), at, data) by {
      SliceAcross(h.mem, ptr + at, data, ptr, ptr + h.grants[ptr].len);
    }
    OtherContentsInside(h, h', ptr, ptr + at, data);
    AgreePut(View(h), View(h'), ptr);
  }

  // A copy is a write of what the source holds
  lemma CopyIsWrite(h: Heap, src: nat, dst: nat, n: nat)
    requires Bounded(h) && src in h.grants && dst in h.grants
    requires 0 < n <= h.grants[src].len && n <= h.grants[dst].len
    ensures CopyBytes(h, src, dst, n) == ClientWrite(h, dst, 0, Contents(h, src)[..n])
  {
    TakeOfSlice(h.mem, src, src + h.grants[src].len, n);
  }

  lemma ViewCopy(h: Heap, src: nat, dst: nat, n: nat)
    requires HeapInv(h) && src in h.grants && dst in h.grants && src != dst
    requires 0 < n <= h.grants[src].len && n <= h.grants[dst].len
    ensures HeapInv(CopyBytes(h, src, dst, n))
    ensures View(CopyBytes(h, src, dst, n)) == View(h)[dst := Contents(h, src)[..n] + Contents(h, dst)[n..]]
  {
    CopyIsWrite(h, src, dst, n);
    ViewWrite(h, dst, 0, Contents(h, src)[..n]);
    BlitAtStart(Contents(h, dst), Contents(h, src)[..n]);
  }

  lemma WipedSlice(mem: seq<Byte>, at: nat, n: nat)
    requires at + n <= |mem|
    ensures Blit(mem, at, Zeros(n))[at..at + n] == Zeros(n)
  {
  }

  /** A free hands back zeros and touches no other block. */
  lemma ViewDeallocate(h: Heap, ptr: nat, layout: Layout)
    requires HeapInv(h) && GrantFits(h.grants, ptr, layout) && layout.size > 0
    ensures var h' := Deallocate(h, ptr, layout);
            && HeapInv(h')
            && View(h') == View(h) - {ptr}
            && h'.returned == h.returned + [Handover(ptr, Zeros(layout.size))]
  {
    var h' := Deallocate(h, ptr, layout);
    WipedSlice(h.mem, ptr, layout.size);
    OtherContentsInside(h, h', ptr, ptr, Zeros(layout.size));
    AgreePut(View(h), View(h'), ptr);
  }

  // The three steps of a successful reallocation
  lemma ViewMove(h: Heap, ptr: nat, oldLayout: Layout, newLayout: Layout, a: Answer, n: nat)
    requires HeapInv(h) && ptr in h.grants && GrantFits(h.grants, ptr, oldLayout)
    requires a.Granted? && 0 < newLayout.size <= |a.fill| && IsNew(h, a.ptr, |a.fill|)
    requires 0 < n <= oldLayout.size && n <= newLayout.size
    ensures var g := Allocate(h, newLayout, a);
            && ptr != a.ptr && Bounded(g) && ptr in g.grants
            && var h' := Deallocate(CopyBytes(g, ptr, a.ptr, n), ptr, oldLayout);
               && HeapInv(h')
               && View(h') == (View(h) - {ptr})[a.ptr := Contents(h, ptr)[..n] + a.fill[n..]]
               && h'.returned == h.returned + [Handover(ptr, Zeros(oldLayout.size))]
  {
    var g := Allocate(h, newLayout, a);
    ViewAllocate(h, newLayout, a);
    assert Contents(g, a.ptr) == View(g)[a.ptr] == a.fill;
    assert Contents(g, ptr) == View(g)[ptr] == Contents(h, ptr);
    ViewCopy(g, ptr, a.ptr, n);
    ViewDeallocate(CopyBytes(g, ptr, a.ptr, n), ptr, oldLayout);
    PutTwiceAndDrop(View(h), a.ptr, a.fill, Contents(h, ptr)[..n] + a.fill[n..], ptr);
  }

  /**
   Reallocation keeps the bytes both layouts have, leaves the rest of the new block as the backend
   handed it out, changes no other block, and hands back the old one as zeros.
   */
  lemma ViewReallocate(h: Heap, ptr: nat, oldLayout: Layout, newLayout: Layout, zeroed: bool, a: Answer)
    requires HeapInv(h) && GrantFits(h.grants, ptr, oldLayout) && Acceptable(h, newLayout, zeroed, a)
    requires a.Granted? && 0 < oldLayout.size && 0 < newLayout.size
    ensures var h' := Reallocate(h, ptr, oldLayout, newLayout, zeroed, a);
            var n := Min(oldLayout.size, newLayout.size);
            && HeapInv(h')
            && ptr != a.ptr
            && View(h') == (View(h) - {ptr})[a.ptr := Contents(h, ptr)[..n] + a.fill[n..]]
            && h'.returned == h.returned + [Handover(ptr, Zeros(oldLayout.size))]
  {
    ViewMove(h, ptr, oldLayout, newLayout, a, Min(oldLayout.size, newLayout.size));
  }
}
