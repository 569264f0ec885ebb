/** Whole runs of `ZeroizeAlloc`: any calls, any client stores, and any answers of the backend. */
module WrapperRuns {
  import opened Memory
  import opened PageState
  import opened WrapperSpec

  datatype Call =
    | Alloc(layout: Layout, zeroed: bool, answer: Answer)
    | Free(ptr: nat, layout: Layout)
    | Realloc(ptr: nat, oldLayout: Layout, newLayout: Layout, zeroed: bool, answer: Answer)
    | Store(ptr: nat, at: nat, data: seq<Byte>)

  // The client keeps the allocator contract, and so does the backend with its answer
  ghost predicate CallOk(h: Heap, call: Call) {
    match call
    case Alloc(layout, zeroed, answer) => Acceptable(h, layout, zeroed, answer)
    case Free(ptr, layout) => GrantFits(h.grants, ptr, layout)
    case Realloc(ptr, oldLayout, newLayout, zeroed, answer) =>
      GrantFits(h.grants, ptr, oldLayout) && Acceptable(h, newLayout, zeroed, answer)
    case Store(ptr, at, data) => ptr in h.grants && at + |data| <= h.grants[ptr].len
  }

  ghost function After(h: Heap, call: Call): Heap
    requires HeapInv(h) && CallOk(h, call)
  {
    match call
    case Alloc(layout, _, answer) => Allocate(h, layout, answer)
    case Free(ptr, layout) => Deallocate(h, ptr, layout)
    case Realloc(ptr, oldLayout, newLayout, zeroed, answer) =>
      Reallocate(h, ptr, oldLayout, newLayout, zeroed, answer)
    case Store(ptr, at, data) => ClientWrite(h, ptr, at, data)
  }

  // What the backend ought to get back on a call, and to find in it
  ghost function HandedBack(call: Call): seq<Handover> {
    match call
    case Free(ptr, layout) => if layout.size == 0 then [] else [Handover(ptr, Zeros(layout.size))]
    case Realloc(ptr, oldLayout, _, _, answer) =>
      if oldLayout.size == 0 || answer.Refused? then [] else [Handover(ptr, Zeros(oldLayout.size))]
    case _ => []
  }

  lemma CallWipes(h: Heap, call: Call)
    requires HeapInv(h) && CallOk(h, call)
    ensures HeapInv(After(h, call))
    ensures After(h, call).returned == h.returned + HandedBack(call)
  {
    match call
    case Alloc(layout, _, answer) =>
      if answer.Granted? && layout.size > 0 { AllocateKeepsHeapInv(h, layout, answer); }
    case Free(ptr, layout) =>
      if layout.size > 0 { ViewDeallocate(h, ptr, layout); }
    case Realloc(ptr, oldLayout, newLayout, zeroed, answer) =>
      ReallocateWipes(h, ptr, oldLayout, newLayout, zeroed, answer);
    case Store(ptr, at, data) =>
  }

  lemma ReallocateWipes(h: Heap, ptr: nat, oldLayout: Layout, newLayout: Layout, zeroed: bool, a: Answer)
    requires HeapInv(h) && GrantFits(h.grants, ptr, oldLayout) && Acceptable(h, newLayout, zeroed, a)
    ensures var h' := Reallocate(h, ptr, oldLayout, newLayout, zeroed, a);
            && HeapInv(h')
            && h'.returned == h.returned + HandedBack(Realloc(ptr, oldLayout, newLayout, zeroed, a))
  {
    if a.Granted? {
      if oldLayout.size > 0 && newLayout.size > 0 {
        ViewReallocate(h, ptr, oldLayout, newLayout, zeroed, a);
      } else if oldLayout.size > 0 {
        ViewDeallocate(h, ptr, oldLayout);
      } else if newLayout.size > 0 {
        AllocateKeepsHeapInv(h, newLayout, a);
      }
    }
  }

  ghost predicate LegalCalls(h: Heap, calls: seq<Call>)
    requires HeapInv(h)
    decreases |calls|
  {
    calls == [] || (CallOk(h, calls[0]) && (CallWipes(h, calls[0]); LegalCalls(After(h, calls[0]), calls[1..])))
  }

  ghost function AfterAll(h: Heap, calls: seq<Call>): Heap
    requires HeapInv(h) && LegalCalls(h, calls)
    decreases |calls|
  {
    if calls == [] then h else (CallWipes(h, calls[0]); AfterAll(After(h, calls[0]), calls[1..]))
  }

  ghost function AllHandedBack(calls: seq<Call>): seq<Handover> {
    if calls == [] then [] else HandedBack(calls[0]) + AllHandedBack(calls[1..])
  }

  /**
   Over any run and any backend, the blocks handed back are exactly those freed or moved, in order,
   and each holds nothing but zeros over its layout size.
   */
  lemma {:induction false} EveryBlockIsWiped(h: Heap, calls: seq<Call>)
    requires HeapInv(h) && LegalCalls(h, calls)
    ensures HeapInv(AfterAll(h, calls))
    ensures AfterAll(h, calls).returned == h.returned + AllHandedBack(calls)
    decreases |calls|
  {
    if calls == [] {
    } else {
      var g, now, later := After(h, calls[0]), HandedBack(calls[0]), AllHandedBack(calls[1..]);
      CallWipes(h, calls[0]);
      EveryBlockIsWiped(g, calls[1..]);
      assert (h.returned + now) + later == h.returned + (now + later);
    }
  }

  // Whole blocks

  // The block of `len` bytes at `ptr` holds nothing but zeros
  ghost predicate AllZero(h: Heap, ptr: nat, len: nat) {
    ptr + len <= |h.mem| && h.mem[ptr..ptr + len] == Zeros(len)
  }

  /**
   A free wipes the layout size, not the granted length. Whatever the client stored, the whole block
   is wiped exactly when the layout of the free has the granted length.
   */
  lemma WholeBlockWipedIff(h: Heap, ptr: nat, layout: Layout)
    requires Bounded(h) && GrantFits(h.grants, ptr, layout) && layout.size > 0
    ensures var len := h.grants[ptr].len;
            layout.size == len
            <==> forall data: seq<Byte> :: |data| == len ==>
                   AllZero(Wipe(ClientWrite(h, ptr, 0, data), ptr, layout.size), ptr, len)
  {
    var n, len := layout.size, h.grants[ptr].len;
    forall data: seq<Byte> | |data| == len
      ensures n == len ==> AllZero(Wipe(ClientWrite(h, ptr, 0, data), ptr, n), ptr, len)
    {
      WipedSlice(ClientWrite(h, ptr, 0, data).mem, ptr, n);
    }
    if n < len {
      var ones := seq(len, _ => 1 as Byte);
      var w := Wipe(ClientWrite(h, ptr, 0, ones), ptr, n);
      assert w.mem[ptr..ptr + len][n] == w.mem[ptr + n] == 1;
      assert !AllZero(w, ptr, len);
    }
  }

  // A run may be extended at its end
  lemma {:induction false} AfterAllSnoc(h: Heap, calls: seq<Call>, call: Call)
    requires HeapInv(h) && LegalCalls(h, calls) && HeapInv(AfterAll(h, calls)) && CallOk(AfterAll(h, calls), call)
    ensures LegalCalls(h, calls + [call]) && AfterAll(h, calls + [call]) == After(AfterAll(h, calls), call)
    decreases |calls|
  {
    if calls == [] {
      CallWipes(h, call);
      assert calls + [call] == [call];
    } else {
      CallWipes(h, calls[0]);
      AfterAllSnoc(After(h, calls[0]), calls[1..], call);
      assert (calls + [call])[1..] == calls[1..] + [call];
    }
  }

  // Filling a block and freeing it, at the end of a run
  ghost function FillAndFree(calls: seq<Call>, ptr: nat, data: seq<Byte>, layout: Layout): seq<Call> {
    calls + [Store(ptr, 0, data)] + [Free(ptr, layout)]
  }

  // Whether that ends with the block wiped
  ghost predicate EndsWiped(h: Heap, calls: seq<Call>, ptr: nat, data: seq<Byte>, layout: Layout, len: nat)
    requires HeapInv(h)
  {
    var run := FillAndFree(calls, ptr, data, layout);
    LegalCalls(h, run) && AllZero(AfterAll(h, run), ptr, len)
  }

  lemma FillAndFreeResult(h: Heap, calls: seq<Call>, ptr: nat, data: seq<Byte>, layout: Layout)
    requires HeapInv(h) && LegalCalls(h, calls) && HeapInv(AfterAll(h, calls))
    requires ptr in AfterAll(h, calls).grants && |data| == AfterAll(h, calls).grants[ptr].len
    requires GrantFits(AfterAll(h, calls).grants, ptr, layout) && layout.size > 0
    ensures EndsWiped(h, calls, ptr, data, layout, |data|)
       <==> AllZero(Wipe(ClientWrite(AfterAll(h, calls), ptr, 0, data), ptr, layout.size), ptr, |data|)
  {
    AfterAllSnoc(h, calls, Store(ptr, 0, data));
    EveryBlockIsWiped(h, calls + [Store(ptr, 0, data)]);
    AfterAllSnoc(h, calls + [Store(ptr, 0, data)], Free(ptr, layout));
  }

  /** So in runs: whatever a client stores before a free is gone from its block exactly when the lengths agree. */
  lemma FreedBlockIsWipedIff(h: Heap, calls: seq<Call>, ptr: nat, layout: Layout)
    requires HeapInv(h) && LegalCalls(h, calls)
    requires GrantFits(AfterAll(h, calls).grants, ptr, layout) && layout.size > 0
    ensures var len := AfterAll(h, calls).grants[ptr].len;
            layout.size == len
            <==> forall data: seq<Byte> :: |data| == len ==> EndsWiped(h, calls, ptr, data, layout, len)
  {
    EveryBlockIsWiped(h, calls);
    var g := AfterAll(h, calls);
    WholeBlockWipedIff(g, ptr, layout);
    forall data: seq<Byte> | |data| == g.grants[ptr].len
      ensures EndsWiped(h, calls, ptr, data, layout, |data|)
         <==> AllZero(Wipe(ClientWrite(g, ptr, 0, data), ptr, layout.size), ptr, |data|)
    {
      FillAndFreeResult(h, calls, ptr, data, layout);
    }
  }

  // An eight byte grant for a one byte request, a store behind that byte, and a free
  function OverGrant(): seq<Call> {
    [Alloc(Layout(1, 1), false, Granted(8, Zeros(8))), Store(8, 1, [7]), Free(8, Layout(1, 1))]
  }

  // Its three steps
  lemma OverGrantAllocated(h: Heap)
    requires h == Heap(Zeros(16), map[], [])
    ensures HeapInv(h) && CallOk(h, OverGrant()[0]) && HeapInv(After(h, OverGrant()[0]))
    ensures After(h, OverGrant()[0]).grants == map[8 := Grant(1, 1, 8)] && |After(h, OverGrant()[0]).mem| == 16
  {
    CallWipes(h, OverGrant()[0]);
  }

  lemma OverGrantStored(h: Heap)
    requires HeapInv(h) && h.grants == map[8 := Grant(1, 1, 8)] && |h.mem| == 16
    ensures CallOk(h, OverGrant()[1]) && HeapInv(After(h, OverGrant()[1]))
    ensures var h' := After(h, OverGrant()[1]);
            h'.grants == map[8 := Grant(1, 1, 8)] && |h'.mem| == 16 && h'.mem[9] == 7
  {
    CallWipes(h, OverGrant()[1]);
  }

  lemma OverGrantFreed(h: Heap)
    requires HeapInv(h) && h.grants == map[8 := Grant(1, 1, 8)] && |h.mem| == 16 && h.mem[9] == 7
    ensures CallOk(h, OverGrant()[2]) && HeapInv(After(h, OverGrant()[2]))
    ensures var h' := After(h, OverGrant()[2]);
            h'.grants == map[] && |h'.mem| == 16 && h'.mem[9] == 7
  {
    CallWipes(h, OverGrant()[2]);
  }

  /** A legal run after which a freed block still holds what the client stored in it. */
  lemma FreedBlockKeepsBytes()
    ensures var h := Heap(Zeros(16), map[], []);
            && HeapInv(h)
            && LegalCalls(h, OverGrant())
            && AfterAll(h, OverGrant()).grants == map[]
            && |AfterAll(h, OverGrant()).mem| == 16
            && AfterAll(h, OverGrant()).mem[9] == 7
  {
    var h, calls := Heap(Zeros(16), map[], []), OverGrant();
    OverGrantAllocated(h);
    var one := After(h, calls[0]);
    OverGrantStored(one);
    var two := After(one, calls[1]);
    OverGrantFreed(two);
    assert calls[1..][0] == calls[1] && calls[1..][1..] == [calls[2]] && [calls[2]][1..] == [];
  }
}
