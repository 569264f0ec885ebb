/** Whole runs of `ZeroizeAlloc` as the client sees them: a store from handles to byte strings. */
module WrapperStore {
  import opened Maps
  import opened Memory
  import opened PageState
  import opened WrapperSpec
  import opened WrapperRuns

  // The contents of the client's blocks, by handle
  type Store = map<nat, seq<Byte>>

  ghost predicate AllocNext(st: Store, layout: Layout, a: Answer, st': Store) {
    if a.Refused? || layout.size == 0 then st' == st
    else a.ptr !in st && st' == st[a.ptr := a.fill]
  }

  ghost function FreeNext(st: Store, ptr: nat, layout: Layout): Store {
    if layout.size == 0 then st else st - {ptr}
  }

  // A refusal changes nothing; otherwise the common prefix moves to the new block, and the rest of
  // that is as the backend handed it out
  ghost predicate ReallocNext(st: Store, ptr: nat, oldLayout: Layout, newLayout: Layout, a: Answer, st': Store) {
    if a.Refused? then st' == st
    else if oldLayout.size == 0 then AllocNext(st, newLayout, a, st')
    else if newLayout.size == 0 then st' == st - {ptr}
    else
      var n := Min(oldLayout.size, newLayout.size);
      && ptr in st && a.ptr !in st
      && n <= |st[ptr]| && n <= |a.fill|
      && st' == (st - {ptr})[a.ptr := st[ptr][..n] + a.fill[n..]]
  }

  ghost predicate CallNext(st: Store, call: Call, st': Store) {
    match call
    case Alloc(layout, _, answer) => AllocNext(st, layout, answer, st')
    case Free(ptr, layout) => st' == FreeNext(st, ptr, layout)
    case Realloc(ptr, oldLayout, newLayout, _, answer) => ReallocNext(st, ptr, oldLayout, newLayout, answer, st')
    case Store(ptr, at, data) =>
      ptr in st && at + |data| <= |st[ptr]| && st' == st[ptr := Blit(st[ptr], at, data)]
  }

  ghost predicate CallsBehave(st: Store, calls: seq<Call>, st': Store)
    decreases |calls|
  {
    if calls == [] then st' == st
    else exists mid :: CallNext(st, calls[0], mid) && CallsBehave(mid, calls[1..], st')
  }

  lemma AllocRefines(h: Heap, layout: Layout, zeroed: bool, a: Answer)
    requires HeapInv(h) && Acceptable(h, layout, zeroed, a)
    ensures Bounded(Allocate(h, layout, a)) && AllocNext(View(h), layout, a, View(Allocate(h, layout, a)))
  {
    if a.Granted? && layout.size > 0 { ViewAllocate(h, layout, a); }
  }

  lemma ReallocRefines(h: Heap, ptr: nat, oldLayout: Layout, newLayout: Layout, zeroed: bool, a: Answer)
    requires HeapInv(h) && GrantFits(h.grants, ptr, oldLayout) && Acceptable(h, newLayout, zeroed, a)
    ensures var h' := Reallocate(h, ptr, oldLayout, newLayout, zeroed, a);
            Bounded(h') && ReallocNext(View(h), ptr, oldLayout, newLayout, a, View(h'))
  {
    if a.Granted? {
      if oldLayout.size == 0 {
        AllocRefines(h, newLayout, zeroed, a);
      } else if newLayout.size == 0 {
        ViewDeallocate(h, ptr, oldLayout);
      } else {
        ViewReallocate(h, ptr, oldLayout, newLayout, zeroed, a);
        AllocateKeepsHeapInv(h, newLayout, a);
      }
    }
  }

  lemma CallRefines(h: Heap, call: Call)
    requires HeapInv(h) && CallOk(h, call)
    ensures Bounded(After(h, call)) && CallNext(View(h), call, View(After(h, call)))
  {
    match call
    case Alloc(layout, zeroed, answer) => AllocRefines(h, layout, zeroed, answer);
    case Free(ptr, layout) => if layout.size > 0 { ViewDeallocate(h, ptr, layout); }
    case Realloc(ptr, oldLayout, newLayout, zeroed, answer) =>
      ReallocRefines(h, ptr, oldLayout, newLayout, zeroed, answer);
    case Store(ptr, at, data) => ViewWrite(h, ptr, at, data);
  }

  /** Over any run and any backend the client's blocks behave as a store from handles to byte strings. */
  lemma {:induction false} CallsRefine(h: Heap, calls: seq<Call>)
    requires HeapInv(h) && LegalCalls(h, calls)
    ensures Bounded(AfterAll(h, calls)) && CallsBehave(View(h), calls, View(AfterAll(h, calls)))
    decreases |calls|
  {
    if calls == [] {
    } else {
      CallWipes(h, calls[0]);
      CallRefines(h, calls[0]);
      CallsRefine(After(h, calls[0]), calls[1..]);
      assert CallNext(View(h), calls[0], View(After(h, calls[0])));
    }
  }
}
