/**
 The promise of zero fragmentation: a client that only frees, grows and shrinks the block it created
 last, and asks for more than 8 byte alignment only for the bottom block, never loses a byte of the
 page.
 */
module StackDiscipline {
  import opened Memory
  import opened PageState
  import opened PageSpec
  import opened Invariant
  import opened Runs
  import opened Usize
  import PageArithmetic

  // The client's own record: the blocks it holds, oldest first
  type Stack = seq<nat>

  function Last(stack: Stack): nat
    requires stack != []
  {
    stack[|stack| - 1]
  }

  function Rest(stack: Stack): Stack
    requires stack != []
  {
    stack[..|stack| - 1]
  }

  // The blocks of the stack lie end to end from the start of the page to `end`
  ghost predicate Tiles(live: Blocks, base: nat, stack: Stack, end: nat)
    decreases |stack|
  {
    if stack == [] then
      end == base
    else
      && Last(stack) in live
      && Last(stack) + live[Last(stack)].size == end
      && Tiles(live, base, Rest(stack), Last(stack))
  }

  /** The live blocks, in the order of their creation, fill the page up to the stack top without gaps. */
  ghost predicate Tight(s: State, stack: Stack) {
    && s.live.Keys == (set p | p in stack)
    && Tiles(s.live, s.page.base, stack, s.page.base + s.top)
    && s.bytes == s.top
  }

  // What the documentation asks of the client
  ghost predicate Disciplined(stack: Stack, op: Op) {
    match op
    case AllocateOp(layout) => MayPush(stack, layout)
    case DeallocateOp(ptr, layout) => layout.size == 0 || IsLast(stack, ptr)
    case GrowOp(ptr, oldLayout, newLayout) =>
      if oldLayout.size == 0 then MayPush(stack, newLayout) else MayResize(stack, ptr, newLayout)
    case ShrinkOp(ptr, oldLayout, newLayout) => oldLayout.size == 0 || MayResize(stack, ptr, newLayout)
    case ReallocGrowOp(_, _, _) => false
    case ReallocShrinkOp(_, _, _) => false
    case WriteOp(_, _, _) => true
  }

  predicate MayPush(stack: Stack, layout: Layout) {
    layout.size == 0 || layout.align <= 8 || stack == []
  }

  predicate IsLast(stack: Stack, ptr: nat) {
    stack != [] && Last(stack) == ptr
  }

  predicate MayResize(stack: Stack, ptr: nat, layout: Layout) {
    IsLast(stack, ptr) && (layout.size == 0 || layout.align <= 8 || |stack| == 1)
  }

  // How the client updates its record on a reply
  function Push(stack: Stack, layout: Layout, reply: Reply): Stack {
    if layout.size > 0 && reply.Ok? then stack + [reply.ptr] else stack
  }

  function Recorded(stack: Stack, op: Op, reply: Reply): Stack
  {
    match op
    case AllocateOp(layout) => Push(stack, layout, reply)
    case DeallocateOp(_, layout) => if layout.size > 0 && stack != [] then Rest(stack) else stack
    case GrowOp(_, oldLayout, newLayout) => if oldLayout.size == 0 then Push(stack, newLayout, reply) else stack
    case ShrinkOp(_, oldLayout, newLayout) =>
      if oldLayout.size > 0 && newLayout.size == 0 && stack != [] then Rest(stack) else stack
    case _ => stack
  }

  // Tiles depend only on the blocks of the stack
  lemma {:induction false} TilesFrame(live: Blocks, live': Blocks, base: nat, stack: Stack, end: nat)
    requires Tiles(live, base, stack, end)
    requires forall p :: p in stack ==> p in live' && (p in live ==> live'[p] == live[p])
    ensures Tiles(live', base, stack, end)
    decreases |stack|
  {
    if stack == [] {
    } else {
      TilesFrame(live, live', base, Rest(stack), Last(stack));
    }
  }

  // Every block but the last ends at or below the last, which is therefore not repeated
  lemma {:induction false} TilesBelow(live: Blocks, base: nat, stack: Stack, end: nat, p: nat)
    requires Tiles(live, base, stack, end) && p in stack
    requires forall q :: q in live ==> live[q].size > 0
    ensures base <= p < end
    decreases |stack|
  {
    if p in Rest(stack) {
      TilesBelow(live, base, Rest(stack), Last(stack), p);
      TilesNonempty(live, base, stack, end);
    } else {
      TilesNonempty(live, base, stack, end);
    }
  }

  lemma {:induction false} TilesNonempty(live: Blocks, base: nat, stack: Stack, end: nat)
    requires Tiles(live, base, stack, end)
    ensures base <= end && (stack != [] ==> base <= Last(stack) <= end)
    decreases |stack|
  {
    if stack == [] {
    } else {
      TilesNonempty(live, base, Rest(stack), Last(stack));
    }
  }

  lemma SizesPositive(s: State)
    requires Inv(s)
    ensures forall q :: q in s.live ==> s.live[q].size > 0
  {
    forall q | q in s.live ensures s.live[q].size > 0 { EndsBelowTop(s, q); }
  }

  // The last block of a tight stack
  lemma LastFacts(s: State, stack: Stack)
    requires Inv(s) && Tight(s, stack) && stack != []
    ensures Last(stack) in s.live && EndsAtTop(s, Last(stack))
    ensures Last(stack) !in Rest(stack)
    ensures |stack| == 1 ==> Last(stack) == s.page.base
    ensures forall p :: p in s.live && p != Last(stack) ==> p in Rest(stack)
    ensures |stack| == 1 <==> s.live.Keys == {Last(stack)}
  {
    SizesPositive(s);
    if Last(stack) in Rest(stack) {
      TilesBelow(s.live, s.page.base, Rest(stack), Last(stack), Last(stack));
    }
    forall p | p in s.live && p != Last(stack) ensures p in Rest(stack) {
      assert p in stack;
    }
    if |stack| == 1 {
      assert Rest(stack) == [] && Tiles(s.live, s.page.base, Rest(stack), Last(stack));
    } else {
      assert stack[0] in s.live && stack[0] in Rest(stack);
    }
  }

  lemma PushKeepsTight(s: State, stack: Stack, p: nat, b: Block)
    requires Inv(s) && Tight(s, stack) && p == s.page.base + s.top
    ensures Tight(AllocateAt(s, p, b), stack + [p])
  {
    SizesPositive(s);
    var s', stack' := AllocateAt(s, p, b), stack + [p];
    if p in stack { TilesBelow(s.live, s.page.base, stack, p, p); }
    TilesFrame(s.live, s'.live, s.page.base, stack, p);
    assert Rest(stack') == stack && Last(stack') == p;
  }

  lemma PopKeepsTight(s: State, stack: Stack)
    requires Inv(s) && Tight(s, stack) && stack != []
    ensures Sized(s) && Last(stack) in s.live && Tight(Release(s, Last(stack)), Rest(stack))
  {
    InvSized(s, 0);
    LastFacts(s, stack);
    var p := Last(stack);
    var s' := Release(s, p);
    TilesFrame(s.live, s'.live, s.page.base, Rest(stack), p);
    TilesNonempty(s.live, s.page.base, Rest(stack), p);
  }

  // Resizing the last block in place
  lemma ResizeKeepsTight(s: State, s': State, stack: Stack, b: Block)
    requires Inv(s) && Tight(s, stack) && stack != [] && s'.page == s.page
    requires s'.live == s.live[Last(stack) := b]
    requires s'.top == Last(stack) + b.size - s.page.base
    requires s'.bytes == s.bytes + b.size - s.live[Last(stack)].size
    ensures Tight(s', stack)
  {
    LastFacts(s, stack);
    TilesFrame(s.live, s'.live, s.page.base, Rest(stack), Last(stack));
  }

  // At the start of the page every alignment up to the page size is met
  lemma PageStart(page: Page, align: nat)
    requires page.Valid() && IsPowerOfTwo(align)
    ensures align > 0
    ensures align <= page.size ==> page.base % align == 0
    ensures align > page.size ==> align % page.size == 0
  {
    if align <= page.size {
      PowersDivide(align, page.size);
      ModTransitive(page.base, page.size, align);
    } else {
      PowersDivide(page.size, align);
    }
  }

  // A multiple of `align` above a page that is not one lies beyond the page
  lemma BeyondPage(p: nat, base: nat, size: nat, align: nat)
    requires 0 < size && 0 < align && align % size == 0 && base % size == 0
    requires p % align == 0 && base % align != 0 && p >= base
    ensures p >= base + size
  {
    ModTransitive(p, align, size);
    ModUnique(size, size, 1, 0);
    ModSum(base, size, size);
    NextMultiple(p, base + size, size);
  }

  // Where an alignment is not met at the start of the page it is met nowhere in it
  lemma NoAlignedAddress(s: State, layout: Layout)
    requires s.page.Valid() && layout.Valid(s.page.bits) && layout.size > 0
    requires layout.align > 8 && s.page.base % layout.align != 0
    ensures !HasRoom(s, layout)
  {
    PlaceIsLowest(s, layout.align);
    PageStart(s.page, layout.align);
    BeyondPage(Place(s, layout.align), s.page.base, s.page.size, layout.align);
    BlockForIsGood(layout);
  }

  // Calls by a disciplined client

  lemma AllocateTight(s: State, stack: Stack, layout: Layout)
    requires Inv(s) && s.page.Valid() && layout.Valid(s.page.bits) && Tight(s, stack) && MayPush(stack, layout)
    ensures var o := Allocate(s, layout); Tight(o.s, Push(stack, layout, o.reply))
  {
    if layout.size > 0 && HasRoom(s, layout) {
      var p := Place(s, layout.align);
      assert p == s.page.base + s.top by {
        if layout.align <= 8 {
          PageArithmetic.LowAlignPlace(s, layout);
        } else if s.page.base % layout.align != 0 {
          NoAlignedAddress(s, layout);
        }
      }
      PushKeepsTight(s, stack, p, BlockFor(layout));
    }
  }

  // The last block meets any alignment a disciplined client may ask for, unless no address does
  lemma LastIsAligned(s: State, stack: Stack, layout: Layout)
    requires Inv(s) && s.page.Valid() && layout.Valid(s.page.bits) && layout.size > 0
    requires Tight(s, stack) && stack != [] && MayResize(stack, Last(stack), layout)
    ensures layout.align > 0
    ensures Last(stack) % layout.align == 0 || !HasRoom(s, layout)
  {
    LastFacts(s, stack);
    EndsBelowTop(s, Last(stack));
    if layout.align <= 8 {
      AlignedBoth(Last(stack), layout.align);
    } else if s.page.base % layout.align != 0 {
      NoAlignedAddress(s, layout);
    }
  }

  lemma GrowTight(s: State, stack: Stack, ptr: nat, oldLayout: Layout, newLayout: Layout)
    requires Inv(s) && s.page.Valid() && GrowOk(s, ptr, oldLayout, newLayout) && oldLayout.size > 0
    requires Tight(s, stack) && MayResize(stack, ptr, newLayout)
    ensures Tight(Grow(s, ptr, oldLayout, newLayout).s, stack)
  {
    LastFacts(s, stack);
    LastIsAligned(s, stack, newLayout);
    if CanExtend(s, ptr, newLayout) {
      InvSized(s, ptr);
      ResizeKeepsTight(s, Extend(s, ptr, BlockFor(newLayout)), stack, BlockFor(newLayout));
    } else if ptr % newLayout.align == 0 {
      PageArithmetic.EarlyErrorLosesNothing(s, ptr, oldLayout, newLayout);
    }
  }

  lemma ShrinkTight(s: State, stack: Stack, ptr: nat, oldLayout: Layout, newLayout: Layout)
    requires Inv(s) && s.page.Valid() && ShrinkOk(s, ptr, oldLayout, newLayout) && oldLayout.size > 0
    requires Tight(s, stack) && MayResize(stack, ptr, newLayout)
    ensures var o := Shrink(s, ptr, oldLayout, newLayout);
            Tight(o.s, if newLayout.size == 0 then Rest(stack) else stack)
  {
    LastFacts(s, stack);
    if newLayout.size == 0 {
      PopKeepsTight(s, stack);
    } else {
      LastIsAligned(s, stack, newLayout);
      if ptr % newLayout.align == 0 {
        InvSized(s, ptr);
        RoundedFits(s, ptr, oldLayout, newLayout);
        ResizeKeepsTight(s, Trim(s, ptr, BlockFor(newLayout)), stack, BlockFor(newLayout));
      }
    }
  }

  lemma WriteTight(s: State, stack: Stack, ptr: nat, at: nat, data: seq<Byte>)
    requires Inv(s) && Permitted(s, WriteOp(ptr, at, data)) && Tight(s, stack)
    ensures Sized(s) && Tight(ClientWrite(s, ptr, at, data), stack)
  {
    InvSized(s, ptr);
  }

  /** Every disciplined call keeps the blocks end to end in the order of their creation. */
  lemma StepKeepsTight(s: State, stack: Stack, op: Op)
    requires Inv(s) && s.page.Valid() && Permitted(s, op) && Tight(s, stack) && Disciplined(stack, op)
    ensures var o := Step(s, op); Tight(o.s, Recorded(stack, op, o.reply))
  {
    InvSized(s, 0);
    match op
    case AllocateOp(layout) => AllocateTight(s, stack, layout);
    case DeallocateOp(ptr, layout) => if layout.size > 0 { PopKeepsTight(s, stack); }
    case GrowOp(ptr, oldLayout, newLayout) =>
      if oldLayout.size == 0 {
        AllocateTight(s, stack, newLayout);
      } else {
        GrowTight(s, stack, ptr, oldLayout, newLayout);
      }
    case ShrinkOp(ptr, oldLayout, newLayout) =>
      if oldLayout.size > 0 { ShrinkTight(s, stack, ptr, oldLayout, newLayout); }
    case WriteOp(ptr, at, data) => WriteTight(s, stack, ptr, at, data);
  }

  // A run in which every call is disciplined, and the record at its end
  ghost predicate DisciplinedRun(s: State, stack: Stack, ops: seq<Op>)
    requires Inv(s) && Legal(s, ops)
    decreases |ops|
  {
    ops == []
    || (Disciplined(stack, ops[0])
        && (StepKeepsInv(s, ops[0]);
            var o := Step(s, ops[0]);
            DisciplinedRun(o.s, Recorded(stack, ops[0], o.reply), ops[1..])))
  }

  ghost function FinalStack(s: State, stack: Stack, ops: seq<Op>): Stack
    requires Inv(s) && Legal(s, ops)
    decreases |ops|
  {
    if ops == [] then stack
    else
      StepKeepsInv(s, ops[0]);
      var o := Step(s, ops[0]);
      FinalStack(o.s, Recorded(stack, ops[0], o.reply), ops[1..])
  }

  lemma {:induction false} RunKeepsTight(s: State, stack: Stack, ops: seq<Op>)
    requires Inv(s) && s.page.Valid() && Legal(s, ops) && Tight(s, stack) && DisciplinedRun(s, stack, ops)
    ensures Tight(Run(s, ops), FinalStack(s, stack, ops))
    decreases |ops|
  {
    if ops == [] {
    } else {
      StepKeepsInv(s, ops[0]);
      StepKeepsTight(s, stack, ops[0]);
      var o := Step(s, ops[0]);
      RunKeepsTight(o.s, Recorded(stack, ops[0], o.reply), ops[1..]);
    }
  }

  /**
   After any disciplined run from a fresh page the live blocks tile the page up to the stack top, and
   a request for at most 8 byte alignment succeeds exactly when its rounded size fits in what is not
   allocated.
   */
  lemma NoFragmentation(page: Page, ops: seq<Op>, layout: Layout)
    requires page.Valid() && Inv(Initial(page)) && Legal(Initial(page), ops)
    requires DisciplinedRun(Initial(page), [], ops)
    requires layout.size > 0 && layout.align <= 8
    ensures var s := Run(Initial(page), ops);
            && Tight(s, FinalStack(Initial(page), [], ops))
            && (Allocate(s, layout).reply.Ok? <==> Round8(layout.size) <= page.size - s.bytes)
  {
    var s := Run(Initial(page), ops);
    RunKeepsInv(Initial(page), ops);
    RunKeepsTight(Initial(page), [], ops);
    PageArithmetic.LowAlignPlace(s, layout);
  }
}
