/**
 A client can tell when `ptr_is_last_allocation` answers as documented. It keeps a record of its own
 blocks, and one bit, from nothing but its calls and their replies.
 */
module ClientRecord {
  import opened Maps
  import opened Memory
  import opened PageState
  import opened PageSpec
  import opened Invariant
  import opened Runs
  import opened TopOfStack

  // The client's blocks, and whether it holds the stack top to be snug
  datatype Record = Record(live: Blocks, snug: bool)

  // What the client writes down

  function NoteAllocate(r: Record, layout: Layout, reply: Reply): Record {
    if layout.size > 0 && reply.Ok? then
      Record(r.live[reply.ptr := Block(layout.size, layout.align, reply.len)], true)
    else r
  }

  ghost function NoteFree(r: Record, ptr: nat, layout: Layout): Record {
    if layout.size == 0 then r
    else Record(r.live - {ptr}, SnugAfterFree(r.live, r.snug, ptr))
  }

  ghost function NoteResize(r: Record, ptr: nat, oldLayout: Layout, newLayout: Layout, reply: Reply): Record {
    if oldLayout.size == 0 then NoteAllocate(r, newLayout, reply)
    else if newLayout.size == 0 then NoteFree(r, ptr, oldLayout)
    else if reply.Ok? then
      Record((r.live - {ptr})[reply.ptr := Block(newLayout.size, newLayout.align, reply.len)],
             reply.ptr != ptr || r.snug)
    else r
  }

  ghost function Note(r: Record, op: Op, reply: Reply): Record {
    match op
    case AllocateOp(layout) => NoteAllocate(r, layout, reply)
    case DeallocateOp(ptr, layout) => NoteFree(r, ptr, layout)
    case GrowOp(ptr, oldLayout, newLayout) => NoteResize(r, ptr, oldLayout, newLayout, reply)
    case ShrinkOp(ptr, oldLayout, newLayout) => NoteResize(r, ptr, oldLayout, newLayout, reply)
    case ReallocGrowOp(ptr, oldLayout, newLayout) => NoteResize(r, ptr, oldLayout, newLayout, reply)
    case ReallocShrinkOp(ptr, oldLayout, newLayout) => NoteResize(r, ptr, oldLayout, newLayout, reply)
    case WriteOp(_, _, _) => r
  }

  ghost function NoteAll(r: Record, ops: seq<Op>, replies: seq<Reply>): Record
    requires |ops| == |replies|
    decreases |ops|
  {
    if ops == [] then r else NoteAll(Note(r, ops[0], replies[0]), ops[1..], replies[1..])
  }

  // The truth the record is about
  ghost function Truth(s: State): Record {
    Record(s.live, Snug(s))
  }

  lemma AllocateNoted(s: State, layout: Layout)
    ensures var o := Allocate(s, layout); Truth(o.s) == NoteAllocate(Truth(s), layout, o.reply)
  {
    if layout.size > 0 && HasRoom(s, layout) {
      PlaceAboveTop(s, layout.align);
      BlockForIsGood(layout);
      AllocateAtSnug(s, Place(s, layout.align), BlockFor(layout));
    }
  }

  lemma DeallocateNoted(s: State, ptr: nat, layout: Layout)
    requires Inv(s) && Fits(s.live, ptr, layout)
    ensures Sized(s) && Truth(Deallocate(s, ptr, layout)) == NoteFree(Truth(s), ptr, layout)
  {
    InvSized(s, ptr);
    if layout.size > 0 { ReleaseSnug(s, ptr); }
  }

  // The new block of a move is the highest, so freeing the old one leaves no gap
  lemma TransferSnug(s: State, ptr: nat, layout: Layout, dst: nat, n: nat)
    requires Inv(s) && Fits(s.live, ptr, layout) && n <= layout.size && layout.size > 0
    requires dst in s.live && n <= s.live[dst].size && EndsAtTop(s, dst) && dst != ptr
    ensures Sized(s) && Snug(Transfer(s, ptr, layout, dst, n))
  {
    CopyKeepsInv(s, ptr, dst, n);
    var c := Copy(s, ptr, dst, n);
    LastIffTopmost(c, dst);
    EndsBelowTop(c, dst);
    ReleaseSnug(c, ptr);
    assert dst in c.live - {ptr};
  }

  // A move that gets a new block
  lemma MovedNoted(s: State, ptr: nat, oldLayout: Layout, newLayout: Layout, q: nat, b: Block, n: nat)
    requires Inv(s) && Fits(s.live, ptr, oldLayout) && oldLayout.size > 0 && n <= oldLayout.size && n <= b.size
    requires s.page.base <= q && q != ptr && b == BlockFor(newLayout) && b.size > 0
    requires Inv(AllocateAt(s, q, b))
    ensures Sized(AllocateAt(s, q, b))
    ensures Truth(Transfer(AllocateAt(s, q, b), ptr, oldLayout, q, n)) == Record((s.live - {ptr})[q := b], true)
  {
    TransferSnug(AllocateAt(s, q, b), ptr, oldLayout, q, n);
    PutThenDrop(s.live, q, b, ptr);
  }

  lemma MoveNoted(s: State, ptr: nat, oldLayout: Layout, newLayout: Layout, n: nat)
    requires Inv(s) && Fits(s.live, ptr, oldLayout) && newLayout.Valid(s.page.bits)
    requires n == oldLayout.size <= newLayout.size || n == newLayout.size <= oldLayout.size
    requires Sized(s) && (ptr in s.live ==> ptr < s.page.base + s.top)
    ensures var o := Move(s, ptr, oldLayout, newLayout, n);
            Truth(o.s) == NoteResize(Truth(s), ptr, oldLayout, newLayout, o.reply)
  {
    if oldLayout.size == 0 {
      AllocateNoted(s, newLayout);
    } else if newLayout.size == 0 {
      DeallocateNoted(s, ptr, oldLayout);
    } else if HasRoom(s, newLayout) {
      PlaceAboveTop(s, newLayout.align);
      AllocateKeepsInv(s, newLayout);
      BlockForIsGood(newLayout);
      MovedNoted(s, ptr, oldLayout, newLayout, Place(s, newLayout.align), BlockFor(newLayout), n);
    }
  }

  lemma GrowNoted(s: State, ptr: nat, oldLayout: Layout, newLayout: Layout)
    requires Inv(s) && GrowOk(s, ptr, oldLayout, newLayout)
    ensures var o := Grow(s, ptr, oldLayout, newLayout);
            Truth(o.s) == NoteResize(Truth(s), ptr, oldLayout, newLayout, o.reply)
    ensures var o := ReallocGrow(s, ptr, oldLayout, newLayout);
            Truth(o.s) == NoteResize(Truth(s), ptr, oldLayout, newLayout, o.reply)
  {
    InvSized(s, ptr);
    MoveNoted(s, ptr, oldLayout, newLayout, oldLayout.size);
    if oldLayout.size == 0 {
      AllocateNoted(s, newLayout);
    } else if CanExtend(s, ptr, newLayout) {
      BlockForIsGood(newLayout);
      LastIffTopmost(s, ptr);
      ExtendSnug(s, ptr, BlockFor(newLayout));
      PutOver(s.live, ptr, BlockFor(newLayout));
    }
  }

  lemma ShrinkNoted(s: State, ptr: nat, oldLayout: Layout, newLayout: Layout)
    requires Inv(s) && ShrinkOk(s, ptr, oldLayout, newLayout)
    ensures var o := Shrink(s, ptr, oldLayout, newLayout);
            Truth(o.s) == NoteResize(Truth(s), ptr, oldLayout, newLayout, o.reply)
    ensures var o := ReallocShrink(s, ptr, oldLayout, newLayout);
            Truth(o.s) == NoteResize(Truth(s), ptr, oldLayout, newLayout, o.reply)
  {
    InvSized(s, ptr);
    MoveNoted(s, ptr, oldLayout, newLayout, newLayout.size);
    if newLayout.size == 0 {
      DeallocateNoted(s, ptr, oldLayout);
    } else if ptr % newLayout.align == 0 {
      RoundedFits(s, ptr, oldLayout, newLayout);
      BlockForIsGood(newLayout);
      TrimSnug(s, ptr, BlockFor(newLayout));
      PutOver(s.live, ptr, BlockFor(newLayout));
    }
  }

  /** Every call changes the blocks, and the snugness of the stack top, as the client notes it. */
  lemma StepNoted(s: State, op: Op)
    requires Inv(s) && Permitted(s, op)
    ensures var o := Step(s, op); Truth(o.s) == Note(Truth(s), op, o.reply)
  {
    match op
    case AllocateOp(layout) => AllocateNoted(s, layout);
    case DeallocateOp(ptr, layout) => DeallocateNoted(s, ptr, layout);
    case GrowOp(ptr, oldLayout, newLayout) => GrowNoted(s, ptr, oldLayout, newLayout);
    case ShrinkOp(ptr, oldLayout, newLayout) => ShrinkNoted(s, ptr, oldLayout, newLayout);
    case ReallocGrowOp(ptr, oldLayout, newLayout) => GrowNoted(s, ptr, oldLayout, newLayout);
    case ReallocShrinkOp(ptr, oldLayout, newLayout) => ShrinkNoted(s, ptr, oldLayout, newLayout);
    case WriteOp(ptr, at, data) => InvSized(s, ptr);
  }

  lemma {:induction false} RunNoted(s: State, ops: seq<Op>)
    requires Inv(s) && Legal(s, ops)
    ensures |Replies(s, ops)| == |ops|
    ensures Truth(Run(s, ops)) == NoteAll(Truth(s), ops, Replies(s, ops))
    decreases |ops|
  {
    if ops == [] {
    } else {
      var o := Step(s, ops[0]);
      StepKeepsInv(s, ops[0]);
      StepNoted(s, ops[0]);
      RunNoted(o.s, ops[1..]);
      assert Replies(s, ops)[1..] == Replies(o.s, ops[1..]);
    }
  }

  /**
   After any legal run from a fresh page the client's record is right: the blocks are those it noted,
   and `ptr_is_last_allocation` answers as documented for all of them exactly when its bit is set.
   */
  lemma ClientCanTell(page: Page, ops: seq<Op>)
    requires page.Valid() && Inv(Initial(page)) && Legal(Initial(page), ops)
    ensures |Replies(Initial(page), ops)| == |ops|
    ensures var s, r := Run(Initial(page), ops), NoteAll(Record(map[], true), ops, Replies(Initial(page), ops));
            && r.live == s.live
            && (r.snug <==> forall p :: p in s.live ==> (EndsAtTop(s, p) <==> Topmost(s.live, p)))
  {
    RunKeepsInv(Initial(page), ops);
    RunNoted(Initial(page), ops);
    SnugIff(Run(Initial(page), ops));
  }
}
