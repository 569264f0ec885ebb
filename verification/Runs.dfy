/**
 Whole runs: any sequence of calls and client writes that respects the `Allocator` contract. The
 client is an adversary that may store anything inside its blocks between calls.
 */
module Runs {
  import opened Memory
  import opened PageState
  import opened PageSpec
  import opened Invariant

  datatype Op =
    | AllocateOp(layout: Layout)
    | DeallocateOp(ptr: nat, layout: Layout)
    | GrowOp(ptr: nat, oldLayout: Layout, newLayout: Layout)
    | ShrinkOp(ptr: nat, oldLayout: Layout, newLayout: Layout)
    | ReallocGrowOp(ptr: nat, oldLayout: Layout, newLayout: Layout)
    | ReallocShrinkOp(ptr: nat, oldLayout: Layout, newLayout: Layout)
    | WriteOp(ptr: nat, at: nat, data: seq<Byte>)

  // What the contract allows the client to do next
  ghost predicate Permitted(s: State, op: Op) {
    match op
    case AllocateOp(layout) => layout.Valid(s.page.bits)
    case DeallocateOp(ptr, layout) => Fits(s.live, ptr, layout)
    case GrowOp(ptr, oldLayout, newLayout) => GrowOk(s, ptr, oldLayout, newLayout)
    case ShrinkOp(ptr, oldLayout, newLayout) => ShrinkOk(s, ptr, oldLayout, newLayout)
    case ReallocGrowOp(ptr, oldLayout, newLayout) => GrowOk(s, ptr, oldLayout, newLayout)
    case ReallocShrinkOp(ptr, oldLayout, newLayout) => ShrinkOk(s, ptr, oldLayout, newLayout)
    case WriteOp(ptr, at, data) => ptr in s.live && at + |data| <= s.live[ptr].size
  }

  ghost function Step(s: State, op: Op): Outcome
    requires Inv(s) && Permitted(s, op)
  {
    InvSized(s, 0);
    match op
    case AllocateOp(layout) => Allocate(s, layout)
    case DeallocateOp(ptr, layout) => Outcome(Deallocate(s, ptr, layout), Done)
    case GrowOp(ptr, oldLayout, newLayout) => Grow(s, ptr, oldLayout, newLayout)
    case ShrinkOp(ptr, oldLayout, newLayout) => Shrink(s, ptr, oldLayout, newLayout)
    case ReallocGrowOp(ptr, oldLayout, newLayout) => ReallocGrow(s, ptr, oldLayout, newLayout)
    case ReallocShrinkOp(ptr, oldLayout, newLayout) => ReallocShrink(s, ptr, oldLayout, newLayout)
    case WriteOp(ptr, at, data) => Outcome(ClientWrite(s, ptr, at, data), Done)
  }

  lemma ReallocKeepsInv(s: State, ptr: nat, oldLayout: Layout, newLayout: Layout)
    requires Inv(s) && Fits(s.live, ptr, oldLayout) && newLayout.Valid(s.page.bits)
    ensures oldLayout.size <= newLayout.size ==> Inv(ReallocGrow(s, ptr, oldLayout, newLayout).s)
    ensures newLayout.size <= oldLayout.size ==> Inv(ReallocShrink(s, ptr, oldLayout, newLayout).s)
  {
    if oldLayout.size <= newLayout.size { MoveKeepsInv(s, ptr, oldLayout, newLayout, oldLayout.size); }
    if newLayout.size <= oldLayout.size { MoveKeepsInv(s, ptr, oldLayout, newLayout, newLayout.size); }
  }

  lemma StepKeepsPage(s: State, op: Op)
    requires Inv(s) && Permitted(s, op)
    ensures Step(s, op).s.page == s.page
  {
  }

  /** Every call, with the calls nested in it, keeps the master invariant. */
  lemma StepKeepsInv(s: State, op: Op)
    requires Inv(s) && Permitted(s, op)
    ensures Inv(Step(s, op).s) && Step(s, op).s.page == s.page
  {
    StepKeepsPage(s, op);
    match op
    case AllocateOp(layout) => AllocateKeepsInv(s, layout);
    case DeallocateOp(ptr, layout) => DeallocateKeepsInv(s, ptr, layout);
    case GrowOp(ptr, oldLayout, newLayout) => GrowKeepsInv(s, ptr, oldLayout, newLayout);
    case ShrinkOp(ptr, oldLayout, newLayout) => ShrinkKeepsInv(s, ptr, oldLayout, newLayout);
    case ReallocGrowOp(ptr, oldLayout, newLayout) => ReallocKeepsInv(s, ptr, oldLayout, newLayout);
    case ReallocShrinkOp(ptr, oldLayout, newLayout) => ReallocKeepsInv(s, ptr, oldLayout, newLayout);
    case WriteOp(ptr, at, data) => StoreKeepsInv(s, ptr, at, data);
  }

  // Every operation of the run is permitted where it comes
  ghost predicate Legal(s: State, ops: seq<Op>)
    requires Inv(s)
    decreases |ops|
  {
    ops == [] || (Permitted(s, ops[0]) && (StepKeepsInv(s, ops[0]); Legal(Step(s, ops[0]).s, ops[1..])))
  }

  ghost function Run(s: State, ops: seq<Op>): State
    requires Inv(s) && Legal(s, ops)
    decreases |ops|
  {
    if ops == [] then s else (StepKeepsInv(s, ops[0]); Run(Step(s, ops[0]).s, ops[1..]))
  }

  // The replies the client sees
  ghost function Replies(s: State, ops: seq<Op>): seq<Reply>
    requires Inv(s) && Legal(s, ops)
    decreases |ops|
  {
    if ops == [] then []
    else (StepKeepsInv(s, ops[0]); [Step(s, ops[0]).reply] + Replies(Step(s, ops[0]).s, ops[1..]))
  }

  /** The invariant, and with it secrecy, holds after every legal run. */
  lemma {:induction false} RunKeepsInv(s: State, ops: seq<Op>)
    requires Inv(s) && Legal(s, ops)
    ensures Inv(Run(s, ops)) && Run(s, ops).page == s.page
    decreases |ops|
  {
    if ops == [] {
    } else {
      StepKeepsInv(s, ops[0]);
      RunKeepsInv(Step(s, ops[0]).s, ops[1..]);
    }
  }

  /** A run may be extended at its end. */
  lemma {:induction false} RunSnoc(s: State, ops: seq<Op>, op: Op)
    requires Inv(s) && Legal(s, ops) && Inv(Run(s, ops)) && Permitted(Run(s, ops), op)
    ensures Legal(s, ops + [op]) && Run(s, ops + [op]) == Step(Run(s, ops), op).s
    decreases |ops|
  {
    if ops == [] {
      StepKeepsInv(s, op);
      assert ops + [op] == [op];
    } else {
      StepKeepsInv(s, ops[0]);
      RunSnoc(Step(s, ops[0]).s, ops[1..], op);
      assert (ops + [op])[1..] == ops[1..] + [op];
    }
  }
}
