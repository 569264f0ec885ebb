/** Runs of the class itself: calling it call by call is what `Runs` says of runs. */
module Execution {
  import opened Memory
  import opened PageState
  import opened PageSpec
  import opened Invariant
  import opened Runs
  import opened SecAlloc

  // The client stores into its block
  method StoreInBlock(a: SecStackSinglePageAlloc, ptr: nat, at: nat, data: seq<Byte>)
    requires a.Valid() && ptr in a.live && at + |data| <= a.live[ptr].size
    modifies a.mem
    ensures a.Valid()
    ensures old(Sized(a.Abs())) && a.Abs() == old(ClientWrite(a.Abs(), ptr, at, data))
  {
    ghost var s := a.Abs();
    InvSized(s, ptr);
    ghost var t := ClientWrite(s, ptr, at, data);
    var start := ptr - a.page.base + at;
    forall i | 0 <= i < |data| {
      a.mem[start + i] := data[i];
    }
    assert a.mem[..] == t.mem;
    assert Inv(t) by { StoreKeepsInv(s, ptr, at, data); }
  }

  method Perform(a: SecStackSinglePageAlloc, op: Op) returns (reply: Reply)
    requires a.Valid() && Permitted(a.Abs(), op)
    modifies a, a.mem
    ensures a.Valid()
    ensures old(Inv(a.Abs()) && Permitted(a.Abs(), op))
    ensures Outcome(a.Abs(), reply) == old(Step(a.Abs(), op))
  {
    InvSized(a.Abs(), 0);
    match op
    case AllocateOp(layout) => reply := a.Allocate(layout);
    case DeallocateOp(ptr, layout) =>
      a.Deallocate(ptr, layout);
      reply := Done;
    case GrowOp(ptr, oldLayout, newLayout) => reply := a.Grow(ptr, oldLayout, newLayout);
    case ShrinkOp(ptr, oldLayout, newLayout) => reply := a.Shrink(ptr, oldLayout, newLayout);
    case ReallocGrowOp(ptr, oldLayout, newLayout) => reply := a.ReallocGrow(ptr, oldLayout, newLayout);
    case ReallocShrinkOp(ptr, oldLayout, newLayout) => reply := a.ReallocShrink(ptr, oldLayout, newLayout);
    case WriteOp(ptr, at, data) =>
      StoreInBlock(a, ptr, at, data);
      reply := Done;
  }

  /**
   Any legal run, performed on the class: it ends in the state, and gives the replies, that all
   theorems about runs speak of.
   */
  method Execute(a: SecStackSinglePageAlloc, ops: seq<Op>) returns (replies: seq<Reply>)
    requires a.Valid() && Legal(a.Abs(), ops)
    modifies a, a.mem
    ensures a.Valid()
    ensures old(Inv(a.Abs()) && Legal(a.Abs(), ops))
    ensures a.Abs() == old(Run(a.Abs(), ops)) && replies == old(Replies(a.Abs(), ops))
    decreases |ops|
  {
    if ops == [] {
      return [];
    }
    ghost var s := a.Abs();
    StepKeepsInv(s, ops[0]);
    var reply := Perform(a, ops[0]);
    var rest := Execute(a, ops[1..]);
    replies := [reply] + rest;
  }
}
