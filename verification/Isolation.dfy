/** Data stored in one block never reaches another: two runs differ only in the blocks written differently. */
module Isolation {
  import opened Memory
  import opened PageState
  import opened PageSpec
  import opened Runs
  import opened HandleStore
  import Refinement
  import Recovery

  // The stores hold the same blocks, and the same bytes in those outside `tainted`
  ghost predicate EqualBut(st: Store, tu: Store, tainted: set<nat>) {
    && st.Keys == tu.Keys
    && forall p :: p in st ==>
         && st[p].block == tu[p].block
         && |st[p].data| == |tu[p].data|
         && (p !in tainted ==> st[p].data == tu[p].data)
  }

  // Which blocks may differ after a call: those written differently, followed through moves

  function TaintAllocate(tainted: set<nat>, layout: Layout, reply: Reply): set<nat> {
    if layout.size > 0 && reply.Ok? then tainted - {reply.ptr} else tainted
  }

  function TaintResize(tainted: set<nat>, ptr: nat, oldLayout: Layout, newLayout: Layout, reply: Reply): set<nat> {
    if oldLayout.size == 0 then TaintAllocate(tainted, newLayout, reply)
    else if newLayout.size == 0 then tainted - {ptr}
    else if !reply.Ok? then tainted
    else if ptr in tainted then tainted - {ptr} + {reply.ptr}
    else tainted - {reply.ptr}
  }

  function Taint(tainted: set<nat>, a: Op, b: Op, reply: Reply): set<nat> {
    match a
    case AllocateOp(layout) => TaintAllocate(tainted, layout, reply)
    case DeallocateOp(ptr, layout) => if layout.size == 0 then tainted else tainted - {ptr}
    case GrowOp(ptr, oldLayout, newLayout) => TaintResize(tainted, ptr, oldLayout, newLayout, reply)
    case ShrinkOp(ptr, oldLayout, newLayout) => TaintResize(tainted, ptr, oldLayout, newLayout, reply)
    case ReallocGrowOp(ptr, oldLayout, newLayout) => TaintResize(tainted, ptr, oldLayout, newLayout, reply)
    case ReallocShrinkOp(ptr, oldLayout, newLayout) => TaintResize(tainted, ptr, oldLayout, newLayout, reply)
    case WriteOp(ptr, _, _) => if a == b then tainted else tainted + {ptr}
  }

  function TaintAll(tainted: set<nat>, a: seq<Op>, b: seq<Op>, replies: seq<Reply>): set<nat>
    requires |a| == |b| == |replies|
    decreases |a|
  {
    if a == [] then tainted else TaintAll(Taint(tainted, a[0], b[0], replies[0]), a[1..], b[1..], replies[1..])
  }

  lemma AllocateEqualBut(st: Store, tu: Store, t: set<nat>, layout: Layout, reply: Reply, st': Store, tu': Store)
    requires EqualBut(st, tu, t)
    requires AllocateNext(st, layout, reply, st') && AllocateNext(tu, layout, reply, tu')
    ensures EqualBut(st', tu', TaintAllocate(t, layout, reply))
  {
  }

  lemma ResizeEqualBut(st: Store, tu: Store, t: set<nat>, ptr: nat, oldLayout: Layout, newLayout: Layout,
                       reply: Reply, st': Store, tu': Store)
    requires EqualBut(st, tu, t)
    requires ResizeNext(st, ptr, oldLayout, newLayout, reply, st')
    requires ResizeNext(tu, ptr, oldLayout, newLayout, reply, tu')
    ensures EqualBut(st', tu', TaintResize(t, ptr, oldLayout, newLayout, reply))
  {
    if oldLayout.size == 0 {
      AllocateEqualBut(st, tu, t, newLayout, reply, st', tu');
    }
  }

  lemma NextEqualBut(st: Store, tu: Store, t: set<nat>, a: Op, b: Op, reply: Reply, st': Store, tu': Store)
    requires EqualBut(st, tu, t) && Recovery.SameOp(a, b)
    requires Next(st, a, reply, st') && Next(tu, b, reply, tu')
    ensures EqualBut(st', tu', Taint(t, a, b, reply))
  {
    match a
    case AllocateOp(layout) => AllocateEqualBut(st, tu, t, layout, reply, st', tu');
    case DeallocateOp(ptr, layout) =>
    case GrowOp(ptr, oldLayout, newLayout) => ResizeEqualBut(st, tu, t, ptr, oldLayout, newLayout, reply, st', tu');
    case ShrinkOp(ptr, oldLayout, newLayout) => ResizeEqualBut(st, tu, t, ptr, oldLayout, newLayout, reply, st', tu');
    case ReallocGrowOp(ptr, oldLayout, newLayout) =>
      ResizeEqualBut(st, tu, t, ptr, oldLayout, newLayout, reply, st', tu');
    case ReallocShrinkOp(ptr, oldLayout, newLayout) =>
      ResizeEqualBut(st, tu, t, ptr, oldLayout, newLayout, reply, st', tu');
    case WriteOp(ptr, at, data) =>
  }

  lemma {:induction false} RunEqualBut(s: State, t: State, tainted: set<nat>, a: seq<Op>, b: seq<Op>)
    requires Inv(s) && Inv(t) && Recovery.SameButData(s, t) && Recovery.SameOps(a, b) && Legal(s, a)
    requires Sized(s) && Sized(t) && EqualBut(Refinement.View(s), Refinement.View(t), tainted)
    ensures Legal(t, b) && |Replies(s, a)| == |a| && Sized(Run(s, a)) && Sized(Run(t, b))
    ensures EqualBut(Refinement.View(Run(s, a)), Refinement.View(Run(t, b)), TaintAll(tainted, a, b, Replies(s, a)))
    decreases |a|
  {
    if a == [] {
    } else {
      assert Recovery.SameOp(a[0], b[0]) && Recovery.SameOps(a[1..], b[1..]);
      Recovery.StepIgnoresData(s, t, a[0], b[0]);
      var x, y := Step(s, a[0]), Step(t, b[0]);
      StepKeepsInv(s, a[0]);
      StepKeepsInv(t, b[0]);
      Refinement.StepRefines(s, a[0]);
      Refinement.StepRefines(t, b[0]);
      NextEqualBut(Refinement.View(s), Refinement.View(t), tainted, a[0], b[0], x.reply,
                   Refinement.View(x.s), Refinement.View(y.s));
      RunEqualBut(x.s, y.s, Taint(tainted, a[0], b[0], x.reply), a[1..], b[1..]);
      assert Replies(s, a)[1..] == Replies(x.s, a[1..]);
    }
  }

  /**
   Of two runs that differ only in the bytes written, every block that was not written differently,
   followed through its moves, holds the same bytes at the end.
   */
  lemma StoredDataStaysPut(s: State, a: seq<Op>, b: seq<Op>)
    requires Inv(s) && Recovery.SameOps(a, b) && Legal(s, a)
    ensures Legal(s, b) && |Replies(s, a)| == |a| && Sized(Run(s, a)) && Sized(Run(s, b))
    ensures EqualBut(Refinement.View(Run(s, a)), Refinement.View(Run(s, b)), TaintAll({}, a, b, Replies(s, a)))
  {
    InvSized(s, 0);
    RunEqualBut(s, s, {}, a, b);
  }
}
