/**
 The simple allocator the page allocator is meant to be: a store from handles to byte strings. It
 has no page, no offsets and no stack; which handle a new block gets, and whether a request is
 refused, is left open.
 */
module HandleStore {
  import opened Memory
  import opened PageState
  import opened Runs

  datatype Cell = Cell(block: Block, data: seq<Byte>)

  type Store = map<nat, Cell>

  // A fresh block of `len` bytes may appear at `ptr`: big enough, aligned and clear of all others
  ghost predicate MayGrant(st: Store, layout: Layout, ptr: nat, len: nat) {
    && 0 < layout.size <= len < layout.size + 8
    && len % 8 == 0
    && ptr % 8 == 0
    && layout.align > 0
    && ptr % layout.align == 0
    && forall q :: q in st ==> q + st[q].block.size <= ptr || ptr + len <= q
  }

  ghost predicate AllocateNext(st: Store, layout: Layout, reply: Reply, st': Store) {
    if layout.size == 0 then
      reply == Ok(layout.align, 0) && st' == st
    else match reply
      case Ok(ptr, len) =>
        && MayGrant(st, layout, ptr, len)
        && st' == st[ptr := Cell(Block(layout.size, layout.align, len), Zeros(len))]
      case AllocError => st' == st
      case Done => false
  }

  ghost function Free(st: Store, ptr: nat, layout: Layout): Store {
    if layout.size == 0 then st else st - {ptr}
  }

  // The first `keep` bytes of `data`, then zeros
  function Resized(data: seq<Byte>, keep: nat, len: nat): seq<Byte>
    requires keep <= |data| && keep <= len
  {
    data[..keep] + Zeros(len - keep)
  }

  /**
   A reallocation either fails and changes nothing, or replaces one cell by another. A block that
   stays keeps all its bytes up to the new length; one that moves keeps the bytes both layouts have.
   What lies beyond is zero.
   */
  ghost predicate ResizeNext(st: Store, ptr: nat, oldLayout: Layout, newLayout: Layout, reply: Reply, st': Store) {
    if oldLayout.size == 0 then
      AllocateNext(st, newLayout, reply, st')
    else if newLayout.size == 0 then
      reply == Ok(newLayout.align, 0) && st' == st - {ptr}
    else match reply
      case Ok(q, len) =>
        && ptr in st
        && MayGrant(if q == ptr then st - {ptr} else st, newLayout, q, len)
        && var keep := if q == ptr then Min(|st[ptr].data|, len) else Min(oldLayout.size, newLayout.size);
           && keep <= |st[ptr].data| && keep <= len
           && st' == (st - {ptr})[q := Cell(Block(newLayout.size, newLayout.align, len),
                                            Resized(st[ptr].data, keep, len))]
      case AllocError => st' == st
      case Done => false
  }

  ghost predicate Next(st: Store, op: Op, reply: Reply, st': Store) {
    match op
    case AllocateOp(layout) => AllocateNext(st, layout, reply, st')
    case DeallocateOp(ptr, layout) => reply == Done && st' == Free(st, ptr, layout)
    case GrowOp(ptr, oldLayout, newLayout) => ResizeNext(st, ptr, oldLayout, newLayout, reply, st')
    case ShrinkOp(ptr, oldLayout, newLayout) => ResizeNext(st, ptr, oldLayout, newLayout, reply, st')
    case ReallocGrowOp(ptr, oldLayout, newLayout) => ResizeNext(st, ptr, oldLayout, newLayout, reply, st')
    case ReallocShrinkOp(ptr, oldLayout, newLayout) => ResizeNext(st, ptr, oldLayout, newLayout, reply, st')
    case WriteOp(ptr, at, data) =>
      && reply == Done
      && ptr in st
      && at + |data| <= |st[ptr].data|
      && st' == st[ptr := Cell(st[ptr].block, Blit(st[ptr].data, at, data))]
  }

  /** `st'` can be reached from `st` by `ops` with `replies`. */
  ghost predicate Behaves(st: Store, ops: seq<Op>, replies: seq<Reply>, st': Store)
    requires |ops| == |replies|
    decreases |ops|
  {
    if ops == [] then st' == st
    else exists mid :: Next(st, ops[0], replies[0], mid) && Behaves(mid, ops[1..], replies[1..], st')
  }

  // What a client may rely on: blocks of the promised size and alignment that do not overlap

  ghost predicate CellOk(st: Store, p: nat)
    requires p in st
  {
    && |st[p].data| == st[p].block.size
    && GoodBlock(st[p].block)
    && st[p].block.align > 0
    && p % st[p].block.align == 0
  }

  ghost predicate Safe(st: Store) {
    && (forall p :: p in st ==> CellOk(st, p))
    && (forall p, q :: p in st && q in st && p != q ==>
          p + st[p].block.size <= q || q + st[q].block.size <= p)
  }

  lemma SubStoreSafe(st: Store, p: nat)
    requires Safe(st)
    ensures Safe(st - {p})
  {
    var rest := st - {p};
    forall q | q in rest ensures CellOk(rest, q) { assert CellOk(st, q); }
  }

  lemma GrantKeepsSafe(st: Store, layout: Layout, ptr: nat, len: nat, data: seq<Byte>)
    requires Safe(st) && MayGrant(st, layout, ptr, len) && |data| == len
    ensures Safe(st[ptr := Cell(Block(layout.size, layout.align, len), data)])
  {
    var st' := st[ptr := Cell(Block(layout.size, layout.align, len), data)];
    forall q | q in st' ensures CellOk(st', q) {
      if q != ptr { assert CellOk(st, q); }
    }
  }

  lemma ResizeKeepsSafe(st: Store, ptr: nat, oldLayout: Layout, newLayout: Layout, reply: Reply, st': Store)
    requires Safe(st) && ResizeNext(st, ptr, oldLayout, newLayout, reply, st')
    ensures Safe(st')
  {
    SubStoreSafe(st, ptr);
    if oldLayout.size == 0 {
      AllocateKeepsSafe(st, newLayout, reply, st');
    } else if newLayout.size > 0 && reply.Ok? {
      GrantKeepsSafe(st - {ptr}, newLayout, reply.ptr, reply.len, st'[reply.ptr].data);
    }
  }

  lemma AllocateKeepsSafe(st: Store, layout: Layout, reply: Reply, st': Store)
    requires Safe(st) && AllocateNext(st, layout, reply, st')
    ensures Safe(st')
  {
    if layout.size > 0 && reply.Ok? {
      GrantKeepsSafe(st, layout, reply.ptr, reply.len, Zeros(reply.len));
    }
  }

  lemma WriteKeepsSafe(st: Store, ptr: nat, at: nat, data: seq<Byte>)
    requires Safe(st) && ptr in st && at + |data| <= |st[ptr].data|
    ensures Safe(st[ptr := Cell(st[ptr].block, Blit(st[ptr].data, at, data))])
  {
    var st' := st[ptr := Cell(st[ptr].block, Blit(st[ptr].data, at, data))];
    forall q | q in st' ensures CellOk(st', q) { assert CellOk(st, q); }
  }

  lemma NextKeepsSafe(st: Store, op: Op, reply: Reply, st': Store)
    requires Safe(st) && Next(st, op, reply, st')
    ensures Safe(st')
  {
    match op
    case AllocateOp(layout) => AllocateKeepsSafe(st, layout, reply, st');
    case DeallocateOp(ptr, layout) => SubStoreSafe(st, ptr);
    case GrowOp(ptr, oldLayout, newLayout) => ResizeKeepsSafe(st, ptr, oldLayout, newLayout, reply, st');
    case ShrinkOp(ptr, oldLayout, newLayout) => ResizeKeepsSafe(st, ptr, oldLayout, newLayout, reply, st');
    case ReallocGrowOp(ptr, oldLayout, newLayout) => ResizeKeepsSafe(st, ptr, oldLayout, newLayout, reply, st');
    case ReallocShrinkOp(ptr, oldLayout, newLayout) => ResizeKeepsSafe(st, ptr, oldLayout, newLayout, reply, st');
    case WriteOp(ptr, at, data) => WriteKeepsSafe(st, ptr, at, data);
  }

  /** The handle store is safe after every run, so whatever refines it hands out safe blocks. */
  lemma {:induction false} BehaviourIsSafe(st: Store, ops: seq<Op>, replies: seq<Reply>, st': Store)
    requires Safe(st) && |ops| == |replies| && Behaves(st, ops, replies, st')
    ensures Safe(st')
    decreases |ops|
  {
    if ops == [] {
    } else {
      var mid :| Next(st, ops[0], replies[0], mid) && Behaves(mid, ops[1..], replies[1..], st');
      NextKeepsSafe(st, ops[0], replies[0], mid);
      BehaviourIsSafe(mid, ops[1..], replies[1..], st');
    }
  }
}
