/**
 The state of `SecStackSinglePageAlloc` as a value: the two counters, the page's bytes, and the set
 of live blocks that the source only talks about in its safety comments.
 */
module PageState {
  import opened Memory
  import opened Usize

  datatype Layout = Layout(size: nat, align: nat) {
    ghost predicate Valid(bits: nat) {
      && IsWord(bits, size)
      && IsWord(bits, align)
      && IsPowerOfTwo(align)
    }
  }

  // What the operating system hands out: a nonnull page-aligned page. As for every Rust allocation
  // the address one past its end is still a word.
  datatype Page = Page(bits: nat, base: nat, size: nat) {
    ghost predicate Valid() {
      && 8 <= size
      && IsPowerOfTwo(size)
      && 0 < base
      && base % size == 0
      && IsWord(bits, base + size)
    }
  }

  // A live block: the layout size and alignment most recently asked for, and the size granted
  datatype Block = Block(requested: nat, align: nat, size: nat)

  function Round8(n: nat): nat {
    CeilMultiple(n, 8)
  }

  // The granted size is the least multiple of 8 that holds the request
  ghost predicate GoodBlock(b: Block) {
    && 0 < b.requested <= b.size < b.requested + 8
    && b.size % 8 == 0
  }

  function BlockFor(layout: Layout): Block {
    Block(layout.size, layout.align, Round8(layout.size))
  }

  // Live blocks, by start address
  type Blocks = map<nat, Block>

  datatype State = State(page: Page, bytes: int, top: nat, mem: seq<Byte>, live: Blocks)

  datatype Reply = Ok(ptr: nat, len: nat) | AllocError | Done

  /**
   "`layout` fits the block at `ptr`" in the sense of the `Allocator` contract. A zero-sized layout
   denotes a dangling pointer, which owns no memory.
   */
  predicate Fits(live: Blocks, ptr: nat, layout: Layout) {
    layout.size == 0
    || (ptr in live && live[ptr].requested <= layout.size <= live[ptr].size && layout.align == live[ptr].align)
  }

  // Address `a` lies in some live block
  ghost predicate Covered(live: Blocks, a: int) {
    exists p :: p in live && p <= a < p + live[p].size
  }

  /** The total size of the blocks that start in `[base, base + n)`. */
  function SumBelow(live: Blocks, base: nat, n: nat): nat {
    if n == 0 then 0
    else SumBelow(live, base, n - 1) + SizeAt(live, base + n - 1)
  }

  function SizeAt(live: Blocks, p: nat): nat {
    if p in live then live[p].size else 0
  }

  // The invariant, clause by clause

  ghost predicate Shaped(s: State) {
    && s.page.base % 8 == 0
    && |s.mem| == s.page.size
    && s.top <= s.page.size
    && s.top % 8 == 0
  }

  ghost predicate BlockOk(s: State, p: nat)
    requires p in s.live
  {
    && GoodBlock(s.live[p])
    && p % 8 == 0
    && s.page.base <= p
    && p + s.live[p].size <= s.page.base + s.top
  }

  ghost predicate Placed(s: State) {
    forall p :: p in s.live ==> BlockOk(s, p)
  }

  ghost predicate Apart(live: Blocks) {
    forall p, q :: p in live && q in live && p < q ==> p + live[p].size <= q
  }

  ghost predicate Counted(s: State) {
    s.bytes == SumBelow(s.live, s.page.base, s.page.size)
  }

  ghost predicate Clean(s: State) {
    forall i :: 0 <= i < |s.mem| && !Covered(s.live, s.page.base + i) ==> s.mem[i] == 0
  }

  ghost predicate Inv(s: State) {
    && Shaped(s)
    && Placed(s)
    && Apart(s.live)
    && Counted(s)
    && Clean(s)
    && (s.live == map[] ==> s.top == 0)
  }

  /** A fresh allocator: nothing allocated, everything zero. */
  function Initial(page: Page): State {
    State(page, 0, 0, Zeros(page.size), map[])
  }

  lemma BlockForIsGood(layout: Layout)
    requires layout.size > 0
    ensures GoodBlock(BlockFor(layout))
  {
  }

  // Facts about the sum

  lemma {:induction false} SumChange(live: Blocks, live': Blocks, base: nat, n: nat, p: nat)
    requires forall q :: q != p ==> (q in live <==> q in live') && (q in live ==> live[q] == live'[q])
    ensures SumBelow(live', base, n)
         == SumBelow(live, base, n) + if base <= p < base + n then SizeAt(live', p) - SizeAt(live, p) else 0
  {
    if n == 0 {
    } else {
      SumChange(live, live', base, n - 1, p);
    }
  }

  // Blocks that are apart and start below `n` have room up to the end of the highest of them
  lemma {:induction false} SumFits(live: Blocks, base: nat, n: nat, end: nat)
    requires Apart(live)
    requires forall p :: p in live && p < base + n ==> p + live[p].size <= base + end
    ensures SumBelow(live, base, n) <= end
  {
    if n == 0 {
    } else {
      var last := base + n - 1;
      if last in live {
        SumFits(live, base, n - 1, n - 1);
        assert last + live[last].size <= base + end;
      } else {
        SumFits(live, base, n - 1, end);
      }
    }
  }

  lemma {:induction false} SumIsMultipleOf8(live: Blocks, base: nat, n: nat)
    requires forall p :: p in live ==> live[p].size % 8 == 0
    ensures SumBelow(live, base, n) % 8 == 0
  {
    if n == 0 {
    } else {
      SumIsMultipleOf8(live, base, n - 1);
    }
  }

  lemma {:induction false} SumZeroIff(live: Blocks, base: nat, n: nat)
    requires forall p :: p in live ==> 0 < live[p].size
    ensures SumBelow(live, base, n) == 0 <==> forall p :: base <= p < base + n ==> p !in live
  {
    if n == 0 {
    } else {
      SumZeroIff(live, base, n - 1);
      if SumBelow(live, base, n) == 0 {
        assert base + n - 1 !in live;
      }
    }
  }
}
