/**
 The documentation says that `ptr_is_last_allocation` returns true "iff" its argument is the final
 allocation on the page. Here is a run after which it does not.
 */
module StaleTop {
  import opened PageState
  import opened PageSpec
  import opened Invariant
  import opened Runs
  import opened Usize
  import opened TopOfStack
  import PageArithmetic

  const SMALL: Layout := Layout(8, 1)
  const SMALL_BLOCK: Block := Block(8, 1, 8)

  // A legal run from a fresh page, and the books at its end
  ghost predicate Leads(page: Page, ops: seq<Op>, bytes: int, top: int, live: Blocks) {
    && Inv(Initial(page))
    && Legal(Initial(page), ops)
    && var s := Run(Initial(page), ops);
       s.page == page && s.bytes == bytes && s.top == top && s.live == live
  }

  lemma AllocateSmall(page: Page, ops: seq<Op>, bytes: int, top: nat, live: Blocks)
    requires page.Valid() && Leads(page, ops, bytes, top, live) && top + 8 <= page.size
    ensures Leads(page, ops + [AllocateOp(SMALL)], bytes + 8, top + 8, live[page.base + top := SMALL_BLOCK])
  {
    var s := Run(Initial(page), ops);
    RunKeepsInv(Initial(page), ops);
    assert 1 == Pow2(0);
    PageArithmetic.PageWords(page);
    PageArithmetic.LowAlignPlace(s, SMALL);
    RunSnoc(Initial(page), ops, AllocateOp(SMALL));
  }

  lemma FreeSmall(page: Page, ops: seq<Op>, bytes: int, top: nat, live: Blocks, p: nat)
    requires Leads(page, ops, bytes, top, live) && p in live && live[p] == SMALL_BLOCK && live - {p} != map[]
    ensures Leads(page, ops + [DeallocateOp(p, SMALL)],
                  bytes - 8, if p + 8 == page.base + top then top - 8 else top, live - {p})
  {
    RunKeepsInv(Initial(page), ops);
    RunSnoc(Initial(page), ops, DeallocateOp(p, SMALL));
  }

  function FreeOutOfOrder(page: Page): seq<Op> {
    [AllocateOp(SMALL)] + [AllocateOp(SMALL)] + [AllocateOp(SMALL)]
    + [DeallocateOp(page.base + 8, SMALL)] + [DeallocateOp(page.base + 16, SMALL)]
  }

  /**
   Of three small blocks the second is freed and then the third. The first is now the highest block,
   indeed the only one, and yet it does not end at the stack top.
   */
  lemma StackTopGoesStale(page: Page)
    requires page.Valid() && page.size >= 24
    ensures Inv(Initial(page)) && Legal(Initial(page), FreeOutOfOrder(page))
    ensures var s := Run(Initial(page), FreeOutOfOrder(page));
            Topmost(s.live, page.base) && !EndsAtTop(s, page.base)
  {
    var p, a := page.base, AllocateOp(SMALL);
    InitialInv(page);
    AllocateSmall(page, [], 0, 0, map[]);
    var one: Blocks := map[][p := SMALL_BLOCK];
    assert [] + [a] == [a];
    AllocateSmall(page, [a], 8, 8, one);
    var two := one[p + 8 := SMALL_BLOCK];
    AllocateSmall(page, [a] + [a], 16, 16, two);
    var three := two[p + 16 := SMALL_BLOCK];
    assert p in three - {p + 8} && p in three - {p + 8} - {p + 16};
    FreeSmall(page, [a] + [a] + [a], 24, 24, three, p + 8);
    FreeSmall(page, [a] + [a] + [a] + [DeallocateOp(p + 8, SMALL)], 16, 24, three - {p + 8}, p + 16);
    assert three - {p + 8} - {p + 16} == one;
  }
}
