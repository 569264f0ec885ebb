/**
 What `ptr_is_last_allocation` can know. It compares the end of a block with the stack top, and the
 stack top may stand above the highest block.
 */
module TopOfStack {
  import opened Memory
  import opened PageState
  import opened PageSpec
  import opened Invariant

  // `p` is the highest live block
  ghost predicate Topmost(live: Blocks, p: nat) {
    p in live && forall q :: q in live && q != p ==> q + live[q].size <= p
  }

  // The stack top stands right above a block, or nothing is live
  ghost predicate Snug(s: State) {
    s.live == map[] || Covered(s.live, s.page.base + s.top - 1)
  }

  /**
   A block that ends at the stack top is the highest one. The highest block ends there exactly when
   the stack top is snug.
   */
  lemma LastIffTopmost(s: State, p: nat)
    requires Inv(s) && p in s.live
    ensures EndsAtTop(s, p) <==> Topmost(s.live, p) && Snug(s)
  {
    EndsBelowTop(s, p);
    if EndsAtTop(s, p) {
      TopmostIsAbove(s, p);
      assert p <= s.page.base + s.top - 1 < p + s.live[p].size;
    }
    if Topmost(s.live, p) && Snug(s) {
      var q :| q in s.live && q <= s.page.base + s.top - 1 < q + s.live[q].size;
      EndsBelowTop(s, q);
    }
  }

  // Among blocks that are apart one is the highest
  lemma {:induction false} SomeTopmost(live: Blocks) returns (p: nat)
    requires live != map[] && Apart(live)
    requires forall q :: q in live ==> live[q].size > 0
    ensures Topmost(live, p)
    decreases |live|
  {
    p :| p in live;
    var rest := live - {p};
    if rest == map[] {
      assert forall q :: q in live && q != p ==> q in rest;
    } else {
      var q := SomeTopmost(rest);
      assert forall r :: r in live && r != p ==> r in rest;
      if p < q { p := q; }
    }
  }

  /** The documented "iff" holds of every live block exactly when the stack top is snug. */
  lemma SnugIff(s: State)
    requires Inv(s)
    ensures Snug(s) <==> forall p :: p in s.live ==> (EndsAtTop(s, p) <==> Topmost(s.live, p))
  {
    forall p | p in s.live ensures EndsAtTop(s, p) <==> Topmost(s.live, p) && Snug(s) {
      LastIffTopmost(s, p);
    }
    if s.live != map[] {
      forall q | q in s.live ensures s.live[q].size > 0 { EndsBelowTop(s, q); }
      var p := SomeTopmost(s.live);
    }
  }

  // What the building blocks do to it

  // Freeing the highest block leaves a gap when no other block ends where it starts
  ghost predicate LeavesGap(live: Blocks, p: nat) {
    Topmost(live, p) && forall q :: q in live && q != p ==> q + live[q].size != p
  }

  ghost predicate SnugAfterFree(live: Blocks, snug: bool, p: nat) {
    live - {p} == map[] || (snug && !LeavesGap(live, p))
  }

  // Among blocks at or below `a`, one covers the byte below `a` exactly when it ends at `a`
  lemma CoveredBelow(live: Blocks, a: nat)
    requires forall q :: q in live ==> q + live[q].size <= a
    requires forall q :: q in live ==> live[q].size > 0
    ensures Covered(live, a - 1) <==> exists q :: q in live && q + live[q].size == a
  {
    if q :| q in live && q + live[q].size == a {
      assert q <= a - 1 < q + live[q].size;
    }
  }

  lemma CoveredWithout(live: Blocks, p: nat, a: int)
    requires p in live && !(p <= a < p + live[p].size)
    ensures Covered(live - {p}, a) <==> Covered(live, a)
  {
    var rest := live - {p};
    if Covered(live, a) {
      var q :| q in live && q <= a < q + live[q].size;
      assert q in rest;
    }
    if Covered(rest, a) {
      var q :| q in rest && q <= a < q + rest[q].size;
      assert q in live && live[q] == rest[q];
    }
  }

  // The case in which the stack top is rewound
  lemma RewindSnug(s: State, p: nat)
    requires Inv(s) && p in s.live && Topmost(s.live, p)
    ensures Covered(s.live - {p}, p - 1) <==> !LeavesGap(s.live, p)
  {
    var rest := s.live - {p};
    forall q | q in rest ensures q + rest[q].size <= p && rest[q].size > 0 { EndsBelowTop(s, q); }
    CoveredBelow(rest, p);
    if q :| q in s.live && q != p && q + s.live[q].size == p {
      assert q in rest && q + rest[q].size == p;
    }
  }

  /**
   Freeing a block makes the stack top stale exactly when it is the highest of several and no other
   block ends where it starts. A stale top recovers only when the last block is freed.
   */
  lemma ReleaseSnug(s: State, p: nat)
    requires Inv(s) && p in s.live
    ensures Sized(s)
    ensures Snug(Release(s, p)) <==> SnugAfterFree(s.live, Snug(s), p)
  {
    InvSized(s, p);
    EndsBelowTop(s, p);
    LastIffTopmost(s, p);
    var s', top := Release(s, p), s.page.base + s.top;
    if s'.live != map[] {
      if EndsAtTop(s, p) {
        RewindSnug(s, p);
      } else {
        CoveredWithout(s.live, p, top - 1);
      }
    }
  }

  lemma AllocateAtSnug(s: State, p: nat, b: Block)
    requires s.page.base <= p && b.size > 0
    ensures Snug(AllocateAt(s, p, b))
  {
    var t := AllocateAt(s, p, b);
    assert p in t.live && p <= s.page.base + t.top - 1 < p + t.live[p].size;
  }

  lemma ExtendSnug(s: State, p: nat, b: Block)
    requires Sized(s) && p in s.live && b.size > 0
    ensures Snug(Extend(s, p, b))
  {
    var t := Extend(s, p, b);
    assert p in t.live && p <= s.page.base + t.top - 1 < p + t.live[p].size;
  }

  // Trimming a block leaves the stack top as snug as it was

  lemma TrimLastSnug(s: State, p: nat, b: Block)
    requires Sized(s) && p in s.live && EndsAtTop(s, p) && 0 < b.size <= s.live[p].size
    ensures Snug(Trim(s, p, b))
  {
    var t := Trim(s, p, b);
    assert p in t.live && p <= s.page.base + t.top - 1 < p + t.live[p].size;
  }

  lemma TrimOtherSnug(live: Blocks, p: nat, b: Block, a: int)
    requires p in live && b.size <= live[p].size && !(p <= a < p + live[p].size)
    ensures Covered(live[p := b], a) <==> Covered(live, a)
  {
    CoveredWithout(live, p, a);
    CoveredWithout(live[p := b], p, a);
    assert live[p := b] - {p} == live - {p};
  }

  lemma TrimSnug(s: State, p: nat, b: Block)
    requires Inv(s) && p in s.live && 0 < b.size <= s.live[p].size
    ensures Sized(s)
    ensures Snug(Trim(s, p, b)) <==> Snug(s)
  {
    InvSized(s, p);
    if EndsAtTop(s, p) {
      LastIffTopmost(s, p);
      TrimLastSnug(s, p, b);
    } else {
      EndsBelowTop(s, p);
      TrimOtherSnug(s.live, p, b, s.page.base + s.top - 1);
    }
  }

  // Where the stack top goes

  /**
   A free resets the stack top when it leaves nothing, rewinds it to the block's start when that is
   the highest and the stack top is snug, and leaves it alone otherwise.
   */
  lemma ReleaseTop(s: State, p: nat)
    requires Inv(s) && p in s.live
    ensures Sized(s)
    ensures Release(s, p).top
         == if s.live - {p} == map[] then 0
            else if Topmost(s.live, p) && Snug(s) then p - s.page.base
            else s.top
  {
    InvSized(s, p);
    LastIffTopmost(s, p);
  }

  /** Trimming lowers the stack top to the block's new end under the same condition, and only then. */
  lemma TrimTop(s: State, p: nat, b: Block)
    requires Inv(s) && p in s.live && b.size <= s.live[p].size
    ensures Sized(s)
    ensures Trim(s, p, b).top == if Topmost(s.live, p) && Snug(s) then p + b.size - s.page.base else s.top
  {
    InvSized(s, p);
    LastIffTopmost(s, p);
  }
}
