/** `ZeroizeAlloc` of `src/zeroizing_alloc.rs`, over a backend that may give any answer. */
module ZeroizingAlloc {
  import opened Memory
  import opened PageState
  import opened Usize
  import opened Zeroize
  import W = WrapperSpec

  /**
   A backend allocator. `script` is what it will decide, answer by answer; an answer the contract
   forbids counts as a refusal. As `script` is arbitrary, so is the backend. Address 0 is null.
   */
  class Backend {
    const bits: nat
    const mem: array<Byte>
    var grants: map<nat, W.Grant>
    var returned: seq<W.Handover>
    var script: seq<W.Answer>

    constructor (bits: nat, mem: array<Byte>, script: seq<W.Answer>)
      requires IsWord(bits, mem.Length)
      ensures Valid() && this.bits == bits && this.mem == mem && this.script == script
      ensures grants == map[] && returned == []
    {
      this.bits, this.mem, this.script := bits, mem, script;
      grants, returned := map[], [];
    }

    function Abs(): W.Heap
      reads this, mem
    {
      W.Heap(mem[..], grants, returned)
    }

    ghost predicate Valid()
      reads this, mem
    {
      IsWord(bits, mem.Length) && W.Bounded(Abs()) && W.GrantsApart(grants)
    }

    method Allocate(layout: Layout, zeroed: bool) returns (a: W.Answer)
      requires Valid()
      modifies this, mem
      ensures returned == old(returned)
      ensures W.Acceptable(old(Abs()), layout, zeroed, a)
      ensures Abs() == W.Allocate(old(Abs()), layout, a)
      ensures W.Decides(old(Abs()), layout, zeroed, old(script), a, script)
    {
      if script == [] {
        return W.Refused;
      }
      a := script[0];
      script := script[1..];
      if !W.Acceptable(Abs(), layout, zeroed, a) {
        a := W.Refused;
      }
      if a.Granted? && layout.size > 0 {
        ghost var h := Abs();
        forall i | 0 <= i < |a.fill| {
          mem[a.ptr + i] := a.fill[i];
        }
        grants := grants[a.ptr := W.Grant(layout.size, layout.align, |a.fill|)];
        assert mem[..] == Blit(h.mem, a.ptr, a.fill);
      }
    }

    method Deallocate(ptr: nat, layout: Layout)
      requires Valid() && W.GrantFits(grants, ptr, layout)
      modifies this
      ensures Abs() == old(W.HandBack(Abs(), ptr, layout)) && script == old(script)
    {
      if layout.size > 0 {
        returned := returned + [W.Handover(ptr, mem[ptr..ptr + layout.size])];
        grants := grants - {ptr};
      }
    }
  }

  class ZeroizeAlloc {
    const backend: Backend

    constructor (backend: Backend)
      requires backend.Valid() && W.AllWiped(backend.Abs())
      ensures Valid() && this.backend == backend
    {
      this.backend := backend;
    }

    ghost predicate Valid()
      reads this, backend, backend.mem
    {
      IsWord(backend.bits, backend.mem.Length) && W.HeapInv(backend.Abs())
    }

    // `alloc` and `allocate`
    method Allocate(layout: Layout) returns (a: W.Answer)
      requires Valid()
      modifies backend, backend.mem
      ensures Valid() && W.Acceptable(old(backend.Abs()), layout, false, a)
      ensures backend.Abs() == W.Allocate(old(backend.Abs()), layout, a)
      ensures W.Decides(old(backend.Abs()), layout, false, old(backend.script), a, backend.script)
    {
      a := Delegate(layout, false);
    }

    // `alloc_zeroed` and `allocate_zeroed`
    method AllocateZeroed(layout: Layout) returns (a: W.Answer)
      requires Valid()
      modifies backend, backend.mem
      ensures Valid() && W.Acceptable(old(backend.Abs()), layout, true, a)
      ensures backend.Abs() == W.Allocate(old(backend.Abs()), layout, a)
      ensures W.Decides(old(backend.Abs()), layout, true, old(backend.script), a, backend.script)
    {
      a := Delegate(layout, true);
    }

    method Delegate(layout: Layout, zeroed: bool) returns (a: W.Answer)
      requires Valid()
      modifies backend, backend.mem
      ensures Valid() && W.Acceptable(old(backend.Abs()), layout, zeroed, a)
      ensures backend.Abs() == W.Allocate(old(backend.Abs()), layout, a)
      ensures W.Decides(old(backend.Abs()), layout, zeroed, old(backend.script), a, backend.script)
    {
      ghost var h := backend.Abs();
      a := backend.Allocate(layout, zeroed);
      if a.Granted? && layout.size > 0 { W.AllocateKeepsHeapInv(h, layout, a); }
    }

    // `dealloc` and `deallocate`: wipe, then hand back. Wiping nothing is a no-op, whatever the pointer.
    method Deallocate(ptr: nat, layout: Layout)
      requires Valid() && W.GrantFits(backend.grants, ptr, layout)
      modifies backend, backend.mem
      ensures Valid()
      ensures backend.Abs() == old(W.Deallocate(backend.Abs(), ptr, layout)) && backend.script == old(backend.script)
      ensures layout.size > 0 ==> backend.returned == old(backend.returned) + [W.Handover(ptr, Zeros(layout.size))]
    {
      ghost var h := backend.Abs();
      if layout.size > 0 {
        ZeroizeMem(backend.bits, backend.mem, 0, ptr, layout.size);
        assert backend.Abs() == W.Wipe(h, ptr, layout.size);
        W.ViewDeallocate(h, ptr, layout);
      }
      backend.Deallocate(ptr, layout);
    }

    // Copy between two distinct blocks
    method CopyBlock(src: nat, dst: nat, n: nat)
      requires Valid() && src in backend.grants && dst in backend.grants && src != dst
      requires 0 < n <= backend.grants[src].len && n <= backend.grants[dst].len
      modifies backend.mem
      ensures Valid()
      ensures backend.Abs() == old(W.CopyBytes(backend.Abs(), src, dst, n))
    {
      ghost var h := backend.Abs();
      CopyNonoverlapping(backend.mem, 0, src, dst, n);
      assert backend.Abs() == W.CopyBytes(h, src, dst, n);
      W.ViewCopy(h, src, dst, n);
    }

    // The default `realloc`, `grow`, `grow_zeroed` and `shrink`, which go through the methods above
    method Reallocate(ptr: nat, oldLayout: Layout, newLayout: Layout, zeroed: bool) returns (a: W.Answer)
      requires Valid() && W.GrantFits(backend.grants, ptr, oldLayout)
      modifies backend, backend.mem
      ensures Valid() && W.Acceptable(old(backend.Abs()), newLayout, zeroed, a)
      ensures old(W.Bounded(backend.Abs()) && W.GrantFits(backend.grants, ptr, oldLayout))
      ensures backend.Abs() == W.Reallocate(old(backend.Abs()), ptr, oldLayout, newLayout, zeroed, a)
      ensures W.Decides(old(backend.Abs()), newLayout, zeroed, old(backend.script), a, backend.script)
    {
      if zeroed {
        a := AllocateZeroed(newLayout);
      } else {
        a := Allocate(newLayout);
      }
      if a == W.Refused {
        return;
      }
      var n := Min(oldLayout.size, newLayout.size);
      if n > 0 {
        assert ptr != a.ptr;
        CopyBlock(ptr, a.ptr, n);
      }
      Deallocate(ptr, oldLayout);
    }
  }
}
