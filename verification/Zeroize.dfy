/** The byte-at-a-time zeroizer of `src/zeroize/mod.rs`. */
module Zeroize {
  import opened Memory
  import opened Usize

  /**
   Zeroize `len` bytes from address `ptr` on. `mem` holds the memory whose first byte has address
   `base`. The preconditions are that the pointer is not null and that the range is writable and
   does not wrap the address space.
   */
  method ZeroizeMem(bits: nat, mem: array<Byte>, base: nat, ptr: nat, len: nat)
    requires 0 != ptr && base <= ptr && ptr + len <= base + mem.Length
    requires IsWord(bits, ptr + len)
    modifies mem
    ensures forall i :: 0 <= i < mem.Length ==>
              mem[i] == if ptr <= base + i < ptr + len then 0 else old(mem[i])
    ensures mem[..] == Blit(old(mem[..]), ptr - base, Zeros(len))
  {
    var cursor := ptr;
    for i := 0 to len
      invariant cursor == ptr + i
      invariant forall j :: 0 <= j < mem.Length ==>
                  mem[j] == if ptr <= base + j < cursor then 0 else old(mem[j])
    {
      mem[cursor - base] := 0;
      cursor := Add(bits, cursor, 1);
    }
  }
}
