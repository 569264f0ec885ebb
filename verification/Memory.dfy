/** Byte strings and the two raw writes the allocators use: storing a string and copying one. */
module Memory {

  newtype Byte = x: int | 0 <= x < 256

  function Zeros(n: nat): (z: seq<Byte>)
    ensures |z| == n && forall i :: 0 <= i < n ==> z[i] == 0
  {
    seq(n, _ => 0)
  }

  /** `mem` with `data` stored from index `at` on. */
  function Blit(mem: seq<Byte>, at: nat, data: seq<Byte>): (r: seq<Byte>)
    requires at + |data| <= |mem|
    ensures |r| == |mem|
  {
    seq(|mem|, i requires 0 <= i < |mem| => if at <= i < at + |data| then data[i - at] else mem[i])
  }

  /**
   `core::ptr::copy_nonoverlapping` from address `src` to address `dst`, in the memory whose first
   byte has address `base`.
   */
  method CopyNonoverlapping(mem: array<Byte>, base: nat, src: nat, dst: nat, n: nat)
    requires base <= src && src + n <= base + mem.Length
    requires base <= dst && dst + n <= base + mem.Length
    requires src + n <= dst || dst + n <= src
    modifies mem
    ensures mem[..] == Blit(old(mem[..]), dst - base, old(mem[..])[src - base..src - base + n])
  {
    forall i | 0 <= i < n {
      mem[dst - base + i] := mem[src - base + i];
    }
  }

  function Min(x: nat, y: nat): nat {
    if x < y then x else y
  }

  // Slices of a memory with `data` stored in it
  lemma SliceAcross(mem: seq<Byte>, at: nat, data: seq<Byte>, lo: nat, hi: nat)
    requires lo <= at && at + |data| <= hi <= |mem|
    ensures Blit(mem, at, data)[lo..hi] == Blit(mem[lo..hi], at - lo, data)
  {
  }

  lemma SliceBefore(mem: seq<Byte>, at: nat, data: seq<Byte>, lo: nat)
    requires lo <= at && at + |data| <= |mem|
    ensures Blit(mem, at, data)[lo..at] == mem[lo..at]
  {
  }

  lemma TakeOfSlice(mem: seq<Byte>, lo: nat, hi: nat, k: nat)
    requires lo + k <= hi <= |mem|
    ensures mem[lo..hi][..k] == mem[lo..lo + k]
  {
  }

  lemma SliceSplit(mem: seq<Byte>, lo: nat, mid: nat, hi: nat)
    requires lo <= mid <= hi <= |mem|
    ensures mem[lo..hi] == mem[lo..mid] + mem[mid..hi]
  {
  }

  lemma SliceOfBlit(mem: seq<Byte>, at: nat, data: seq<Byte>)
    requires at + |data| <= |mem|
    ensures Blit(mem, at, data)[at..at + |data|] == data
  {
  }

  lemma BlitAtStart(mem: seq<Byte>, data: seq<Byte>)
    requires |data| <= |mem|
    ensures Blit(mem, 0, data) == data + mem[|data|..]
  {
  }
}
