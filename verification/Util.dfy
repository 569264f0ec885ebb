/** The alignment helpers of `src/util.rs`, at an arbitrary word width. Pointers are addresses. */
module Util {
  import opened Usize

  function AlignUpUsize(bits: nat, x: nat, div: nat): (r: nat)
    requires IsPowerOfTwo(div) && IsWord(bits, div)
  {
    BitAnd(WrappingAdd(bits, x, div - 1), BitNot(bits, div - 1))
  }

  const NULL: nat := 0

  function AlignUpPtrMut(bits: nat, ptr: nat, align: nat): (r: nat)
    requires IsPowerOfTwo(align) && IsWord(bits, align)
  {
    AlignUpUsize(bits, ptr, align)
  }

  predicate IsAlignedPtr(ptr: nat, align: nat)
    requires IsPowerOfTwo(align)
  {
    ptr % align == 0
  }

  function LargeOffsetFrom(ptr: nat, base: nat): nat
    requires ptr >= base
  {
    Sub(ptr, base)
  }

  /** Rounding `x + (d - 1)` down to a multiple of `d` rounds `x` up. */
  lemma RoundDownAfterAdding(x: nat, d: nat)
    requires d > 0
    ensures (x + d - 1) - (x + d - 1) % d == CeilMultiple(x, d)
  {
    CeilIsLeast(x, d);
    var c := CeilMultiple(x, d);
    MultipleOf(c, d);
    ModUnique(x + d - 1, d, c / d, x + d - 1 - c);
  }

  /**
   Mask rounding is right for every width and every power of two: it yields the least multiple of
   `div` at or above `x` when that is a word, and 0 otherwise.
   */
  lemma AlignUpIsCeil(bits: nat, x: nat, div: nat)
    requires IsWord(bits, x) && IsWord(bits, div) && IsPowerOfTwo(div)
    ensures AlignUpUsize(bits, x, div)
         == if IsWord(bits, CeilMultiple(x, div)) then CeilMultiple(x, div) else 0
  {
    var k: nat :| div == Pow2(k);
    if k > bits { Pow2Divides(bits, k); }
    var y := WrappingAdd(bits, x, div - 1);
    MaskClearsLowBits(bits, k, y);
    CeilIsLeast(x, div);
    if x + div - 1 < Pow2(bits) {
      ModUnique(x + div - 1, Pow2(bits), 0, x + div - 1);
      RoundDownAfterAdding(x, div);
    } else {
      ModUnique(x + div - 1, Pow2(bits), 1, x + div - 1 - Pow2(bits));
      ModUnique(y, div, 0, y);
      Pow2Divides(k, bits);
      NextMultiple(CeilMultiple(x, div), Pow2(bits), div);
    }
  }

  /**
   An aligned pointer is null exactly when it was null before or no word at or above it is aligned.
   The documentation forgets the first case: null is aligned, and stays null.
   */
  lemma AlignUpNullIff(bits: nat, ptr: nat, align: nat)
    requires IsWord(bits, ptr) && IsWord(bits, align) && IsPowerOfTwo(align)
    ensures AlignUpPtrMut(bits, ptr, align) == NULL
       <==> ptr == NULL || forall a: nat :: IsWord(bits, a) && a >= ptr ==> !IsAlignedPtr(a, align)
  {
    AlignUpIsCeil(bits, ptr, align);
    CeilIsLeast(ptr, align);
    var c := CeilMultiple(ptr, align);
    if ptr == NULL {
      ModUnique(0, align, 0, 0);
    } else if IsWord(bits, c) {
      assert c >= ptr && IsAlignedPtr(c, align);
    } else {
      forall a: nat | IsWord(bits, a) && a >= ptr ensures !IsAlignedPtr(a, align) {
      }
    }
  }

  lemma CeilWithinBlock(lo: nat, size: nat)
    requires lo <= size <= CeilMultiple(lo, 8)
    ensures CeilMultiple(size, 8) == CeilMultiple(lo, 8)
  {
  }

  /** Every size from `lo` up to `lo` rounded to a multiple of 8 rounds to the same size. */
  lemma FittingSizesRoundAlike(bits: nat, lo: nat, size: nat)
    requires lo <= size <= CeilMultiple(lo, 8)
    requires IsWord(bits, CeilMultiple(lo, 8)) && IsWord(bits, 8)
    ensures IsPowerOfTwo(8) && AlignUpUsize(bits, size, 8) == CeilMultiple(lo, 8)
  {
    CeilWithinBlock(lo, size);
    EightIsPower();
    AlignUpIsCeil(bits, size, 8);
  }
}
