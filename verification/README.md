# secmem-alloc: the page allocator and the zeroizing wrapper, in Dafny

`secmem-alloc` provides two allocators for confidential data. `SecStackSinglePageAlloc` hands out
blocks of one locked memory page, bump style, and promises that memory is zero whenever it is not
allocated. `ZeroizeAlloc` wraps any other allocator and wipes blocks before they are freed.

This project models both, with the alignment arithmetic and the wiping loop they rest on, and proves
what they promise over every run of every client that keeps the `Allocator` contract. A client may
store anything in its blocks between calls.

## How it is laid out

| file | what it holds |
|---|---|
| `Usize.dfy` | machine words of any width, bitwise masking, multiples and powers of two |
| `Util.dfy` | `align_up_usize` and its companions, against the least multiple |
| `Memory.dfy`, `Maps.dfy`, `Zeroize.dfy` | byte strings, the copy, map updates, the wiping loop |
| `PageState.dfy` | the allocator's state with the set of live blocks, and the invariant `Inv` |
| `PageSpec.dfy` | what each operation does, in terms of live blocks and unbounded numbers |
| `Invariant.dfy` | every building block keeps `Inv` |
| `PageArithmetic.dfy`, `SecAlloc.dfy` | the class, updated in place as in the source, proved to compute `PageSpec` |
| `Runs.dfy` | calls, legal runs, and `Inv` over runs |
| `HandleStore.dfy`, `Refinement.dfy` | a store from handles to byte strings, and the proof that the page allocator is one |
| `Execution.dfy` | any legal run performed on the class ends where `Runs` says |
| `Exactness.dfy` | when requests succeed and where blocks go or stay, what a refusal costs, the leak of padded blocks |
| `TopOfStack.dfy`, `ClientRecord.dfy` | when the last allocation is recognised as such, and how a client can tell |
| `StaleTop.dfy` | a run in which it is not recognised |
| `StackDiscipline.dfy` | no fragmentation for clients that keep to the stack discipline |
| `Recovery.dfy`, `Isolation.dfy` | what remains when blocks are freed: nothing; and what stored data can reach: only its own block |
| `WrapperSpec.dfy`, `WrapperRuns.dfy`, `WrapperStore.dfy`, `ZeroizingAlloc.dfy`, `WrapperExecution.dfy` | `ZeroizeAlloc` over a backend that may give any answer |

The code's two counters do not determine which blocks are live, and every safety comment in the
source is about that set. In the model it is a ghost map from start address to the request and the
granted size. `Inv` ties it to the counters and the bytes: blocks are 8-aligned, pairwise disjoint
and below the stack top, `bytes` is the sum of their sizes, every byte outside them is zero, and the
stack top is 0 when there are none.

Addresses are numbers. The word width is a parameter, and all machine additions and subtractions go
through `Usize.Add` and `Usize.Sub`, whose preconditions rule out wrap-around, so that none happens
is part of the proof of each method. So are the conditions of the debug assertions and annotations:
powers of two, pointers in the used part of the page, sizes in order, ranges that are not null and do
not wrap. A layout may have
any size and any power of two as alignment that fit a word; the tighter bound that the Rust `Layout`
type puts on sizes is not needed. The page is nonnull, aligned to its size, a power of two, and
all zero at first. As for any Rust allocation, the address one past its end is still a word.

Some methods of the source are cut in two: `NextAligned` and `Take` are parts of `allocate_zeroed`,
`ShrinkInPlace` is a branch of `shrink`, `RoundUp` and `RoundUpFitting` are the calls of
`align_up_usize` with 8, and `CopyRange`, `CopyBlock` and `Transfer` are the common end of the two
reallocations.

## Where the code and its documentation differ

- `src/sec_alloc.rs:57-59` says that zero sized allocations cause an error. The code returns a
  dangling pointer and succeeds (lines 321-325); the model follows the code.
  `Exactness.ZeroSizeIsNeverRefused` shows it of every call and state.
- `src/sec_alloc.rs:187-188` says that `ptr_is_last_allocation` is true "iff" its argument is the
  final allocation. It is never true of another block, but it can be false for that one:
  `StaleTop.StackTopGoesStale` gives such a run. By `TopOfStack.ReleaseSnug` this starts exactly when
  the highest of several blocks is freed and no other block ends where it began, and it lasts until
  everything is freed or a new block is granted. `ClientRecord.ClientCanTell` turns that into one bit
  that a client can keep from its calls and their replies alone, and that is set exactly when the
  "iff" holds.
- `src/util.rs:33-34` says that an aligned-up pointer is null "iff" it cannot be aligned. Null itself
  stays null, although it is aligned; `Util.AlignUpNullIff` has the exact statement.
- `ZeroizeAlloc` wipes the layout size that it is given when a block is freed, and a backend may have
  granted more. `WrapperRuns.FreedBlockKeepsBytes` is a legal run after which a freed block still
  holds what was stored in it; by `WrapperRuns.FreedBlockIsWipedIff` that cannot happen exactly when
  the layout of the free has the granted length.

## Model

| member | source | states |
|---|---|---|
| Usize.MaskClearsLowBits | src/util.rs:30 | for every width, masking with the complement of 2^k - 1 subtracts exactly the remainder modulo 2^k |
| Usize.CeilIsLeast | src/util.rs:23-24 | the rounding all specifications use is the least multiple at or above its argument |
| Util.AlignUpIsCeil | src/util.rs:28-31 | for every width and power of two, wrapping add and mask give that least multiple when it is a word and 0 otherwise |
| Util.AlignUpNullIff | src/util.rs:33-46 | an aligned-up pointer is null exactly when it was null or no word at or above it is aligned |
| Util.FittingSizesRoundAlike | src/sec_alloc.rs:437-443 | every size from the requested one up to the granted one rounds to the granted one |
| Zeroize.ZeroizeMem | src/zeroize/mod.rs:101-114 | the loop zeroes exactly the given range and changes nothing else, and its cursor stays a word |
| Memory.CopyNonoverlapping | src/sec_alloc.rs:261 | copies between disjoint ranges, the disjointness being an obligation of the caller |
| PageArithmetic.FittingRounds | src/sec_alloc.rs:437-443 | for every layout that fits a live block, masking recomputes the size chosen at allocation |
| PageArithmetic.EarlyErrorLosesNothing | src/sec_alloc.rs:612-633 | when the last block cannot grow in place, a fresh allocation fails too, so refusing at once equals trying to move |
| Invariant.PlaceIsLowest | src/sec_alloc.rs:342-345 | the specification's place for a block is the lowest address at or above the stack top with the alignment asked for and 8 |
| Invariant.Reshape | src/sec_alloc.rs:86-117 | resizing, adding or removing one block keeps the invariant if it stays clear of the others and wipes what it gives up |
| Invariant.TopmostIsAbove | src/sec_alloc.rs:468-481 | when a block ends at the stack top all others end at or below its start, so rewinding exposes nothing live |
| Invariant.BytesBelowTop | src/sec_alloc.rs:108-115 | `bytes` is at most the stack top, a multiple of 8, at least every block's size, and 0 exactly when nothing is live |
| Invariant.InvIsConsistent | src/sec_alloc.rs:93-117 | the tests' self check passes in every state that satisfies the invariant |
| Invariant.DropAbortsIffLeaked | src/sec_alloc.rs:125-140 | the debug check on drop aborts exactly when some block is still live |
| SecAlloc.SecStackSinglePageAlloc.constructor | src/sec_alloc.rs:172-181 | a new allocator is in the initial state and satisfies the invariant |
| SecAlloc.SecStackSinglePageAlloc.AllocateZeroed | src/sec_alloc.rs:316-416 | fast and slow path compute the one specification: grant the lowest suitable address or refuse, exactly when it leaves no room |
| SecAlloc.SecStackSinglePageAlloc.NextAligned | src/sec_alloc.rs:370-395 | the slow path's search succeeds exactly when there is room and then finds the lowest aligned address |
| SecAlloc.SecStackSinglePageAlloc.Deallocate | src/sec_alloc.rs:423-482 | for any fitting layout, wipes precisely the block, forgets it, and resets or rewinds the stack top where nothing live is above |
| SecAlloc.SecStackSinglePageAlloc.ShrinkInPlace | src/sec_alloc.rs:514-568 | wipes precisely the released tail, and lowers the stack top when the block was last |
| SecAlloc.SecStackSinglePageAlloc.Shrink | src/sec_alloc.rs:484-574 | computes the specified shrink, which `Exactness.ShrinkIsExact` pins: free, trim where the block is, or move, and keeps the invariant |
| SecAlloc.SecStackSinglePageAlloc.GrowZeroed | src/sec_alloc.rs:576-662 | computes the specified growth, which `Exactness.GrowIsExact` pins, although the code refuses early where the specification tries to move |
| SecAlloc.SecStackSinglePageAlloc.ReallocGrow | src/sec_alloc.rs:281-307 | allocates, copies between blocks that cannot overlap, and frees, keeping the invariant throughout; `Exactness.ReallocGrowIsExact` says when it succeeds and where the block goes |
| SecAlloc.SecStackSinglePageAlloc.ReallocShrink | src/sec_alloc.rs:240-266 | the same with the smaller size copied, pinned by `Exactness.ReallocShrinkIsExact` |
| SecAlloc.SecStackSinglePageAlloc.PtrIsLastAllocation | src/sec_alloc.rs:187-211 | true of a live block only if it is the highest, and exactly when in addition the stack top is snug; a multiple of 8 that fits is its size, and nothing overflows |
| SecAlloc.SecStackSinglePageAlloc.Drop | src/sec_alloc.rs:125-140 | aborts on allocated bytes, and when there are none exactly on a nonzero byte anywhere in the page |
| Runs.StepKeepsInv | src/sec_alloc.rs:86-117 | every permitted call, with the calls nested in it, and every client write keep the master invariant |
| Runs.RunKeepsInv | src/sec_alloc.rs:86-117 | so does every legal run |
| Execution.Perform | src/sec_alloc.rs:240-673 | each permitted call or client store, made on the class, gives the state and reply of the specification's step |
| Execution.Execute | src/sec_alloc.rs:240-673 | a whole legal run made on the class ends in the state, and gives the replies, that the theorems about runs speak of |
| Refinement.StepRefines | src/sec_alloc.rs:240-673 | each call is a step of the handle store: fresh blocks are zero and disjoint, a resized block keeps its common prefix followed by zeros, no other block changes, a refusal changes nothing |
| Refinement.RunRefines | src/sec_alloc.rs:240-673 | every legal run is a run of the handle store with the same replies |
| Refinement.FreshRunIsSafe | src/sec_alloc.rs:310-316 | after every legal run the live blocks do not overlap, have the granted size and the alignment asked for |
| HandleStore.BehaviourIsSafe | src/sec_alloc.rs:310-316 | every run of the handle store itself keeps blocks apart, aligned and of the promised size |
| Exactness.AllocateIsExact | src/sec_alloc.rs:316-416 | allocation refuses exactly when memory is asked for and no suitable address leaves room, and otherwise grants the lowest one |
| Exactness.ReallocGrowIsExact | src/sec_alloc.rs:281-307 | a forced growth never reuses the block: it fails exactly when no suitable address leaves room, and otherwise grants the lowest one |
| Exactness.ReallocShrinkIsExact | src/sec_alloc.rs:240-266 | the same of a forced shrink, whatever the alignment of the pointer |
| Exactness.GrowIsExact | src/sec_alloc.rs:612-661 | growth keeps the pointer exactly when it meets the new alignment, the block is the highest, the stack top is snug and the page has room above; otherwise it gets what an allocation would |
| Exactness.GrowFailsIff | src/sec_alloc.rs:576-662 | growing fails exactly when memory is asked for, that condition for staying in place does not hold, and no suitable address leaves room |
| Exactness.ShrinkIsExact | src/sec_alloc.rs:484-574 | a shrink to some bytes keeps the pointer exactly when it meets the new alignment, wherever the block is; otherwise it gets what an allocation would |
| Exactness.ShrinkFailsIff | src/sec_alloc.rs:514-573 | shrinking fails only if the pointer does not meet the new alignment, and then exactly when no new block fits |
| Exactness.ZeroSizeIsNeverRefused | src/sec_alloc.rs:321-325 | a zero-sized request of any kind is answered with a dangling pointer and does no more than free the block shrunk to nothing |
| Exactness.RefusalChangesNothing | src/sec_alloc.rs:240-307 | any refused call leaves counters, bytes and live blocks as they were |
| TopOfStack.LastIffTopmost | src/sec_alloc.rs:187-211 | a block ends at the stack top exactly when it is the highest and the byte below the stack top is allocated |
| TopOfStack.SnugIff | src/sec_alloc.rs:187-211 | the documented "iff" holds of all live blocks exactly when the stack top stands right above one, or there are none |
| TopOfStack.ReleaseSnug | src/sec_alloc.rs:461-481 | a free makes the stack top stale exactly when it frees the highest of several blocks and no other ends where it starts; a stale top recovers by a free only when nothing is left |
| TopOfStack.ReleaseTop | src/sec_alloc.rs:461-481 | a free resets the stack top when nothing is left, rewinds it to the start of the highest block when that is freed and the top is snug, and otherwise leaves it |
| TopOfStack.TrimTop | src/sec_alloc.rs:552-560 | trimming lowers the stack top to the new end of the highest block when the top is snug, and otherwise leaves it |
| ClientRecord.StepNoted | src/sec_alloc.rs:201-211 | each call changes the blocks, and whether the stack top is snug, as a client notes it from the call and its reply |
| ClientRecord.ClientCanTell | src/sec_alloc.rs:187-211 | after any legal run from a fresh page the client's record has the live blocks, and its bit is set exactly when the "iff" holds of all of them |
| StaleTop.StackTopGoesStale | src/sec_alloc.rs:187-188 | a legal run after which the only live block does not end at the stack top |
| Exactness.LeakBound | src/sec_alloc.rs:374-411 | allocate and free is the identity but for the stack top, which is restored for alignment at most 8 or an empty page and otherwise rises by at most align - 8 |
| Exactness.LeakHappensOnce | src/sec_alloc.rs:459-481 | there is room for the same layout again, and repeating the pair with any layout of that alignment changes nothing at all |
| StackDiscipline.StepKeepsTight | src/sec_alloc.rs:63-73 | every disciplined call keeps the blocks end to end, in the order of their creation |
| StackDiscipline.NoFragmentation | src/sec_alloc.rs:63-73 | after a disciplined run the blocks tile the page up to the stack top, and a request with alignment at most 8 succeeds exactly when it fits what is not allocated |
| StackDiscipline.NoAlignedAddress | src/sec_alloc.rs:374-387 | an alignment not met at the start of the page is met nowhere in it |
| Recovery.NothingLeftBehind | src/sec_alloc.rs:311-312 | after any legal run every byte outside the live blocks is zero |
| Recovery.EmptyStackIff | src/sec_alloc.rs:461-466 | the stack top, and `bytes`, are 0 exactly when nothing is live |
| Recovery.EmptyIsInitial | src/sec_alloc.rs:461-466 | a state with no live block is the initial state |
| Recovery.FreeingAllRecovers | src/sec_alloc.rs:63-69 | freeing all live blocks, in any order and with any fitting layouts, is legal and ends in the initial state |
| Recovery.RefusedCallsLeaveNoTrace | src/sec_alloc.rs:240-307 | leaving the refused calls out of a run yields a legal run with the same end |
| Recovery.StoredDataDoesNotLeak | src/sec_alloc.rs:1-3 | runs that differ only in the bytes stored get the same replies and end with the same counters, blocks and free memory |
| Isolation.StoredDataStaysPut | src/sec_alloc.rs:1-3 | of two such runs, every block not written differently, followed through its moves, ends with the same bytes |
| WrapperSpec.ViewReallocate | src/zeroizing_alloc.rs:98-103 | the default reallocation keeps the common prefix, changes no other block and hands back zeros |
| WrapperSpec.ViewDeallocate | src/zeroizing_alloc.rs:123-138 | a free hands back zeros over the layout size and changes no other block |
| WrapperRuns.EveryBlockIsWiped | src/zeroizing_alloc.rs:54-83 | over any run and any backend, the blocks handed back are exactly those freed or moved, in order, each all zero over its layout size |
| WrapperStore.CallsRefine | src/zeroizing_alloc.rs:98-145 | over any run and any backend the client's blocks behave as a store from handles to byte strings |
| WrapperRuns.WholeBlockWipedIff | src/zeroizing_alloc.rs:128-135 | whatever was stored, the whole granted block is wiped exactly when the layout of the free has the granted length |
| WrapperRuns.FreedBlockIsWipedIff | src/zeroizing_alloc.rs:123-138 | the same of a store and a free at the end of any legal run |
| WrapperRuns.FreedBlockKeepsBytes | src/zeroizing_alloc.rs:128-135 | a legal run, with a backend that grants more than asked, after which a freed block holds a stored byte |
| ZeroizingAlloc.Backend.Allocate | src/zeroizing_alloc.rs:107-121 | an arbitrary backend: the next answer of any script, or a refusal when that answer breaks the contract, and the heap it leaves |
| ZeroizingAlloc.ZeroizeAlloc.Allocate | src/zeroizing_alloc.rs:42-52 | the client gets the answer of the backend and nothing else is done, asking for it exactly once |
| ZeroizingAlloc.ZeroizeAlloc.AllocateZeroed | src/zeroizing_alloc.rs:85-96 | the same, with a block that is zero |
| ZeroizingAlloc.ZeroizeAlloc.Deallocate | src/zeroizing_alloc.rs:123-138 | wipes in place and then hands back, so that the backend receives zeros |
| ZeroizingAlloc.ZeroizeAlloc.Reallocate | src/zeroizing_alloc.rs:98-103 | asks the backend once for the new layout, and with the answer it gets computes the specified reallocation through the wrapper's own methods |
| WrapperExecution.Execute | src/zeroizing_alloc.rs:42-145 | any legal run made on the wrapper gives the client the answers of the backend, in order, and ends in the heap that the theorems about runs speak of |

## Left out

- Mapping, locking and unmapping of the page (`src/internals/mem/unix.rs`, `src/internals/mem/windows.rs`): foreign calls; only their outcome, a zero page or an error before the allocator exists, is assumed.
- That the compiler may not remove the wiping (`src/zeroize/mod.rs:43-81`): outside the semantics of the model. The three zeroizers share one contract, and the byte loop is the one modelled.
- Pointer provenance (`src/sec_alloc.rs:222`, `src/sec_alloc.rs:448`): pointers are addresses.
- Zero sized blocks: a layout of size 0 stands for a dangling pointer that owns nothing; that the client holds it is not recorded. A backend of `ZeroizeAlloc` that grants memory for an empty layout is not modelled.
- `GlobalAlloc` and `Allocator` of `ZeroizeAlloc` are one model, in which the granted length is at least the size asked for; the debug aborts through `handle_alloc_error` on invalid layouts and null are not part of it.
- Threads: the allocator uses `Cell` and cannot be shared between them.
- Branch hints, feature selection, error display and `Debug` output: they do not change what is computed.
