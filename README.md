# StaticMemoryPool: a verified model of ArduinoJson's fixed-capacity bump allocator

ArduinoJson keeps every node and string of a document in a memory pool.
`StaticMemoryPoolBase` is the fixed-capacity version: one `char` buffer, a constant
capacity and a cursor `_size`. It supports four operations:

- `alloc` rounds the cursor up to the platform alignment, checks the capacity and bumps the cursor.
- `realloc` grows the block at the tail by bumping the cursor again, with no alignment.
- `clear` puts the cursor back to 0.
- `startString` hands out a `StringBuilder`.

The builder reserves one byte. Each `append` grows that block by one byte and writes the
character into it. `complete` writes the terminator into the byte that is still reserved.
`StaticMemoryPool<CAPACITY>` is the pool over an embedded buffer of `Max<1, CAPACITY>` bytes.

The project has four modules:

- `Alignment` (`alignment.dfy`): `round_size_up`, which is defined elsewhere in ArduinoJson, as
  `RoundUp(x, a)`. Its body is the least multiple of `a` at or above `x`, and `RoundUpUnique`
  shows that it is the only function with the three properties of its postcondition
  (`x <= r < x + a`, `r % a == 0`). Nothing else unfolds the body; everything else uses only
  those properties. From these the lemmas derive uniqueness, `RoundUp(0) == 0`,
  idempotence and monotonicity. The alignment `a` is a parameter, so every result holds for any
  positive alignment and not just for `sizeof(void*)` on one target.
- `PoolModel` (`pool_model.dfy`): the pool and the builder as values (`Pool`, `Builder`).
  Each operation is a function from the old state to the new state and the returned pointer.
  Pointers are offsets into the buffer, and NULL is `None`.
- `PoolProperties` (`pool_properties.dfy`): properties that relate several calls. These cover
  runs of allocations, clear followed by alloc, and whole strings built by a builder.
- `StaticMemoryPool` (`static_memory_pool.dfy`): the two classes as the source has them.
  `StaticMemoryPoolBase` has a buffer `array<char>`, constant `capacity` and `align`, and a
  mutable `size`. `StringBuilder` has a reference to its pool and mutable `start` and `size`.
  Each method changes state in place, and its postcondition equates the new state and result
  with the matching `PoolModel` function applied to the old state.

`capacity()` and `size()` are the accessors `Capacity` and `Size`. The capacity is a `const`
field, so no operation can change it. Every `PoolModel` operation also states that it leaves
`capacity` and `align` alone.

In three places the code behaves differently from what a reader might expect. The model follows the code:

- The cursor can pass the capacity. `alloc` aligns before it checks the capacity and keeps
  the padding when it then fails. With capacity 4 and 8-byte alignment, a 1-byte alloc
  followed by any other alloc leaves the cursor at 8 (`FailedAllocKeepsPadding`). So
  the pool invariant is `size <= RoundUp(capacity)`, not `size <= capacity`.
- `append` on a failed builder is not a no-op in itself. It still calls `realloc(NULL, …)`, and
  that call moves the cursor when there is room (`FailedAppendStillReallocs`). It changes
  nothing only under the calling discipline. A failure leaves no room for one more byte,
  and nothing else allocates afterwards (`Attached`, `AppendAllSticky`).
- Successive allocations are ordered and do not overlap: each block ends at or before the
  start of the next. They are strictly ordered only when the blocks are non-empty, because
  two `alloc(0)` calls at an aligned cursor return the same offset.

## Model

| member | source | states |
|---|---|---|
| Alignment.RoundUp | src/ArduinoJson/Memory/StaticMemoryPool.hpp:79-81 | the rounded cursor is a multiple of the alignment, at least the cursor and less than one alignment above it |
| Alignment.RoundUpUnique | src/ArduinoJson/Memory/StaticMemoryPool.hpp:80 | those three properties determine the rounded value uniquely |
| Alignment.RoundUpZero | src/ArduinoJson/Memory/StaticMemoryPool.hpp:80 | an empty pool's first block starts at offset 0 |
| Alignment.RoundUpIdempotent | src/ArduinoJson/Memory/StaticMemoryPool.hpp:80 | aligning an aligned cursor leaves it where it is |
| Alignment.RoundUpMonotone | src/ArduinoJson/Memory/StaticMemoryPool.hpp:80 | aligning preserves the order of cursors |
| PoolModel.ActualCapacity | src/ArduinoJson/Memory/StaticMemoryPool.hpp:113 | the reserved capacity is at least 1 and at least CAPACITY, and equals CAPACITY unless CAPACITY is 0 |
| PoolModel.New | src/ArduinoJson/Memory/StaticMemoryPool.hpp:73-74 | a new pool holds the given buffer, capacity and alignment, satisfies the pool invariant and has nothing consumed |
| PoolModel.AlignNextAlloc | src/ArduinoJson/Memory/StaticMemoryPool.hpp:79-81 | only the cursor changes; it moves to an aligned offset less than one alignment ahead and keeps the pool invariant |
| PoolModel.CanAlloc | src/ArduinoJson/Memory/StaticMemoryPool.hpp:83-85 | true exactly when the bytes fit in the room left between the cursor and the capacity; false means the cursor plus the bytes passes the capacity |
| PoolModel.DoAlloc | src/ArduinoJson/Memory/StaticMemoryPool.hpp:87-91 | the block starts at the old cursor, ends at the new cursor and lies within the capacity; only the cursor changes and the pool invariant is kept |
| PoolModel.Alloc | src/ArduinoJson/Memory/StaticMemoryPool.hpp:49-53 | success: an aligned block at most one alignment past the cursor, within the capacity, ending at the new cursor; failure: NULL, and the cursor still moves to the aligned offset, where the block does not fit; invariant kept, only the cursor changes |
| PoolModel.Realloc | src/ArduinoJson/Memory/StaticMemoryPool.hpp:55-60 | no alignment; success returns the old pointer and grows the cursor by exactly newSize - oldSize; failure returns NULL with nothing changed; a tail block stays the tail; invariant kept |
| PoolModel.Clear | src/ArduinoJson/Memory/StaticMemoryPool.hpp:64-66 | the cursor becomes 0 and buffer, capacity and alignment are untouched |
| PoolModel.StartString | src/ArduinoJson/Memory/StaticMemoryPool.hpp:17-20 | the builder starts at what alloc(1) returns, with no characters, and the pool is left exactly as alloc(1) leaves it (on failure too, padding kept); the builder either owns the pool's tail or has failed with no room left |
| PoolModel.Append | src/ArduinoJson/Memory/StaticMemoryPool.hpp:22-25 | a live builder with room grows its block by one byte and writes exactly the character after its text; without room it turns NULL and nothing changes; a failed builder stays failed and writes nothing |
| PoolModel.Complete | src/ArduinoJson/Memory/StaticMemoryPool.hpp:27-30 | returns the builder's start; a live builder writes the terminator into the slot after its text (before the cursor) and nothing else; a failed one changes nothing |
| PoolProperties.AllocAtRoundedCursor | src/ArduinoJson/Memory/StaticMemoryPool.hpp:49-53 | alloc returns round_size_up(old cursor) and the cursor becomes that plus the size when it fits; otherwise NULL and the cursor becomes round_size_up(old cursor) |
| PoolProperties.AllocRun | src/ArduinoJson/Memory/StaticMemoryPool.hpp:49-53 | along any run of allocs, every block handed out is aligned and within the capacity, and it ends before every later block starts |
| PoolProperties.AllocRunFits | src/ArduinoJson/Memory/StaticMemoryPool.hpp:49-53 | a run whose aligned sum stays within the capacity succeeds at every call and ends at that sum |
| PoolProperties.ClearThenAlloc | src/ArduinoJson/Memory/StaticMemoryPool.hpp:64-66 | after clear the pool is a fresh pool again and the next alloc starts at offset 0 when it fits |
| PoolProperties.FailedAllocKeepsPadding | src/ArduinoJson/Memory/StaticMemoryPool.hpp:49-51 | capacity 4 with 8-byte alignment: after a 1-byte alloc the next alloc fails and leaves the cursor at 8, beyond the capacity |
| PoolProperties.FailedAppendStillReallocs | src/ArduinoJson/Memory/StaticMemoryPool.hpp:22-23 | append on a NULL builder keeps it NULL but bumps the cursor when the pool has room |
| PoolProperties.AppendAll | src/ArduinoJson/Memory/StaticMemoryPool.hpp:22-25 | successive appends keep the pool invariant and the builder discipline; a live builder never moves its start and a failed one stays failed |
| PoolProperties.AppendAllGrows | src/ArduinoJson/Memory/StaticMemoryPool.hpp:22-25 | k appends that fit reserve k more bytes and leave exactly the k characters, in order, after the builder's start and earlier text |
| PoolProperties.AppendAllSticky | src/ArduinoJson/Memory/StaticMemoryPool.hpp:22-24 | once failed with no room behind it, any number of appends changes neither the pool nor the builder |
| PoolProperties.AppendAllFails | src/ArduinoJson/Memory/StaticMemoryPool.hpp:22-25 | appends past the capacity leave the builder NULL for good, the cursor at the capacity and the characters that fitted in the buffer |
| PoolProperties.BuildString | src/ArduinoJson/Memory/StaticMemoryPool.hpp:17-30 | a whole build keeps the pool invariant, capacity, alignment and buffer length |
| PoolProperties.BuildStringCorrect | src/ArduinoJson/Memory/StaticMemoryPool.hpp:17-30 | complete returns non-NULL exactly when text and terminator fit after the aligned cursor; then it returns that offset, the buffer holds the text followed by 0 there and the cursor is just past the terminator |
| PoolProperties.CompleteAfterInterleavedAlloc | src/ArduinoJson/Memory/StaticMemoryPool.hpp:27-30 | after startString and another alloc, complete still returns the builder's start and writes 0 into the builder's own reserved byte only |
| PoolProperties.BuildHello | src/ArduinoJson/Memory/StaticMemoryPool.hpp:17-30 | "hello" in a fresh pool of capacity 8 or more is stored with its terminator at offsets 0 to 5 |
| PoolProperties.SuccessiveStrings | src/ArduinoJson/Memory/StaticMemoryPool.hpp:17-30 | two strings built one after the other occupy disjoint blocks and the second leaves the first intact |
| StaticMemoryPool.StaticMemoryPoolBase.constructor | src/ArduinoJson/Memory/StaticMemoryPool.hpp:73-74 | the pool adopts the caller's buffer and capacity with the cursor at 0 |
| StaticMemoryPool.StaticMemoryPoolBase.WithCapacity | src/ArduinoJson/Memory/StaticMemoryPool.hpp:111-121 | the pool owns a fresh buffer of exactly Max<1, CAPACITY> bytes, which is its capacity |
| StaticMemoryPool.StaticMemoryPoolBase.Capacity | src/ArduinoJson/Memory/StaticMemoryPool.hpp:39-41 | returns the `const` field `capacity`, which no operation can change, and which the buffer can hold |
| StaticMemoryPool.StaticMemoryPoolBase.Size | src/ArduinoJson/Memory/StaticMemoryPool.hpp:44-46 | returns the cursor, which the pool invariant bounds by the capacity rounded up |
| StaticMemoryPool.StaticMemoryPoolBase.Alloc | src/ArduinoJson/Memory/StaticMemoryPool.hpp:49-53 | updates the cursor in place as PoolModel.Alloc does and returns its pointer; invariant kept |
| StaticMemoryPool.StaticMemoryPoolBase.Realloc | src/ArduinoJson/Memory/StaticMemoryPool.hpp:55-60 | updates the cursor in place as PoolModel.Realloc does and returns its pointer |
| StaticMemoryPool.StaticMemoryPoolBase.Clear | src/ArduinoJson/Memory/StaticMemoryPool.hpp:64-66 | the new state is PoolModel.Clear of the old one |
| StaticMemoryPool.StaticMemoryPoolBase.StartString | src/ArduinoJson/Memory/StaticMemoryPool.hpp:68-70 | returns a new builder on this pool whose state, with the pool's, is PoolModel.StartString of the old pool |
| StaticMemoryPool.StaticMemoryPoolBase.AlignNextAlloc | src/ArduinoJson/Memory/StaticMemoryPool.hpp:79-81 | the new state is PoolModel.AlignNextAlloc of the old one |
| StaticMemoryPool.StaticMemoryPoolBase.CanAlloc | src/ArduinoJson/Memory/StaticMemoryPool.hpp:83-85 | answers as PoolModel.CanAlloc on the pool's state |
| StaticMemoryPool.StaticMemoryPoolBase.DoAlloc | src/ArduinoJson/Memory/StaticMemoryPool.hpp:87-91 | returns the old cursor and bumps it, as PoolModel.DoAlloc |
| StaticMemoryPool.StringBuilder.constructor | src/ArduinoJson/Memory/StaticMemoryPool.hpp:17-20 | reserves one byte with alloc(1); pool and builder end as PoolModel.StartString says |
| StaticMemoryPool.StringBuilder.Append | src/ArduinoJson/Memory/StaticMemoryPool.hpp:22-25 | reallocs and writes into the pool's buffer in place; pool and builder end as PoolModel.Append says |
| StaticMemoryPool.StringBuilder.Complete | src/ArduinoJson/Memory/StaticMemoryPool.hpp:27-30 | writes the terminator into the pool's buffer in place and returns the start, as PoolModel.Complete says |

## Left out

- PoolModel.Realloc: requires `oldSize <= newSize`. The source subtracts in unsigned `size_t`, and the wrap-around of a shrinking call is not modelled. StaticMemoryPool.StaticMemoryPoolBase.Realloc has the same requirement.
- PoolModel.Append: requires that a live builder's block is still the pool's tail (`Live`). The source does not check this calling discipline. Breaking it makes the source write outside the block it reserved. StaticMemoryPool.StringBuilder.Append has the same requirement.
- PoolModel.Complete: requires that a live builder's terminator slot `start + size` lies before the cursor and within the capacity (`Terminable`). The source does not check this. It holds when nothing has allocated since startString, and it still holds after any other alloc, failed or not (`CompleteAfterInterleavedAlloc`). StaticMemoryPool.StringBuilder.Complete has the same requirement.
- Fixed-width `size_t` arithmetic: sizes and offsets are unbounded naturals, so the overflow of `_size + bytes` is not modelled.
- `round_size_up` and `Max<>` are defined elsewhere in ArduinoJson. `RoundUp` and `ActualCapacity` compute the same values, and the lemmas use only their stated properties.
- The `MemoryPool` base class, the `virtual` dispatch of `alloc`, the destructor and `StringInMemoryPool` are not part of this model. `complete` returns the start as an optional offset.
- `StringStorage/StringCopier.hpp` only forwards `startString` to its pool, so it is left out.
- Raw pointer identity, use of blocks after `clear` and stale aliases are left out. The source does not detect them, so the model has nothing to state about them.
- The compiler-diagnostic pragmas are not behaviour and are left out.
