# ESP32Himem windowed remapping engine, modelled in Dafny

ESP32Himem gives byte-stream access to the ESP32's "himem" physical pool. The
pool is larger than the processor can address at once, so the library uses one
small virtual window. The window is remapped over a block-aligned slice of the
pool as the stream position moves. This project models that accessor:

- `remap(pos, force)` in both windowing strategies: coarse (`REMAP_LESS`, one unit is the full window) and fine (`REMAP_MORE`, one unit is one platform block, with the window cut short at the pool's tail);
- `begin`, the constructor and the destructor's conditional unmap;
- `read`, `peek`, `write`, `seek`, `operator[]`;
- the inline accessors of the declarations header.

Layout:

- `declarations.dfy` (module `Declarations`): the status codes and the strategy constants. Also `ESP_HIMEM_BLKSZ` (32 KiB, ESP-IDF's value), the field layout as a datatype, and the header's accessors as functions of the fields.
- `platform.dfy` (module `Platform`): the himem platform as a class. It holds the pool as an `array<bv8>`, the handles, and the window's current mapping (start, length, mapped flag). The `lesp_himem_*` primitives are methods that succeed or fail. A call fails when the platform refuses that primitive (a `refused` set, for fault injection) or when the request is invalid. Alloc is invalid when the pool is already allocated or the size exceeds the pool. AllocMapRange is invalid when a range is already allocated. Map is invalid without handles, into a mapped window, beyond the range size or past the pool. Unmap is invalid without a mapping or with a length other than the mapped one. A ghost log records every call with its arguments.
- `windowing.dfy` (module `Windowing`): the reference definition. `Remap` and `Begin` are functions from the accessor's fields plus the platform state to a status code, a new state and the list of platform calls. `Inv` is the accessor's invariant: a mapped window covers the position, and the next unmap releases exactly the mapped length.
- `properties.dfy` (module `WindowingProperties`): lemmas about that definition.
- `himem.dfy` (module `Himem`): the accessor as class `ESP32Himem` with the source's fields. `Begin`, `Remap`, `Read`, `Write`, `Seek` and `Index` are proved to produce exactly the state, status and calls of the reference definition, and to keep `Valid()`. The two strategy branches of `remap` are the methods `RemapLess` and `RemapMore`. `Remap` does the range check and dispatches to them. Each branch is proved equal to the reference remap; `Remap` then establishes `Valid()`. `Dispose` states its unmap and the cleared base directly: it has no reference definition.

A pointer is modelled as an offset. `ptr` is the offset last computed by remap (src/ESP32Himem.h:76, 104): while a window is mapped it is `iPtr - iBase`, and the byte under the pointer is `pool[winStart + ptr]`. After a map failure `iBase` is NULL but `iPtr` still holds the old window's address, and the model keeps the old offset. `hasBase` says whether `iBase` is non-null.

An unmap failure returns `ERR_UNMAP` and leaves `iBase`, the mapping and every field as they were (src/ESP32Himem.h:64-66, 84-86). The model keeps the window mapped.

## Model

| member | source | states |
|---|---|---|
| Declarations.StatusCodes | src/ESP32HimemDeclarations.h:29-34 | the six status codes: OK is 0, every error code is negative, all are pairwise distinct |
| Declarations.Unit | src/ESP32HimemDeclarations.h:61 | the remap unit is the full width when `iOption` is REMAP_LESS (true) and one platform block when it is REMAP_MORE (false); it is a whole number of blocks, never wider than the window |
| Declarations.AvailableAsWritten | src/ESP32HimemDeclarations.h:51 | available() in 32-bit size_t arithmetic returns 0 or 1; on a non-empty pool, 1 exactly when position < size |
| Declarations.EmptyPoolReportsAvailable | src/ESP32HimemDeclarations.h:51 | with size 0 the size_t subtraction wraps and available() reports 1 although no byte exists |
| Declarations.Available | src/ESP32HimemDeclarations.h:51 | corrected available(): 1 exactly when position < size |
| Declarations.AvailableMatchesAsWritten | src/ESP32HimemDeclarations.h:51 | the corrected available() equals the header's on every non-empty pool |
| Declarations.BufferIndex | src/ESP32HimemDeclarations.h:61 | bufferIndex() is less than the unit, and position minus it is the start of the position's unit |
| Platform.Device.Alloc | src/ESP32Himem.h:35-36 | the pool allocation succeeds exactly when the platform accepts it; only then is the pool handle set; the call is logged |
| Platform.Device.AllocMapRange | src/ESP32Himem.h:39-40 | the range allocation succeeds exactly when accepted, and records the range size; the call is logged |
| Platform.Device.Map | src/ESP32Himem.h:71-72 | a map succeeds exactly when accepted and then maps [offset, offset+len); otherwise nothing changes; the call is logged |
| Platform.Device.Unmap | src/ESP32Himem.h:64-66 | an unmap succeeds exactly when a window of that very length is mapped and unmap is not refused; the call is logged |
| Windowing.Constrain | src/ESP32Himem.h:24 | constrain(x, lo, hi) lies in [lo, hi]: it is lo when x < lo, hi when x > hi, and x otherwise |
| Windowing.MapSize | src/ESP32Himem.h:91-95 | coarse windows are the full width; fine windows are the full width unless they would reach the pool's end, then end exactly there; never longer than the full width, never empty |
| Windowing.Moved | src/ESP32Himem.h:104-107 | the final step sets the position to pos and the pointer to pos mod unit, touching nothing else |
| Windowing.Remap | src/ESP32Himem.h:47-111 | remap returns OK, OUT_OF_BOUND, ERR_UNMAP or ERR_MAP with at most two platform calls; on error the position and pointer stay; on OK they are pos and pos mod unit; configuration never changes |
| Windowing.Rewindow | src/ESP32Himem.h:62-102 | the remapping half returns OK, ERR_UNMAP or ERR_MAP after one or two calls, changing only the base, the position, the pointer and, in the fine strategy only, the mapped size, which becomes the recomputed window length once the unmap has succeeded |
| Windowing.Begin | src/ESP32Himem.h:22-44 | begin leaves a clamped range count, the chosen strategy and the platform's pool size |
| Windowing.PointerAddressesPosition | src/ESP32Himem.h:104-107 | under the invariant a mapped window puts the active pointer on pool byte `position`, inside the mapped length, and ends inside the pool |
| Windowing.Advance | src/ESP32Himem.h:116 | the intended advance of read and write: remap(position + 1) before the last byte; after it, the position moves to the end so available() is 0 and nothing is readable |
| Windowing.Peek | src/ESP32Himem.h:122-125 | peek returns pool byte `position` when a byte exists and a window is mapped, else -1 |
| WindowingProperties.SyncedAfterMove | src/ESP32Himem.h:76 | moving inside the current unit keeps the mapped window covering the position |
| WindowingProperties.SyncedAfterRewindow | src/ESP32Himem.h:99-104 | a window freshly mapped at pos's unit covers pos |
| WindowingProperties.RemapPreservesInv | src/ESP32Himem.h:47-111 | every remap outcome, success or failure, preserves the invariant |
| WindowingProperties.RemapOutOfBound | src/ESP32Himem.h:49-53 | pos >= size returns OUT_OF_BOUND, changes nothing and calls nothing |
| WindowingProperties.RemapOkCoversPosition | src/ESP32Himem.h:58-107 | after OK the position is pos; a mapped window starts at (pos / unit) × unit and the pointer, pos mod unit, addresses byte pos below the mapped length, with the window inside the pool |
| WindowingProperties.RemapCallsOnlyOnBlockChange | src/ESP32Himem.h:58-82 | the platform is called only if force is set or pos's unit differs from the position's; otherwise only the pointer and position change |
| WindowingProperties.RemapExchangesWindow | src/ESP32Himem.h:64-71 | a window change unmaps exactly the mapped length (failing only when unmap is refused), then maps the unit holding pos: one unmap plus one map, or a single map when nothing was mapped |
| WindowingProperties.RemapFailures | src/ESP32Himem.h:84-100 | an unmap failure leaves the whole state, window still mapped; a map failure leaves no window and the old position and pointer |
| WindowingProperties.FineWindowTruncatedAtTail | src/ESP32Himem.h:91-95 | in the fine strategy each new window is recomputed from the full width, truncated to size − start when start + full ≥ size, never past the pool, and is what the next unmap releases |
| WindowingProperties.WindowTilesPool | src/ESP32Himem.h:71 | when the pool is a multiple of the full width, the full window of any in-pool position ends inside the pool |
| WindowingProperties.CoarseWindowsInsidePool | src/ESP32Himem.h:71 | in the coarse strategy, with the pool a multiple of the full width, every map requested lies inside the pool |
| WindowingProperties.CoarseSeekExample | src/ESP32Himem.h:58-76 | two-block coarse windows over four blocks: seeking the window's last byte calls nothing; seeking the next window is one unmap of the full width and one map of [2, 4) blocks |
| WindowingProperties.FineTailExample | src/ESP32Himem.h:91-99 | four-block fine windows over ten blocks: the window at block 8 maps only 2 blocks |
| WindowingProperties.FineRemapsInsideWindow | src/ESP32Himem.h:80-82 | the fine strategy remaps at a block boundary even when the new block is already inside the mapped window |
| WindowingProperties.AdvanceAtLastByte | src/ESP32Himem.h:113-118 | at position size−1 the advancing remap is OUT_OF_BOUND and nothing moves |
| WindowingProperties.BufferIndexIsPointer | src/ESP32HimemDeclarations.h:61 | while mapped, bufferIndex() equals iPtr − iBase and window start plus it is the position |
| WindowingProperties.DestructorUnmapsMappedSize | src/ESP32Himem.h:11-14 | the destructor's unmap of bufferSize is exactly the mapped length in both strategies, so it fails only when refused |
| WindowingProperties.IndexAfterFailedRemap | src/ESP32Himem.h:140-143 | when operator[]'s remap fails, the pointer still addresses the old position's byte, or no mapped byte after a map failure |
| WindowingProperties.MapFailureLeavesAvailable | src/ESP32Himem.h:99-100 | after a map failure available() (as written) still reports 1 with no window mapped; a seek back to the old unit then reports OK without mapping |
| WindowingProperties.BeginOutcomes | src/ESP32Himem.h:22-43 | begin clamps ranges to [1, 8] and sets the full width to that many blocks; empty pool: NOT_PRESENT with no calls; refused pool allocation: ERR_ALLOC after one call; otherwise pool and range (full width) are allocated first, and ERR_ALLOC exactly when the range allocation is refused or a range is already allocated; on those errors the mapped size is the full width |
| WindowingProperties.BeginPreservesInv | src/ESP32Himem.h:22-43 | begin on an accessor without a window keeps the invariant |
| WindowingProperties.BeginMapsFirstWindow | src/ESP32Himem.h:43 | on a fresh accessor and a non-refusing platform, begin succeeds iff the strategy is fine or the full width fits the pool, and then maps offset 0 with the pointer on byte 0 and a window of min(full width, pool) |
| WindowingProperties.ReadTimes | src/ESP32Himem.h:113-120 | the results of n read() calls with the as-written advance: there are n of them, the first is peek(), each is -1 or a byte value, and all are -1 when nothing is readable at the start |
| WindowingProperties.ReadAtLastByteRepeats | src/ESP32Himem.h:113-120 | at the last byte available() as written stays 1 and every one of any number of reads returns that same byte: the stream never ends |
| WindowingProperties.AdvanceEndsStream | src/ESP32Himem.h:113-120 | with the intended advance, the read at the last byte returns it and afterwards available() is 0 and nothing is readable |
| WindowingProperties.SeekAll | src/ESP32Himem.h:136-138 | any sequence of seeks keeps the invariant, the size and the strategy |
| WindowingProperties.PeekAfterSeeksReadsPosition | src/ESP32Himem.h:127-134 | a byte stored at an existing position, as write stores it, is what peek returns after any seeks that come back to that position with a window mapped: the pointer stays in step with the position across seeks |
| Himem.ESP32Himem.constructor | src/ESP32Himem.h:3-6 | position 0, no base, invariant established |
| Himem.ESP32Himem.Begin | src/ESP32Himem.h:22-44 | begin (default 8 ranges, REMAP_LESS) yields exactly the reference begin's status, state and calls, and keeps the invariant |
| Himem.ESP32Himem.Remap | src/ESP32Himem.h:47-111 | remap (force defaulting to false) yields exactly the reference remap's status, state and calls, and keeps the invariant |
| Himem.ESP32Himem.RemapLess | src/ESP32Himem.h:58-77 | the coarse branch agrees with the reference remap |
| Himem.ESP32Himem.RemapMore | src/ESP32Himem.h:78-105 | the fine branch, with tail truncation, agrees with the reference remap |
| Himem.ESP32Himem.Read | src/ESP32Himem.h:113-120 | read returns pool byte `position` and then performs remap(position+1), or returns -1 and changes nothing |
| Himem.ESP32Himem.Peek | src/ESP32Himem.h:122-125 | peek returns pool byte `position`, or -1 |
| Himem.ESP32Himem.Write | src/ESP32Himem.h:127-134 | write stores the byte at pool offset `position`, performs remap(position+1) and returns 1, or returns 0 and changes nothing |
| Himem.ESP32Himem.Seek | src/ESP32Himem.h:136-138 | seek returns exactly remap(pos)'s status and state, without force |
| Himem.ESP32Himem.Index | src/ESP32Himem.h:140-143 | operator[] performs remap(pos) without force, ignores its status and returns the pointer |
| Himem.ESP32Himem.Dispose | src/ESP32Himem.h:8-14 | the destructor unmaps a mapped window with exactly its mapped length and clears the base |
| Himem.ESP32Himem.Available | src/ESP32HimemDeclarations.h:51 | available() is 1 exactly when position < size |
| Himem.ESP32Himem.Size | src/ESP32HimemDeclarations.h:56 | size() is 0 before a pool is found, else the platform's pool size, and exceeds the position while mapped |
| Himem.ESP32Himem.BufferSize | src/ESP32HimemDeclarations.h:60 | bufferSize() never exceeds the full width and, while mapped, is the mapped length |
| Himem.ESP32Himem.BufferIndex | src/ESP32HimemDeclarations.h:61 | while mapped, bufferIndex() is the pointer offset and addresses the position |
| Himem.ESP32Himem.Pointer | src/ESP32HimemDeclarations.h:62 | while mapped, pointer() addresses pool byte `position` inside the window |

## Left out

- `physSize()` calls the platform directly and is not modelled. `esp_himem_get_phys_size` is the length of the platform's pool array. `lesp_himem_init` has no effect in the model.
- The destructor's freeing of the range and pool handles (src/ESP32Himem.h:16-19) is resource release, not windowing logic. After a partly failed `begin` it may even release handles that were never obtained.
- The Arduino `Stream` base class, `flush()`, and the commented-out diagnostic output are left out. `constrain` is modelled as a clamp.
- The build without range checking (`ESP32HIMEM_NO_RANGE_CHECK`) is not modelled. The range check is always on.
- `iPtr`, `pointer()` and `operator[]`'s `uint8_t&` are offsets from the window base. Dereferencing them is a read or write of `pool[winStart + offset]`. Aliasing through a kept reference is not modelled.
- Only Declarations.AvailableAsWritten models 32-bit `size_t` wrap-around. Elsewhere positions and sizes are unbounded naturals. Pool sizes and window arithmetic stay far below 2^32 on the ESP32.
- Fields the C++ constructor leaves uninitialised get defined values until `begin`: size 0, 8 ranges, coarse strategy.
- The platform is a model, not ESP-IDF's implementation, which is not part of this model. The platform refuses a map that would reach past the pool. So a coarse window at the tail of a pool that is not a multiple of the full width fails with ERR_MAP. The model does not claim it stays in the pool.
- Faults are a fixed set of refused primitives. A platform that fails a primitive on one call and accepts it on the next is covered only by changing the set between calls.
- Himem.ESP32Himem.Begin: requires that no window is mapped, that is, begin is called once on a freshly constructed accessor. A second `begin` while mapped would change the width the mapped window is later unmapped with.
- Himem.ESP32Himem.Available: is the corrected available() of the first Findings row (Declarations.Available). On an empty pool it returns 0 where the header's expression returns 1.
- Himem.ESP32Himem.Read: guards with `Readable` (a byte exists and a window is mapped) instead of `available()` alone, so it returns -1 where the header reports a byte but no window is mapped. See Findings.
- Himem.ESP32Himem.Peek: the same `Readable` guard; it returns -1 where the header's available() is 1 with no window mapped.
- Himem.ESP32Himem.Write: the same `Readable` guard; it returns 0 and stores nothing where the header would store through a pointer into an unmapped window.
- WindowingProperties.ReadTimes: uses the corrected `Readable` guard and is as written only in its advance. Where available() as written is 1 but no window is mapped (after a map failure), it returns -1 without advancing, while read() as written would dereference the stale pointer and call remap(position + 1).
- Himem.ESP32Himem.Read and Himem.ESP32Himem.Write keep the advance as written: at the last byte the position stays, so the stream never ends (third Findings row). The intended advance, Windowing.Advance, is stated as a function only: moving the position past the end with a window mapped lies outside the accessor's invariant, which asks a mapped window to cover the position.
- Himem.ESP32Himem.Dispose: does not promise the invariant afterwards. The object is being destroyed, and a refused unmap leaves the platform mapped while the base is cleared.

## Findings

| source | as written | input that shows it | evidently intended | confidence | as-written member | corrected member |
|---|---|---|---|---|---|---|
| src/ESP32HimemDeclarations.h:51 | `iSize - 1` is computed in size_t. With iSize 0 it wraps to SIZE_MAX, so available() returns 1, and read()/peek()/write() then dereference an iPtr that was never set | `begin` on a platform whose pool size is 0 (returns NOT_PRESENT), then `read()` | available() is 0 whenever iPosition ≥ iSize | not executed; high | Declarations.EmptyPoolReportsAvailable | Declarations.Available |
| src/ESP32Himem.h:99-100 | after a map failure iBase is NULL but iPosition is unchanged and in range, so available() stays 1. read/peek/write then dereference an iPtr into the unmapped window. A later seek inside the old block returns OK and leaves iPtr = NULL + offset | a mapped accessor, a platform that refuses map, `seek(p)` to another block (ERR_MAP), then `read()` | read/peek return -1 and write returns 0 while no window is mapped | not executed; medium | WindowingProperties.MapFailureLeavesAvailable | Windowing.Peek |
| src/ESP32Himem.h:113-134 | read() and write() advance with remap(iPosition+1). At the last byte that remap fails the range check (line 50) and iPosition stays, so available() never becomes 0: read() returns the last byte forever, write() overwrites it forever, and `while (available()) read();` never terminates | a mapped accessor at position size−1, then `read()` repeatedly | after the last byte the position moves to the end, available() becomes 0 and read() returns -1 | not executed; medium | WindowingProperties.ReadAtLastByteRepeats | WindowingProperties.AdvanceEndsStream |
