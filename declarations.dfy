/** The declarations header of the accessor: status codes, strategy switches,
    the field layout and the one-line accessors computed from the fields. */
module Declarations {

  // Status codes returned by begin, remap and seek.
  const OK: int := 0
  const NOT_PRESENT: int := -1
  const OUT_OF_BOUND: int := -2
  const ERR_ALLOC: int := -3
  const ERR_UNMAP: int := -4
  const ERR_MAP: int := -5

  // The two windowing strategies, selected by begin's `option` argument.
  const REMAP_LESS: bool := true   // coarse: remap per full window
  const REMAP_MORE: bool := false  // fine: remap per platform block

  /** Default number of platform blocks in the window. */
  const DEFAULT_RANGES: nat := 8

  /** ESP_HIMEM_BLKSZ: the platform's mapping granularity (32 KiB in ESP-IDF). */
  const BLKSZ: nat := 0x8000

  /** size_t on the ESP32 is 32 bits wide. */
  const SIZE_T_MOD: nat := 0x1_0000_0000

  /** The six status codes: OK is zero, every error is negative, no two coincide. */
  function StatusCodes(): (codes: seq<int>)
    ensures |codes| == 6 && codes[0] == 0
    ensures forall i :: 1 <= i < |codes| ==> codes[i] < 0
    ensures forall i, j :: 0 <= i < j < |codes| ==> codes[i] != codes[j]
  {
    [OK, NOT_PRESENT, OUT_OF_BOUND, ERR_ALLOC, ERR_UNMAP, ERR_MAP]
  }

  /** The accessor's fields. `ptr` is the active pointer as an offset from the
      window base; `hasBase` says whether the base pointer is non-null. The pool
      and range handles live in the platform state. */
  datatype Fields = Fields(
    size: nat,            // iSize
    position: nat,        // iPosition
    ptr: nat,             // iPtr - iBase
    option: bool,         // iOption
    hasBase: bool,        // iBase != NULL
    bufferSize: nat,      // iBufferSize
    fullBufferSize: nat,  // iFullBufferSize
    ranges: nat)          // iRanges

  /** The window configuration begin establishes: 1 to 8 blocks, full width in bytes. */
  predicate Configured(f: Fields)
  {
    1 <= f.ranges <= 8 && f.fullBufferSize == BLKSZ * f.ranges
  }

  /** The unit that decides remapping and indexes the window: the full width in
      the coarse strategy, one platform block in the fine one. It is always a
      whole number of blocks and never wider than the window. */
  function Unit(f: Fields): (u: nat)
    requires Configured(f)
    ensures BLKSZ <= u <= f.fullBufferSize && u % BLKSZ == 0
    ensures f.option == REMAP_LESS ==> u == f.fullBufferSize
    ensures f.option == REMAP_MORE ==> u == BLKSZ
  {
    if f.option then f.fullBufferSize else BLKSZ
  }

  /** available() exactly as the header computes it, in size_t arithmetic:
      `iPosition > iSize - 1 ? 0 : 1`. */
  function AvailableAsWritten(f: Fields): (r: int)
    requires f.position < SIZE_T_MOD && f.size < SIZE_T_MOD
    ensures r == 0 || r == 1
    ensures f.size > 0 ==> (r == 1 <==> f.position < f.size)
  {
    if f.position > (f.size - 1) % SIZE_T_MOD then 0 else 1
  }

  /** With an empty pool the subtraction wraps to SIZE_MAX, so the header reports
      a byte available although there is none. */
  lemma EmptyPoolReportsAvailable(f: Fields)
    requires f.size == 0 && f.position < SIZE_T_MOD
    ensures AvailableAsWritten(f) == 1 && f.position >= f.size
  {
  }

  /** available() as intended: 1 exactly when a byte exists at the position. */
  function Available(f: Fields): (r: int)
    ensures r == 0 || r == 1
    ensures r == 1 <==> f.position < f.size
  {
    if f.position < f.size then 1 else 0
  }

  /** The corrected available() agrees with the header's on every non-empty pool. */
  lemma AvailableMatchesAsWritten(f: Fields)
    requires f.position < SIZE_T_MOD && 0 < f.size < SIZE_T_MOD
    ensures Available(f) == AvailableAsWritten(f)
  {
  }

  /** bufferIndex(): the position's offset inside its remap unit. */
  function BufferIndex(f: Fields): (i: nat)
    requires Configured(f)
    ensures i < Unit(f)
    ensures f.position - i == (f.position / Unit(f)) * Unit(f)
  {
    f.position % Unit(f)
  }
}
