/** The himem platform the accessor drives: a physical pool, one reusable
    virtual window range, and the primitives that allocate, map and unmap.
    Each fallible primitive succeeds or fails according to the platform's
    state and to the set of primitives it currently refuses. */
module Platform {

  const ESP_OK: int := 0
  const ESP_FAIL: int := -1

  /** The fallible primitives, for fault injection. */
  datatype Primitive = Alloc | AllocMapRange | Map | Unmap

  /** One call of a primitive, with the sizes and offsets it was given. */
  datatype Call =
    | AllocCall(size: nat)
    | AllocMapRangeCall(size: nat)
    | MapCall(offset: nat, len: nat)
    | UnmapCall(len: nat)

  /** The platform's observable state. The window maps pool bytes
      [winStart, winStart + winLen) while `mapped` holds. */
  datatype PlatformState = PlatformState(
    physSize: nat,
    refused: set<Primitive>,
    poolAllocated: bool,
    rangeAllocated: bool,
    rangeSize: nat,
    mapped: bool,
    winStart: nat,
    winLen: nat)

  /** A mapping only exists over allocated handles and inside the pool. */
  predicate PlatformInv(p: PlatformState)
  {
    p.mapped ==>
      p.poolAllocated && p.rangeAllocated &&
      p.winLen <= p.rangeSize && p.winStart + p.winLen <= p.physSize
  }

  predicate AllocAccepts(p: PlatformState, size: nat)
  {
    Alloc !in p.refused && !p.poolAllocated && size <= p.physSize
  }

  predicate AllocMapRangeAccepts(p: PlatformState)
  {
    AllocMapRange !in p.refused && !p.rangeAllocated
  }

  /** Map needs both handles, an empty window, a length the range can hold and
      a physical span that lies inside the pool. */
  predicate MapAccepts(p: PlatformState, offset: nat, len: nat)
  {
    Map !in p.refused && p.poolAllocated && p.rangeAllocated && !p.mapped &&
    len <= p.rangeSize && offset + len <= p.physSize
  }

  /** Unmap needs a mapping and the very length that mapping was made with. */
  predicate UnmapAccepts(p: PlatformState, len: nat)
  {
    Unmap !in p.refused && p.mapped && len == p.winLen
  }

  function AfterMap(p: PlatformState, offset: nat, len: nat): (q: PlatformState)
    requires MapAccepts(p, offset, len)
    ensures PlatformInv(q) && q.mapped
    ensures q.physSize == p.physSize && q.refused == p.refused
  {
    p.(mapped := true, winStart := offset, winLen := len)
  }

  function AfterUnmap(p: PlatformState): (q: PlatformState)
    ensures PlatformInv(q) && !q.mapped
    ensures q.physSize == p.physSize && q.refused == p.refused
  {
    p.(mapped := false)
  }

  /** The platform: `pool` is the physical memory; the other fields are the
      handles and the window's current mapping. */
  class Device {
    const pool: array<bv8>
    var refused: set<Primitive>
    var poolAllocated: bool
    var rangeAllocated: bool
    var rangeSize: nat
    var mapped: bool
    var winStart: nat
    var winLen: nat
    ghost var log: seq<Call>

    function State(): PlatformState
      reads this
    {
      PlatformState(pool.Length, refused, poolAllocated, rangeAllocated,
                    rangeSize, mapped, winStart, winLen)
    }

    ghost predicate Valid()
      reads this
    {
      PlatformInv(State())
    }

    /** A platform over `memory`, with nothing allocated or mapped yet, that
        refuses the primitives in `refusing`. */
    constructor (memory: array<bv8>, refusing: set<Primitive>)
      ensures pool == memory && log == []
      ensures State() == PlatformState(memory.Length, refusing, false, false, 0, false, 0, 0)
      ensures Valid()
    {
      pool := memory;
      refused := refusing;
      poolAllocated, rangeAllocated, rangeSize := false, false, 0;
      mapped, winStart, winLen := false, 0, 0;
      log := [];
    }

    /** lesp_himem_alloc: reserve `size` bytes of the pool. */
    method Alloc(size: nat) returns (rc: int)
      modifies this
      ensures rc == (if AllocAccepts(old(State()), size) then ESP_OK else ESP_FAIL)
      ensures State() == if rc == ESP_OK then old(State()).(poolAllocated := true) else old(State())
      ensures log == old(log) + [AllocCall(size)]
    {
      log := log + [AllocCall(size)];
      if AllocAccepts(State(), size) {
        poolAllocated := true;
        rc := ESP_OK;
      } else {
        rc := ESP_FAIL;
      }
    }

    /** lesp_himem_alloc_map_range: reserve a virtual window of `size` bytes. */
    method AllocMapRange(size: nat) returns (rc: int)
      modifies this
      ensures rc == (if AllocMapRangeAccepts(old(State())) then ESP_OK else ESP_FAIL)
      ensures State() == if rc == ESP_OK
                         then old(State()).(rangeAllocated := true, rangeSize := size)
                         else old(State())
      ensures log == old(log) + [AllocMapRangeCall(size)]
    {
      log := log + [AllocMapRangeCall(size)];
      if AllocMapRangeAccepts(State()) {
        rangeAllocated, rangeSize := true, size;
        rc := ESP_OK;
      } else {
        rc := ESP_FAIL;
      }
    }

    /** lesp_himem_map: point the window at pool bytes [offset, offset + len). */
    method Map(offset: nat, len: nat) returns (rc: int)
      modifies this
      ensures rc == (if MapAccepts(old(State()), offset, len) then ESP_OK else ESP_FAIL)
      ensures State() == if rc == ESP_OK then AfterMap(old(State()), offset, len) else old(State())
      ensures log == old(log) + [MapCall(offset, len)]
    {
      log := log + [MapCall(offset, len)];
      if MapAccepts(State(), offset, len) {
        mapped, winStart, winLen := true, offset, len;
        rc := ESP_OK;
      } else {
        rc := ESP_FAIL;
      }
    }

    /** lesp_himem_unmap: release a mapping of `len` bytes. */
    method Unmap(len: nat) returns (rc: int)
      modifies this
      ensures rc == (if UnmapAccepts(old(State()), len) then ESP_OK else ESP_FAIL)
      ensures State() == if rc == ESP_OK then AfterUnmap(old(State())) else old(State())
      ensures log == old(log) + [UnmapCall(len)]
    {
      log := log + [UnmapCall(len)];
      if UnmapAccepts(State(), len) {
        mapped := false;
        rc := ESP_OK;
      } else {
        rc := ESP_FAIL;
      }
    }
  }
}
