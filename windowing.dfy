/** The reference definition of the accessor's behaviour: begin and remap as
    functions from the accessor's fields and the platform state to a status
    code, the new state and the primitive calls made on the way. */
module Windowing {
  import opened Declarations
  import opened Platform

  /** The accessor's fields together with the platform state they drive. */
  datatype Machine = Machine(f: Fields, p: PlatformState)

  /** What an operation returns, the state it leaves and the calls it made. */
  datatype Outcome = Outcome(rc: int, m: Machine, calls: seq<Call>)

  /** Arduino's constrain(x, lo, hi). */
  function Constrain(x: nat, lo: nat, hi: nat): (r: nat)
    requires lo <= hi
    ensures lo <= r <= hi
    ensures lo <= x <= hi ==> r == x
    ensures x < lo ==> r == lo
    ensures hi < x ==> r == hi
  {
    if x < lo then lo else if hi < x then hi else x
  }

  /** Bytes the next unmap releases: the full width in the coarse strategy,
      the current mapped size in the fine one. */
  function UnmapSize(f: Fields): nat
  {
    if f.option then f.fullBufferSize else f.bufferSize
  }

  /** Bytes mapped for a window starting at pool offset `start`: the full width
      in the coarse strategy; in the fine one, the full width cut short so that
      the window ends at the end of the pool when it would reach it. */
  function MapSize(f: Fields, start: nat): (len: nat)
    requires Configured(f) && start < f.size
    ensures 0 < len <= f.fullBufferSize
    ensures f.option ==> len == f.fullBufferSize
    ensures !f.option ==> start + len <= f.size
    ensures !f.option ==> (len == f.fullBufferSize <==> start + f.fullBufferSize <= f.size)
    ensures !f.option && start + f.fullBufferSize >= f.size ==> len == f.size - start
  {
    if f.option then f.fullBufferSize
    else if start + f.fullBufferSize >= f.size then f.size - start
    else f.fullBufferSize
  }

  /** The block holding `pos` starts at or before `pos`, `pos mod u` bytes before it. */
  lemma BlockStart(pos: nat, u: nat)
    requires u > 0
    ensures 0 <= (pos / u) * u <= pos
    ensures (pos / u) * u + pos % u == pos
  {
  }

  /** The window covers the logical position: it starts at the position's block,
      the active pointer is the position's offset in that block, and the mapped
      length is what the next unmap will release. */
  predicate Synced(m: Machine)
    requires Configured(m.f)
  {
    var u := Unit(m.f);
    m.f.position < m.f.size &&
    m.p.winStart == (m.f.position / u) * u &&
    m.f.ptr == m.f.position % u &&
    m.p.winLen == UnmapSize(m.f) &&
    (m.p.winLen == m.f.fullBufferSize || m.p.winStart + m.p.winLen == m.f.size) &&
    m.f.ptr < m.p.winLen
  }

  /** The accessor's invariant. */
  predicate Inv(m: Machine)
  {
    Configured(m.f) && PlatformInv(m.p) &&
    (m.f.size == 0 || m.f.size == m.p.physSize) &&
    m.f.bufferSize <= m.f.fullBufferSize &&
    (m.f.option ==> m.f.bufferSize == m.f.fullBufferSize) &&
    (m.f.hasBase <==> m.p.mapped) &&
    (m.f.hasBase ==> Synced(m))
  }

  /** The last step of remap: re-aim the active pointer and record the position. */
  function Moved(m: Machine, pos: nat): (r: Machine)
    requires Configured(m.f)
    ensures r.p == m.p && r.f.position == pos && r.f.ptr == pos % Unit(m.f)
    ensures r.f == m.f.(position := pos, ptr := r.f.ptr)
  {
    m.(f := m.f.(ptr := pos % Unit(m.f), position := pos))
  }

  /** remap(pos, force). */
  function Remap(m: Machine, pos: nat, force: bool): (o: Outcome)
    requires Configured(m.f)
    ensures o.rc == OK || o.rc == OUT_OF_BOUND || o.rc == ERR_UNMAP || o.rc == ERR_MAP
    ensures |o.calls| <= 2
    ensures o.rc != OK ==> o.m.f.position == m.f.position && o.m.f.ptr == m.f.ptr
    ensures o.rc == OK ==> o.m.f.position == pos && o.m.f.ptr == pos % Unit(m.f)
    ensures Configured(o.m.f) && o.m.f.size == m.f.size && o.m.f.option == m.f.option
    ensures o.m.f.fullBufferSize == m.f.fullBufferSize && o.m.f.ranges == m.f.ranges
    ensures o.m.p.physSize == m.p.physSize && o.m.p.refused == m.p.refused
  {
    if pos >= m.f.size then Outcome(OUT_OF_BOUND, m, [])
    else
      var u := Unit(m.f);
      var block := pos / u;
      if block == m.f.position / u && !force then Outcome(OK, Moved(m, pos), [])
      else
        BlockStart(pos, u);
        Rewindow(m, pos, block * u)
  }

  /** The remapping half of remap: release the old window if there is one,
      then map the window that starts at `start`. */
  function Rewindow(m: Machine, pos: nat, start: nat): (o: Outcome)
    requires Configured(m.f) && start <= pos < m.f.size
    ensures o.rc == OK || o.rc == ERR_UNMAP || o.rc == ERR_MAP
    ensures 1 <= |o.calls| <= 2
    ensures o.rc != OK ==> o.m.f.position == m.f.position && o.m.f.ptr == m.f.ptr
    ensures o.rc == OK ==> o.m.f.position == pos && o.m.f.ptr == pos % Unit(m.f)
    ensures o.m.f == m.f.(hasBase := o.m.f.hasBase, bufferSize := o.m.f.bufferSize,
                          position := o.m.f.position, ptr := o.m.f.ptr)
    ensures m.f.option ==> o.m.f.bufferSize == m.f.bufferSize
    ensures !m.f.option && o.rc != ERR_UNMAP ==> o.m.f.bufferSize == MapSize(m.f, start)
    ensures o.m.p.physSize == m.p.physSize && o.m.p.refused == m.p.refused
  {
    var released := UnmapSize(m.f);
    if m.f.hasBase && !UnmapAccepts(m.p, released) then
      Outcome(ERR_UNMAP, m, [UnmapCall(released)])
    else
      var unmapped := if m.f.hasBase then [UnmapCall(released)] else [];
      var p1 := if m.f.hasBase then AfterUnmap(m.p) else m.p;
      var len := MapSize(m.f, start);
      var f1 := m.f.(hasBase := false,
                     bufferSize := if m.f.option then m.f.bufferSize else len);
      var calls := unmapped + [MapCall(start, len)];
      if !MapAccepts(p1, start, len) then Outcome(ERR_MAP, Machine(f1, p1), calls)
      else Outcome(OK, Moved(Machine(f1.(hasBase := true), AfterMap(p1, start, len)), pos), calls)
  }

  /** begin(ranges, option), from the state the constructor leaves. */
  function Begin(m: Machine, ranges: nat, option: bool): (o: Outcome)
    ensures Configured(o.m.f) && o.m.f.ranges == Constrain(ranges, 1, 8)
    ensures o.m.f.option == option && o.m.f.size == m.p.physSize
  {
    var r := Constrain(ranges, 1, 8);
    var full := BLKSZ * r;
    var f1 := m.f.(ranges := r, fullBufferSize := full, bufferSize := full,
                   option := option, size := m.p.physSize);
    if m.p.physSize == 0 then Outcome(NOT_PRESENT, Machine(f1, m.p), [])
    else if !AllocAccepts(m.p, m.p.physSize) then
      Outcome(ERR_ALLOC, Machine(f1, m.p), [AllocCall(m.p.physSize)])
    else
      var p1 := m.p.(poolAllocated := true);
      var allocs := [AllocCall(m.p.physSize), AllocMapRangeCall(full)];
      if !AllocMapRangeAccepts(p1) then Outcome(ERR_ALLOC, Machine(f1, p1), allocs)
      else
        var o := Remap(Machine(f1, p1.(rangeAllocated := true, rangeSize := full)), m.f.position, true);
        Outcome(o.rc, o.m, allocs + o.calls)
  }

  /** The guard read, peek and write should use: a byte exists at the position
      and a window is mapped over it. */
  predicate Readable(f: Fields)
  {
    Available(f) == 1 && f.hasBase
  }

  /** peek(): the byte under the active pointer, or -1. */
  function Peek(m: Machine, pool: seq<bv8>): (c: int)
    requires Inv(m) && |pool| == m.p.physSize
    ensures Readable(m.f) ==> c == pool[m.f.position] as int
    ensures !Readable(m.f) ==> c == -1
  {
    if Readable(m.f) then
      PointerAddressesPosition(m);
      pool[m.p.winStart + m.f.ptr] as int
    else -1
  }

  /** The advance read and write evidently intend: to the next byte, or past
      the last byte so that available() becomes 0 and the stream ends. */
  function Advance(m: Machine): (r: Machine)
    requires Inv(m) && Readable(m.f)
    ensures m.f.position + 1 < m.f.size ==> r == Remap(m, m.f.position + 1, false).m
    ensures m.f.position + 1 == m.f.size ==>
              r.p == m.p && r.f.position == m.f.size && Available(r.f) == 0 && !Readable(r.f)
  {
    if m.f.position + 1 < m.f.size then Remap(m, m.f.position + 1, false).m
    else m.(f := m.f.(position := m.f.size))
  }

  /** Under the invariant a mapped window covers the position: the active
      pointer addresses exactly pool byte `position`, inside the mapped length,
      and the window ends inside the pool. */
  lemma PointerAddressesPosition(m: Machine)
    requires Inv(m) && m.f.hasBase
    ensures m.p.winStart + m.f.ptr == m.f.position
    ensures m.f.ptr < m.p.winLen
    ensures m.p.winStart + m.p.winLen <= m.f.size
  {
    BlockStart(m.f.position, Unit(m.f));
  }
}
