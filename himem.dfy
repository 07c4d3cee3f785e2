/** The accessor: byte-stream access to the whole himem pool through one
    window that is remapped as the position moves. Every method is proved
    against the reference definitions in Windowing. */
module Himem {
  import opened Declarations
  import opened Platform
  import Windowing
  import WindowingProperties

  class ESP32Himem {
    const plat: Platform.Device
    var size: nat
    var position: nat
    var ptr: nat
    var option: bool
    var hasBase: bool
    var bufferSize: nat
    var fullBufferSize: nat
    var ranges: nat

    function CurrentFields(): Fields
      reads this
    {
      Declarations.Fields(size, position, ptr, option, hasBase, bufferSize, fullBufferSize, ranges)
    }

    /** The accessor's fields with the platform state they drive. */
    function Snap(): Windowing.Machine
      reads this, plat
    {
      Windowing.Machine(CurrentFields(), plat.State())
    }

    ghost predicate Valid()
      reads this, plat
    {
      Windowing.Inv(Snap())
    }

    /** The constructor: position 0, no window. The fields the source leaves
        uninitialised until begin get an empty pool and the default
        configuration, so every operation before begin is out of bound. */
    constructor (platform: Platform.Device)
      requires platform.Valid() && !platform.mapped
      ensures this.plat == platform && platform.State() == old(platform.State())
      ensures position == 0 && !hasBase && size == 0
      ensures Valid()
    {
      plat := platform;
      size, position, ptr := 0, 0, 0;
      option, hasBase := REMAP_LESS, false;
      ranges := DEFAULT_RANGES;
      fullBufferSize := BLKSZ * DEFAULT_RANGES;
      bufferSize := BLKSZ * DEFAULT_RANGES;
    }

    /** begin(ranges, option): configure the window, allocate the pool and the
        range, and map the window over the current position. */
    method Begin(ranges: nat := DEFAULT_RANGES, option: bool := REMAP_LESS) returns (rc: int)
      requires Valid() && !hasBase
      modifies this, plat
      ensures var o := Windowing.Begin(old(Snap()), ranges, option);
              rc == o.rc && Snap() == o.m && plat.log == old(plat.log) + o.calls
      ensures Valid()
    {
      WindowingProperties.BeginPreservesInv(Snap(), ranges, option);
      this.ranges := Windowing.Constrain(ranges, 1, 8);
      fullBufferSize := BLKSZ * this.ranges;
      bufferSize := fullBufferSize;
      this.option := option;
      size := plat.pool.Length;
      if size == 0 {
        return NOT_PRESENT;
      }
      var r := plat.Alloc(size);
      if r != ESP_OK {
        return ERR_ALLOC;
      }
      r := plat.AllocMapRange(BLKSZ * this.ranges);
      if r != ESP_OK {
        return ERR_ALLOC;
      }
      rc := Remap(position, true);
    }

    /** remap(pos, force): move the logical position to `pos`, remapping the
        window when the block changes or `force` is set. */
    method Remap(pos: nat, force: bool := false) returns (rc: int)
      requires Valid()
      modifies this, plat
      ensures var o := Windowing.Remap(old(Snap()), pos, force);
              rc == o.rc && Snap() == o.m && plat.log == old(plat.log) + o.calls
      ensures Valid()
    {
      WindowingProperties.RemapPreservesInv(Snap(), pos, force);
      if pos >= size {
        return OUT_OF_BOUND;
      }
      if option {
        rc := RemapLess(pos, force);
      } else {
        rc := RemapMore(pos, force);
      }
    }

    /** The coarse strategy of remap: the block is a full window. */
    method RemapLess(pos: nat, force: bool) returns (rc: int)
      requires Valid() && pos < size && option
      modifies this, plat
      ensures var o := Windowing.Remap(old(Snap()), pos, force);
              rc == o.rc && Snap() == o.m && plat.log == old(plat.log) + o.calls
    {
      ghost var m := Snap();
      ghost var o := Windowing.Remap(m, pos, force);
      assert Unit(m.f) == fullBufferSize;
      var block := pos / fullBufferSize;
      if block == position / fullBufferSize && !force {
        assert o == Windowing.Outcome(OK, Windowing.Moved(m, pos), []);
      } else {
        Windowing.BlockStart(pos, fullBufferSize);
        assert o == Windowing.Rewindow(m, pos, block * fullBufferSize);
        assert Windowing.MapSize(m.f, block * fullBufferSize) == fullBufferSize;
        assert Windowing.UnmapSize(m.f) == fullBufferSize;
        if hasBase {
          var r := plat.Unmap(fullBufferSize);
          if r != ESP_OK {
            return ERR_UNMAP;
          }
          hasBase := false;
        }
        var r := plat.Map(block * fullBufferSize, fullBufferSize);
        if r != ESP_OK {
          return ERR_MAP;
        }
        hasBase := true;
      }
      ptr := pos % fullBufferSize;
      position := pos;
      rc := OK;
    }

    /** The fine strategy of remap: the block is one platform block, and the
        window is cut short at the end of the pool. */
    method RemapMore(pos: nat, force: bool) returns (rc: int)
      requires Valid() && pos < size && !option
      modifies this, plat
      ensures var o := Windowing.Remap(old(Snap()), pos, force);
              rc == o.rc && Snap() == o.m && plat.log == old(plat.log) + o.calls
    {
      ghost var m := Snap();
      ghost var o := Windowing.Remap(m, pos, force);
      assert Unit(m.f) == BLKSZ;
      var block := pos / BLKSZ;
      if block == position / BLKSZ && !force {
        assert o == Windowing.Outcome(OK, Windowing.Moved(m, pos), []);
      } else {
        Windowing.BlockStart(pos, BLKSZ);
        assert o == Windowing.Rewindow(m, pos, block * BLKSZ);
        if hasBase {
          var r := plat.Unmap(bufferSize);
          if r != ESP_OK {
            return ERR_UNMAP;
          }
          hasBase := false;
        }
        bufferSize := fullBufferSize;
        if block * BLKSZ + bufferSize >= size {
          bufferSize := size - block * BLKSZ;
        }
        var r := plat.Map(block * BLKSZ, bufferSize);
        if r != ESP_OK {
          return ERR_MAP;
        }
        hasBase := true;
      }
      ptr := pos % BLKSZ;
      position := pos;
      rc := OK;
    }

    /** read(): the byte at the position, then advance by one; -1 when there
        is none. */
    method Read() returns (c: int)
      requires Valid()
      modifies this, plat
      ensures Valid()
      ensures c == Windowing.Peek(old(Snap()), plat.pool[..])
      ensures if Windowing.Readable(old(CurrentFields()))
              then var o := Windowing.Remap(old(Snap()), old(position) + 1, false);
                   Snap() == o.m && plat.log == old(plat.log) + o.calls
              else Snap() == old(Snap()) && plat.log == old(plat.log)
    {
      if Windowing.Readable(CurrentFields()) {
        Windowing.PointerAddressesPosition(Snap());
        c := plat.pool[plat.winStart + ptr] as int;
        var _ := Remap(position + 1);
      } else {
        c := -1;
      }
    }

    /** peek(): the byte at the position without advancing; -1 when there is none. */
    function Peek(): (c: int)
      reads this, plat, plat.pool
      requires Valid()
      ensures Windowing.Readable(CurrentFields()) ==> c == plat.pool[position] as int
      ensures !Windowing.Readable(CurrentFields()) ==> c == -1
    {
      Windowing.Peek(Snap(), plat.pool[..])
    }

    /** write(data): store the byte at the position and advance by one;
        returns the number of bytes written. */
    method Write(data: bv8) returns (n: nat)
      requires Valid()
      modifies this, plat, plat.pool
      ensures Valid()
      ensures n == (if Windowing.Readable(old(CurrentFields())) then 1 else 0)
      ensures plat.pool[..] == if n == 1 then old(plat.pool[..])[old(position) := data]
                               else old(plat.pool[..])
      ensures if n == 1
              then var o := Windowing.Remap(old(Snap()), old(position) + 1, false);
                   Snap() == o.m && plat.log == old(plat.log) + o.calls
              else Snap() == old(Snap()) && plat.log == old(plat.log)
    {
      if Windowing.Readable(CurrentFields()) {
        Windowing.PointerAddressesPosition(Snap());
        plat.pool[plat.winStart + ptr] := data;
        var _ := Remap(position + 1);
        n := 1;
      } else {
        n := 0;
      }
    }

    /** seek(position): remap without force, returning remap's status. */
    method Seek(pos: nat) returns (rc: int)
      requires Valid()
      modifies this, plat
      ensures var o := Windowing.Remap(old(Snap()), pos, false);
              rc == o.rc && Snap() == o.m && plat.log == old(plat.log) + o.calls
      ensures Valid()
    {
      rc := Remap(pos);
    }

    /** operator[](pos): remap without force, discard the status, and give the
        active pointer as an offset from the window base. */
    method Index(pos: nat) returns (offset: nat)
      requires Valid()
      modifies this, plat
      ensures var o := Windowing.Remap(old(Snap()), pos, false);
              Snap() == o.m && plat.log == old(plat.log) + o.calls
      ensures offset == ptr
      ensures Valid()
    {
      var _ := Remap(pos);
      offset := ptr;
    }

    /** The destructor's conditional unmap: release a mapped window of
        bufferSize bytes, ignoring the status, and forget the base. */
    method Dispose()
      requires Valid()
      modifies this, plat
      ensures !hasBase
      ensures old(hasBase) ==>
                plat.log == old(plat.log) + [UnmapCall(old(plat.winLen))] &&
                (plat.mapped <==> Unmap in plat.refused)
      ensures !old(hasBase) ==> plat.log == old(plat.log) && plat.State() == old(plat.State())
    {
      if hasBase {
        WindowingProperties.DestructorUnmapsMappedSize(Snap());
        var _ := plat.Unmap(bufferSize);
        hasBase := false;
      }
    }

    /** available(): 1 when a byte exists at the position, else 0. */
    function Available(): (r: int)
      reads this
      ensures r == 0 || r == 1
      ensures r == 1 <==> position < size
    {
      Declarations.Available(CurrentFields())
    }

    /** size(): the pool size, zero until begin finds a pool. */
    function Size(): (n: nat)
      reads this, plat
      requires Valid()
      ensures n == 0 || n == plat.pool.Length
      ensures hasBase ==> position < n
    {
      size
    }

    /** bufferSize(): the mapped length, never more than the full width, and
        while a window is mapped exactly what it maps. */
    function BufferSize(): (n: nat)
      reads this, plat
      requires Valid()
      ensures n <= fullBufferSize
      ensures hasBase ==> n == plat.winLen
    {
      bufferSize
    }

    /** bufferIndex(): the position's offset in its unit; while a window is
        mapped, the active pointer. */
    function BufferIndex(): (i: nat)
      reads this, plat
      requires Valid()
      ensures hasBase ==> i == ptr && plat.winStart + i == position
    {
      if hasBase then WindowingProperties.BufferIndexIsPointer(Snap()); Declarations.BufferIndex(CurrentFields())
      else Declarations.BufferIndex(CurrentFields())
    }

    /** pointer(): the active pointer as an offset from the window base; while a
        window is mapped it addresses pool byte `position`. */
    function Pointer(): (offset: nat)
      reads this, plat
      requires Valid()
      ensures hasBase ==> plat.winStart + offset == position && offset < plat.winLen
    {
      if hasBase then Windowing.PointerAddressesPosition(Snap()); ptr else ptr
    }
  }
}
