/** What remap and begin guarantee, proved about their reference definitions. */
module WindowingProperties {
  import opened Declarations
  import opened Platform
  import opened Windowing

  /** Moving inside the block the window already covers keeps it covering. */
  lemma SyncedAfterMove(m: Machine, pos: nat)
    requires Inv(m) && m.f.hasBase && pos < m.f.size
    requires pos / Unit(m.f) == m.f.position / Unit(m.f)
    ensures Synced(Moved(m, pos))
  {
    var u := Unit(m.f);
    BlockStart(pos, u);
    var r := Moved(m, pos);
    assert r.p.winStart == (pos / u) * u;
    if m.p.winLen != m.f.fullBufferSize {
      assert pos - r.p.winStart == pos % u;
    }
  }

  /** A window freshly mapped at the block of `pos` covers `pos`. */
  lemma SyncedAfterRewindow(m: Machine, pos: nat, start: nat)
    requires Inv(m) && start <= pos < m.f.size
    requires start == (pos / Unit(m.f)) * Unit(m.f) && start + pos % Unit(m.f) == pos
    ensures var o := Rewindow(m, pos, start);
            o.rc == OK ==> o.m.f.hasBase && Synced(o.m)
  {
    var o := Rewindow(m, pos, start);
    if o.rc == OK {
      var len := MapSize(m.f, start);
      var p1 := if m.f.hasBase then AfterUnmap(m.p) else m.p;
      var f1 := m.f.(hasBase := true,
                     bufferSize := if m.f.option then m.f.bufferSize else len);
      assert o.m == Moved(Machine(f1, AfterMap(p1, start, len)), pos);
      assert o.m.p.winStart == start && o.m.p.winLen == len;
      assert UnmapSize(o.m.f) == len;
      assert o.m.f.ptr == pos - start;
    }
  }

  /** Every remap, successful or not, preserves the invariant. */
  lemma RemapPreservesInv(m: Machine, pos: nat, force: bool)
    requires Inv(m)
    ensures Inv(Remap(m, pos, force).m)
  {
    if pos < m.f.size {
      var u := Unit(m.f);
      if pos / u == m.f.position / u && !force {
        if m.f.hasBase {
          SyncedAfterMove(m, pos);
        }
      } else {
        BlockStart(pos, u);
        SyncedAfterRewindow(m, pos, (pos / u) * u);
      }
    }
  }

  /** A position at or past the end of the pool is rejected and nothing changes. */
  lemma RemapOutOfBound(m: Machine, pos: nat, force: bool)
    requires Configured(m.f) && pos >= m.f.size
    ensures Remap(m, pos, force) == Outcome(OUT_OF_BOUND, m, [])
  {
  }

  /** After a successful remap the position is `pos` and the pointer is its
      offset in the unit; when a window is mapped it starts at the unit that
      holds `pos`, the pointer addresses pool byte `pos` inside the mapped
      length, and the window ends inside the pool. A remap that changed the
      window, or started from a mapped one, leaves a window mapped. */
  lemma RemapOkCoversPosition(m: Machine, pos: nat, force: bool)
    requires Inv(m)
    ensures var o := Remap(m, pos, force);
            var u := Unit(m.f);
            o.rc == OK ==>
              pos < m.f.size && o.m.f.position == pos && o.m.f.ptr == pos % u &&
              (m.f.hasBase || force || pos / u != m.f.position / u ==> o.m.f.hasBase)
    ensures var o := Remap(m, pos, force);
            var u := Unit(m.f);
            o.rc == OK && o.m.f.hasBase ==>
              o.m.p.winStart == (pos / u) * u && o.m.p.winStart + o.m.f.ptr == pos &&
              o.m.f.ptr < o.m.p.winLen && o.m.p.winStart + o.m.p.winLen <= m.f.size
  {
    var o := Remap(m, pos, force);
    RemapPreservesInv(m, pos, force);
    if o.rc == OK {
      var u := Unit(m.f);
      if pos / u == m.f.position / u && !force {
        assert o.m.f.hasBase == m.f.hasBase;
      } else {
        BlockStart(pos, u);
        SyncedAfterRewindow(m, pos, (pos / u) * u);
      }
      if o.m.f.hasBase {
        PointerAddressesPosition(o.m);
      }
    }
  }

  /** The platform is called only when `force` is set or `pos` lies in another
      unit than the current position; otherwise remap succeeds at once and only
      the pointer and the position change. */
  lemma RemapCallsOnlyOnBlockChange(m: Machine, pos: nat, force: bool)
    requires Configured(m.f)
    ensures var o := Remap(m, pos, force);
            var u := Unit(m.f);
            o.calls != [] ==> pos < m.f.size && (force || pos / u != m.f.position / u)
    ensures var o := Remap(m, pos, force);
            var u := Unit(m.f);
            pos < m.f.size && !force && pos / u == m.f.position / u ==>
              o.rc == OK && o.calls == [] && o.m.p == m.p &&
              o.m.f == m.f.(position := pos, ptr := pos % u)
  {
  }

  /** A remap that changes the window first releases exactly the length that is
      mapped (so, under the invariant, an unmap fails only when the platform
      refuses it) and then maps the unit holding `pos`: one unmap and one map
      when a window was mapped, a single map otherwise. */
  lemma RemapExchangesWindow(m: Machine, pos: nat, force: bool)
    requires Inv(m)
    ensures var o := Remap(m, pos, force);
            var u := Unit(m.f);
            pos < m.f.size && (force || pos / u != m.f.position / u) ==>
              (m.f.hasBase ==> o.calls[0] == UnmapCall(m.p.winLen) &&
                               (o.rc == ERR_UNMAP <==> Unmap in m.p.refused)) &&
              (!m.f.hasBase ==> o.rc != ERR_UNMAP) &&
              (o.rc != ERR_UNMAP ==>
                 |o.calls| == (if m.f.hasBase then 2 else 1) &&
                 o.calls[|o.calls| - 1].MapCall? &&
                 o.calls[|o.calls| - 1].offset == (pos / u) * u)
  {
    var u := Unit(m.f);
    if pos < m.f.size && (force || pos / u != m.f.position / u) {
      BlockStart(pos, u);
      assert Remap(m, pos, force) == Rewindow(m, pos, (pos / u) * u);
    }
  }

  /** An unmap failure leaves the whole state as it was, the window still
      mapped; a map failure leaves no window and the position and pointer as
      they were. */
  lemma RemapFailures(m: Machine, pos: nat, force: bool)
    requires Inv(m)
    ensures var o := Remap(m, pos, force);
            o.rc == ERR_UNMAP ==> o.m == m && m.f.hasBase && m.p.mapped
    ensures var o := Remap(m, pos, force);
            o.rc == ERR_MAP ==>
              !o.m.f.hasBase && !o.m.p.mapped &&
              o.m.f.position == m.f.position && o.m.f.ptr == m.f.ptr
  {
    var u := Unit(m.f);
    if pos < m.f.size && (force || pos / u != m.f.position / u) {
      BlockStart(pos, u);
      assert Remap(m, pos, force) == Rewindow(m, pos, (pos / u) * u);
    }
  }

  /** Fine strategy: the length of a new window is recomputed from the full
      width each time: the full width, unless the window would reach the end
      of the pool, in which case it ends exactly there. It never extends past
      the pool, and it is what the next unmap releases. */
  lemma FineWindowTruncatedAtTail(m: Machine, pos: nat, force: bool)
    requires Inv(m) && m.f.option == REMAP_MORE
    ensures var o := Remap(m, pos, force);
            o.rc == OK && o.calls != [] ==>
              o.m.f.hasBase && o.m.p.winLen == o.m.f.bufferSize &&
              o.m.p.winLen == (if o.m.p.winStart + m.f.fullBufferSize >= m.f.size
                               then m.f.size - o.m.p.winStart
                               else m.f.fullBufferSize) &&
              o.m.p.winStart + o.m.p.winLen <= m.f.size
  {
    var o := Remap(m, pos, force);
    var u := Unit(m.f);
    if o.rc == OK && o.calls != [] {
      BlockStart(pos, u);
      var start := (pos / u) * u;
      assert o == Rewindow(m, pos, start);
      assert o.m.p.winStart == start && o.m.p.winLen == MapSize(m.f, start);
    }
  }

  /** Whole windows tile a pool whose size is a multiple of the full width. */
  lemma WindowTilesPool(pos: nat, full: nat, size: nat)
    requires full > 0 && pos < size && size % full == 0
    ensures (pos / full) * full + full <= size
  {
    var k := size / full;
    assert size == k * full;
    var b := pos / full;
    BlockStart(pos, full);
    assert b < k;
    assert (b + 1) * full <= k * full;
  }

  /** Coarse strategy: when the pool is a whole number of windows, every
      window remap asks for lies inside the pool. */
  lemma CoarseWindowsInsidePool(m: Machine, pos: nat, force: bool)
    requires Configured(m.f) && m.f.option == REMAP_LESS
    requires m.f.size % m.f.fullBufferSize == 0
    ensures var o := Remap(m, pos, force);
            forall c | c in o.calls && c.MapCall? :: c.offset + c.len <= m.f.size
  {
    var u := Unit(m.f);
    if pos < m.f.size && (force || pos / u != m.f.position / u) {
      BlockStart(pos, u);
      WindowTilesPool(pos, u, m.f.size);
      assert Remap(m, pos, force) == Rewindow(m, pos, (pos / u) * u);
    }
  }

  /** Coarse strategy, two-block windows over a four-block pool, window mapped
      at offset 0: a seek to the window's last byte calls nothing; a seek to the
      next window unmaps the full width and maps [2 blocks, 4 blocks). */
  lemma CoarseSeekExample(m: Machine)
    requires Inv(m) && m.f.option == REMAP_LESS && m.f.ranges == 2
    requires m.f.size == 4 * BLKSZ && m.f.hasBase && m.f.position == 0
    requires m.p.refused == {}
    ensures Remap(m, 2 * BLKSZ - 1, false).rc == OK
    ensures Remap(m, 2 * BLKSZ - 1, false).calls == []
    ensures Remap(m, 2 * BLKSZ, false).rc == OK
    ensures Remap(m, 2 * BLKSZ, false).calls ==
              [UnmapCall(2 * BLKSZ), MapCall(2 * BLKSZ, 2 * BLKSZ)]
  {
    assert Remap(m, 2 * BLKSZ, false) == Rewindow(m, 2 * BLKSZ, 2 * BLKSZ);
  }

  /** Fine strategy, four-block windows over a ten-block pool: mapping the
      block at offset 8 blocks maps only the two blocks left. */
  lemma FineTailExample(m: Machine)
    requires Inv(m) && m.f.option == REMAP_MORE && m.f.ranges == 4
    requires m.f.size == 10 * BLKSZ && !m.f.hasBase
    requires m.p.refused == {} && m.p.poolAllocated && m.p.rangeAllocated
    requires m.p.rangeSize == m.f.fullBufferSize
    ensures Remap(m, 8 * BLKSZ, true).rc == OK
    ensures Remap(m, 8 * BLKSZ, true).calls == [MapCall(8 * BLKSZ, 2 * BLKSZ)]
    ensures Remap(m, 8 * BLKSZ, true).m.f.bufferSize == 2 * BLKSZ
  {
    assert Remap(m, 8 * BLKSZ, true) == Rewindow(m, 8 * BLKSZ, 8 * BLKSZ);
  }

  /** Fine strategy, two-block window mapped at offset 0: moving to the second
      block remaps although that block is already inside the mapped window. */
  lemma FineRemapsInsideWindow(m: Machine)
    requires Inv(m) && m.f.option == REMAP_MORE && m.f.ranges == 2
    requires m.f.hasBase && m.f.position < BLKSZ && m.f.size >= 2 * BLKSZ
    ensures m.p.winStart == 0 && BLKSZ < m.p.winStart + m.p.winLen
    ensures Remap(m, BLKSZ, false).calls != []
  {
    assert m.f.position / BLKSZ == 0;
  }

  /** At the last byte the advance that read and write make fails the range
      check, so nothing moves. */
  lemma AdvanceAtLastByte(m: Machine)
    requires Configured(m.f) && m.f.position + 1 == m.f.size
    ensures Remap(m, m.f.position + 1, false) == Outcome(OUT_OF_BOUND, m, [])
  {
  }

  /** While a window is mapped, bufferIndex() is the active pointer's offset,
      and base plus that offset is the logical position. */
  lemma BufferIndexIsPointer(m: Machine)
    requires Inv(m) && m.f.hasBase
    ensures BufferIndex(m.f) == m.f.ptr
    ensures m.p.winStart + BufferIndex(m.f) == m.f.position
  {
    PointerAddressesPosition(m);
  }

  /** The destructor's unmap releases `bufferSize` bytes, which under the
      invariant is exactly the mapped length in both strategies. */
  lemma DestructorUnmapsMappedSize(m: Machine)
    requires Inv(m) && m.f.hasBase
    ensures m.f.bufferSize == m.p.winLen
    ensures UnmapAccepts(m.p, m.f.bufferSize) <==> Unmap !in m.p.refused
  {
  }

  /** operator[] discards remap's status: after a failed remap the offset it
      returns still addresses the byte at the old position, or, after a map
      failure, no mapped byte at all. */
  lemma IndexAfterFailedRemap(m: Machine, pos: nat)
    requires Inv(m)
    ensures var o := Remap(m, pos, false);
            o.rc != OK ==>
              o.m.f.ptr == m.f.ptr && o.m.f.position == m.f.position &&
              (o.m.f.hasBase ==> o.m.p.winStart + o.m.f.ptr == m.f.position) &&
              (o.rc == ERR_MAP ==> !o.m.f.hasBase)
  {
    var o := Remap(m, pos, false);
    RemapFailures(m, pos, false);
    RemapPreservesInv(m, pos, false);
    if o.rc != OK && o.m.f.hasBase {
      PointerAddressesPosition(o.m);
    }
  }

  /** After a map failure the header's available() still reports a byte while
      no window is mapped, so read, peek and write would dereference a pointer
      into an unmapped window; and a seek back inside the old position's unit
      reports OK without mapping anything. */
  lemma MapFailureLeavesAvailable(m: Machine, pos: nat)
    requires Inv(m) && m.f.hasBase && m.f.size < SIZE_T_MOD && pos < m.f.size
    requires pos / Unit(m.f) != m.f.position / Unit(m.f)
    requires Unmap !in m.p.refused && Map in m.p.refused
    ensures var o := Remap(m, pos, false);
            o.rc == ERR_MAP && AvailableAsWritten(o.m.f) == 1 &&
            !o.m.f.hasBase && !o.m.p.mapped && !Readable(o.m.f)
    ensures var o := Remap(m, pos, false);
            var back := Remap(o.m, m.f.position, false);
            back.rc == OK && back.calls == [] && !back.m.f.hasBase
  {
    var u := Unit(m.f);
    BlockStart(pos, u);
    assert Remap(m, pos, false) == Rewindow(m, pos, (pos / u) * u);
    RemapFailures(m, pos, false);
  }

  /** begin clamps the range count to [1, 8] and sets the full width to that
      many blocks. An empty pool gives NOT_PRESENT before any allocation; a
      refused allocation gives ERR_ALLOC with the mapped size still the full
      width; otherwise begin first allocates the whole pool and a range of the
      full width, and fails with ERR_ALLOC exactly when the range is refused. */
  lemma BeginOutcomes(m: Machine, ranges: nat, option: bool)
    requires Inv(m) && !m.f.hasBase
    ensures var o := Begin(m, ranges, option);
            var r := Constrain(ranges, 1, 8);
            (ranges == 0 ==> r == 1) && (ranges > 8 ==> r == 8) &&
            o.m.f.fullBufferSize == BLKSZ * r && o.m.f.size == m.p.physSize
    ensures var o := Begin(m, ranges, option);
            m.p.physSize == 0 ==> o.rc == NOT_PRESENT && o.calls == [] && o.m.p == m.p
    ensures var o := Begin(m, ranges, option);
            o.rc == NOT_PRESENT || o.rc == ERR_ALLOC ==>
              !o.m.f.hasBase && o.m.f.bufferSize == o.m.f.fullBufferSize
    ensures var o := Begin(m, ranges, option);
            m.p.physSize > 0 && !AllocAccepts(m.p, m.p.physSize) ==>
              o.rc == ERR_ALLOC && o.calls == [AllocCall(m.p.physSize)]
    ensures var o := Begin(m, ranges, option);
            m.p.physSize > 0 && AllocAccepts(m.p, m.p.physSize) ==>
              |o.calls| >= 2 &&
              o.calls[..2] == [AllocCall(m.p.physSize), AllocMapRangeCall(o.m.f.fullBufferSize)] &&
              (o.rc == ERR_ALLOC <==> AllocMapRange in m.p.refused || m.p.rangeAllocated)
  {
    var o := Begin(m, ranges, option);
    if m.p.physSize > 0 && AllocAccepts(m.p, m.p.physSize) {
      assert o.calls[..2] == [AllocCall(m.p.physSize), AllocMapRangeCall(o.m.f.fullBufferSize)];
    }
  }

  /** begin preserves the invariant. */
  lemma BeginPreservesInv(m: Machine, ranges: nat, option: bool)
    requires Inv(m) && !m.f.hasBase
    ensures Inv(Begin(m, ranges, option).m)
  {
    var r := Constrain(ranges, 1, 8);
    var full := BLKSZ * r;
    var f1 := m.f.(ranges := r, fullBufferSize := full, bufferSize := full,
                   option := option, size := m.p.physSize);
    if m.p.physSize > 0 && AllocAccepts(m.p, m.p.physSize) {
      var p2 := m.p.(poolAllocated := true, rangeAllocated := true, rangeSize := full);
      if AllocMapRangeAccepts(m.p.(poolAllocated := true)) {
        assert Inv(Machine(f1, p2));
        RemapPreservesInv(Machine(f1, p2), m.f.position, true);
      }
    }
  }

  /** On a freshly constructed accessor and a platform that refuses nothing,
      begin succeeds exactly when the first window fits in the pool (always in
      the fine strategy, which cuts it short) and leaves the window mapped at
      offset 0 with the pointer on byte 0. */
  lemma BeginMapsFirstWindow(m: Machine, ranges: nat, option: bool)
    requires Inv(m) && !m.f.hasBase && m.f.position == 0
    requires m.p.physSize > 0 && m.p.refused == {}
    requires !m.p.poolAllocated && !m.p.rangeAllocated
    ensures var o := Begin(m, ranges, option);
            var full := BLKSZ * Constrain(ranges, 1, 8);
            (o.rc == OK <==> option == REMAP_MORE || full <= m.p.physSize) &&
            (o.rc == OK ==>
               o.m.f.hasBase && o.m.f.position == 0 && o.m.f.ptr == 0 && o.m.p.winStart == 0 &&
               o.m.p.winLen == (if full <= m.p.physSize then full else m.p.physSize))
  {
    var r := Constrain(ranges, 1, 8);
    var full := BLKSZ * r;
    var f1 := m.f.(ranges := r, fullBufferSize := full, bufferSize := full,
                   option := option, size := m.p.physSize);
    var p2 := m.p.(poolAllocated := true, rangeAllocated := true, rangeSize := full);
    var mm := Machine(f1, p2);
    assert Begin(m, ranges, option).rc == Remap(mm, 0, true).rc;
    assert Remap(mm, 0, true) == Rewindow(mm, 0, 0);
  }

  /** A sequence of seeks, each a remap without force; seeks never break the
      invariant. */
  function SeekAll(m: Machine, targets: seq<nat>): (r: Machine)
    requires Inv(m)
    ensures Inv(r) && r.f.size == m.f.size && r.f.option == m.f.option
    decreases |targets|
  {
    if targets == [] then m
    else
      RemapPreservesInv(m, targets[0], false);
      SeekAll(Remap(m, targets[0], false).m, targets[1..])
  }

  /** write stores a byte at an existing position; whenever a later sequence
      of seeks comes back to that position with a window mapped, peek returns
      that byte: the pointer stays in step with the position across seeks. */
  lemma PeekAfterSeeksReadsPosition(m: Machine, pool: seq<bv8>, b: bv8, targets: seq<nat>)
    requires Inv(m) && |pool| == m.p.physSize && m.f.position < m.f.size
    ensures var r := SeekAll(m, targets);
            r.f.position == m.f.position && r.f.hasBase ==>
              Peek(r, pool[m.f.position := b]) == b as int
  {
  }

  /** The results of `n` calls of read(), each returning peek() and, when a
      byte was readable, advancing with remap(position + 1) as written. */
  function ReadTimes(m: Machine, pool: seq<bv8>, n: nat): (cs: seq<int>)
    requires Inv(m) && |pool| == m.p.physSize
    ensures |cs| == n
    ensures n > 0 ==> cs[0] == Peek(m, pool)
    ensures forall i :: 0 <= i < n ==> -1 <= cs[i] < 256
    ensures !Readable(m.f) ==> forall i :: 0 <= i < n ==> cs[i] == -1
    decreases n
  {
    if n == 0 then []
    else
      var next := if Readable(m.f) then Remap(m, m.f.position + 1, false).m else m;
      RemapPreservesInv(m, m.f.position + 1, false);
      [Peek(m, pool)] + ReadTimes(next, pool, n - 1)
  }

  /** At the last byte the stream never ends: available() as written stays 1,
      and every one of any number of reads returns that same last byte,
      because the advance fails the range check and leaves the position. */
  lemma {:induction false} ReadAtLastByteRepeats(m: Machine, pool: seq<bv8>, n: nat)
    requires Inv(m) && |pool| == m.p.physSize && m.f.size < SIZE_T_MOD
    requires m.f.hasBase && m.f.position + 1 == m.f.size
    ensures AvailableAsWritten(m.f) == 1
    ensures forall i :: 0 <= i < n ==> ReadTimes(m, pool, n)[i] == pool[m.f.size - 1] as int
    decreases n
  {
    if n > 0 {
      assert Remap(m, m.f.position + 1, false).m == m;
      ReadAtLastByteRepeats(m, pool, n - 1);
      assert ReadTimes(m, pool, n) == [Peek(m, pool)] + ReadTimes(m, pool, n - 1);
    }
  }

  /** With the intended advance the stream ends after the last byte: a read
      there returns it, and the next read finds no byte. */
  lemma AdvanceEndsStream(m: Machine, pool: seq<bv8>)
    requires Inv(m) && |pool| == m.p.physSize
    requires m.f.hasBase && m.f.position + 1 == m.f.size
    ensures Peek(m, pool) == pool[m.f.size - 1] as int
    ensures Available(Advance(m).f) == 0 && !Readable(Advance(m).f)
  {
  }
}
