/** The contiguous DMA page allocator: a bump cursor `pageOffset` over one
    pre-reserved extent of `pageAllocationSize` bytes. Freeing is a no-op. */
module PageAlloc {
  import opened Types
  import opened Adapter

  const PAGE_SIZE: nat := 4096

  /** `ROUND_TO_PAGES`: the smallest multiple of the page size that is at least
      `size`. */
  function RoundToPages(size: nat): (r: nat)
    ensures r % PAGE_SIZE == 0
    ensures size <= r < size + PAGE_SIZE
  {
    var q := (size + PAGE_SIZE - 1) / PAGE_SIZE;
    assert q * PAGE_SIZE <= size + PAGE_SIZE - 1 < q * PAGE_SIZE + PAGE_SIZE;
    q * PAGE_SIZE
  }

  /** No page multiple lies between `size` and its rounding. */
  lemma RoundToPagesIsLeast(size: nat, m: nat)
    requires m % PAGE_SIZE == 0 && size <= m
    ensures RoundToPages(size) <= m
  {
    var r := RoundToPages(size);
    var qr, qm := r / PAGE_SIZE, m / PAGE_SIZE;
    assert r == qr * PAGE_SIZE && m == qm * PAGE_SIZE;
    assert (qr - qm) * PAGE_SIZE < PAGE_SIZE;
  }

  /** `RtlZeroMemory(ptr, len)` on the memory that starts at the extent base. */
  function ZeroRange(mem: seq<u8>, start: nat, len: nat): (r: seq<u8>)
    requires start + len <= |mem|
    ensures |r| == |mem|
    ensures forall i | 0 <= i < |mem| :: r[i] == if start <= i < start + len then 0 else mem[i]
  {
    mem[..start] + seq(len, _ => 0) + mem[start + len..]
  }

  datatype AllocResult = AllocResult(ptr: Option<Ptr>, adapter: AdapterExtension)

  /** `pageOffset + size` and its page rounding stay within `size_t`. */
  predicate NoOverflow(s: AdapterExtension, size: nat)
  {
    s.pageOffset + size + PAGE_SIZE <= SIZE_T_LIMIT
  }

  /** When the capacity check passes, the page-rounded block that is zeroed
      lies inside the memory the model tracks. */
  predicate ZeroFillFits(s: AdapterExtension, size: nat)
  {
    s.pageOffset + size <= s.pageAllocationSize ==> s.pageOffset + RoundToPages(size) <= |s.pageMemory|
  }

  /** `mem_alloc_contiguous_pages`. The capacity check uses the unrounded
      `size`; the cursor advances by the rounded size. */
  function MemAllocContiguousPages(s: AdapterExtension, size: nat): (r: AllocResult)
    requires NoOverflow(s, size)
    requires ZeroFillFits(s, size)
    ensures r.ptr.Some? <==> s.pageOffset + size <= s.pageAllocationSize
    ensures r.ptr.None? ==> r.adapter == s
    ensures r.ptr.Some? ==>
      && r.ptr.value == s.pageAllocationVa + s.pageOffset
      && r.adapter.pageOffset == s.pageOffset + RoundToPages(size)
      && r.adapter == s.(pageOffset := r.adapter.pageOffset, pageMemory := r.adapter.pageMemory)
      && |r.adapter.pageMemory| == |s.pageMemory|
      && (forall i | s.pageOffset <= i < s.pageOffset + RoundToPages(size) :: r.adapter.pageMemory[i] == 0)
      && (forall i | 0 <= i < |s.pageMemory| && !(s.pageOffset <= i < s.pageOffset + RoundToPages(size)) ::
            r.adapter.pageMemory[i] == s.pageMemory[i])
    ensures s.pageOffset <= r.adapter.pageOffset
  {
    var ptr := s.pageAllocationVa + s.pageOffset;
    if s.pageOffset + size <= s.pageAllocationSize then
      var rounded := RoundToPages(size);
      AllocResult(Some(ptr), s.(pageOffset := s.pageOffset + rounded,
                                pageMemory := ZeroRange(s.pageMemory, s.pageOffset, rounded)))
    else
      AllocResult(None, s)
  }

  /** `mem_free_contiguous_pages`: blocks are never reclaimed individually. */
  function MemFreeContiguousPages(s: AdapterExtension, virt: nat): (r: AdapterExtension)
    ensures r == s
  {
    s
  }

  /** `mem_free_nonpaged_block`: the non-paged pool is also a bump arena that
      is released as a whole, so nothing changes here. */
  function MemFreeNonpagedBlock(s: AdapterExtension, addr: nat): (r: AdapterExtension)
    ensures r == s
  {
    s
  }

  /** The conditions under which the cursor stays inside the extent: the extent
      is a whole number of pages, the cursor is page-aligned and within it, and
      the tracked memory covers the extent. */
  predicate AllocInvariant(s: AdapterExtension)
  {
    && s.pageAllocationSize % PAGE_SIZE == 0
    && s.pageOffset % PAGE_SIZE == 0
    && s.pageOffset <= s.pageAllocationSize
    && s.pageAllocationSize <= |s.pageMemory|
  }

  /** Under the invariant, a request that passes the unrounded check also fits
      once rounded. */
  lemma RoundedFitsWhenAligned(s: AdapterExtension, size: nat)
    requires AllocInvariant(s)
    requires s.pageOffset + size <= s.pageAllocationSize
    ensures s.pageOffset + RoundToPages(size) <= s.pageAllocationSize
  {
    var room := s.pageAllocationSize - s.pageOffset;
    var qa, qo := s.pageAllocationSize / PAGE_SIZE, s.pageOffset / PAGE_SIZE;
    assert room == (qa - qo) * PAGE_SIZE;
    RoundToPagesIsLeast(size, room);
  }

  /** Under the invariant the zero fill stays inside the extent. */
  lemma InvariantGivesZeroFillFits(s: AdapterExtension, size: nat)
    requires AllocInvariant(s)
    ensures ZeroFillFits(s, size)
    ensures s.pageOffset + size <= s.pageAllocationSize ==> s.pageOffset + RoundToPages(size) <= s.pageAllocationSize
  {
    if s.pageOffset + size <= s.pageAllocationSize {
      RoundedFitsWhenAligned(s, size);
    }
  }

  /** Allocation preserves the invariant, so the cursor never passes the end
      of the extent and stays page-aligned. */
  lemma AllocPreservesInvariant(s: AdapterExtension, size: nat)
    requires AllocInvariant(s)
    requires NoOverflow(s, size)
    ensures ZeroFillFits(s, size)
    ensures AllocInvariant(MemAllocContiguousPages(s, size).adapter)
  {
    InvariantGivesZeroFillFits(s, size);
    if s.pageOffset + size <= s.pageAllocationSize {
      RoundedFitsWhenAligned(s, size);
      var r := MemAllocContiguousPages(s, size).adapter;
      var qo, qr := s.pageOffset / PAGE_SIZE, RoundToPages(size) / PAGE_SIZE;
      assert r.pageOffset == (qo + qr) * PAGE_SIZE;
    }
  }

  /** An extent whose size is not a page multiple: a request that passes the
      unrounded check moves the cursor past the end of the extent. */
  lemma OvershootWhenSizeNotPageMultiple()
    ensures var s := AdapterExtension(0x10000, PAGE_SIZE + 100, PAGE_SIZE, seq(2 * PAGE_SIZE, _ => 0xAA), [], [], false, 0);
            var r := MemAllocContiguousPages(s, 100);
            && r.ptr == Some(0x10000 + PAGE_SIZE)
            && r.adapter.pageOffset == 2 * PAGE_SIZE
            && r.adapter.pageOffset > r.adapter.pageAllocationSize
            && r.adapter.pageMemory[PAGE_SIZE + 100] == 0
  {
  }

  /** A cursor that is not page-aligned: the rounded block runs past the end of
      a page-multiple extent. */
  lemma OvershootWhenOffsetUnaligned()
    ensures var s := AdapterExtension(0x10000, 2 * PAGE_SIZE, 100, seq(3 * PAGE_SIZE, _ => 0xAA), [], [], false, 0);
            var r := MemAllocContiguousPages(s, 2 * PAGE_SIZE - 100);
            && r.ptr == Some(0x10000 + 100)
            && r.adapter.pageOffset == 2 * PAGE_SIZE + 100
            && r.adapter.pageOffset > r.adapter.pageAllocationSize
  {
    assert RoundToPages(2 * PAGE_SIZE - 100) == 2 * PAGE_SIZE;
  }

  /** A zero-byte request always succeeds when the cursor is within the extent,
      and leaves cursor and memory as they were. */
  lemma ZeroSizeAllocation(s: AdapterExtension)
    requires s.pageOffset <= s.pageAllocationSize && s.pageOffset <= |s.pageMemory|
    requires NoOverflow(s, 0)
    ensures MemAllocContiguousPages(s, 0) == AllocResult(Some(s.pageAllocationVa + s.pageOffset), s)
  {
    var r := MemAllocContiguousPages(s, 0).adapter;
    assert r.pageMemory == s.pageMemory;
  }

  /** Freeing does not make the freed block available again: the next
      allocation starts at or after the end of the freed block. */
  lemma FreeDoesNotReclaim(s: AdapterExtension, size: nat, next: nat)
    requires NoOverflow(s, size) && ZeroFillFits(s, size)
    requires MemAllocContiguousPages(s, size).ptr.Some?
    ensures var r := MemAllocContiguousPages(s, size);
            var t := MemFreeContiguousPages(r.adapter, r.ptr.value);
            t.pageOffset == s.pageOffset + RoundToPages(size)
            && (NoOverflow(t, next) && ZeroFillFits(t, next) && MemAllocContiguousPages(t, next).ptr.Some? ==>
                MemAllocContiguousPages(t, next).ptr.value >= r.ptr.value + RoundToPages(size))
  {
  }

  /** The outcome of a sequence of allocation requests. */
  datatype AllocTrace = AllocTrace(ptrs: seq<Option<Ptr>>, final: AdapterExtension)

  /** Every request in `sizes` is small enough that no sum overflows `size_t`
      while the cursor stays within the extent. */
  predicate SizesFit(s: AdapterExtension, sizes: seq<nat>)
  {
    forall i | 0 <= i < |sizes| :: s.pageAllocationSize + sizes[i] + PAGE_SIZE <= SIZE_T_LIMIT
  }

  /** Successive calls of `mem_alloc_contiguous_pages` on one adapter. */
  function AllocSequence(s: AdapterExtension, sizes: seq<nat>): (r: AllocTrace)
    requires AllocInvariant(s)
    requires SizesFit(s, sizes)
    ensures |r.ptrs| == |sizes|
    ensures AllocInvariant(r.final)
    ensures s.pageOffset <= r.final.pageOffset
    ensures r.final.pageAllocationVa == s.pageAllocationVa
    ensures r.final.pageAllocationSize == s.pageAllocationSize
    decreases |sizes|
  {
    if |sizes| == 0 then
      AllocTrace([], s)
    else
      AllocPreservesInvariant(s, sizes[0]);
      var first := MemAllocContiguousPages(s, sizes[0]);
      var rest := AllocSequence(first.adapter, sizes[1..]);
      AllocTrace([first.ptr] + rest.ptrs, rest.final)
  }

  /** A successful allocation in a sequence hands out a page-aligned block
      (relative to the extent base) between the starting cursor and the final
      cursor. */
  ghost predicate BlockWithin(s: AdapterExtension, t: AllocTrace, sizes: seq<nat>, i: int)
    requires 0 <= i < |sizes| == |t.ptrs|
  {
    t.ptrs[i].Some? ==>
      && s.pageAllocationVa + s.pageOffset <= t.ptrs[i].value
      && t.ptrs[i].value + RoundToPages(sizes[i]) <= s.pageAllocationVa + t.final.pageOffset
      && (t.ptrs[i].value - s.pageAllocationVa) % PAGE_SIZE == 0
  }

  /** Successive successful allocations return page-aligned, pairwise disjoint
      blocks inside the extent, in increasing address order. */
  lemma {:induction false} AllocSequenceDisjoint(s: AdapterExtension, sizes: seq<nat>)
    requires AllocInvariant(s)
    requires SizesFit(s, sizes)
    ensures var t := AllocSequence(s, sizes);
            && (forall i | 0 <= i < |sizes| :: BlockWithin(s, t, sizes, i))
            && (forall i, j | 0 <= i < j < |sizes| && t.ptrs[i].Some? && t.ptrs[j].Some? ::
                  t.ptrs[i].value + RoundToPages(sizes[i]) <= t.ptrs[j].value)
            && t.final.pageOffset <= s.pageAllocationSize
    decreases |sizes|
  {
    var t := AllocSequence(s, sizes);
    if |sizes| > 0 {
      AllocPreservesInvariant(s, sizes[0]);
      var first := MemAllocContiguousPages(s, sizes[0]);
      var s1 := first.adapter;
      var rest := AllocSequence(s1, sizes[1..]);
      assert SizesFit(s1, sizes[1..]) by {
        forall k | 0 <= k < |sizes[1..]| ensures s1.pageAllocationSize + sizes[1..][k] + PAGE_SIZE <= SIZE_T_LIMIT {
          assert sizes[1..][k] == sizes[k + 1];
        }
      }
      AllocSequenceDisjoint(s1, sizes[1..]);
      assert t.ptrs == [first.ptr] + rest.ptrs;
      assert t.final == rest.final;
      forall i | 0 <= i < |sizes| ensures BlockWithin(s, t, sizes, i) {
        if i > 0 {
          assert t.ptrs[i] == rest.ptrs[i - 1];
          assert sizes[i] == sizes[1..][i - 1];
          assert BlockWithin(s1, rest, sizes[1..], i - 1);
          if t.ptrs[i].Some? {
            var d1 := s1.pageOffset / PAGE_SIZE;
            var d2 := (rest.ptrs[i - 1].value - s1.pageAllocationVa) / PAGE_SIZE;
            assert t.ptrs[i].value - s.pageAllocationVa == d2 * PAGE_SIZE;
          }
        } else if first.ptr.Some? {
          assert s1.pageOffset <= rest.final.pageOffset;
        }
      }
      forall i, j | 0 <= i < j < |sizes| && t.ptrs[i].Some? && t.ptrs[j].Some?
        ensures t.ptrs[i].value + RoundToPages(sizes[i]) <= t.ptrs[j].value
      {
        assert t.ptrs[j] == rest.ptrs[j - 1];
        assert sizes[j] == sizes[1..][j - 1];
        assert BlockWithin(s1, rest, sizes[1..], j - 1);
        if i > 0 {
          assert t.ptrs[i] == rest.ptrs[i - 1];
          assert sizes[i] == sizes[1..][i - 1];
        }
      }
    }
  }

  /** Three pages, three requests of 4000 bytes: all three succeed and the
      cursor lands exactly on the end; a fourth non-empty request fails. */
  lemma ThreePageScenario(va: Ptr, mem: seq<u8>, extra: nat)
    requires |mem| == 3 * PAGE_SIZE && 0 < extra && 4 * PAGE_SIZE + extra <= SIZE_T_LIMIT
    ensures var s := AdapterExtension(va, 3 * PAGE_SIZE, 0, mem, [], [], false, 0);
            var t := AllocSequence(s, [4000, 4000, 4000, extra]);
            && t.ptrs == [Some(va), Some(va + PAGE_SIZE), Some(va + 2 * PAGE_SIZE), None]
            && t.final.pageOffset == 3 * PAGE_SIZE
  {
    var s := AdapterExtension(va, 3 * PAGE_SIZE, 0, mem, [], [], false, 0);
    assert RoundToPages(4000) == PAGE_SIZE;
    var sizes: seq<nat> := [4000, 4000, 4000, extra];
    var r1 := MemAllocContiguousPages(s, 4000);
    var r2 := MemAllocContiguousPages(r1.adapter, 4000);
    var r3 := MemAllocContiguousPages(r2.adapter, 4000);
    var r4 := MemAllocContiguousPages(r3.adapter, extra);
    assert AllocSequence(r3.adapter, sizes[3..]) == AllocTrace([None], r3.adapter) by {
      assert sizes[3..][1..] == [];
    }
    assert AllocSequence(r2.adapter, sizes[2..]).ptrs == [Some(va + 2 * PAGE_SIZE), None] by {
      assert sizes[2..][1..] == sizes[3..];
    }
    assert AllocSequence(r1.adapter, sizes[1..]).ptrs == [Some(va + PAGE_SIZE), Some(va + 2 * PAGE_SIZE), None] by {
      assert sizes[1..][1..] == sizes[2..];
    }
  }
}
