# virtio-over-PCI transport glue of the vioscsi StorPort miniport

This project models, in Dafny, the transport layer that the vioscsi driver
hands to its virtio ring engine (`vioscsi/virtio_pci.c`): the callbacks that
read and write device registers, carve DMA memory out of one contiguous page
extent, read the cached PCI configuration snapshot, report and lazily map PCI
BARs, and choose MSI-X vectors.

The adapter extension is an immutable record (`Adapter.AdapterExtension`):
the page extent (`pageAllocationVa`, `pageAllocationSize`, the bump cursor
`pageOffset`, and the bytes `pageMemory` starting at the extent base), the
configuration snapshot `pciConfigBuf`, the six-entry BAR table `pciBars`
(section 6.2.5 of the PCI Local Bus Specification 3.0), `msixEnabled` and
`systemIoBusNumber`. Every callback is a pure function that takes the record
and returns its result and, where the C code writes to the extension, the new
record. A null pointer is `None`, and every pointer the model hands out or
caches is a positive `Types.Ptr`, since address 0 is `NULL` in C.

Modules, one per file:

- `Types` (`types.dfy`): `Option`, `u8`/`u16`/`u32`, the `size_t` limit.
- `Adapter` (`adapter.dfy`): the adapter extension and BAR records.
- `RegisterAccess` (`register_access.dfy`): port-vs-memory dispatch of the
  six register accessors. Each returns the `Access` it would issue (space,
  width, address, read or write value) instead of performing it.
- `PageAlloc` (`page_alloc.dfy`): the contiguous page bump allocator, the
  no-op frees, and successive allocations.
- `PciConfig` (`pci_config.dfy`): byte, word and dword reads of the snapshot,
  with a little-endian codec and its round-trip lemmas.
- `BarMap` (`bar_map.dfy`): BAR lengths and the lazily filled mapping cache.
  `StorPortGetDeviceBase` is a function parameter that may return `None`, and
  the host request that a call makes is part of its result.
- `Msix` (`msix.dfy`): the MSI-X vector choice.

Two consequences of the code are worth stating up front:

- The capacity check at `vioscsi/virtio_pci.c:95` uses the unrounded size,
  while the cursor advances by the page-rounded size. With an extent that is
  not a whole number of pages, or with an unaligned cursor, a successful
  allocation can therefore leave `pageOffset > pageAllocationSize`
  (`PageAlloc.OvershootWhenSizeNotPageMultiple`,
  `PageAlloc.OvershootWhenOffsetUnaligned`). The cursor is
  guaranteed to stay inside the extent under `PageAlloc.AllocInvariant`.
- A null answer from `StorPortGetDeviceBase` is not cached, so a failed
  mapping is asked for again on the next call (`BarMap.FailedMappingIsRetried`).
  Once a base is non-null it never changes (`BarMap.MapIsCached`,
  `BarMap.MappingsPersist`).

## Model

| member | source | states |
|---|---|---|
| RegisterAccess.MemorySpaceIffAbovePortRange | vioscsi/virtio_pci.c:30-38 | the `addr & ~PORT_MASK` test holds exactly when the address is above 0xFFFF |
| RegisterAccess.ReadVirtIODeviceRegister | vioscsi/virtio_pci.c:36-43 | a dword read of the given address, in memory space iff the address is above 0xFFFF, otherwise in port space |
| RegisterAccess.WriteVirtIODeviceRegister | vioscsi/virtio_pci.c:45-52 | a dword write of the given value to the given address, in memory space iff the address is above 0xFFFF |
| RegisterAccess.ReadVirtIODeviceByte | vioscsi/virtio_pci.c:54-61 | a byte read of the given address, in memory space iff the address is above 0xFFFF |
| RegisterAccess.WriteVirtIODeviceByte | vioscsi/virtio_pci.c:63-70 | a byte write of the given value to the given address, in memory space iff the address is above 0xFFFF |
| RegisterAccess.ReadVirtIODeviceWord | vioscsi/virtio_pci.c:72-79 | a word read of the given address, in memory space iff the address is above 0xFFFF |
| RegisterAccess.WriteVirtIODeviceWord | vioscsi/virtio_pci.c:81-88 | a word write of the given value to the given address, in memory space iff the address is above 0xFFFF |
| RegisterAccess.SpaceIndependentOfWidth | vioscsi/virtio_pci.c:36-88 | all six accessors choose the same space for the same address |
| PageAlloc.RoundToPages | vioscsi/virtio_pci.c:96 | the rounded size is a page multiple, at least the request and less than one page more |
| PageAlloc.RoundToPagesIsLeast | vioscsi/virtio_pci.c:96 | no page multiple that covers the request is smaller than the rounded size |
| PageAlloc.MemAllocContiguousPages | vioscsi/virtio_pci.c:90-104 | succeeds iff cursor + unrounded size fits the extent; on failure returns null and changes nothing; on success returns base + old cursor, advances the cursor by the rounded size, zeroes exactly the rounded block and leaves every other byte and field as it was |
| PageAlloc.MemFreeContiguousPages | vioscsi/virtio_pci.c:106-114 | freeing pages leaves the adapter unchanged |
| PageAlloc.MemFreeNonpagedBlock | vioscsi/virtio_pci.c:128-133 | freeing a non-paged block leaves the adapter unchanged |
| PageAlloc.RoundedFitsWhenAligned | vioscsi/virtio_pci.c:95-97 | with a page-multiple extent and an aligned cursor, passing the unrounded check implies the rounded block fits |
| PageAlloc.InvariantGivesZeroFillFits | vioscsi/virtio_pci.c:95-98 | under the alignment invariant the zero fill never leaves the extent |
| PageAlloc.AllocPreservesInvariant | vioscsi/virtio_pci.c:95-97 | allocation keeps the cursor page-aligned and at most the extent size when the extent is a page multiple |
| PageAlloc.OvershootWhenSizeNotPageMultiple | vioscsi/virtio_pci.c:95-97 | with an extent one page plus 100 bytes, a 100-byte request succeeds, zeroes past the extent and moves the cursor past its end |
| PageAlloc.OvershootWhenOffsetUnaligned | vioscsi/virtio_pci.c:95-97 | with a cursor at 100 in a two-page extent, a request that exactly fills the room succeeds and moves the cursor past the end |
| PageAlloc.ZeroSizeAllocation | vioscsi/virtio_pci.c:95-99 | when the cursor is within the extent, a zero-byte request succeeds, returns base + cursor and changes nothing |
| PageAlloc.FreeDoesNotReclaim | vioscsi/virtio_pci.c:93-114 | after freeing a block, the next successful allocation starts at or after the end of that block |
| PageAlloc.AllocSequence | vioscsi/virtio_pci.c:90-104 | successive allocations keep the alignment invariant and never move the cursor backwards |
| PageAlloc.AllocSequenceDisjoint | vioscsi/virtio_pci.c:93-97 | successful blocks of successive allocations are page-aligned relative to the extent base, inside the extent, pairwise disjoint and in increasing order |
| PageAlloc.ThreePageScenario | vioscsi/virtio_pci.c:95-97 | in a three-page extent three 4000-byte requests get the three pages and a fourth non-empty request fails |
| PciConfig.DecodeEncode | vioscsi/virtio_pci.c:142-154 | decoding the n-byte little-endian encoding of a value below 256^n gives the value back |
| PciConfig.EncodeDecode | vioscsi/virtio_pci.c:142-154 | encoding the decoded value of a byte string at its width gives the bytes back |
| PciConfig.LittleEndianBound | vioscsi/virtio_pci.c:142-154 | an n-byte little-endian value is below 256^n |
| PciConfig.LittleEndianAppend | vioscsi/virtio_pci.c:149-154 | the value of two adjacent little-endian fields is the low one plus the high one shifted by the low one's width |
| PciConfig.PciReadConfigByte | vioscsi/virtio_pci.c:135-140 | status 0 and the byte at the offset |
| PciConfig.PciReadConfigWord | vioscsi/virtio_pci.c:142-147 | status 0 and the little-endian value of the two bytes at the offset, whose encoding is those bytes |
| PciConfig.PciReadConfigDword | vioscsi/virtio_pci.c:149-154 | status 0 and the little-endian value of the four bytes at the offset, whose encoding is those bytes |
| PciConfig.DwordIsTwoWords | vioscsi/virtio_pci.c:142-154 | a dword read equals the word at the offset plus 65536 times the word two bytes on |
| PciConfig.ReadWordOfEncoded | vioscsi/virtio_pci.c:142-147 | a snapshot holding the encoding of a 16-bit value reads back as that value |
| PciConfig.ReadDwordOfEncoded | vioscsi/virtio_pci.c:149-154 | a snapshot holding the encoding of a 32-bit value reads back as that value |
| PciConfig.WordScenario | vioscsi/virtio_pci.c:142-147 | bytes 0x34, 0x12 at 0x2E, 0x2F read as the word 0x1234 |
| BarMap.PciGetResourceLen | vioscsi/virtio_pci.c:156-163 | the BAR's length for an index below 6, and 0 for any larger index |
| BarMap.PciMapAddressRange | vioscsi/virtio_pci.c:165-184 | null and no change for an index of 6 or more; a host request with the bus, base, length and port flag exactly when the cached base is null; a non-null base is never replaced; only that BAR's base may change; returns base + offset iff the base is non-null and the offset is below the length |
| BarMap.PciUnmapAddressRange | vioscsi/virtio_pci.c:186-193 | unmapping leaves the adapter unchanged |
| BarMap.MappingsPersist | vioscsi/virtio_pci.c:169-178 | a BAR that already has a mapping is untouched by any mapping call |
| BarMap.MappingKeepsLengths | vioscsi/virtio_pci.c:156-184 | mapping never changes the length any BAR reports |
| BarMap.MapIsCached | vioscsi/virtio_pci.c:170-181 | once a base is cached, a repeated call makes no host request, returns the same pointer and changes nothing |
| BarMap.FailedMappingIsRetried | vioscsi/virtio_pci.c:170-183 | a null host answer is not cached: no pointer, no state change, and the next call asks the host again |
| BarMap.MaxlenIgnored | vioscsi/virtio_pci.c:165-184 | the result does not depend on `maxlen` |
| BarMap.MapScenario | vioscsi/virtio_pci.c:165-184 | mapping offset 0x500 of an unmapped 0x1000-byte BAR 0 asks the host once and returns base + 0x500 both times |
| Msix.VdevGetMsixVector | vioscsi/virtio_pci.c:195-213 | (queue + 1) mod 65536 for a queue with MSI-X on; the no-vector sentinel 0xFFFF for a queue with MSI-X off and for the configuration-change channel |
| Msix.QueueVectorsDistinct | vioscsi/virtio_pci.c:200-203 | with MSI-X on, queues below 0xFFFE get vectors that are neither 0 nor the sentinel, and distinct queues get distinct vectors |
| Msix.VectorWraps | vioscsi/virtio_pci.c:198-203 | the 16-bit store maps queue 0xFFFE to the sentinel and queue 0xFFFF to vector 0 |
| Msix.ConfigChangeHasNoVector | vioscsi/virtio_pci.c:207-210 | the configuration-change channel gets the sentinel whatever the MSI-X state |

## Left out

- The StorPort register primitives (`StorPortRead/Write{Register,Port}*`): foreign hardware I/O. The accessors return the access they would issue; no register values are modelled.
- `StorPortGetDeviceBase`: host-owned. It is an arbitrary function parameter that may return null.
- `mem_get_physical_address`: a direct query of `StorPortGetPhysicalAddress` with no local logic.
- `mem_alloc_nonpaged_block`: it delegates to `VioScsiPoolAlloc`, which is not part of this model.
- `vdev_sleep`: a busy wait of `1000 * msecs` microseconds, with no state to model.
- The `VioScsiSystemOps` function-pointer table: wiring only. The trace message on allocation failure is left out too.
- Register addresses are 64-bit (`ULONG_PTR` on x64). A 32-bit build is not modelled separately; the dispatch rule is the same there.
- Multi-byte configuration reads assume a little-endian host. The unaligned `*(u16*)`/`*(u32*)` accesses are modelled as byte composition.
- `PageAlloc.RoundToPages` is the arithmetic form of `ROUND_TO_PAGES` with a 4096-byte page. The bit-mask form is not proved equal to it.
- Pointer arithmetic (`pageAllocationVa + pageOffset`, `pBase + offset`) is on unbounded naturals, with no address wrap-around.
- MemAllocContiguousPages: requires that `pageOffset + size` plus one page is at most 2^64, so the `size_t` wrap-around of the capacity check is not modelled.
- MemAllocContiguousPages: requires the zeroed block to lie inside `pageMemory`, the bytes tracked from the extent base. A zero fill past the extent but inside `pageMemory` is modelled (the two `Overshoot…` lemmas); a fill past `pageMemory` is not.
- MemAllocContiguousPages: the extent base `pageAllocationVa` is a positive `Ptr`. A null extent base, for which the source would return `NULL` on a successful check at offset 0, is not modelled.
- PciMapAddressRange: the host's answer is an `Option<Ptr>`, so a zero base counts as `None`. The source likewise treats a zero `pBase` as null and asks the host again.
- PciReadConfigByte: requires the offset to lie inside the snapshot. The source does not check, and an out-of-range read is undefined behaviour in C.
- PciReadConfigWord: requires the two bytes to lie inside the snapshot, for the same reason.
- PciReadConfigDword: requires the four bytes to lie inside the snapshot, for the same reason.
- PciGetResourceLen: requires `bar >= 0`. The source checks only `bar < PCI_TYPE0_ADDRESSES`, so a negative index reads before the BAR array (undefined behaviour in C).
- PciMapAddressRange: requires `bar >= 0` for the same reason. It also requires a six-entry BAR table, which the C array guarantees.
- VdevGetMsixVector: takes the queue as an unbounded integer. The signed overflow of `queue + 1` at `INT_MAX` is not modelled.
