/** The part of the StorPort adapter extension that the virtio PCI glue layer
    reads and writes: the contiguous page extent and its bump cursor, the
    snapshot of PCI configuration space, the BAR table, and the MSI-X flag. */
module Adapter {
  import opened Types

  /** Number of base address registers in a type-0 PCI header
      (section 6.2.5 of the PCI Local Bus Specification 3.0). */
  const PCI_TYPE0_ADDRESSES: nat := 6

  /** One BAR: its bus-physical base, its length, whether it decodes I/O
      (port) space, and the lazily obtained virtual mapping (`None` until the
      host has returned a non-null base for it). */
  datatype Bar = Bar(basePA: nat, uLength: nat, bPortSpace: bool, pBase: Option<Ptr>)

  /** `pageMemory` holds the bytes that start at `pageAllocationVa`; the
      extent proper is its first `pageAllocationSize` bytes. */
  datatype AdapterExtension = AdapterExtension(
    pageAllocationVa: Ptr,
    pageAllocationSize: nat,
    pageOffset: nat,
    pageMemory: seq<u8>,
    pciConfigBuf: seq<u8>,
    pciBars: seq<Bar>,
    msixEnabled: bool,
    systemIoBusNumber: nat)
  {
    /** The BAR table is a fixed array of one entry per type-0 BAR. */
    predicate Valid()
    {
      |pciBars| == PCI_TYPE0_ADDRESSES
    }
  }
}
