/** Register access dispatch: the low 64 KiB of the address space is never
    memory-mapped, so an address with a bit set above bit 15 names a
    memory-mapped register and any other address names an I/O port. The
    StorPort read/write primitives themselves are not modelled; each accessor
    returns the access it would issue. */
module RegisterAccess {
  import opened Types

  const PORT_MASK: bv64 := 0xFFFF

  datatype Space = PortSpace | MemorySpace
  datatype Width = ByteWidth | WordWidth | DwordWidth
  datatype Direction = Read | Write(value: nat)

  /** The single register access an accessor hands to StorPort. */
  datatype Access = Access(space: Space, width: Width, register: bv64, direction: Direction)

  /** The source's test `ulRegister & ~PORT_MASK`. */
  predicate UsesMemorySpace(ulRegister: bv64)
  {
    ulRegister & !PORT_MASK != 0
  }

  /** The mask test is the same as "the address lies above the port range". */
  lemma MemorySpaceIffAbovePortRange(ulRegister: bv64)
    ensures UsesMemorySpace(ulRegister) <==> ulRegister as int > 0xFFFF
  {
    assert UsesMemorySpace(ulRegister) <==> ulRegister > 0xFFFF;
  }

  function Dispatch(ulRegister: bv64, width: Width, direction: Direction): (a: Access)
    ensures a.space == MemorySpace <==> ulRegister as int > 0xFFFF
    ensures a.width == width && a.register == ulRegister && a.direction == direction
  {
    MemorySpaceIffAbovePortRange(ulRegister);
    Access(if UsesMemorySpace(ulRegister) then MemorySpace else PortSpace, width, ulRegister, direction)
  }

  function ReadVirtIODeviceRegister(ulRegister: bv64): (a: Access)
    ensures a.space == MemorySpace <==> ulRegister as int > 0xFFFF
    ensures a == Access(a.space, DwordWidth, ulRegister, Read)
  {
    Dispatch(ulRegister, DwordWidth, Read)
  }

  function WriteVirtIODeviceRegister(ulRegister: bv64, ulValue: u32): (a: Access)
    ensures a.space == MemorySpace <==> ulRegister as int > 0xFFFF
    ensures a == Access(a.space, DwordWidth, ulRegister, Write(ulValue))
  {
    Dispatch(ulRegister, DwordWidth, Write(ulValue))
  }

  function ReadVirtIODeviceByte(ulRegister: bv64): (a: Access)
    ensures a.space == MemorySpace <==> ulRegister as int > 0xFFFF
    ensures a == Access(a.space, ByteWidth, ulRegister, Read)
  {
    Dispatch(ulRegister, ByteWidth, Read)
  }

  function WriteVirtIODeviceByte(ulRegister: bv64, bValue: u8): (a: Access)
    ensures a.space == MemorySpace <==> ulRegister as int > 0xFFFF
    ensures a == Access(a.space, ByteWidth, ulRegister, Write(bValue))
  {
    Dispatch(ulRegister, ByteWidth, Write(bValue))
  }

  function ReadVirtIODeviceWord(ulRegister: bv64): (a: Access)
    ensures a.space == MemorySpace <==> ulRegister as int > 0xFFFF
    ensures a == Access(a.space, WordWidth, ulRegister, Read)
  {
    Dispatch(ulRegister, WordWidth, Read)
  }

  function WriteVirtIODeviceWord(ulRegister: bv64, wValue: u16): (a: Access)
    ensures a.space == MemorySpace <==> ulRegister as int > 0xFFFF
    ensures a == Access(a.space, WordWidth, ulRegister, Write(wValue))
  {
    Dispatch(ulRegister, WordWidth, Write(wValue))
  }

  /** Byte, word and dword accesses, reads and writes, all pick the same space
      for the same address. */
  lemma SpaceIndependentOfWidth(ulRegister: bv64, b: u8, w: u16, d: u32)
    ensures var s := ReadVirtIODeviceByte(ulRegister).space;
            && WriteVirtIODeviceByte(ulRegister, b).space == s
            && ReadVirtIODeviceWord(ulRegister).space == s
            && WriteVirtIODeviceWord(ulRegister, w).space == s
            && ReadVirtIODeviceRegister(ulRegister).space == s
            && WriteVirtIODeviceRegister(ulRegister, d).space == s
  {
  }
}
