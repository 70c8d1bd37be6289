/** Machine-level types shared by the transport model: fixed-width unsigned
    integers as bounded subsets of `int`, and `Option` for nullable pointers. */
module Types {

  /** A nullable value: `None` stands for a C `NULL` pointer. */
  datatype Option<+T> = None | Some(value: T)

  type u8 = x: int | 0 <= x < 0x100
  type u16 = x: int | 0 <= x < 0x1_0000
  type u32 = x: int | 0 <= x < 0x1_0000_0000

  /** A non-null virtual address: address 0 is the C `NULL` pointer, so a
      valid pointer is positive. */
  type Ptr = x: nat | x > 0 witness 1

  /** One more than the largest `size_t` / `ULONG_PTR` value on a 64-bit build. */
  const SIZE_T_LIMIT: int := 0x1_0000_0000_0000_0000
}
