/** Small vocabulary shared by the other modules: an optional value (a pointer
    that may be null) and the C++ 32-bit unsigned integer with its cast. */
module Common {

  datatype Option<T> = None | Some(value: T)

  /** The values of a `uint32_t` field. */
  type uint32 = x: int | 0 <= x < 0x1_0000_0000

  const MaxUint32: uint32 := 0xFFFF_FFFF

  /** A C++ conversion of a non-negative integer to `uint32_t`: it keeps the
      low 32 bits. */
  function U32(x: nat): (r: uint32)
    ensures x < 0x1_0000_0000 ==> r == x
  {
    x % 0x1_0000_0000
  }
}
