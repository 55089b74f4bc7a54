/** Ranges of the C integer types the program computes with. */
module CInt {
  /** Modulus of `unsigned int` arithmetic: sums wrap modulo 2^32. */
  const U32_MOD: nat := 0x1_0000_0000

  /** Largest value of a C `int`; MPI ranks are below it. */
  const INT_MAX: nat := 0x7FFF_FFFF
}
