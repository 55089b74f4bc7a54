/** The local segment producer: the buffer each worker contributes. */
module LocalSegment {
  import opened CInt

  /** Every worker contributes this many elements more than its rank. */
  const VECTOR_DIM: nat := 10

  /** Worker `rank`'s buffer, built as a vector of `rank + 10` copies of `rank + 1`. */
  function Segment(rank: nat): (buf: seq<int>)
    requires rank < INT_MAX
    ensures |buf| == rank + VECTOR_DIM
    ensures forall i :: 0 <= i < |buf| ==> buf[i] == rank + 1
  {
    seq(rank + VECTOR_DIM, _ => rank + 1)
  }

  /** The buffer's length as stored in an `unsigned int`; ranks are small
      enough that the conversion never truncates. */
  function MySize(rank: nat): (n: nat)
    requires rank < INT_MAX
    ensures n == |Segment(rank)| && n < U32_MOD
  {
    (rank + VECTOR_DIM) % U32_MOD
  }
}
