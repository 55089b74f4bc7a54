/** The offset resolver as the program runs it: two accumulation loops over
    the gathered size table, in `unsigned int` arithmetic that wraps modulo 2^32. */
module Resolver {
  import opened CInt
  import opened Partition

  /** Reducing the accumulator before each addition does not change the result modulo 2^32. */
  lemma AddMod(a: nat, b: nat)
    ensures (a % U32_MOD + b) % U32_MOD == (a + b) % U32_MOD
  {
  }

  /** The dataset extent: every entry of the table added up, wrapping modulo 2^32. */
  method TotalSize(rankSizes: seq<nat>) returns (totalSize: nat)
    ensures totalSize == Sum(rankSizes) % U32_MOD
    ensures Sum(rankSizes) < U32_MOD ==> totalSize == Sum(rankSizes)
  {
    totalSize := 0;
    for k := 0 to |rankSizes|
      invariant totalSize == Start(rankSizes, k) % U32_MOD
    {
      StartStep(rankSizes, k);
      AddMod(Start(rankSizes, k), rankSizes[k]);
      totalSize := (totalSize + rankSizes[k]) % U32_MOD;
    }
  }

  /** The calling worker's start offset: the entries of all lower ranks added
      up, wrapping modulo 2^32. */
  method MyStart(rankSizes: seq<nat>, mpiRank: nat) returns (myStart: nat)
    requires mpiRank < |rankSizes|
    ensures myStart == Start(rankSizes, mpiRank) % U32_MOD
    ensures Sum(rankSizes) < U32_MOD ==> myStart == Start(rankSizes, mpiRank)
    ensures Sum(rankSizes) < U32_MOD ==> myStart + rankSizes[mpiRank] <= Sum(rankSizes)
  {
    myStart := 0;
    for i := 0 to mpiRank
      invariant myStart == Start(rankSizes, i) % U32_MOD
    {
      StartStep(rankSizes, i);
      AddMod(Start(rankSizes, i), rankSizes[i]);
      myStart := (myStart + rankSizes[i]) % U32_MOD;
    }
    RegionInside(rankSizes, mpiRank);
  }

  /** Nothing detects an overflowing total: with sizes `[2^32 - 1, 1]` the
      extent wraps to 0 and rank 1's region falls outside it. */
  lemma OverflowWraps()
    ensures Sum([U32_MOD - 1, 1]) % U32_MOD == 0
    ensures Start([U32_MOD - 1, 1], 1) % U32_MOD + 1 > Sum([U32_MOD - 1, 1]) % U32_MOD
  {
    var sizes: seq<nat> := [U32_MOD - 1, 1];
    StartStep(sizes, 0);
    StartStep(sizes, 1);
  }
}
