/** The program as a whole: `n` workers, worker `r` contributing `r + 10`
    copies of `r + 1`, all written collectively into one dataset. */
module Program {
  import opened CInt
  import opened Partition
  import opened Layout
  import opened LocalSegment
  import RegionWriter

  /** The buffers of a group of `n` workers, indexed by rank. */
  function Buffers(n: nat): (bufs: seq<seq<int>>)
    requires n <= INT_MAX
    ensures |bufs| == n
    ensures forall r :: 0 <= r < n ==> bufs[r] == Segment(r)
  {
    seq(n, r requires 0 <= r < n => Segment(r))
  }

  /** The all-gathered table holds, at each rank, the `my_size` that rank reported. */
  lemma TableIsMySizes(n: nat)
    requires n <= INT_MAX
    ensures SizeTable(Buffers(n)) == seq(n, r requires 0 <= r < n => MySize(r))
    ensures forall r :: 0 <= r < n ==> SizeTable(Buffers(n))[r] < U32_MOD
  {
  }

  /** Every element of the dataset is its writer's rank plus one. */
  lemma ValueIsRankPlusOne(n: nat, p: nat)
    requires n <= INT_MAX && p < Sum(SizeTable(Buffers(n)))
    ensures p < |Concat(Buffers(n))|
    ensures Concat(Buffers(n))[p] == Owner(SizeTable(Buffers(n)), p) + 1
  {
    var bufs := Buffers(n);
    var w := Owner(SizeTable(bufs), p);
    var j := p - Start(SizeTable(bufs), w);
    ConcatAt(bufs, w, j);
    assert Start(SizeTable(bufs), w) + j == p;
  }

  /** The total extent of a group of `n` workers is `n * (n + 19) / 2`. */
  lemma {:induction false} ProgramTotal(n: nat)
    requires n <= INT_MAX
    ensures 2 * Sum(SizeTable(Buffers(n))) == n * (n + 19)
  {
    if n > 0 {
      var m := n - 1;
      ProgramTotal(m);
      var sizes := SizeTable(Buffers(n));
      assert sizes[..m] == SizeTable(Buffers(m));
      assert Sum(sizes) == Sum(SizeTable(Buffers(m))) + (m + VECTOR_DIM);
      assert m * (m + 19) + 2 * (m + VECTOR_DIM) == n * (n + 19) by {
        assert n * (n + 19) == m * (m + 19) + 2 * m + 20;
      }
    }
  }

  /** Runs the program for a group of `n >= 1` workers, applying the region
      writes in the order `order`. */
  method Run(n: nat, order: seq<nat>) returns (dataset: array<int>)
    requires 1 <= n <= INT_MAX
    requires RegionWriter.Schedule(order, n)
    ensures dataset.Length == (n * (n + 19) / 2) % U32_MOD
    ensures n * (n + 19) / 2 < U32_MOD ==> dataset[..] == Concat(Buffers(n))
  {
    var bufs := Buffers(n);
    ProgramTotal(n);
    ghost var product := n * (n + 19);
    assert product / 2 == Sum(SizeTable(bufs));
    TableIsMySizes(n);
    assert forall r :: 0 <= r < n ==> |bufs[r]| == SizeTable(bufs)[r];
    dataset := RegionWriter.CollectiveWrite(bufs, order);
  }

  /** Four workers produce 46 elements: 10 ones, 11 twos, 12 threes and 13 fours. */
  lemma FourRanks()
    ensures Concat(Buffers(4)) ==
      seq(10, _ => 1) + seq(11, _ => 2) + seq(12, _ => 3) + seq(13, _ => 4)
    ensures |Concat(Buffers(4))| == 46
  {
    var bufs := Buffers(4);
    assert bufs[..1][..0] == [];
    assert bufs[..2][..1] == bufs[..1];
    assert bufs[..3][..2] == bufs[..2];
    assert bufs[..4][..3] == bufs[..3];
    assert bufs[..4] == bufs;
    assert Concat(bufs[..1]) == Segment(0);
    assert Concat(bufs[..2]) == Segment(0) + Segment(1);
    assert Concat(bufs[..3]) == Segment(0) + Segment(1) + Segment(2);
    assert Concat(bufs) == Segment(0) + Segment(1) + Segment(2) + Segment(3);
  }
}
