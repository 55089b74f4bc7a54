/** The persisted layout: the dataset is the concatenation of the workers'
    buffers in rank order, and each region write places one buffer into it. */
module Layout {
  import opened Partition

  /** The size table every worker holds after the all-gather: entry `w` is
      the element count of worker `w`'s buffer. */
  function SizeTable(bufs: seq<seq<int>>): (sizes: seq<nat>)
    ensures |sizes| == |bufs|
    ensures forall w :: 0 <= w < |bufs| ==> sizes[w] == |bufs[w]|
  {
    seq(|bufs|, w requires 0 <= w < |bufs| => |bufs[w]|)
  }

  /** The buffers of all workers, one after the other in rank order. */
  function Concat(bufs: seq<seq<int>>): (r: seq<int>)
    ensures |r| == Sum(SizeTable(bufs))
  {
    if |bufs| == 0 then []
    else
      var n := |bufs| - 1;
      assert SizeTable(bufs)[..n] == SizeTable(bufs[..n]);
      Concat(bufs[..n]) + bufs[n]
  }

  /** Worker `w`'s buffer sits in the concatenation at worker `w`'s start offset. */
  lemma {:induction false} ConcatAt(bufs: seq<seq<int>>, w: nat, j: nat)
    requires w < |bufs| && j < |bufs[w]|
    ensures Start(SizeTable(bufs), w) + j < |Concat(bufs)|
    ensures Concat(bufs)[Start(SizeTable(bufs), w) + j] == bufs[w][j]
  {
    var n := |bufs| - 1;
    var sizes := SizeTable(bufs);
    assert sizes[..n] == SizeTable(bufs[..n]);
    assert Concat(bufs) == Concat(bufs[..n]) + bufs[n];
    if w < n {
      assert sizes[..n][..w] == sizes[..w];
      ConcatAt(bufs[..n], w, j);
    } else {
      assert Start(sizes, n) == |Concat(bufs[..n])|;
    }
  }

  /** The contents of `data` after `buf` has been written at `offset`; an
      empty buffer selects nothing, wherever its offset. */
  function Overwrite(data: seq<int>, offset: nat, buf: seq<int>): (r: seq<int>)
    requires |buf| == 0 || offset + |buf| <= |data|
    ensures |r| == |data|
    ensures forall j :: 0 <= j < |buf| ==> r[offset + j] == buf[j]
    ensures forall p :: 0 <= p < |data| && !(offset <= p < offset + |buf|) ==> r[p] == data[p]
  {
    if |buf| == 0 then data else data[..offset] + buf + data[offset + |buf|..]
  }

  /** The dataset once exactly the workers in `done` have written their regions:
      a position holds its owner's element if the owner is done, else the fill value 0. */
  function Written(bufs: seq<seq<int>>, done: seq<nat>): (r: seq<int>)
  {
    var sizes := SizeTable(bufs);
    seq(Sum(sizes), p requires 0 <= p < Sum(sizes) =>
      if Owner(sizes, p) in done then Concat(bufs)[p] else 0)
  }

  /** Before any write the dataset holds only the fill value. */
  lemma WrittenNone(bufs: seq<seq<int>>)
    ensures Written(bufs, []) == seq(Sum(SizeTable(bufs)), _ => 0)
  {
  }

  /** What position `p` of a partly written dataset holds. */
  lemma WrittenAt(bufs: seq<seq<int>>, done: seq<nat>, p: nat)
    requires p < Sum(SizeTable(bufs))
    ensures |Written(bufs, done)| == Sum(SizeTable(bufs)) == |Concat(bufs)|
    ensures Written(bufs, done)[p] ==
      if Owner(SizeTable(bufs), p) in done then Concat(bufs)[p] else 0
  {
  }

  /** Position `p` after worker `r`'s write: its owner's element if the owner
      is `r` or already done, else the fill value. */
  lemma WrittenStepAt(bufs: seq<seq<int>>, done: seq<nat>, r: nat, p: nat)
    requires r < |bufs| && p < Sum(SizeTable(bufs))
    ensures Start(SizeTable(bufs), r) + |bufs[r]| <= |Written(bufs, done)|
    ensures Overwrite(Written(bufs, done), Start(SizeTable(bufs), r), bufs[r])[p]
         == Written(bufs, done + [r])[p]
  {
    var sizes := SizeTable(bufs);
    RegionInside(sizes, r);
    var start := Start(sizes, r);
    var before := Written(bufs, done);
    var after := Overwrite(before, start, bufs[r]);
    var o := Owner(sizes, p);
    WrittenAt(bufs, done, p);
    WrittenAt(bufs, done + [r], p);
    assert (o in done + [r]) == (o in done || o == r);
    if start <= p < start + |bufs[r]| {
      OwnerUnique(sizes, r, p);
      ConcatAt(bufs, r, p - start);
      assert after[start + (p - start)] == bufs[r][p - start];
    } else {
      assert !InRegion(sizes, r, p);
      assert after[p] == before[p];
    }
  }

  /** Writing worker `r`'s buffer into its region adds `r` to the finished workers. */
  lemma WrittenStep(bufs: seq<seq<int>>, done: seq<nat>, r: nat)
    requires r < |bufs|
    ensures Start(SizeTable(bufs), r) + |bufs[r]| <= |Written(bufs, done)|
    ensures Overwrite(Written(bufs, done), Start(SizeTable(bufs), r), bufs[r])
         == Written(bufs, done + [r])
  {
    RegionInside(SizeTable(bufs), r);
    var after := Overwrite(Written(bufs, done), Start(SizeTable(bufs), r), bufs[r]);
    forall p | 0 <= p < |after|
      ensures after[p] == Written(bufs, done + [r])[p]
    {
      WrittenStepAt(bufs, done, r, p);
    }
  }

  /** Once every worker has written, the dataset is the concatenation of the buffers. */
  lemma WrittenAll(bufs: seq<seq<int>>, done: seq<nat>)
    requires forall w :: 0 <= w < |bufs| ==> w in done
    ensures Written(bufs, done) == Concat(bufs)
  {
    var sizes := SizeTable(bufs);
    forall p | 0 <= p < Sum(sizes)
      ensures Written(bufs, done)[p] == Concat(bufs)[p]
    {
      assert Owner(sizes, p) in done;
    }
  }
}
