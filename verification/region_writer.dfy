/** The shared dataset and the region writer: the dataset is an array whose
    extent is the total size, and each worker writes its buffer into the
    hyperslab `[myStart, myStart + mySize)` of it. */
module RegionWriter {
  import opened CInt
  import opened Partition
  import opened Layout
  import Resolver

  /** `order` lists the ranks in the order their writes are applied: only ranks
      of the group, and every rank of the group at least once. */
  predicate Schedule(order: seq<nat>, n: nat)
  {
    (forall k :: 0 <= k < |order| ==> order[k] < n) &&
    (forall w :: 0 <= w < n ==> w in order)
  }

  /** Selects `[offset, offset + |buf|)` and writes `buf` into it. An empty
      selection is always accepted and changes nothing; a non-empty one that
      does not fit the extent is refused and leaves the dataset unchanged. */
  method WriteRegion(dataset: array<int>, offset: nat, buf: seq<int>) returns (ok: bool)
    modifies dataset
    ensures ok <==> |buf| == 0 || offset + |buf| <= dataset.Length
    ensures ok ==> dataset[..] == Overwrite(old(dataset[..]), offset, buf)
    ensures !ok ==> dataset[..] == old(dataset[..])
  {
    if |buf| > 0 && offset + |buf| > dataset.Length {
      return false;
    }
    for j := 0 to |buf|
      invariant forall q :: 0 <= q < j ==> dataset[offset + q] == buf[q]
      invariant forall p :: 0 <= p < dataset.Length && !(offset <= p < offset + j) ==>
        dataset[p] == old(dataset[p])
    {
      dataset[offset + j] := buf[j];
    }
    ok := true;
    ghost var expected := Overwrite(old(dataset[..]), offset, buf);
    forall p | 0 <= p < dataset.Length
      ensures dataset[p] == expected[p]
    {
      if offset <= p < offset + |buf| {
        assert expected[offset + (p - offset)] == buf[p - offset];
      }
    }
  }

  /** The collective write, run sequentially: the dataset is created with the
      total as its extent and filled with 0, then every rank of `order` resolves
      its start offset and writes its buffer. Unless the total wraps, the
      result is the concatenation of the buffers in rank order, whatever the order. */
  method CollectiveWrite(bufs: seq<seq<int>>, order: seq<nat>) returns (dataset: array<int>)
    requires forall w :: 0 <= w < |bufs| ==> |bufs[w]| < U32_MOD
    requires Schedule(order, |bufs|)
    ensures fresh(dataset)
    ensures dataset.Length == Sum(SizeTable(bufs)) % U32_MOD
    ensures Sum(SizeTable(bufs)) < U32_MOD ==> dataset[..] == Concat(bufs)
  {
    var rankSizes := SizeTable(bufs);
    var totalSize := Resolver.TotalSize(rankSizes);
    dataset := new int[totalSize](_ => 0);
    ghost var fits := Sum(rankSizes) < U32_MOD;
    if fits {
      WrittenNone(bufs);
    }
    for i := 0 to |order|
      invariant dataset.Length == totalSize
      invariant fits ==> dataset[..] == Written(bufs, order[..i])
    {
      var rank := order[i];
      var myStart := Resolver.MyStart(rankSizes, rank);
      var ok := WriteRegion(dataset, myStart, bufs[rank]);
      if fits {
        WrittenStep(bufs, order[..i], rank);
        assert order[..i + 1] == order[..i] + [rank];
      }
    }
    if fits {
      assert order[..|order|] == order;
      WrittenAll(bufs, order);
    }
  }
}
