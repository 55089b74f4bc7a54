/** The offset resolver's specification: prefix sums over the gathered size
    table, the region each worker owns inside the dataset, and the proof that
    these regions tile the dataset without gaps or overlaps. */
module Partition {

  /** Sum of a size table, added up in rank order. */
  function Sum(s: seq<nat>): (total: nat)
  {
    if |s| == 0 then 0 else Sum(s[..|s| - 1]) + s[|s| - 1]
  }

  /** The start offset of worker `w`: the sizes of all lower ranks added up. */
  function Start(sizes: seq<nat>, w: nat): (r: nat)
    requires w <= |sizes|
    ensures w == 0 ==> r == 0
    ensures w == |sizes| ==> r == Sum(sizes)
  {
    assert sizes[..|sizes|] == sizes;
    Sum(sizes[..w])
  }

  /** Position `p` of the dataset lies in the region `[Start(w), Start(w) + sizes[w])`
      that worker `w` selects. */
  predicate InRegion(sizes: seq<nat>, w: nat, p: int)
    requires w < |sizes|
  {
    Start(sizes, w) <= p < Start(sizes, w) + sizes[w]
  }

  /** Offsets step by size: the next worker starts where this one ends. */
  lemma StartStep(sizes: seq<nat>, w: nat)
    requires w < |sizes|
    ensures Start(sizes, w + 1) == Start(sizes, w) + sizes[w]
  {
    assert sizes[..w + 1][..w] == sizes[..w];
  }

  /** Offsets never decrease with the rank. */
  lemma {:induction false} StartMonotone(sizes: seq<nat>, v: nat, w: nat)
    requires v <= w <= |sizes|
    ensures Start(sizes, v) <= Start(sizes, w)
    decreases w - v
  {
    if v < w {
      StartMonotone(sizes, v, w - 1);
      StartStep(sizes, w - 1);
    }
  }

  /** Every worker's region fits inside a dataset whose extent is the total. */
  lemma RegionInside(sizes: seq<nat>, w: nat)
    requires w < |sizes|
    ensures Start(sizes, w) + sizes[w] <= Sum(sizes)
  {
    StartStep(sizes, w);
    StartMonotone(sizes, w + 1, |sizes|);
  }

  /** The region of a lower rank ends before the region of a higher rank begins. */
  lemma RegionsDisjoint(sizes: seq<nat>, v: nat, w: nat)
    requires v < w < |sizes|
    ensures Start(sizes, v) + sizes[v] <= Start(sizes, w)
    ensures forall p :: !(InRegion(sizes, v, p) && InRegion(sizes, w, p))
  {
    StartStep(sizes, v);
    StartMonotone(sizes, v + 1, w);
  }

  /** The worker whose region holds dataset position `p`. */
  function Owner(sizes: seq<nat>, p: nat): (w: nat)
    requires p < Sum(sizes)
    ensures w < |sizes| && InRegion(sizes, w, p)
    decreases |sizes|
  {
    var n := |sizes| - 1;
    if Start(sizes, n) <= p then
      n
    else
      var w := Owner(sizes[..n], p);
      assert sizes[..n][..w] == sizes[..w];
      w
  }

  /** No two workers' regions share a position, so the owner is unique. */
  lemma OwnerUnique(sizes: seq<nat>, w: nat, p: nat)
    requires w < |sizes| && InRegion(sizes, w, p)
    ensures p < Sum(sizes) && Owner(sizes, p) == w
  {
    RegionInside(sizes, w);
    var o := Owner(sizes, p);
    if o < w {
      RegionsDisjoint(sizes, o, w);
    } else if w < o {
      RegionsDisjoint(sizes, w, o);
    }
  }

  /** Position `p` lies in the region of some worker. */
  predicate Covered(sizes: seq<nat>, p: int)
  {
    exists w: nat :: w < |sizes| && InRegion(sizes, w, p)
  }

  /** The regions cover exactly `[0, Sum(sizes))`: a position is in some
      worker's region if and only if it lies inside the dataset. */
  lemma RegionsTile(sizes: seq<nat>)
    ensures forall p: int :: 0 <= p < Sum(sizes) <==> Covered(sizes, p)
  {
    forall p: int | 0 <= p < Sum(sizes)
      ensures Covered(sizes, p)
    {
      var w := Owner(sizes, p);
      assert InRegion(sizes, w, p);
    }
    forall p: int | Covered(sizes, p)
      ensures 0 <= p < Sum(sizes)
    {
      var w: nat :| w < |sizes| && InRegion(sizes, w, p);
      RegionInside(sizes, w);
    }
  }

  /** Sums split over concatenation. */
  lemma {:induction false} SumAppend(a: seq<nat>, b: seq<nat>)
    ensures Sum(a + b) == Sum(a) + Sum(b)
    decreases |b|
  {
    if |b| > 0 {
      var n := |b| - 1;
      assert (a + b)[..|a + b| - 1] == a + b[..n];
      SumAppend(a, b[..n]);
    } else {
      assert a + b == a;
    }
  }

  /** Removing one zero entry from a table does not change its sum. */
  lemma SumDropZero(a: seq<nat>, b: seq<nat>)
    ensures Sum(a + [0] + b) == Sum(a + b)
  {
    SumAppend(a + [0], b);
    SumAppend(a, [0]);
    SumAppend(a, b);
    assert [0][..0] == [];
  }

  /** A worker of size zero is neutral: dropping it from the table leaves the
      total and every higher rank's offset (shifted down one rank) unchanged. */
  lemma ZeroSizeNeutral(sizes: seq<nat>, k: nat, w: nat)
    requires k < |sizes| && sizes[k] == 0 && k < w <= |sizes|
    ensures Start(sizes, w) == Start(sizes[..k] + sizes[k + 1..], w - 1)
    ensures Sum(sizes) == Sum(sizes[..k] + sizes[k + 1..])
  {
    var dropped := sizes[..k] + sizes[k + 1..];
    assert sizes[..w] == sizes[..k] + [0] + sizes[k + 1..w];
    assert dropped[..w - 1] == sizes[..k] + sizes[k + 1..w];
    SumDropZero(sizes[..k], sizes[k + 1..w]);
    assert sizes == sizes[..k] + [0] + sizes[k + 1..];
    SumDropZero(sizes[..k], sizes[k + 1..]);
  }
}
