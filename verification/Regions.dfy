/** An index range cut into regions of equal length. */
module Regions {

  /** The first index of region i. */
  function Start(i: int, l: int): int {
    i * l
  }

  lemma StartNext(i: int, l: int)
    ensures Start(0, l) == 0 && Start(i + 1, l) == Start(i, l) + l
  {
  }

  lemma StartsApart(i: int, j: int, l: int)
    requires 0 <= i < j && 1 <= l
    ensures 0 <= Start(i, l) && Start(i, l) + l <= Start(j, l)
  {
    assert (i + 1) * l <= j * l;
  }

  /** Index b lies in region b / l. */
  lemma RegionOf(r: int, b: int, l: int)
    requires 0 <= r && 1 <= l && Start(r, l) <= b < Start(r, l) + l
    ensures b / l == r
  {
    var q := b / l;
    assert q * l <= b < q * l + l;
    if q < r {
      StartsApart(q, r, l);
    } else if r < q {
      StartsApart(r, q, l);
    }
  }
}
