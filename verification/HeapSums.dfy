/** The bookkeeping that the allocator's own consistency check adds up. */
module HeapSums {
  import opened HeapModel

  // ----- sizes add up -------------------------------------------------------------------------------

  /** The words in free blocks from block b to the end of the page. */
  ghost function FreeFrom(n: int, blk: map<int, Block>, b: int): int
    requires Tiling(n, blk) && (b == n || b in blk)
    decreases n - b
  {
    if b == n then 0
    else
      assert Fits(n, b, blk[b]);
      (if blk[b].free then blk[b].size else 0) + FreeFrom(n, blk, Next(blk, b))
  }

  /** The words in allocated blocks from block b to the end of the page. */
  ghost function UsedFrom(n: int, blk: map<int, Block>, b: int): int
    requires Tiling(n, blk) && (b == n || b in blk)
    decreases n - b
  {
    if b == n then 0
    else
      assert Fits(n, b, blk[b]);
      (if blk[b].free then 0 else blk[b].size) + UsedFrom(n, blk, Next(blk, b))
  }

  /** Free and allocated blocks together fill the page between the two sentinels. */
  lemma {:induction false} SizesAddUp(n: int, blk: map<int, Block>, b: int)
    requires Tiling(n, blk) && (b == n || b in blk)
    ensures FreeFrom(n, blk, b) + UsedFrom(n, blk, b) == n - b
    decreases n - b
  {
    if b != n {
      assert Fits(n, b, blk[b]);
      SizesAddUp(n, blk, Next(blk, b));
    }
  }

  /** The sizes of the listed blocks from index i on, counting only blocks at or after b. */
  function ListedFrom(blk: map<int, Block>, fl: seq<int>, i: int, b: int): int
    requires 0 <= i <= |fl| && forall j :: 0 <= j < |fl| ==> fl[j] in blk
    decreases |fl| - i
  {
    if i == |fl| then 0
    else (if b <= fl[i] then blk[fl[i]].size else 0) + ListedFrom(blk, fl, i + 1, b)
  }

  /** Leaving block b out of the count costs its size if it is listed. */
  lemma {:induction false} ListedStep(n: int, blk: map<int, Block>, fl: seq<int>, i: int, b: int)
    requires Tiling(n, blk) && 0 <= i <= |fl| && (forall j :: 0 <= j < |fl| ==> fl[j] in blk) && b in blk
    requires forall j, k :: 0 <= j < k < |fl| ==> fl[j] != fl[k]
    ensures ListedFrom(blk, fl, i, b) ==
            ListedFrom(blk, fl, i, Next(blk, b)) + if b in fl[i..] then blk[b].size else 0
    decreases |fl| - i
  {
    if i < |fl| {
      ListedStep(n, blk, fl, i + 1, b);
      assert fl[i..] == [fl[i]] + fl[i + 1..];
      assert Fits(n, b, blk[b]);
      if fl[i] == b {
        assert b !in fl[i + 1..];
      }
    }
  }

  lemma {:induction false} ListedNone(blk: map<int, Block>, fl: seq<int>, i: int, b: int)
    requires 0 <= i <= |fl| && forall j :: 0 <= j < |fl| ==> fl[j] in blk && fl[j] < b
    ensures ListedFrom(blk, fl, i, b) == 0
    decreases |fl| - i
  {
    if i < |fl| {
      ListedNone(blk, fl, i + 1, b);
    }
  }

  /** The free list accounts for exactly the words in free blocks. */
  lemma {:induction false} ListSumIsFreeSum(n: int, v: View, b: int)
    requires Tiling(n, v.blk) && Lists(v) && Spaced(n, v.fl) && (b == n || b in v.blk)
    ensures ListedFrom(v.blk, v.fl, 0, b) == FreeFrom(n, v.blk, b)
    decreases n - b
  {
    if b == n {
      ListedNone(v.blk, v.fl, 0, n);
    } else {
      assert Fits(n, b, v.blk[b]);
      ListedStep(n, v.blk, v.fl, 0, b);
      assert v.fl[0..] == v.fl;
      ListSumIsFreeSum(n, v, Next(v.blk, b));
    }
  }
}
