/** What page-run allocation promises: page counts, live runs, best fit, merging and the page flags. */
module RunTheorems {
  import opened ListOps
  import opened RunModel
  import opened RunProofs

  // ----- page counts -------------------------------------------------------------------------------------

  /** Pages in the free (or used) runs from run c on. */
  ghost function PagesFrom(lo: int, hi: int, runs: map<int, Run>, c: int, free: bool): int
    requires Tiling(lo, hi, runs)
    decreases hi - c
  {
    assert c in runs ==> Fits(lo, hi, c, runs[c]);
    if c !in runs then 0
    else (if runs[c].free == free then runs[c].size else 0) + PagesFrom(lo, hi, runs, NextRun(runs, c), free)
  }

  /** Free and used pages add up to the region. */
  lemma {:induction false} PagesAddUp(lo: int, hi: int, runs: map<int, Run>, c: int)
    requires Tiling(lo, hi, runs) && (c in runs || c == hi)
    ensures PagesFrom(lo, hi, runs, c, true) + PagesFrom(lo, hi, runs, c, false) == hi - c
    decreases hi - c
  {
    assert c in runs ==> Fits(lo, hi, c, runs[c]);
    if c in runs {
      PagesAddUp(lo, hi, runs, NextRun(runs, c));
    }
  }

  /** Runs that agree from d on count the same from d on. */
  lemma {:induction false} PagesSame(lo: int, hi: int, runs: map<int, Run>, runs': map<int, Run>, d: int, free: bool)
    requires Tiling(lo, hi, runs) && Tiling(lo, hi, runs') && (d in runs || d == hi)
    requires forall c :: d <= c ==> (c in runs <==> c in runs') && (c in runs ==> runs'[c] == runs[c])
    ensures PagesFrom(lo, hi, runs', d, free) == PagesFrom(lo, hi, runs, d, free)
    decreases hi - d
  {
    assert d in runs ==> Fits(lo, hi, d, runs[d]);
    if d in runs {
      PagesSame(lo, hi, runs, runs', NextRun(runs, d), free);
    }
  }

  /** A change from run b on changes the count by the same amount from any run before b on. */
  lemma {:induction false} PagesShift(lo: int, hi: int, runs: map<int, Run>, runs': map<int, Run>, c: int, b: int,
                                      free: bool)
    requires Tiling(lo, hi, runs) && Tiling(lo, hi, runs') && c in runs && b in runs && b in runs' && c <= b
    requires forall d :: d < b ==> (d in runs <==> d in runs') && (d in runs ==> runs'[d] == runs[d])
    ensures PagesFrom(lo, hi, runs', c, free) - PagesFrom(lo, hi, runs, c, free)
         == PagesFrom(lo, hi, runs', b, free) - PagesFrom(lo, hi, runs, b, free)
    decreases hi - c
  {
    hide Tiling;
    if c < b {
      NextBelow(lo, hi, runs, c, b);
      PagesShift(lo, hi, runs, runs', NextRun(runs, c), b, free);
    }
  }

  lemma RunFits(lo: int, hi: int, runs: map<int, Run>, b: int)
    requires Tiling(lo, hi, runs) && b in runs
    ensures lo in runs && Fits(lo, hi, b, runs[b]) && (NextRun(runs, b) in runs || NextRun(runs, b) == hi)
    ensures forall c :: c in runs && b < c ==> NextRun(runs, b) <= c
  {
  }

  lemma NextBelow(lo: int, hi: int, runs: map<int, Run>, c: int, b: int)
    requires Tiling(lo, hi, runs) && c in runs && b in runs && c < b
    ensures NextRun(runs, c) in runs && c < NextRun(runs, c) <= b < hi
  {
  }

  /** Allocating n pages moves exactly n pages from free to used. */
  lemma AllocateMovesPages(lo: int, hi: int, v: View, n: int, c: int, free: bool)
    requires Tiling(lo, hi, v.runs) && c in v.lists && v.lists[c] != [] && v.lists[c][0] in v.runs
    requires v.runs[v.lists[c][0]] == Run(c, true) && 1 <= n <= c
    ensures Tiling(lo, hi, Allocate(v, n, c).runs)
    ensures PagesFrom(lo, hi, Allocate(v, n, c).runs, lo, free)
         == PagesFrom(lo, hi, v.runs, lo, free) + if free then -n else n
  {
    var b := v.lists[c][0];
    var runs' := Split(v.runs, b, n);
    SplitTiling(lo, hi, v.runs, b, n);
    SplitPages(lo, hi, v.runs, b, n, free);
  }

  lemma SplitPages(lo: int, hi: int, runs: map<int, Run>, b: int, n: int, free: bool)
    requires Tiling(lo, hi, runs) && b in runs && runs[b].free && 1 <= n <= runs[b].size
    requires Tiling(lo, hi, Split(runs, b, n))
    ensures PagesFrom(lo, hi, Split(runs, b, n), lo, free) == PagesFrom(lo, hi, runs, lo, free) + if free then -n else n
  {
    hide Tiling;
    var runs' := Split(runs, b, n);
    RunFits(lo, hi, runs, b);
    PagesShift(lo, hi, runs, runs', lo, b, free);
    PagesSame(lo, hi, runs, runs', NextRun(runs, b), free);
    if n < runs[b].size {
      assert NextRun(runs', b) == b + n && NextRun(runs', b + n) == NextRun(runs, b);
    }
  }

  /** The free runs of a stretch cover it. */
  lemma {:induction false} StretchPages(lo: int, hi: int, runs: map<int, Run>, c: int, e: int, free: bool)
    requires Tiling(lo, hi, runs) && (c in runs || c == hi) && c <= e && (e in runs || e == hi)
    requires forall d :: d in runs && c <= d < e ==> runs[d].free && d + runs[d].size <= e
    ensures PagesFrom(lo, hi, runs, c, free) == PagesFrom(lo, hi, runs, e, free) + if free then e - c else 0
    decreases hi - c
  {
    if c < e {
      assert Fits(lo, hi, c, runs[c]);
      StretchPages(lo, hi, runs, NextRun(runs, c), e, free);
    }
  }

  /** Releasing a run moves exactly its pages from used to free. */
  lemma ReleaseMovesPages(lo: int, hi: int, v: View, b: int, free: bool)
    requires Tiling(lo, hi, v.runs) && b in v.runs && !v.runs[b].free
    ensures Tiling(lo, hi, Release(lo, hi, v, b).runs)
    ensures PagesFrom(lo, hi, Release(lo, hi, v, b).runs, lo, free)
         == PagesFrom(lo, hi, v.runs, lo, free) + if free then v.runs[b].size else -v.runs[b].size
  {
    var m := NextRun(v.runs, b);
    var e := RunEnd(lo, hi, v.runs, m);
    var runs' := Swallow(v.runs, b, e);
    assert Fits(lo, hi, b, v.runs[b]);
    RunEndIs(lo, hi, v.runs, m);
    SwallowTiling(lo, hi, v.runs, b, e);
    PagesShift(lo, hi, v.runs, runs', lo, b, free);
    StretchPages(lo, hi, v.runs, m, e, free);
    PagesSame(lo, hi, v.runs, runs', e, free);
    assert NextRun(runs', b) == e;
  }

  // ----- live runs -----------------------------------------------------------------------------------------

  /** The runs in use, with their lengths. */
  function Live(runs: map<int, Run>): map<int, int> {
    map b | b in runs && !runs[b].free :: runs[b].size
  }

  /** Allocation adds one live run of exactly n pages, inside what was free, and leaves the others alone. */
  lemma AllocateLive(lo: int, hi: int, v: View, n: int, c: int)
    requires Tiling(lo, hi, v.runs) && c in v.lists && v.lists[c] != [] && v.lists[c][0] in v.runs
    requires v.runs[v.lists[c][0]] == Run(c, true) && 1 <= n <= c
    ensures Live(Allocate(v, n, c).runs) == Live(v.runs)[v.lists[c][0] := n]
    ensures forall j, d :: v.lists[c][0] <= j < v.lists[c][0] + n && Within(v.runs, d, j) ==> v.runs[d].free
  {
  }

  /** Releasing a run removes it from the live runs and leaves the others alone. */
  lemma ReleaseLive(lo: int, hi: int, v: View, b: int)
    requires Tiling(lo, hi, v.runs) && b in v.runs && !v.runs[b].free
    ensures Live(Release(lo, hi, v, b).runs) == Live(v.runs) - {b}
  {
    hide Fits, WithFront;
    RunEndIs(lo, hi, v.runs, NextRun(v.runs, b));
    assert Fits(lo, hi, b, v.runs[b]);
    assert Live(Release(lo, hi, v, b).runs).Keys == Live(v.runs).Keys - {b};
  }

  /** Allocation changes no run but the one it cuts: the first n pages are in use, and what is left is one free run. */
  lemma AllocateElsewhere(lo: int, hi: int, v: View, n: int, c: int, d: int)
    requires Tiling(lo, hi, v.runs) && c in v.lists && v.lists[c] != [] && v.lists[c][0] in v.runs
    requires v.runs[v.lists[c][0]] == Run(c, true) && 1 <= n <= c
    ensures d in Allocate(v, n, c).runs <==> d in v.runs || (n < c && d == v.lists[c][0] + n)
    ensures d in v.runs && d != v.lists[c][0] ==> Allocate(v, n, c).runs[d] == v.runs[d]
    ensures n < c && d == v.lists[c][0] + n ==> Allocate(v, n, c).runs[d] == Run(c - n, true)
    ensures d == v.lists[c][0] ==> Allocate(v, n, c).runs[d] == Run(n, false)
  {
    hide Tiling;
    SplitStart(lo, hi, v.runs, v.lists[c][0], n);
  }

  /** Allocation takes the first run of its list, and what is left of the run comes first on the list for its length; no
      other list changes. */
  lemma AllocateLists(v: View, n: int, c: int, d: int)
    requires c in v.lists && v.lists[c] != [] && v.lists[c][0] in v.runs && 1 <= n <= c
    requires forall i :: 1 <= i < |v.lists[c]| ==> v.lists[c][i] != v.lists[c][0]
    ensures c in Allocate(v, n, c).lists <==> |v.lists[c]| > 1
    ensures |v.lists[c]| > 1 ==> Allocate(v, n, c).lists[c] == v.lists[c][1..]
    ensures n < c ==> c - n in Allocate(v, n, c).lists
    ensures n < c ==>
        Allocate(v, n, c).lists[c - n] == [v.lists[c][0] + n] + if c - n in v.lists then v.lists[c - n] else []
    ensures d != c && d != c - n ==> (d in Allocate(v, n, c).lists <==> d in v.lists)
    ensures d != c && d != c - n && d in v.lists ==> Allocate(v, n, c).lists[d] == v.lists[d]
  {
    WithoutAbsent(v.lists[c][1..], v.lists[c][0]);
  }

  /** A run that is given back comes first on the list for the length it has after the merge. */
  lemma ReleaseFront(lo: int, hi: int, v: View, b: int)
    requires Tiling(lo, hi, v.runs) && b in v.runs && !v.runs[b].free
    ensures b in Release(lo, hi, v, b).runs
    ensures Release(lo, hi, v, b).runs[b].size in Release(lo, hi, v, b).lists
    ensures Release(lo, hi, v, b).lists[Release(lo, hi, v, b).runs[b].size] != []
    ensures Release(lo, hi, v, b).lists[Release(lo, hi, v, b).runs[b].size][0] == b
  {
    hide Unlist;
    RunEndIs(lo, hi, v.runs, NextRun(v.runs, b));
  }

  /** Release changes no run outside the merged one, and swallows free runs only. */
  lemma ReleaseElsewhere(lo: int, hi: int, v: View, b: int, d: int)
    requires Tiling(lo, hi, v.runs) && b in v.runs && !v.runs[b].free
    ensures b in Release(lo, hi, v, b).runs && Release(lo, hi, v, b).runs[b].free
    ensures d < b || NextRun(Release(lo, hi, v, b).runs, b) <= d ==>
        (d in Release(lo, hi, v, b).runs <==> d in v.runs)
        && (d in v.runs ==> Release(lo, hi, v, b).runs[d] == v.runs[d])
    ensures b < d < NextRun(Release(lo, hi, v, b).runs, b) ==>
        d !in Release(lo, hi, v, b).runs && (d in v.runs ==> v.runs[d].free)
  {
    hide Unlist, WithFront;
    RunEndIs(lo, hi, v.runs, NextRun(v.runs, b));
    assert Fits(lo, hi, b, v.runs[b]);
  }

  /** The merge stays in the region and stops only at a run in use or at the region's end. */
  lemma ReleaseStops(lo: int, hi: int, v: View, b: int)
    requires Tiling(lo, hi, v.runs) && b in v.runs && !v.runs[b].free
    ensures b in Release(lo, hi, v, b).runs && NextRun(Release(lo, hi, v, b).runs, b) <= hi
    ensures NextRun(Release(lo, hi, v, b).runs, b) == hi
         || (NextRun(Release(lo, hi, v, b).runs, b) in Release(lo, hi, v, b).runs
             && !Release(lo, hi, v, b).runs[NextRun(Release(lo, hi, v, b).runs, b)].free)
  {
    RunEndIs(lo, hi, v.runs, NextRun(v.runs, b));
    assert Fits(lo, hi, b, v.runs[b]);
  }

  // ----- best fit --------------------------------------------------------------------------------------------

  /** There is a size class of at least n pages exactly if there is a free run of at least n pages. */
  lemma ClassIffRun(k: Links, heads: map<int, int>, v: View, n: int)
    requires Listing(k, heads, v, {})
    ensures (exists d :: d in heads && n <= d) <==> exists b :: b in v.runs && v.runs[b].free && n <= v.runs[b].size
  {
    if d :| d in heads && n <= d {
      assert ListFor(k, heads, v, {}, d);
      assert v.runs[heads[d]].free && n <= v.runs[heads[d]].size;
    }
    if b :| b in v.runs && v.runs[b].free && n <= v.runs[b].size {
      assert Listed(v, b);
      assert v.runs[b].size in heads;
    }
  }

  /** The size class that lower_bound finds is the length of the smallest free run of at least n pages. */
  lemma BestFitOverRuns(k: Links, heads: map<int, int>, v: View, n: int, c: int, b: int)
    requires Listing(k, heads, v, {}) && IsBestFit(v.lists, n, c)
    requires b in v.runs && v.runs[b].free && n <= v.runs[b].size
    ensures c <= v.runs[b].size
  {
    assert Listed(v, b);
  }

  // ----- the page flags -----------------------------------------------------------------------------------------

  /** A page of the region is flagged free exactly if it lies in a free run: what eviction relies on. */
  lemma FlagsTell(lo: int, hi: int, t: Tags, runs: map<int, Run>, j: int) returns (d: int)
    requires Tiling(lo, hi, runs) && 0 <= lo && hi <= |t.mapped| && Tagging(t, runs, {}) && lo <= j < hi
    ensures Within(runs, d, j) && t.isFree[j] == runs[d].free
  {
    d := RunOf(lo, hi, runs, lo, j);
  }

  // ----- other regions -----------------------------------------------------------------------------------------

  /** Work in one region leaves every region beside it in order. */
  lemma RegionFrame(lo: int, hi: int, t: Tags, t': Tags, k: Links, k': Links, heads: map<int, int>, v: View,
                    from: int, to: int)
    requires Tiling(lo, hi, v.runs) && 0 <= lo && hi <= |t.mapped| && Tagging(t, v.runs, {}) && Listing(k, heads, v, {})
    requires Outside(t, t', k, k', from, to) && (hi <= from || to < lo)
    ensures Tagging(t', v.runs, {}) && Listing(k', heads, v, {})
  {
    forall b | b in v.runs
      ensures Tagged(t', b, v.runs[b])
    {
      assert Fits(lo, hi, b, v.runs[b]) && Tagged(t, b, v.runs[b]);
    }
    forall b, j | Within(v.runs, b, j) && 0 <= j < |t.isFree|
      ensures t'.isFree[j] == t.isFree[j] && t'.mapped[j] == t.mapped[j]
    {
      assert Fits(lo, hi, b, v.runs[b]);
    }
    forall c | c in v.lists
      ensures ListFor(k', heads, v, {}, c)
    {
      assert ListFor(k, heads, v, {}, c);
      ListFrame(lo, hi, t, t', k, k', heads, v, from, to, c);
    }
  }

  lemma ListFrame(lo: int, hi: int, t: Tags, t': Tags, k: Links, k': Links, heads: map<int, int>, v: View,
                  from: int, to: int, c: int)
    requires Tiling(lo, hi, v.runs) && 0 <= lo && hi <= |t.mapped| && ListFor(k, heads, v, {}, c)
    requires Outside(t, t', k, k', from, to) && (hi <= from || to < lo)
    ensures ListFor(k', heads, v, {}, c)
  {
  }
}
