/** How splitting, merging and relisting act on the invariants of a region. */
module RunProofs {
  import opened RunModel
  import opened ListOps

  // ----- one list changes, the others stay ------------------------------------------------------------

  /** The links of every list but the one for length c are untouched. */
  ghost predicate OthersKept(k: Links, k': Links, v: View, c: int) {
    && |k'.prev| == |k'.next| == |k.next| == |k.prev|
    && (forall d, i :: d in v.lists && d != c && 0 <= i < |v.lists[d]| && 0 <= v.lists[d][i] < |k.next| ==>
          k'.next[v.lists[d][i]] == k.next[v.lists[d][i]] && k'.prev[v.lists[d][i]] == k.prev[v.lists[d][i]])
  }

  /** Only link fields of runs in `runs` changed. */
  ghost predicate LinksOnly(k: Links, k': Links, runs: map<int, Run>) {
    && |k'.prev| == |k'.next| == |k.next| == |k.prev|
    && (forall j :: 0 <= j < |k.next| && j !in runs ==> k'.prev[j] == k.prev[j] && k'.next[j] == k.next[j])
  }

  lemma KeepList(k: Links, k': Links, heads: map<int, int>, heads': map<int, int>, v: View, v': View,
                 off: set<int>, off': set<int>, c: int, d: int)
    requires ListFor(k, heads, v, off, d) && OthersKept(k, k', v, c) && d != c
    requires d in v'.lists && v'.lists[d] == v.lists[d] && d in heads' && heads'[d] == heads[d] && v'.runs == v.runs
    requires forall i :: 0 <= i < |v.lists[d]| ==> v.lists[d][i] !in off'
    ensures ListFor(k', heads', v', off', d)
  {
  }

  /** Free run b is taken off its list. */
  lemma RemoveListing(k: Links, k': Links, heads: map<int, int>, heads': map<int, int>, v: View, off: set<int>, c: int,
                      i: int)
    requires Listing(k, heads, v, off) && c in v.lists && 0 <= i < |v.lists[c]|
    requires OthersKept(k, k', v, c)
    requires |v.lists[c]| > 1 ==> Linked(k', Drop(v.lists[c], i))
    requires heads' == if |v.lists[c]| == 1 then heads - {c} else heads[c := Drop(v.lists[c], i)[0]]
    ensures Listing(k', heads', View(v.runs, WithoutRun(v.lists, c, v.lists[c][i])), off + {v.lists[c][i]})
  {
    var b := v.lists[c][i];
    assert ListFor(k, heads, v, off, c);
    WithoutAt(v.lists[c], i);
    var v' := View(v.runs, WithoutRun(v.lists, c, b));
    forall d | d in v'.lists
      ensures ListFor(k', heads', v', off + {b}, d)
    {
      assert ListFor(k, heads, v, off, d);
      if d == c {
        DropIs(v.lists[c], i, b);
      } else {
        KeepList(k, k', heads, heads', v, v', off, off + {b}, c, d);
      }
    }
    forall a | a in v'.runs && v'.runs[a].free && a !in off + {b}
      ensures Listed(v', a)
    {
      assert Listed(v, a);
      DropIs(v.lists[c], i, a);
    }
  }

  /** Free run b is put in front of the list for its length. */
  lemma AddListing(k: Links, heads: map<int, int>, v: View, off: set<int>, b: int)
    requires Listing(k, heads, v, off) && b in v.runs && v.runs[b].free && b in off && 0 <= b < |k.next|
    ensures v.runs[b].size in heads ==> 0 <= heads[v.runs[b].size] < |k.next|
    ensures Listing(LinkFront(k, HeadOf(heads, v.runs[b].size), b),
                    heads[v.runs[b].size := b], View(v.runs, WithFront(v.lists, v.runs[b].size, b)), off - {b})
  {
    var c := v.runs[b].size;
    var l := if c in v.lists then v.lists[c] else [];
    assert c in v.lists ==> ListFor(k, heads, v, off, c);
    LinkFrontLinked(k, l, b);
    var k' := LinkFront(k, HeadOf(heads, c), b);
    var heads', v' := heads[c := b], View(v.runs, WithFront(v.lists, c, b));
    AddOthers(k, k', heads, v, off, b, c);
    forall d | d in v'.lists
      ensures ListFor(k', heads', v', off - {b}, d)
    {
      if d != c {
        assert ListFor(k, heads, v, off, d);
        KeepList(k, k', heads, heads', v, v', off, off - {b}, c, d);
      }
    }
    forall a | a in v'.runs && v'.runs[a].free && a !in off - {b}
      ensures Listed(v', a)
    {
      if a != b {
        assert Listed(v, a);
      }
    }
  }

  lemma AddOthers(k: Links, k': Links, heads: map<int, int>, v: View, off: set<int>, b: int, c: int)
    requires Listing(k, heads, v, off) && b in off && 0 <= b < |k.next| && (c in heads ==> 0 <= heads[c] < |k.next|)
    requires k' == LinkFront(k, HeadOf(heads, c), b)
    ensures OthersKept(k, k', v, c)
  {
    forall d, i | d in v.lists && d != c && 0 <= i < |v.lists[d]|
      ensures v.lists[d][i] != b && (c in heads ==> v.lists[d][i] != heads[c])
    {
      assert ListFor(k, heads, v, off, d);
      assert c in heads ==> ListFor(k, heads, v, off, c);
    }
  }

  /** The writes of an unlinking touch nodes of one list only. */
  lemma UnlinkOthers(k: Links, heads: map<int, int>, v: View, off: set<int>, c: int, i: int)
    requires Listing(k, heads, v, off) && c in v.lists && 0 <= i < |v.lists[c]|
    ensures 0 <= v.lists[c][i] < |k.prev| == |k.next|
    ensures (k.prev[v.lists[c][i]] != NONE ==> 0 <= k.prev[v.lists[c][i]] < |k.next|)
            && (k.next[v.lists[c][i]] != NONE ==> 0 <= k.next[v.lists[c][i]] < |k.next|)
    ensures OthersKept(k, Unlink(k, v.lists[c][i]), v, c)
  {
    assert ListFor(k, heads, v, off, c);
    LinkedAt(k, v.lists[c], i);
    forall d, j | d in v.lists && d != c && 0 <= j < |v.lists[d]|
      ensures forall a :: 0 <= a < |v.lists[c]| ==> v.lists[d][j] != v.lists[c][a]
    {
      assert ListFor(k, heads, v, off, d);
    }
  }

  /** hugePodMapRemoveEntry resets the next field of a removed head; nobody looks at it any more. */
  lemma ResetNext(k: Links, k': Links, v: View, off: set<int>, heads: map<int, int>, c: int, i: int)
    requires Listing(k, heads, v, off) && c in v.lists && 0 <= i < |v.lists[c]| && 0 <= v.lists[c][i] < |k.next|
    requires OthersKept(k, k', v, c) && Linked(k', Drop(v.lists[c], i))
    ensures OthersKept(k, Links(k'.prev, k'.next[v.lists[c][i] := NONE]), v, c)
    ensures Linked(Links(k'.prev, k'.next[v.lists[c][i] := NONE]), Drop(v.lists[c], i))
  {
    var b := v.lists[c][i];
    assert ListFor(k, heads, v, off, c);
    DropIs(v.lists[c], i, b);
    forall j | 0 <= j < |Drop(v.lists[c], i)|
      ensures Drop(v.lists[c], i)[j] != b
    {
      assert Drop(v.lists[c], i)[j] in Drop(v.lists[c], i);
    }
    LinkedFrame(k', Links(k'.prev, k'.next[b := NONE]), Drop(v.lists[c], i));
    forall d, j | d in v.lists && d != c && 0 <= j < |v.lists[d]|
      ensures v.lists[d][j] != b
    {
      assert ListFor(k, heads, v, off, d);
    }
  }

  /** The lists stay right when only runs that are on no list change. */
  lemma RerunListing(k: Links, heads: map<int, int>, v: View, off: set<int>, runs': map<int, Run>, off': set<int>)
    requires Listing(k, heads, v, off)
    requires forall x :: x in v.runs && v.runs[x].free && x !in off ==>
        x in runs' && runs'[x] == v.runs[x] && x !in off'
    requires forall x :: x in runs' && runs'[x].free && x !in off' ==> x in v.runs && v.runs[x] == runs'[x] && x !in off
    ensures Listing(k, heads, View(runs', v.lists), off')
  {
    var v' := View(runs', v.lists);
    forall c | c in v'.lists
      ensures ListFor(k, heads, v', off', c)
    {
      assert ListFor(k, heads, v, off, c);
    }
    forall x | x in v'.runs && v'.runs[x].free && x !in off'
      ensures Listed(v', x)
    {
      assert Listed(v, x);
    }
  }

  // ----- splitting ---------------------------------------------------------------------------------------

  lemma RunFits(lo: int, hi: int, runs: map<int, Run>, b: int, c: int)
    requires Tiling(lo, hi, runs) && b in runs && c in runs
    ensures Fits(lo, hi, b, runs[b]) && Fits(lo, hi, c, runs[c]) && (NextRun(runs, b) == hi || NextRun(runs, b) in runs)
    ensures b < c ==> b + runs[b].size <= c
    ensures c < b ==> c + runs[c].size <= b
  {
  }

  lemma TilingFrom(lo: int, hi: int, runs: map<int, Run>)
    requires lo in runs && forall b :: b in runs ==> Fits(lo, hi, b, runs[b])
    requires forall b {:trigger NextRun(runs, b)} :: b in runs ==> NextRun(runs, b) == hi || NextRun(runs, b) in runs
    requires forall b, c :: b in runs && c in runs && b < c ==> b + runs[b].size <= c
    ensures Tiling(lo, hi, runs)
  {
  }

  lemma SplitAt(lo: int, hi: int, runs: map<int, Run>, b: int, n: int, c: int)
    requires Tiling(lo, hi, runs) && b in runs && 1 <= n <= runs[b].size && c in Split(runs, b, n)
    ensures Fits(lo, hi, c, Split(runs, b, n)[c])
    ensures NextRun(Split(runs, b, n), c) == hi || NextRun(Split(runs, b, n), c) in Split(runs, b, n)
  {
    hide Tiling;
    RunFits(lo, hi, runs, b, if c in runs then c else b);
    if c in runs {
      RunFits(lo, hi, runs, c, b);
    }
  }

  lemma SplitApart(lo: int, hi: int, runs: map<int, Run>, b: int, n: int, c: int, d: int)
    requires Tiling(lo, hi, runs) && b in runs && 1 <= n <= runs[b].size
    requires c in Split(runs, b, n) && d in Split(runs, b, n) && c < d
    ensures c + Split(runs, b, n)[c].size <= d
  {
    hide Tiling;
    if c in runs {
      RunFits(lo, hi, runs, b, c);
    }
    if d in runs {
      RunFits(lo, hi, runs, b, d);
    }
    if c in runs && d in runs {
      RunFits(lo, hi, runs, c, d);
    }
  }

  lemma SplitStart(lo: int, hi: int, runs: map<int, Run>, b: int, n: int)
    requires Tiling(lo, hi, runs) && b in runs && 1 <= n <= runs[b].size
    ensures lo in Split(runs, b, n) && (n < runs[b].size ==> b + n !in runs)
  {
    if n < runs[b].size && b + n in runs {
      RunFits(lo, hi, runs, b, b + n);
    }
  }

  lemma SplitTiling(lo: int, hi: int, runs: map<int, Run>, b: int, n: int)
    requires Tiling(lo, hi, runs) && b in runs && 1 <= n <= runs[b].size
    ensures Tiling(lo, hi, Split(runs, b, n))
    ensures n < runs[b].size ==> b + n !in runs
  {
    hide Tiling, Split, NextRun;
    RunFits(lo, hi, runs, b, b);
    forall c | c in Split(runs, b, n)
      ensures Fits(lo, hi, c, Split(runs, b, n)[c])
      ensures NextRun(Split(runs, b, n), c) == hi || NextRun(Split(runs, b, n), c) in Split(runs, b, n)
    {
      SplitAt(lo, hi, runs, b, n, c);
    }
    forall c, d | c in Split(runs, b, n) && d in Split(runs, b, n) && c < d
      ensures c + Split(runs, b, n)[c].size <= d
    {
      SplitApart(lo, hi, runs, b, n, c, d);
    }
    SplitStart(lo, hi, runs, b, n);
    TilingFrom(lo, hi, Split(runs, b, n));
  }

  /** A run of n pages at b gets its tag. */
  function TagRun(t: Tags, b: int, n: int, free: bool): Tags
    requires 0 <= b && 1 <= n && b + n <= |t.mapped| == |t.size| == |t.isFree|
  {
    Tags(t.mapped[b := true][b + n - 1 := true], t.size[b := n][b + n - 1 := n], t.isFree[b := free][b + n - 1 := free])
  }

  /** The tag writes of allocateNPages: n pages from b in use, the rest up to b + s free. */
  function SplitTags(t: Tags, b: int, n: int, s: int): Tags
    requires 0 <= b && 1 <= n <= s && b + s <= |t.mapped| == |t.size| == |t.isFree|
  {
    if n == s then TagRun(t, b, n, false) else TagRun(TagRun(t, b, n, false), b + n, s - n, true)
  }

  lemma SplitSameLength(t: Tags, b: int, n: int, s: int)
    requires 0 <= b && 1 <= n <= s && b + s <= |t.mapped| == |t.size| == |t.isFree|
    ensures SameLength(SplitTags(t, b, n, s), |t.mapped|)
  {
  }

  lemma TaggingLength(t: Tags, runs: map<int, Run>, pending: set<int>)
    requires Tagging(t, runs, pending)
    ensures SameLength(t, |t.mapped|)
  {
  }

  /** Pages outside the split run keep their tags. */
  lemma SplitTagsAt(t: Tags, b: int, n: int, s: int, j: int)
    requires 0 <= b && 1 <= n <= s && b + s <= |t.mapped| == |t.size| == |t.isFree| && 0 <= j < |t.mapped|
    ensures !(b <= j < b + s) ==>
              SplitTags(t, b, n, s).mapped[j] == t.mapped[j] && SplitTags(t, b, n, s).size[j] == t.size[j]
              && SplitTags(t, b, n, s).isFree[j] == t.isFree[j]
    ensures b + n <= j < b + s && t.isFree[j] ==> SplitTags(t, b, n, s).isFree[j]
    ensures SplitTags(t, b, n, s).mapped[b] && SplitTags(t, b, n, s).size[b] == n && !SplitTags(t, b, n, s).isFree[b]
    ensures SplitTags(t, b, n, s).mapped[b + n - 1] && SplitTags(t, b, n, s).size[b + n - 1] == n
            && !SplitTags(t, b, n, s).isFree[b + n - 1]
    ensures n < s ==> SplitTags(t, b, n, s).mapped[b + n] && SplitTags(t, b, n, s).size[b + n] == s - n
                      && SplitTags(t, b, n, s).isFree[b + n]
    ensures n < s ==> SplitTags(t, b, n, s).mapped[b + s - 1] && SplitTags(t, b, n, s).size[b + s - 1] == s - n
                      && SplitTags(t, b, n, s).isFree[b + s - 1]
  {
  }

  lemma SplitTaggedRun(lo: int, hi: int, t: Tags, runs: map<int, Run>, b: int, n: int, c: int)
    requires Tiling(lo, hi, runs) && 0 <= lo && hi <= |t.mapped| && SameLength(t, |t.mapped|)
    requires b in runs && 1 <= n <= runs[b].size && c in Split(runs, b, n)
    requires c in runs ==> Tagged(t, c, runs[c])
    ensures 0 <= b && b + runs[b].size <= |t.mapped|
    ensures Tagged(SplitTags(t, b, n, runs[b].size), c, Split(runs, b, n)[c])
  {
    hide Tiling, SplitTags;
    RunFits(lo, hi, runs, b, b);
    SplitSameLength(t, b, n, runs[b].size);
    SplitTagsAt(t, b, n, runs[b].size, b);
    if c != b && !(c == b + n && n < runs[b].size) {
      RunFits(lo, hi, runs, b, c);
      SplitTagsAt(t, b, n, runs[b].size, c);
      SplitTagsAt(t, b, n, runs[b].size, c + runs[c].size - 1);
    }
  }

  lemma SplitPage(lo: int, hi: int, t: Tags, runs: map<int, Run>, pending: set<int>, b: int, n: int, c: int, j: int)
    requires Tiling(lo, hi, runs) && 0 <= lo && hi <= |t.mapped| && Tagging(t, runs, pending)
    requires b in runs && runs[b].free && 1 <= n <= runs[b].size
    requires Within(Split(runs, b, n), c, j) && 0 <= j < |t.isFree|
    ensures 0 <= b && b + runs[b].size <= |t.mapped|
    ensures Split(runs, b, n)[c].free ==> SplitTags(t, b, n, runs[b].size).isFree[j]
    ensures !Split(runs, b, n)[c].free && c !in pending + {b} ==>
              SplitTags(t, b, n, runs[b].size).mapped[j] && !SplitTags(t, b, n, runs[b].size).isFree[j]
  {
    assert Fits(lo, hi, b, runs[b]);
    SplitTagsAt(t, b, n, runs[b].size, j);
    if c == b + n && n < runs[b].size {
      assert Within(runs, b, j);
    } else {
      assert Within(runs, c, j);
    }
  }

  lemma SplitTagging(lo: int, hi: int, t: Tags, runs: map<int, Run>, pending: set<int>, b: int, n: int)
    requires Tiling(lo, hi, runs) && 0 <= lo && hi <= |t.mapped| && Tagging(t, runs, pending)
    requires b in runs && runs[b].free && 1 <= n <= runs[b].size
    ensures 0 <= b && b + runs[b].size <= |t.mapped|
    ensures Tagging(SplitTags(t, b, n, runs[b].size), Split(runs, b, n), pending + {b})
  {
    assert Fits(lo, hi, b, runs[b]);
    forall c | c in Split(runs, b, n)
      ensures Tagged(SplitTags(t, b, n, runs[b].size), c, Split(runs, b, n)[c])
    {
      SplitTaggedRun(lo, hi, t, runs, b, n, c);
    }
    forall c, j | Within(Split(runs, b, n), c, j) && 0 <= j < |t.isFree|
      ensures Split(runs, b, n)[c].free ==> SplitTags(t, b, n, runs[b].size).isFree[j]
      ensures !Split(runs, b, n)[c].free && c !in pending + {b} ==>
                SplitTags(t, b, n, runs[b].size).mapped[j] && !SplitTags(t, b, n, runs[b].size).isFree[j]
    {
      SplitPage(lo, hi, t, runs, pending, b, n, c, j);
    }
  }

  /** A region in order, but for run b, the first of the list for length c, which has left its list. */
  ghost predicate Detached(lo: int, hi: int, t: Tags, k: Links, heads: map<int, int>, v: View, c: int, b: int) {
    && Tiling(lo, hi, v.runs) && 0 <= lo && hi <= |t.mapped| == |k.next| && Tagging(t, v.runs, {})
    && c in v.lists && v.lists[c] != [] && v.lists[c][0] == b && b in v.runs && v.runs[b] == Run(c, true)
    && Listing(k, heads, View(v.runs, WithoutRun(v.lists, c, b)), {b})
  }

  /** After the first run b of list c left the list and was cut, the pages and lists are in order again once the
      rest of the run, if any, is put on the list for its length. */
  lemma AllocateFacts(lo: int, hi: int, t: Tags, k: Links, heads: map<int, int>, v: View, c: int, n: int, b: int)
    requires Detached(lo, hi, t, k, heads, v, c, b) && 1 <= n <= c
    ensures 0 <= b && b + c <= hi
    ensures Tiling(lo, hi, Split(v.runs, b, n)) && Tagging(SplitTags(t, b, n, c), Split(v.runs, b, n), {b})
    ensures n == c ==> Listing(k, heads, Allocate(v, n, c), {})
    ensures n < c && c - n in heads ==> 0 <= heads[c - n] < |k.next|
    ensures n < c ==> Tagged(SplitTags(t, b, n, c), b + n, Run(c - n, true))
    ensures n < c ==> Listing(LinkFront(k, HeadOf(heads, c - n), b + n), heads[c - n := b + n],
                              Allocate(v, n, c), {})
  {
    assert Fits(lo, hi, b, v.runs[b]);
    SplitTagging(lo, hi, t, v.runs, {}, b, n);
    SplitTiling(lo, hi, v.runs, b, n);
    assert {} + {b} == {b};
    AllocateListing(k, heads, v, c, n, b);
  }

  lemma AllocateListing(k: Links, heads: map<int, int>, v: View, c: int, n: int, b: int)
    requires c in v.lists && v.lists[c] != [] && v.lists[c][0] == b && b in v.runs && v.runs[b] == Run(c, true)
    requires Listing(k, heads, View(v.runs, WithoutRun(v.lists, c, b)), {b}) && 1 <= n <= c && 0 <= b
    requires b + c <= |k.next|
    requires n < c ==> b + n !in v.runs
    ensures n == c ==> Listing(k, heads, Allocate(v, n, c), {})
    ensures n < c && c - n in heads ==> 0 <= heads[c - n] < |k.next|
    ensures n < c ==> Listing(LinkFront(k, HeadOf(heads, c - n), b + n), heads[c - n := b + n],
                              Allocate(v, n, c), {})
  {
    var rest := View(v.runs, WithoutRun(v.lists, c, b));
    var runs' := Split(v.runs, b, n);
    if n == c {
      RerunListing(k, heads, rest, {b}, runs', {});
    } else {
      RerunListing(k, heads, rest, {b}, runs', {b + n});
      AddListing(k, heads, View(runs', rest.lists), {b + n}, b + n);
      assert {b + n} - {b + n} == {};
    }
  }

  // ----- merging -------------------------------------------------------------------------------------------

  /** e is a run boundary right of run b, and all runs between b and e are free. */
  ghost predicate Stretch(lo: int, hi: int, runs: map<int, Run>, b: int, e: int) {
    && b in runs && b + runs[b].size <= e <= hi && (e == hi || e in runs)
    && (forall d :: d in runs && b < d < e ==> runs[d].free && d + runs[d].size <= e)
  }

  lemma {:induction false} RunEndIs(lo: int, hi: int, runs: map<int, Run>, c: int)
    requires Tiling(lo, hi, runs) && (c == hi || c in runs)
    ensures c <= RunEnd(lo, hi, runs, c) <= hi
    ensures RunEnd(lo, hi, runs, c) == hi || (RunEnd(lo, hi, runs, c) in runs && !runs[RunEnd(lo, hi, runs, c)].free)
    ensures forall d :: d in runs && c <= d < RunEnd(lo, hi, runs, c) ==>
        runs[d].free && d + runs[d].size <= RunEnd(lo, hi, runs, c)
    decreases hi - c
  {
    if c in runs && runs[c].free {
      assert Fits(lo, hi, c, runs[c]);
      RunEndIs(lo, hi, runs, NextRun(runs, c));
    } else if c == hi {
      assert forall d :: d in runs ==> Fits(lo, hi, d, runs[d]);
    }
  }

  lemma SwallowTiling(lo: int, hi: int, runs: map<int, Run>, b: int, e: int)
    requires Tiling(lo, hi, runs) && Stretch(lo, hi, runs, b, e)
    ensures Tiling(lo, hi, Swallow(runs, b, e))
  {
    var runs' := Swallow(runs, b, e);
    assert Fits(lo, hi, b, runs[b]);
    forall c | c in runs'
      ensures Fits(lo, hi, c, runs'[c]) && (NextRun(runs', c) == hi || NextRun(runs', c) in runs')
    {
      assert Fits(lo, hi, c, runs[c]);
      if c == b {
        assert NextRun(runs', c) == e;
      } else {
        assert NextRun(runs', c) == NextRun(runs, c);
      }
    }
  }

  /** The tag writes of hugeFree: run b now ends at e, and all its old pages are marked free. */
  ghost predicate Merged(t: Tags, t': Tags, b: int, mid: int, e: int) {
    && SameLength(t', |t.mapped|) && SameLength(t, |t.mapped|) && 0 <= b < mid <= e <= |t.mapped|
    && t'.mapped == t.mapped
    && (forall j :: 0 <= j < |t.size| && j != b && j != e - 1 ==> t'.size[j] == t.size[j])
    && t'.size[b] == e - b && t'.size[e - 1] == e - b
    && (forall j :: b <= j < mid ==> t'.isFree[j]) && t'.isFree[e - 1]
    && (forall j :: 0 <= j < |t.isFree| && !(b <= j < mid) && j != e - 1 ==> t'.isFree[j] == t.isFree[j])
  }

  lemma MergedRun(lo: int, hi: int, t: Tags, t': Tags, runs: map<int, Run>, b: int, e: int, d: int, c: int)
    requires Tiling(lo, hi, runs) && 0 <= lo && hi <= |t.mapped| && Stretch(lo, hi, runs, b, e)
    requires Merged(t, t', b, NextRun(runs, b), e)
    requires d in runs && b <= d && NextRun(runs, d) == e && Tagged(t, d, runs[d])
    requires c in Swallow(runs, b, e) && Tagged(t, c, runs[c])
    requires Tagged(t, b, runs[b])
    ensures Tagged(t', c, Swallow(runs, b, e)[c])
  {
    hide Tiling;
    RunFits(lo, hi, runs, b, c);
    RunFits(lo, hi, runs, b, d);
    if NextRun(runs, b) != hi {
      RunFits(lo, hi, runs, NextRun(runs, b), c);
    }
  }

  lemma MergedPage(lo: int, hi: int, t: Tags, t': Tags, runs: map<int, Run>, pending: set<int>, b: int, e: int, c: int,
                   j: int)
    requires Tiling(lo, hi, runs) && 0 <= lo && hi <= |t.mapped| && Stretch(lo, hi, runs, b, e)
    requires Tagging(t, runs, pending)
    requires Merged(t, t', b, NextRun(runs, b), e)
    requires Within(Swallow(runs, b, e), c, j) && 0 <= j < |t.isFree|
    ensures Swallow(runs, b, e)[c].free ==> t'.isFree[j]
    ensures !Swallow(runs, b, e)[c].free && c !in pending ==> t'.mapped[j] && !t'.isFree[j]
  {
    hide Tagged;
    assert Fits(lo, hi, b, runs[b]) && Fits(lo, hi, c, runs[c]);
    if c == b {
      if NextRun(runs, b) <= j {
        var d := RunOf(lo, hi, runs, NextRun(runs, b), j);
        assert Within(runs, d, j);
      }
    } else {
      assert Within(runs, c, j);
    }
  }

  /** Every page from run c on belongs to some run. */
  lemma {:induction false} RunOf(lo: int, hi: int, runs: map<int, Run>, c: int, j: int) returns (d: int)
    requires Tiling(lo, hi, runs) && (c in runs || c == hi) && c <= j < hi
    ensures Within(runs, d, j) && c <= d
    decreases hi - c
  {
    assert Fits(lo, hi, c, runs[c]);
    if j < NextRun(runs, c) {
      d := c;
    } else {
      d := RunOf(lo, hi, runs, NextRun(runs, c), j);
    }
  }

  /** After a release with its merge, every page of the enlarged run is marked free. */
  lemma MergedTagging(lo: int, hi: int, t: Tags, t': Tags, runs: map<int, Run>, pending: set<int>, b: int, e: int,
                      d: int)
    requires Tiling(lo, hi, runs) && 0 <= lo && hi <= |t.mapped| && Stretch(lo, hi, runs, b, e)
    requires Tagging(t, runs, pending)
    requires Merged(t, t', b, NextRun(runs, b), e)
    requires d in runs && b <= d && NextRun(runs, d) == e
    ensures Tagging(t', Swallow(runs, b, e), pending)
  {
    forall c | c in Swallow(runs, b, e)
      ensures Tagged(t', c, Swallow(runs, b, e)[c])
    {
      MergedRun(lo, hi, t, t', runs, b, e, d, c);
    }
    forall c, j | Within(Swallow(runs, b, e), c, j) && 0 <= j < |t.isFree|
      ensures Swallow(runs, b, e)[c].free ==> t'.isFree[j]
      ensures !Swallow(runs, b, e)[c].free && c !in pending ==> t'.mapped[j] && !t'.isFree[j]
    {
      MergedPage(lo, hi, t, t', runs, pending, b, e, c, j);
    }
  }

  // ----- marking pages ---------------------------------------------------------------------------------------

  /** The pages [b, i) were mapped and marked as in use. */
  ghost predicate MarkedUsed(t: Tags, t': Tags, b: int, i: int) {
    && SameLength(t, |t.mapped|) && SameLength(t', |t.mapped|) && t'.size == t.size && 0 <= b <= i <= |t.mapped|
    && (forall j :: 0 <= j < |t.mapped| ==>
        t'.mapped[j] == (t.mapped[j] || b <= j < i) && t'.isFree[j] == (t.isFree[j] && !(b <= j < i)))
  }

  lemma MarkedTagging(lo: int, hi: int, t: Tags, t': Tags, runs: map<int, Run>, pending: set<int>, b: int)
    requires Tiling(lo, hi, runs) && 0 <= lo && hi <= |t.mapped| && Tagging(t, runs, pending) && b in runs
    requires !runs[b].free
    requires MarkedUsed(t, t', b, b + runs[b].size)
    ensures Tagging(t', runs, pending - {b})
  {
    forall c | c in runs
      ensures Tagged(t', c, runs[c])
    {
      assert Tagged(t, c, runs[c]) && Fits(lo, hi, c, runs[c]);
    }
    forall c, j | Within(runs, c, j) && 0 <= j < |t.isFree|
      ensures runs[c].free ==> t'.isFree[j]
      ensures !runs[c].free && c !in pending - {b} ==> t'.mapped[j] && !t'.isFree[j]
    {
      assert c != b ==> !(b <= j < b + runs[b].size);
    }
  }

  /** A run of one page needs no marking: its tag marks it. */
  lemma OnePageMarked(t: Tags, runs: map<int, Run>, pending: set<int>, b: int)
    requires Tagging(t, runs, pending) && b in runs && runs[b].size == 1
    ensures Tagging(t, runs, pending - {b})
  {
  }

  // ----- releasing -------------------------------------------------------------------------------------------

  /** The runs strictly between b and e. */
  function Between(runs: map<int, Run>, b: int, e: int): set<int> {
    set d | d in runs && b < d < e
  }

  /** One more run joins the stretch. */
  lemma StretchGrows(lo: int, hi: int, runs: map<int, Run>, b: int, d: int)
    requires Tiling(lo, hi, runs) && d in runs && b < d && Stretch(lo, hi, runs, b, d) && runs[d].free
    ensures Stretch(lo, hi, runs, b, NextRun(runs, d))
    ensures Between(runs, b, NextRun(runs, d)) == Between(runs, b, d) + {d}
  {
  }

  /** A region in order, but for run b and the free runs up to e, which have left their lists and are about to
      become one run. */
  ghost predicate Gathered(lo: int, hi: int, t: Tags, k: Links, heads: map<int, int>, v: View, ls: map<int, seq<int>>,
                           b: int, e: int) {
    && Tiling(lo, hi, v.runs) && 0 <= lo && hi <= |t.mapped| == |k.next| && Tagging(t, v.runs, {})
    && Stretch(lo, hi, v.runs, b, e) && !v.runs[b].free
    && Listing(k, heads, View(v.runs, ls), Between(v.runs, b, e))
  }

  /** The same while the free runs right of b are taken off their lists: c is the last run taken, ls the lists now,
      e the end of the whole stretch. */
  ghost predicate Gathering(lo: int, hi: int, k: Links, heads: map<int, int>, v: View, ls: map<int, seq<int>>, b: int,
                            c: int, e: int)
    requires Tiling(lo, hi, v.runs) && b in v.runs
  {
    && c in v.runs && b <= c && Stretch(lo, hi, v.runs, b, NextRun(v.runs, c))
    && Listing(k, heads, View(v.runs, ls), Between(v.runs, b, NextRun(v.runs, c)))
    && e == RunEnd(lo, hi, v.runs, NextRun(v.runs, c))
    && Unlist(lo, hi, v.runs, ls, NextRun(v.runs, c), e) == Unlist(lo, hi, v.runs, v.lists, NextRun(v.runs, b), e)
  }

  lemma GatheringStarts(lo: int, hi: int, k: Links, heads: map<int, int>, v: View, b: int)
    requires Tiling(lo, hi, v.runs) && b in v.runs && Listing(k, heads, v, {})
    ensures Gathering(lo, hi, k, heads, v, v.lists, b, b, RunEnd(lo, hi, v.runs, NextRun(v.runs, b)))
  {
    assert Fits(lo, hi, b, v.runs[b]);
    assert Between(v.runs, b, NextRun(v.runs, b)) == {};
    assert View(v.runs, v.lists) == v;
  }

  lemma GatheringSteps(lo: int, hi: int, k: Links, heads: map<int, int>, v: View, ls: map<int, seq<int>>, b: int,
                       c: int, e: int,
                       m: int, k': Links, heads': map<int, int>)
    requires Tiling(lo, hi, v.runs) && b in v.runs && Gathering(lo, hi, k, heads, v, ls, b, c, e)
    requires m == NextRun(v.runs, c) && m in v.runs && v.runs[m].free
    requires Listing(k', heads', View(v.runs, WithoutRun(ls, v.runs[m].size, m)), Between(v.runs, b, m) + {m})
    ensures Gathering(lo, hi, k', heads', v, WithoutRun(ls, v.runs[m].size, m), b, m, e)
  {
    assert Fits(lo, hi, c, v.runs[c]) && Fits(lo, hi, m, v.runs[m]);
    StretchGrows(lo, hi, v.runs, b, m);
    RunEndIs(lo, hi, v.runs, NextRun(v.runs, m));
  }

  lemma GatheringEnds(lo: int, hi: int, k: Links, heads: map<int, int>, v: View, ls: map<int, seq<int>>, b: int, c: int,
                      e: int)
    requires Tiling(lo, hi, v.runs) && b in v.runs && Gathering(lo, hi, k, heads, v, ls, b, c, e)
    requires !(NextRun(v.runs, c) in v.runs && v.runs[NextRun(v.runs, c)].free)
    ensures e == NextRun(v.runs, c) && ls == Unlist(lo, hi, v.runs, v.lists, NextRun(v.runs, b), e)
  {
  }

  lemma ReleaseFacts(lo: int, hi: int, t: Tags, t': Tags, k: Links, heads: map<int, int>, v: View,
                     ls: map<int, seq<int>>,
                     b: int, e: int, d: int)
    requires Gathered(lo, hi, t, k, heads, v, ls, b, e)
    requires d in v.runs && b <= d && NextRun(v.runs, d) == e && Merged(t, t', b, NextRun(v.runs, b), e)
    ensures Tiling(lo, hi, Swallow(v.runs, b, e)) && Tagging(t', Swallow(v.runs, b, e), {})
    ensures Tagged(t', b, Run(e - b, true))
    ensures e - b in heads ==> 0 <= heads[e - b] < |k.next|
    ensures Listing(LinkFront(k, HeadOf(heads, e - b), b), heads[e - b := b],
        View(Swallow(v.runs, b, e), WithFront(ls, e - b, b)), {})
  {
    assert Fits(lo, hi, b, v.runs[b]);
    SwallowTiling(lo, hi, v.runs, b, e);
    MergedTagging(lo, hi, t, t', v.runs, {}, b, e, d);
    assert Swallow(v.runs, b, e)[b] == Run(e - b, true);
    ReleaseListing(k, heads, v, ls, b, e);
  }

  lemma ReleaseListing(k: Links, heads: map<int, int>, v: View, ls: map<int, seq<int>>, b: int, e: int)
    requires b in v.runs && !v.runs[b].free && b < e && 0 <= b < |k.next|
    requires Listing(k, heads, View(v.runs, ls), Between(v.runs, b, e))
    ensures e - b in heads ==> 0 <= heads[e - b] < |k.next|
    ensures Listing(LinkFront(k, HeadOf(heads, e - b), b), heads[e - b := b],
        View(Swallow(v.runs, b, e), WithFront(ls, e - b, b)), {})
  {
    RerunListing(k, heads, View(v.runs, ls), Between(v.runs, b, e), Swallow(v.runs, b, e), {b});
    AddListing(k, heads, View(Swallow(v.runs, b, e), ls), {b}, b);
    assert {b} - {b} == {};
  }

  /** The header and footer writes of coalescingOnePodRight: run b, which ended at mid, now ends at e. */
  ghost predicate Enlarged(t: Tags, t': Tags, b: int, mid: int, e: int) {
    && SameLength(t', |t.mapped|) && SameLength(t, |t.mapped|) && 0 <= b < mid <= e <= |t.mapped|
        && t'.mapped == t.mapped
    && (if e == mid then t' == t
        else t' == Tags(t.mapped, t.size[b := e - b][e - 1 := e - b], t.isFree[b := true][e - 1 := true]))
  }

  /** The pages [b, i) were marked free. */
  ghost predicate MarkedFree(t: Tags, t': Tags, b: int, i: int) {
    && SameLength(t, |t.mapped|) && SameLength(t', |t.mapped|) && t'.size == t.size && t'.mapped == t.mapped
    && (forall j :: 0 <= j < |t.mapped| ==> t'.isFree[j] == (t.isFree[j] || b <= j < i))
  }

  lemma EnlargedMerged(t: Tags, t': Tags, t'': Tags, b: int, mid: int, e: int)
    requires Enlarged(t, t', b, mid, e) && MarkedFree(t', t'', b, mid) && t.size[b] == mid - b
    requires t.size[mid - 1] == mid - b
    ensures Merged(t, t'', b, mid, e)
  {
  }

  // ----- frames -----------------------------------------------------------------------------------------------

  /** Nothing outside the pages [lo, hi] changed. */
  ghost predicate Outside(t: Tags, t': Tags, k: Links, k': Links, lo: int, hi: int) {
    && |t.mapped| == |t.size| == |t.isFree| == |k.prev| == |k.next|
    && |t'.mapped| == |t'.size| == |t'.isFree| == |k'.prev| == |k'.next| == |t.mapped|
    && (forall j :: 0 <= j < |t.mapped| && !(lo <= j <= hi) ==>
          t'.mapped[j] == t.mapped[j] && t'.size[j] == t.size[j] && t'.isFree[j] == t.isFree[j])
    && (forall j :: 0 <= j < |t.mapped| && !(lo <= j <= hi) ==> k'.prev[j] == k.prev[j] && k'.next[j] == k.next[j])
  }

  lemma HeadInside(lo: int, hi: int, k: Links, heads: map<int, int>, v: View, off: set<int>, c: int)
    requires Tiling(lo, hi, v.runs) && Listing(k, heads, v, off) && c in heads
    ensures heads[c] in v.runs && lo <= heads[c] < hi
  {
    assert ListFor(k, heads, v, off, c);
    assert Fits(lo, hi, heads[c], v.runs[heads[c]]);
  }

  lemma GatheredBounds(lo: int, hi: int, t: Tags, k: Links, heads: map<int, int>, v: View, ls: map<int, seq<int>>,
                       b: int, e: int)
    requires Gathered(lo, hi, t, k, heads, v, ls, b, e)
    ensures b in v.runs && NextRun(v.runs, b) <= e <= hi
  {
  }

  lemma ReleaseOutside(lo: int, hi: int, t: Tags, t': Tags, k: Links, k1: Links, heads: map<int, int>, v: View,
                       ls: map<int, seq<int>>, b: int, e: int)
    requires Gathered(lo, hi, t, k1, heads, v, ls, b, e) && LinksOnly(k, k1, v.runs)
    requires Merged(t, t', b, NextRun(v.runs, b), e)
    requires e - b in heads ==> 0 <= heads[e - b] < |k1.next|
    ensures Outside(t, t', k, LinkFront(k1, HeadOf(heads, e - b), b), lo, hi - 1)
  {
    hide Tagging, Listing, Stretch, Tiling;
    GatheredBounds(lo, hi, t, k1, heads, v, ls, b, e);
    RunFits(lo, hi, v.runs, b, b);
    if e - b in heads {
      HeadInside(lo, hi, k1, heads, View(v.runs, ls), Between(v.runs, b, e), e - b);
    }
    forall j | 0 <= j < |t.mapped| && !(lo <= j <= hi - 1)
      ensures j !in v.runs
    {
      if j in v.runs {
        RunFits(lo, hi, v.runs, b, j);
      }
    }
  }

  lemma AllocateOutside(lo: int, hi: int, t: Tags, k: Links, k1: Links, heads: map<int, int>, v: View, c: int, n: int,
                        b: int)
    requires Detached(lo, hi, t, k1, heads, v, c, b) && LinksOnly(k, k1, v.runs) && 1 <= n <= c
    requires 0 <= b && b + c <= hi && (n < c && c - n in heads ==> 0 <= heads[c - n] < |k1.next|)
    ensures Outside(t, SplitTags(t, b, n, c), k,
                    if n == c then k1 else LinkFront(k1, HeadOf(heads, c - n), b + n), lo, hi - 1)
  {
    hide Listing, Tagging, Tiling, SplitTags;
    RunFits(lo, hi, v.runs, b, b);
    if c - n in heads {
      HeadInside(lo, hi, k1, heads, View(v.runs, WithoutRun(v.lists, c, b)), {b}, c - n);
    }
    TaggingLength(t, v.runs, {});
    SplitSameLength(t, b, n, c);
    forall j | 0 <= j < |t.mapped| && !(lo <= j <= hi - 1)
      ensures j !in v.runs
      ensures SplitTags(t, b, n, c).mapped[j] == t.mapped[j] && SplitTags(t, b, n, c).size[j] == t.size[j]
      ensures SplitTags(t, b, n, c).isFree[j] == t.isFree[j]
    {
      SplitTagsAt(t, b, n, c, j);
      if j in v.runs {
        RunFits(lo, hi, v.runs, b, j);
      }
    }
  }
}
