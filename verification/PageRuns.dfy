/** The page-run allocator of one region, working in place on the page table. */
module PageRuns {
  import opened RunModel
  import opened ListOps
  import opened RunProofs

  /** The vector of page records that all regions share: one sequence per field. */
  class PodVector {
    var mapped: seq<bool>
    var size: seq<int>      // globalSize
    var isFree: seq<bool>
    var prev: seq<int>
    var next: seq<int>

    ghost function T(): Tags
      reads this
    {
      Tags(mapped, size, isFree)
    }

    ghost function K(): Links
      reads this
    {
      Links(prev, next)
    }

    /** All fields cover the same pages, and a page without a record reads like a new record. */
    ghost predicate Shape()
      reads this
    {
      && |mapped| == |size| == |isFree| == |prev| == |next|
      && forall j :: 0 <= j < |mapped| && !mapped[j] ==> isFree[j] && size[j] == 0
    }

    constructor (count: nat)
      ensures Shape() && |mapped| == count && forall j :: 0 <= j < count ==> isFree[j]
    {
      mapped := seq(count, _ => false);
      size := seq(count, _ => 0);
      isFree := seq(count, _ => true);
      prev := seq(count, _ => NONE);
      next := seq(count, _ => NONE);
    }

    /** mapForPodI: creates the page's record unless it exists. */
    method MapForPodI(i: int)
      requires Shape() && 0 <= i < |mapped|
      modifies this`mapped
      ensures Shape() && mapped == old(mapped)[i := true]
    {
      if !mapped[i] {
        mapped := mapped[i := true];
      }
    }

    /** Writes the tag of a page that has a record. */
    method SetTag(i: int, n: int, free: bool)
      requires Shape() && 0 <= i < |mapped| && mapped[i]
      modifies this`size, this`isFree
      ensures Shape() && size == old(size)[i := n] && isFree == old(isFree)[i := free]
    {
      size := size[i := n];
      isFree := isFree[i := free];
    }
  }

  class TopLevelAllocator {
    const table: PodVector
    const from: int
    const to: int
    var hugePodMap: map<int, int>
    ghost var view: View

    /** The region is in order, but for the runs in `pending` (handed out, pages not marked yet) and the
        free runs in `off` (on no list). */
    ghost predicate Region(pending: set<int>, off: set<int>)
      reads this, table
    {
      && table.Shape() && 0 <= from <= to < |table.size|
      && Tiling(from, to + 1, view.runs)
      && Tagging(table.T(), view.runs, pending)
      && Listing(table.K(), hugePodMap, view, off)
    }

    ghost predicate Valid()
      reads this, table
    {
      Region({}, {})
    }

    /** initGlobalFreePodList: the region starts as one free run. */
    constructor (podsPtr: PodVector, iFrom: int, iTo: int)
      requires podsPtr.Shape() && 0 <= iFrom <= iTo < |podsPtr.size|
      requires forall j :: iFrom <= j <= iTo ==> podsPtr.isFree[j]
      modifies podsPtr
      ensures Valid() && table == podsPtr && from == iFrom && to == iTo
      ensures view == OneRun(iFrom, iTo - iFrom + 1)
      ensures Outside(old(podsPtr.T()), podsPtr.T(), old(podsPtr.K()), podsPtr.K(), iFrom, iTo)
    {
      table, from, to := podsPtr, iFrom, iTo;
      hugePodMap := map[];
      view := View(map[iFrom := Run(iTo - iFrom + 1, true)], map[]);
      new;
      InitGlobalFreePodList();
    }

    /** The writes of initGlobalFreePodList */
    method InitGlobalFreePodList()
      requires table.Shape() && 0 <= from <= to < |table.size| && hugePodMap == map[]
      requires forall j :: from <= j <= to ==> table.isFree[j]
      modifies this, table
      ensures Valid() && view == OneRun(from, to - from + 1)
      ensures Outside(old(table.T()), table.T(), old(table.K()), table.K(), from, to)
    {
      hide Tagged, Listing, Tagging, ListFor;
      var n := to - from + 1;
      view := View(map[from := Run(n, true)], map[]);
      TagEnds();
      StartRegion(table.T(), table.K(), from, to);
      AddListing(table.K(), hugePodMap, view, {from}, from);
      HugePodMapAddEntry(from, n);
      view := View(view.runs, WithFront(map[], n, from));
      assert {from} - {from} == {} && [from] + [] == [from];
    }

    method TagEnds()
      requires table.Shape() && 0 <= from <= to < |table.size|
      requires forall j :: from <= j <= to ==> table.isFree[j]
      modifies table
      ensures table.Shape() && |table.size| == |old(table.size)| && Tagged(table.T(), from, Run(to - from + 1, true))
      ensures forall j :: from <= j <= to ==> table.isFree[j]
      ensures Outside(old(table.T()), table.T(), old(table.K()), table.K(), from, to)
    {
      var n := to - from + 1;
      table.MapForPodI(from);
      table.MapForPodI(to);
      table.SetTag(from, n, true);
      table.prev := table.prev[from := NONE];
      table.next := table.next[from := NONE];
      table.SetTag(to, n, true);
    }

    static lemma StartRegion(t: Tags, k: Links, lo: int, hi: int)
      requires 0 <= lo <= hi < |t.mapped| && SameLength(t, |t.mapped|) && |k.prev| == |k.next| == |t.mapped|
      requires Tagged(t, lo, Run(hi - lo + 1, true)) && forall j :: lo <= j <= hi ==> t.isFree[j]
      ensures Tiling(lo, hi + 1, map[lo := Run(hi - lo + 1, true)])
      ensures Tagging(t, map[lo := Run(hi - lo + 1, true)], {})
      ensures Listing(k, map[], View(map[lo := Run(hi - lo + 1, true)], map[]), {lo})
    {
    }

    // ----- the map of free lists ------------------------------------------------------------------------

    /** hugePodMapAddEntry, with setFreeOnFooter */
    method HugePodMapAddEntry(b: int, ghost n: int)
      requires table.Shape() && Tagged(table.T(), b, Run(n, true))
      requires n in hugePodMap ==> 0 <= hugePodMap[n] < |table.size|
      modifies this`hugePodMap, table
      ensures table.Shape() && table.T() == old(table.T())
      ensures hugePodMap == old(hugePodMap)[n := b]
      ensures table.K() == LinkFront(old(table.K()), HeadOf(old(hugePodMap), n), b)
    {
      var c := table.size[b];
      if c !in hugePodMap {
        hugePodMap := hugePodMap[c := b];
        table.prev := table.prev[b := NONE];
        table.next := table.next[b := NONE];
      } else {
        var h := hugePodMap[c];
        table.next := table.next[b := h];
        table.prev := table.prev[h := b];
        table.prev := table.prev[b := NONE];
        hugePodMap := hugePodMap[c := b];
      }
      var footer := b + table.size[b] - 1;
      table.MapForPodI(footer);
      table.SetTag(footer, table.size[b], true);
    }

    /** A run that is not the first of its list is taken out between its neighbours. */
    method UnlinkRun(b: int)
      requires table.Shape() && 0 <= b < |table.size|
      requires table.prev[b] != NONE ==> 0 <= table.prev[b] < |table.size|
      requires table.next[b] != NONE ==> 0 <= table.next[b] < |table.size|
      modifies table`prev, table`next
      ensures table.Shape() && table.K() == Unlink(old(table.K()), b)
    {
      if table.prev[b] != NONE {
        table.next := table.next[table.prev[b] := table.next[b]];
      }
      if table.next[b] != NONE {
        table.prev := table.prev[table.next[b] := table.prev[b]];
      }
    }

    /** hugePodMapRemoveEntry */
    method HugePodMapRemoveEntry(b: int, ghost v: View, ghost off: set<int>, ghost i: int)
      requires Listing(table.K(), hugePodMap, v, off) && 0 <= b < |table.size| && table.Shape()
      requires table.size[b] in v.lists && 0 <= i < |v.lists[table.size[b]]| && v.lists[table.size[b]][i] == b
      modifies this`hugePodMap, table`prev, table`next
      ensures Listing(table.K(), hugePodMap, View(v.runs, WithoutRun(v.lists, table.size[b], b)), off + {b})
      ensures table.Shape() && LinksOnly(old(table.K()), table.K(), v.runs)
    {
      hide Listed;
      var c := table.size[b];
      ghost var k, heads := table.K(), hugePodMap;
      RemoveFacts(k, heads, v, off, c, i);
      var h := hugePodMap[c];
      if h != b {
        UnlinkRun(b);
        assert hugePodMap == heads[c := Drop(v.lists[c], i)[0]];
      } else if table.next[b] == NONE {
        hugePodMap := hugePodMap - {c};
      } else {
        hugePodMap := hugePodMap[c := table.next[b]];
        table.prev := table.prev[table.next[b] := NONE];
        table.next := table.next[b := NONE];
        ResetNext(k, Unlink(k, b), v, off, heads, c, i);
        assert table.K() == Links(Unlink(k, b).prev, Unlink(k, b).next[b := NONE]);
      }
      RemoveListing(k, table.K(), heads, hugePodMap, v, off, c, i);
    }

    static lemma RemoveFacts(k: Links, heads: map<int, int>, v: View, off: set<int>, c: int, i: int)
      requires Listing(k, heads, v, off) && c in v.lists && 0 <= i < |v.lists[c]|
      ensures c in heads && heads[c] == v.lists[c][0] && 0 <= v.lists[c][i] < |k.prev| == |k.next|
      ensures (k.prev[v.lists[c][i]] != NONE ==> 0 <= k.prev[v.lists[c][i]] < |k.next|)
              && (k.next[v.lists[c][i]] != NONE ==> 0 <= k.next[v.lists[c][i]] < |k.next|)
      ensures v.lists[c][i] == v.lists[c][0] <==> i == 0
      ensures k.prev[v.lists[c][i]] == NONE <==> i == 0
      ensures k.next[v.lists[c][i]] == NONE <==> i == |v.lists[c]| - 1
      ensures i == 0 && |v.lists[c]| > 1 ==> k.next[v.lists[c][i]] == Drop(v.lists[c], i)[0]
      ensures i > 0 ==> Drop(v.lists[c], i)[0] == v.lists[c][0]
      ensures LinksOnly(k, Unlink(k, v.lists[c][i]), v.runs) && v.lists[c][i] in v.runs
      ensures OthersKept(k, Unlink(k, v.lists[c][i]), v, c) && Linked(Unlink(k, v.lists[c][i]), Drop(v.lists[c], i))
    {
      assert ListFor(k, heads, v, off, c);
      LinkedAt(k, v.lists[c], i);
      UnlinkOthers(k, heads, v, off, c, i);
      UnlinkLinked(k, v.lists[c], i);
    }

    // ----- allocateNPages ---------------------------------------------------------------------------------

    /** The head of the list for length c leaves the list. */
    method PopHead(c: int, ghost v: View) returns (b: int)
      requires Listing(table.K(), hugePodMap, v, {}) && c in v.lists && table.Shape() && |table.size| == |table.next|
      modifies this`hugePodMap, table`prev, table`next
      ensures v.lists[c] != [] && b == v.lists[c][0] && table.Shape() && LinksOnly(old(table.K()), table.K(), v.runs)
      ensures Listing(table.K(), hugePodMap, View(v.runs, WithoutRun(v.lists, c, b)), {b})
    {
      ghost var k, heads := table.K(), hugePodMap;
      assert ListFor(k, heads, v, {}, c);
      RemoveFacts(k, heads, v, {}, c, 0);
      b := hugePodMap[c];
      var freeHead := table.next[b];
      if table.next[b] != NONE {
        table.prev := table.prev[freeHead := NONE];
      }
      if freeHead == NONE {
        hugePodMap := hugePodMap - {c};
      } else {
        hugePodMap := hugePodMap[c := freeHead];
      }
      assert table.K() == Unlink(k, b);
      RemoveListing(k, table.K(), heads, hugePodMap, v, {}, c, 0);
      assert {} + {b} == {b};
    }

    /** The tag writes for a run of n pages at b. */
    method WriteTag(b: int, n: int, free: bool)
      requires table.Shape() && 0 <= b && 1 <= n && b + n <= |table.size|
      modifies table`mapped, table`size, table`isFree
      ensures table.Shape() && table.T() == TagRun(old(table.T()), b, n, free)
    {
      table.MapForPodI(b);
      table.SetTag(b, n, free);
      if n > 1 {
        table.MapForPodI(b + n - 1);
        table.SetTag(b + n - 1, n, free);
      }
    }

    /** The tag writes of allocateNPages on the run of s pages at b. */
    method TagSplit(b: int, n: int, s: int)
      requires table.Shape() && 0 <= b && 1 <= n <= s && b + s <= |table.size|
      modifies table`mapped, table`size, table`isFree
      ensures table.Shape() && table.T() == SplitTags(old(table.T()), b, n, s)
    {
      WriteTag(b, n, false);
      if s - n > 0 {
        WriteTag(b + n, s - n, true);
      }
    }

    /** The smallest free run of at least n pages leaves its list. */
    method Detach(n: int) returns (c: int, b: int)
      requires Valid() && exists d :: d in hugePodMap && n <= d
      modifies this`hugePodMap, table`prev, table`next
      ensures IsBestFit(view.lists, n, c) && table.Shape() && 0 <= from <= to < |table.size|
      ensures LinksOnly(old(table.K()), table.K(), view.runs)
      ensures Detached(from, to + 1, table.T(), table.K(), hugePodMap, view, c, b)
    {
      c := LowerBound(hugePodMap, n);
      assert ListFor(table.K(), hugePodMap, view, {}, c);
      b := PopHead(c, view);
    }

    /** The tagged free run b of n pages goes on its list, which completes the region's new state v. */
    method AddRest(b: int, ghost n: int, ghost v: View, ghost pending: set<int>)
      requires table.Shape() && 0 <= from <= to < |table.size| && Tagged(table.T(), b, Run(n, true))
      requires n in hugePodMap ==> 0 <= hugePodMap[n] < |table.size|
      requires Tiling(from, to + 1, v.runs) && Tagging(table.T(), v.runs, pending)
      requires Listing(LinkFront(table.K(), HeadOf(hugePodMap, n), b), hugePodMap[n := b], v, {})
      modifies this, table
      ensures Region(pending, {}) && view == v && table.T() == old(table.T())
      ensures table.K() == LinkFront(old(table.K()), HeadOf(old(hugePodMap), n), b)
    {
      HugePodMapAddEntry(b, n);
      view := v;
    }

    static lemma DetachedFacts(lo: int, hi: int, t: Tags, k: Links, heads: map<int, int>, v: View, c: int, b: int)
      requires Detached(lo, hi, t, k, heads, v, c, b)
      ensures c in v.lists && v.lists[c] != [] && v.lists[c][0] == b && b in v.runs && v.runs[b] == Run(c, true)
    {
    }

    /** The run b of s pages, just taken off its list, is cut to n pages and the rest goes on a list. */
    method Cut(b: int, n: int, s: int, ghost k: Links)
      requires table.Shape() && 0 <= from <= to < |table.size| && 1 <= n <= s && LinksOnly(k, table.K(), view.runs)
      requires Detached(from, to + 1, table.T(), table.K(), hugePodMap, view, s, b)
      modifies this, table
      ensures Region({b}, {}) && view == Allocate(old(view), n, s)
      ensures Outside(old(table.T()), table.T(), k, table.K(), from, to)
    {
      hide Tiling, Tagging, Listing, Outside, LinksOnly, Detached, SplitTags;
      DetachedFacts(from, to + 1, table.T(), table.K(), hugePodMap, view, s, b);
      AllocateFacts(from, to + 1, table.T(), table.K(), hugePodMap, view, s, n, b);
      AllocateOutside(from, to + 1, table.T(), k, table.K(), hugePodMap, view, s, n, b);
      ghost var v' := Allocate(view, n, s);
      TagSplit(b, n, s);
      if n < s {
        AddRest(b + n, s - n, v', {b});
      } else {
        view := v';
      }
    }

    /** allocateNPages: the smallest free run that is large enough, cut to size. */
    method AllocateNPages(n: int) returns (b: int, ghost c: int)
      requires Valid() && 0 <= n && (n > 0 ==> exists d :: d in hugePodMap && n <= d)
      modifies this, table
      ensures n == 0 ==> b == NONE && Valid() && view == old(view)
      ensures n > 0 ==> IsBestFit(old(view).lists, n, c) && old(view).lists[c] != [] && b == old(view).lists[c][0]
      ensures n > 0 ==> b in old(view).runs && old(view).runs[b] == Run(c, true)
      ensures n > 0 ==> Region({b}, {}) && view == Allocate(old(view), n, c)
      ensures Outside(old(table.T()), table.T(), old(table.K()), table.K(), from, to)
    {
      c := 0;
      if n == 0 {
        return NONE, 0;
      }
      var s;
      ghost var k := table.K();
      s, b := Detach(n);
      c := s;
      Cut(b, n, s, k);
    }

    /** The loop of hugeMalloc over the pages of the new run: every page gets a record and is marked in use. */
    method MarkPages(b: int)
      requires table.Shape() && 0 <= b < |table.size| && 0 <= table.size[b] && b + table.size[b] <= |table.size|
      modifies table
      ensures table.Shape() && table.K() == old(table.K())
      ensures MarkedUsed(old(table.T()), table.T(), b, b + old(table.size)[b])
    {
      ghost var t := table.T();
      var i := b;
      while i < b + table.size[b]
        invariant table.Shape() && table.size == old(table.size) && b <= i <= b + table.size[b]
        invariant table.K() == old(table.K()) && MarkedUsed(t, table.T(), b, i)
      {
        table.MapForPodI(i);
        table.isFree := table.isFree[i := false];
        i := i + 1;
      }
    }

    static lemma MarkedOutside(t: Tags, t': Tags, k: Links, b: int, e: int, lo: int, hi: int)
      requires MarkedUsed(t, t', b, e) && |k.prev| == |k.next| == |t.mapped| && lo <= b && e <= hi + 1
      ensures Outside(t, t', k, k, lo, hi)
    {
    }

    static lemma TaggedAt(t: Tags, runs: map<int, Run>, pending: set<int>, b: int)
      requires Tagging(t, runs, pending) && b in runs
      ensures Tagged(t, b, runs[b])
    {
    }

    /** The pages of the new run are in use. */
    method MarkUsed(b: int)
      requires Region({b}, {}) && b in view.runs && !view.runs[b].free
      modifies table
      ensures Valid() && Outside(old(table.T()), table.T(), old(table.K()), table.K(), from, to)
    {
      hide Tiling, Tagging, Listing, Outside, MarkedUsed;
      ghost var t := table.T();
      RunFits(from, to + 1, view.runs, b, b);
      TaggedAt(t, view.runs, {b}, b);
      MarkPages(b);
      MarkedTagging(from, to + 1, t, table.T(), view.runs, {b}, b);
      MarkedOutside(t, table.T(), table.K(), b, b + view.runs[b].size, from, to);
      assert {b} - {b} == {};
    }

    /** hugeMalloc on the region that was chosen: a run of n pages, every page mapped and marked in use. */
    method HugeMalloc(n: int) returns (b: int, ghost c: int)
      requires Valid() && 1 <= n && exists d :: d in hugePodMap && n <= d
      modifies this, table
      ensures IsBestFit(old(view).lists, n, c) && old(view).lists[c] != [] && b == old(view).lists[c][0]
      ensures b in old(view).runs && old(view).runs[b] == Run(c, true)
      ensures Valid() && view == Allocate(old(view), n, c)
      ensures Outside(old(table.T()), table.T(), old(table.K()), table.K(), from, to)
    {
      hide Tiling, Tagging, Listing, IsBestFit;
      b, c := AllocateNPages(n);
      MarkUsed(b);
    }

    // ----- hugeFree -------------------------------------------------------------------------------------------

    /** A listed free run leaves its list. */
    method RemoveListed(d: int, ghost v: View, ghost off: set<int>)
      requires table.Shape() && Listing(table.K(), hugePodMap, v, off)
      requires d in v.runs && v.runs[d].free && d !in off && Tagged(table.T(), d, v.runs[d])
      modifies this`hugePodMap, table`prev, table`next
      ensures Listing(table.K(), hugePodMap, View(v.runs, WithoutRun(v.lists, v.runs[d].size, d)), off + {d})
      ensures table.Shape() && LinksOnly(old(table.K()), table.K(), v.runs)
    {
      assert Listed(v, d);
      ghost var i :| 0 <= i < |v.lists[v.runs[d].size]| && v.lists[v.runs[d].size][i] == d;
      HugePodMapRemoveEntry(d, v, off, i);
    }

    /** One round of coalescingOnePodRight: the free run right of run c leaves its list. */
    method GatherOne(ghost b: int, ghost c: int, m: int, ghost ls: map<int, seq<int>>, ghost e: int)
      requires table.Shape() && Tiling(from, to + 1, view.runs) && b in view.runs
      requires Gathering(from, to + 1, table.K(), hugePodMap, view, ls, b, c, e)
      requires m == NextRun(view.runs, c) && m in view.runs && view.runs[m].free && Tagged(table.T(), m, view.runs[m])
      modifies this`hugePodMap, table`prev, table`next
      ensures table.Shape()
      ensures Gathering(from, to + 1, table.K(), hugePodMap, view, WithoutRun(ls, view.runs[m].size, m), b, m, e)
      ensures LinksOnly(old(table.K()), table.K(), view.runs)
    {
      ghost var k, heads := table.K(), hugePodMap;
      RemoveListed(m, View(view.runs, ls), Between(view.runs, b, m));
      GatheringSteps(from, to + 1, k, heads, view, ls, b, c, e, m, table.K(), hugePodMap);
    }

    static lemma NextHeader(lo: int, hi: int, t: Tags, runs: map<int, Run>, c: int)
      requires Tiling(lo, hi, runs) && 0 <= lo && hi <= |t.mapped| && Tagging(t, runs, {}) && c in runs
      ensures 0 <= c < hi && c < NextRun(runs, c) <= hi && Tagged(t, c, runs[c])
      ensures NextRun(runs, c) < hi ==> NextRun(runs, c) in runs && Tagged(t, NextRun(runs, c), runs[NextRun(runs, c)])
      ensures hi !in runs
    {
    }

    /** The loop of coalescingOnePodRight: the free runs right of run b leave their lists, up to the end e of the
        stretch; d is the last run of the stretch (b itself when there is none). */
    method GatherRight(b: int) returns (freedSize: int, ghost e: int, ghost d: int, ghost ls: map<int, seq<int>>)
      requires Valid() && b in view.runs && !view.runs[b].free
      modifies this`hugePodMap, table`prev, table`next
      ensures table.Shape() && LinksOnly(old(table.K()), table.K(), view.runs)
      ensures Gathered(from, to + 1, table.T(), table.K(), hugePodMap, view, ls, b, e)
      ensures e == RunEnd(from, to + 1, view.runs, NextRun(view.runs, b)) && freedSize == e - NextRun(view.runs, b)
      ensures ls == Unlist(from, to + 1, view.runs, view.lists, NextRun(view.runs, b), e)
      ensures d in view.runs && b <= d && NextRun(view.runs, d) == e
    {
      hide Tiling, Tagging, Listing, Stretch;
      var currI := b;
      freedSize := 0;
      ls := view.lists;
      e := RunEnd(from, to + 1, view.runs, NextRun(view.runs, b));
      GatheringStarts(from, to + 1, table.K(), hugePodMap, view, b);
      while true
        invariant table.Shape() && Gathering(from, to + 1, table.K(), hugePodMap, view, ls, b, currI, e)
        invariant LinksOnly(old(table.K()), table.K(), view.runs)
        invariant freedSize == NextRun(view.runs, currI) - NextRun(view.runs, b)
        decreases this.to - currI
      {
        NextHeader(from, to + 1, table.T(), view.runs, currI);
        var nextHeaderI := currI + table.size[currI];
        if nextHeaderI > to || nextHeaderI >= |table.size| || !table.mapped[nextHeaderI] || !table.isFree[nextHeaderI] {
          break;
        }
        freedSize := freedSize + table.size[nextHeaderI];
        GatherOne(b, currI, nextHeaderI, ls, e);
        ls := WithoutRun(ls, view.runs[nextHeaderI].size, nextHeaderI);
        currI := nextHeaderI;
      }
      d := currI;
      GatheringEnds(from, to + 1, table.K(), hugePodMap, view, ls, b, d, e);
    }

    /** coalescingOnePodRight: run b takes over the free runs to its right; header and footer get the new length. */
    method CoalescingOnePodRight(b: int) returns (ghost e: int, ghost d: int, ghost ls: map<int, seq<int>>)
      requires Valid() && b in view.runs && !view.runs[b].free
      modifies this`hugePodMap, table
      ensures table.Shape() && LinksOnly(old(table.K()), table.K(), view.runs)
      ensures Gathered(from, to + 1, old(table.T()), table.K(), hugePodMap, view, ls, b, e)
      ensures e == RunEnd(from, to + 1, view.runs, NextRun(view.runs, b))
      ensures ls == Unlist(from, to + 1, view.runs, view.lists, NextRun(view.runs, b), e)
      ensures d in view.runs && b <= d && NextRun(view.runs, d) == e
      ensures Enlarged(old(table.T()), table.T(), b, NextRun(view.runs, b), e)
    {
      hide Tiling, Tagging, Listing, LinksOnly;
      NextHeader(from, to + 1, table.T(), view.runs, b);
      var freedSize;
      freedSize, e, d, ls := GatherRight(b);
      if freedSize == 0 {
        return;
      }
      NextHeader(from, to + 1, table.T(), view.runs, d);
      EnlargeHeader(b, freedSize, NextRun(view.runs, b));
    }

    method EnlargeHeader(b: int, freedSize: int, ghost mid: int)
      requires table.Shape() && 0 <= b < mid && freedSize > 0 && mid + freedSize <= |table.size|
      requires table.mapped[b] && table.size[b] == mid - b && table.mapped[mid + freedSize - 1]
      modifies table`size, table`isFree
      ensures table.Shape() && Enlarged(old(table.T()), table.T(), b, mid, mid + freedSize)
    {
      var newSize := freedSize + table.size[b];
      table.SetTag(b, newSize, true);
      if newSize > 1 {
        table.SetTag(b + newSize - 1, newSize, true);
      }
    }

    /** The loop of hugeFree over the old pages of the run. */
    method MarkFree(b: int, oldSize: int)
      requires table.Shape() && 0 <= b && 0 <= oldSize && b + oldSize <= |table.size|
      modifies table`isFree
      ensures table.Shape() && MarkedFree(old(table.T()), table.T(), b, b + oldSize)
    {
      var i := b;
      while i < b + oldSize
        invariant table.Shape() && b <= i <= b + oldSize && MarkedFree(old(table.T()), table.T(), b, i)
      {
        table.isFree := table.isFree[i := true];
        i := i + 1;
      }
    }

    static lemma GatheredFacts(lo: int, hi: int, t: Tags, k: Links, heads: map<int, int>, v: View,
                               ls: map<int, seq<int>>, b: int, e: int)
      requires Gathered(lo, hi, t, k, heads, v, ls, b, e)
      ensures b in v.runs && Tagged(t, b, v.runs[b]) && b + v.runs[b].size <= e <= hi <= |t.mapped|
    {
    }

    /** The end of hugeFree: the pages of run b are marked free and the enlarged run is listed. */
    method FinishFree(b: int, oldSize: int, ghost t: Tags, ghost k: Links, ghost e: int, ghost d: int,
                      ghost ls: map<int, seq<int>>)
      requires table.Shape() && 0 <= from <= to < |table.size| && LinksOnly(k, table.K(), view.runs)
      requires Gathered(from, to + 1, t, table.K(), hugePodMap, view, ls, b, e) && oldSize == view.runs[b].size
      requires d in view.runs && b <= d && NextRun(view.runs, d) == e
      requires Enlarged(t, table.T(), b, NextRun(view.runs, b), e)
      modifies this, table
      ensures Valid() && view == View(Swallow(old(view).runs, b, e), WithFront(ls, e - b, b))
      ensures Outside(t, table.T(), k, table.K(), from, to)
    {
      hide Tiling, Tagging, Listing, Outside, LinksOnly, Gathered, Merged, MarkedFree, Enlarged;
      GatheredFacts(from, to + 1, t, table.K(), hugePodMap, view, ls, b, e);
      ghost var t1 := table.T();
      MarkFree(b, oldSize);
      EnlargedMerged(t, t1, table.T(), b, NextRun(view.runs, b), e);
      ReleaseFacts(from, to + 1, t, table.T(), table.K(), hugePodMap, view, ls, b, e, d);
      ReleaseOutside(from, to + 1, t, table.T(), k, table.K(), hugePodMap, view, ls, b, e);
      AddRest(b, e - b, View(Swallow(view.runs, b, e), WithFront(ls, e - b, b)), {});
    }

    /** hugeFree: run b and the free runs to its right become one free run at the front of its list. */
    method HugeFree(b: int)
      requires Valid() && b in view.runs && !view.runs[b].free
      modifies this, table
      ensures Valid() && view == Release(from, to + 1, old(view), b)
      ensures Outside(old(table.T()), table.T(), old(table.K()), table.K(), from, to)
    {
      hide Gathered, Tiling, Tagging, Listing, Outside, LinksOnly;
      ghost var t, k := table.T(), table.K();
      NextHeader(from, to + 1, t, view.runs, b);
      var oldSize := table.size[b];
      ghost var e, d, ls := CoalescingOnePodRight(b);
      FinishFree(b, oldSize, t, k, e, d, ls);
    }
  }
}
