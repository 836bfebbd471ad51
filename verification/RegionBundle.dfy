/** The allocators of all regions over one page table: choosing a region, growing, and routing releases. */
module RegionBundle {
  import opened RunModel
  import opened RunProofs
  import opened RunTheorems
  import opened PageRuns
  import opened Regions

  /** The number of regions that a table of count pages has room for. */
  function Arenas(count: int, l: int): int
    requires 1 <= l
  {
    count / l
  }

  lemma ArenaFits(k: int, count: int, l: int)
    requires 1 <= l && 0 <= count && 0 <= k < Arenas(count, l)
    ensures 0 <= Start(k, l) && Start(k, l) + l <= count
  {
    assert (k + 1) * l <= (count / l) * l <= count;
  }

  class TopLevelAllocatorBundle {
    const table: PodVector
    const localPodCount: int
    const maxArena: int
    var allocatedAllocators: seq<TopLevelAllocator>
    var lastAllocated: int
    var allocatorMap: map<int, int>   // by thread, the number of its region

    /** Allocator i is in charge of region i and its region is in order. */
    ghost predicate Owns(i: int)
      requires 0 <= i < |allocatedAllocators|
      reads this, table, allocatedAllocators
    {
      && allocatedAllocators[i].table == table
      && allocatedAllocators[i].from == Start(i, localPodCount)
      && allocatedAllocators[i].to == Start(i, localPodCount) + localPodCount - 1
      && allocatedAllocators[i].Valid()
    }

    ghost predicate Valid()
      reads this, table, allocatedAllocators
    {
      && table.Shape() && 1 <= localPodCount <= |table.size| && maxArena == Arenas(|table.size|, localPodCount)
      && |allocatedAllocators| <= maxArena && lastAllocated == Start(|allocatedAllocators|, localPodCount)
      && (forall i :: 0 <= i < |allocatedAllocators| ==> Owns(i))
      && (forall i, j :: 0 <= i < j < |allocatedAllocators| ==> allocatedAllocators[i] != allocatedAllocators[j])
      && (forall j :: lastAllocated <= j < |table.size| ==> table.isFree[j])
      && (forall thread :: thread in allocatorMap ==> 0 <= allocatorMap[thread] < |allocatedAllocators|)
    }

    constructor (podsPtr: PodVector, podCount: int)
      requires podsPtr.Shape() && 1 <= podCount <= |podsPtr.size|
      requires forall j :: 0 <= j < |podsPtr.size| ==> podsPtr.isFree[j]
      ensures Valid() && table == podsPtr && localPodCount == podCount && allocatedAllocators == []
    {
      table, localPodCount, maxArena := podsPtr, podCount, Arenas(|podsPtr.size|, podCount);
      allocatedAllocators, lastAllocated, allocatorMap := [], 0, map[];
    }

    /** A region is still in order after work in the pages [from, to] of other regions. */
    lemma StillOwns(i: int, t: Tags, k: Links, from: int, to: int)
      requires 0 <= i < |allocatedAllocators| && Outside(t, table.T(), k, table.K(), from, to) && table.Shape()
      requires allocatedAllocators[i].table == table && 1 <= localPodCount
      requires allocatedAllocators[i].from == Start(i, localPodCount)
      requires allocatedAllocators[i].to == Start(i, localPodCount) + localPodCount - 1
      requires 0 <= allocatedAllocators[i].from && allocatedAllocators[i].to < |t.mapped|
      requires Tiling(allocatedAllocators[i].from, allocatedAllocators[i].to + 1, allocatedAllocators[i].view.runs)
      requires Tagging(t, allocatedAllocators[i].view.runs, {})
      requires Listing(k, allocatedAllocators[i].hugePodMap, allocatedAllocators[i].view, {})
      requires allocatedAllocators[i].to < from || to < allocatedAllocators[i].from
      ensures Owns(i)
    {
      RegionFrame(allocatedAllocators[i].from, allocatedAllocators[i].to + 1, t, table.T(), k, table.K(),
                  allocatedAllocators[i].hugePodMap, allocatedAllocators[i].view, from, to);
    }

    /** addNewRegionCore: the next region of the table gets an allocator. */
    method AddNewRegionCore() returns (r: int)
      requires Valid() && |allocatedAllocators| < maxArena
      modifies this, table
      ensures Valid() && r == |old(allocatedAllocators)| && |allocatedAllocators| == r + 1
      ensures allocatedAllocators[..r] == old(allocatedAllocators) && allocatorMap == old(allocatorMap)
      ensures allocatedAllocators[r].view == OneRun(Start(r, localPodCount), localPodCount)
      ensures fresh(allocatedAllocators[r])
    {
      hide Tiling, Tagging, Listing, Start, Arenas;
      r := |allocatedAllocators|;
      StartNext(r, localPodCount);
      ArenaFits(r, |table.size|, localPodCount);
      var instance := new TopLevelAllocator(table, lastAllocated, lastAllocated + localPodCount - 1);
      allocatedAllocators := allocatedAllocators + [instance];
      lastAllocated := lastAllocated + localPodCount;
      forall i | 0 <= i < r
        ensures Owns(i)
      {
        StartsApart(i, r, localPodCount);
        assert old(Owns(i));
        StillOwns(i, old(table.T()), old(table.K()), instance.from, instance.to);
      }
    }

    /** The first region that is not locked by another thread, -1 if there is none. */
    method FirstIdle(busy: set<int>) returns (r: int)
      ensures r == -1 ==> forall i :: 0 <= i < |allocatedAllocators| ==> i in busy
      ensures r != -1 ==> 0 <= r < |allocatedAllocators| && r !in busy && forall i :: 0 <= i < r ==> i in busy
    {
      r := 0;
      while r < |allocatedAllocators|
        invariant 0 <= r <= |allocatedAllocators| && forall i :: 0 <= i < r ==> i in busy
      {
        if r !in busy {
          return;
        }
        r := r + 1;
      }
      r := -1;
    }

    /** Region r may be chosen by loopGet: the first idle one, or a new one if none is idle. */
    ghost predicate LoopChoice(busy: set<int>, r: int)
      reads this
    {
      && 0 <= r <= |allocatedAllocators| && r !in busy
      && (forall i :: 0 <= i < r ==> i in busy)
      && (r == |allocatedAllocators| ==> r < maxArena)
    }

    /** Region r is the one getTopLevelAllocator picks: the thread's own; else a new one while there is room; else
        what loopGet finds. */
    ghost predicate Choice(thread: int, lockLoopOn: bool, busy: set<int>, r: int)
      reads this
    {
      if lockLoopOn then LoopChoice(busy, r)
      else if thread in allocatorMap then r == allocatorMap[thread]
      else if |allocatedAllocators| < maxArena then r == |allocatedAllocators|
      else LoopChoice(busy, r)
    }

    /** Region r exists now: it is one of the regions there were, or a new one with all its pages free. */
    ghost predicate Ready(before: seq<TopLevelAllocator>, r: int)
      reads this, allocatedAllocators
    {
      && 0 <= r < |allocatedAllocators| && before <= allocatedAllocators
      && (r < |before| ==> allocatedAllocators == before)
      && (r >= |before| ==> |allocatedAllocators| == r + 1 == |before| + 1
                            && allocatedAllocators[r].view == OneRun(Start(r, localPodCount), localPodCount))
    }

    /** loopGet; when every region exists, it waits until one is idle. */
    method LoopGet(busy: set<int>) returns (r: int)
      requires Valid() && (forall i :: i in busy ==> 0 <= i < |allocatedAllocators|)
      requires |allocatedAllocators| == maxArena ==> exists i :: 0 <= i < maxArena && i !in busy
      modifies this, table
      ensures Valid() && old(LoopChoice(busy, r)) && Ready(old(allocatedAllocators), r)
      ensures r >= |old(allocatedAllocators)| ==> fresh(allocatedAllocators[r])
    {
      r := FirstIdle(busy);
      if r == -1 {
        r := AddNewRegionCore();
      }
    }

    /** perThreadGet; -1 when the thread has no region and there is no room for another. */
    method PerThreadGet(thread: int) returns (r: int)
      requires Valid()
      modifies this, table
      ensures Valid() && (r == -1 <==> old(thread !in allocatorMap && |allocatedAllocators| == maxArena))
      ensures r == -1 ==> allocatedAllocators == old(allocatedAllocators) && allocatorMap == old(allocatorMap)
      ensures r != -1 ==> Ready(old(allocatedAllocators), r)
      ensures r != -1 ==>
          r == if old(thread in allocatorMap) then old(allocatorMap)[thread] else |old(allocatedAllocators)|
      ensures r >= |old(allocatedAllocators)| ==> fresh(allocatedAllocators[r])
    {
      hide Tiling, Tagging, Listing, Start, Arenas;
      if thread !in allocatorMap {
        if |allocatedAllocators| < maxArena {
          ArenaFits(|allocatedAllocators|, |table.size|, localPodCount);
        }
        if lastAllocated + localPodCount - 1 > |table.size| {
          return -1;
        }
        if |allocatedAllocators| == maxArena {
          return -1;
        }
        r := AddNewRegionCore();
        assert old(allocatedAllocators) <= allocatedAllocators;
        label Added:
        allocatorMap := allocatorMap[thread := r];
        forall i | 0 <= i < |allocatedAllocators|
          ensures Owns(i)
        {
          assert old@Added(Owns(i));
        }
      } else {
        r := allocatorMap[thread];
      }
    }

    method GetTopLevelAllocator(thread: int, lockLoopOn: bool, busy: set<int>) returns (r: int)
      requires Valid() && (forall i :: i in busy ==> 0 <= i < |allocatedAllocators|)
      requires (lockLoopOn || thread !in allocatorMap) && |allocatedAllocators| == maxArena ==>
          exists i :: 0 <= i < maxArena && i !in busy
      modifies this, table
      ensures Valid() && old(Choice(thread, lockLoopOn, busy, r)) && Ready(old(allocatedAllocators), r)
      ensures r >= |old(allocatedAllocators)| ==> fresh(allocatedAllocators[r])
    {
      if !lockLoopOn {
        r := PerThreadGet(thread);
        if r == -1 {
          r := LoopGet(busy);
        }
      } else {
        r := LoopGet(busy);
      }
    }

    /** Region r, or a new region if there is none of that number, has a free run of n pages. */
    ghost predicate CanServe(r: int, n: int)
      reads this, allocatedAllocators
    {
      if 0 <= r < |allocatedAllocators| then exists d ::
          d in allocatedAllocators[r].hugePodMap && n <= d else n <= localPodCount
    }

    /** The state of region r; a region that does not exist yet is one free run. */
    ghost function ViewOf(r: int): View
      reads this, allocatedAllocators
    {
      if 0 <= r < |allocatedAllocators| then allocatedAllocators[r].view
          else OneRun(Start(r, localPodCount), localPodCount)
    }

    /** A region that is one free run offers it. */
    lemma NewServes(r: int)
      requires Valid() && 0 <= r < |allocatedAllocators|
      ensures allocatedAllocators[r].view == OneRun(Start(r, localPodCount), localPodCount) ==>
                localPodCount in allocatedAllocators[r].hugePodMap
    {
      assert Owns(r);
    }

    /** hugeMalloc with allocateNPages of the bundle: the chosen region hands out the run, the other regions keep
        theirs. */
    method HugeMalloc(thread: int, lockLoopOn: bool, busy: set<int>, n: int)
      returns (b: int, ghost r: int, ghost c: int)
      requires Valid() && 1 <= n && (forall i :: i in busy ==> 0 <= i < |allocatedAllocators|)
      requires (lockLoopOn || thread !in allocatorMap) && |allocatedAllocators| == maxArena ==>
          exists i :: 0 <= i < maxArena && i !in busy
      requires forall i :: Choice(thread, lockLoopOn, busy, i) ==> CanServe(i, n)
      modifies this, table, allocatedAllocators
      ensures Valid() && old(Choice(thread, lockLoopOn, busy, r)) && 0 <= r < |allocatedAllocators|
      ensures IsBestFit(old(ViewOf(r)).lists, n, c) && old(ViewOf(r)).lists[c] != [] && b == old(ViewOf(r)).lists[c][0]
      ensures b in old(ViewOf(r)).runs && old(ViewOf(r)).runs[b] == Run(c, true)
      ensures ViewOf(r) == Allocate(old(ViewOf(r)), n, c)
      ensures forall i :: i != r ==> ViewOf(i) == old(ViewOf(i))
      ensures old(allocatedAllocators) <= allocatedAllocators
      ensures forall i :: |old(allocatedAllocators)| <= i < |allocatedAllocators| ==> fresh(allocatedAllocators[i])
    {
      hide Tiling, Tagging, Listing, Start, Arenas, IsBestFit;
      var g := GetTopLevelAllocator(thread, lockLoopOn, busy);
      r := g;
      NewServes(r);
      b, c := WorkIn(g, n);
    }

    /** Allocation in region r */
    method WorkIn(r: int, n: int) returns (b: int, ghost c: int)
      requires Valid() && 0 <= r < |allocatedAllocators| && 1 <= n && CanServe(r, n)
      modifies table, allocatedAllocators[r]
      ensures Valid()
      ensures IsBestFit(old(ViewOf(r)).lists, n, c) && old(ViewOf(r)).lists[c] != [] && b == old(ViewOf(r)).lists[c][0]
      ensures b in old(ViewOf(r)).runs && old(ViewOf(r)).runs[b] == Run(c, true)
      ensures ViewOf(r) == Allocate(old(ViewOf(r)), n, c)
    {
      hide Tiling, Tagging, Listing, Start, Arenas, IsBestFit;
      assert Owns(r);
      StartsApart(r, |allocatedAllocators|, localPodCount);
      b, c := allocatedAllocators[r].HugeMalloc(n);
      forall i | 0 <= i < |allocatedAllocators| && i != r
        ensures Owns(i)
      {
        assert old(Owns(i));
        if i < r {
          StartsApart(i, r, localPodCount);
        } else {
          StartsApart(r, i, localPodCount);
        }
        StillOwns(i, old(table.T()), old(table.K()), allocatedAllocators[r].from, allocatedAllocators[r].to);
      }
    }

    /** Run b, held by region r, is found again by division. */
    lemma Routed(b: int, r: int)
      requires Valid() && 0 <= r < |allocatedAllocators| && b in allocatedAllocators[r].view.runs
      ensures b / localPodCount == r
    {
      assert Owns(r);
      assert Fits(allocatedAllocators[r].from, allocatedAllocators[r].to + 1, b, allocatedAllocators[r].view.runs[b]);
      RegionOf(r, b, localPodCount);
    }

    /** crossOwnershipHugeFree: the region that handed run b out gets it back, whatever thread releases it. */
    method CrossOwnershipHugeFree(b: int, ghost r: int)
      requires Valid() && 0 <= r < |allocatedAllocators|
      requires b in allocatedAllocators[r].view.runs && !allocatedAllocators[r].view.runs[b].free
      modifies table, allocatedAllocators[r]
      ensures Valid() && Tiling(allocatedAllocators[r].from, allocatedAllocators[r].to + 1, old(ViewOf(r)).runs)
      ensures ViewOf(r) == Release(allocatedAllocators[r].from, allocatedAllocators[r].to + 1, old(ViewOf(r)), b)
    {
      hide Tiling, Tagging, Listing, Start, Arenas, RunModel.Release;
      Routed(b, r);
      var region := b / localPodCount;
      assert Owns(r);
      StartsApart(r, |allocatedAllocators|, localPodCount);
      allocatedAllocators[region].HugeFree(b);
      forall i | 0 <= i < |allocatedAllocators| && i != r
        ensures Owns(i)
      {
        assert old(Owns(i));
        if i < r {
          StartsApart(i, r, localPodCount);
        } else {
          StartsApart(r, i, localPodCount);
        }
        StillOwns(i, old(table.T()), old(table.K()), allocatedAllocators[r].from, allocatedAllocators[r].to);
      }
    }
  }
}
