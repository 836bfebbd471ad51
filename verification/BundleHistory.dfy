/** Whole runs of page-run allocation and release over all regions, by any threads, against plain bookkeeping of what
    each region has handed out. */
module BundleHistory {
  import opened RunModel
  import opened RunTheorems
  import opened RunHistory
  import opened PageRuns
  import opened Regions
  import opened RegionBundle

  /** A request of a thread, with the regions that other threads hold locked, or the release of a run. */
  datatype Call = Request(thread: int, lockLoopOn: bool, busy: set<int>, pages: int) | GiveBack(first: int)

  /** By region, the runs handed out: first page and number of pages. */
  type Held = map<int, map<int, int>>

  /** No region of count has handed out anything. */
  function Nothing(count: nat): (held: Held)
    ensures forall r :: (r in held <==> 0 <= r < count) && (r in held ==> held[r] == map[])
  {
    if count == 0 then map[] else Nothing(count - 1)[count - 1 := map[]]
  }

  /** The pages [b, b + n) belong to no run that any region has handed out. */
  ghost predicate ApartAll(held: Held, b: int, n: int) {
    forall r :: r in held ==> Apart(held[r], b, n)
  }

  /** One step of the bookkeeping.  A request that is served gets a run inside one region, apart from all runs that any
      region has handed out.  A run that is given back leaves the region that handed it out, which is the one its first
      page lies in; any other release is refused. */
  ghost predicate BundleStep(l: int, held: Held, call: Call, answer: int, held': Held)
    requires 1 <= l
  {
    match call
    case Request(_, _, _, n) =>
      if answer == NONE then held' == held
      else
        && 1 <= n && answer / l in held && Start(answer / l, l) <= answer && answer + n <= Start(answer / l, l) + l
        && ApartAll(held, answer, n) && held' == held[answer / l := held[answer / l][answer := n]]
    case GiveBack(b) =>
      if b / l in held && b in held[b / l] then answer == b && held' == held[b / l := held[b / l] - {b}]
      else answer == NONE && held' == held
  }

  ghost predicate BundleRun(l: int, calls: seq<Call>, answers: seq<int>, helds: seq<Held>)
    requires 1 <= l
  {
    && |answers| == |calls| && |helds| == |calls| + 1
    && forall k :: 0 <= k < |calls| ==> BundleStep(l, helds[k], calls[k], answers[k], helds[k + 1])
  }

  /** No two runs that are handed out share a page, whatever their regions. */
  ghost predicate Disjoint(held: Held) {
    forall r, b, r', c :: r in held && b in held[r] && r' in held && c in held[r'] && (r, b) != (r', c) ==>
        b + held[r][b] <= c || c + held[r'][c] <= b
  }

  lemma StepDisjoint(l: int, held: Held, call: Call, answer: int, held': Held)
    requires 1 <= l && BundleStep(l, held, call, answer, held') && Disjoint(held)
    ensures Disjoint(held')
  {
    if call.Request? && answer != NONE {
      forall r, b | r in held' && b in held'[r] && (r, b) != (answer / l, answer)
        ensures r in held && b in held[r] && held'[r][b] == held[r][b]
        ensures answer + call.pages <= b || b + held[r][b] <= answer
      {
        assert Apart(held[r], answer, call.pages);
      }
    }
  }

  lemma {:induction false} NeverShared(l: int, calls: seq<Call>, answers: seq<int>, helds: seq<Held>, k: nat)
    requires 1 <= l && BundleRun(l, calls, answers, helds) && k <= |calls| && Disjoint(helds[0])
    ensures Disjoint(helds[k])
  {
    hide Disjoint, BundleStep;
    if k > 0 {
      NeverShared(l, calls, answers, helds, k - 1);
      StepDisjoint(l, helds[k - 1], calls[k - 1], answers[k - 1], helds[k]);
    }
  }

  lemma BundleGrows(l: int, calls: seq<Call>, answers: seq<int>, helds: seq<Held>, call: Call, answer: int, held: Held)
    requires 1 <= l && BundleRun(l, calls, answers, helds) && BundleStep(l, helds[|calls|], call, answer, held)
    ensures BundleRun(l, calls + [call], answers + [answer], helds + [held])
  {
  }

  /** The bookkeeping has for every region, used or not, exactly its runs in use. */
  ghost predicate Tracked(all: TopLevelAllocatorBundle, held: Held)
    reads all, all.allocatedAllocators
  {
    forall r :: (r in held <==> 0 <= r < all.maxArena) && (r in held ==> held[r] == Live(all.ViewOf(r).runs))
  }

  /** Every region is tiled by its runs, one that is not used yet as well. */
  lemma RegionTiled(all: TopLevelAllocatorBundle, r: int)
    requires all.Valid() && 0 <= r
    ensures 1 <= all.localPodCount
    ensures Tiling(Start(r, all.localPodCount), Start(r, all.localPodCount) + all.localPodCount, all.ViewOf(r).runs)
  {
    if r < |all.allocatedAllocators| {
      assert all.Owns(r);
    } else {
      var v := OneRun(Start(r, all.localPodCount), all.localPodCount);
      assert NextRun(v.runs, Start(r, all.localPodCount)) == Start(r, all.localPodCount) + all.localPodCount;
    }
  }

  /** The runs in use of another region lie apart from the pages of region r. */
  lemma OtherApart(i: int, r: int, l: int, runs: map<int, Run>, b: int, n: int)
    requires 0 <= i && 0 <= r && i != r && 1 <= l && Tiling(Start(i, l), Start(i, l) + l, runs)
    requires Start(r, l) <= b && b + n <= Start(r, l) + l
    ensures Apart(Live(runs), b, n)
  {
    if i < r {
      StartsApart(i, r, l);
    } else {
      StartsApart(r, i, l);
    }
    forall c | c in Live(runs)
      ensures b + n <= c || c + Live(runs)[c] <= b
    {
      assert Fits(Start(i, l), Start(i, l) + l, c, runs[c]);
    }
  }

  /** What the regions look like, against the bookkeeping. */
  ghost predicate Snapshot(l: int, views: map<int, map<int, Run>>, held: Held) {
    1 <= l && forall r :: r in held ==>
        0 <= r && r in views && held[r] == Live(views[r]) && Tiling(Start(r, l), Start(r, l) + l, views[r])
  }

  lemma Taken(all: TopLevelAllocatorBundle, held: Held) returns (views: map<int, map<int, Run>>)
    requires all.Valid() && Tracked(all, held)
    ensures Snapshot(all.localPodCount, views, held) && forall r :: r in held ==> views[r] == all.ViewOf(r).runs
  {
    hide Tiling, Live, Start;
    views := map r | 0 <= r < all.maxArena :: all.ViewOf(r).runs;
    forall r | r in held
      ensures 1 <= all.localPodCount
      ensures Tiling(Start(r, all.localPodCount), Start(r, all.localPodCount) + all.localPodCount, views[r])
    {
      RegionTiled(all, r);
    }
  }

  /** The run that region r cuts from its list for length c is apart from all others, and division finds region r. */
  lemma ServedApart(l: int, views: map<int, map<int, Run>>, held: Held, r: int, v: View, n: int, c: int, b: int)
    requires Snapshot(l, views, held) && r in held && views[r] == v.runs && c in v.lists && v.lists[c] != []
    requires v.lists[c][0] == b && b in v.runs && v.runs[b] == Run(c, true) && 1 <= n <= c
    ensures 0 <= b && b / l == r && Start(r, l) <= b && b + n <= Start(r, l) + l && ApartAll(held, b, n)
    ensures Live(Allocate(v, n, c).runs) == held[r][b := n]
  {
    hide Tiling, Live, Start, Apart;
    NewRunApart(Start(r, l), Start(r, l) + l, v.runs, b, n);
    AllocateLive(Start(r, l), Start(r, l) + l, v, n, c);
    StartsApart(r, r + 1, l);
    RegionOf(r, b, l);
    forall i | i in held && i != r
      ensures Apart(held[i], b, n)
    {
      OtherApart(i, r, l, views[i], b, n);
    }
  }

  /** The region that getTopLevelAllocator will pick, -1 if it will wait for one to become idle. */
  method Chosen(all: TopLevelAllocatorBundle, thread: int, lockLoopOn: bool, busy: set<int>) returns (r: int)
    requires all.Valid() && forall i :: i in busy ==> 0 <= i < |all.allocatedAllocators|
    ensures r == -1 ==> forall i :: !all.Choice(thread, lockLoopOn, busy, i)
    ensures r != -1 ==> 0 <= r < all.maxArena && forall i :: all.Choice(thread, lockLoopOn, busy, i) <==> i == r
    ensures (lockLoopOn || thread !in all.allocatorMap) && |all.allocatedAllocators| == all.maxArena ==> r !in busy
  {
    hide Tiling, Tagging, Listing, Start, Arenas;
    if !lockLoopOn && thread in all.allocatorMap {
      return all.allocatorMap[thread];
    }
    if !lockLoopOn && |all.allocatedAllocators| < all.maxArena {
      return |all.allocatedAllocators|;
    }
    r := all.FirstIdle(busy);
    if r == -1 && |all.allocatedAllocators| < all.maxArena {
      r := |all.allocatedAllocators|;
    }
  }

  /** The region that will be picked has a free run of n pages. */
  method Serves(all: TopLevelAllocatorBundle, r: int, n: int) returns (yes: bool)
    requires all.Valid() && 0 <= r < all.maxArena
    ensures yes <==> all.CanServe(r, n)
  {
    if r < |all.allocatedAllocators| {
      yes := exists d :: d in all.allocatedAllocators[r].hugePodMap && n <= d;
    } else {
      yes := n <= all.localPodCount;
    }
  }

  /** A request that can be made: some region is idle or can be added, and the one picked has a run that is long
      enough. */
  ghost predicate CanAsk(all: TopLevelAllocatorBundle, call: Call)
    requires call.Request?
    reads all, all.allocatedAllocators
  {
    && 1 <= call.pages && (forall i :: i in call.busy ==> 0 <= i < |all.allocatedAllocators|)
    && exists i :: all.Choice(call.thread, call.lockLoopOn, call.busy, i) && all.CanServe(i, call.pages)
  }

  /** The region that will serve the request, -1 if the request cannot be made. */
  method Pick(all: TopLevelAllocatorBundle, call: Call) returns (r: int)
    requires all.Valid() && call.Request?
    ensures r != -1 <==> CanAsk(all, call)
    ensures r != -1 ==> 0 <= r < all.maxArena && all.CanServe(r, call.pages)
    ensures r != -1 ==> forall i :: all.Choice(call.thread, call.lockLoopOn, call.busy, i) <==> i == r
    ensures r != -1 && |all.allocatedAllocators| == all.maxArena ==>
        (call.lockLoopOn || call.thread !in all.allocatorMap ==> r !in call.busy)
  {
    hide TopLevelAllocatorBundle.Choice, TopLevelAllocatorBundle.CanServe, TopLevelAllocatorBundle.Valid;
    if call.pages < 1 || !(forall i :: i in call.busy ==> 0 <= i < |all.allocatedAllocators|) {
      return -1;
    }
    r := Chosen(all, call.thread, call.lockLoopOn, call.busy);
    if r != -1 {
      var serves := Serves(all, r, call.pages);
      if !serves {
        r := -1;
      }
    }
  }

  /** One request, made if it can be. */
  method Ask(all: TopLevelAllocatorBundle, held: Held, call: Call) returns (answer: int, held': Held)
    requires all.Valid() && Tracked(all, held) && call.Request?
    modifies all, all.table, all.allocatedAllocators
    ensures all.Valid() && Tracked(all, held') && BundleStep(all.localPodCount, held, call, answer, held')
    ensures answer != NONE <==> old(CanAsk(all, call))
    ensures old(all.allocatedAllocators) <= all.allocatedAllocators
    ensures forall i :: |old(all.allocatedAllocators)| <= i < |all.allocatedAllocators| ==>
        fresh(all.allocatedAllocators[i])
  {
    hide Tiling, Tagging, Listing, Start, Arenas, Live, ApartAll;
    hide TopLevelAllocatorBundle.Choice, TopLevelAllocatorBundle.CanServe;
    answer, held' := NONE, held;
    var r := Pick(all, call);
    if r != -1 {
      ghost var views := Taken(all, held);
      ghost var v, g, c := all.ViewOf(r), 0, 0;
      answer, g, c := all.HugeMalloc(call.thread, call.lockLoopOn, call.busy, call.pages);
      ServedApart(all.localPodCount, views, held, r, v, call.pages, c, answer);
      held' := held[r := held[r][answer := call.pages]];
    }
  }

  /** A run that is handed out is of a region in use. */
  lemma GivenBy(all: TopLevelAllocatorBundle, held: Held, b: int, r: int)
    requires all.Valid() && Tracked(all, held) && r in held && b in held[r]
    ensures 0 <= r < |all.allocatedAllocators|
    ensures b in all.allocatedAllocators[r].view.runs && !all.allocatedAllocators[r].view.runs[b].free
  {
  }

  method GiveRun(all: TopLevelAllocatorBundle, held: Held, b: int) returns (held': Held)
    requires all.Valid() && Tracked(all, held) && b / all.localPodCount in held && b in held[b / all.localPodCount]
    modifies all.table, all.allocatedAllocators
    ensures all.Valid() && Tracked(all, held')
    ensures held' == held[b / all.localPodCount := held[b / all.localPodCount] - {b}]
  {
    hide Tiling, Tagging, Listing, Start, Arenas, Live, RunModel.Release;
    var r := b / all.localPodCount;
    GivenBy(all, held, b, r);
    ghost var v := all.ViewOf(r);
    assert all.Owns(r);
    all.CrossOwnershipHugeFree(b, r);
    ReleaseLive(all.allocatedAllocators[r].from, all.allocatedAllocators[r].to + 1, v, b);
    held' := held[r := held[r] - {b}];
  }

  /** One call, made if it can be. */
  method OneCall(all: TopLevelAllocatorBundle, held: Held, call: Call) returns (answer: int, held': Held)
    requires all.Valid() && Tracked(all, held)
    modifies all, all.table, all.allocatedAllocators
    ensures all.Valid() && Tracked(all, held') && BundleStep(all.localPodCount, held, call, answer, held')
    ensures call.Request? ==> (answer != NONE <==> old(CanAsk(all, call)))
    ensures old(all.allocatedAllocators) <= all.allocatedAllocators
    ensures forall i :: |old(all.allocatedAllocators)| <= i < |all.allocatedAllocators| ==>
        fresh(all.allocatedAllocators[i])
  {
    hide Tiling, Tagging, Listing, Start, Arenas, Live, ApartAll, CanAsk;
    answer, held' := NONE, held;
    match call {
      case Request(_, _, _, _) =>
        answer, held' := Ask(all, held, call);
      case GiveBack(b) =>
        if b / all.localPodCount in held && b in held[b / all.localPodCount] {
          held' := GiveRun(all, held, b);
          answer := b;
        }
    }
  }

  /** Any run of requests and releases by any threads on a new bundle is a run of the bookkeeping: no two runs that are
      handed out at the same time share a page, whatever their regions, and each goes back to the region it came
      from. */
  method ExecuteAll(table: PodVector, podCount: int, calls: seq<Call>)
    returns (answers: seq<int>, ghost helds: seq<Held>)
    requires table.Shape() && 1 <= podCount <= |table.size|
    requires forall j :: 0 <= j < |table.size| ==> table.isFree[j]
    modifies table
    ensures BundleRun(podCount, calls, answers, helds) && (forall r :: r in helds[0] ==> helds[0][r] == map[])
    ensures forall k :: 0 <= k <= |calls| ==> Disjoint(helds[k])
  {
    hide BundleStep, Tiling, Tagging, Listing, Start, Arenas, Live;
    var all := new TopLevelAllocatorBundle(table, podCount);
    var held := Nothing(all.maxArena);
    NothingHeld(all, held);
    answers := [];
    helds := [held];
    var k := 0;
    while k < |calls|
      invariant 0 <= k <= |calls| && fresh(all) && all.table == table && all.localPodCount == podCount
      invariant forall i :: 0 <= i < |all.allocatedAllocators| ==> fresh(all.allocatedAllocators[i])
      invariant all.Valid() && Tracked(all, held)
      invariant BundleRun(podCount, calls[..k], answers, helds) && helds[k] == held && helds[0] == Nothing(all.maxArena)
    {
      var answer;
      answer, held := OneCall(all, held, calls[k]);
      BundleGrows(podCount, calls[..k], answers, helds, calls[k], answer, held);
      answers := answers + [answer];
      helds := helds + [held];
      assert calls[..k + 1] == calls[..k] + [calls[k]];
      k := k + 1;
    }
    assert calls[..k] == calls;
    forall j | 0 <= j <= |calls|
      ensures Disjoint(helds[j])
    {
      NeverShared(podCount, calls, answers, helds, j);
    }
  }

  lemma NothingHeld(all: TopLevelAllocatorBundle, held: Held)
    requires all.allocatedAllocators == [] && 0 <= all.maxArena && held == Nothing(all.maxArena)
    ensures Tracked(all, held)
  {
  }
}
