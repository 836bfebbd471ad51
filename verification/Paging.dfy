/** The paging system as a step system over any number of pages and memory nodes, and its refinement of
    plain memory: moving pages around is invisible to the application. */
module Paging {
  import opened HeapModel
  import opened HeapTheorems
  import opened SwapImage
  import opened Residency
  import opened ResidencyProofs
  import PageHeap

  // ----- what the application and the allocators do to one page ------------------------------------

  /** SegregatedPageList::free: the release is postponed. */
  ghost predicate PostponeFree(n: int, x: Slice, b: int, words: set<int>, x': Slice)
    requires SliceInv(n, x)
  {
    && x.pod.small && (x.pod.state.Local? || x.pod.state.Disk? || x.pod.state.Remote?)
    && b in x.pod.view.blk && !x.pod.view.blk[b].free && b !in x.pod.buf
    && words == (set j | 0 <= j < n && Payload(x.pod.view.blk, b, j))
    && x' == x.(pod := x.pod.(buf := x.pod.buf + [b]))
  }

  /** The application stores w in its word j. */
  ghost predicate Write(n: int, x: Slice, j: int, w: int, x': Slice)
    requires SliceInv(n, x)
  {
    && x.pod.state.Local? && j in Cells(n, x)
    && x' == x.(pod := x.pod.(mem := x.pod.mem[j := w]))
  }

  /** A successful podMalloc. */
  ghost predicate SmallMalloc(n: int, x: Slice, asize: int, words: set<int>, x': Slice)
    requires SliceInv(n, x)
  {
    && x.pod.small && x.pod.state.Local? && 4 <= asize
    && Malloc(x.pod.view, asize).1 != NULL
    && x' == x.(pod := x.pod.(mem := x'.pod.mem, head := x'.pod.head, view := Malloc(x.pod.view, asize).0))
    && Inv(x'.pod.mem, x'.pod.head, x'.pod.view)
    && LiveSame(x.pod.mem, x'.pod.mem, x.pod.view.blk)
    && words == (set j | 0 <= j < n && Payload(x'.pod.view.blk, Malloc(x.pod.view, asize).1, j))
  }

  /** heapInit on a local page. */
  ghost predicate StartHeap(n: int, x: Slice, x': Slice)
    requires SliceInv(n, x)
  {
    && !x.pod.small && x.pod.state.Local? && |x'.pod.mem| == n
    && x' == x.(pod := x.pod.(small := true, mem := x'.pod.mem, head := x'.pod.head, view := PageHeap.Fresh(n)))
    && Inv(x'.pod.mem, x'.pod.head, x'.pod.view)
  }

  /** Page of a free run taken by allocateNPages and hugeMalloc: activated unless it is local, then
      marked as in use. */
  ghost predicate HugeTake(n: int, x: Slice, y: Slice, x': Slice)
    requires SliceInv(n, x)
  {
    && !x.pod.small && x.pod.isFree && Activate(n, x, y)
    && x' == y.(pod := y.pod.(isFree := false))
  }

  /** One page of hugeFree's loop. */
  ghost predicate HugeGive(n: int, x: Slice, x': Slice) {
    !x.pod.small && x' == x.(pod := x.pod.(isFree := true))
  }

  /** addPodToBuffer: a page of a free run is allocated and pinned for the ring buffer. */
  ghost predicate Pin(n: int, x: Slice, x': Slice)
    requires SliceInv(n, x)
  {
    && !x.pod.small && x.pod.isFree
    && match x.pod.state
       case Disk => x' == ToInit(n, x).(pod := ToInit(n, x).pod.(state := LocalPinned, isFree := false))
       case Remote => x' == ToInit(n, x).(pod := ToInit(n, x).pod.(state := LocalPinned, isFree := false))
       case DiskCache => x' == ArrivedSlice(n, x).(pod := Arrived(n, x).(state := LocalPinned, isFree := false))
       case RemoteCache => x' == ArrivedSlice(n, x).(pod := Arrived(n, x).(state := LocalPinned, isFree := false))
       case _ => x' == x.(pod := x.pod.(state := LocalPinned, isFree := false))
  }

  /** getBufferedPodCore hands the page to the consumer. */
  ghost predicate Unpin(n: int, x: Slice, x': Slice) {
    x.pod.state.LocalPinned? && x' == x.(pod := x.pod.(state := Local))
  }

  /** remon_cleanup_evicted: the application gives up a swapped-out page (with no release pending). */
  ghost predicate Cleanup(n: int, x: Slice, x': Slice)
    requires SliceInv(n, x)
  {
    x.pod.buf == [] && x' == if x.pod.state.Disk? || x.pod.state.Remote? then ToInit(n, x) else x
  }

  // ----- their effect on the application's words ------------------------------------------------------

  lemma PostponeFreeEffect(n: int, x: Slice, b: int, words: set<int>, x': Slice)
    requires SliceInv(n, x) && PostponeFree(n, x, b, words, x')
    ensures SliceInv(n, x') && Cells(n, x') == Cells(n, x) - words
  {
    SameStore(n, x, x');
    PostponeOwned(n, x, b, words, x');
    CellsLess(n, x, x', words);
  }

  /** A change of the page's free buffer or run flag leaves its words where they are. */
  lemma SameStore(n: int, x: Slice, x': Slice)
    requires 0 <= n && Readable(n, x)
    requires x' == x.(pod := x.pod.(buf := x'.pod.buf, isFree := x'.pod.isFree))
    ensures Readable(n, x') && Logical(n, x') == Logical(n, x)
  {
  }

  lemma PostponeOwned(n: int, x: Slice, b: int, words: set<int>, x': Slice)
    requires SliceInv(n, x) && PostponeFree(n, x, b, words, x')
    ensures forall j :: 0 <= j < n ==> (Owned(x'.pod, j) <==> Owned(x.pod, j) && j !in words)
  {
    hide Readable, Logical, Aligned, Tags, Links, Fits;
  }

  lemma CellsLess(n: int, x: Slice, x': Slice, words: set<int>)
    requires 0 <= n && Readable(n, x) && Readable(n, x') && Logical(n, x') == Logical(n, x)
    requires forall j :: 0 <= j < n ==> (Owned(x'.pod, j) <==> Owned(x.pod, j) && j !in words)
    ensures Cells(n, x') == Cells(n, x) - words
  {
  }

  lemma WriteEffect(n: int, x: Slice, j: int, w: int, x': Slice)
    requires SliceInv(n, x) && Write(n, x, j, w, x')
    ensures SliceInv(n, x') && Cells(n, x') == Cells(n, x)[j := w]
  {
    hide Inv;
    InMemoryReadable(n, x);
    InMemoryReadable(n, x');
    if x.pod.small {
      var b :| Payload(x.pod.view.blk, b, j) && b !in x.pod.buf;
      ClientWriteKeeps(x.pod.mem, x.pod.head, x.pod.view, b, j, w);
    }
  }

  lemma MallocLive(n: int, v: View, asize: int, buf: seq<int>, j: int)
    requires Tiling(n, v.blk) && Lists(v) && 4 <= asize && Malloc(v, asize).1 != NULL && Pending(v.blk, buf)
    ensures Pending(Malloc(v, asize).0.blk, buf)
    ensures IsLive(Malloc(v, asize).0.blk, buf, j) <==>
            IsLive(v.blk, buf, j) || Payload(Malloc(v, asize).0.blk, Malloc(v, asize).1, j)
  {
    hide Fits;
  }

  lemma SmallMallocEffect(n: int, x: Slice, asize: int, words: set<int>, x': Slice)
    requires SliceInv(n, x) && SmallMalloc(n, x, asize, words, x')
    ensures SliceInv(n, x')
    ensures Cells(n, x').Keys == Cells(n, x).Keys + words
    ensures forall j :: j in Cells(n, x) ==> Cells(n, x')[j] == Cells(n, x)[j]
    ensures Cells(n, x).Keys !! words
  {
    InMemoryReadable(n, x);
    InMemoryReadable(n, x');
    MallocLive(n, x.pod.view, asize, x.pod.buf, 0);
    MallocOwned(n, x, asize, words, x');
    CellsMore(n, x, x', words);
  }

  lemma MallocOwned(n: int, x: Slice, asize: int, words: set<int>, x': Slice)
    requires SliceInv(n, x) && SmallMalloc(n, x, asize, words, x')
    ensures forall j :: 0 <= j < n ==> (Owned(x'.pod, j) <==> Owned(x.pod, j) || j in words)
    ensures forall j :: 0 <= j < n && Owned(x.pod, j) ==> x'.pod.mem[j] == x.pod.mem[j] && j !in words
  {
    InMemoryReadable(n, x);
    forall j | 0 <= j < n
      ensures Owned(x'.pod, j) <==> Owned(x.pod, j) || j in words
      ensures Owned(x.pod, j) ==> x'.pod.mem[j] == x.pod.mem[j] && j !in words
    {
      MallocLive(n, x.pod.view, asize, x.pod.buf, j);
      if IsLive(x.pod.view.blk, x.pod.buf, j) {
        MallocNew(n, x.pod.view, asize, x.pod.buf, j);
        var b :| Payload(x.pod.view.blk, b, j) && b !in x.pod.buf;
      }
    }
  }

  lemma CellsMore(n: int, x: Slice, x': Slice, words: set<int>)
    requires 0 <= n && Readable(n, x) && Readable(n, x') && (forall j :: j in words ==> 0 <= j < n)
    requires forall j :: 0 <= j < n ==> (Owned(x'.pod, j) <==> Owned(x.pod, j) || j in words)
    requires forall j :: 0 <= j < n && Owned(x.pod, j) ==> Logical(n, x')[j] == Logical(n, x)[j] && j !in words
    ensures Cells(n, x').Keys == Cells(n, x).Keys + words
    ensures forall j :: j in Cells(n, x) ==> Cells(n, x')[j] == Cells(n, x)[j]
    ensures Cells(n, x).Keys !! words
  {
  }

  /** The new block shares no word with a live one. */
  lemma MallocNew(n: int, v: View, asize: int, buf: seq<int>, j: int)
    requires Tiling(n, v.blk) && Lists(v) && 4 <= asize && Malloc(v, asize).1 != NULL && IsLive(v.blk, buf, j)
    ensures !Payload(Malloc(v, asize).0.blk, Malloc(v, asize).1, j)
  {
  }

  lemma StartHeapEffect(n: int, x: Slice, x': Slice)
    requires SliceInv(n, x) && StartHeap(n, x, x')
    ensures SliceInv(n, x') && Cells(n, x') == map[]
  {
  }

  lemma HugeTakeEffect(n: int, x: Slice, y: Slice, x': Slice)
    requires SliceInv(n, x) && HugeTake(n, x, y, x')
    ensures SliceInv(n, x') && InMemory(x'.pod)
    ensures Cells(n, x) == map[] && forall j :: 0 <= j < n ==> j in Cells(n, x')
  {
    ActivateKeeps(n, x, y);
    InMemoryReadable(n, y);
    InMemoryReadable(n, x');
  }

  lemma HugeGiveEffect(n: int, x: Slice, x': Slice)
    requires SliceInv(n, x) && HugeGive(n, x, x')
    ensures SliceInv(n, x') && Cells(n, x') == map[]
  {
  }

  lemma PinEffect(n: int, x: Slice, x': Slice)
    requires SliceInv(n, x) && Pin(n, x, x')
    ensures SliceInv(n, x') && x'.pod.state.LocalPinned? && Cells(n, x) == map[]
  {
  }

  lemma UnpinEffect(n: int, x: Slice, x': Slice)
    requires SliceInv(n, x) && Unpin(n, x, x')
    ensures SliceInv(n, x') && Cells(n, x') == Cells(n, x) && x'.pod.state.Local?
  {
  }

  /** A swapped-out page is given up with all that is stored of it; any other page stays as it is. */
  lemma CleanupEffect(n: int, x: Slice, x': Slice)
    requires SliceInv(n, x) && Cleanup(n, x, x')
    ensures SliceInv(n, x') && (Cells(n, x') == Cells(n, x) || Cells(n, x') == map[])
    ensures x.pod.state.Disk? || x.pod.state.Remote? ==>
        x'.pod.state.Init? && Cells(n, x') == map[] && x'.file.None?
        && forall k :: 0 <= k < |x'.held| ==> x'.held[k].None?
    ensures !x.pod.state.Disk? && !x.pod.state.Remote? ==> x' == x
  {
  }

  // ----- one call on one page ------------------------------------------------------------------------

  datatype Call =
    | DoActivate
    | DoEvict(flushed: Slice, benched: bool, dest: Option<int>)
    | DoPrefetch
    | DoFlush
    | DoPostpone(b: int, freed: set<int>)
    | DoWrite(j: int, w: int)
    | DoMalloc(asize: int, got: set<int>)
    | DoStartHeap
    | DoHugeTake(active: Slice)
    | DoHugeGive
    | DoPin
    | DoUnpin
    | DoCleanup

  ghost predicate PageNext(n: int, x: Slice, c: Call, x': Slice)
    requires SliceInv(n, x)
  {
    match c
    case DoActivate => Activate(n, x, x')
    case DoEvict(x1, benched, dest) => Evict(n, x, x1, benched, dest, x')
    case DoPrefetch => Prefetch(n, x, x')
    case DoFlush => x.pod.state.Local? && (CutFits(n, x); Flush(n, x.pod, x'.pod)) && x' == x.(pod := x'.pod)
    case DoPostpone(b, words) => PostponeFree(n, x, b, words, x')
    case DoWrite(j, w) => Write(n, x, j, w, x')
    case DoMalloc(asize, words) => SmallMalloc(n, x, asize, words, x')
    case DoStartHeap => StartHeap(n, x, x')
    case DoHugeTake(y) => HugeTake(n, x, y, x')
    case DoHugeGive => HugeGive(n, x, x')
    case DoPin => Pin(n, x, x')
    case DoUnpin => Unpin(n, x, x')
    case DoCleanup => Cleanup(n, x, x')
  }

  /** The call takes word j of its page from the application: it releases the block that holds the word, or gives up or
      starts afresh the whole page. */
  predicate Releases(c: Call, j: int) {
    match c
    case DoPostpone(_, words) => j in words
    case DoStartHeap => true
    case DoHugeGive => true
    case DoCleanup => true
    case _ => false
  }

  /** What a call does to plain memory. */
  ghost predicate CellsNext(n: int, cells: map<int, int>, c: Call, cells': map<int, int>)
    requires 0 <= n
  {
    match c
    case DoPostpone(_, words) => cells' == cells - words
    case DoWrite(j, w) => j in cells && cells' == cells[j := w]
    case DoMalloc(_, words) =>
      cells.Keys !! words && cells'.Keys == cells.Keys + words && forall j :: j in cells ==> cells'[j] == cells[j]
    case DoStartHeap => cells' == map[]
    case DoHugeTake(_) => cells == map[] && forall j :: 0 <= j < n ==> j in cells'
    case DoHugeGive => cells' == map[]
    case DoPin => cells == map[]
    case DoCleanup => cells' == cells || cells' == map[]
    case _ => SameCells(n, cells, cells')
  }

  /** The calls of the page manager keep the application's words. */
  lemma ManagerRefines(n: int, x: Slice, c: Call, x': Slice)
    requires SliceInv(n, x) && PageNext(n, x, c, x')
    requires c.DoActivate? || c.DoEvict? || c.DoPrefetch? || c.DoFlush? || c.DoPin? || c.DoUnpin? || c.DoCleanup?
    ensures SliceInv(n, x') && CellsNext(n, Cells(n, x), c, Cells(n, x'))
  {
    hide Cells;
    if c.DoActivate? {
      ActivateKeeps(n, x, x');
    } else if c.DoEvict? {
      EvictKeeps(n, x, c.flushed, c.benched, c.dest, x');
    } else if c.DoPrefetch? {
      PrefetchKeeps(n, x, x');
    } else if c.DoFlush? {
      CutFits(n, x);
      FlushKeeps(n, x, x');
    } else if c.DoPin? {
      PinEffect(n, x, x');
    } else if c.DoUnpin? {
      UnpinEffect(n, x, x');
    } else {
      CleanupEffect(n, x, x');
    }
  }

  /** One call keeps the page's invariant and acts on its words as on plain memory. */
  lemma PageRefines(n: int, x: Slice, c: Call, x': Slice)
    requires SliceInv(n, x) && PageNext(n, x, c, x')
    ensures SliceInv(n, x') && CellsNext(n, Cells(n, x), c, Cells(n, x'))
  {
    hide Cells, Activate, Evict, Prefetch, Flush, Pin, Unpin, Cleanup;
    match c
    case DoPostpone(b, words) => PostponeFreeEffect(n, x, b, words, x');
    case DoWrite(j, w) => WriteEffect(n, x, j, w, x');
    case DoMalloc(asize, words) => SmallMallocEffect(n, x, asize, words, x');
    case DoStartHeap => StartHeapEffect(n, x, x');
    case DoHugeTake(y) => HugeTakeEffect(n, x, y, x');
    case DoHugeGive => HugeGiveEffect(n, x, x');
    case _ => ManagerRefines(n, x, c, x');
  }

  // ----- the whole system ---------------------------------------------------------------------------------

  /** All pages of n words, the swap directory (files by page index), and what each memory node holds
      (images by page index). */
  datatype Sys = Sys(n: int, pods: seq<Pod>, disk: map<int, Words>, nodes: seq<map<int, Words>>)

  function Find(m: map<int, Words>, i: int): Option<Words> {
    if i in m then Some(m[i]) else None
  }

  ghost function SliceOf(s: Sys, i: int): Slice
    requires 0 <= i < |s.pods|
  {
    Slice(s.pods[i], Find(s.disk, i), seq(|s.nodes|, k requires 0 <= k < |s.nodes| => Find(s.nodes[k], i)))
  }

  function Place(m: map<int, Words>, i: int, w: Option<Words>): map<int, Words> {
    if w.Some? then m[i := w.value] else m - {i}
  }

  /** The system after page i and everything stored for it became x. */
  ghost function Put(s: Sys, i: int, x: Slice): Sys
    requires 0 <= i < |s.pods| && |x.held| == |s.nodes|
  {
    Sys(s.n, s.pods[i := x.pod], Place(s.disk, i, x.file),
        seq(|s.nodes|, k requires 0 <= k < |s.nodes| => Place(s.nodes[k], i, x.held[k])))
  }

  lemma SliceOfPut(s: Sys, i: int, x: Slice, k: int)
    requires 0 <= i < |s.pods| && |x.held| == |s.nodes| && 0 <= k < |s.pods|
    ensures SliceOf(Put(s, i, x), k) == if k == i then x else SliceOf(s, k)
  {
  }

  ghost predicate SysInv(s: Sys) {
    forall i :: 0 <= i < |s.pods| ==> SliceInv(s.n, SliceOf(s, i))
  }

  /** One step: some call on some page i, with the page's part of the new system given by x. */
  ghost predicate SysNext(s: Sys, i: int, c: Call, x: Slice, s': Sys)
    requires SysInv(s)
  {
    0 <= i < |s.pods| && |x.held| == |s.nodes| && PageNext(s.n, SliceOf(s, i), c, x) && s' == Put(s, i, x)
  }

  /** The application's words on page i. */
  ghost function CellsOf(s: Sys, i: int): map<int, int>
    requires SysInv(s) && 0 <= i < |s.pods|
  {
    Cells(s.n, SliceOf(s, i))
  }

  /** Every step of the system is a step of plain memory on the page it names, and invisible on all
      other pages. */
  lemma StepRefines(s: Sys, i: int, c: Call, x: Slice, s': Sys)
    requires SysInv(s) && SysNext(s, i, c, x, s')
    ensures SysInv(s') && s'.n == s.n && |s'.pods| == |s.pods| && |s'.nodes| == |s.nodes|
    ensures CellsNext(s.n, CellsOf(s, i), c, CellsOf(s', i))
    ensures forall k :: 0 <= k < |s.pods| && k != i ==> CellsOf(s', k) == CellsOf(s, k)
  {
    PageRefines(s.n, SliceOf(s, i), c, x);
    forall k | 0 <= k < |s.pods|
      ensures SliceOf(s', k) == if k == i then x else SliceOf(s, k)
    {
      SliceOfPut(s, i, x, k);
    }
  }

  // ----- runs -------------------------------------------------------------------------------------------------

  /** One step of a run: the page, the call, and the page's part of the new system. */
  datatype Event = Event(page: int, call: Call, part: Slice)

  /** s' is reached from s by the given steps. */
  ghost predicate Run(s: Sys, trace: seq<Event>, s': Sys)
    requires SysInv(s)
    decreases |trace|
  {
    if trace == [] then s' == s
    else
      var e := trace[0];
      && 0 <= e.page < |s.pods| && |e.part.held| == |s.nodes|
      && SysNext(s, e.page, e.call, e.part, Put(s, e.page, e.part))
      && (StepRefines(s, e.page, e.call, e.part, Put(s, e.page, e.part));
          Run(Put(s, e.page, e.part), trace[1..], s'))
  }

  /** Plain memory: one map of words per page. */
  ghost function Memory(s: Sys): seq<map<int, int>>
    requires SysInv(s)
  {
    seq(|s.pods|, i requires 0 <= i < |s.pods| => CellsOf(s, i))
  }

  ghost predicate PlainNext(n: int, mem: seq<map<int, int>>, i: int, c: Call, mem': seq<map<int, int>>)
    requires 0 <= n
  {
    && 0 <= i < |mem| == |mem'|
    && CellsNext(n, mem[i], c, mem'[i])
    && (forall k :: 0 <= k < |mem| && k != i ==> mem'[k] == mem[k])
  }

  /** The memories form a run of plain memory along the trace. */
  ghost predicate PlainRun(n: int, mems: seq<seq<map<int, int>>>, trace: seq<Event>)
    requires 0 <= n
  {
    && |mems| == |trace| + 1
    && (forall t :: 0 <= t < |trace| ==> PlainNext(n, mems[t], trace[t].page, trace[t].call, mems[t + 1]))
  }

  /** Every run of the paging system is, word for word, a run of plain memory. */
  lemma {:induction false} RunRefines(s: Sys, trace: seq<Event>, s': Sys) returns (mems: seq<seq<map<int, int>>>)
    requires SysInv(s) && Run(s, trace, s') && 0 <= s.n
    ensures SysInv(s') && s'.n == s.n && |s'.pods| == |s.pods|
    ensures PlainRun(s.n, mems, trace) && mems[0] == Memory(s) && mems[|trace|] == Memory(s')
    decreases |trace|
  {
    hide SysInv, SysNext, SliceInv, SliceOf, Cells, Put, CellsNext;
    if trace == [] {
      mems := [Memory(s)];
    } else {
      var e := trace[0];
      var s1 := Put(s, e.page, e.part);
      StepRefines(s, e.page, e.call, e.part, s1);
      var rest := RunRefines(s1, trace[1..], s');
      mems := [Memory(s)] + rest;
      assert PlainNext(s.n, Memory(s), e.page, e.call, Memory(s1));
      forall t | 0 <= t < |trace|
        ensures PlainNext(s.n, mems[t], trace[t].page, trace[t].call, mems[t + 1])
      {
        if t > 0 {
          assert mems[t] == rest[t - 1] && mems[t + 1] == rest[t] && trace[t] == trace[1..][t - 1];
        }
      }
    }
  }

  /** The value of word j of page i along a trace: what was written to it last. */
  function LastWritten(trace: seq<Event>, i: int, j: int, w: int): int
    decreases |trace|
  {
    if trace == [] then w
    else LastWritten(trace[1..], i, j,
                     if trace[0].page == i && trace[0].call.DoWrite? && trace[0].call.j == j then trace[0].call.w
                         else w)
  }

  /** Over any run, whatever happens to other blocks of its page and to other pages, a word that is not released is
      still there and holds what was written to it last. */
  lemma {:induction false} ContentsSurvive(s: Sys, trace: seq<Event>, s': Sys, i: int, j: int)
    requires SysInv(s) && Run(s, trace, s') && 0 <= i < |s.pods|
    requires forall t :: 0 <= t < |trace| && trace[t].page == i ==> !Releases(trace[t].call, j)
    requires j in CellsOf(s, i)
    ensures SysInv(s') && |s'.pods| == |s.pods|
    ensures j in CellsOf(s', i) && CellsOf(s', i)[j] == LastWritten(trace, i, j, CellsOf(s, i)[j])
    decreases |trace|
  {
    hide SysInv, SysNext, SliceInv, SliceOf, Cells, Put;
    if trace != [] {
      var e := trace[0];
      var s1 := Put(s, e.page, e.part);
      StepRefines(s, e.page, e.call, e.part, s1);
      ContentsSurvive(s1, trace[1..], s', i, j);
    }
  }

  // ----- the start ----------------------------------------------------------------------------------------------

  ghost function Unused(n: int): Pod
    requires 0 <= n
  {
    Pod(Init, Zeros(n), false, NULL, PageHeap.Fresh(n), [], true, NOBODY, 0, [])
  }

  /** A system of `count` unused pages and `nodes` empty memory nodes. */
  ghost function StartSys(n: int, count: nat, nodes: nat): Sys
    requires 0 <= n
  {
    Sys(n, seq(count, _ => Unused(n)), map[], seq(nodes, _ => map[]))
  }

  lemma StartInv(n: int, count: nat, nodes: nat)
    requires 6 <= n && n % 2 == 0
    ensures SysInv(StartSys(n, count, nodes))
  {
  }

  /** State s' is reached from the start by the given steps. */
  ghost predicate Reached(n: int, count: nat, nodes: nat, trace: seq<Event>, s': Sys)
    requires 6 <= n && n % 2 == 0
  {
    StartInv(n, count, nodes);
    Run(StartSys(n, count, nodes), trace, s')
  }

  lemma ReachedInv(n: int, count: nat, nodes: nat, trace: seq<Event>, s': Sys)
    requires 6 <= n && n % 2 == 0 && Reached(n, count, nodes, trace, s')
    ensures SysInv(s') && s'.n == n && |s'.pods| == count && |s'.nodes| == nodes
  {
    StartInv(n, count, nodes);
    RunInv(StartSys(n, count, nodes), trace, s');
  }

  lemma {:induction false} RunInv(s: Sys, trace: seq<Event>, s': Sys)
    requires SysInv(s) && Run(s, trace, s')
    ensures SysInv(s') && s'.n == s.n && |s'.pods| == |s.pods| && |s'.nodes| == |s.nodes|
    decreases |trace|
  {
    hide SysInv, SysNext, SliceInv, SliceOf, CellsNext, Put;
    if trace != [] {
      var e := trace[0];
      var s1 := Put(s, e.page, e.part);
      StepRefines(s, e.page, e.call, e.part, s1);
      RunInv(s1, trace[1..], s');
    }
  }

  // ----- the stores -------------------------------------------------------------------------------------------------

  lemma HeldIs(s: Sys, i: int, k: int)
    requires SysInv(s) && 0 <= i < |s.pods| && 0 <= k < |s.nodes|
    ensures i in s.nodes[k] <==> OnNode(s.pods[i]) && s.pods[i].landlord == k
    ensures i in s.disk <==> OnDisk(s.pods[i])
  {
    assert SliceOf(s, i).held[k] == Find(s.nodes[k], i);
  }

  /** In every reachable state a memory node holds a page's key exactly when it is the landlord of a page in a remote
      state, and a swap file exists exactly in the disk states. */
  lemma StoresAgree(n: int, count: nat, nodes: nat, trace: seq<Event>, s': Sys, i: int, k: int)
    requires 6 <= n && n % 2 == 0 && Reached(n, count, nodes, trace, s') && 0 <= i < count && 0 <= k < nodes
    ensures |s'.pods| == count && |s'.nodes| == nodes
    ensures i in s'.nodes[k] <==> OnNode(s'.pods[i]) && s'.pods[i].landlord == k
    ensures i in s'.disk <==> OnDisk(s'.pods[i])
  {
    ReachedInv(n, count, nodes, trace, s');
    HeldIs(s', i, k);
  }

  /** So whatever the run, saving a local page finds its key absent at every node. */
  lemma SaveFindsKeyAbsent(n: int, count: nat, nodes: nat, trace: seq<Event>, s': Sys, i: int, k: int)
    requires 6 <= n && n % 2 == 0 && Reached(n, count, nodes, trace, s') && 0 <= i < count && 0 <= k < nodes
    requires |s'.pods| == count && s'.pods[i].state.Local?
    ensures |s'.nodes| == nodes && i !in s'.nodes[k]
  {
    StoresAgree(n, count, nodes, trace, s', i, k);
  }

  /** No call on a stored page that leaves it stored touches what is stored. */
  lemma StoredStep(n: int, x: Slice, c: Call, x': Slice)
    requires SliceInv(n, x) && PageNext(n, x, c, x')
    ensures OnNode(x.pod) && OnNode(x'.pod) ==> x'.held == x.held && x'.pod.landlord == x.pod.landlord
    ensures OnDisk(x.pod) && OnDisk(x'.pod) ==> x'.file == x.file
  {
    hide SliceInv, Cells, Malloc, FreeAll, Zeros, Load, Inv;
  }

  lemma ImageStep(s: Sys, page: int, c: Call, x: Slice, s': Sys, i: int, k: int)
    requires SysInv(s) && SysNext(s, page, c, x, s') && 0 <= i < |s.pods| && 0 <= k < |s.nodes| && i in s.nodes[k]
    requires page == i ==> OnNode(x.pod)
    ensures |s'.nodes| == |s.nodes| && i in s'.nodes[k] && s'.nodes[k][i] == s.nodes[k][i]
  {
    hide SliceInv, PageNext, Inv;
    if page == i {
      HeldIs(s, i, k);
      StoredStep(s.n, SliceOf(s, i), c, x);
      assert x.held[k] == Find(s.nodes[k], i);
    }
  }

  /** Over any run in which page i stays remote, with calls on it or without, its landlord holds the image that was
      saved: a fetch gets the last one. */
  lemma {:induction false} ImageStays(s: Sys, trace: seq<Event>, s': Sys, i: int, k: int)
    requires SysInv(s) && Run(s, trace, s') && 0 <= i < |s.pods| && 0 <= k < |s.nodes| && i in s.nodes[k]
    requires forall t :: 0 <= t < |trace| && trace[t].page == i ==> OnNode(trace[t].part.pod)
    ensures SysInv(s') && |s'.nodes| == |s.nodes| && i in s'.nodes[k] && s'.nodes[k][i] == s.nodes[k][i]
    decreases |trace|
  {
    hide SysInv, SysNext, SliceInv, SliceOf, CellsNext, Put;
    if trace != [] {
      var e := trace[0];
      var s1 := Put(s, e.page, e.part);
      ImageStep(s, e.page, e.call, e.part, s1, i, k);
      StepRefines(s, e.page, e.call, e.part, s1);
      ImageStays(s1, trace[1..], s', i, k);
    }
  }

  lemma FileStep(s: Sys, page: int, c: Call, x: Slice, s': Sys, i: int)
    requires SysInv(s) && SysNext(s, page, c, x, s') && 0 <= i < |s.pods| && i in s.disk
    requires page == i ==> OnDisk(x.pod)
    ensures i in s'.disk && s'.disk[i] == s.disk[i]
  {
    hide SliceInv, PageNext, Inv;
    if page == i {
      FileIs(s, i);
      StoredStep(s.n, SliceOf(s, i), c, x);
      assert x.file == Find(s.disk, i);
    }
  }

  lemma FileIs(s: Sys, i: int)
    requires SysInv(s) && 0 <= i < |s.pods|
    ensures SliceInv(s.n, SliceOf(s, i)) && (i in s.disk <==> OnDisk(s.pods[i]))
  {
    assert SliceInv(s.n, SliceOf(s, i));
  }

  /** The same for the swap file of a page that stays on disk. */
  lemma {:induction false} FileStays(s: Sys, trace: seq<Event>, s': Sys, i: int)
    requires SysInv(s) && Run(s, trace, s') && 0 <= i < |s.pods| && i in s.disk
    requires forall t :: 0 <= t < |trace| && trace[t].page == i ==> OnDisk(trace[t].part.pod)
    ensures SysInv(s') && i in s'.disk && s'.disk[i] == s.disk[i]
    decreases |trace|
  {
    hide SysInv, SysNext, SliceInv, SliceOf, CellsNext, Put;
    if trace != [] {
      var e := trace[0];
      var s1 := Put(s, e.page, e.part);
      FileStep(s, e.page, e.call, e.part, s1, i);
      StepRefines(s, e.page, e.call, e.part, s1);
      FileStays(s1, trace[1..], s', i);
    }
  }

  // ----- pinned pages -------------------------------------------------------------------------------------------

  lemma PinnedStep(n: int, x: Slice, c: Call, x': Slice)
    requires SliceInv(n, x) && PageNext(n, x, c, x') && x.pod.state.LocalPinned? && !c.DoUnpin?
    ensures x'.pod.state.LocalPinned?
  {
  }

  /** A page in the ring buffer stays pinned under every run until the consumer takes it. */
  lemma {:induction false} PinnedStays(s: Sys, trace: seq<Event>, s': Sys, i: int)
    requires SysInv(s) && Run(s, trace, s') && 0 <= i < |s.pods| && s.pods[i].state.LocalPinned?
    requires forall t :: 0 <= t < |trace| && trace[t].page == i ==> !trace[t].call.DoUnpin?
    ensures |s'.pods| == |s.pods| && s'.pods[i].state.LocalPinned?
    decreases |trace|
  {
    if trace != [] {
      var e := trace[0];
      var s1 := Put(s, e.page, e.part);
      StepRefines(s, e.page, e.call, e.part, s1);
      if e.page == i {
        PinnedStep(s.n, SliceOf(s, i), e.call, e.part);
      }
      PinnedStays(s1, trace[1..], s', i);
    }
  }
}
