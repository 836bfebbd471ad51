/** What the calls of the page manager achieve: where a page and its words are afterwards. */
module ResidencyEffects {
  import opened HeapModel
  import opened SwapImage
  import opened Residency
  import opened ResidencyProofs

  /** The page's memory has the given words at their places. */
  ghost predicate Holds(p: Pod, cells: map<int, int>) {
    forall j :: j in cells ==> 0 <= j < |p.mem| && p.mem[j] == cells[j]
  }

  /** No swap file and no memory node has anything of the page. */
  ghost predicate Unstored(x: Slice) {
    x.file.None? && forall k :: 0 <= k < |x.held| ==> x.held[k].None?
  }

  /** A page that is neither unused nor swapped out has its words in memory. */
  lemma HoldsOwn(n: int, x: Slice)
    requires SliceInv(n, x) && !x.pod.state.Disk? && !x.pod.state.Remote?
    ensures Holds(x.pod, Cells(n, x))
  {
    if InMemory(x.pod) || x.pod.state.Init? {
      InMemoryReadable(n, x);
    }
  }

  // ----- activation ------------------------------------------------------------------------------------

  /** Whatever its state was, an activated page is in memory with all its words; nothing of it is stored any more, and
      the releases that were postponed while it was away are done. */
  lemma Activated(n: int, x: Slice, x': Slice)
    requires SliceInv(n, x) && Activate(n, x, x')
    ensures SliceInv(n, x') && SameCells(n, Cells(n, x), Cells(n, x'))
    ensures InMemory(x'.pod) && Unstored(x') && Holds(x'.pod, Cells(n, x))
    ensures OnDisk(x.pod) || OnNode(x.pod) ==> x'.pod.buf == []
    ensures x.pod.state.Init? ==> x'.pod.mem == Zeros(n)
    ensures InMemory(x.pod) ==> x' == x
  {
    ActivateKeeps(n, x, x');
    ActivatedState(n, x, x');
    HoldsOwn(n, x');
  }

  lemma ActivatedState(n: int, x: Slice, x': Slice)
    requires SliceInv(n, x) && Activate(n, x, x')
    ensures InMemory(x'.pod) && (OnDisk(x.pod) || OnNode(x.pod) ==> x'.pod.buf == [])
    ensures x.pod.state.Init? ==> x'.pod.mem == Zeros(n)
    ensures InMemory(x.pod) ==> x' == x
  {
    hide Inv, FreeAll, LiveSame, Logical;
    if OnDisk(x.pod) || OnNode(x.pod) {
      ArrivedFlushable(n, x);
      ArrivedSameHeap(n, x);
    }
  }

  // ----- prefetching -----------------------------------------------------------------------------------

  /** After a prefetch a page is neither unused nor swapped out without a copy: its words are in memory, and what was
      stored of it is still stored where it was. */
  lemma Prefetched(n: int, x: Slice, x': Slice)
    requires SliceInv(n, x) && Prefetch(n, x, x')
    ensures SliceInv(n, x') && SameCells(n, Cells(n, x), Cells(n, x'))
    ensures !x'.pod.state.Disk? && !x'.pod.state.Remote? && !x'.pod.state.Init?
    ensures Holds(x'.pod, Cells(n, x)) && x'.file == x.file && x'.held == x.held
    ensures OnDisk(x'.pod) == OnDisk(x.pod) && OnNode(x'.pod) == OnNode(x.pod)
    ensures x'.pod.landlord == x.pod.landlord && x'.pod.sent == x.pod.sent && x'.pod.tail == x.pod.tail
  {
    PrefetchKeeps(n, x, x');
    HoldsOwn(n, x');
  }

  // ----- eviction --------------------------------------------------------------------------------------

  /** Once its postponed releases are done, the page's heap is one free block. */
  ghost predicate Emptied(n: int, x: Slice)
    requires Storable(n, x) && x.pod.small
  {
    CutFits(n, x);
    FreeAll(n, x.pod.view, x.pod.buf).blk == map[2 := Block(n - 2, true)]
  }

  /** The page is local and nothing on it is in use. */
  ghost predicate GivenUp(n: int, x: Slice)
    requires SliceInv(n, x)
  {
    x.pod.state.Local? && if x.pod.small then Emptied(n, x) else x.pod.isFree
  }

  /** The page has a heap in use that the rank index does not let go. */
  ghost predicate Kept(n: int, x: Slice, benched: bool)
    requires SliceInv(n, x)
  {
    x.pod.state.Local? && x.pod.small && !benched && !Emptied(n, x)
  }

  /** The page is in use and can be swapped out. */
  ghost predicate Leaves(n: int, x: Slice, benched: bool)
    requires SliceInv(n, x)
  {
    x.pod.state.Local? && !GivenUp(n, x) && (x.pod.small ==> benched)
  }

  /** Eviction of a local page keeps it, gives it up or swaps it out; of a cached page it drops the copy.  Memory is
      given back in all cases but the first. */
  lemma Evicted(n: int, x: Slice, x1: Slice, benched: bool, dest: Option<int>, x': Slice)
    requires SliceInv(n, x) && Evict(n, x, x1, benched, dest, x')
    ensures SliceInv(n, x') && Cells(n, x') == Cells(n, x)
    ensures x'.pod.state.Local? <==> Kept(n, x, benched)
    ensures x'.pod.state.Init? <==> x.pod.state.Init? || GivenUp(n, x)
    ensures OnNode(x'.pod) <==> (Leaves(n, x, benched) && dest.Some?) || OnNode(x.pod)
    ensures OnDisk(x'.pod) <==> (Leaves(n, x, benched) && dest.None?) || OnDisk(x.pod)
    ensures Leaves(n, x, benched) && dest.Some? ==> x'.pod.landlord == dest.value
    ensures !InMemory(x.pod) || (x.pod.state.Local? && !Kept(n, x, benched)) ==>
        x'.pod.state in {Init, Disk, Remote} && x'.pod.mem == Zeros(n)
    ensures Kept(n, x, benched) ==> Holds(x'.pod, Cells(n, x)) && x'.pod.buf == []
  {
    hide EvictLocal, Emptied, Inv, Cells, Holds, Pending, Load;
    EvictKeeps(n, x, x1, benched, dest, x');
    if x.pod.state.Local? {
      EvictedLocal(n, x, x1, benched, dest, x');
      if Kept(n, x, benched) {
        HoldsOwn(n, x');
      }
    }
  }

  lemma EvictedLocal(n: int, x: Slice, x1: Slice, benched: bool, dest: Option<int>, x': Slice)
    requires Storable(n, x) && EvictLocal(n, x, x1, benched, dest, x')
    ensures x'.pod.state ==
        if GivenUp(n, x) then Init
        else if Kept(n, x, benched) then Local
        else if dest.Some? then Remote else Disk
    ensures Leaves(n, x, benched) && dest.Some? ==> x'.pod.landlord == dest.value
    ensures !Kept(n, x, benched) ==> x'.pod.mem == Zeros(n)
    ensures Kept(n, x, benched) ==> x'.pod.buf == []
  {
    hide SliceInv, Inv, FreeAll, LiveSame, StoredNow, Tiling, Pending;
    CutFits(n, x);
    if x.pod.small {
      FlushStorable(n, x, x1);
    }
  }

  // ----- what is stored --------------------------------------------------------------------------------

  /** The words kept of page p: sent is the part before the cut, rest the words kept besides.  A page whose heap ends in
      a free block b is cut there, and two words of each end of the block are kept; any other page is kept whole. */
  ghost predicate KeptOf(p: Pod, sent: Words, rest: Words) {
    && (!p.small ==> sent == p.mem && rest == [])
    && (p.small ==> forall b :: b in p.view.blk && Next(p.view.blk, b) == |p.mem| ==>
          if p.view.blk[b].free
          then 0 <= b && b + 4 <= |p.mem| && sent == p.mem[..b] && rest == p.mem[b..b + 2] + p.mem[|p.mem| - 2..]
          else sent == p.mem && rest == [])
  }

  lemma CutIs(n: int, p: Pod, b: int)
    requires Cuttable(n, p) && p.small && b in p.view.blk && Next(p.view.blk, b) == n
    ensures Fits(n, b, p.view.blk[b]) && Cut(n, p) == if p.view.blk[b].free then b else n
  {
    hide Tags, Links, Lists, Aligned, TailOffset;
    TailOffsetIs(n, p.view.blk, b);
  }

  lemma CutWhole(n: int, p: Pod)
    requires Cuttable(n, p)
    ensures !p.small ==> Cut(n, p) == n
  {
  }

  /** What is kept of a page, without reference to how the cut is found. */
  lemma StoredIs(n: int, p: Pod)
    requires Cuttable(n, p)
    ensures KeptOf(p, StoredNow(n, p).prefix, StoredNow(n, p).rest)
  {
    hide Tags, Links, Lists, Aligned, Tiling, Cut;
    CutBounds(n, p);
    CutWhole(n, p);
    assert p.mem[..n] == p.mem;
    if p.small {
      forall b | b in p.view.blk && Next(p.view.blk, b) == n
        ensures Fits(n, b, p.view.blk[b]) && Cut(n, p) == if p.view.blk[b].free then b else n
      {
        CutIs(n, p, b);
      }
    }
  }

  /** So a page whose heap ends in free block b leaves a file of b + 4 words, and b words at a node. */
  lemma StoredSize(n: int, p: Pod, b: int)
    requires Cuttable(n, p) && p.small && b in p.view.blk && Next(p.view.blk, b) == n && p.view.blk[b].free
    ensures |StoredNow(n, p).prefix| == b && |StoredNow(n, p).prefix + StoredNow(n, p).rest| == b + 4
  {
    StoredIs(n, p);
  }
}
