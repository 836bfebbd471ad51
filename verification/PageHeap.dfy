/** The allocator of one page, working in place on the page's words. */
module PageHeap {
  import opened HeapModel
  import opened HeapProofs
  import opened HeapSums

  /** The view of a page on which heapInit has just run: one free block over the whole payload. */
  function Fresh(n: int): View {
    View(map[2 := Block(n - 2, true)], [2])
  }

  class FreeListAllocator {
    const mem: array<int>
    var freeHead: int
    var inited: bool
    var locked: bool         // the mutex; malloc and free wait until it is free
    ghost var view: View

    ghost predicate Valid()
      reads this, mem
    {
      6 <= mem.Length && mem.Length % 2 == 0 && (inited ==> Inv(mem[..], freeHead, view))
    }

    /** The heap's abstract state; an uninitialised page counts as fresh. */
    ghost function Heap(): View
      reads this
    {
      if inited then view else Fresh(mem.Length)
    }

    constructor (payload: array<int>)
      requires 6 <= payload.Length && payload.Length % 2 == 0
      ensures Valid() && mem == payload && !inited && !locked
    {
      mem := payload;
      freeHead := NULL;
      inited := false;
      locked := false;
      view := Fresh(payload.Length);
    }

    /** The allocator of a page whose heap is already there. */
    constructor Resume(payload: array<int>, head: int, ghost v: View)
      requires 6 <= payload.Length && payload.Length % 2 == 0 && Inv(payload[..], head, v)
      ensures Valid() && mem == payload && inited && view == v && freeHead == head && !locked
    {
      mem := payload;
      freeHead := head;
      inited := true;
      locked := false;
      view := v;
    }

    // ----- the tag macros ------------------------------------------------------------------------

    /** GET_BLOCK_SIZE, in words. */
    function BlockSize(bp: int): int
      requires 1 <= bp <= mem.Length
      reads mem
    {
      GetSize(mem[bp - 1]) / 8
    }

    /** SET_BLOCK_SIZE: the footer is located through the header just written. */
    method SetBlockSize(bp: int, words: int)
      requires 1 <= bp && 2 <= words && words % 2 == 0 && bp + words - 2 < mem.Length
      modifies mem
      ensures mem[..] == SetTag(old(mem[..]), bp, Block(words, true))
    {
      Untag(Block(words, true));
      mem[bp - 1] := 8 * words;
      mem[bp + BlockSize(bp) - 2] := 8 * words;
    }

    /** SET_ALLOC and SET_FREE: the bit is set in the header and the header copied to the footer. */
    method SetBit(bp: int, free: bool, ghost x: Block)
      requires 1 <= bp && 2 <= x.size && x.size % 2 == 0 && bp + x.size - 2 < mem.Length
      requires mem[bp - 1] == Tag(x)
      modifies mem
      ensures mem[..] == SetTag(old(mem[..]), bp, Block(x.size, free))
    {
      Untag(x);
      Untag(Block(x.size, free));
      mem[bp - 1] := mem[bp - 1] - mem[bp - 1] % 2 + if free then 0 else 1;
      mem[bp + BlockSize(bp) - 2] := mem[bp - 1];
    }

    /** The macro pair used throughout: set the size, then the bit. */
    method Mark(bp: int, words: int, free: bool)
      requires 1 <= bp && 2 <= words && words % 2 == 0 && bp + words - 2 < mem.Length
      modifies mem
      ensures mem[..] == SetTag(old(mem[..]), bp, Block(words, free))
    {
      SetBlockSize(bp, words);
      SetBit(bp, free, Block(words, true));
    }

    // ----- the free list -------------------------------------------------------------------------

    ghost function State(): Raw
      reads this, mem
    {
      Raw(mem[..], freeHead)
    }

    method InsertAtFreeHead(bp: int)
      requires CanPush(State(), bp)
      modifies this`freeHead, mem
      ensures State() == Push(old(State()), bp)
    {
      mem[bp] := freeHead;
      if freeHead != NULL {
        mem[freeHead + 1] := bp;
      }
      freeHead := bp;
      mem[bp + 1] := HEAD;
    }

    /** Writing NEXT_FREE of the node before the first one writes the freeHead field. */
    method PopFreeBlockOut(bp: int)
      requires CanPop(State(), bp) && State().m[bp + 1] != NULL
      modifies this`freeHead, mem
      ensures State() == Pop(old(State()), bp)
    {
      var prev := mem[bp + 1];
      var next := mem[bp];
      if prev != NULL {
        if prev == HEAD {
          freeHead := next;
        } else {
          mem[prev] := next;
        }
      }
      if next != NULL {
        mem[next + 1] := prev;
      }
    }

    // ----- heapInit -------------------------------------------------------------------------------

    /** The words that heapInit writes make up one free block. */
    static lemma FreshInv(m: Words)
      requires 6 <= |m| && |m| % 2 == 0 && m[0] == 1 && m[|m| - 1] == 1 && m[2] == NULL && m[3] == HEAD
      requires m[1] == Tag(Block(|m| - 2, true)) && m[|m| - 2] == Tag(Block(|m| - 2, true))
      ensures Inv(m, 2, Fresh(|m|))
    {
      hide Tag;
      var v := Fresh(|m|);
      assert Next(v.blk, 2) == |m|;
      assert forall b :: b in v.blk ==> b == 2 && Even(b, v.blk[b]);
    }

    method HeapInit()
      requires Valid()
      modifies this`freeHead, this`inited, this`view, mem
      ensures Valid() && inited && view == old(Heap())
      ensures old(inited) ==> mem[..] == old(mem[..]) && freeHead == old(freeHead)
    {
      hide Inv, Tag;
      if inited {
        return;
      }
      var n := mem.Length;
      mem[0] := 1;
      var bp := 2;
      Mark(bp, n - 2, true);
      freeHead := bp;
      mem[n - 1] := 1;
      mem[bp + 1] := HEAD;
      mem[bp] := NULL;
      FreshInv(mem[..]);
      inited := true;
      view := Fresh(n);
    }

    // ----- malloc ---------------------------------------------------------------------------------

    /** The walk along the free list for the first block of at least asize words. */
    method FindFit(asize: int) returns (curr: int)
      requires Valid() && inited
      ensures curr == NULL <==> FirstFit(view.blk, view.fl, asize) == |view.fl|
      ensures curr != NULL ==> curr == view.fl[FirstFit(view.blk, view.fl, asize)]
    {
      hide Tiling, Aligned, Tags, Even;
      ghost var fl, i := view.fl, 0;
      curr := freeHead;
      while curr != NULL
        invariant 0 <= i <= |fl|
        invariant curr == if i < |fl| then fl[i] else NULL
        invariant forall j :: 0 <= j < i ==> view.blk[fl[j]].size < asize
        decreases |fl| - i
      {
        NodeFacts(mem[..], freeHead, view, i);
        if BlockSize(curr) >= asize {
          return;
        }
        curr := mem[curr];
        i := i + 1;
      }
    }

    /** The body of malloc once a block is found: unlink it, retag it, split off the rest. */
    method Place(curr: int, asize: int, ghost s: int)
      requires CanCarve(State(), curr, s, asize) && State().m[curr + 1] != NULL
      requires asize % 2 == 0 && s % 2 == 0
      requires mem[curr - 1] == Tag(Block(s, true))
      modifies this`freeHead, mem
      ensures State() == CarveRaw(old(State()), curr, s, asize)
    {
      Untag(Block(s, true));
      var size := BlockSize(curr);
      PopFreeBlockOut(curr);
      if size - asize < 4 {
        Mark(curr, size, false);
      } else {
        Cut(curr, size, asize);
      }
    }

    /** The block of `size` words is cut after asize words and the rest put on the list. */
    method Cut(curr: int, size: int, asize: int)
      requires CanCut(State(), curr, size, asize) && asize % 2 == 0 && size % 2 == 0
      modifies this`freeHead, mem
      ensures State() == CutRaw(old(State()), curr, size, asize)
    {
      Mark(curr, asize, false);
      Untag(Block(asize, false));
      EvenSum(size, asize);
      var rest := curr + BlockSize(curr);
      Mark(rest, size - asize, true);
      InsertAtFreeHead(rest);
    }

    static lemma InvParts(m: Words, head: int, v: View)
      requires Inv(m, head, v)
      ensures Tiling(|m|, v.blk) && Lists(v) && Nodes(v.blk, v.fl)
    {
    }

    /** malloc: nullptr for a zero or oversize request, else first fit.  A refused request returns with the mutex
        held. */
    method Malloc(requested: int) returns (p: int)
      requires Valid() && !locked
      requires requested == 0 || (32 <= requested && requested % 16 == 0)
      modifies this, mem
      ensures Valid() && inited && (locked <==> requested == 0 || requested > 8 * mem.Length - 32)
      ensures requested == 0 || requested > 8 * mem.Length - 32 ==> p == NULL && view == old(Heap())
      ensures 0 < requested <= 8 * mem.Length - 32 ==>
                Lists(old(Heap())) && (view, p) == HeapModel.Malloc(old(Heap()), requested / 8)
      ensures 0 < requested <= 8 * mem.Length - 32 ==>
                Nodes(old(Heap()).blk, old(Heap()).fl) && IsFirstFit(old(Heap()), requested / 8, p)
      ensures LiveSame(old(mem[..]), mem[..], old(Heap()).blk)
    {
      hide Inv, Lists, Tiling, IsFirstFit, FirstFit;
      locked := true;
      HeapInit();
      InvParts(mem[..], freeHead, view);
      if requested == 0 || requested > 8 * mem.Length - 32 {
        return NULL;
      }
      var asize := requested / 8;
      MallocIsFirstFit(mem.Length, view, asize);
      p := FindFit(asize);
      if p != NULL {
        Take(p, asize);
      }
      locked := false;
    }

    /** Block p of the free list is handed out. */
    method Take(p: int, asize: int)
      requires Valid() && inited && p in view.fl
      requires 4 <= asize <= view.blk[p].size && asize % 2 == 0
      modifies this`freeHead, this`view, mem
      ensures Valid() && view == Carve(old(view), p, asize)
      ensures LiveSame(old(mem[..]), mem[..], old(view).blk)
    {
      ghost var v := view;
      PlaceFacts(State(), v, p, asize);
      Place(p, asize, v.blk[p].size);
      view := Carve(v, p, asize);
    }

    static lemma PlaceFacts(r: Raw, v: View, b: int, asize: int)
      requires Inv(r.m, r.head, v) && b in v.fl
      requires 4 <= asize <= v.blk[b].size && asize % 2 == 0
      ensures b in v.blk && v.blk[b].free && v.blk[b].size % 2 == 0
      ensures CanCarve(r, b, v.blk[b].size, asize) && r.m[b + 1] != NULL
      ensures r.m[b - 1] == Tag(v.blk[b])
      ensures Inv(CarveRaw(r, b, v.blk[b].size, asize).m, CarveRaw(r, b, v.blk[b].size, asize).head, Carve(v, b, asize))
      ensures LiveSame(r.m, CarveRaw(r, b, v.blk[b].size, asize).m, v.blk)
    {
      CarveCorrect(r, v, b, asize);
      PlaceReads(r, v, b);
    }

    static lemma PlaceReads(r: Raw, v: View, b: int)
      requires Inv(r.m, r.head, v) && b in v.fl && CanPop(r, b)
      ensures b in v.blk && v.blk[b].free && v.blk[b].size % 2 == 0 && 2 <= b
      ensures r.m[b + 1] != NULL
      ensures r.m[b - 1] == Tag(v.blk[b])
    {
      var k :| 0 <= k < |v.fl| && v.fl[k] == b;
      LinksAt(r.m, r.head, v.fl, k);
      HeaderFacts(r.m, r.head, v, b);
    }

    // ----- free -----------------------------------------------------------------------------------

    /** The first loop of rightCoalescing: collect the free blocks directly right of root. */
    method GatherRun(root: int) returns (bps: seq<int>, freed: int, ghost e: int)
      requires Valid() && inited && root in view.blk
      ensures Chain(view.blk, bps, Next(view.blk, root), e)
      ensures e == RunEnd(mem.Length, view.blk, Next(view.blk, root))
      ensures freed == e - Next(view.blk, root)
    {
      hide Even, RunEnd, Tiling, GetSize, GetAlloc, Tags, Links, Spaced;
      ghost var c := Next(view.blk, root);
      HeaderFacts(mem[..], freeHead, view, root);
      var currBp := root;
      bps, freed := [], 0;
      while true
        invariant currBp in view.blk && Next(view.blk, currBp) == c + freed
        invariant Chain(view.blk, bps, c, c + freed)
        decreases mem.Length - currBp
      {
        HeaderFacts(mem[..], freeHead, view, currBp);
        var nextBp := currBp + BlockSize(currBp);
        if nextBp >= mem.Length {
          break;
        }
        HeaderFacts(mem[..], freeHead, view, nextBp);
        if GetAlloc(mem[nextBp - 1]) != 0 {
          break;
        }
        ChainAppend(view.blk, bps, c, nextBp);
        bps := bps + [nextBp];
        freed := freed + BlockSize(nextBp);
        currBp := nextBp;
      }
      e := c + freed;
      ChainEnd(mem.Length, view.blk, bps, c, e);
    }

    /** One round of the second loop of rightCoalescing. */
    method PopOne(bp: int, ghost m0: Words, ghost n: int, ghost v: View, ghost root: int, ghost e: int)
      requires Tiling(n, v.blk) && Lists(v) && bp in v.blk && v.blk[bp].free && root < bp
      requires Popping(m0, State(), Swallow(v, root, e).blk, Outside(v.fl, root, bp))
      modifies this`freeHead, mem
      ensures Popping(m0, State(), Swallow(v, root, e).blk, Outside(v.fl, root, Next(v.blk, bp)))
    {
      MergeRound(m0, State(), n, v, root, e, bp);
      PopFreeBlockOut(bp);
    }

    /** The second loop of rightCoalescing: the collected blocks leave the list one by one. */
    method PopRun(bps: seq<int>, ghost m0: Words, ghost n: int, ghost v: View, ghost root: int, ghost e: int)
      requires Tiling(n, v.blk) && Lists(v) && root in v.blk
      requires Chain(v.blk, bps, Next(v.blk, root), e)
      requires Popping(m0, State(), Swallow(v, root, e).blk, v.fl)
      modifies this`freeHead, mem
      ensures Popping(m0, State(), Swallow(v, root, e).blk, Outside(v.fl, root, e))
    {
      ghost var c := Next(v.blk, root);
      HoleStart(n, v, root);
      for i := 0 to |bps|
        invariant c == (if i < |bps| then bps[i] else e) && root < c
        invariant Popping(m0, State(), Swallow(v, root, e).blk, Outside(v.fl, root, c))
      {
        ChainAt(n, v.blk, bps, Next(v.blk, root), e, i);
        PopOne(bps[i], m0, n, v, root, e);
        c := After(bps, i, e);
      }
    }

    /** The writes of rightCoalescing: one new tag, then the popping. */
    method Merge(root: int, freed: int, bps: seq<int>, ghost v: View, ghost e: int)
      requires Mergeable(State(), v, root, e) && freed == e - Next(v.blk, root)
      requires Chain(v.blk, bps, Next(v.blk, root), e)
      modifies this`freeHead, mem
      ensures Inv(mem[..], freeHead, Swallow(v, root, e))
      ensures LiveSame(old(mem[..]), mem[..], Swallow(v, root, e).blk)
    {
      hide Outside, SetTag, Popping, Tiling, Lists, Links;
      ghost var m0, n := mem[..], mem.Length;
      Mark(root, freed + BlockSize(root), true);
      assert State() == Raw(SetTag(m0, root, Block(e - root, true)), freeHead);
      PopRun(bps, m0, n, v, root, e);
      MergeEnd(m0, State(), n, v, root, e);
    }

    /** The collected run is merged into root. */
    method MergeRun(root: int, freed: int, bps: seq<int>, ghost e: int)
      requires Valid() && inited && root in view.blk && view.blk[root].free
      requires e == RunEnd(mem.Length, view.blk, Next(view.blk, root)) && freed == e - Next(view.blk, root)
      requires Chain(view.blk, bps, Next(view.blk, root), e)
      modifies this`freeHead, this`view, mem
      ensures Valid() && view == Swallow(old(view), root, e)
      ensures LiveSame(old(mem[..]), mem[..], view.blk)
    {
      hide Inv, Mergeable, Swallow, Tiling, LooseLinks;
      ghost var v := view;
      MergeFacts(State(), v, root, e);
      Merge(root, freed, bps, v, e);
      view := Swallow(v, root, e);
    }

    /** rightCoalescing: root takes over the run of free blocks to its right. */
    method RightCoalescing(root: int)
      requires Valid() && inited && root in view.blk && view.blk[root].free
      modifies this`freeHead, this`view, mem
      ensures Valid() && view == Coalesce(mem.Length, old(view), root)
      ensures LiveSame(old(mem[..]), mem[..], view.blk)
    {
      var bps, freed;
      ghost var e;
      bps, freed, e := GatherRun(root);
      if freed == 0 {
        NothingToMerge(mem.Length, view, root);
      } else {
        MergeRun(root, freed, bps, e);
      }
    }

    static lemma FreedFacts(v: View, b: int)
      requires b in v.blk
      ensures b in Release(v, b).blk && Release(v, b).blk[b].free
    {
    }

    /** The first half of free: mark, and put at the front of the list. */
    method MarkFree(addr: int)
      requires Valid() && inited && addr in view.blk && !view.blk[addr].free
      modifies this`freeHead, this`view, mem
      ensures Valid() && view == Release(old(view), addr) && LiveSame(old(mem[..]), mem[..], view.blk)
    {
      ghost var v := view;
      HeaderFacts(mem[..], freeHead, view, addr);
      ReleaseCorrect(State(), v, addr);
      SetBit(addr, true, v.blk[addr]);
      InsertAtFreeHead(addr);
      view := Release(v, addr);
    }

    /** free: mark, put at the front of the list, merge to the right. */
    method Free(addr: int)
      requires Valid() && inited && !locked && addr in view.blk && !view.blk[addr].free
      modifies this`freeHead, this`view, this`locked, mem
      ensures Valid() && !locked && view == HeapModel.Free(mem.Length, old(view), addr)
      ensures LiveSame(old(mem[..]), mem[..], view.blk)
    {
      hide Release, LiveSame, Swallow;
      locked := true;
      ghost var m0, v := mem[..], view;
      FreedFacts(v, addr);
      MarkFree(addr);
      ghost var m1 := mem[..];
      RightCoalescing(addr);
      CoalesceLive(m0, m1, mem[..], Release(v, addr), addr,
                   RunEnd(mem.Length, Release(v, addr).blk, Next(Release(v, addr).blk, addr)));
      locked := false;
    }

    // ----- reading the heap -----------------------------------------------------------------------

    /** maxAllocatableSize, in words. */
    method MaxAllocatableSize() returns (max: int)
      requires Valid()
      modifies this`freeHead, this`inited, this`view, mem
      ensures Valid() && inited && view == old(Heap())
      ensures old(inited) ==> mem[..] == old(mem[..]) && freeHead == old(freeHead)
      ensures Nodes(view.blk, view.fl) && max == MaxSize(view.blk, view.fl)
    {
      HeapInit();
      max := LargestListed();
    }

    /** The walk of maxAllocatableSize. */
    method LargestListed() returns (max: int)
      requires Valid() && inited
      ensures Nodes(view.blk, view.fl) && max == MaxSize(view.blk, view.fl)
    {
      hide GetSize, Tiling, Tags;
      ghost var fl, i := view.fl, 0;
      MaxFromIs(view.blk, fl, 0);
      var curr := freeHead;
      max := 0;
      while curr != NULL
        invariant 0 <= i <= |fl|
        invariant curr == if i < |fl| then fl[i] else NULL
        invariant 0 <= max && MaxSize(view.blk, fl) == Max(max, MaxFrom(view.blk, fl, i))
        decreases |fl| - i
      {
        NodeFacts(mem[..], freeHead, view, i);
        if BlockSize(curr) > max {
          max := BlockSize(curr);
        }
        curr := mem[curr];
        i := i + 1;
      }
    }

    /** isEmpty: the first block of the list spans the whole payload. */
    method IsEmpty() returns (empty: bool)
      requires Valid() && inited
      ensures empty <==> view.blk == map[2 := Block(mem.Length - 2, true)]
    {
      EmptyFacts(mem[..], freeHead, view);
      empty := freeHead != NULL && 8 * BlockSize(freeHead) == 8 * mem.Length - 16;
    }

    /** getTailFreeBlock: the offset (in words) of the last block if it is free, else the page size. */
    method GetTailFreeBlock() returns (offset: int)
      requires Valid() && inited
      ensures offset == TailOffset(mem.Length, view.blk)
      ensures forall b :: b in view.blk && Next(view.blk, b) == mem.Length ==>
          offset == if view.blk[b].free then b else mem.Length
    {
      forall b | b in view.blk && Next(view.blk, b) == mem.Length
        ensures TailOffset(mem.Length, view.blk) == if view.blk[b].free then b else mem.Length
      {
        TailOffsetIs(mem.Length, view.blk, b);
      }
      TailFacts(mem[..], freeHead, view);
      var footer := mem.Length - 2;
      if GetAlloc(mem[footer]) == 0 {
        offset := footer - (GetSize(mem[footer]) / 8 - 2);
      } else {
        offset := mem.Length;
      }
    }

    // ----- the allocator's own check ----------------------------------------------------------------

    /** The first loop of debugPrint: the bytes on the free list. */
    method SumFreeList() returns (sum: int)
      requires Valid() && inited
      ensures Nodes(view.blk, view.fl) && sum == 8 * ListedFrom(view.blk, view.fl, 0, 2)
    {
      hide GetSize, Tiling, Tags;
      ghost var fl, i := view.fl, 0;
      sum := 0;
      var curr := freeHead;
      while curr != NULL
        invariant 0 <= i <= |fl|
        invariant curr == if i < |fl| then fl[i] else NULL
        invariant 8 * ListedFrom(view.blk, fl, 0, 2) == sum + 8 * ListedFrom(view.blk, fl, i, 2)
        decreases |fl| - i
      {
        NodeFacts(mem[..], freeHead, view, i);
        sum := sum + 8 * BlockSize(curr);
        curr := mem[curr];
        i := i + 1;
      }
    }

    /** The second loop of debugPrint: the bytes in free and in allocated blocks. */
    method SumBlocks() returns (free: int, used: int)
      requires Valid() && inited
      ensures free == 8 * FreeFrom(mem.Length, view.blk, 2) && used == 8 * UsedFrom(mem.Length, view.blk, 2)
    {
      hide Tag, Tags, Links, Lists, Aligned;
      var curr := 2;
      free, used := 0, 0;
      while curr != mem.Length
        invariant curr == mem.Length || curr in view.blk
        invariant 8 * FreeFrom(mem.Length, view.blk, 2) == free + 8 * FreeFrom(mem.Length, view.blk, curr)
        invariant 8 * UsedFrom(mem.Length, view.blk, 2) == used + 8 * UsedFrom(mem.Length, view.blk, curr)
        decreases mem.Length - curr
      {
        HeaderFacts(mem[..], freeHead, view, curr);
        if GetAlloc(mem[curr - 1]) != 0 {
          used := used + 8 * BlockSize(curr);
        } else {
          free := free + 8 * BlockSize(curr);
        }
        curr := curr + BlockSize(curr);
      }
    }

    /** debugPrint: neither of its two complaints can occur. */
    method DebugPrint() returns (sizesMismatch: bool, listMismatch: bool)
      requires Valid() && inited
      ensures !sizesMismatch && !listMismatch
    {
      var listed := SumFreeList();
      var free, used := SumBlocks();
      SizesAddUp(mem.Length, view.blk, 2);
      ListSumIsFreeSum(mem.Length, view, 2);
      sizesMismatch := free + used != 8 * mem.Length - 16;
      listMismatch := listed != free;
    }
  }
}
