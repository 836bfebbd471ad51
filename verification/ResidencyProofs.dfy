/** Every residency call keeps the page's invariant and the application's words. */
module ResidencyProofs {
  import opened HeapModel
  import opened SwapImage
  import opened Residency

  /** Same owner and same logical words mean the same cells. */
  lemma CellsSame(n: int, x: Slice, x': Slice)
    requires 0 <= n && Readable(n, x) && Readable(n, x')
    requires forall j :: 0 <= j < n ==> (Owned(x'.pod, j) <==> Owned(x.pod, j))
    requires forall j :: 0 <= j < n && Owned(x.pod, j) ==> Logical(n, x')[j] == Logical(n, x)[j]
    ensures Cells(n, x') == Cells(n, x)
  {
  }

  // ----- swapping out --------------------------------------------------------------------------------

  /** The image a page leaves behind reads back as the same heap with the same live words. */
  lemma StoredNowReads(n: int, x: Slice, z: Words)
    requires Cuttable(n, x.pod) && |z| == n
    ensures WellFormed(n, StoredNow(n, x.pod))
    ensures x.pod.small ==> Inv(Load(z, StoredNow(n, x.pod)), x.pod.head, x.pod.view)
                            && LiveSame(x.pod.mem, Load(z, StoredNow(n, x.pod)), x.pod.view.blk)
    ensures !x.pod.small ==> Load(z, StoredNow(n, x.pod)) == x.pod.mem
  {
    CutBounds(n, x.pod);
    if x.pod.small {
      TrimRoundTrip(x.pod.mem, x.pod.head, x.pod.view, z);
    } else {
      WholeRoundTrip(x.pod.mem, z);
    }
  }

  /** The live words of a page survive in any logical contents that keeps live data. */
  lemma LiveCells(n: int, x: Slice, x': Slice)
    requires 0 <= n && Readable(n, x) && Readable(n, x')
    requires x'.pod.small == x.pod.small && x'.pod.view == x.pod.view && x'.pod.buf == x.pod.buf
    requires x'.pod.isFree == x.pod.isFree && !x.pod.state.Init? && !x'.pod.state.Init?
    requires if x.pod.small then LiveSame(Logical(n, x), Logical(n, x'), x.pod.view.blk)
        else Logical(n, x') == Logical(n, x)
    ensures Cells(n, x') == Cells(n, x)
  {
  }

  lemma DiskStored(n: int, x: Slice)
    requires Storable(n, x)
    ensures Cuttable(n, x.pod) && Readable(n, LocalToDisk(n, x)) && Stored(n, LocalToDisk(n, x)) == StoredNow(n, x.pod)
  {
  }

  /** The save finds its key absent, so the node holds exactly the image just sent. */
  lemma RemoteStored(n: int, x: Slice, k: int)
    requires Storable(n, x) && 0 <= k < |x.held|
    ensures x.held[k].None? && Cuttable(n, x.pod)
    ensures Readable(n, LocalToRemote(n, x, k)) && Stored(n, LocalToRemote(n, x, k)) == StoredNow(n, x.pod)
  {
  }

  lemma SwapOutKeeps(n: int, x: Slice, dest: Option<int>, x': Slice)
    requires Storable(n, x) && Cuttable(n, x.pod) && SwapOut(n, x, dest, x')
    ensures SliceInv(n, x') && Cells(n, x') == Cells(n, x)
  {
    CutFits(n, x);
    StoredNowReads(n, x, Zeros(n));
    if dest.Some? {
      RemoteStored(n, x, dest.value);
    } else {
      DiskStored(n, x);
    }
    LiveCells(n, x, x');
  }

  /** Giving up the contents loses no cell when the heap is empty or the page run is free. */
  lemma DropKeeps(n: int, x: Slice)
    requires Storable(n, x)
    requires if x.pod.small then HeapEmpty(n, x.pod) && x.pod.buf == [] else x.pod.isFree
    ensures SliceInv(n, ToInit(n, x)) && Cells(n, ToInit(n, x)) == Cells(n, x)
  {
  }

  lemma FlushKeeps(n: int, x: Slice, x1: Slice)
    requires Storable(n, x) && (x.pod.small ==> Tiling(n, x.pod.view.blk) && Pending(x.pod.view.blk, x.pod.buf))
    requires Flush(n, x.pod, x1.pod) && x1 == x.(pod := x1.pod)
    ensures Storable(n, x1) && Cells(n, x1) == Cells(n, x)
    ensures x1.pod.buf == [] && x1.pod.small == x.pod.small && x1.pod.isFree == x.pod.isFree
  {
    FlushStorable(n, x, x1);
    CutFits(n, x);
    CutFits(n, x1);
    if x.pod.small {
      forall j | 0 <= j < n
        ensures Owned(x1.pod, j) <==> Owned(x.pod, j)
        ensures Owned(x.pod, j) ==> Logical(n, x1)[j] == Logical(n, x)[j]
      {
        FlushKeepsLive(n, x.pod, x1.pod, j);
      }
      CellsSame(n, x, x1);
    }
  }

  lemma EvictLocalKeeps(n: int, x: Slice, x1: Slice, benched: bool, dest: Option<int>, x': Slice)
    requires Storable(n, x) && EvictLocal(n, x, x1, benched, dest, x')
    ensures SliceInv(n, x') && Cells(n, x') == Cells(n, x)
  {
    CutFits(n, x);
    if x.pod.small {
      FlushKeeps(n, x, x1);
      CutFits(n, x1);
      if HeapEmpty(n, x1.pod) {
        DropKeeps(n, x1);
      } else if benched {
        SwapOutKeeps(n, x1, dest, x');
      }
    } else if x.pod.isFree {
      DropKeeps(n, x);
    } else {
      SwapOutKeeps(n, x, dest, x');
    }
  }

  // ----- caches ----------------------------------------------------------------------------------------

  /** A page read back over its empty memory is the logical page. */
  lemma ReadBackIsLogical(n: int, x: Slice)
    requires SliceInv(n, x) && (x.pod.state.Disk? || x.pod.state.Remote?)
    ensures ReadBack(n, x).mem == Logical(n, x)
  {
  }

  /** A blank page reads as zeros. */
  ghost function Blank(n: int): map<int, int>
    requires 0 <= n
  {
    map j | 0 <= j < n :: Zeros(n)[j]
  }

  /** The application's words are unchanged, except that a page that held none may show up blank. */
  ghost predicate SameCells(n: int, c: map<int, int>, c': map<int, int>)
    requires 0 <= n
  {
    c' == c || (c == map[] && c' == Blank(n))
  }

  lemma PrefetchKeeps(n: int, x: Slice, x': Slice)
    requires SliceInv(n, x) && Prefetch(n, x, x')
    ensures SliceInv(n, x') && SameCells(n, Cells(n, x), Cells(n, x'))
  {
    if x.pod.state.Disk? {
      CachedKeeps(n, x, DiskCache);
    } else if x.pod.state.Remote? {
      CachedKeeps(n, x, RemoteCache);
    } else if x.pod.state.Init? {
      InitKeeps(n, x);
    }
  }

  /** Reading a copy into local memory, with the original left where it is. */
  lemma CachedKeeps(n: int, x: Slice, st: PodState)
    requires SliceInv(n, x)
    requires (x.pod.state.Disk? && st == DiskCache) || (x.pod.state.Remote? && st == RemoteCache)
    ensures SliceInv(n, x.(pod := ReadBack(n, x).(state := st)))
    ensures Cells(n, x.(pod := ReadBack(n, x).(state := st))) == Cells(n, x)
  {
    ReadBackIsLogical(n, x);
    assert Stored(n, x.(pod := ReadBack(n, x).(state := st))) == Stored(n, x);
    CellsSame(n, x, x.(pod := ReadBack(n, x).(state := st)));
  }

  /** initToLocal: an empty page becomes writable. */
  lemma InitKeeps(n: int, x: Slice)
    requires SliceInv(n, x) && x.pod.state.Init?
    ensures SliceInv(n, x.(pod := x.pod.(state := Local)))
    ensures SameCells(n, Cells(n, x), Cells(n, x.(pod := x.pod.(state := Local))))
  {
  }

  /** Dropping a cached copy. */
  lemma DropCacheKeeps(n: int, x: Slice, st: PodState)
    requires SliceInv(n, x)
    requires (x.pod.state.DiskCache? && st == Disk) || (x.pod.state.RemoteCache? && st == Remote)
    ensures SliceInv(n, x.(pod := x.pod.(state := st, mem := Zeros(n))))
    ensures Cells(n, x.(pod := x.pod.(state := st, mem := Zeros(n)))) == Cells(n, x)
  {
    assert Stored(n, x.(pod := x.pod.(state := st, mem := Zeros(n)))) == Stored(n, x);
    CellsSame(n, x, x.(pod := x.pod.(state := st, mem := Zeros(n))));
  }

  lemma EvictKeeps(n: int, x: Slice, x1: Slice, benched: bool, dest: Option<int>, x': Slice)
    requires SliceInv(n, x) && Evict(n, x, x1, benched, dest, x')
    ensures SliceInv(n, x') && Cells(n, x') == Cells(n, x)
  {
    match x.pod.state
    case Local => EvictLocalKeeps(n, x, x1, benched, dest, x');
    case DiskCache => DropCacheKeeps(n, x, Disk);
    case RemoteCache => DropCacheKeeps(n, x, Remote);
    case _ =>
  }

  // ----- swapping in -----------------------------------------------------------------------------------

  /** The page on arrival, with its backing copy gone and nothing flushed yet. */
  ghost function ArrivedSlice(n: int, x: Slice): Slice
    requires SliceInv(n, x)
  {
    Slice(Arrived(n, x), if OnDisk(x.pod) then None else x.file,
          if OnNode(x.pod) then x.held[x.pod.landlord := None] else x.held)
  }

  lemma ArrivedReadable(n: int, x: Slice)
    requires SliceInv(n, x) && (OnDisk(x.pod) || OnNode(x.pod))
    ensures Readable(n, ArrivedSlice(n, x)) && Logical(n, ArrivedSlice(n, x)) == Logical(n, x)
    ensures Arrived(n, x).mem == Logical(n, x)
  {
    ArrivedFlushable(n, x);
    ArrivedBacked(n, x);
    InMemoryReadable(n, ArrivedSlice(n, x));
  }

  lemma ArrivedBacked(n: int, x: Slice)
    requires SliceInv(n, x) && (OnDisk(x.pod) || OnNode(x.pod))
    ensures Backed(ArrivedSlice(n, x)) && ArrivedSlice(n, x).pod.state == Local
  {
    hide Inv, Logical, Stored;
  }

  /** A page in memory is its own image. */
  lemma InMemoryReadable(n: int, x: Slice)
    requires 0 <= n == |x.pod.mem| && Backed(x) && !OnDisk(x.pod) && !OnNode(x.pod)
    ensures Readable(n, x) && Logical(n, x) == x.pod.mem
  {
  }

  /** The parts of a page that no move changes. */
  ghost predicate SameHeap(p: Pod, p': Pod) {
    && p'.small == p.small && p'.head == p.head && p'.view == p.view && p'.buf == p.buf && p'.isFree == p.isFree
  }

  lemma ArrivedSameHeap(n: int, x: Slice)
    requires SliceInv(n, x)
    ensures SameHeap(x.pod, Arrived(n, x)) && Arrived(n, x).state.Local?
  {
  }

  /** A page that became local with its logical words and its heap unchanged. */
  lemma MovedIn(n: int, x: Slice, y: Slice)
    requires SliceInv(n, x) && !x.pod.state.Init? && Readable(n, y) && Logical(n, y) == Logical(n, x)
    requires SameHeap(x.pod, y.pod) && y.pod.state.Local?
    ensures Storable(n, y) && Cells(n, y) == Cells(n, x)
  {
  }

  lemma ArrivedKeeps(n: int, x: Slice)
    requires SliceInv(n, x) && (OnDisk(x.pod) || OnNode(x.pod))
    ensures Storable(n, ArrivedSlice(n, x)) && Cells(n, ArrivedSlice(n, x)) == Cells(n, x)
  {
    ArrivedReadable(n, x);
    ArrivedSameHeap(n, x);
    MovedIn(n, x, ArrivedSlice(n, x));
  }

  lemma ActivateKeeps(n: int, x: Slice, x': Slice)
    requires SliceInv(n, x) && Activate(n, x, x')
    ensures SliceInv(n, x') && SameCells(n, Cells(n, x), Cells(n, x'))
  {
    if OnDisk(x.pod) || OnNode(x.pod) {
      ArrivedKeeps(n, x);
      FlushKeeps(n, ArrivedSlice(n, x), x');
    } else if x.pod.state.Init? {
      InitKeeps(n, x);
    }
  }
}
