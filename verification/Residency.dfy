/** The residency of one page: where its words are, and how each call on it moves them.

    A page is in one of seven states.  Its words live in local memory, in a swap file, or at a memory
    node (its landlord), with a second copy in local memory in the two cache states.  Exchanges with a
    memory node are taken as atomic. */
module Residency {
  import opened HeapModel
  import opened HeapProofs
  import opened HeapTheorems
  import opened SwapImage

  datatype Option<T> = None | Some(value: T)

  datatype PodState = Init | Local | LocalPinned | Disk | Remote | DiskCache | RemoteCache

  /** One page.  `small` says that the small-block heap is initialised on it; `view` is then that heap,
      and `buf` the pointers whose release is postponed.  `sent` and `tail` remember how a swapped-out
      page was cut; `isFree` is the page-run allocator's flag. */
  datatype Pod = Pod(state: PodState, mem: Words, small: bool, head: int, ghost view: View, buf: seq<int>,
                     isFree: bool, landlord: int, sent: int, tail: Words)

  const NOBODY := -1

  /** A page with everything stored for it elsewhere: its swap file, and what each memory node holds
      under its key. */
  datatype Slice = Slice(pod: Pod, file: Option<Words>, held: seq<Option<Words>>)

  predicate OnDisk(p: Pod) { p.state.Disk? || p.state.DiskCache? }

  predicate OnNode(p: Pod) { p.state.Remote? || p.state.RemoteCache? }

  predicate InMemory(p: Pod) { p.state.Local? || p.state.LocalPinned? }

  // ----- the invariant of a page ------------------------------------------------------------------

  /** A swap file exists exactly in the two disk states; node k holds the page's key exactly when the
      page is in one of the two remote states and k is its landlord. */
  ghost predicate Backed(x: Slice) {
    && (x.file.Some? <==> OnDisk(x.pod))
    && (OnNode(x.pod) ==> 0 <= x.pod.landlord < |x.held|)
    && (forall k :: 0 <= k < |x.held| ==> (x.held[k].Some? <==> OnNode(x.pod) && x.pod.landlord == k))
  }

  /** What is stored of a swapped-out page. */
  ghost function Stored(n: int, x: Slice): Image
    requires Backed(x) && (OnDisk(x.pod) ==> 0 <= x.pod.sent <= |x.file.value|)
  {
    if OnDisk(x.pod) then Image(x.file.value[..x.pod.sent], x.file.value[x.pod.sent..])
    else if OnNode(x.pod) then Image(x.held[x.pod.landlord].value, if x.pod.sent == n then [] else x.pod.tail)
    else Image(x.pod.mem, [])
  }

  /** The stored image is complete and was cut at `sent`. */
  ghost predicate Readable(n: int, x: Slice) {
    && Backed(x)
    && |x.pod.mem| == n
    && (OnDisk(x.pod) ==> 0 <= x.pod.sent <= |x.file.value|)
    && WellFormed(n, Stored(n, x))
    && (OnDisk(x.pod) || OnNode(x.pod) ==> |Stored(n, x).prefix| == x.pod.sent)
  }

  /** The page's words as the application sees them. */
  ghost function Logical(n: int, x: Slice): Words
    requires 0 <= n && Readable(n, x)
  {
    Load(Zeros(n), Stored(n, x))
  }

  /** The postponed releases name distinct allocated blocks. */
  ghost predicate Pending(blk: map<int, Block>, buf: seq<int>) {
    && (forall i :: 0 <= i < |buf| ==> buf[i] in blk && !blk[buf[i]].free)
    && (forall i, j :: 0 <= i < j < |buf| ==> buf[i] != buf[j])
  }

  ghost predicate SliceInv(n: int, x: Slice) {
    && 6 <= n && n % 2 == 0
    && Readable(n, x)
    && (x.pod.state.Init? || x.pod.state.Disk? || x.pod.state.Remote? ==> x.pod.mem == Zeros(n))
    && (x.pod.state.DiskCache? || x.pod.state.RemoteCache? ==> x.pod.mem == Logical(n, x))
    && (x.pod.state.Init? ==> !x.pod.small)
    && (if x.pod.small then Inv(Logical(n, x), x.pod.head, x.pod.view) && Pending(x.pod.view.blk, x.pod.buf)
        else x.pod.buf == [])
  }

  // ----- what the application owns ------------------------------------------------------------------

  /** Word j belongs to a live block of the heap whose release is not pending. */
  ghost predicate IsLive(blk: map<int, Block>, buf: seq<int>, j: int) {
    exists b :: Payload(blk, b, j) && b !in buf
  }

  /** Word j of the page belongs to the application. */
  ghost predicate Owned(p: Pod, j: int) {
    !p.state.Init? && if p.small then IsLive(p.view.blk, p.buf, j) else !p.isFree
  }

  /** The application's words on the page, by position. */
  ghost function Cells(n: int, x: Slice): map<int, int>
    requires 0 <= n && Readable(n, x)
  {
    map j | 0 <= j < n && Owned(x.pod, j) :: Logical(n, x)[j]
  }

  // ----- flushing postponed releases -----------------------------------------------------------------

  /** The heap after releasing the buffered blocks one after the other. */
  ghost function FreeAll(n: int, v: View, buf: seq<int>): View
    requires Tiling(n, v.blk) && Pending(v.blk, buf)
    decreases |buf|
  {
    if buf == [] then v
    else
      FreeKeepsPending(n, v, buf);
      FreeAll(n, Free(n, v, buf[0]), buf[1..])
  }

  lemma FreeKeepsPending(n: int, v: View, buf: seq<int>)
    requires Tiling(n, v.blk) && Pending(v.blk, buf) && buf != []
    ensures Tiling(n, Free(n, v, buf[0]).blk) && Pending(Free(n, v, buf[0]).blk, buf[1..])
  {
    FreeGives(n, v, buf[0]);
    var e := FreeIsSwallow(n, v, buf[0]);
    SwallowTiling(n, Release(v, buf[0]), buf[0], e);
  }

  /** The allocated blocks after a flush are those before it, less the buffered ones. */
  lemma {:induction false} FreeAllGives(n: int, v: View, buf: seq<int>, b: int)
    requires Tiling(n, v.blk) && Pending(v.blk, buf)
    ensures (b in FreeAll(n, v, buf).blk && !FreeAll(n, v, buf).blk[b].free) <==> (b in v.blk && !v.blk[b].free
        && b !in buf)
    ensures b in v.blk && !v.blk[b].free && b !in buf ==> FreeAll(n, v, buf).blk[b] == v.blk[b]
    decreases |buf|
  {
    if buf != [] {
      FreeKeepsPending(n, v, buf);
      FreeGives(n, v, buf[0]);
      FreeAllGives(n, Free(n, v, buf[0]), buf[1..], b);
      assert b in buf <==> b == buf[0] || b in buf[1..];
    }
  }

  /** flushFreeBuffer on a page in memory. */
  ghost predicate Flush(n: int, p: Pod, p': Pod)
    requires |p.mem| == n && (p.small ==> Tiling(n, p.view.blk) && Pending(p.view.blk, p.buf))
  {
    if !p.small then p' == p
    else
      && p' == p.(mem := p'.mem, head := p'.head, view := FreeAll(n, p.view, p.buf), buf := [])
      && Inv(p'.mem, p'.head, p'.view)
      && LiveSame(p.mem, p'.mem, p'.view.blk)
  }

  lemma FlushKeepsLive(n: int, p: Pod, p': Pod, j: int)
    requires |p.mem| == n && p.small && Tiling(n, p.view.blk) && Pending(p.view.blk, p.buf) && Flush(n, p, p')
    requires 0 <= j < n
    ensures IsLive(p'.view.blk, p'.buf, j) <==> IsLive(p.view.blk, p.buf, j)
    ensures IsLive(p'.view.blk, p'.buf, j) ==> p'.mem[j] == p.mem[j]
  {
    if IsLive(p'.view.blk, [], j) {
      var b :| Payload(p'.view.blk, b, j) && b !in [];
      FreeAllGives(n, p.view, p.buf, b);
      assert Payload(p.view.blk, b, j);
    }
    if IsLive(p.view.blk, p.buf, j) {
      var b :| Payload(p.view.blk, b, j) && b !in p.buf;
      FreeAllGives(n, p.view, p.buf, b);
      assert Payload(p'.view.blk, b, j);
    }
  }

  // ----- the calls on a page --------------------------------------------------------------------------

  /** getTailOffset: a heap page is cut at its free tail, any other page is stored whole. */
  ghost function Cut(n: int, p: Pod): int
    requires p.small ==> Tiling(n, p.view.blk)
  {
    if p.small then TailOffset(n, p.view.blk) else n
  }

  /** The page's words are in memory with its heap intact. */
  ghost predicate Cuttable(n: int, p: Pod) {
    6 <= n == |p.mem| && n % 2 == 0 && (p.small ==> Inv(p.mem, p.head, p.view))
  }

  lemma CutBounds(n: int, p: Pod)
    requires Cuttable(n, p)
    ensures 0 <= Cut(n, p) <= n && (Cut(n, p) < n ==> Cut(n, p) + 4 <= n)
  {
  }

  /** What is kept of the page when it is swapped out now. */
  ghost function StoredNow(n: int, p: Pod): Image
    requires Cuttable(n, p)
  {
    CutBounds(n, p);
    Store(p.mem, Cut(n, p))
  }

  ghost function DiskPod(n: int, p: Pod): Pod
    requires Cuttable(n, p)
  {
    p.(state := Disk, mem := Zeros(n), sent := Cut(n, p))
  }

  ghost function RemotePod(n: int, p: Pod, k: int): Pod
    requires Cuttable(n, p)
  {
    p.(state := Remote, mem := Zeros(n), sent := Cut(n, p), landlord := k,
       tail := if Cut(n, p) == n then p.tail else StoredNow(n, p).rest)
  }

  /** The page can be stored: it is local and intact. */
  ghost predicate Storable(n: int, x: Slice) {
    SliceInv(n, x) && x.pod.state.Local?
  }

  lemma CutFits(n: int, x: Slice)
    requires Storable(n, x)
    ensures Cuttable(n, x.pod) && Logical(n, x) == x.pod.mem
    ensures x.pod.small ==> Tiling(n, x.pod.view.blk) && Pending(x.pod.view.blk, x.pod.buf)
  {
  }

  /** localToDisk */
  ghost function LocalToDisk(n: int, x: Slice): Slice
    requires Cuttable(n, x.pod)
  {
    Slice(DiskPod(n, x.pod), Some(StoredNow(n, x.pod).prefix + StoredNow(n, x.pod).rest), x.held)
  }

  /** The memory node's save handler: an insert, which keeps an image already stored under the key. */
  function Insert(present: Option<Words>, image: Words): Option<Words> {
    if present.Some? then present else Some(image)
  }

  /** savePodToRemote at node k, then localToRemote */
  ghost function LocalToRemote(n: int, x: Slice, k: int): Slice
    requires Cuttable(n, x.pod) && 0 <= k < |x.held|
  {
    Slice(RemotePod(n, x.pod, k), x.file, x.held[k := Insert(x.held[k], StoredNow(n, x.pod).prefix)])
  }

  /** localToInit, diskToInit and remoteToInit: the contents are given up. */
  ghost function ToInit(n: int, x: Slice): Slice
    requires 0 <= n && (x.pod.state.Remote? ==> 0 <= x.pod.landlord < |x.held|)
  {
    Slice(x.pod.(state := Init, mem := Zeros(n), small := false,
                 landlord := if x.pod.state.Remote? then NOBODY else x.pod.landlord),
          if x.pod.state.Disk? then None else x.file,
          if x.pod.state.Remote? then x.held[x.pod.landlord := None] else x.held)
  }

  /** The page with its stored words read back over its memory. */
  ghost function ReadBack(n: int, x: Slice): Pod
    requires Readable(n, x)
  {
    x.pod.(mem := Load(x.pod.mem, Stored(n, x)))
  }

  /** The page as it becomes local, before postponed releases are flushed. */
  ghost function Arrived(n: int, x: Slice): Pod
    requires SliceInv(n, x)
  {
    match x.pod.state
    case Disk => ReadBack(n, x).(state := Local)
    case Remote => ReadBack(n, x).(state := Local, landlord := NOBODY)
    case RemoteCache => x.pod.(state := Local, landlord := NOBODY)
    case _ => x.pod.(state := Local)
  }

  lemma ArrivedFlushable(n: int, x: Slice)
    requires SliceInv(n, x) && !x.pod.state.Init?
    ensures Arrived(n, x).mem == Logical(n, x) && |Arrived(n, x).mem| == n
    ensures Arrived(n, x).view == x.pod.view && Arrived(n, x).buf == x.pod.buf && Arrived(n, x).small == x.pod.small
    ensures x.pod.small ==> Tiling(n, x.pod.view.blk) && Pending(x.pod.view.blk, x.pod.buf)
    ensures OnNode(x.pod) ==> 0 <= x.pod.landlord < |x.held|
  {
  }

  /** activatePod */
  ghost predicate Activate(n: int, x: Slice, x': Slice)
    requires SliceInv(n, x)
  {
    match x.pod.state
    case Local => x' == x
    case LocalPinned => x' == x
    case Init => x' == x.(pod := x.pod.(state := Local))
    case _ =>
      hide Arrived, Inv, Readable, Tiling, Pending;
      ArrivedFlushable(n, x);
      && Flush(n, Arrived(n, x), x'.pod)
      && x'.file == (if OnDisk(x.pod) then None else x.file)
      && x'.held == (if OnNode(x.pod) then x.held[x.pod.landlord := None] else x.held)
  }

  /** prefetchPod */
  ghost predicate Prefetch(n: int, x: Slice, x': Slice)
    requires SliceInv(n, x)
  {
    match x.pod.state
    case Disk => x' == x.(pod := ReadBack(n, x).(state := DiskCache))
    case Remote => x' == x.(pod := ReadBack(n, x).(state := RemoteCache))
    case Init => x' == x.(pod := x.pod.(state := Local))
    case _ => x' == x
  }

  /** evictPod: to node `dest` if some node accepts the page, else to disk. */
  ghost predicate SwapOut(n: int, x: Slice, dest: Option<int>, x': Slice)
    requires Cuttable(n, x.pod)
  {
    if dest.Some? then 0 <= dest.value < |x.held| && x' == LocalToRemote(n, x, dest.value)
    else x' == LocalToDisk(n, x)
  }

  lemma FlushStorable(n: int, x: Slice, x1: Slice)
    requires Storable(n, x) && (x.pod.small ==> Tiling(n, x.pod.view.blk) && Pending(x.pod.view.blk, x.pod.buf))
    requires Flush(n, x.pod, x1.pod) && x1 == x.(pod := x1.pod)
    ensures Storable(n, x1)
  {
  }

  /** isEmpty */
  ghost predicate HeapEmpty(n: int, p: Pod) {
    p.view.blk == map[2 := Block(n - 2, true)]
  }

  /** The local case of pickPodToEvict.  `x1` is the page after the flush; `benched` says whether the
      rank index let go of the page. */
  ghost predicate EvictLocal(n: int, x: Slice, x1: Slice, benched: bool, dest: Option<int>, x': Slice)
    requires Storable(n, x)
  {
    CutFits(n, x);
    if x.pod.small then
      && Flush(n, x.pod, x1.pod) && x1 == x.(pod := x1.pod)
      && (FlushStorable(n, x, x1);
          CutFits(n, x1);
          if HeapEmpty(n, x1.pod) then x' == ToInit(n, x1)
          else if benched then SwapOut(n, x1, dest, x')
          else x' == x1)
    else if x.pod.isFree then x' == ToInit(n, x)
    else SwapOut(n, x, dest, x')
  }

  /** pickPodToEvict on the page it took from the LRU list. */
  ghost predicate Evict(n: int, x: Slice, x1: Slice, benched: bool, dest: Option<int>, x': Slice)
    requires SliceInv(n, x)
  {
    match x.pod.state
    case Local => EvictLocal(n, x, x1, benched, dest, x')
    case DiskCache => x' == x.(pod := x.pod.(state := Disk, mem := Zeros(n)))
    case RemoteCache => x' == x.(pod := x.pod.(state := Remote, mem := Zeros(n)))
    case _ => x' == x
  }
}
