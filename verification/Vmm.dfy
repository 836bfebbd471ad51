/** The compute node's page table at work: the state changes of a page, and the three calls that drive
    them.  Each call is proved to be one step of the paging system. */
module Vmm {
  import opened HeapModel
  import opened ListOps
  import opened SwapImage
  import opened Residency
  import opened ResidencyEffects
  import opened Paging
  import opened PageHeap
  import opened Lru
  import HeapTheorems

  /** Only page i differs. */
  ghost predicate OnlyPod(a: seq<Pod>, b: seq<Pod>, i: int) {
    |b| == |a| && 0 <= i < |a| && forall k :: 0 <= k < |a| && k != i ==> b[k] == a[k]
  }

  /** Node k is the first in the order that is not full. */
  ghost predicate FirstAccepting(order: seq<int>, full: seq<bool>, k: int)
    requires forall j :: 0 <= j < |order| ==> 0 <= order[j] < |full|
  {
    exists j :: 0 <= j < |order| && order[j] == k && !full[k] && forall q :: 0 <= q < j ==> full[order[q]]
  }

  /** The destination is the first node in the order that is not full, none if all are. */
  ghost predicate Sent(order: seq<int>, full: seq<bool>, dest: Option<int>)
    requires forall j :: 0 <= j < |order| ==> 0 <= order[j] < |full|
  {
    if dest.Some? then FirstAccepting(order, full, dest.value) else forall j :: 0 <= j < |order| ==> full[order[j]]
  }

  /** What eviction makes of page x: p.  It stays local exactly if its heap is in use and not let go; it ends up at a
      node exactly if it is swapped out and some node is not full, or was there; otherwise it is on disk, or unused.  A
      page that does not stay, and is not pinned, has no memory. */
  ghost predicate Outcome(n: int, x: Slice, benched: bool, order: seq<int>, full: seq<bool>, p: Pod)
    requires SliceInv(n, x) && forall j :: 0 <= j < |order| ==> 0 <= order[j] < |full|
  {
    && (p.state.Local? <==> Kept(n, x, benched))
    && (p.state.Init? <==> x.pod.state.Init? || GivenUp(n, x))
    && (OnNode(p) <==> OnNode(x.pod)
                       || (Leaves(n, x, benched) && exists j :: 0 <= j < |order| && !full[order[j]]))
    && (OnDisk(p) <==> OnDisk(x.pod)
                       || (Leaves(n, x, benched) && forall j :: 0 <= j < |order| ==> full[order[j]]))
    && (Leaves(n, x, benched) && OnNode(p) ==> FirstAccepting(order, full, p.landlord))
    && (!x.pod.state.LocalPinned? && !Kept(n, x, benched) ==> p.state in {Init, Disk, Remote} && p.mem == Zeros(n))
    && (Kept(n, x, benched) ==> Holds(p, Cells(n, x)) && p.buf == [])
  }

  class RemonVmm {
    const n: int
    var pods: seq<Pod>
    var disk: map<int, Words>
    var nodes: seq<map<int, Words>>
    const lru: LruList

    ghost function State(): Sys
      reads this
    {
      Sys(n, pods, disk, nodes)
    }

    ghost predicate Valid()
      reads this, lru
    {
      && 6 <= n && n % 2 == 0 && SysInv(State())
      && lru.Valid() && !lru.locked && (forall p :: p in lru.Order() ==> 0 <= p < |pods|)
    }

    /** Page i with everything stored for it. */
    ghost function Page(i: int): Slice
      requires 0 <= i < |pods|
      reads this
    {
      SliceOf(State(), i)
    }

    constructor (words: int, count: nat, nodeCount: nat)
      requires 6 <= words && words % 2 == 0
      ensures Valid() && fresh(lru) && |pods| == count && |nodes| == nodeCount && n == words
      ensures forall i :: 0 <= i < count ==> pods[i].state == Init
    {
      n := words;
      pods := seq(count, _ => Pod(Init, Zeros(words), false, NULL, Fresh(words), [], true, NOBODY, 0, []));
      disk := map[];
      nodes := seq(nodeCount, _ => map[]);
      lru := new LruList();
      new;
      StartInv(words, count, nodeCount);
      assert pods == seq(count, _ => Unused(words));
    }

    // ----- the heap of a page -------------------------------------------------------------------------

    /** The allocator object of a page in memory. */
    method HeapOf(p: Pod) returns (h: FreeListAllocator)
      requires 6 <= |p.mem| && |p.mem| % 2 == 0 && Inv(p.mem, p.head, p.view)
      ensures fresh(h) && fresh(h.mem) && h.Valid() && h.inited && !h.locked
      ensures h.mem[..] == p.mem && h.freeHead == p.head && h.view == p.view
    {
      var a := new int[|p.mem|](k requires 0 <= k < |p.mem| => p.mem[k]);
      assert a[..] == p.mem;
      h := new FreeListAllocator.Resume(a, p.head, p.view);
    }

    /** The releases of flushFreeBuffer, on a copy of the page. */
    method Flushed(p: Pod) returns (p': Pod)
      requires 6 <= n == |p.mem| && n % 2 == 0
      requires p.small ==> Inv(p.mem, p.head, p.view) && Pending(p.view.blk, p.buf)
      ensures Flush(n, p, p')
    {
      hide Free, Tiling;
      if !p.small || p.buf == [] {
        return p;
      }
      var h := HeapOf(p);
      for k := 0 to |p.buf|
        invariant h.Valid() && h.inited && !h.locked && h.mem.Length == n && fresh(h) && fresh(h.mem)
        invariant Flushing(n, p, h.mem[..], h.view, k)
      {
        ghost var v, m := h.view, h.mem[..];
        h.Free(p.buf[k]);
        FlushRound(n, p, m, v, k, h.mem[..]);
      }
      p' := p.(mem := h.mem[..], head := h.freeHead, view := h.view, buf := []);
    }

    // ----- state changes of page i ------------------------------------------------------------------------

    /** flushFreeBuffer */
    method FlushFreeBuffer(i: int)
      requires 0 <= i < |pods| && 6 <= n == |pods[i].mem| && n % 2 == 0
      requires pods[i].small ==> Inv(pods[i].mem, pods[i].head, pods[i].view) && Pending(pods[i].view.blk, pods[i].buf)
      modifies this`pods
      ensures OnlyPod(old(pods), pods, i) && Flush(n, old(pods[i]), pods[i])
    {
      var p' := Flushed(pods[i]);
      pods := pods[i := p'];
    }

    /** setState */
    method SetState(i: int, st: PodState)
      requires 0 <= i < |pods|
      modifies this`pods
      ensures OnlyPod(old(pods), pods, i) && pods[i] == old(pods[i]).(state := st)
    {
      pods := pods[i := pods[i].(state := st)];
    }

    /** releaseMemory and recoverMemory: the page reads as zeros afterwards. */
    method ReleaseMemory(i: int)
      requires 0 <= i < |pods| && 0 <= n
      modifies this`pods
      ensures OnlyPod(old(pods), pods, i) && pods[i] == old(pods[i]).(mem := Zeros(n))
    {
      pods := pods[i := pods[i].(mem := Zeros(n))];
    }

    /** getTailOffset, in words */
    method GetTailOffset(i: int) returns (t: int)
      requires 0 <= i < |pods| && Cuttable(n, pods[i])
      ensures t == Cut(n, pods[i]) && (!pods[i].small ==> t == n)
      ensures pods[i].small ==> forall b :: b in pods[i].view.blk && Next(pods[i].view.blk, b) == n ==>
          t == if pods[i].view.blk[b].free then b else n
    {
      if pods[i].small {
        var h := HeapOf(pods[i]);
        t := h.GetTailFreeBlock();
      } else {
        t := n;
      }
    }

    method LocalToDisk(i: int)
      requires 0 <= i < |pods| && Cuttable(n, pods[i])
      modifies this`pods, this`disk
      ensures OnlyPod(old(pods), pods, i) && pods[i] == DiskPod(n, old(pods[i]))
      ensures disk == old(disk)[i := StoredNow(n, old(pods[i])).prefix + StoredNow(n, old(pods[i])).rest]
      ensures KeptOf(old(pods[i]), disk[i][..pods[i].sent], disk[i][pods[i].sent..])
    {
      hide Inv, KeptOf;
      StoredIs(n, pods[i]);
      var t, prefix, rest := CutPage(i);
      SetState(i, Disk);
      SetSent(i, t, pods[i].tail);
      ReleaseMemory(i);
      disk := disk[i := prefix + rest];
      assert disk[i][..t] == prefix && disk[i][t..] == rest;
    }

    /** savePodToRemote at node k, which may be full, and localToRemote */
    method SavePodToRemote(i: int, k: int, full: bool) returns (ok: bool)
      requires 0 <= i < |pods| && Cuttable(n, pods[i]) && 0 <= k < |nodes|
      modifies this`pods, this`nodes
      ensures ok <==> !full
      ensures full ==> pods == old(pods) && nodes == old(nodes)
      ensures !full ==> OnlyPod(old(pods), pods, i) && pods[i] == RemotePod(n, old(pods[i]), k)
      ensures !full ==>
                nodes == if i in old(nodes[k]) then old(nodes)
                         else old(nodes)[k := old(nodes[k])[i := StoredNow(n, old(pods[i])).prefix]]
      ensures !full && i !in old(nodes[k]) ==>
                KeptOf(old(pods[i]), nodes[k][i], if pods[i].sent == n then [] else pods[i].tail)
    {
      hide Inv, KeptOf;
      StoredIs(n, pods[i]);
      if full {
        return false;
      }
      var t, prefix, rest := CutPage(i);
      SetState(i, Remote);
      InsertAtNode(i, k, prefix);
      SetSent(i, t, if t != n then rest else pods[i].tail);
      ReleaseMemory(i);
      SetLandlord(i, k);
      ok := true;
    }

    /** The two parts of a page that are kept: what is sent, and what stays behind */
    method CutPage(i: int) returns (t: int, prefix: Words, rest: Words)
      requires 0 <= i < |pods| && Cuttable(n, pods[i])
      ensures t == Cut(n, pods[i]) && Image(prefix, rest) == StoredNow(n, pods[i]) && |prefix| == t
    {
      hide Tags, Links, Lists, Aligned, Tiling, Cut;
      CutBounds(n, pods[i]);
      t := GetTailOffset(i);
      var m := pods[i].mem;
      prefix := m[..t];
      rest := if t != n then m[t..t + 2] + m[n - 2..] else [];
    }

    /** savePodHandler at the memory node: an insert, which keeps an image already there */
    method InsertAtNode(i: int, k: int, image: Words)
      requires 0 <= k < |nodes|
      modifies this`nodes
      ensures nodes == if i in old(nodes[k]) then old(nodes) else old(nodes)[k := old(nodes[k])[i := image]]
    {
      if i !in nodes[k] {
        nodes := nodes[k := nodes[k][i := image]];
      }
    }

    /** highSpeedSendPod's bookkeeping: where the page was cut, and the words kept here */
    method SetSent(i: int, t: int, tail: Words)
      requires 0 <= i < |pods|
      modifies this`pods
      ensures OnlyPod(old(pods), pods, i) && pods[i] == old(pods[i]).(sent := t, tail := tail)
    {
      pods := pods[i := pods[i].(sent := t, tail := tail)];
    }

    method SetLandlord(i: int, k: int)
      requires 0 <= i < |pods|
      modifies this`pods
      ensures OnlyPod(old(pods), pods, i) && pods[i] == old(pods[i]).(landlord := k)
    {
      pods := pods[i := pods[i].(landlord := k)];
    }

    /** The memory node's delete, as asked for by getPodFromRemote and freePodInRemote */
    method EraseAtNode(i: int, k: int)
      requires 0 <= k < |nodes|
      modifies this`nodes
      ensures nodes == old(nodes)[k := old(nodes[k]) - {i}]
    {
      nodes := nodes[k := nodes[k] - {i}];
    }

    method LocalToInit(i: int)
      requires 0 <= i < |pods| && 0 <= n
      modifies this`pods
      ensures OnlyPod(old(pods), pods, i) && pods[i] == old(pods[i]).(state := Init, mem := Zeros(n), small := false)
    {
      SetState(i, Init);
      ReleaseMemory(i);
      pods := pods[i := pods[i].(small := false)];
    }

    /** The reads of diskToLocalPinned and diskToDiskCache */
    method ReadFile(i: int)
      requires 0 <= i < |pods| && i in disk && 0 <= pods[i].sent <= |disk[i]|
      requires WellFormed(|pods[i].mem|, Image(disk[i][..pods[i].sent], disk[i][pods[i].sent..]))
      modifies this`pods
      ensures OnlyPod(old(pods), pods, i)
      ensures pods[i] == old(pods[i]).(mem := Load(old(pods[i].mem),
          Image(disk[i][..old(pods[i].sent)], disk[i][old(pods[i].sent)..])))
    {
      var p := pods[i];
      var g := Image(disk[i][..p.sent], disk[i][p.sent..]);
      pods := pods[i := p.(mem := Load(p.mem, g))];
    }

    /** The reads of getPodFromRemote: the landlord's prefix and the tail words kept here */
    method ReadNode(i: int)
      requires 0 <= i < |pods| && 0 <= pods[i].landlord < |nodes| && i in nodes[pods[i].landlord]
      requires WellFormed(|pods[i].mem|,
          Image(nodes[pods[i].landlord][i], if pods[i].sent == n then [] else pods[i].tail))
      modifies this`pods
      ensures OnlyPod(old(pods), pods, i)
      ensures pods[i] == old(pods[i]).(mem := Load(old(pods[i].mem),
                        Image(nodes[old(pods[i].landlord)][i], if old(pods[i].sent) == n then []
                            else old(pods[i].tail))))
    {
      var p := pods[i];
      var g := Image(nodes[p.landlord][i], if p.sent == n then [] else p.tail);
      pods := pods[i := p.(mem := Load(p.mem, g))];
    }

    /** diskToLocalPinned, up to the caller's localPinnedToLocal */
    method DiskToLocalPinned(i: int)
      requires 0 <= i < |pods| && SliceInv(n, Page(i)) && pods[i].state == Disk
      modifies this`pods, this`disk
      ensures OnlyPod(old(pods), pods, i) && disk == old(disk) - {i} && pods[i].state == LocalPinned
      ensures Arrival(n, old(Page(i)), pods[i])
    {
      hide Inv, Flush, Pending;
      ghost var x := Page(i);
      DiskReadable(State(), i);
      ReadFile(i);
      disk := disk - {i};
      FlushArrived(n, x, pods[i]);
      FlushFreeBuffer(i);
      SetState(i, LocalPinned);
      FlushedArrival(n, x, pods[i]);
    }

    method DiskCacheToLocalPinned(i: int)
      requires 0 <= i < |pods| && SliceInv(n, Page(i)) && pods[i].state == DiskCache
      modifies this`pods, this`disk
      ensures OnlyPod(old(pods), pods, i) && disk == old(disk) - {i} && pods[i].state == LocalPinned
      ensures Arrival(n, old(Page(i)), pods[i])
    {
      ghost var x := Page(i);
      disk := disk - {i};
      FlushArrived(n, x, pods[i]);
      FlushFreeBuffer(i);
      SetState(i, LocalPinned);
      FlushedArrival(n, x, pods[i]);
    }

    method RemoteToLocalPinned(i: int)
      requires 0 <= i < |pods| && SliceInv(n, Page(i)) && pods[i].state == Remote
      modifies this`pods, this`nodes
      ensures OnlyPod(old(pods), pods, i) && pods[i].state == LocalPinned
      ensures 0 <= old(pods[i]).landlord < |old(nodes)|
      ensures nodes == old(nodes)[old(pods[i]).landlord := old(nodes)[old(pods[i]).landlord] - {i}]
      ensures Arrival(n, old(Page(i)), pods[i])
    {
      hide Inv;
      ghost var x := Page(i);
      NodeReadable(State(), i);
      ReadNode(i);
      EraseAtNode(i, pods[i].landlord);
      SetLandlord(i, NOBODY);
      FlushArrived(n, x, pods[i]);
      FlushFreeBuffer(i);
      SetState(i, LocalPinned);
      FlushedArrival(n, x, pods[i]);
    }

    method RemoteCacheToLocalPinned(i: int)
      requires 0 <= i < |pods| && SliceInv(n, Page(i)) && pods[i].state == RemoteCache
      modifies this`pods, this`nodes
      ensures OnlyPod(old(pods), pods, i) && pods[i].state == LocalPinned
      ensures 0 <= old(pods[i]).landlord < |old(nodes)|
      ensures nodes == old(nodes)[old(pods[i]).landlord := old(nodes)[old(pods[i]).landlord] - {i}]
      ensures Arrival(n, old(Page(i)), pods[i])
    {
      ghost var x := Page(i);
      EraseAtNode(i, pods[i].landlord);
      SetLandlord(i, NOBODY);
      FlushArrived(n, x, pods[i]);
      FlushFreeBuffer(i);
      SetState(i, LocalPinned);
      FlushedArrival(n, x, pods[i]);
    }

    // ----- the driving calls -----------------------------------------------------------------------------

    /** The disk cases of activatePod. */
    method BringFromDisk(i: int)
      requires SysInv(State()) && 0 <= i < |pods| && OnDisk(pods[i])
      modifies this`pods, this`disk
      ensures |pods| == |old(pods)| && SysNext(old(State()), i, DoActivate, Page(i), State())
    {
      ghost var s := State();
      if pods[i].state == Disk {
        DiskToLocalPinned(i);
      } else {
        DiskCacheToLocalPinned(i);
      }
      SetState(i, Local);
      FromDiskNext(s, State(), i);
    }

    /** The remote cases of activatePod. */
    method BringFromNode(i: int)
      requires SysInv(State()) && 0 <= i < |pods| && OnNode(pods[i])
      modifies this`pods, this`nodes
      ensures |pods| == |old(pods)| && SysNext(old(State()), i, DoActivate, Page(i), State())
    {
      ghost var s := State();
      if pods[i].state == Remote {
        RemoteToLocalPinned(i);
      } else {
        RemoteCacheToLocalPinned(i);
      }
      SetState(i, Local);
      FromNodeNext(s, State(), i);
    }

    /** The state change of activatePod. */
    method Bring(i: int)
      requires SysInv(State()) && 0 <= i < |pods|
      modifies this`pods, this`disk, this`nodes
      ensures |pods| == |old(pods)| && SysNext(old(State()), i, DoActivate, Page(i), State())
    {
      ghost var s := State();
      match pods[i].state {
        case Local =>
          SamePut(s, i);
        case LocalPinned =>
          SamePut(s, i);
        case Init =>
          SetState(i, Local);
          StatePut(s, State(), i);
        case Disk => BringFromDisk(i);
        case DiskCache => BringFromDisk(i);
        case RemoteCache => BringFromNode(i);
        case Remote => BringFromNode(i);
      }
    }

    /** activatePod */
    method ActivatePod(i: int)
      requires Valid() && 0 <= i < |pods|
      modifies this`pods, this`disk, this`nodes, lru
      ensures Valid() && |pods| == |old(pods)|
      ensures SysNext(old(State()), i, DoActivate, Page(i), State())
      ensures InMemory(pods[i]) && i !in disk && forall k :: 0 <= k < |nodes| ==> i !in nodes[k]
      ensures SliceInv(n, old(Page(i))) && Holds(pods[i], Cells(n, old(Page(i))))
      ensures OnDisk(old(pods[i])) || OnNode(old(pods[i])) ==> pods[i].buf == []
      ensures lru.Order() == [i] + Without(old(lru.Order()), i)
    {
      hide SysInv, SysNext, SliceInv, CellsNext, Holds, Cells;
      Bring(i);
      ActivatedPage(old(State()), i, State());
      StepRefines(old(State()), i, DoActivate, Page(i), State());
      lru.UpdateLRUList(i);
    }

    /** The state change of prefetchPod; `moved` says whether there was one. */
    method Fetch(i: int) returns (moved: bool)
      requires SysInv(State()) && 0 <= i < |pods|
      modifies this`pods
      ensures |pods| == |old(pods)| && SysNext(old(State()), i, DoPrefetch, Page(i), State())
      ensures moved <==> old(pods[i]).state in {Disk, Remote, Init}
    {
      hide SliceInv, WellFormed;
      ghost var s := State();
      moved := true;
      match pods[i].state {
        case Disk =>
          DiskReadable(s, i);
          ReadFile(i);
          SetState(i, DiskCache);
        case Remote =>
          NodeReadable(s, i);
          ReadNode(i);
          SetState(i, RemoteCache);
        case Init =>
          SetState(i, Local);
        case _ =>
          moved := false;
      }
      StatePut(s, State(), i);
    }

    /** prefetchPod */
    method PrefetchPod(i: int)
      requires Valid() && 0 <= i < |pods|
      modifies this`pods, lru
      ensures Valid() && |pods| == |old(pods)|
      ensures SysNext(old(State()), i, DoPrefetch, Page(i), State())
      ensures pods[i].state !in {Disk, Remote, Init}
      ensures SliceInv(n, old(Page(i))) && Holds(pods[i], Cells(n, old(Page(i))))
      ensures OnDisk(pods[i]) == OnDisk(old(pods[i])) && OnNode(pods[i]) == OnNode(old(pods[i]))
      ensures lru.Order() == if old(pods[i]).state in {Disk, Remote, Init} then [i] + Without(old(lru.Order()), i)
          else old(lru.Order())
    {
      hide SysInv, SysNext, SliceInv, CellsNext, Holds, Cells;
      var moved := Fetch(i);
      PrefetchedPage(old(State()), i, State());
      StepRefines(old(State()), i, DoPrefetch, Page(i), State());
      if moved {
        lru.UpdateLRUList(i);
      }
    }

    /** remoteSwap: the nodes are asked in the given order until one accepts. */
    method RemoteSwap(i: int, order: seq<int>, full: seq<bool>) returns (ok: bool, ghost k: int)
      requires 0 <= i < |pods| && Storable(n, Page(i)) && |full| == |nodes|
      requires forall j :: 0 <= j < |order| ==> 0 <= order[j] < |nodes|
      modifies this`pods, this`nodes
      ensures !ok ==> pods == old(pods) && nodes == old(nodes)
      ensures ok <==> exists j :: 0 <= j < |order| && !full[order[j]]
      ensures ok ==> OnlyPod(old(pods), pods, i) && 0 <= k < |old(nodes)| && Cuttable(n, old(pods[i]))
                     && Saved(old(State()), State(), i, k) && FirstAccepting(order, full, k)
    {
      CutFits(n, Page(i));
      k := 0;
      for j := 0 to |order|
        invariant pods == old(pods) && nodes == old(nodes)
        invariant forall q :: 0 <= q < j ==> full[order[q]]
      {
        var accepted := SavePodToRemote(i, order[j], full[order[j]]);
        if accepted {
          KeyAbsent(old(State()), i, order[j]);
          assert FirstAccepting(order, full, order[j]);
          return true, order[j];
        }
      }
      ok := false;
    }

    /** evictPod: to the first node that accepts the page, else to disk. */
    method EvictPod(i: int, order: seq<int>, full: seq<bool>) returns (ghost dest: Option<int>)
      requires 0 <= i < |pods| && Storable(n, Page(i)) && |full| == |nodes|
      requires forall j :: 0 <= j < |order| ==> 0 <= order[j] < |nodes|
      modifies this`pods, this`disk, this`nodes
      ensures OnlyPage(old(State()), State(), i)
      ensures Cuttable(n, old(pods[i])) && SwapOut(n, old(Page(i)), dest, Page(i))
      ensures dest.None? <==> forall j :: 0 <= j < |order| ==> full[order[j]]
      ensures dest.Some? ==> FirstAccepting(order, full, dest.value)
    {
      ghost var s := State();
      CutFits(n, Page(i));
      var ok;
      ghost var k;
      ok, k := RemoteSwap(i, order, full);
      if ok {
        dest := Some(k);
        SavedSwapOut(s, State(), i, k);
      } else {
        LocalToDisk(i);
        dest := None;
        DiskSwapOut(s, State(), i);
      }
    }

    /** The local small-page case of pickPodToEvict.  `back` says that the page stays local. */
    method EvictSmall(i: int, benched: bool, order: seq<int>, full: seq<bool>) returns (ghost c: Call, back: bool)
      requires SysInv(State()) && 0 <= i < |pods| && pods[i].state == Local && pods[i].small && |full| == |nodes|
      requires forall j :: 0 <= j < |order| ==> 0 <= order[j] < |nodes|
      modifies this`pods, this`disk, this`nodes
      ensures c.DoEvict? && c.benched == benched && (c.dest.Some? ==> FirstAccepting(order, full, c.dest.value))
      ensures |pods| == |old(pods)| && SysNext(old(State()), i, c, Page(i), State())
      ensures back <==> pods[i].state == Local
      ensures OnDisk(pods[i]) || OnNode(pods[i]) ==> Sent(order, full, c.dest)
      ensures SliceInv(n, old(Page(i))) && Outcome(n, old(Page(i)), benched, order, full, pods[i])
    {
      hide Outcome, SysInv, SliceInv, Inv, AgreeOff, StoredNow, Tiling, Pending, SysNext, FirstAccepting, FreeAll,
          LiveSame;
      ghost var s := State();
      FlushStart(s, i);
      FlushFreeBuffer(i);
      ghost var s1 := State();
      FlushDone(s, s1, i);
      ghost var dest: Option<int> := None;
      back := false;
      var empty := HeapIsEmpty(i);
      if empty {
        LocalToInit(i);
        DroppedInit(s1, State(), i);
      } else if benched {
        dest := EvictPod(i, order, full);
      } else {
        back := true;
        SamePage(s1, i);
      }
      c := DoEvict(SliceOf(s1, i), benched, dest);
      EvictedSmall(s, s1, State(), i, benched, dest);
      EvictedPage(s, i, c, order, full, State());
    }

    /** isEmpty on the page's heap */
    method HeapIsEmpty(i: int) returns (empty: bool)
      requires 0 <= i < |pods| && Cuttable(n, pods[i]) && pods[i].small
      ensures empty <==> HeapEmpty(n, pods[i])
    {
      var h := HeapOf(pods[i]);
      empty := h.IsEmpty();
    }

    /** The local huge-page case of pickPodToEvict. */
    method EvictHuge(i: int, ghost benched: bool, order: seq<int>, full: seq<bool>) returns (ghost c: Call)
      requires SysInv(State()) && 0 <= i < |pods| && pods[i].state == Local && !pods[i].small && |full| == |nodes|
      requires forall j :: 0 <= j < |order| ==> 0 <= order[j] < |nodes|
      modifies this`pods, this`disk, this`nodes
      ensures c.DoEvict? && c.benched == benched && |pods| == |old(pods)|
      ensures SysNext(old(State()), i, c, Page(i), State()) && pods[i].state != Local
      ensures OnDisk(pods[i]) || OnNode(pods[i]) ==> Sent(order, full, c.dest)
    {
      ghost var s := State();
      CutFits(n, Page(i));
      ghost var dest: Option<int> := None;
      if pods[i].isFree {
        LocalToInit(i);
        DroppedInit(s, State(), i);
      } else {
        dest := EvictPod(i, order, full);
      }
      c := DoEvict(SliceOf(s, i), benched, dest);
      IsPut(s, State(), i);
    }

    /** The copy in memory of a page that is still stored is given up. */
    method DropCopy(i: int, benched: bool)
      requires SysInv(State()) && 0 <= i < |pods| && pods[i].state in {DiskCache, RemoteCache}
      modifies this`pods
      ensures |pods| == |old(pods)| && pods[i].state != Local
      ensures SysNext(old(State()), i, DoEvict(old(Page(i)), benched, None), Page(i), State())
    {
      hide Inv, EvictLocal;
      ghost var s := State();
      assert SliceInv(n, SliceOf(s, i));
      if pods[i].state == DiskCache {
        ReleaseMemory(i);
        SetState(i, Disk);
      } else {
        ReleaseMemory(i);
        SetState(i, Remote);
      }
      StatePut(s, State(), i);
    }

    /** The state change of pickPodToEvict.  `back` says that the page stays local. */
    method PushOut(i: int, benched: bool, order: seq<int>, full: seq<bool>) returns (ghost c: Call, back: bool)
      requires SysInv(State()) && 0 <= i < |pods| && |full| == |nodes|
      requires forall j :: 0 <= j < |order| ==> 0 <= order[j] < |nodes|
      modifies this`pods, this`disk, this`nodes
      ensures c.DoEvict? && c.benched == benched && |pods| == |old(pods)|
      ensures SysNext(old(State()), i, c, Page(i), State())
      ensures back <==> pods[i].state == Local
      ensures old(pods[i]).state == Local && (OnDisk(pods[i]) || OnNode(pods[i])) ==> Sent(order, full, c.dest)
    {
      hide EvictLocal, Inv;
      ghost var s := State();
      c, back := DoEvict(Page(i), benched, None), false;
      match pods[i].state {
        case Local =>
          if pods[i].small {
            c, back := EvictSmall(i, benched, order, full);
          } else {
            c := EvictHuge(i, benched, order, full);
          }
        case DiskCache =>
          DropCopy(i, benched);
        case RemoteCache =>
          DropCopy(i, benched);
        case _ =>
          SamePut(s, i);
      }
    }

    /** pickPodToEvict: takes the least recently used page, if it can be locked, and makes room.  A page
        that stays local is put back on the list. */
    method PickPodToEvict(canLock: bool, benched: bool, order: seq<int>, full: seq<bool>)
      returns (i: int, found: bool, ghost c: Call)
      requires Valid() && |full| == |nodes| && forall j :: 0 <= j < |order| ==> 0 <= order[j] < |nodes|
      modifies this`pods, this`disk, this`nodes, lru
      ensures Valid() && |pods| == |old(pods)|
      ensures found <==> canLock && old(lru.Order()) != []
      ensures !found ==> State() == old(State()) && lru.Order() == old(lru.Order())
      ensures found ==> 0 <= i < |pods| && old(lru.Order())[|old(lru.Order())| - 1] == i
      ensures found ==> c.DoEvict? && SysNext(old(State()), i, c, Page(i), State())
      ensures found ==> SliceInv(n, old(Page(i))) && Outcome(n, old(Page(i)), benched, order, full, pods[i])
      ensures found && pods[i].state == Local ==> lru.Order() == [i] + old(lru.Order())[..|old(lru.Order())| - 1]
      ensures found && pods[i].state != Local ==> lru.Order() == old(lru.Order())[..|old(lru.Order())| - 1]
    {
      hide SysInv, SysNext, CellsNext, Without, Linked, NoDuplicates, Cells, SliceOf, SliceInv, Outcome, Sent;
      c := DoActivate;
      i, found := lru.GetFromLRUList(canLock);
      if !found {
        return;
      }
      ghost var rest := lru.Order();
      assert forall p :: p in rest ==> p in old(lru.Order());
      assert i in old(lru.Order());
      var back;
      c, back := PushOut(i, benched, order, full);
      EvictedPage(old(State()), i, c, order, full, State());
      StepRefines(old(State()), i, c, Page(i), State());
      if back {
        lru.UpdateLRUList(i);
        WithoutAbsent(rest, i);
      }
    }
  }

  lemma ActivatedPage(s: Sys, i: int, s': Sys)
    requires SysInv(s) && 0 <= i < |s.pods| == |s'.pods| && SysNext(s, i, DoActivate, SliceOf(s', i), s')
    ensures InMemory(s'.pods[i]) && i !in s'.disk && forall k :: 0 <= k < |s'.nodes| ==> i !in s'.nodes[k]
    ensures SliceInv(s.n, SliceOf(s, i)) && Holds(s'.pods[i], Cells(s.n, SliceOf(s, i)))
    ensures OnDisk(s.pods[i]) || OnNode(s.pods[i]) ==> s'.pods[i].buf == []
  {
    hide SliceInv, Activate, Holds, Cells;
    var x := SliceOf(s', i);
    Activated(s.n, SliceOf(s, i), x);
    forall k | 0 <= k < |s'.nodes|
      ensures i !in s'.nodes[k]
    {
      assert x.held[k] == Find(s'.nodes[k], i);
    }
  }

  lemma PrefetchedPage(s: Sys, i: int, s': Sys)
    requires SysInv(s) && 0 <= i < |s.pods| == |s'.pods| && SysNext(s, i, DoPrefetch, SliceOf(s', i), s')
    ensures s'.pods[i].state !in {Disk, Remote, Init}
    ensures SliceInv(s.n, SliceOf(s, i)) && Holds(s'.pods[i], Cells(s.n, SliceOf(s, i)))
    ensures OnDisk(s'.pods[i]) == OnDisk(s.pods[i]) && OnNode(s'.pods[i]) == OnNode(s.pods[i])
  {
    hide SliceInv, Prefetch, Holds, Cells;
    Prefetched(s.n, SliceOf(s, i), SliceOf(s', i));
  }

  lemma EvictedPage(s: Sys, i: int, c: Call, order: seq<int>, full: seq<bool>, s': Sys)
    requires SysInv(s) && 0 <= i < |s.pods| == |s'.pods| && c.DoEvict? && SysNext(s, i, c, SliceOf(s', i), s')
    requires forall j :: 0 <= j < |order| ==> 0 <= order[j] < |full|
    requires s.pods[i].state == Local && (OnDisk(s'.pods[i]) || OnNode(s'.pods[i])) ==> Sent(order, full, c.dest)
    ensures SliceInv(s.n, SliceOf(s, i))
    ensures Outcome(s.n, SliceOf(s, i), c.benched, order, full, s'.pods[i])
  {
    hide SliceInv, Evict, Holds, Cells, Emptied;
    Evicted(s.n, SliceOf(s, i), c.flushed, c.benched, c.dest, SliceOf(s', i));
  }

  lemma OnlyPageTrans(s: Sys, s1: Sys, s2: Sys, i: int)
    requires OnlyPage(s, s1, i) && OnlyPage(s1, s2, i)
    ensures OnlyPage(s, s2, i)
  {
  }

  lemma FlushStart(s: Sys, i: int)
    requires SysInv(s) && 0 <= i < |s.pods| && s.pods[i].state == Local && s.pods[i].small
    ensures Storable(s.n, SliceOf(s, i)) && Cuttable(s.n, s.pods[i])
    ensures Inv(s.pods[i].mem, s.pods[i].head, s.pods[i].view)
    ensures Tiling(s.n, s.pods[i].view.blk) && Pending(s.pods[i].view.blk, s.pods[i].buf)
  {
    CutFits(s.n, SliceOf(s, i));
  }

  lemma FlushDone(s: Sys, s1: Sys, i: int)
    requires 0 <= i < |s.pods| && Storable(s.n, SliceOf(s, i)) && s.pods[i].small && |s.pods[i].mem| == s.n
    requires Tiling(s.n, s.pods[i].view.blk) && Pending(s.pods[i].view.blk, s.pods[i].buf)
    requires s1.n == s.n && OnlyPod(s.pods, s1.pods, i) && s1.disk == s.disk && s1.nodes == s.nodes
    requires Flush(s.n, s.pods[i], s1.pods[i])
    ensures OnlyPage(s, s1, i) && SliceOf(s1, i) == SliceOf(s, i).(pod := s1.pods[i])
    ensures Storable(s.n, SliceOf(s1, i)) && Cuttable(s.n, s1.pods[i])
    ensures s1.pods[i].small && s1.pods[i].state == s.pods[i].state
  {
    StatePut(s, s1, i);
    FlushStorable(s.n, SliceOf(s, i), SliceOf(s1, i));
    CutFits(s.n, SliceOf(s1, i));
  }

  lemma SamePage(s: Sys, i: int)
    requires 0 <= i < |s.pods|
    ensures OnlyPage(s, s, i)
  {
  }

  /** Flushing a page with a heap and then dropping it, swapping it out or keeping it is an eviction step. */
  lemma EvictedSmall(s: Sys, s1: Sys, s2: Sys, i: int, benched: bool, dest: Option<int>)
    requires SysInv(s) && 0 <= i < |s.pods| == |s1.pods| == |s2.pods| && s.pods[i].state == Local && s.pods[i].small
    requires OnlyPage(s, s1, i) && OnlyPage(s1, s2, i) && SliceOf(s1, i) == SliceOf(s, i).(pod := s1.pods[i])
    requires |s.pods[i].mem| == s.n && Tiling(s.n, s.pods[i].view.blk) && Pending(s.pods[i].view.blk, s.pods[i].buf)
    requires Flush(s.n, s.pods[i], s1.pods[i]) && Cuttable(s.n, s1.pods[i])
    requires if HeapEmpty(s.n, s1.pods[i]) then 0 <= s.n && SliceOf(s2, i) == ToInit(s.n, SliceOf(s1, i))
             else if benched then SwapOut(s.n, SliceOf(s1, i), dest, SliceOf(s2, i))
             else SliceOf(s2, i) == SliceOf(s1, i)
    ensures SysNext(s, i, DoEvict(SliceOf(s1, i), benched, dest), SliceOf(s2, i), s2)
  {
    hide SliceInv, Inv, Tiling, Pending, StoredNow;
    OnlyPageTrans(s, s1, s2, i);
    IsPut(s, s2, i);
  }

  lemma DroppedInit(s: Sys, s': Sys, i: int)
    requires 0 <= i < |s.pods| && s.pods[i].state == Local && 0 <= s.n && s'.n == s.n && s'.disk == s.disk
    requires s'.nodes == s.nodes
    requires OnlyPod(s.pods, s'.pods, i)
    requires s'.pods[i] == s.pods[i].(state := Init, mem := Zeros(s.n), small := false)
    ensures OnlyPage(s, s', i) && SliceOf(s', i) == ToInit(s.n, SliceOf(s, i))
  {
  }

  /** The page went to node k, which did not hold its key before. */
  ghost predicate Saved(s: Sys, s': Sys, i: int, k: int)
    requires 0 <= i < |s.pods| && Cuttable(s.n, s.pods[i]) && 0 <= k < |s.nodes|
  {
    && OnlyPod(s.pods, s'.pods, i) && s'.n == s.n && s'.disk == s.disk
    && s'.pods[i] == RemotePod(s.n, s.pods[i], k)
    && i !in s.nodes[k]
    && s'.nodes == s.nodes[k := s.nodes[k][i := StoredNow(s.n, s.pods[i]).prefix]]
  }

  lemma KeyAbsent(s: Sys, i: int, k: int)
    requires 0 <= i < |s.pods| && Storable(s.n, SliceOf(s, i)) && 0 <= k < |s.nodes|
    ensures i !in s.nodes[k]
  {
    assert SliceOf(s, i).held[k] == Find(s.nodes[k], i);
  }

  lemma SavedSwapOut(s: Sys, s': Sys, i: int, k: int)
    requires 0 <= i < |s.pods| && Cuttable(s.n, s.pods[i]) && 0 <= k < |s.nodes| && Saved(s, s', i, k)
    ensures OnlyPage(s, s', i) && SwapOut(s.n, SliceOf(s, i), Some(k), SliceOf(s', i))
  {
  }

  lemma DiskSwapOut(s: Sys, s': Sys, i: int)
    requires OnlyPod(s.pods, s'.pods, i) && Cuttable(s.n, s.pods[i]) && s'.n == s.n && s'.nodes == s.nodes
    requires s'.pods[i] == DiskPod(s.n, s.pods[i])
    requires s'.disk == s.disk[i := StoredNow(s.n, s.pods[i]).prefix + StoredNow(s.n, s.pods[i]).rest]
    ensures OnlyPage(s, s', i) && SwapOut(s.n, SliceOf(s, i), None, SliceOf(s', i))
  {
  }

  lemma FromDiskNext(s: Sys, s': Sys, i: int)
    requires SysInv(s) && s'.n == s.n && OnlyPod(s.pods, s'.pods, i) && OnDisk(s.pods[i])
    requires s'.disk == s.disk - {i} && s'.nodes == s.nodes
    requires s'.pods[i].state == Local && Arrival(s.n, SliceOf(s, i), s'.pods[i])
    ensures SysNext(s, i, DoActivate, SliceOf(s', i), s')
  {
    IsPut(s, s', i);
    assert SliceOf(s', i).held == SliceOf(s, i).held;
  }

  lemma FromNodeNext(s: Sys, s': Sys, i: int)
    requires SysInv(s) && s'.n == s.n && OnlyPod(s.pods, s'.pods, i) && OnNode(s.pods[i])
    requires 0 <= s.pods[i].landlord < |s.nodes|
    requires s'.disk == s.disk && s'.nodes == s.nodes[s.pods[i].landlord := s.nodes[s.pods[i].landlord] - {i}]
    requires s'.pods[i].state == Local && Arrival(s.n, SliceOf(s, i), s'.pods[i])
    ensures SysNext(s, i, DoActivate, SliceOf(s', i), s')
  {
    IsPut(s, s', i);
    assert SliceOf(s', i).held == SliceOf(s, i).held[s.pods[i].landlord := None];
  }

  /** Nothing changed. */
  lemma SamePut(s: Sys, i: int)
    requires 0 <= i < |s.pods|
    ensures s == Put(s, i, SliceOf(s, i))
  {
    IsPut(s, s, i);
  }

  /** Only the page's own record changed. */
  lemma StatePut(s: Sys, s': Sys, i: int)
    requires s'.n == s.n && OnlyPod(s.pods, s'.pods, i) && s'.disk == s.disk && s'.nodes == s.nodes
    ensures s' == Put(s, i, SliceOf(s', i)) && SliceOf(s', i) == SliceOf(s, i).(pod := s'.pods[i])
  {
    IsPut(s, s', i);
    assert SliceOf(s', i).held == SliceOf(s, i).held;
  }

  /** The two systems differ at page i only, in the page table and in every store. */
  ghost predicate OnlyPage(s: Sys, s': Sys, i: int) {
    && s'.n == s.n && |s'.nodes| == |s.nodes| && OnlyPod(s.pods, s'.pods, i)
    && AgreeOff(s.disk, s'.disk, i)
    && (forall k :: 0 <= k < |s.nodes| ==> AgreeOff(s.nodes[k], s'.nodes[k], i))
  }

  ghost predicate AgreeOff(a: map<int, Words>, b: map<int, Words>, i: int) {
    forall k :: k != i ==> (k in b <==> k in a) && (k in a ==> b[k] == a[k])
  }

  lemma AgreePlace(a: map<int, Words>, b: map<int, Words>, i: int)
    requires AgreeOff(a, b, i)
    ensures b == Place(a, i, Find(b, i))
  {
    var c := Place(a, i, Find(b, i));
    assert forall k :: k in b <==> k in c;
    assert forall k :: k in b ==> b[k] == c[k];
    assert b.Keys == c.Keys;
  }

  lemma IsPut(s: Sys, s': Sys, i: int)
    requires OnlyPage(s, s', i)
    ensures s' == Put(s, i, SliceOf(s', i))
  {
    var x := SliceOf(s', i);
    AgreePlace(s.disk, s'.disk, i);
    forall k | 0 <= k < |s.nodes|
      ensures s'.nodes[k] == Place(s.nodes[k], i, x.held[k])
    {
      AgreePlace(s.nodes[k], s'.nodes[k], i);
    }
    assert s'.nodes == Put(s, i, x).nodes;
    assert s'.pods == s.pods[i := x.pod];
  }

  /** The page arrived and was flushed; only its state is still the pinned one. */
  ghost predicate Arrival(n: int, x: Slice, p: Pod)
    requires SliceInv(n, x)
  {
    !x.pod.state.Init? && (ArrivedFlushable(n, x); Flush(n, Arrived(n, x), p.(state := Local)))
  }

  /** A page about to be flushed on arrival: p is the arrived page, still under its old state. */
  lemma FlushArrived(n: int, x: Slice, p: Pod)
    requires SliceInv(n, x) && !x.pod.state.Init? && p == Arrived(n, x).(state := x.pod.state)
    ensures 6 <= n == |p.mem| && n % 2 == 0
    ensures p.small ==> Inv(p.mem, p.head, p.view) && Pending(p.view.blk, p.buf)
  {
  }

  lemma FlushedArrival(n: int, x: Slice, p: Pod)
    requires SliceInv(n, x) && !x.pod.state.Init?
    requires Arrived(n, x).small ==>
        Tiling(n, Arrived(n, x).view.blk) && Pending(Arrived(n, x).view.blk, Arrived(n, x).buf)
    requires |Arrived(n, x).mem| == n && Flush(n, Arrived(n, x).(state := x.pod.state), p.(state := x.pod.state))
    ensures Arrival(n, x, p)
  {
  }

  lemma DiskReadable(s: Sys, i: int)
    requires 0 <= i < |s.pods| && SliceInv(s.n, SliceOf(s, i)) && OnDisk(s.pods[i])
    ensures i in s.disk && 0 <= s.pods[i].sent <= |s.disk[i]| && |s.pods[i].mem| == s.n
    ensures Stored(s.n, SliceOf(s, i)) == Image(s.disk[i][..s.pods[i].sent], s.disk[i][s.pods[i].sent..])
    ensures WellFormed(s.n, Image(s.disk[i][..s.pods[i].sent], s.disk[i][s.pods[i].sent..]))
  {
  }

  lemma NodeReadable(s: Sys, i: int)
    requires 0 <= i < |s.pods| && SliceInv(s.n, SliceOf(s, i)) && OnNode(s.pods[i])
    ensures 0 <= s.pods[i].landlord < |s.nodes| && i in s.nodes[s.pods[i].landlord] && |s.pods[i].mem| == s.n
    ensures Stored(s.n, SliceOf(s, i))
            == Image(s.nodes[s.pods[i].landlord][i], if s.pods[i].sent == s.n then [] else s.pods[i].tail)
    ensures WellFormed(s.n, Image(s.nodes[s.pods[i].landlord][i], if s.pods[i].sent == s.n then [] else s.pods[i].tail))
  {
  }

  /** Halfway through a flush: the first k buffered blocks are released. */
  ghost predicate Flushing(n: int, p: Pod, m: Words, v: View, k: int) {
    && Tiling(n, p.view.blk) && Pending(p.view.blk, p.buf) && 0 <= k <= |p.buf|
    && Tiling(n, v.blk) && Pending(v.blk, p.buf[k..])
    && FreeAll(n, v, p.buf[k..]) == FreeAll(n, p.view, p.buf)
    && LiveSame(p.mem, m, v.blk)
  }

  lemma FlushRound(n: int, p: Pod, m: Words, v: View, k: int, m': Words)
    requires Flushing(n, p, m, v, k) && k < |p.buf| && |m| == n
    requires p.buf[k] in v.blk && LiveSame(m, m', Free(n, v, p.buf[k]).blk)
    ensures Flushing(n, p, m', Free(n, v, p.buf[k]), k + 1)
  {
    assert p.buf[k..][0] == p.buf[k] && p.buf[k..][1..] == p.buf[k + 1..];
    FreeKeepsPending(n, v, p.buf[k..]);
    FreeLive(p.mem, m, m', v, p.buf[k]);
  }

  /** Live data kept up to a release and by the release is kept throughout. */
  lemma FreeLive(m0: Words, m1: Words, m2: Words, v: View, b: int)
    requires Tiling(|m1|, v.blk) && b in v.blk && !v.blk[b].free
    requires LiveSame(m0, m1, v.blk) && LiveSame(m1, m2, Free(|m1|, v, b).blk)
    ensures LiveSame(m0, m2, Free(|m1|, v, b).blk)
  {
    HeapTheorems.FreeGives(|m1|, v, b);
    forall c, j | Payload(Free(|m1|, v, b).blk, c, j) && 0 <= j < |m0|
      ensures m2[j] == m0[j]
    {
      assert Payload(v.blk, c, j);
    }
  }
}
