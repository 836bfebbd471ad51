/** The index of small-block pages by their largest free block.

    A page's heap enters by its view; sizes and ranks count words.  An unordered set is a sequence in the order
    of its iteration; inserting a member again changes nothing. */
module RankIndex {
  import opened HeapModel
  import opened ListOps
  import opened HeapProofs
  import opened HeapTheorems
  import opened PageHeap
  import opened Residency

  const NOPAGE := -1
  const MAX_FREE_BUFF_SIZE := 1024

  /** In local memory, swapped out, or dropped because it was empty. */
  datatype Where = Here | Away | Dropped

  datatype Page = Page(v: View, buf: seq<int>, where: Where, rank: int, oldRank: int)

  type RankMap = map<int, seq<int>>

  // ----- one page -------------------------------------------------------------------------------------------

  /** The heap and the postponed releases of a page are in order; a dropped page will start with a new heap. */
  ghost predicate PageOk(n: int, p: Page) {
    && 6 <= n && Tiling(n, p.v.blk) && Lists(p.v) && Pending(p.v.blk, p.buf)
    && (p.where.Dropped? ==> p.v == Fresh(n) && p.buf == [])
  }

  /** The largest free block, maxAllocatableSize. */
  function Largest(v: View): int
    requires forall i :: 0 <= i < |v.fl| ==> v.fl[i] in v.blk
  {
    MaxSize(v.blk, v.fl)
  }

  /** updateRank on a page whose two rank fields agree. */
  function Rerank(p: Page): Page
    requires forall i :: 0 <= i < |p.v.fl| ==> p.v.fl[i] in p.v.blk
  {
    p.(rank := Largest(p.v), oldRank := Largest(p.v))
  }

  /** The heap once the postponed releases are done. */
  ghost function Flushed(n: int, p: Page): View
    requires PageOk(n, p)
  {
    FreeAll(n, p.v, p.buf)
  }

  /** Postponed releases can only make room. */
  lemma {:induction false} FlushGrows(n: int, v: View, buf: seq<int>)
    requires Tiling(n, v.blk) && Lists(v) && Pending(v.blk, buf)
    ensures Tiling(n, FreeAll(n, v, buf).blk) && Lists(FreeAll(n, v, buf))
    ensures Largest(v) <= Largest(FreeAll(n, v, buf))
    decreases |buf|
  {
    if buf != [] {
      FreeKeepsPending(n, v, buf);
      FreeMaxGrows(n, v, buf[0]);
      FlushGrows(n, Free(n, v, buf[0]), buf[1..]);
    }
  }

  /** No free block is larger than the page. */
  lemma LargestFits(n: int, v: View)
    requires Tiling(n, v.blk) && Lists(v) && 6 <= n
    ensures 0 <= Largest(v) <= n
  {
    MaxFromIs(v.blk, v.fl, 0);
    forall i | 0 <= i < |v.fl|
      ensures v.blk[v.fl[i]].size <= n
    {
      assert Fits(n, v.fl[i], v.blk[v.fl[i]]);
    }
  }

  /** What is handed out leaves the page in order. */
  lemma ServedOk(n: int, p: Page, size: int)
    requires PageOk(n, p) && !p.where.Dropped? && 4 <= size && Malloc(p.v, size).1 != NULL
    ensures PageOk(n, p.(v := Malloc(p.v, size).0))
  {
    var b := Malloc(p.v, size).1;
    MallocGives(n, p.v, size);
    CarveLists(n, p.v, b, size);
    if p.v.blk[b].size - size < 4 {
      RetagTiling(n, p.v.blk, b, false);
    } else {
      SplitTiling(n, p.v.blk, b, size);
    }
  }

  /** malloc on the view keeps the page in order, and works exactly if the largest free block is large enough. */
  lemma MallocOk(n: int, p: Page, size: int)
    requires PageOk(n, p) && !p.where.Dropped? && 4 <= size
    ensures Malloc(p.v, size).1 == NULL <==> Largest(p.v) < size
    ensures Malloc(p.v, size).1 == NULL ==> Malloc(p.v, size).0 == p.v
    ensures PageOk(n, p.(v := Malloc(p.v, size).0))
  {
    forall i | 0 <= i < |p.v.fl|
      ensures p.v.fl[i] != NULL
    {
      assert Fits(n, p.v.fl[i], p.v.blk[p.v.fl[i]]);
    }
    MallocFailsIff(p.v, size);
    if Malloc(p.v, size).1 != NULL {
      ServedOk(n, p, size);
    }
  }

  // ----- the index ------------------------------------------------------------------------------------------

  predicate Indexed(rm: RankMap, r: int, i: int) {
    r in rm && i in rm[r]
  }

  /** Every page that is not swapped out lies in exactly the set of its recorded rank; no set is empty. */
  ghost predicate IndexOk(rm: RankMap, pods: map<int, Page>) {
    && (forall r :: r in rm ==> rm[r] != [])
    && (forall r, i {:trigger Indexed(rm, r, i)} :: Indexed(rm, r, i) ==>
        i in pods && pods[i].rank == r && !pods[i].where.Away?)
    && (forall i :: i in pods && !pods[i].where.Away? ==> Indexed(rm, pods[i].rank, i))
  }

  /** Erasing page i from the set of rank r; an empty set goes too. */
  function TakeOut(rm: RankMap, r: int, i: int): RankMap {
    if r !in rm then rm
    else if Without(rm[r], i) == [] then rm - {r}
    else rm[r := Without(rm[r], i)]
  }

  /** Inserting page i into the set of rank r, which is made if there is none. */
  function PutIn(rm: RankMap, r: int, i: int): RankMap {
    if r !in rm then rm[r := [i]]
    else if i in rm[r] then rm
    else rm[r := rm[r] + [i]]
  }

  lemma TakeOutIs(rm: RankMap, r: int, i: int, s: int, j: int)
    ensures Indexed(TakeOut(rm, r, i), s, j) <==> Indexed(rm, s, j) && !(s == r && j == i)
    ensures (forall q :: q in rm ==> rm[q] != []) ==> forall q :: q in TakeOut(rm, r, i) ==> TakeOut(rm, r, i)[q] != []
  {
  }

  lemma PutInIs(rm: RankMap, r: int, i: int, s: int, j: int)
    ensures Indexed(PutIn(rm, r, i), s, j) <==> Indexed(rm, s, j) || (s == r && j == i)
    ensures (forall q :: q in rm ==> rm[q] != []) ==> forall q :: q in PutIn(rm, r, i) ==> PutIn(rm, r, i)[q] != []
  {
  }

  /** A page that leaves the index: swapped out, or no longer a page of this list. */
  lemma TakeOutOk(rm: RankMap, pods: map<int, Page>, i: int, pods': map<int, Page>)
    requires IndexOk(rm, pods) && i in pods && !pods[i].where.Away?
    requires forall j :: j != i ==> (j in pods' <==> j in pods) && (j in pods ==> pods'[j] == pods[j])
    requires i in pods' ==> pods'[i].where.Away?
    ensures IndexOk(TakeOut(rm, pods[i].rank, i), pods')
  {
    var rm' := TakeOut(rm, pods[i].rank, i);
    TakeOutIs(rm, pods[i].rank, i, 0, 0);
    forall r, j | Indexed(rm', r, j)
      ensures j in pods' && pods'[j].rank == r && !pods'[j].where.Away?
    {
      TakeOutIs(rm, pods[i].rank, i, r, j);
    }
    forall j | j in pods' && !pods'[j].where.Away?
      ensures Indexed(rm', pods'[j].rank, j)
    {
      TakeOutIs(rm, pods[i].rank, i, pods'[j].rank, j);
    }
  }

  /** A page that enters the index. */
  lemma PutInOk(rm: RankMap, pods: map<int, Page>, i: int, p: Page)
    requires IndexOk(rm, pods) && (i in pods ==> pods[i].where.Away?) && !p.where.Away?
    ensures IndexOk(PutIn(rm, p.rank, i), pods[i := p])
  {
    var rm', pods' := PutIn(rm, p.rank, i), pods[i := p];
    PutInIs(rm, p.rank, i, 0, 0);
    forall r, j | Indexed(rm', r, j)
      ensures j in pods' && pods'[j].rank == r && !pods'[j].where.Away?
    {
      PutInIs(rm, p.rank, i, r, j);
      assert j == i || Indexed(rm, r, j);
    }
    forall j | j in pods' && !pods'[j].where.Away?
      ensures Indexed(rm', pods'[j].rank, j)
    {
      PutInIs(rm, p.rank, i, pods'[j].rank, j);
    }
  }

  /** A page whose rank changes moves from one set to another. */
  lemma MoveOk(rm: RankMap, pods: map<int, Page>, i: int, p: Page)
    requires IndexOk(rm, pods) && i in pods && !pods[i].where.Away? && !p.where.Away?
    ensures p.rank == pods[i].rank ==> IndexOk(rm, pods[i := p])
    ensures IndexOk(PutIn(TakeOut(rm, pods[i].rank, i), p.rank, i), pods[i := p])
  {
    var away := pods[i].(where := Away);
    TakeOutOk(rm, pods, i, pods[i := away]);
    PutInOk(TakeOut(rm, pods[i].rank, i), pods[i := away], i, p);
    assert pods[i := away][i := p] == pods[i := p];
  }

  /** The recorded rank is the largest free block. */
  ghost predicate Exact(p: Page) {
    Lists(p.v) && p.rank == Largest(p.v)
  }

  /** The ranks are exact, but for the page allocated from last. */
  ghost predicate RanksOk(pods: map<int, Page>, last: int) {
    && (forall i :: i in pods ==> pods[i].rank == pods[i].oldRank)
    && (forall i :: i in pods && pods[i].where.Here? && i != last ==> Exact(pods[i]))
    && (forall i :: i in pods && pods[i].where.Dropped? ==> i == last)
  }

  /** A page in memory with postponed releases is known to the buffer of such pages. */
  ghost predicate BuffersOk(pods: map<int, Page>, buffer: seq<int>) {
    forall i :: i in pods && pods[i].where.Here? && pods[i].buf != [] ==> i in buffer
  }

  ghost predicate Ok(n: int, pods: map<int, Page>, rm: RankMap, buffer: seq<int>, last: int) {
    && 6 <= n && (forall i :: i in pods ==> PageOk(n, pods[i])) && NOPAGE !in pods
    && IndexOk(rm, pods) && RanksOk(pods, last) && BuffersOk(pods, buffer)
    && (last != NOPAGE ==> last in pods && !pods[last].where.Away?)
  }

  /** Page p after flushOnePage. */
  ghost function FlushPage(n: int, p: Page): Page
    requires PageOk(n, p)
  {
    FlushGrows(n, p.v, p.buf);
    Rerank(p.(v := Flushed(n, p), buf := []))
  }

  /** The pages after every page in memory has done its postponed releases. */
  ghost predicate AllFlushed(n: int, pods: map<int, Page>, pods': map<int, Page>)
    requires forall i :: i in pods ==> PageOk(n, pods[i])
  {
    && pods'.Keys == pods.Keys
    && (forall i :: i in pods ==>
        pods'[i] == if pods[i].where.Here? && pods[i].buf != [] then FlushPage(n, pods[i]) else pods[i])
  }

  /** After its postponed releases, page p has a free block of at least size words. */
  ghost predicate Roomy(n: int, p: Page, size: int)
    requires PageOk(n, p)
  {
    FlushGrows(n, p.v, p.buf);
    size <= Largest(Flushed(n, p))
  }

  // ----- the steps of one page keep everything in order -----------------------------------------------------

  /** One page of the index changes and is moved to the set of its new rank. */
  lemma ChangeOk(n: int, pods: map<int, Page>, rm: RankMap, buffer: seq<int>, last: int, i: int, p: Page)
    requires Ok(n, pods, rm, buffer, last) && i in pods && !pods[i].where.Away?
    requires PageOk(n, p) && p.where.Here? && p.rank == p.oldRank && (i != last ==> Exact(p))
    requires p.buf != [] ==> i in buffer
    ensures p.rank == pods[i].rank ==> Ok(n, pods[i := p], rm, buffer, last)
    ensures Ok(n, pods[i := p], PutIn(TakeOut(rm, pods[i].rank, i), p.rank, i), buffer, last)
  {
    hide PageOk, IndexOk, PutIn;
    MoveOk(rm, pods, i, p);
  }

  lemma FlushFacts(n: int, pods: map<int, Page>, rm: RankMap, buffer: seq<int>, last: int, i: int)
    requires Ok(n, pods, rm, buffer, last) && i in pods && pods[i].where.Here?
    ensures PageOk(n, pods[i]) && pods[i].rank == pods[i].oldRank && pods[i].rank in rm && Lists(Flushed(n, pods[i]))
    ensures FlushPage(n, pods[i]).rank == pods[i].rank ==> Ok(n, pods[i := FlushPage(n, pods[i])], rm, buffer, last)
    ensures Ok(n, pods[i := FlushPage(n, pods[i])], PutIn(TakeOut(rm, pods[i].rank, i), FlushPage(n, pods[i]).rank, i),
        buffer, last)
  {
    FlushGrows(n, pods[i].v, pods[i].buf);
    ChangeOk(n, pods, rm, buffer, last, i, FlushPage(n, pods[i]));
    assert Indexed(rm, pods[i].rank, i);
  }

  /** The page allocated from last is in memory and has its exact rank: it is like any other page now. */
  lemma ForgetLast(n: int, pods: map<int, Page>, rm: RankMap, buffer: seq<int>, last: int)
    requires Ok(n, pods, rm, buffer, last) && (last != NOPAGE ==> pods[last].where.Here? && Exact(pods[last]))
    ensures Ok(n, pods, rm, buffer, NOPAGE)
  {
  }

  /** Page q is page p, perhaps after its postponed releases; ranks do not matter. */
  ghost predicate Later(n: int, p: Page, q: Page)
    requires PageOk(n, p)
  {
    q.where == p.where && ((q.v == p.v && q.buf == p.buf) || (q.v == Flushed(n, p) && q.buf == []))
  }

  ghost predicate AllLater(n: int, pods: map<int, Page>, pods': map<int, Page>) {
    pods'.Keys == pods.Keys && forall i :: i in pods ==> PageOk(n, pods[i]) && Later(n, pods[i], pods'[i])
  }

  /** Some page of the index has room for size words after its postponed releases: the answer of a scan over all
      indexed pages. */
  ghost predicate ScanFinds(n: int, pods: map<int, Page>, size: int)
    requires forall i :: i in pods ==> PageOk(n, pods[i])
  {
    exists i :: i in pods && !pods[i].where.Away? && Roomy(n, pods[i], size)
  }

  lemma LaterRoom(n: int, p: Page, q: Page, size: int)
    requires PageOk(n, p) && Later(n, p, q) && PageOk(n, q) && size <= Largest(q.v)
    ensures Roomy(n, p, size)
  {
    FlushGrows(n, p.v, p.buf);
  }

  /** Nothing is roomy when no page has a large free block and nothing is postponed. */
  lemma ScanFails(n: int, pods: map<int, Page>, pods': map<int, Page>, rm: RankMap, buffer: seq<int>, size: int)
    requires Ok(n, pods', rm, buffer, NOPAGE) && AllLater(n, pods, pods') && (forall q :: q in rm ==> q < size)
    requires forall i :: i in pods' && pods'[i].where.Here? ==> pods'[i].buf == []
    ensures !ScanFinds(n, pods, size)
  {
  }

  /** Page p, brought back if it was dropped, after handing out size words. */
  function Served(p: Page, size: int): Page
    requires forall i :: 0 <= i < |p.v.fl| ==> p.v.fl[i] in p.v.blk
  {
    p.(v := Malloc(p.v, size).0, where := Here)
  }

  lemma ServeLast(n: int, pods: map<int, Page>, rm: RankMap, buffer: seq<int>, last: int, size: int)
    requires Ok(n, pods, rm, buffer, last) && last != NOPAGE && 4 <= size <= n - 4
    ensures PageOk(n, pods[last])
    ensures Malloc(pods[last].v, size).1 == NULL <==> Largest(pods[last].v) < size
    ensures Malloc(pods[last].v, size).1 == NULL ==>
        Malloc(pods[last].v, size).0 == pods[last].v && pods[last].where.Here?
    ensures Ok(n, pods[last := Served(pods[last], size)], rm, buffer, last)
  {
    var p := pods[last].(where := Here);
    MallocOk(n, p, size);
    if pods[last].where.Dropped? {
      FreshServes(n, size);
    }
    ChangeOk(n, pods, rm, buffer, last, last, Served(pods[last], size));
  }

  lemma OrderIrrelevant(rm: RankMap, old': int, new': int, i: int)
    requires old' != new'
    ensures TakeOut(PutIn(rm, new', i), old', i) == PutIn(TakeOut(rm, old', i), new', i)
  {
  }

  /** A page of sufficient exact rank hands out a block and becomes the page allocated from last. */
  lemma ServeTop(n: int, pods: map<int, Page>, rm: RankMap, buffer: seq<int>, r: int, i: int, size: int)
    requires Ok(n, pods, rm, buffer, NOPAGE) && Indexed(rm, r, i) && 4 <= size <= r
    ensures i in pods && PageOk(n, pods[i]) && pods[i].where.Here? && pods[i].rank == pods[i].oldRank == r
    ensures Largest(pods[i].v) == r
    ensures Malloc(pods[i].v, size).1 != NULL && Lists(Served(pods[i], size).v)
    ensures Rerank(Served(pods[i], size)).rank == r ==> Ok(n, pods[i := Rerank(Served(pods[i], size))], rm, buffer, i)
    ensures Ok(n, pods[i := Rerank(Served(pods[i], size))],
        PutIn(TakeOut(rm, r, i), Rerank(Served(pods[i], size)).rank, i), buffer, i)
  {
    MallocOk(n, pods[i], size);
    assert Ok(n, pods, rm, buffer, i);
    ChangeOk(n, pods, rm, buffer, i, i, Rerank(Served(pods[i], size)));
  }

  lemma AdjustFacts(n: int, pods: map<int, Page>, rm: RankMap, buffer: seq<int>, last: int, i: int)
    requires Ok(n, pods, rm, buffer, last) && i in pods && pods[i].where.Here?
    ensures Lists(pods[i].v) && pods[i].rank == pods[i].oldRank && pods[i].rank in rm
    ensures Rerank(pods[i]).rank == pods[i].rank ==> Ok(n, pods[i := Rerank(pods[i])], rm, buffer, last)
    ensures Ok(n, pods[i := Rerank(pods[i])], PutIn(TakeOut(rm, pods[i].rank, i), Rerank(pods[i]).rank, i), buffer,
        last)
  {
    ChangeOk(n, pods, rm, buffer, last, i, Rerank(pods[i]));
    assert Indexed(rm, pods[i].rank, i);
  }

  /** Every page is its own later self; a flush, or a new rank, is no more than that. */
  lemma LaterStart(n: int, pods: map<int, Page>)
    requires forall i :: i in pods ==> PageOk(n, pods[i])
    ensures AllLater(n, pods, pods)
  {
  }

  lemma LaterRank(n: int, pods: map<int, Page>, pods': map<int, Page>, i: int)
    requires AllLater(n, pods, pods') && i in pods' && Lists(pods'[i].v)
    ensures AllLater(n, pods, pods'[i := Rerank(pods'[i])])
  {
  }

  lemma LaterFlush(n: int, pods: map<int, Page>, pods': map<int, Page>, pods'': map<int, Page>)
    requires AllLater(n, pods, pods') && (forall i :: i in pods' ==> PageOk(n, pods'[i]))
    requires AllFlushed(n, pods', pods'')
    ensures AllLater(n, pods, pods'')
  {
  }

  lemma RanksBounded(n: int, pods: map<int, Page>, rm: RankMap, buffer: seq<int>)
    requires Ok(n, pods, rm, buffer, NOPAGE)
    ensures forall r :: r in rm ==> r <= n
  {
    forall r | r in rm
      ensures r <= n
    {
      assert Indexed(rm, r, rm[r][0]);
      LargestFits(n, pods[rm[r][0]].v);
    }
  }

  /** What allocate promises when it hands out a block of page i: the page had room, the block comes from its heap,
      and no other page changes but for its own postponed releases. */
  ghost predicate Handed(n: int, pods: map<int, Page>, pods': map<int, Page>, i: int, ptr: int, size: int)
    requires forall j :: j in pods ==> PageOk(n, pods[j])
  {
    && i in pods && !pods[i].where.Away? && Roomy(n, pods[i], size) && ptr != NULL
    && pods'.Keys == pods.Keys
    && (forall j :: j in pods && j != i ==> Later(n, pods[j], pods'[j]))
    && pods'[i].where.Here?
    && ((pods'[i].buf == pods[i].buf && Malloc(pods[i].v, size) == (pods'[i].v, ptr))
        || (pods'[i].buf == [] && HandedFlushed(n, pods[i], pods'[i], ptr, size)))
  }

  ghost predicate HandedFlushed(n: int, p: Page, q: Page, ptr: int, size: int)
    requires PageOk(n, p)
  {
    FlushGrows(n, p.v, p.buf);
    Malloc(Flushed(n, p), size) == (q.v, ptr)
  }

  lemma HandedLast(n: int, pods: map<int, Page>, i: int, size: int)
    requires (forall j :: j in pods ==> PageOk(n, pods[j])) && i in pods && !pods[i].where.Away? && 4 <= size
    requires PageOk(n, pods[i]) && size <= Largest(pods[i].v) && Malloc(pods[i].v, size).1 != NULL
    ensures Handed(n, pods, pods[i := Served(pods[i], size)], i, Malloc(pods[i].v, size).1, size)
  {
    hide Roomy, Malloc, PageOk;
    LaterRoom(n, pods[i], pods[i], size);
  }

  lemma HandedTop(n: int, pods: map<int, Page>, pods': map<int, Page>, i: int, size: int)
    requires AllLater(n, pods, pods') && i in pods' && PageOk(n, pods'[i]) && pods'[i].where.Here?
    requires Lists(Served(pods'[i], size).v)
    requires size <= Largest(pods'[i].v) && Malloc(pods'[i].v, size).1 != NULL
    ensures Handed(n, pods, pods'[i := Rerank(Served(pods'[i], size))], i, Malloc(pods'[i].v, size).1, size)
  {
    hide Roomy, Malloc, PageOk, Largest, Flushed;
    assert Later(n, pods[i], pods'[i]);
    LaterRoom(n, pods[i], pods'[i], size);
  }

  /** The pages are the same but for their recorded ranks. */
  ghost predicate SameButRanks(pods: map<int, Page>, pods': map<int, Page>) {
    pods'.Keys == pods.Keys && forall i :: i in pods ==>
        pods'[i].v == pods[i].v && pods'[i].buf == pods[i].buf && pods'[i].where == pods[i].where
  }

  /** The largest free block that page p has after its postponed releases. */
  ghost function LargestLater(n: int, p: Page): int
    requires PageOk(n, p)
  {
    FlushGrows(n, p.v, p.buf);
    Largest(Flushed(n, p))
  }

  /** Some page in memory has room without postponed releases. */
  ghost predicate RoomNow(n: int, pods: map<int, Page>, size: int)
    requires forall j :: j in pods ==> PageOk(n, pods[j])
  {
    exists j :: j in pods && pods[j].where.Here? && PageOk(n, pods[j]) && size <= Largest(pods[j].v)
  }

  /** No page in memory has a larger free block than page i: as they are, if one of them has room so, and else after all
      postponed releases. */
  ghost predicate ByRank(n: int, pods: map<int, Page>, i: int, size: int)
    requires forall j :: j in pods ==> PageOk(n, pods[j])
  {
    && i in pods && pods[i].where.Here?
    && if RoomNow(n, pods, size)
       then forall j :: j in pods && pods[j].where.Here? ==> Largest(pods[j].v) <= Largest(pods[i].v)
       else forall j :: j in pods && pods[j].where.Here? ==> LargestLater(n, pods[j]) <= LargestLater(n, pods[i])
  }

  /** A page in the set of the largest rank has the largest free block. */
  lemma TopWidest(n: int, pods: map<int, Page>, rm: RankMap, buffer: seq<int>, r: int, i: int)
    requires Ok(n, pods, rm, buffer, NOPAGE) && r in rm && i in rm[r] && forall q :: q in rm ==> q <= r
    ensures i in pods && pods[i].where.Here? && PageOk(n, pods[i]) && Largest(pods[i].v) == r
    ensures forall j :: j in pods && pods[j].where.Here? ==> PageOk(n, pods[j]) && Largest(pods[j].v) <= r
  {
    assert Indexed(rm, r, i);
    forall j | j in pods && pods[j].where.Here?
      ensures Largest(pods[j].v) <= r
    {
      assert Indexed(rm, pods[j].rank, j);
    }
  }

  /** If all ranks are too small, no page in memory has room as it is. */
  lemma NoRoomNow(n: int, before: map<int, Page>, pods: map<int, Page>, rm: RankMap, buffer: seq<int>, size: int)
    requires Ok(n, pods, rm, buffer, NOPAGE) && (forall q :: q in rm ==> q < size) && SameButRanks(before, pods)
    requires forall j :: j in before ==> PageOk(n, before[j])
    ensures !RoomNow(n, before, size)
  {
    forall j | j in before && before[j].where.Here?
      ensures Largest(before[j].v) < size
    {
      assert Indexed(rm, pods[j].rank, j);
    }
  }

  /** The page is taken without flushing: ranks are of the pages as they were. */
  lemma RankNow(n: int, before: map<int, Page>, pods: map<int, Page>, rm: RankMap, buffer: seq<int>, r: int, i: int,
                size: int)
    requires Ok(n, pods, rm, buffer, NOPAGE) && r in rm && i in rm[r] && (forall q :: q in rm ==> q <= r) && size <= r
    requires SameButRanks(before, pods) && forall j :: j in before ==> PageOk(n, before[j])
    ensures ByRank(n, before, i, size)
  {
    hide Ok, Largest;
    TopWidest(n, pods, rm, buffer, r, i);
    assert size <= Largest(before[i].v);
  }

  /** Page q is page p1 after its postponed releases; p differs from p1 in its ranks at most. */
  lemma FlushedIs(n: int, p: Page, p1: Page, q: Page)
    requires PageOk(n, p) && PageOk(n, p1) && p.where.Here? && p1.v == p.v && p1.buf == p.buf && p1.where == p.where
    requires q == if p1.buf != [] then FlushPage(n, p1) else p1
    ensures q.where.Here? && q.v == Flushed(n, p)
  {
  }

  /** The page is taken after all postponed releases were done. */
  lemma RankLater(n: int, before: map<int, Page>, pods1: map<int, Page>, pods: map<int, Page>, rm: RankMap, r: int,
                  i: int,
                  size: int)
    requires Ok(n, pods, rm, [], NOPAGE) && r in rm && i in rm[r] && (forall q :: q in rm ==> q <= r)
    requires SameButRanks(before, pods1) && (forall j :: j in before ==> PageOk(n, before[j]))
    requires !RoomNow(n, before, size)
    requires (forall j :: j in pods1 ==> PageOk(n, pods1[j])) && AllFlushed(n, pods1, pods)
    ensures ByRank(n, before, i, size)
  {
    hide Ok, Largest;
    TopWidest(n, pods, rm, [], r, i);
    forall j | j in before && before[j].where.Here?
      ensures pods[j].where.Here? && LargestLater(n, before[j]) == Largest(pods[j].v)
    {
      FlushedIs(n, before[j], pods1[j], pods[j]);
    }
  }

  lemma PagesOk(n: int, pods: map<int, Page>, rm: RankMap, buffer: seq<int>, last: int)
    requires Ok(n, pods, rm, buffer, last)
    ensures forall i :: i in pods ==> PageOk(n, pods[i])
  {
  }

  lemma HandedFound(n: int, pods: map<int, Page>, pods': map<int, Page>, i: int, ptr: int, size: int)
    requires (forall j :: j in pods ==> PageOk(n, pods[j])) && Handed(n, pods, pods', i, ptr, size)
    ensures ScanFinds(n, pods, size)
  {
  }

  /** A page in the index stays in the index when postponed releases are done. */
  lemma StillIndexed(n: int, pods: map<int, Page>, rm: RankMap, buffer: seq<int>, pods': map<int, Page>, rm': RankMap)
    requires Ok(n, pods, rm, buffer, NOPAGE) && Ok(n, pods', rm', [], NOPAGE) && AllFlushed(n, pods, pods')
    ensures (exists r :: r in rm) ==> exists r :: r in rm'
  {
    if r :| r in rm {
      var i := rm[r][0];
      assert Indexed(rm, r, i);
      assert i in pods' && !pods'[i].where.Away?;
      assert Indexed(rm', pods'[i].rank, i);
    }
  }

  lemma NothingPostponed(n: int, pods: map<int, Page>, rm: RankMap)
    requires Ok(n, pods, rm, [], NOPAGE)
    ensures forall i :: i in pods && pods[i].where.Here? ==> pods[i].buf == []
  {
  }

  lemma NoEmptySet(n: int, pods: map<int, Page>, rm: RankMap, buffer: seq<int>, last: int)
    requires Ok(n, pods, rm, buffer, last)
    ensures forall r :: r in rm ==> rm[r] != []
  {
  }

  // ----- pages that come and go ---------------------------------------------------------------------------------

  /** A page with a new heap that has handed out its first block. */
  function NewPage(n: int, size: int): Page
    requires 6 <= n
  {
    Rerank(Page(Malloc(Fresh(n), size).0, [], Here, -1, -1))
  }

  /** Page p is in memory with its exact rank. */
  ghost predicate Settled(p: Page) {
    p.where.Here? && Exact(p)
  }

  lemma AddOk(n: int, pods: map<int, Page>, rm: RankMap, buffer: seq<int>, i: int, size: int)
    requires Ok(n, pods, rm, buffer, NOPAGE) && i !in pods && i != NOPAGE && 4 <= size <= n - 4
    ensures Ok(n, pods[i := NewPage(n, size)], PutIn(rm, NewPage(n, size).rank, i), buffer, i)
  {
    hide PutIn, Malloc, IndexOk, Largest;
    NewOk(n, size);
    PutInOk(rm, pods, i, NewPage(n, size));
  }

  lemma NewOk(n: int, size: int)
    requires 6 <= n && 4 <= size <= n - 4
    ensures Malloc(Fresh(n), size).1 == 2 && Lists(Malloc(Fresh(n), size).0) && PageOk(n, NewPage(n, size))
  {
    FreshServes(n, size);
    MallocOk(n, Page(Fresh(n), [], Here, -1, -1), size);
  }

  lemma AddOkIff(n: int, pods: map<int, Page>, rm: RankMap, buffer: seq<int>, last: int, i: int, size: int)
    requires Ok(n, pods, rm, buffer, last) && i !in pods && i != NOPAGE && 4 <= size <= n - 4
    ensures Malloc(Fresh(n), size).1 == 2 && Lists(Malloc(Fresh(n), size).0)
    ensures Ok(n, pods[i := NewPage(n, size)], PutIn(rm, NewPage(n, size).rank, i), buffer, i)
      <==> last == NOPAGE || Settled(pods[last])
  {
    hide PutIn, Malloc, IndexOk, PageOk, Exact;
    NewOk(n, size);
    if last == NOPAGE || Settled(pods[last]) {
      ForgetLast(n, pods, rm, buffer, last);
      AddOk(n, pods, rm, buffer, i, size);
    } else {
      assert pods[i := NewPage(n, size)][last] == pods[last];
    }
  }

  /** A page leaves the index and is swapped out, or dropped for good. */
  lemma LeaveOk(n: int, pods: map<int, Page>, rm: RankMap, buffer: seq<int>, last: int, i: int, p: Page)
    requires Ok(n, pods, rm, buffer, last) && i in pods && pods[i].where.Here? && i != last
    requires PageOk(n, p) && p.where.Away? && p.rank == p.oldRank
    ensures pods[i].rank in rm && Exact(pods[i])
    ensures Ok(n, pods[i := p], TakeOut(rm, pods[i].rank, i), buffer, last)
    ensures Ok(n, pods - {i}, TakeOut(rm, pods[i].rank, i), buffer, last)
  {
    hide PageOk, TakeOut, Lists, Largest;
    assert Indexed(rm, pods[i].rank, i);
    TakeOutOk(rm, pods, i, pods[i := p]);
    TakeOutOk(rm, pods, i, pods - {i});
  }

  /** The page allocated from last has done its postponed releases, with its rank left as it was, or was dropped. */
  lemma LastOk(n: int, pods: map<int, Page>, rm: RankMap, buffer: seq<int>, last: int, p: Page)
    requires Ok(n, pods, rm, buffer, last) && last != NOPAGE && PageOk(n, p) && !p.where.Away? && p.buf == []
    requires p.rank == p.oldRank == pods[last].rank
    ensures Ok(n, pods[last := p], rm, buffer, last)
  {
    hide PageOk;
  }

  lemma EnterOk(n: int, pods: map<int, Page>, rm: RankMap, buffer: seq<int>, last: int, i: int, p: Page)
    requires Ok(n, pods, rm, buffer, last) && i in pods && pods[i].where.Away?
    requires PageOk(n, p) && p.where.Here? && p.rank == p.oldRank && Exact(p) && p.buf == []
    ensures Ok(n, pods[i := p], PutIn(rm, p.rank, i), buffer, last)
  {
    hide PageOk, IndexOk;
    PutInOk(rm, pods, i, p);
  }

  /** A swapped-out page comes back. */
  lemma ReturnOk(n: int, pods: map<int, Page>, rm: RankMap, buffer: seq<int>, last: int, i: int)
    requires Ok(n, pods, rm, buffer, last) && i in pods && pods[i].where.Away?
    ensures PageOk(n, pods[i]) && Lists(Flushed(n, pods[i])) && pods[i].rank == pods[i].oldRank
    ensures Ok(n, pods[i := FlushPage(n, pods[i]).(where := Here)], PutIn(rm, FlushPage(n, pods[i]).rank, i), buffer,
        last)
  {
    hide Tiling, IndexOk, BuffersOk, PutIn;
    FlushGrows(n, pods[i].v, pods[i].buf);
    EnterOk(n, pods, rm, buffer, last, i, FlushPage(n, pods[i]).(where := Here));
  }

  /** A release is postponed. */
  lemma PostponeOk(n: int, pods: map<int, Page>, rm: RankMap, buffer: seq<int>, buffer': seq<int>, last: int, i: int,
                   b: int)
    requires Ok(n, pods, rm, buffer, last) && i in pods && b in pods[i].v.blk && !pods[i].v.blk[b].free
    requires b !in pods[i].buf
    requires (forall j :: j in buffer ==> j in buffer') && (pods[i].where.Here? ==> i in buffer')
    ensures !pods[i].where.Dropped?
    ensures Ok(n, pods[i := pods[i].(buf := pods[i].buf + [b])], rm, buffer', last)
  {
    hide IndexOk, PutIn, TakeOut, Tiling, Lists;
    var p := pods[i].(buf := pods[i].buf + [b]);
    assert Pending(p.v.blk, p.buf);
    if !p.where.Away? {
      MoveOk(rm, pods, i, p);
    } else {
      AwayOk(rm, pods, i, p);
    }
  }

  lemma AwayOk(rm: RankMap, pods: map<int, Page>, i: int, p: Page)
    requires IndexOk(rm, pods) && i in pods && pods[i].where.Away? && p.where.Away?
    ensures IndexOk(rm, pods[i := p])
  {
  }

  class SegregatedPageList {
    const n: int
    var pods: map<int, Page>
    var rankMap: RankMap
    var localFreeBuffer: seq<int>
    var lastAllocatedPod: int

    ghost predicate Valid()
      reads this
    {
      Ok(n, pods, rankMap, localFreeBuffer, lastAllocatedPod)
    }

    constructor (words: int)
      requires 6 <= words
      ensures Valid() && n == words && pods == map[] && lastAllocatedPod == NOPAGE
    {
      n, pods, rankMap, localFreeBuffer, lastAllocatedPod := words, map[], map[], [], NOPAGE;
    }

    /** updateRank of the page */
    method UpdateRank(i: int) returns (updated: bool)
      requires i in pods && Lists(pods[i].v) && pods[i].rank == pods[i].oldRank
      modifies this`pods
      ensures pods == old(pods)[i := Rerank(old(pods)[i])] && (updated <==> old(pods)[i].rank != pods[i].rank)
    {
      var rank := Largest(pods[i].v);
      pods := pods[i := pods[i].(rank := rank)];
      if rank != pods[i].oldRank {
        pods := pods[i := pods[i].(oldRank := rank)];
        return true;
      }
      return false;
    }

    /** The end of flushOnePage and adjustPodList: a page in memory whose rank changed moves to its new set. */
    method Reindex(i: int, oldRank: int)
      requires i in pods && oldRank in rankMap
      modifies this`rankMap
      ensures rankMap == if pods[i].where.Here? then PutIn(TakeOut(old(rankMap), oldRank, i), pods[i].rank, i)
                         else TakeOut(old(rankMap), oldRank, i)
    {
      rankMap := TakeOut(rankMap, oldRank, i);
      if pods[i].where.Here? {
        rankMap := PutIn(rankMap, pods[i].rank, i);
      }
    }

    method FlushOnePage(i: int)
      requires Valid() && i in pods && pods[i].where.Here?
      modifies this`pods, this`rankMap
      ensures Valid() && PageOk(n, old(pods)[i]) && pods == old(pods)[i := FlushPage(n, old(pods)[i])]
    {
      hide Ok, PageOk, Lists, TakeOut, PutIn, Flushed;
      var oldRank := pods[i].rank;
      FlushFacts(n, pods, rankMap, localFreeBuffer, lastAllocatedPod, i);
      FlushFreeBuffer(i);
      var updated := UpdateRank(i);
      assert pods == old(pods)[i := FlushPage(n, old(pods)[i])];
      if updated {
        Reindex(i, oldRank);
      }
    }

    /** flushFreeBuffer of the page */
    method FlushFreeBuffer(i: int)
      requires i in pods && PageOk(n, pods[i])
      modifies this`pods
      ensures pods == old(pods)[i := old(pods)[i].(v := Flushed(n, old(pods)[i]), buf := [])]
    {
      hide Lists, Tiling, Pending;
      var v := FreeOneByOne(n, pods[i].v, pods[i].buf);
      pods := pods[i := pods[i].(v := v, buf := [])];
    }

    /** The postponed releases, one after the other. */
    static method FreeOneByOne(n: int, start: View, buf: seq<int>) returns (v: View)
      requires Tiling(n, start.blk) && Pending(start.blk, buf)
      ensures v == FreeAll(n, start, buf)
    {
      v := start;
      var k := 0;
      assert buf[k..] == buf;
      while k < |buf|
        invariant 0 <= k <= |buf| && Tiling(n, v.blk) && Pending(v.blk, buf[k..])
        invariant FreeAll(n, v, buf[k..]) == FreeAll(n, start, buf)
      {
        FreeKeepsPending(n, v, buf[k..]);
        assert buf[k..][1..] == buf[k + 1..] && buf[k..][0] == buf[k];
        v := HeapModel.Free(n, v, buf[k]);
        k := k + 1;
      }
    }

    /** The pages of the first k entries of the buffer have done their postponed releases. */
    ghost predicate FlushedUpTo(before: map<int, Page>, k: int)
      requires 0 <= k <= |localFreeBuffer|
      reads this
    {
      && pods.Keys == before.Keys
      && (forall i :: i in before ==> PageOk(n, before[i]))
      && (forall i :: i in before ==>
            pods[i] == if i in localFreeBuffer[..k] && before[i].where.Here? && before[i].buf != []
                       then FlushPage(n, before[i]) else before[i])
    }

    method ClearLocalFreeBuffer()
      requires Valid()
      modifies this`pods, this`rankMap, this`localFreeBuffer
      ensures Valid() && localFreeBuffer == [] && AllFlushed(n, old(pods), pods)
    {
      hide IndexOk, RanksOk, PageOk, Flushed;
      var k := 0;
      while k < |localFreeBuffer|
        invariant 0 <= k <= |localFreeBuffer| && Valid() && localFreeBuffer == old(localFreeBuffer)
        invariant FlushedUpTo(old(pods), k)
      {
        var i := localFreeBuffer[k];
        assert localFreeBuffer[..k + 1] == localFreeBuffer[..k] + [i];
        if i in pods && pods[i].where.Here? && |pods[i].buf| > 0 {
          FlushOnePage(i);
        }
        k := k + 1;
      }
      assert localFreeBuffer[..k] == localFreeBuffer;
      localFreeBuffer := [];
    }

    /** The key at begin() of a map with descending keys: the largest rank, and whatever end() holds if there is
        none. */
    static method TopRank(rm: RankMap, bound: int, endKey: int) returns (r: int)
      requires forall q :: q in rm ==> q <= bound
      ensures (exists q :: q in rm) ==> r in rm && forall q :: q in rm ==> q <= r
      ensures !(exists q :: q in rm) ==> r == endKey
    {
      if !exists q :: q in rm {
        return endKey;
      }
      ghost var some :| some in rm;
      r := bound;
      while r !in rm
        invariant some <= r && forall q :: q in rm ==> q <= r
        decreases r - some
      {
        r := r - 1;
      }
    }

    /** tryAllocateWithPreviousPod */
    method TryAllocateWithPreviousPod(size: int) returns (ptr: int)
      requires Valid() && 4 <= size <= n - 4
      modifies this`pods
      ensures Valid() && (lastAllocatedPod == NOPAGE ==> ptr == NULL)
      ensures ptr == NULL ==> pods == old(pods) && (lastAllocatedPod != NOPAGE ==> pods[lastAllocatedPod].where.Here?)
      ensures ptr == NULL && lastAllocatedPod in pods ==>
          PageOk(n, pods[lastAllocatedPod]) && Largest(pods[lastAllocatedPod].v) < size
      ensures ptr != NULL ==> Lists(old(pods)[lastAllocatedPod].v)
                              && pods == old(pods)[lastAllocatedPod := Served(old(pods)[lastAllocatedPod], size)]
                              && ptr == Malloc(old(pods)[lastAllocatedPod].v, size).1
                                  && PageOk(n, old(pods)[lastAllocatedPod])
                              && size <= Largest(old(pods)[lastAllocatedPod].v)
    {
      hide Ok, Tiling, Pending, Largest;
      PageNumber(n, pods, rankMap, localFreeBuffer, lastAllocatedPod);
      if lastAllocatedPod == NOPAGE {
        return NULL;
      }
      ServeLast(n, pods, rankMap, localFreeBuffer, lastAllocatedPod, size);
      LastIn();
      var i := lastAllocatedPod;
      if pods[i].where.Dropped? {
        pods := pods[i := pods[i].(where := Here)];
      }
      var p := Malloc(pods[i].v, size);
      ptr := p.1;
      pods := pods[i := pods[i].(v := p.0)];
      assert pods == old(pods)[i := Served(old(pods)[i], size)];
    }

    lemma LastIn()
      requires Valid() && lastAllocatedPod != NOPAGE
      ensures lastAllocatedPod in pods && !pods[lastAllocatedPod].where.Away?
    {
    }

    /** adjustPodList, then forgetting the page: all ranks are exact. */
    method AdjustPodList(i: int)
      requires Valid() && i == lastAllocatedPod && i in pods && pods[i].where.Here?
      modifies this`pods, this`rankMap
      ensures Lists(old(pods)[i].v) && pods == old(pods)[i := Rerank(old(pods)[i])]
      ensures Ok(n, pods, rankMap, localFreeBuffer, NOPAGE)
    {
      hide Ok, Largest;
      var oldRank := pods[i].rank;
      AdjustFacts(n, pods, rankMap, localFreeBuffer, lastAllocatedPod, i);
      var updated := UpdateRank(i);
      if updated {
        Reindex(i, oldRank);
      }
      ForgetLast(n, pods, rankMap, localFreeBuffer, lastAllocatedPod);
    }

    /** allocateOfAList on the set of the largest rank: the first page whose lock is free has room. */
    method AllocateOfAList(size: int, r: int, busy: set<int>) returns (i: int, ptr: int)
      requires Ok(n, pods, rankMap, localFreeBuffer, NOPAGE) && r in rankMap && 4 <= size <= r
      modifies this`pods, this`rankMap, this`lastAllocatedPod
      ensures Ok(n, pods, rankMap, localFreeBuffer, i) && NOPAGE !in old(pods)
      ensures i == NOPAGE <==> forall k :: 0 <= k < |old(rankMap[r])| ==> old(rankMap[r])[k] in busy
      ensures i == NOPAGE ==> pods == old(pods) && rankMap == old(rankMap)
      ensures i == NOPAGE ==> ptr == NULL && lastAllocatedPod == old(lastAllocatedPod)
      ensures i != NOPAGE ==> lastAllocatedPod == i && i in old(pods) && i in old(rankMap[r]) && i !in busy
      ensures i != NOPAGE ==> PageOk(n, old(pods)[i]) && old(pods)[i].where.Here? && size <= Largest(old(pods)[i].v)
      ensures i != NOPAGE ==> NULL != ptr == Malloc(old(pods)[i].v, size).1 && Lists(Served(old(pods)[i], size).v)
      ensures i != NOPAGE ==> pods == old(pods)[i := Rerank(Served(old(pods)[i], size))]
    {
      hide Ok, Largest, TakeOut, PutIn, Malloc;
      PageNumber(n, pods, rankMap, localFreeBuffer, NOPAGE);
      var k := 0;
      while k < |rankMap[r]| && rankMap[r][k] in busy
        invariant 0 <= k <= |rankMap[r]| && forall q :: 0 <= q < k ==> rankMap[r][q] in busy
      {
        k := k + 1;
      }
      if k == |rankMap[r]| {
        return NOPAGE, NULL;
      }
      i := rankMap[r][k];
      assert Indexed(rankMap, r, i);
      ServeTop(n, pods, rankMap, localFreeBuffer, r, i, size);
      var result := Malloc(pods[i].v, size);
      ptr := result.1;
      pods := pods[i := pods[i].(v := result.0)];
      lastAllocatedPod := i;
      var updated := UpdateRank(i);
      assert pods == old(pods)[i := Rerank(Served(old(pods)[i], size))];
      if updated {
        OrderIrrelevant(rankMap, r, pods[i].rank, i);
        rankMap := PutIn(rankMap, pods[i].rank, i);
        rankMap := TakeOut(rankMap, r, i);
      }
    }

    /** The page allocated from last gets its exact rank and is forgotten. */
    method SettleLast()
      requires Valid()
      requires lastAllocatedPod != NOPAGE ==> lastAllocatedPod in pods && pods[lastAllocatedPod].where.Here?
      modifies this`pods, this`rankMap, this`lastAllocatedPod
      ensures Valid() && lastAllocatedPod == NOPAGE && AllLater(n, old(pods), pods) && SameButRanks(old(pods), pods)
      ensures (exists r :: r in old(rankMap)) ==> exists r :: r in rankMap
    {
      PagesOk(n, pods, rankMap, localFreeBuffer, lastAllocatedPod);
      LaterStart(n, pods);
      if lastAllocatedPod != NOPAGE {
        LaterRank(n, pods, pods, lastAllocatedPod);
        AdjustPodList(lastAllocatedPod);
        assert Indexed(rankMap, pods[lastAllocatedPod].rank, lastAllocatedPod);
      }
      lastAllocatedPod := NOPAGE;
    }

    /** allocate: hands out a block exactly if a scan over all indexed pages, postponed releases included, would find
        room. */
    method Allocate(size: int, endKey: int) returns (i: int, ptr: int)
      requires Valid() && 4 <= size <= n - 4 && ((exists r :: r in rankMap) || endKey < size)
      modifies this`pods, this`rankMap, this`localFreeBuffer, this`lastAllocatedPod
      ensures Valid() && (forall j :: j in old(pods) ==> PageOk(n, old(pods)[j]))
      ensures i == NOPAGE <==> !ScanFinds(n, old(pods), size)
      ensures i == NOPAGE ==> lastAllocatedPod == NOPAGE && AllLater(n, old(pods), pods)
      ensures i != NOPAGE ==> lastAllocatedPod == i && Handed(n, old(pods), pods, i, ptr, size)
      ensures i != NOPAGE ==>
          if old(lastAllocatedPod) in old(pods) && size <= Largest(old(pods)[old(lastAllocatedPod)].v)
          then i == old(lastAllocatedPod)
          else ByRank(n, old(pods), i, size)
    {
      hide Ok, Largest, ScanFinds, AllLater, AllFlushed, Handed, ByRank, SameButRanks;
      PagesOk(n, pods, rankMap, localFreeBuffer, lastAllocatedPod);
      PageNumber(n, pods, rankMap, localFreeBuffer, lastAllocatedPod);
      if lastAllocatedPod != NOPAGE {
        LastIn();
      }
      ptr := TryAllocateWithPreviousPod(size);
      if ptr != NULL {
        HandedLast(n, old(pods), lastAllocatedPod, size);
        HandedFound(n, old(pods), pods, lastAllocatedPod, ptr, size);
        return lastAllocatedPod, ptr;
      }
      SettleLast();
      i, ptr := AllocateRanked(size, endKey, old(pods));
    }

    /** The part of allocate that goes by rank. */
    method AllocateRanked(size: int, endKey: int, ghost before: map<int, Page>) returns (i: int, ptr: int)
      requires Valid() && lastAllocatedPod == NOPAGE && 4 <= size <= n - 4
      requires (exists r :: r in rankMap) || endKey < size
      requires AllLater(n, before, pods) && SameButRanks(before, pods)
      requires forall j :: j in before ==> PageOk(n, before[j])
      modifies this`pods, this`rankMap, this`localFreeBuffer, this`lastAllocatedPod
      ensures Valid() && (i == NOPAGE <==> !ScanFinds(n, before, size)) && (i != NOPAGE ==> ByRank(n, before, i, size))
      ensures i == NOPAGE ==> lastAllocatedPod == NOPAGE && AllLater(n, before, pods)
      ensures i != NOPAGE ==> lastAllocatedPod == i && Handed(n, before, pods, i, ptr, size)
    {
      hide Ok, Largest, ScanFinds, AllLater, AllFlushed, Handed, ByRank, SameButRanks, RoomNow;
      RanksBounded(n, pods, rankMap, localFreeBuffer);
      NoEmptySet(n, pods, rankMap, localFreeBuffer, lastAllocatedPod);
      ghost var pods0 := pods;
      var r := TopRank(rankMap, n, endKey);
      var flushed := r < size;
      if flushed {
        NoRoomNow(n, before, pods, rankMap, localFreeBuffer, size);
        if localFreeBuffer == [] {
          NothingPostponed(n, pods, rankMap);
          ScanFails(n, before, pods, rankMap, localFreeBuffer, size);
          return NOPAGE, NULL;
        }
        ghost var pods1, rm1, buffer1 := pods, rankMap, localFreeBuffer;
        PagesOk(n, pods, rankMap, localFreeBuffer, lastAllocatedPod);
        ClearLocalFreeBuffer();
        LaterFlush(n, before, pods1, pods);
        StillIndexed(n, pods1, rm1, buffer1, pods, rankMap);
        NoEmptySet(n, pods, rankMap, localFreeBuffer, lastAllocatedPod);
        RanksBounded(n, pods, rankMap, localFreeBuffer);
      }
      r := TopRank(rankMap, n, endKey);
      if r < size {
        NothingPostponed(n, pods, rankMap);
        ScanFails(n, before, pods, rankMap, localFreeBuffer, size);
        return NOPAGE, NULL;
      }
      ghost var pods2, rm2 := pods, rankMap;
      var busy: set<int> := {};
      i, ptr := AllocateOfAList(size, r, busy);
      assert rm2[r][0] !in busy;
      if flushed {
        RankLater(n, before, pods0, pods2, rm2, r, i, size);
      } else {
        RankNow(n, before, pods2, rm2, localFreeBuffer, r, i, size);
      }
      HandedTop(n, before, pods2, i, size);
      HandedFound(n, before, pods, i, ptr, size);
      PageNumber(n, pods, rankMap, localFreeBuffer, lastAllocatedPod);
    }

    static lemma LastKnown(n: int, pods: map<int, Page>, rm: RankMap, buffer: seq<int>, last: int)
      requires Ok(n, pods, rm, buffer, last)
      ensures 6 <= n && (last != NOPAGE ==> last in pods)
    {
    }

    static lemma PageNumber(n: int, pods: map<int, Page>, rm: RankMap, buffer: seq<int>, last: int)
      requires Ok(n, pods, rm, buffer, last)
      ensures NOPAGE !in pods
    {
    }

    /** addPodAndAllocate: a new page joins and serves the request.  The index stays sound exactly if the page allocated
        from last, which is forgotten here, still has its exact rank.  After an allocate that found no room there is no
        such page. */
    method AddPodAndAllocate(i: int, size: int) returns (ptr: int)
      requires Valid() && i !in pods && i != NOPAGE && 4 <= size <= n - 4
      modifies this`pods, this`rankMap, this`lastAllocatedPod
      ensures ptr == 2 && lastAllocatedPod == i && 6 <= n && pods == old(pods)[i := NewPage(n, size)]
      ensures old(lastAllocatedPod) != NOPAGE ==> old(lastAllocatedPod) in old(pods)
      ensures Valid() <==> old(lastAllocatedPod) == NOPAGE || Settled(old(pods)[old(lastAllocatedPod)])
    {
      hide PutIn, Ok, Settled;
      LastKnown(n, pods, rankMap, localFreeBuffer, lastAllocatedPod);
      AddOkIff(n, pods, rankMap, localFreeBuffer, lastAllocatedPod, i, size);
      var result := Malloc(Fresh(n), size);
      ptr := result.1;
      pods := pods[i := Page(result.0, [], Here, -1, -1)];
      var updated := UpdateRank(i);
      rankMap := PutIn(rankMap, pods[i].rank, i);
      lastAllocatedPod := i;
      assert pods == old(pods)[i := NewPage(n, size)];
    }

    /** free: the release is postponed; a full buffer of a page in memory is flushed, one of a page that is swapped out
        is reported. */
    method Free(i: int, b: int) returns (full: bool)
      requires Valid() && i in pods && b in pods[i].v.blk && !pods[i].v.blk[b].free && b !in pods[i].buf
      modifies this`pods, this`rankMap, this`localFreeBuffer
      ensures Valid() && !old(pods)[i].where.Dropped? && PageOk(n, old(pods)[i].(buf := old(pods)[i].buf + [b]))
      ensures full <==> old(pods)[i].where.Away? && |old(pods)[i].buf| + 1 >= MAX_FREE_BUFF_SIZE
      ensures pods == old(pods)[i := if old(pods)[i].where.Here? && |old(pods)[i].buf| + 1 >= MAX_FREE_BUFF_SIZE
                                     then FlushPage(n, old(pods)[i].(buf := old(pods)[i].buf + [b]))
                                     else old(pods)[i].(buf := old(pods)[i].buf + [b])]
    {
      hide IndexOk, RanksOk, PageOk, FlushPage, Exact;
      if pods[i].where.Here? {
        PostponeOk(n, pods, rankMap, localFreeBuffer,
                   if i in localFreeBuffer then localFreeBuffer else localFreeBuffer + [i], lastAllocatedPod, i, b);
      } else {
        PostponeOk(n, pods, rankMap, localFreeBuffer, localFreeBuffer, lastAllocatedPod, i, b);
      }
      pods := pods[i := pods[i].(buf := pods[i].buf + [b])];
      full := |pods[i].buf| >= MAX_FREE_BUFF_SIZE;
      if pods[i].where.Away? {
        return;
      }
      if !full {
        localFreeBuffer := if i in localFreeBuffer then localFreeBuffer else localFreeBuffer + [i];
        return;
      }
      FlushOnePage(i);
      full := false;
    }

    /** benchSwappedPage: the page leaves the index, unless it is the page allocated from last. */
    method BenchSwappedPage(i: int) returns (removed: bool)
      requires Valid() && i in pods && pods[i].where.Here?
      modifies this`pods, this`rankMap
      ensures pods == old(pods) && (removed <==> i != lastAllocatedPod)
      ensures rankMap == if removed then TakeOut(old(rankMap), pods[i].rank, i) else old(rankMap)
    {
      if i == lastAllocatedPod {
        return false;
      }
      assert Exact(pods[i]);
      var updated := UpdateRank(i);
      assert pods == old(pods);
      rankMap := TakeOut(rankMap, pods[i].rank, i);
      return true;
    }

    /** Eviction of a page in memory: the last page stays, an empty page is dropped, any other page is swapped out. */
    method Evict(i: int) returns (removed: bool)
      requires Valid() && i in pods && pods[i].where.Here?
      modifies this`pods, this`rankMap
      ensures Valid() && PageOk(n, old(pods)[i]) && (removed <==> i != lastAllocatedPod)
      ensures pods == if Flushed(n, old(pods)[i]).blk == map[2 := Block(n - 2, true)]
                      then if removed then old(pods) - {i}
                          else old(pods)[i := old(pods)[i].(v := Fresh(n), buf := [], where := Dropped)]
                      else old(pods)[i := old(pods)[i].(v := Flushed(n, old(pods)[i]), buf := [],
                          where := if removed then Away else Here)]
    {
      hide Ok, Tiling, Lists, Pending, Flushed;
      EvictFacts(n, pods, rankMap, localFreeBuffer, lastAllocatedPod, i);
      removed := BenchSwappedPage(i);
      FlushFreeBuffer(i);
      if pods[i].v.blk == map[2 := Block(n - 2, true)] {
        if removed {
          pods := pods - {i};
          assert pods == old(pods) - {i};
        } else {
          pods := pods[i := pods[i].(v := Fresh(n), where := Dropped)];
          assert pods == old(pods)[i := old(pods)[i].(v := Fresh(n), buf := [], where := Dropped)];
        }
        return;
      }
      if removed {
        pods := pods[i := pods[i].(where := Away)];
        assert pods == old(pods)[i := old(pods)[i].(v := Flushed(n, old(pods)[i]), buf := [], where := Away)];
      }
    }

    static lemma EvictFacts(n: int, pods: map<int, Page>, rm: RankMap, buffer: seq<int>, last: int, i: int)
      requires Ok(n, pods, rm, buffer, last) && i in pods && pods[i].where.Here?
      ensures PageOk(n, pods[i])
      ensures i != last ==> Ok(n, pods[i := pods[i].(v := Flushed(n, pods[i]), buf := [], where := Away)],
                               TakeOut(rm, pods[i].rank, i), buffer, last)
      ensures i != last ==> Ok(n, pods - {i}, TakeOut(rm, pods[i].rank, i), buffer, last)
      ensures i == last ==> Ok(n, pods[i := pods[i].(v := Flushed(n, pods[i]), buf := [])], rm, buffer, last)
      ensures i == last ==> Ok(n, pods[i := pods[i].(v := Fresh(n), buf := [], where := Dropped)], rm, buffer, last)
    {
      hide IndexOk, BuffersOk, RanksOk, TakeOut, Tiling, Lists;
      EvictPage(n, pods, rm, buffer, last, i);
      FlushGrows(n, pods[i].v, pods[i].buf);
      if i != last {
        LeaveOk(n, pods, rm, buffer, last, i, pods[i].(v := Flushed(n, pods[i]), buf := [], where := Away));
      } else {
        LastOk(n, pods, rm, buffer, last, pods[i].(v := Flushed(n, pods[i]), buf := []));
        LastOk(n, pods, rm, buffer, last, pods[i].(v := Fresh(n), buf := [], where := Dropped));
      }
    }

    static lemma EvictPage(n: int, pods: map<int, Page>, rm: RankMap, buffer: seq<int>, last: int, i: int)
      requires Ok(n, pods, rm, buffer, last) && i in pods && pods[i].where.Here?
      ensures PageOk(n, pods[i]) && pods[i].rank == pods[i].oldRank
      ensures PageOk(n, pods[i].(v := Fresh(n), buf := [], where := Dropped))
    {
    }

    /** Swapping in: the postponed releases are done and unbenchSwappedPage puts the page back into the index. */
    method UnbenchSwappedPage(i: int)
      requires Valid() && i in pods && pods[i].where.Away?
      modifies this`pods, this`rankMap
      ensures Valid() && PageOk(n, old(pods)[i]) && pods == old(pods)[i := FlushPage(n, old(pods)[i]).(where := Here)]
    {
      hide Ok, Tiling, Lists, Pending, Flushed, PutIn;
      ReturnOk(n, pods, rankMap, localFreeBuffer, lastAllocatedPod, i);
      FlushFreeBuffer(i);
      var updated := UpdateRank(i);
      rankMap := PutIn(rankMap, pods[i].rank, i);
      pods := pods[i := pods[i].(where := Here)];
      assert pods == old(pods)[i := FlushPage(n, old(pods)[i]).(where := Here)];
    }
  }
}
