/** Whole runs on the index of small-block pages, against plain bookkeeping of the blocks that are handed out. */
module RankHistory {
  import opened HeapModel
  import opened HeapTheorems
  import opened PageHeap
  import opened Residency
  import opened RankIndex

  /** Block b of page p is handed out: allocated, and its release not postponed. */
  ghost predicate Out(p: Page, b: int) {
    b in p.v.blk && !p.v.blk[b].free && b !in p.buf
  }

  /** The blocks handed out, by page and block pointer, with their sizes. */
  ghost predicate Tracks(pods: map<int, Page>, held: map<(int, int), int>) {
    forall i, b ::
        ((i, b) in held <==> i in pods && Out(pods[i], b)) && ((i, b) in held ==> held[(i, b)] == pods[i].v.blk[b].size)
  }

  /** Pages p and q have the same blocks handed out. */
  ghost predicate SameOut(p: Page, q: Page) {
    forall b :: (Out(q, b) <==> Out(p, b)) && (Out(p, b) ==> q.v.blk[b] == p.v.blk[b])
  }

  /** Postponed releases, done or not, do not change what is handed out. */
  lemma LaterSame(n: int, p: Page, q: Page)
    requires PageOk(n, p) && Later(n, p, q)
    ensures SameOut(p, q)
  {
    forall b
      ensures (Out(q, b) <==> Out(p, b)) && (Out(p, b) ==> q.v.blk[b] == p.v.blk[b])
    {
      FreeAllGives(n, p.v, p.buf, b);
    }
  }

  /** A block served by malloc is new, large enough, and the only change. */
  lemma ServedOut(n: int, p: Page, q: Page, ptr: int, size: int)
    requires PageOk(n, p) && 4 <= size && Malloc(p.v, size) == (q.v, ptr) && ptr != NULL && q.buf == p.buf
    ensures !Out(p, ptr) && Out(q, ptr) && size <= q.v.blk[ptr].size
    ensures forall b :: b != ptr ==> (Out(q, b) <==> Out(p, b)) && (Out(p, b) ==> q.v.blk[b] == p.v.blk[b])
  {
    MallocGives(n, p.v, size);
  }

  lemma SameTracks(pods: map<int, Page>, pods': map<int, Page>, held: map<(int, int), int>)
    requires Tracks(pods, held) && pods'.Keys == pods.Keys && forall i :: i in pods ==> SameOut(pods[i], pods'[i])
    ensures Tracks(pods', held)
  {
  }

  lemma OnePageTracks(pods: map<int, Page>, held: map<(int, int), int>, i: int, q: Page)
    requires Tracks(pods, held) && i in pods && SameOut(pods[i], q)
    ensures Tracks(pods[i := q], held)
  {
  }

  /** One page gets one more block. */
  lemma MoreTracks(pods: map<int, Page>, pods': map<int, Page>, held: map<(int, int), int>, i: int, ptr: int)
    requires Tracks(pods, held) && i in pods' && pods'.Keys == pods.Keys + {i}
    requires forall j :: j in pods && j != i ==> SameOut(pods[j], pods'[j])
    requires Out(pods'[i], ptr) && (i in pods ==> !Out(pods[i], ptr))
    requires forall b :: b != ptr ==> (Out(pods'[i], b) <==> i in pods && Out(pods[i], b))
    requires forall b :: b != ptr && i in pods && Out(pods[i], b) && Out(pods'[i], b) ==>
        pods'[i].v.blk[b] == pods[i].v.blk[b]
    ensures (i, ptr) !in held && Tracks(pods', held[(i, ptr) := pods'[i].v.blk[ptr].size])
  {
  }

  /** What allocate hands out was not handed out before. */
  lemma HandedTracks(n: int, pods: map<int, Page>, pods': map<int, Page>, held: map<(int, int), int>, i: int, ptr: int,
                     size: int)
    requires (forall j :: j in pods ==> PageOk(n, pods[j])) && Handed(n, pods, pods', i, ptr, size) && 4 <= size
    requires Tracks(pods, held)
    ensures (i, ptr) !in held && Out(pods'[i], ptr) && size <= pods'[i].v.blk[ptr].size
    ensures Tracks(pods', held[(i, ptr) := pods'[i].v.blk[ptr].size])
  {
    hide Tracks;
    forall j | j in pods && j != i
      ensures SameOut(pods[j], pods'[j])
    {
      LaterSame(n, pods[j], pods'[j]);
    }
    if pods'[i].buf == pods[i].buf && Malloc(pods[i].v, size) == (pods'[i].v, ptr) {
      ServedOut(n, pods[i], pods'[i], ptr, size);
    } else {
      var f := FlushedPage(n, pods[i]);
      ServedOut(n, f, pods'[i], ptr, size);
    }
    MoreTracks(pods, pods', held, i, ptr);
  }

  lemma FlushedPage(n: int, p: Page) returns (f: Page)
    requires PageOk(n, p)
    ensures f == p.(v := Flushed(n, p), buf := [], where := Here) && PageOk(n, f) && SameOut(p, f)
  {
    f := p.(v := Flushed(n, p), buf := [], where := Here);
    FlushGrows(n, p.v, p.buf);
    LaterSame(n, p, f.(where := p.where));
  }

  /** A new page starts with one block handed out. */
  lemma NewTracks(n: int, pods: map<int, Page>, held: map<(int, int), int>, i: int, size: int)
    requires Tracks(pods, held) && i !in pods && 6 <= n && 4 <= size <= n - 4
    ensures (i, 2) !in held && 2 in NewPage(n, size).v.blk && size <= NewPage(n, size).v.blk[2].size
    ensures Tracks(pods[i := NewPage(n, size)], held[(i, 2) := NewPage(n, size).v.blk[2].size])
  {
    hide Tracks;
    FreshServes(n, size);
    var p := Page(Fresh(n), [], Here, -1, -1);
    assert PageOk(n, p);
    ServedOut(n, p, NewPage(n, size), 2, size);
    MoreTracks(pods, pods[i := NewPage(n, size)], held, i, 2);
  }

  /** A postponed release takes one block back, whether it is flushed at once or not. */
  lemma PostponeTracks(n: int, pods: map<int, Page>, held: map<(int, int), int>, i: int, b: int, q: Page)
    requires Tracks(pods, held) && i in pods && Out(pods[i], b)
    requires PageOk(n, pods[i].(buf := pods[i].buf + [b]))
    requires SameOut(pods[i].(buf := pods[i].buf + [b]), q)
    ensures Tracks(pods[i := q], held - {(i, b)})
  {
    var p := pods[i].(buf := pods[i].buf + [b]);
    assert forall c :: Out(p, c) <==> Out(pods[i], c) && c != b;
  }

  /** A page that is dropped has no block handed out. */
  lemma DropTracks(n: int, pods: map<int, Page>, held: map<(int, int), int>, i: int)
    requires Tracks(pods, held) && i in pods && PageOk(n, pods[i])
    requires Flushed(n, pods[i]).blk == map[2 := Block(n - 2, true)]
    ensures Tracks(pods - {i}, held) && SameOut(pods[i], pods[i].(v := Fresh(n), buf := [], where := Dropped))
  {
    forall b
      ensures !Out(pods[i], b)
    {
      FreeAllGives(n, pods[i].v, pods[i].buf, b);
    }
  }

  lemma FlushSame(n: int, p: Page)
    requires PageOk(n, p)
    ensures SameOut(p, FlushPage(n, p)) && SameOut(p, FlushPage(n, p).(where := Here))
    ensures SameOut(p, p.(v := Flushed(n, p), buf := []))
    ensures SameOut(p, p.(v := Flushed(n, p), buf := [], where := Away))
  {
    var f := FlushedPage(n, p);
  }

  // ----- runs ---------------------------------------------------------------------------------------------------

  datatype Op = Get(size: int) | Put(page: int, block: int) | SwapOut(page: int) | SwapIn(page: int)

  /** One step of the bookkeeping.  A request gets a block that is not handed out and is large enough; a release takes
      back exactly its block; swapping changes nothing. */
  ghost predicate PlainStep(held: map<(int, int), int>, op: Op, answer: (int, int), held': map<(int, int), int>) {
    match op
    case Get(size) => answer !in held && answer in held' && size <= held'[answer]
        && held' == held[answer := held'[answer]]
    case Put(i, b) => held' == held - {(i, b)}
    case _ => held' == held
  }

  /** Pages in use have numbers below next, and the page allocated from last is there. */
  ghost predicate Running(spl: SegregatedPageList, next: int)
    reads spl
  {
    spl.Valid() && 0 <= next && forall i :: i in spl.pods ==> 0 <= i < next
  }

  /** Blocks handed out lie inside their page of n words, and no two of a page overlap. */
  ghost predicate Apart(n: int, held: map<(int, int), int>) {
    && (forall i, b :: (i, b) in held ==> 2 <= b && b + held[(i, b)] <= n)
    && (forall i, b, c :: (i, b) in held && (i, c) in held && b < c ==> b + held[(i, b)] <= c)
  }

  lemma TracksApart(n: int, pods: map<int, Page>, rm: RankMap, buffer: seq<int>, last: int, held: map<(int, int), int>)
    requires Ok(n, pods, rm, buffer, last) && Tracks(pods, held)
    ensures Apart(n, held)
  {
  }

  /** remonMalloc for small sizes: from an indexed page, or else from a new one. */
  method GetBlock(spl: SegregatedPageList, next: int, size: int, endKey: int, held: map<(int, int), int>)
    returns (i: int, ptr: int, next': int, held': map<(int, int), int>)
    requires Running(spl, next) && endKey < 4 <= size <= spl.n - 4 && Tracks(spl.pods, held)
    modifies spl
    ensures Running(spl, next') && Tracks(spl.pods, held') && PlainStep(held, Get(size), (i, ptr), held')
    ensures next <= next' <= next + 1 && (forall j :: j in old(spl.pods) ==> PageOk(spl.n, old(spl.pods)[j]))
    ensures next' == next <==> ScanFinds(spl.n, old(spl.pods), size)
  {
    hide Ok, Tracks, Handed, ScanFinds, AllLater;
    ghost var pods := spl.pods;
    i, ptr := spl.Allocate(size, endKey);
    next' := next;
    if i != NOPAGE {
      HandedKeys(spl.n, pods, spl.pods, i, ptr, size);
      HandedTracks(spl.n, pods, spl.pods, held, i, ptr, size);
      held' := held[(i, ptr) := spl.pods[i].v.blk[ptr].size];
    } else {
      LaterTracks(spl.n, pods, spl.pods, held);
      i := next;
      next' := next + 1;
      SoundSize(spl.n, spl.pods, spl.rankMap, spl.localFreeBuffer, spl.lastAllocatedPod);
      NewTracks(spl.n, spl.pods, held, i, size);
      ptr := spl.AddPodAndAllocate(i, size);
      held' := held[(i, ptr) := spl.pods[i].v.blk[ptr].size];
    }
  }

  /** The calls other than malloc: free, eviction and activation, each made only if it is allowed. */
  method Other(spl: SegregatedPageList, next: int, op: Op, held: map<(int, int), int>)
    returns (held': map<(int, int), int>)
    requires Running(spl, next) && !op.Get? && Tracks(spl.pods, held)
    modifies spl
    ensures Running(spl, next) && Tracks(spl.pods, held') && PlainStep(held, op, (0, 0), held')
  {
    held' := held;
    match op {
      case Get(size) =>
      case Put(i, b) =>
        if (i, b) in held {
          held' := held - {(i, b)};
          PutBack(spl, next, i, b, held);
        }
      case SwapOut(i) =>
        if i in spl.pods && spl.pods[i].where.Here? {
          Leave(spl, next, i, held);
        }
      case SwapIn(i) =>
        if i in spl.pods && spl.pods[i].where.Away? {
          Return(spl, next, i, held);
        }
    }
  }

  method PutBack(spl: SegregatedPageList, next: int, i: int, b: int, ghost held: map<(int, int), int>)
    requires Running(spl, next) && Tracks(spl.pods, held) && (i, b) in held
    modifies spl
    ensures Running(spl, next) && Tracks(spl.pods, held - {(i, b)})
  {
    hide PageOk, SameOut, Flushed, Ok;
    ghost var pods := spl.pods;
    var full := spl.Free(i, b);
    ghost var p := pods[i].(buf := pods[i].buf + [b]);
    FlushSame(spl.n, p);
    PostponeTracks(spl.n, pods, held, i, b, spl.pods[i]);
  }

  method Leave(spl: SegregatedPageList, next: int, i: int, ghost held: map<(int, int), int>)
    requires Running(spl, next) && Tracks(spl.pods, held) && i in spl.pods && spl.pods[i].where.Here?
    modifies spl
    ensures Running(spl, next) && Tracks(spl.pods, held)
  {
    hide Ok, Tracks, SameOut, PageOk, Flushed;
    ghost var pods, n := spl.pods, spl.n;
    var removed := spl.Evict(i);
    FlushSame(n, pods[i]);
    if Flushed(n, pods[i]).blk == map[2 := Block(n - 2, true)] {
      DropTracks(n, pods, held, i);
    }
    if i in spl.pods {
      OnePageTracks(pods, held, i, spl.pods[i]);
    }
  }

  method Return(spl: SegregatedPageList, next: int, i: int, ghost held: map<(int, int), int>)
    requires Running(spl, next) && Tracks(spl.pods, held) && i in spl.pods && spl.pods[i].where.Away?
    modifies spl
    ensures Running(spl, next) && Tracks(spl.pods, held)
  {
    hide Ok, Tracks, SameOut, PageOk;
    ghost var pods := spl.pods;
    spl.UnbenchSwappedPage(i);
    FlushSame(spl.n, pods[i]);
    OnePageTracks(pods, held, i, spl.pods[i]);
  }

  lemma SoundSize(n: int, pods: map<int, Page>, rm: RankMap, buffer: seq<int>, last: int)
    requires Ok(n, pods, rm, buffer, last)
    ensures 6 <= n
  {
  }

  lemma HandedKeys(n: int, pods: map<int, Page>, pods': map<int, Page>, i: int, ptr: int, size: int)
    requires (forall j :: j in pods ==> PageOk(n, pods[j])) && Handed(n, pods, pods', i, ptr, size)
    ensures i in pods && pods'.Keys == pods.Keys
  {
  }

  lemma LaterTracks(n: int, pods: map<int, Page>, pods': map<int, Page>, held: map<(int, int), int>)
    requires AllLater(n, pods, pods') && Tracks(pods, held)
    ensures Tracks(pods', held) && pods'.Keys == pods.Keys
  {
    forall i | i in pods
      ensures SameOut(pods[i], pods'[i])
    {
      LaterSame(n, pods[i], pods'[i]);
    }
    SameTracks(pods, pods', held);
  }

  ghost predicate PlainRun(n: int, ops: seq<Op>, answers: seq<(int, int)>, helds: seq<map<(int, int), int>>) {
    && |answers| == |ops| && |helds| == |ops| + 1
    && (forall k :: 0 <= k < |ops| ==> PlainStep(helds[k], ops[k], answers[k], helds[k + 1]))
    && forall k :: 0 <= k <= |ops| ==> Apart(n, helds[k])
  }

  lemma RunGrows(n: int, ops: seq<Op>, answers: seq<(int, int)>, helds: seq<map<(int, int), int>>, op: Op,
                 answer: (int, int), held: map<(int, int), int>)
    requires PlainRun(n, ops, answers, helds) && PlainStep(helds[|ops|], op, answer, held) && Apart(n, held)
    ensures PlainRun(n, ops + [op], answers + [answer], helds + [held])
  {
  }

  /** Any run of malloc, free, eviction and activation on a new list is a run of the bookkeeping: no block is handed out
      twice at the same time, each is large enough, blocks of a page never overlap, and only its own release takes a
      block back. */
  method Execute(words: int, endKey: int, ops: seq<Op>)
    returns (answers: seq<(int, int)>, ghost helds: seq<map<(int, int), int>>)
    requires 8 <= words && endKey < 4 && forall k :: 0 <= k < |ops| && ops[k].Get? ==> 4 <= ops[k].size <= words - 4
    ensures PlainRun(words, ops, answers, helds) && helds[0] == map[]
  {
    hide PlainStep, Tracks, Ok, Apart;
    var spl := new SegregatedPageList(words);
    NothingTracked(words);
    var next, held := 0, map[];
    answers := [];
    helds := [held];
    var k := 0;
    while k < |ops|
      invariant 0 <= k <= |ops| && spl.n == words && fresh(spl) && Running(spl, next) && Tracks(spl.pods, held)
      invariant PlainRun(words, ops[..k], answers, helds) && helds[0] == map[] && helds[k] == held
    {
      var answer := (0, 0);
      if ops[k].Get? {
        var i, b;
        i, b, next, held := GetBlock(spl, next, ops[k].size, endKey, held);
        answer := (i, b);
      } else {
        held := Other(spl, next, ops[k], held);
      }
      TracksApart(words, spl.pods, spl.rankMap, spl.localFreeBuffer, spl.lastAllocatedPod, held);
      RunGrows(words, ops[..k], answers, helds, ops[k], answer, held);
      answers := answers + [answer];
      helds := helds + [held];
      assert ops[..k + 1] == ops[..k] + [ops[k]];
      k := k + 1;
    }
    assert ops[..k] == ops;
  }

  lemma NothingTracked(n: int)
    ensures Tracks(map[], map[]) && Apart(n, map[])
  {
  }
}
