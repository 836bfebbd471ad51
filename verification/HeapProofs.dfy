/** How single words, tags and list operations act on the heap invariant. */
module HeapProofs {
  import opened HeapModel
  import opened ListOps

  // ----- one word at a time --------------------------------------------------------------------

  lemma LinksPut(m: Words, head: int, fl: seq<int>, j: int, w: int)
    requires Links(m, head, fl) && 0 <= j < |m|
    requires forall i :: 0 <= i < |fl| ==> j != fl[i] && j != fl[i] + 1
    ensures Links(m[j := w], head, fl)
  {
  }

  /** j is a word that carries no tag and no sentinel. */
  ghost predicate NoTag(n: int, blk: map<int, Block>, j: int) {
    0 < j < n - 1 && forall c :: c in blk ==> j != c - 1 && j != c + blk[c].size - 2
  }

  lemma TagsPut(m: Words, blk: map<int, Block>, j: int, w: int)
    requires Tags(m, blk) && NoTag(|m|, blk, j)
    ensures Tags(m[j := w], blk)
  {
  }

  /** The words that belong to block b: header to footer. */
  predicate Within(blk: map<int, Block>, b: int, j: int) {
    b in blk && b - 1 <= j < b + blk[b].size - 1
  }

  lemma OneOwner(n: int, blk: map<int, Block>, b: int, c: int, j: int)
    requires Tiling(n, blk) && Within(blk, b, j) && Within(blk, c, j)
    ensures b == c
  {
  }

  lemma LivePut(n: int, m: Words, m1: Words, blk: map<int, Block>, f: int, j: int, w: int)
    requires |m| == n && Tiling(n, blk) && LiveSame(m, m1, blk)
    requires Within(blk, f, j) && blk[f].free && 0 <= j < n
    ensures LiveSame(m, m1[j := w], blk)
  {
  }

  /** Live data kept by two steps, where the second step keeps at least as many live blocks. */
  lemma LiveTrans(m0: Words, m1: Words, m2: Words, blk: map<int, Block>, blk': map<int, Block>)
    requires LiveSame(m0, m1, blk) && LiveSame(m1, m2, blk')
    requires forall b :: b in blk && !blk[b].free ==> b in blk' && blk'[b] == blk[b]
    ensures LiveSame(m0, m2, blk)
  {
    forall b, j | Payload(blk, b, j) && 0 <= j < |m0|
      ensures m2[j] == m0[j]
    {
      assert Payload(blk', b, j);
    }
  }

  /** What the macros read at a block's header. */
  lemma HeaderFacts(m: Words, head: int, v: View, b: int)
    requires Inv(m, head, v) && b in v.blk
    ensures Fits(|m|, b, v.blk[b]) && Even(b, v.blk[b])
    ensures m[b - 1] == Tag(v.blk[b])
    ensures GetSize(m[b - 1]) / 8 == v.blk[b].size
    ensures GetAlloc(m[b - 1]) == if v.blk[b].free then 0 else 1
    ensures Next(v.blk, b) == |m| || Next(v.blk, b) in v.blk
  {
    assert Even(b, v.blk[b]);
    Untag(v.blk[b]);
  }

  /** What the macros read at a node of the free list. */
  lemma NodeFacts(m: Words, head: int, v: View, i: int)
    requires Inv(m, head, v) && 0 <= i < |v.fl|
    ensures 2 <= v.fl[i] < |m| - 2 && v.fl[i] in v.blk
    ensures GetSize(m[v.fl[i] - 1]) / 8 == v.blk[v.fl[i]].size
    ensures m[v.fl[i]] == NextLink(v.fl, i)
  {
    LinksAt(m, head, v.fl, i);
    assert Even(v.fl[i], v.blk[v.fl[i]]);
    Untag(v.blk[v.fl[i]]);
  }

  /** Live data kept by a step and then by a merge that leaves the live blocks as they are. */
  lemma CoalesceLive(m0: Words, m1: Words, m2: Words, v: View, b: int, e: int)
    requires LiveSame(m0, m1, v.blk) && LiveSame(m1, m2, Swallow(v, b, e).blk)
    ensures LiveSame(m0, m2, Swallow(v, b, e).blk)
  {
    forall c, j | Payload(Swallow(v, b, e).blk, c, j) && 0 <= j < |m0|
      ensures m2[j] == m0[j]
    {
      assert Payload(v.blk, c, j);
    }
  }

  // ----- popFreeBlockOut and insertAtFreeHead --------------------------------------------------

  /** All nodes of the list are free blocks. */
  ghost predicate Nodes(blk: map<int, Block>, fl: seq<int>) {
    forall i :: 0 <= i < |fl| ==> fl[i] in blk && blk[fl[i]].free
  }

  /** j is an untagged word of some free block. */
  ghost predicate Loose(n: int, blk: map<int, Block>, j: int) {
    NoTag(n, blk, j) && exists f :: Within(blk, f, j) && blk[f].free
  }

  /** All link words of the list are loose. */
  ghost predicate LooseLinks(n: int, blk: map<int, Block>, fl: seq<int>) {
    forall i {:trigger Loose(n, blk, fl[i])} ::
      0 <= i < |fl| ==> Loose(n, blk, fl[i]) && Loose(n, blk, fl[i] + 1)
  }

  lemma NodesLoose(n: int, blk: map<int, Block>, fl: seq<int>)
    requires Tiling(n, blk) && Nodes(blk, fl)
    ensures LooseLinks(n, blk, fl)
  {
  }

  /** Writing one loose word keeps the tags and the live data. */
  lemma LoosePut(m0: Words, m: Words, blk: map<int, Block>, j: int, w: int)
    requires Tiling(|m|, blk) && Tags(m, blk) && LiveSame(m0, m, blk) && Loose(|m|, blk, j)
    ensures 0 <= j < |m| && Tags(m[j := w], blk) && LiveSame(m0, m[j := w], blk)
  {
  }

  lemma PopKeeps(m0: Words, r: Raw, blk: map<int, Block>, fl: seq<int>, k: int)
    requires Tiling(|r.m|, blk) && Tags(r.m, blk) && Links(r.m, r.head, fl) && LooseLinks(|r.m|, blk, fl)
    requires 0 <= k < |fl| && LiveSame(m0, r.m, blk)
    ensures CanPop(r, fl[k])
    ensures Tags(Pop(r, fl[k]).m, blk)
    ensures LiveSame(m0, Pop(r, fl[k]).m, blk)
  {
    hide Tags, Tiling, NoTag;
    LinksAt(r.m, r.head, fl, k);
    assert k > 0 ==> Loose(|r.m|, blk, fl[k - 1]);
    assert k + 1 < |fl| ==> Loose(|r.m|, blk, fl[k + 1]);
    LoosePutNext(m0, r.m, blk, r.m[fl[k] + 1], r.m[fl[k]]);
    LoosePutPrev(m0, PutNext(r.m, r.m[fl[k] + 1], r.m[fl[k]]), blk, r.m[fl[k]], r.m[fl[k] + 1]);
  }

  lemma LoosePutNext(m0: Words, m: Words, blk: map<int, Block>, p: int, w: int)
    requires Tiling(|m|, blk) && Tags(m, blk) && LiveSame(m0, m, blk)
    requires p != HEAD ==> 0 <= p < |m| && Loose(|m|, blk, p)
    ensures Tags(PutNext(m, p, w), blk) && LiveSame(m0, PutNext(m, p, w), blk)
  {
  }

  lemma LoosePutPrev(m0: Words, m: Words, blk: map<int, Block>, p: int, w: int)
    requires Tiling(|m|, blk) && Tags(m, blk) && LiveSame(m0, m, blk)
    requires p != NULL ==> 0 <= p < |m| - 1 && Loose(|m|, blk, p + 1)
    ensures Tags(PutPrev(m, p, w), blk) && LiveSame(m0, PutPrev(m, p, w), blk)
  {
  }

  lemma PushKeeps(m0: Words, r: Raw, blk: map<int, Block>, fl: seq<int>, b: int)
    requires Tiling(|r.m|, blk) && Tags(r.m, blk) && Links(r.m, r.head, fl) && Nodes(blk, fl)
    requires b in blk && blk[b].free && LiveSame(m0, r.m, blk)
    ensures CanPush(r, b)
    ensures Tags(Push(r, b).m, blk)
    ensures LiveSame(m0, Push(r, b).m, blk)
  {
    hide Tags, Tiling;
    assert Loose(|r.m|, blk, b) && Loose(|r.m|, blk, b + 1) by {
      NodesLoose(|r.m|, blk, [b]);
      assert Loose(|r.m|, blk, [b][0]);
    }
    assert r.head != NULL ==> 0 <= r.head && Loose(|r.m|, blk, r.head + 1) by {
      NodesLoose(|r.m|, blk, fl);
      if r.head != NULL {
        assert Loose(|r.m|, blk, fl[0]);
      }
    }
    PushLoose(m0, r, blk, b);
  }

  lemma PushLoose(m0: Words, r: Raw, blk: map<int, Block>, b: int)
    requires Tiling(|r.m|, blk) && Tags(r.m, blk) && LiveSame(m0, r.m, blk)
    requires Loose(|r.m|, blk, b) && Loose(|r.m|, blk, b + 1)
    requires r.head != NULL ==> 0 <= r.head && Loose(|r.m|, blk, r.head + 1)
    ensures CanPush(r, b)
    ensures Tags(Push(r, b).m, blk) && LiveSame(m0, Push(r, b).m, blk)
  {
    hide Tags, Tiling;
    LoosePut(m0, r.m, blk, b, r.head);
    LoosePutPrev(m0, r.m[b := r.head], blk, r.head, b);
    LoosePut(m0, PutPrev(r.m[b := r.head], r.head, b), blk, b + 1, HEAD);
  }

  /** Blocks of a tiling are at least four words apart. */
  lemma Apart(n: int, blk: map<int, Block>, fl: seq<int>, b: int)
    requires Tiling(n, blk) && Nodes(blk, fl) && b in blk && b !in fl
    ensures 2 <= b < n - 2
    ensures forall i :: 0 <= i < |fl| ==> fl[i] + 1 < b || b + 1 < fl[i]
  {
  }

  // ----- tags ------------------------------------------------------------------------------------

  /** SET_BLOCK_SIZE followed by SET_ALLOC or SET_FREE: header and footer of the block at b. */
  function SetTag(m: Words, b: int, x: Block): Words
    requires 1 <= b && 2 <= x.size && b + x.size - 2 < |m|
  {
    m[b - 1 := Tag(x)][b + x.size - 2 := Tag(x)]
  }

  /** A word inside block b is no link word of another block's node. */
  lemma InsideNoLink(n: int, blk: map<int, Block>, fl: seq<int>, b: int, j: int)
    requires Tiling(n, blk) && Nodes(blk, fl) && Within(blk, b, j) && b !in fl
    ensures forall i :: 0 <= i < |fl| ==> j != fl[i] && j != fl[i] + 1
  {
  }

  /** Retagging inside a free block that is off the list disturbs neither the list nor live data. */
  lemma SetTagInside(m0: Words, m: Words, head: int, blk: map<int, Block>, fl: seq<int>, b: int, c: int, x: Block)
    requires Tiling(|m|, blk) && Links(m, head, fl) && Nodes(blk, fl) && LiveSame(m0, m, blk)
    requires b in blk && blk[b].free && b !in fl
    requires b <= c && 2 <= x.size && c + x.size <= b + blk[b].size
    ensures c + x.size - 2 < |m|
    ensures Links(SetTag(m, c, x), head, fl)
    ensures LiveSame(m0, SetTag(m, c, x), blk)
  {
    hide Links, Tag;
    assert Fits(|m|, b, blk[b]);
    InsideNoLink(|m|, blk, fl, b, c - 1);
    LinksPut(m, head, fl, c - 1, Tag(x));
    LivePut(|m|, m0, m, blk, b, c - 1, Tag(x));
    var m1 := m[c - 1 := Tag(x)];
    InsideNoLink(|m|, blk, fl, b, c + x.size - 2);
    LinksPut(m1, head, fl, c + x.size - 2, Tag(x));
    LivePut(|m|, m0, m1, blk, b, c + x.size - 2, Tag(x));
  }

  // ----- malloc: carving a block -----------------------------------------------------------------

  lemma RetagTags(m: Words, blk: map<int, Block>, b: int, free: bool)
    requires Tiling(|m|, blk) && Tags(m, blk) && b in blk
    ensures b + blk[b].size - 2 < |m|
    ensures Tags(SetTag(m, b, Block(blk[b].size, free)), blk[b := Block(blk[b].size, free)])
  {
    hide Tag;
    assert Fits(|m|, b, blk[b]);
    forall c | c in blk && c != b
      ensures SetTag(m, b, Block(blk[b].size, free))[c - 1] == Tag(blk[c])
      ensures SetTag(m, b, Block(blk[b].size, free))[c + blk[c].size - 2] == Tag(blk[c])
    {
      OtherTags(|m|, blk, b, c);
    }
  }

  lemma RetagTiling(n: int, blk: map<int, Block>, b: int, free: bool)
    requires Tiling(n, blk) && b in blk
    ensures Tiling(n, blk[b := Block(blk[b].size, free)])
  {
    var blk' := blk[b := Block(blk[b].size, free)];
    forall c | c in blk'
      ensures Next(blk', c) == n || Next(blk', c) in blk'
    {
      assert Next(blk', c) == Next(blk, c);
    }
  }

  lemma BlocksFit(n: int, blk: map<int, Block>, b: int, c: int)
    requires Tiling(n, blk) && b in blk && c in blk
    ensures Fits(n, b, blk[b]) && Fits(n, c, blk[c]) && (Next(blk, b) == n || Next(blk, b) in blk)
    ensures b < c ==> b + blk[b].size <= c
    ensures c < b ==> c + blk[c].size <= b
  {
  }

  lemma TilingFrom(n: int, blk: map<int, Block>)
    requires 2 in blk && forall b :: b in blk ==> Fits(n, b, blk[b])
    requires forall b {:trigger Next(blk, b)} :: b in blk ==> Next(blk, b) == n || Next(blk, b) in blk
    requires forall b, c :: b in blk && c in blk && b < c ==> b + blk[b].size <= c
    ensures Tiling(n, blk)
  {
  }

  lemma SplitAt(n: int, blk: map<int, Block>, b: int, a: int, c: int)
    requires Tiling(n, blk) && b in blk && 4 <= a && 4 <= blk[b].size - a && c in SplitBlk(blk, b, a)
    ensures Fits(n, c, SplitBlk(blk, b, a)[c])
    ensures Next(SplitBlk(blk, b, a), c) == n || Next(SplitBlk(blk, b, a), c) in SplitBlk(blk, b, a)
  {
    hide Tiling;
    BlocksFit(n, blk, b, b);
    if c in blk {
      BlocksFit(n, blk, c, b);
    }
  }

  lemma SplitApart(n: int, blk: map<int, Block>, b: int, a: int, c: int, d: int)
    requires Tiling(n, blk) && b in blk && 4 <= a && 4 <= blk[b].size - a
    requires c in SplitBlk(blk, b, a) && d in SplitBlk(blk, b, a) && c < d
    ensures c + SplitBlk(blk, b, a)[c].size <= d
  {
    hide Tiling;
    if c in blk {
      BlocksFit(n, blk, b, c);
    }
    if d in blk {
      BlocksFit(n, blk, b, d);
    }
    if c in blk && d in blk {
      BlocksFit(n, blk, c, d);
    }
  }

  lemma SplitStart(n: int, blk: map<int, Block>, b: int, a: int)
    requires Tiling(n, blk) && b in blk && 4 <= a && 4 <= blk[b].size - a
    ensures 2 in SplitBlk(blk, b, a)
  {
  }

  lemma SplitTiling(n: int, blk: map<int, Block>, b: int, a: int)
    requires Tiling(n, blk) && b in blk
    requires 4 <= a && 4 <= blk[b].size - a
    ensures Tiling(n, SplitBlk(blk, b, a))
  {
    hide Tiling, SplitBlk, Next;
    forall c | c in SplitBlk(blk, b, a)
      ensures Fits(n, c, SplitBlk(blk, b, a)[c])
      ensures Next(SplitBlk(blk, b, a), c) == n || Next(SplitBlk(blk, b, a), c) in SplitBlk(blk, b, a)
    {
      SplitAt(n, blk, b, a, c);
    }
    forall c, d | c in SplitBlk(blk, b, a) && d in SplitBlk(blk, b, a) && c < d
      ensures c + SplitBlk(blk, b, a)[c].size <= d
    {
      SplitApart(n, blk, b, a, c, d);
    }
    SplitStart(n, blk, b, a);
    TilingFrom(n, SplitBlk(blk, b, a));
  }

  lemma EvenSum(x: int, y: int)
    requires x % 2 == 0 && y % 2 == 0
    ensures (x + y) % 2 == 0 && (x - y) % 2 == 0
  {
  }

  lemma SplitAligned(n: int, blk: map<int, Block>, b: int, a: int)
    requires Aligned(n, blk) && b in blk && a % 2 == 0
    ensures Aligned(n, SplitBlk(blk, b, a))
  {
    assert Even(b, blk[b]);
    EvenSum(b, a);
    EvenSum(blk[b].size, a);
    forall c | c in SplitBlk(blk, b, a)
      ensures Even(c, SplitBlk(blk, b, a)[c])
    {
      if c != b && c != b + a {
        assert Even(c, blk[c]);
      }
    }
  }

  lemma RetagAligned(n: int, blk: map<int, Block>, b: int, free: bool)
    requires Aligned(n, blk) && b in blk
    ensures Aligned(n, blk[b := Block(blk[b].size, free)])
  {
    forall c | c in blk
      ensures Even(c, blk[b := Block(blk[b].size, free)][c])
    {
      assert Even(c, blk[c]);
    }
  }

  /** The tags of another block of the tiling lie outside block b. */
  lemma OtherTags(n: int, blk: map<int, Block>, b: int, c: int)
    requires Tiling(n, blk) && b in blk && c in blk && b != c
    ensures !Within(blk, b, c - 1) && !Within(blk, b, c + blk[c].size - 2)
    ensures Fits(n, c, blk[c])
  {
  }

  lemma SplitTags(m: Words, blk: map<int, Block>, b: int, a: int)
    requires Tiling(|m|, blk) && Tags(m, blk) && b in blk
    requires 4 <= a && 4 <= blk[b].size - a
    ensures b + blk[b].size - 2 < |m|
    ensures Tags(SetTag(SetTag(m, b, Block(a, false)), b + a, Block(blk[b].size - a, true)), SplitBlk(blk, b, a))
  {
    hide Tag, Tiling;
    var s := blk[b].size;
    var x, y := Block(a, false), Block(s - a, true);
    var blk' := SplitBlk(blk, b, a);
    assert Fits(|m|, b, blk[b]);
    var m' := SetTag(SetTag(m, b, x), b + a, y);
    forall c | c in blk'
      ensures Fits(|m|, c, blk'[c])
      ensures m'[c - 1] == Tag(blk'[c]) && m'[c + blk'[c].size - 2] == Tag(blk'[c])
    {
      if c == b {
        assert m'[b - 1] == Tag(x) && m'[b + a - 2] == Tag(x);
      } else if c == b + a {
        assert m'[b + a - 1] == Tag(y) && m'[b + s - 2] == Tag(y);
      } else {
        OtherTags(|m|, blk, b, c);
      }
    }
  }

  lemma WithoutNodes(blk: map<int, Block>, fl: seq<int>, b: int)
    requires Nodes(blk, fl)
    ensures Nodes(blk, Without(fl, b)) && b !in Without(fl, b)
  {
  }

  lemma SplitNodes(n: int, blk: map<int, Block>, fl: seq<int>, b: int, a: int)
    requires Tiling(n, blk) && Nodes(blk, fl) && b in blk && b !in fl
    requires 4 <= a && 4 <= blk[b].size - a
    ensures Nodes(SplitBlk(blk, b, a), fl) && b + a !in fl && b + a !in blk
    ensures 2 <= b + a < n - 2
    ensures forall i :: 0 <= i < |fl| ==> fl[i] + 1 < b + a || b + a + 1 < fl[i]
  {
  }

  lemma SplitLive(m0: Words, m1: Words, m2: Words, blk: map<int, Block>, b: int, a: int)
    requires b in blk && blk[b].free && b + a !in blk
    requires LiveSame(m0, m1, blk) && LiveSame(m1, m2, SplitBlk(blk, b, a))
    ensures LiveSame(m0, m2, blk)
  {
    LiveTrans(m0, m1, m2, blk, SplitBlk(blk, b, a));
  }

  lemma CarveLists(n: int, v: View, b: int, asize: int)
    requires Tiling(n, v.blk) && Lists(v) && b in v.blk && v.blk[b].free
    requires 4 <= asize <= v.blk[b].size
    ensures Lists(Carve(v, b, asize))
  {
    var s := v.blk[b].size;
    var w := Carve(v, b, asize);
    assert b + asize != b;
    forall i | 0 <= i < |w.fl|
      ensures w.fl[i] in w.blk && w.blk[w.fl[i]].free
    {
      assert w.fl[i] in w.fl;
    }
  }

  // ----- free: swallowing the run to the right --------------------------------------------------

  /** The free run that starts at c ends at the first block that is not free, or at the page's end;
      every block inside it is free. */
  lemma {:induction false} RunEndIs(n: int, blk: map<int, Block>, c: int)
    requires Tiling(n, blk) && (c == n || c in blk)
    ensures c <= RunEnd(n, blk, c) <= n
    ensures RunEnd(n, blk, c) == n || (RunEnd(n, blk, c) in blk && !blk[RunEnd(n, blk, c)].free)
    ensures forall d :: d in blk && c <= d < RunEnd(n, blk, c) ==> blk[d].free && d + blk[d].size <= RunEnd(n, blk, c)
    decreases n - c
  {
    if c in blk && blk[c].free {
      assert Fits(n, c, blk[c]);
      RunEndIs(n, blk, Next(blk, c));
    } else if c == n {
      assert forall d :: d in blk ==> Fits(n, d, blk[d]);
    }
  }

  /** e is a block boundary to the right of b, and all blocks between b and e are free. */
  ghost predicate Run(n: int, blk: map<int, Block>, b: int, e: int) {
    && b in blk && blk[b].free
    && b + blk[b].size <= e <= n
    && (e == n || e in blk)
    && (forall d :: d in blk && b < d < e ==> blk[d].free && d + blk[d].size <= e)
  }

  lemma SwallowTiling(n: int, v: View, b: int, e: int)
    requires Tiling(n, v.blk) && Run(n, v.blk, b, e)
    ensures Tiling(n, Swallow(v, b, e).blk)
  {
    var blk, blk' := v.blk, Swallow(v, b, e).blk;
    assert Fits(n, b, blk[b]);
    forall c | c in blk'
      ensures Fits(n, c, blk'[c])
      ensures Next(blk', c) == n || Next(blk', c) in blk'
    {
      assert Fits(n, c, blk[c]);
      if c == b {
        assert Next(blk', c) == e;
      } else {
        assert Next(blk', c) == Next(blk, c);
      }
    }
  }

  lemma SwallowAligned(n: int, v: View, b: int, e: int)
    requires Aligned(n, v.blk) && Run(n, v.blk, b, e)
    ensures Aligned(n, Swallow(v, b, e).blk)
  {
    assert Even(b, v.blk[b]);
    assert e % 2 == 0 by {
      if e != n { assert Even(e, v.blk[e]); }
    }
    EvenSum(e, b);
    forall c | c in Swallow(v, b, e).blk
      ensures Even(c, Swallow(v, b, e).blk[c])
    {
      assert Even(c, v.blk[c]);
    }
  }

  /** A block outside the swallowed run keeps its tags. */
  lemma SwallowTagAt(m: Words, blk: map<int, Block>, b: int, e: int, c: int)
    requires Tiling(|m|, blk) && Tags(m, blk) && Run(|m|, blk, b, e)
    requires c in blk && c != b && !(b < c < e)
    ensures 1 <= b && 4 <= e - b && e <= |m| && Fits(|m|, c, blk[c])
    ensures SetTag(m, b, Block(e - b, true))[c - 1] == Tag(blk[c])
    ensures SetTag(m, b, Block(e - b, true))[c + blk[c].size - 2] == Tag(blk[c])
  {
  }

  lemma SwallowTags(m: Words, v: View, b: int, e: int)
    requires Tiling(|m|, v.blk) && Tags(m, v.blk) && Run(|m|, v.blk, b, e)
    ensures 1 <= b && 4 <= e - b && e <= |m|
    ensures Tags(SetTag(m, b, Block(e - b, true)), Swallow(v, b, e).blk)
  {
    hide Tag, Tiling, Next, Outside;
    assert Fits(|m|, b, v.blk[b]);
    assert SetTag(m, b, Block(e - b, true))[b - 1] == Tag(Block(e - b, true));
    assert Fits(|m|, b, Block(e - b, true));
    forall c | c in v.blk && c != b && !(b < c < e)
      ensures Fits(|m|, c, v.blk[c])
      ensures SetTag(m, b, Block(e - b, true))[c - 1] == Tag(v.blk[c])
      ensures SetTag(m, b, Block(e - b, true))[c + v.blk[c].size - 2] == Tag(v.blk[c])
    {
      SwallowTagAt(m, v.blk, b, e, c);
    }
  }

  /** The merge's header and footer writes never hit a link word, not even one inside the merged
      block that is still to be read. */
  lemma SwallowLinks(m: Words, head: int, v: View, b: int, e: int)
    requires Tiling(|m|, v.blk) && Links(m, head, v.fl) && Nodes(v.blk, v.fl) && Run(|m|, v.blk, b, e)
    ensures 1 <= b && 4 <= e - b && e <= |m|
    ensures Links(SetTag(m, b, Block(e - b, true)), head, v.fl)
  {
    hide Tag, Links, NextLink, PrevLink;
    assert Fits(|m|, b, v.blk[b]);
    forall i | 0 <= i < |v.fl|
      ensures v.fl[i] != b - 1 && v.fl[i] + 1 != b - 1 && v.fl[i] != e - 2 && v.fl[i] + 1 != e - 2
    {
      assert Fits(|m|, v.fl[i], v.blk[v.fl[i]]);
    }
    LinksPut(m, head, v.fl, b - 1, Tag(Block(e - b, true)));
    LinksPut(m[b - 1 := Tag(Block(e - b, true))], head, v.fl, e - 2, Tag(Block(e - b, true)));
  }

  /** A free block's link words are loose after the merge too. */
  lemma SwallowLooseAt(n: int, v: View, b: int, e: int, x: int)
    requires Tiling(n, v.blk) && Run(n, v.blk, b, e) && x in v.blk && v.blk[x].free
    ensures Loose(n, Swallow(v, b, e).blk, x) && Loose(n, Swallow(v, b, e).blk, x + 1)
  {
    hide Swallow, Loose;
    SwallowTiling(n, v, b, e);
    assert Fits(n, b, v.blk[b]) && Fits(n, x, v.blk[x]);
    SwallowsAt(v, b, e, x);
    LooseInside(n, Swallow(v, b, e).blk, if b < x < e then b else x, x);
  }

  /** The first two words of free block x, or of what block f has swallowed, are loose. */
  lemma LooseInside(n: int, blk: map<int, Block>, f: int, x: int)
    requires Tiling(n, blk) && f in blk && blk[f].free && f <= x && x + 4 <= f + blk[f].size
    ensures Loose(n, blk, x) && Loose(n, blk, x + 1)
  {
    assert Within(blk, f, x) && Within(blk, f, x + 1);
  }

  lemma SwallowsAt(v: View, b: int, e: int, x: int)
    requires b in v.blk && x in v.blk
    ensures b in Swallow(v, b, e).blk && Swallow(v, b, e).blk[b] == Block(e - b, true)
    ensures !(b < x < e) && x != b ==> x in Swallow(v, b, e).blk && Swallow(v, b, e).blk[x] == v.blk[x]
  {
  }

  lemma SwallowLoose(n: int, v: View, b: int, e: int)
    requires Tiling(n, v.blk) && Nodes(v.blk, v.fl) && Run(n, v.blk, b, e)
    ensures LooseLinks(n, Swallow(v, b, e).blk, v.fl)
  {
    forall i | 0 <= i < |v.fl|
      ensures Loose(n, Swallow(v, b, e).blk, v.fl[i]) && Loose(n, Swallow(v, b, e).blk, v.fl[i] + 1)
    {
      SwallowLooseAt(n, v, b, e, v.fl[i]);
    }
  }

  lemma SwallowLive(m0: Words, m: Words, v: View, b: int, e: int)
    requires Tiling(|m|, v.blk) && LiveSame(m0, m, v.blk) && Run(|m|, v.blk, b, e)
    ensures 1 <= b && 4 <= e - b && e <= |m|
    ensures LiveSame(m0, SetTag(m, b, Block(e - b, true)), Swallow(v, b, e).blk)
  {
    var blk' := Swallow(v, b, e).blk;
    assert Fits(|m|, b, v.blk[b]);
    SwallowTiling(|m|, v, b, e);
    forall c, j | Payload(blk', c, j) && 0 <= j < |m0|
      ensures m[j] == m0[j]
    {
      assert Payload(v.blk, c, j);
    }
    LivePut(|m|, m0, m, blk', b, b - 1, Tag(Block(e - b, true)));
    LivePut(|m|, m0, m[b - 1 := Tag(Block(e - b, true))], blk', b, e - 2, Tag(Block(e - b, true)));
  }

  lemma SwallowLists(n: int, v: View, b: int, e: int)
    requires Tiling(n, v.blk) && Lists(v) && Run(n, v.blk, b, e)
    ensures Lists(Swallow(v, b, e))
  {
    var w := Swallow(v, b, e);
    forall i | 0 <= i < |w.fl|
      ensures w.fl[i] in w.blk && w.blk[w.fl[i]].free
    {
      assert w.fl[i] in w.fl;
      assert w.fl[i] in v.fl;
    }
  }

  // ----- malloc on raw states --------------------------------------------------------------------

  predicate CanCut(r: Raw, b: int, s: int, a: int) {
    2 <= b && b + s <= |r.m| && 4 <= a && 4 <= s - a && CanPush(r, b + a)
  }

  /** Block b of s words is cut after a words; the rest is tagged and goes to the front of the list. */
  function CutRaw(r: Raw, b: int, s: int, a: int): Raw
    requires CanCut(r, b, s, a)
  {
    Push(Raw(Pieces(r.m, b, s, a), r.head), b + a)
  }

  predicate CanCarve(r: Raw, b: int, s: int, asize: int) {
    && CanPop(r, b) && 2 <= b && 4 <= asize <= s && b + s <= |r.m|
    && (4 <= s - asize ==> CanCut(Pop(r, b), b, s, asize))
  }

  /** The writes of malloc once block b of s words was chosen. */
  function CarveRaw(r: Raw, b: int, s: int, asize: int): Raw
    requires CanCarve(r, b, s, asize)
  {
    if s - asize < 4 then
      Raw(SetTag(Pop(r, b).m, b, Block(s, false)), Pop(r, b).head)
    else
      CutRaw(Pop(r, b), b, s, asize)
  }

  /** Free block b is off the list fl of other free blocks. */
  ghost predicate OffList(n: int, blk: map<int, Block>, fl: seq<int>, b: int) {
    Tiling(n, blk) && Nodes(blk, fl) && b in blk && blk[b].free && b !in fl
  }

  /** State between popFreeBlockOut and the retagging in malloc. */
  ghost predicate Unlinked(m0: Words, r: Raw, blk: map<int, Block>, fl: seq<int>, b: int) {
    && OffList(|r.m|, blk, fl, b)
    && Tags(r.m, blk) && Links(r.m, r.head, fl) && LiveSame(m0, r.m, blk)
  }

  /** The tags describe the blocks blk', the list is fl, and the live data of blk is untouched. */
  ghost predicate Retagged(m0: Words, r: Raw, blk: map<int, Block>, blk': map<int, Block>, fl: seq<int>) {
    Tags(r.m, blk') && Links(r.m, r.head, fl) && LiveSame(m0, r.m, blk)
  }

  lemma CarveWhole(m0: Words, r: Raw, blk: map<int, Block>, fl: seq<int>, b: int)
    requires Unlinked(m0, r, blk, fl, b)
    ensures 2 <= b && 4 <= blk[b].size && b + blk[b].size <= |r.m|
    ensures Retagged(m0, Raw(SetTag(r.m, b, Block(blk[b].size, false)), r.head), blk,
        blk[b := Block(blk[b].size, false)], fl)
  {
    assert Fits(|r.m|, b, blk[b]);
    SetTagInside(m0, r.m, r.head, blk, fl, b, b, Block(blk[b].size, false));
    RetagTags(r.m, blk, b, false);
  }

  /** The two retagged pieces of block b, before the second one is put on the list. */
  function Pieces(m: Words, b: int, s: int, a: int): Words
    requires 2 <= b && b + s <= |m| && 4 <= a && 4 <= s - a
  {
    SetTag(SetTag(m, b, Block(a, false)), b + a, Block(s - a, true))
  }

  lemma CarveSplit(m0: Words, r: Raw, blk: map<int, Block>, fl: seq<int>, b: int, a: int)
    requires Unlinked(m0, r, blk, fl, b)
    requires 4 <= a && 4 <= blk[b].size - a
    ensures CanCut(r, b, blk[b].size, a)
    ensures Retagged(m0, CutRaw(r, b, blk[b].size, a), blk, SplitBlk(blk, b, a), [b + a] + fl)
  {
    CutTags(m0, r, blk, fl, b, a);
    CarvePush(m0, Raw(Pieces(r.m, b, blk[b].size, a), r.head), blk, fl, b, a);
  }

  lemma CutTags(m0: Words, r: Raw, blk: map<int, Block>, fl: seq<int>, b: int, a: int)
    requires Unlinked(m0, r, blk, fl, b)
    requires 4 <= a && 4 <= blk[b].size - a
    ensures 2 <= b && b + blk[b].size <= |r.m|
    ensures Retagged(m0, Raw(Pieces(r.m, b, blk[b].size, a), r.head), blk, SplitBlk(blk, b, a), fl)
  {
    hide Links, SetTag, Tags;
    assert Fits(|r.m|, b, blk[b]);
    SetTagInside(m0, r.m, r.head, blk, fl, b, b, Block(a, false));
    SetTagInside(m0, SetTag(r.m, b, Block(a, false)), r.head, blk, fl, b, b + a, Block(blk[b].size - a, true));
    SplitTags(r.m, blk, b, a);
  }

  lemma CarvePush(m0: Words, r: Raw, blk: map<int, Block>, fl: seq<int>, b: int, a: int)
    requires OffList(|r.m|, blk, fl, b)
    requires 4 <= a && 4 <= blk[b].size - a
    requires Retagged(m0, r, blk, SplitBlk(blk, b, a), fl)
    ensures CanPush(r, b + a)
    ensures Retagged(m0, Push(r, b + a), blk, SplitBlk(blk, b, a), [b + a] + fl)
  {
    hide Tags, Links, Tiling, Push;
    SplitNodes(|r.m|, blk, fl, b, a);
    SplitTiling(|r.m|, blk, b, a);
    PushLinks(r, fl, b + a);
    PushKeeps(r.m, r, SplitBlk(blk, b, a), fl, b + a);
    SplitLive(m0, r.m, Push(r, b + a).m, blk, b, a);
  }

  lemma PopUnlinks(r: Raw, v: View, b: int)
    requires Inv(r.m, r.head, v) && b in v.fl
    ensures CanPop(r, b) && Unlinked(r.m, Pop(r, b), v.blk, Without(v.fl, b), b)
  {
    var k :| 0 <= k < |v.fl| && v.fl[k] == b;
    assert CanPop(r, b) && Links(Pop(r, b).m, Pop(r, b).head, Without(v.fl, b)) by {
      PopLinks(r, v.fl, k);
    }
    assert Tags(Pop(r, b).m, v.blk) && LiveSame(r.m, Pop(r, b).m, v.blk) by {
      NodesLoose(|r.m|, v.blk, v.fl);
      PopKeeps(r.m, r, v.blk, v.fl, k);
    }
    WithoutNodes(v.blk, v.fl, b);
  }

  /** malloc's writes realise the view's Carve and touch no live data. */
  lemma CarveCorrect(r: Raw, v: View, b: int, asize: int)
    requires Inv(r.m, r.head, v) && b in v.fl
    requires 4 <= asize <= v.blk[b].size && asize % 2 == 0
    ensures CanCarve(r, b, v.blk[b].size, asize)
    ensures Inv(CarveRaw(r, b, v.blk[b].size, asize).m, CarveRaw(r, b, v.blk[b].size, asize).head, Carve(v, b, asize))
    ensures LiveSame(r.m, CarveRaw(r, b, v.blk[b].size, asize).m, v.blk)
  {
    hide Tags, Tiling, Push, Pop;
    PopUnlinks(r, v, b);
    CarveLists(|r.m|, v, b, asize);
    if v.blk[b].size - asize < 4 {
      CarveWhole(r.m, Pop(r, b), v.blk, Without(v.fl, b), b);
      RetagAligned(|r.m|, v.blk, b, false);
      RetagTiling(|r.m|, v.blk, b, false);
    } else {
      SplitAligned(|r.m|, v.blk, b, asize);
      CarveSplit(r.m, Pop(r, b), v.blk, Without(v.fl, b), b, asize);
      SplitTiling(|r.m|, v.blk, b, asize);
    }
  }

  // ----- free on raw states ----------------------------------------------------------------------

  predicate CanRelease(r: Raw, b: int, s: int) {
    2 <= b && 4 <= s && b + s <= |r.m| && CanPush(r, b)
  }

  function ReleaseRaw(r: Raw, b: int, s: int): Raw
    requires CanRelease(r, b, s)
  {
    Push(Raw(SetTag(r.m, b, Block(s, true)), r.head), b)
  }

  lemma ReleaseLists(v: View, b: int)
    requires Lists(v) && b in v.blk && !v.blk[b].free
    ensures Lists(Release(v, b)) && Nodes(v.blk[b := Block(v.blk[b].size, true)], v.fl) && b !in v.fl
  {
  }

  lemma ReleaseTags(r: Raw, v: View, b: int)
    requires Tiling(|r.m|, v.blk) && Tags(r.m, v.blk) && Links(r.m, r.head, v.fl)
    requires Nodes(v.blk, v.fl) && b in v.blk && b !in v.fl
    ensures 2 <= b && 4 <= v.blk[b].size && b + v.blk[b].size <= |r.m|
    ensures Retagged(r.m, Raw(SetTag(r.m, b, Block(v.blk[b].size, true)), r.head),
                     v.blk[b := Block(v.blk[b].size, true)], v.blk[b := Block(v.blk[b].size, true)], v.fl)
  {
    hide Links, Within, Tags, Tag;
    assert Fits(|r.m|, b, v.blk[b]);
    RetagTags(r.m, v.blk, b, true);
    RetagTiling(|r.m|, v.blk, b, true);
    InsideNoLink(|r.m|, v.blk, v.fl, b, b - 1);
    InsideNoLink(|r.m|, v.blk, v.fl, b, b + v.blk[b].size - 2);
    LinksPut(r.m, r.head, v.fl, b - 1, Tag(Block(v.blk[b].size, true)));
    LinksPut(r.m[b - 1 := Tag(Block(v.blk[b].size, true))], r.head, v.fl, b + v.blk[b].size - 2,
        Tag(Block(v.blk[b].size, true)));
    ReleaseLive(r.m, v.blk, b);
  }

  lemma ReleaseLive(m: Words, blk: map<int, Block>, b: int)
    requires Tiling(|m|, blk) && b in blk
    ensures 2 <= b && 4 <= blk[b].size && b + blk[b].size <= |m|
    ensures LiveSame(m, SetTag(m, b, Block(blk[b].size, true)), blk[b := Block(blk[b].size, true)])
  {
  }

  lemma ReleasePush(m0: Words, r: Raw, blk: map<int, Block>, fl: seq<int>, b: int)
    requires Tiling(|r.m|, blk) && Nodes(blk, fl) && b in blk && blk[b].free && b !in fl
    requires Retagged(m0, r, blk, blk, fl)
    ensures CanPush(r, b)
    ensures Retagged(m0, Push(r, b), blk, blk, [b] + fl)
  {
    Apart(|r.m|, blk, fl, b);
    PushLinks(r, fl, b);
    PushKeeps(m0, r, blk, fl, b);
  }

  /** SET_FREE and insertAtFreeHead re-establish the invariant before any merging. */
  lemma ReleaseCorrect(r: Raw, v: View, b: int)
    requires Inv(r.m, r.head, v) && b in v.blk && !v.blk[b].free
    ensures CanRelease(r, b, v.blk[b].size)
    ensures Inv(ReleaseRaw(r, b, v.blk[b].size).m, ReleaseRaw(r, b, v.blk[b].size).head, Release(v, b))
    ensures LiveSame(r.m, ReleaseRaw(r, b, v.blk[b].size).m, Release(v, b).blk)
  {
    ReleaseLists(v, b);
    RetagTiling(|r.m|, v.blk, b, true);
    RetagAligned(|r.m|, v.blk, b, true);
    ReleaseTags(r, v, b);
    ReleasePush(r.m, Raw(SetTag(r.m, b, Block(v.blk[b].size, true)), r.head), v.blk[b := Block(v.blk[b].size, true)],
        v.fl, b);
  }

  /** The state while merged blocks are popped one by one: tags already describe blk', the list
      still holds fl. */
  ghost predicate Popping(m0: Words, r: Raw, blk': map<int, Block>, fl: seq<int>) {
    && Tiling(|r.m|, blk') && LooseLinks(|r.m|, blk', fl)
    && Retagged(m0, r, blk', blk', fl)
  }

  lemma MergeStart(m0: Words, r: Raw, v: View, b: int, e: int)
    requires Inv(r.m, r.head, v) && LiveSame(m0, r.m, v.blk) && Run(|r.m|, v.blk, b, e)
    ensures 1 <= b && 4 <= e - b && e <= |r.m|
    ensures Popping(m0, Raw(SetTag(r.m, b, Block(e - b, true)), r.head), Swallow(v, b, e).blk, v.fl)
  {
    SwallowTiling(|r.m|, v, b, e);
    SwallowTags(r.m, v, b, e);
    SwallowLinks(r.m, r.head, v, b, e);
    SwallowLoose(|r.m|, v, b, e);
    SwallowLive(m0, r.m, v, b, e);
  }

  lemma WithoutLoose(n: int, blk: map<int, Block>, fl: seq<int>, c: int)
    requires LooseLinks(n, blk, fl)
    ensures LooseLinks(n, blk, Without(fl, c))
  {
    var w := Without(fl, c);
    forall i | 0 <= i < |w|
      ensures Loose(n, blk, w[i]) && Loose(n, blk, w[i] + 1)
    {
      assert w[i] in w;
      var k :| 0 <= k < |fl| && fl[k] == w[i];
      assert Loose(n, blk, fl[k]);
    }
  }

  lemma MergeStep(m0: Words, r: Raw, blk': map<int, Block>, fl: seq<int>, c: int)
    requires Popping(m0, r, blk', fl) && c in fl
    ensures CanPop(r, c) && r.m[c + 1] != NULL
    ensures Popping(m0, Pop(r, c), blk', Without(fl, c))
  {
    var k :| 0 <= k < |fl| && fl[k] == c;
    LinksAt(r.m, r.head, fl, k);
    PopLinks(r, fl, k);
    PopKeeps(m0, r, blk', fl, k);
    WithoutLoose(|r.m|, blk', fl, c);
  }

  /** One round of the popping loop, in terms of the hole in the original list. */
  lemma MergeRound(m0: Words, r: Raw, n: int, v: View, b: int, e: int, c: int)
    requires Tiling(n, v.blk) && Lists(v) && c in v.blk && v.blk[c].free && b < c
    requires Popping(m0, r, Swallow(v, b, e).blk, Outside(v.fl, b, c))
    ensures CanPop(r, c) && r.m[c + 1] != NULL
    ensures Popping(m0, Pop(r, c), Swallow(v, b, e).blk, Outside(v.fl, b, Next(v.blk, c)))
  {
    assert c in v.fl;
    MergeStep(m0, r, Swallow(v, b, e).blk, Outside(v.fl, b, c), c);
    HoleStep(n, v, b, c);
  }

  lemma HoleStart(n: int, v: View, b: int)
    requires Tiling(n, v.blk) && Nodes(v.blk, v.fl) && b in v.blk
    ensures Outside(v.fl, b, Next(v.blk, b)) == v.fl && b < Next(v.blk, b)
  {
    assert Fits(n, b, v.blk[b]);
    OutsideNothing(v.fl, b, Next(v.blk, b));
  }

  lemma RunOfRoot(n: int, blk: map<int, Block>, b: int)
    requires Tiling(n, blk) && b in blk && blk[b].free
    ensures Run(n, blk, b, RunEnd(n, blk, Next(blk, b)))
  {
    assert Fits(n, b, blk[b]);
    RunEndIs(n, blk, Next(blk, b));
  }

  /** All that the merge needs to know before its first write. */
  ghost predicate Mergeable(r: Raw, v: View, b: int, e: int) {
    && Tiling(|r.m|, v.blk) && Aligned(|r.m|, v.blk) && Lists(v)
    && Run(|r.m|, v.blk, b, e)
    && 1 <= b && 4 <= e - b && e <= |r.m| && (e - b) % 2 == 0
    && GetSize(r.m[b - 1]) / 8 == v.blk[b].size
    && Popping(r.m, Raw(SetTag(r.m, b, Block(e - b, true)), r.head), Swallow(v, b, e).blk, v.fl)
  }

  lemma RunEven(n: int, v: View, b: int, e: int)
    requires Aligned(n, v.blk) && Run(n, v.blk, b, e)
    ensures (e - b) % 2 == 0
  {
    assert Even(b, v.blk[b]);
    if e != n {
      assert Even(e, v.blk[e]);
    }
    EvenSum(e, b);
  }

  lemma MergeFacts(r: Raw, v: View, b: int, e: int)
    requires Inv(r.m, r.head, v) && b in v.blk && v.blk[b].free
    requires e == RunEnd(|r.m|, v.blk, Next(v.blk, b))
    ensures Mergeable(r, v, b, e)
  {
    RunOfRoot(|r.m|, v.blk, b);
    RunEven(|r.m|, v, b, e);
    HeaderFacts(r.m, r.head, v, b);
    MergeStart(r.m, r, v, b, e);
  }

  lemma ChainAt(n: int, blk: map<int, Block>, bps: seq<int>, c: int, e: int, i: int)
    requires Tiling(n, blk) && Chain(blk, bps, c, e) && 0 <= i < |bps|
    ensures bps[i] in blk && blk[bps[i]].free && Next(blk, bps[i]) == After(bps, i, e)
    ensures bps[i] < Next(blk, bps[i])
  {
    var a := After(bps, i, e);
    assert Fits(n, bps[i], blk[bps[i]]);
  }

  lemma MergeEnd(m0: Words, r: Raw, n: int, v: View, b: int, e: int)
    requires n == |r.m| && Tiling(n, v.blk) && Aligned(n, v.blk) && Lists(v) && Run(n, v.blk, b, e)
    requires Popping(m0, r, Swallow(v, b, e).blk, Outside(v.fl, b, e))
    ensures Inv(r.m, r.head, Swallow(v, b, e)) && LiveSame(m0, r.m, Swallow(v, b, e).blk)
  {
    SwallowAligned(n, v, b, e);
    SwallowLists(n, v, b, e);
  }

  /** The blocks bps follow one another from c to e, and all are free. */
  ghost predicate Chain(blk: map<int, Block>, bps: seq<int>, c: int, e: int) {
    && (if bps == [] then c == e else bps[0] == c)
    && (forall i {:trigger After(bps, i, e)} :: 0 <= i < |bps| ==>
          bps[i] in blk && blk[bps[i]].free && Next(blk, bps[i]) == After(bps, i, e))
  }

  function After(bps: seq<int>, i: int, e: int): int
    requires 0 <= i < |bps|
  {
    if i + 1 < |bps| then bps[i + 1] else e
  }

  lemma ChainAppend(blk: map<int, Block>, bps: seq<int>, c: int, x: int)
    requires Chain(blk, bps, c, x) && x in blk && blk[x].free
    ensures Chain(blk, bps + [x], c, Next(blk, x))
  {
    var bps', e := bps + [x], Next(blk, x);
    forall i | 0 <= i < |bps'|
      ensures bps'[i] in blk && blk[bps'[i]].free && Next(blk, bps'[i]) == After(bps', i, e)
    {
      if i < |bps| {
        assert After(bps, i, x) == After(bps', i, e);
      }
    }
  }

  /** A chain from the right neighbour of b to the end of its free run is what b swallows. */
  lemma {:induction false} ChainEnd(n: int, blk: map<int, Block>, bps: seq<int>, c: int, e: int)
    requires Tiling(n, blk) && Chain(blk, bps, c, e)
    requires e == n || (e in blk && !blk[e].free)
    ensures RunEnd(n, blk, c) == e
    decreases |bps|
  {
    if bps != [] {
      assert After(bps, 0, e) == Next(blk, c) by {
        var a := After(bps, 0, e);
      }
      forall i | 0 <= i < |bps[1..]|
        ensures bps[1..][i] in blk && blk[bps[1..][i]].free && Next(blk, bps[1..][i]) == After(bps[1..], i, e)
      {
        assert After(bps, i + 1, e) == After(bps[1..], i, e);
      }
      ChainEnd(n, blk, bps[1..], Next(blk, c), e);
    } else if e == n {
      assert forall d :: d in blk ==> Fits(n, d, blk[d]);
    }
  }

  /** Popping the next block of the chain widens the hole in the list by exactly that block. */
  lemma HoleStep(n: int, v: View, b: int, c: int)
    requires Tiling(n, v.blk) && Nodes(v.blk, v.fl) && c in v.blk && b < c
    ensures Outside(v.fl, b, Next(v.blk, c)) == Without(Outside(v.fl, b, c), c)
  {
    forall i | 0 <= i < |v.fl| && c <= v.fl[i] < Next(v.blk, c)
      ensures v.fl[i] == c
    {
    }
    assert Fits(n, c, v.blk[c]);
    OutsideStep(v.fl, b, c, Next(v.blk, c));
  }

  /** Nothing to merge. */
  lemma SwallowNothing(n: int, v: View, b: int)
    requires Tiling(n, v.blk) && Nodes(v.blk, v.fl) && b in v.blk && v.blk[b].free
    ensures Swallow(v, b, Next(v.blk, b)) == v
  {
    HoleStart(n, v, b);
    SwallowSame(v.blk, b);
  }

  lemma NothingToMerge(n: int, v: View, b: int)
    requires Tiling(n, v.blk) && Nodes(v.blk, v.fl) && b in v.blk && v.blk[b].free
    requires RunEnd(n, v.blk, Next(v.blk, b)) == Next(v.blk, b)
    ensures Coalesce(n, v, b) == v
  {
    SwallowNothing(n, v, b);
  }

  lemma SwallowSame(blk: map<int, Block>, b: int)
    requires b in blk && blk[b].free
    requires forall c :: c in blk ==> !(b < c < b + blk[b].size)
    ensures (map c | c in blk && !(b < c < Next(blk, b)) ::
        if c == b then Block(Next(blk, b) - b, true) else blk[c]) == blk
  {
  }

  // ----- reading the heap ------------------------------------------------------------------------

  /** A block as large as the payload is the only one. */
  lemma WholeBlock(n: int, blk: map<int, Block>, b: int)
    requires Tiling(n, blk) && b in blk && blk[b].size == n - 2
    ensures b == 2 && blk.Keys == {2}
  {
    assert Fits(n, b, blk[b]);
    forall c | c in blk
      ensures c == 2
    {
      assert Fits(n, c, blk[c]);
    }
  }

  lemma EmptyFacts(m: Words, head: int, v: View)
    requires Inv(m, head, v)
    ensures head != NULL ==> 1 <= head <= |m|
    ensures (head != NULL && GetSize(m[head - 1]) / 8 == |m| - 2) <==> v.blk == map[2 := Block(|m| - 2, true)]
  {
    if head != NULL {
      NodeFacts(m, head, v, 0);
      if v.blk[head].size == |m| - 2 {
        WholeBlock(|m|, v.blk, head);
      }
    }
    if v.blk == map[2 := Block(|m| - 2, true)] {
      assert 2 in v.fl;
      assert v.fl[0] in v.blk;
    }
  }

  lemma TailFacts(m: Words, head: int, v: View)
    requires Inv(m, head, v)
    ensures GetSize(m[|m| - 2]) / 8 == v.blk[Last(|m|, v.blk, 2)].size
    ensures GetAlloc(m[|m| - 2]) == if v.blk[Last(|m|, v.blk, 2)].free then 0 else 1
  {
    HeaderFacts(m, head, v, Last(|m|, v.blk, 2));
  }

  // ----- first fit -----------------------------------------------------------------------------------

  /** Block p is the first on the list with at least a words; NULL if there is none. */
  ghost predicate IsFirstFit(v: View, a: int, p: int)
    requires Nodes(v.blk, v.fl)
  {
    if p == NULL then forall j :: 0 <= j < |v.fl| ==> v.blk[v.fl[j]].size < a
    else exists i :: 0 <= i < |v.fl| && v.fl[i] == p && a <= v.blk[p].size
                     && forall j :: 0 <= j < i ==> v.blk[v.fl[j]].size < a
  }

  /** malloc takes the first listed block that is large enough, and changes nothing if there is none. */
  lemma MallocIsFirstFit(n: int, v: View, a: int)
    requires Tiling(n, v.blk) && Nodes(v.blk, v.fl)
    ensures IsFirstFit(v, a, Malloc(v, a).1)
    ensures Malloc(v, a).1 == NULL ==> Malloc(v, a).0 == v
  {
    var i := FirstFit(v.blk, v.fl, a);
    if i < |v.fl| {
      assert Fits(n, v.fl[i], v.blk[v.fl[i]]);
    }
  }
}
