/** What the page heap promises its clients, for every heap and every run. */
module HeapTheorems {
  import opened HeapModel
  import opened ListOps
  import opened HeapProofs
  import opened PageHeap

  // ----- request sizes ----------------------------------------------------------------------------

  /** computeAsize: from a request in bytes to a block size in bytes. */
  function ComputeAsize(size: nat): nat {
    if size <= 16 then 32 else 16 * ((size + 16 + 15) / 16)
  }

  /** The block size is the smallest multiple of 16 that leaves room for header, footer and the request
      (and for the two link words of a free block). */
  lemma AsizeIsLeast(size: nat, a: nat)
    ensures ComputeAsize(size) % 16 == 0 && ComputeAsize(size) >= 32 && ComputeAsize(size) - 16 >= size
    ensures a % 16 == 0 && a >= 32 && a - 16 >= size ==> ComputeAsize(size) <= a
  {
  }

  /** A page of n words serves a request from its intra-page allocator exactly up to 48 bytes below
      the page size; remonMalloc sends requests up to 32 bytes below it this way. */
  lemma AsizeWithinLimit(n: nat, size: nat)
    requires 8 <= n && n % 2 == 0
    ensures ComputeAsize(size) <= 8 * n - 32 <==> size <= 8 * n - 48
  {
  }

  // ----- malloc and maxAllocatableSize -------------------------------------------------------------

  /** malloc fails exactly when the largest free block is too small. */
  lemma MallocFailsIff(v: View, asize: int)
    requires Lists(v) && 0 < asize
    requires forall i :: 0 <= i < |v.fl| ==> v.fl[i] != NULL
    ensures Malloc(v, asize).1 == NULL <==> MaxSize(v.blk, v.fl) < asize
  {
    MaxFromIs(v.blk, v.fl, 0);
  }

  /** The page after malloc took node i of a list without repetition.  The block is cut exactly if four words or more
      remain; what remains goes to the front of the list, which otherwise only loses the block. */
  lemma MallocLeaves(n: int, v: View, a: int, i: int)
    requires Tiling(n, v.blk) && Nodes(v.blk, v.fl) && 4 <= a && 0 <= i < |v.fl| && Malloc(v, a).1 == v.fl[i]
    requires forall j, k :: 0 <= j < k < |v.fl| ==> v.fl[j] != v.fl[k]
    ensures v.blk[v.fl[i]].size - a < 4 ==>
        Malloc(v, a).0.fl == v.fl[..i] + v.fl[i + 1..]
        && forall c :: c in Malloc(v, a).0.blk <==> c in v.blk
    ensures v.blk[v.fl[i]].size - a >= 4 ==>
        Malloc(v, a).0.fl == [v.fl[i] + a] + v.fl[..i] + v.fl[i + 1..]
        && (forall c :: c in Malloc(v, a).0.blk <==> c in v.blk || c == v.fl[i] + a)
        && Malloc(v, a).0.blk[v.fl[i] + a] == Block(v.blk[v.fl[i]].size - a, true)
    ensures v.fl[i] in Malloc(v, a).0.blk
    ensures Malloc(v, a).0.blk[v.fl[i]] == Block(if v.blk[v.fl[i]].size - a < 4 then v.blk[v.fl[i]].size else a, false)
    ensures forall c :: c in v.blk && c != v.fl[i] ==> c in Malloc(v, a).0.blk && Malloc(v, a).0.blk[c] == v.blk[c]
  {
    hide Tiling, Without, FirstFit;
    var b := v.fl[i];
    BlocksFit(n, v.blk, b, if b + a in v.blk then b + a else b);
    WithoutAt(v.fl, i);
    assert Drop(v.fl, i) == v.fl[..i] + v.fl[i + 1..];
    assert v.blk[b].size - a >= 4 ==> b + a !in v.blk;
    assert Malloc(v, a).0 == Carve(v, b, a);
    assert [b + a] + (v.fl[..i] + v.fl[i + 1..]) == [b + a] + v.fl[..i] + v.fl[i + 1..];
  }

  /** A fresh page serves every request within the limit. */
  lemma FreshServes(n: int, asize: int)
    requires 6 <= n && 4 <= asize <= n - 4
    ensures Malloc(Fresh(n), asize).1 == 2
  {
  }

  /** A successful malloc hands out a block that was free, is large enough, does not start at the page
      base, and leaves every other allocated block as it was. */
  lemma MallocGives(n: int, v: View, asize: int)
    requires Tiling(n, v.blk) && Lists(v) && 4 <= asize && Malloc(v, asize).1 != NULL
    ensures var v', p := Malloc(v, asize).0, Malloc(v, asize).1;
            && 2 <= p && p in v.blk && v.blk[p].free
            && p in v'.blk && !v'.blk[p].free && asize <= v'.blk[p].size < asize + 4
            && (forall b :: b in v'.blk && !v'.blk[b].free && b != p <==> b in v.blk && !v.blk[b].free)
            && (forall b :: b in v.blk && !v.blk[b].free ==> b in v'.blk && v'.blk[b] == v.blk[b])
  {
    hide Drop, FirstFit;
    var p := Malloc(v, asize).1;
    assert Fits(n, p, v.blk[p]);
    assert p + asize in v.blk ==> v.blk[p].size - asize < 4;
  }

  // ----- free ---------------------------------------------------------------------------------------

  /** After free the block is gone from the allocated ones, all others stay, and the block right of the
      freed one (if any) is allocated. */
  lemma FreeGives(n: int, v: View, b: int)
    requires Tiling(n, v.blk) && b in v.blk && !v.blk[b].free
    ensures b in Free(n, v, b).blk && Free(n, v, b).blk[b].free
    ensures forall c :: c in Free(n, v, b).blk && !Free(n, v, b).blk[c].free <==> c in v.blk && !v.blk[c].free && c != b
    ensures forall c :: c in v.blk && !v.blk[c].free && c != b ==> Free(n, v, b).blk[c] == v.blk[c]
    ensures Next(Free(n, v, b).blk, b) == n
            || (Next(Free(n, v, b).blk, b) in v.blk && !v.blk[Next(Free(n, v, b).blk, b)].free)
    ensures v.blk[b].size <= Free(n, v, b).blk[b].size
  {
    hide Tiling;
    var e := FreeIsSwallow(n, v, b);
    SwallowGives(n, v, b, e);
  }

  /** Outside the merged block nothing changes, and the block comes first on the list, which otherwise only loses the
      blocks that were merged. */
  lemma FreeElsewhere(n: int, v: View, b: int, c: int)
    requires Tiling(n, v.blk) && b in v.blk && !v.blk[b].free && b !in v.fl
    ensures b in Free(n, v, b).blk
    ensures c < b || Next(Free(n, v, b).blk, b) <= c ==>
        (c in Free(n, v, b).blk <==> c in v.blk) && (c in v.blk ==> Free(n, v, b).blk[c] == v.blk[c])
    ensures b < c < Next(Free(n, v, b).blk, b) ==> c !in Free(n, v, b).blk && (c in v.blk ==> v.blk[c].free)
    ensures Free(n, v, b).fl == [b] + Outside(v.fl, b, Next(Free(n, v, b).blk, b))
  {
    hide Tiling, Free, Swallow, Outside;
    BlocksFit(n, v.blk, b, b);
    var e := FreeIsSwallow(n, v, b);
    SwallowGives(n, v, b, e);
    SwallowElsewhere(n, v, b, e, c);
  }

  lemma SwallowElsewhere(n: int, v: View, b: int, e: int, c: int)
    requires b in v.blk && 1 <= v.blk[b].size && Run(n, Release(v, b).blk, b, e) && b !in v.fl
    ensures c < b || e <= c ==>
        (c in Swallow(Release(v, b), b, e).blk <==> c in v.blk)
        && (c in v.blk ==> Swallow(Release(v, b), b, e).blk[c] == v.blk[c])
    ensures b < c < e ==> c !in Swallow(Release(v, b), b, e).blk && (c in v.blk ==> v.blk[c].free)
    ensures Swallow(Release(v, b), b, e).fl == [b] + Outside(v.fl, b, e)
  {
    hide Outside;
    OutsideStep(b, v.fl, b, e);
    assert b < c < e && c in v.blk ==> Release(v, b).blk[c] == v.blk[c];
  }

  lemma FreeIsSwallow(n: int, v: View, b: int) returns (e: int)
    requires Tiling(n, v.blk) && b in v.blk && !v.blk[b].free
    ensures Free(n, v, b) == Swallow(Release(v, b), b, e) && Run(n, Release(v, b).blk, b, e)
    ensures e == n || (e in v.blk && !v.blk[e].free)
    ensures Tiling(n, Release(v, b).blk)
  {
    RetagTiling(n, v.blk, b, true);
    RunOfRoot(n, Release(v, b).blk, b);
    RunEndIs(n, Release(v, b).blk, Next(Release(v, b).blk, b));
    e := RunEnd(n, Release(v, b).blk, Next(Release(v, b).blk, b));
  }

  lemma SwallowGives(n: int, v: View, b: int, e: int)
    requires b in v.blk && !v.blk[b].free && Run(n, Release(v, b).blk, b, e)
    ensures b in Swallow(Release(v, b), b, e).blk && Swallow(Release(v, b), b, e).blk[b] == Block(e - b, true)
    ensures v.blk[b].size <= e - b
    ensures forall c :: c in Swallow(Release(v, b), b, e).blk && !Swallow(Release(v, b), b, e).blk[c].free
                        <==> c in v.blk && !v.blk[c].free && c != b
    ensures forall c :: c in v.blk && !v.blk[c].free && c != b ==> Swallow(Release(v, b), b, e).blk[c] == v.blk[c]
  {
  }

  lemma MaxAtLeast(blk: map<int, Block>, fl: seq<int>, c: int)
    requires Nodes(blk, fl) && c in fl
    ensures blk[c].size <= MaxSize(blk, fl) && 0 <= MaxSize(blk, fl)
  {
    MaxFromIs(blk, fl, 0);
  }

  lemma MaxAtMost(blk: map<int, Block>, fl: seq<int>, bound: int)
    requires Nodes(blk, fl) && 0 <= bound && forall i :: 0 <= i < |fl| ==> blk[fl[i]].size <= bound
    ensures MaxSize(blk, fl) <= bound
  {
    MaxFromIs(blk, fl, 0);
  }

  /** A free block is still there after the release of b, perhaps as part of b. */
  lemma FreeSurvives(n: int, v: View, b: int, e: int, c: int)
    requires b in v.blk && c in v.blk && v.blk[c].free && c != b
    requires Run(n, Release(v, b).blk, b, e) && Lists(Swallow(Release(v, b), b, e))
    ensures v.blk[c].size <= MaxSize(Swallow(Release(v, b), b, e).blk, Swallow(Release(v, b), b, e).fl)
  {
    var u := Swallow(Release(v, b), b, e);
    if b < c < e {
      assert c in Release(v, b).blk && Release(v, b).blk[c].free;
      assert u.blk[b].free && b in u.fl;
      MaxAtLeast(u.blk, u.fl, b);
    } else {
      assert u.blk[c] == v.blk[c] && c in u.fl;
      MaxAtLeast(u.blk, u.fl, c);
    }
  }

  /** Releasing a block never lowers the largest free size, and raises it at least to the block's own. */
  lemma FreeMaxGrows(n: int, v: View, b: int)
    requires Tiling(n, v.blk) && Lists(v) && b in v.blk && !v.blk[b].free
    ensures Lists(Free(n, v, b))
    ensures MaxSize(v.blk, v.fl) <= MaxSize(Free(n, v, b).blk, Free(n, v, b).fl)
    ensures v.blk[b].size <= MaxSize(Free(n, v, b).blk, Free(n, v, b).fl)
  {
    var e := FreeIsSwallow(n, v, b);
    ReleaseLists(v, b);
    SwallowLists(n, Release(v, b), b, e);
    MaxGrows(n, v, b, e);
  }

  lemma MaxGrows(n: int, v: View, b: int, e: int)
    requires Lists(v) && b in v.blk && !v.blk[b].free
    requires Run(n, Release(v, b).blk, b, e) && Lists(Swallow(Release(v, b), b, e))
    ensures MaxSize(v.blk, v.fl) <= MaxSize(Swallow(Release(v, b), b, e).blk, Swallow(Release(v, b), b, e).fl)
    ensures v.blk[b].size <= MaxSize(Swallow(Release(v, b), b, e).blk, Swallow(Release(v, b), b, e).fl)
  {
    var u := Swallow(Release(v, b), b, e);
    assert u.blk[b] == Block(e - b, true) && b in u.fl;
    MaxAtLeast(u.blk, u.fl, b);
    forall i | 0 <= i < |v.fl|
      ensures v.blk[v.fl[i]].size <= MaxSize(u.blk, u.fl)
    {
      FreeSurvives(n, v, b, e, v.fl[i]);
    }
    MaxAtMost(v.blk, v.fl, MaxSize(u.blk, u.fl));
  }

  // ----- isEmpty -------------------------------------------------------------------------------------

  /** Two free blocks side by side, left behind because free merges to the right only. */
  ghost predicate FreeNeighbours(blk: map<int, Block>) {
    exists b :: b in blk && blk[b].free && Next(blk, b) in blk && blk[Next(blk, b)].free
  }

  /** isEmpty answers true exactly when nothing is allocated and no two free blocks are neighbours. */
  lemma IsEmptyIff(n: int, blk: map<int, Block>)
    requires Tiling(n, blk)
    ensures blk == map[2 := Block(n - 2, true)] <==>
            (forall b :: b in blk ==> blk[b].free) && !FreeNeighbours(blk)
  {
    assert Fits(n, 2, blk[2]);
    if (forall b :: b in blk ==> blk[b].free) && !FreeNeighbours(blk) {
      assert Next(blk, 2) == n;
      WholeBlock(n, blk, 2);
      assert blk == map[2 := Block(n - 2, true)];
    }
  }

  /** A page of n words after one request of a words. */
  function OneTaken(n: int, a: int): View {
    View(map[2 := Block(a, false), 2 + a := Block(n - 2 - a, true)], [2 + a])
  }

  /** The page after two such requests; the second block takes the rest if that is too small for a block. */
  function TwoTaken(n: int, a: int): View {
    if n - 2 - 2 * a < 4 then View(map[2 := Block(a, false), 2 + a := Block(n - 2 - a, false)], [])
    else View(map[2 := Block(a, false), 2 + a := Block(a, false), 2 + 2 * a := Block(n - 2 - 2 * a, true)], [2 + 2 * a])
  }

  /** The page after the first block was given back. */
  function OneBack(n: int, a: int): View {
    View(TwoTaken(n, a).blk[2 := Block(a, true)], [2] + TwoTaken(n, a).fl)
  }

  /** The missing half is really missing, on every page and for every size that fits twice: two equal requests, given
      back in the same order, leave nothing allocated, and isEmpty answers false. */
  lemma IsEmptyMisses(n: int, a: int)
    requires 4 <= a && 2 * a <= n - 2
    ensures Malloc(Fresh(n), a) == (OneTaken(n, a), 2) && Malloc(OneTaken(n, a), a) == (TwoTaken(n, a), 2 + a)
    ensures Free(n, TwoTaken(n, a), 2) == OneBack(n, a)
    ensures Free(n, OneBack(n, a), 2 + a) == View(map[2 := Block(a, true), 2 + a := Block(n - 2 - a, true)], [2 + a, 2])
  {
    MissesMalloc(n, a);
    MissesFree(n, a);
  }

  lemma MissesMalloc(n: int, a: int)
    requires 4 <= a && 2 * a <= n - 2
    ensures Malloc(Fresh(n), a) == (OneTaken(n, a), 2) && Malloc(OneTaken(n, a), a) == (TwoTaken(n, a), 2 + a)
  {
    assert Without([2], 2) == [] && Without([2 + a], 2 + a) == [];
    assert SplitBlk(Fresh(n).blk, 2, a) == OneTaken(n, a).blk;
    assert FirstFit(Fresh(n).blk, [2], a) == 0;
    assert [2 + a] + [] == [2 + a];
    assert Carve(Fresh(n), 2, a) == OneTaken(n, a);
    var v := OneTaken(n, a);
    assert FirstFit(v.blk, [2 + a], a) == 0;
    assert Carve(v, 2 + a, a).blk == TwoTaken(n, a).blk;
    assert [2 + 2 * a] + [] == [2 + 2 * a];
    assert Carve(v, 2 + a, a) == TwoTaken(n, a);
  }

  lemma OutsideStep(x: int, s: seq<int>, lo: int, hi: int)
    ensures Outside([x] + s, lo, hi) == if lo < x < hi then Outside(s, lo, hi) else [x] + Outside(s, lo, hi)
  {
    assert ([x] + s)[1..] == s;
  }

  /** The list of up to three blocks, without those strictly between lo and hi. */
  lemma OutsideThree(x: int, y: int, z: seq<int>, lo: int, hi: int)
    requires !(lo < x < hi) && !(lo < y < hi) && |z| <= 1
    ensures Outside([x, y] + z, lo, hi) == [x, y] + Outside(z, lo, hi)
    ensures Outside([x] + z, lo, hi) == [x] + Outside(z, lo, hi)
    ensures z == [] ==> Outside(z, lo, hi) == []
    ensures z != [] ==> Outside(z, lo, hi) == if lo < z[0] < hi then [] else z
  {
    OutsideStep(y, z, lo, hi);
    OutsideStep(x, z, lo, hi);
    OutsideStep(x, [y] + z, lo, hi);
    assert [x, y] + z == [x] + ([y] + z);
  }

  lemma MissesFree(n: int, a: int)
    requires 4 <= a && 2 * a <= n - 2
    ensures Free(n, TwoTaken(n, a), 2) == OneBack(n, a)
    ensures Free(n, OneBack(n, a), 2 + a) == View(map[2 := Block(a, true), 2 + a := Block(n - 2 - a, true)], [2 + a, 2])
  {
    FirstBack(n, a);
    SecondBack(n, a);
  }

  lemma FirstBack(n: int, a: int)
    requires 4 <= a && 2 * a <= n - 2
    ensures Free(n, TwoTaken(n, a), 2) == OneBack(n, a)
  {
    hide Outside;
    var u := Release(TwoTaken(n, a), 2);
    assert u == OneBack(n, a);
    assert RunEnd(n, u.blk, 2 + a) == 2 + a;
    assert Swallow(u, 2, 2 + a).blk == u.blk;
    OutsideThree(2, 2, TwoTaken(n, a).fl, 2, 2 + a);
  }

  lemma SecondBack(n: int, a: int)
    requires 4 <= a && 2 * a <= n - 2
    ensures Free(n, OneBack(n, a), 2 + a) == View(map[2 := Block(a, true), 2 + a := Block(n - 2 - a, true)], [2 + a, 2])
  {
    hide Outside;
    var w := Release(OneBack(n, a), 2 + a);
    var c := Next(w.blk, 2 + a);
    assert c == n || (c == 2 + 2 * a && Next(w.blk, c) == n);
    assert RunEnd(n, w.blk, n) == n;
    assert RunEnd(n, w.blk, c) == n;
    assert Swallow(w, 2 + a, n).blk == map[2 := Block(a, true), 2 + a := Block(n - 2 - a, true)];
    assert w.fl == [2 + a, 2] + TwoTaken(n, a).fl;
    OutsideThree(2 + a, 2, TwoTaken(n, a).fl, 2 + a, n);
  }

  // ----- clients ---------------------------------------------------------------------------------------

  /** A client that writes inside the payload of its own block disturbs neither the heap nor anyone
      else's data. */
  lemma ClientWriteKeeps(m: Words, head: int, v: View, b: int, j: int, w: int)
    requires Inv(m, head, v) && Payload(v.blk, b, j) && 0 <= j < |m|
    ensures Inv(m[j := w], head, v)
    ensures forall c, i :: Payload(v.blk, c, i) && c != b && 0 <= i < |m| ==> m[j := w][i] == m[i]
  {
    assert Within(v.blk, b, j);
    assert b !in v.fl;
    ClientNoTag(|m|, v.blk, b, j);
    TagsPut(m, v.blk, j, w);
    InsideNoLink(|m|, v.blk, v.fl, b, j);
    LinksPut(m, head, v.fl, j, w);
    forall c, i | Payload(v.blk, c, i) && c != b && 0 <= i < |m|
      ensures i != j
    {
      if i == j {
        OneOwner(|m|, v.blk, b, c, j);
      }
    }
  }

  lemma ClientNoTag(n: int, blk: map<int, Block>, b: int, j: int)
    requires Tiling(n, blk) && Payload(blk, b, j)
    ensures NoTag(n, blk, j)
  {
  }

  /** Byte k of a request of `size` bytes lies in the payload of the block that malloc gave for it. */
  lemma RequestInPayload(v: View, asize: int, size: nat, b: int, k: nat)
    requires b in v.blk && !v.blk[b].free && asize <= v.blk[b].size
    requires 8 * asize == ComputeAsize(size) && k < size
    ensures Payload(v.blk, b, b + k / 8)
  {
  }

  // ----- the view is determined by the page -------------------------------------------------------------

  /** Walking from c, which is a block in both readings, every later block b of the first reading is
      met in the second. */
  lemma {:induction false} SameWalk(m: Words, head: int, v: View, v': View, c: int, b: int)
    requires Inv(m, head, v) && Inv(m, head, v') && c in v.blk && c in v'.blk && b in v.blk && c <= b
    ensures b in v'.blk && v'.blk[b] == v.blk[b]
    decreases b - c
  {
    SameBlock(m, head, v, v', c);
    if c != b {
      assert Next(v.blk, c) <= b;
      assert Fits(|m|, b, v.blk[b]);
      HeaderFacts(m, head, v, c);
      HeaderFacts(m, head, v', c);
      SameWalk(m, head, v, v', Next(v.blk, c), b);
    }
  }

  lemma SameBlock(m: Words, head: int, v: View, v': View, c: int)
    requires Inv(m, head, v) && Inv(m, head, v') && c in v.blk && c in v'.blk
    ensures v'.blk[c] == v.blk[c] && Next(v'.blk, c) == Next(v.blk, c) && c < Next(v.blk, c)
  {
  }

  lemma {:induction false} SameList(m: Words, head: int, fl: seq<int>, fl': seq<int>, i: int)
    requires Links(m, head, fl) && Links(m, head, fl')
    requires 0 <= i <= |fl| && i <= |fl'| && fl[..i] == fl'[..i]
    ensures fl == fl'
    decreases |fl| - i
  {
    if i > 0 {
      assert fl[i - 1] == fl[..i][i - 1] == fl'[i - 1];
      LinksAt(m, head, fl, i - 1);
      LinksAt(m, head, fl', i - 1);
    }
    if i < |fl| {
      assert 2 <= fl[i];
      assert i < |fl'| && fl[i] == fl'[i];
      assert fl[..i + 1] == fl[..i] + [fl[i]] && fl'[..i + 1] == fl'[..i] + [fl'[i]];
      SameList(m, head, fl, fl', i + 1);
    } else {
      assert i == |fl'|;
      assert fl[..i] == fl && fl'[..i] == fl';
    }
  }

  /** A page has at most one reading, so every answer the heap gives depends on the page alone. */
  lemma ViewUnique(m: Words, head: int, v: View, v': View)
    requires Inv(m, head, v) && Inv(m, head, v')
    ensures v == v'
  {
    forall b | b in v.blk
      ensures b in v'.blk && v'.blk[b] == v.blk[b]
    {
      assert Fits(|m|, b, v.blk[b]);
      SameWalk(m, head, v, v', 2, b);
    }
    forall b | b in v'.blk
      ensures b in v.blk
    {
      assert Fits(|m|, b, v'.blk[b]);
      SameWalk(m, head, v', v, 2, b);
    }
    assert v.blk == v'.blk;
    SameList(m, head, v.fl, v'.fl, 0);
  }
}
