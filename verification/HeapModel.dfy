/** The heap inside one page, as values.

    A page is a sequence of 8-byte words.  Block pointers and block sizes count words from the start
    of the page; header and footer words hold byte sizes.  Block b of s words has its header in word
    b-1, its two link words in b and b+1, and its footer in word b+s-2.  A link word holds the
    position of a block, `NULL`, or `HEAD` (the address of the allocator's `freeHead` field, which
    lies outside the page and acts as the node before the first free block).

    Sizes in bytes: WSIZE = 8, DSIZE = OVERHEAD = 16, QSIZE = 32. */
module HeapModel {
  import opened ListOps

  const NULL := 0
  const HEAD := -1

  type Words = seq<int>

  /** One block: its size in words (header and footer included) and whether it is free. */
  datatype Block = Block(size: int, free: bool)

  /** The client-independent reading of a page: blocks by block pointer, and the free list in order. */
  datatype View = View(blk: map<int, Block>, fl: seq<int>)

  /** The header (and footer) word of a block: byte size with the allocation bit packed in. */
  function Tag(x: Block): int {
    8 * x.size + if x.free then 0 else 1
  }

  /** GET_SIZE: the size in bytes, low four bits masked off. */
  function GetSize(w: int): int {
    w - w % 16
  }

  /** GET_ALLOC: the allocation bit. */
  function GetAlloc(w: int): int {
    w % 2
  }

  lemma LowBits(h: int, bit: int)
    requires bit == 0 || bit == 1
    ensures (16 * h + bit) % 16 == bit
  {
  }

  lemma LowBit(h: int, bit: int)
    requires bit == 0 || bit == 1
    ensures (16 * h + bit) % 2 == bit
  {
  }

  /** The macros read back what was packed. */
  lemma Untag(x: Block)
    requires x.size % 2 == 0
    ensures GetSize(Tag(x)) == 8 * x.size
    ensures GetAlloc(Tag(x)) == if x.free then 0 else 1
  {
    LowBits(x.size / 2, if x.free then 0 else 1);
    LowBit(x.size / 2, if x.free then 0 else 1);
  }

  /** NEXT_BLKP on the view. */
  function Next(blk: map<int, Block>, b: int): int
    requires b in blk
  {
    b + blk[b].size
  }

  // ----- the heap invariant ------------------------------------------------------------------

  /** The room every single block has in a page of n words. */
  predicate Fits(n: int, b: int, x: Block) {
    2 <= b && 4 <= x.size && b + x.size <= n
  }

  /** Block pointer and size are multiples of 16 bytes. */
  predicate Even(b: int, x: Block) {
    b % 2 == 0 && x.size % 2 == 0
  }

  ghost predicate Aligned(n: int, blk: map<int, Block>) {
    && n % 2 == 0
    && (forall b {:trigger Even(b, blk[b])} :: b in blk ==> Even(b, blk[b]))
  }

  /** The blocks tile the words [2, n): they start at word 2, each is followed by another block or
      the end of the page, and no two overlap. */
  ghost predicate Tiling(n: int, blk: map<int, Block>) {
    && 2 in blk
    && (forall b :: b in blk ==> Fits(n, b, blk[b]))
    && (forall b {:trigger Next(blk, b)} :: b in blk ==> Next(blk, b) == n || Next(blk, b) in blk)
    && (forall b, c :: b in blk && c in blk && b < c ==> b + blk[b].size <= c)
  }

  /** Header and footer of every block carry its tag; the two sentinel words are in place. */
  ghost predicate Tags(m: Words, blk: map<int, Block>) {
    && 6 <= |m|
    && m[0] == 1 && m[|m| - 1] == 1
    && (forall b :: b in blk ==>
          && Fits(|m|, b, blk[b])
          && m[b - 1] == Tag(blk[b])
          && m[b + blk[b].size - 2] == Tag(blk[b]))
  }

  function NextLink(fl: seq<int>, i: int): int
    requires 0 <= i < |fl|
  {
    if i + 1 < |fl| then fl[i + 1] else NULL
  }

  function PrevLink(fl: seq<int>, i: int): int
    requires 0 <= i < |fl|
  {
    if i == 0 then HEAD else fl[i - 1]
  }

  /** No two nodes of a list share a link word. */
  ghost predicate Spaced(n: int, fl: seq<int>) {
    && (forall i :: 0 <= i < |fl| ==> 2 <= fl[i] < n - 2)
    && (forall i, j :: 0 <= i < |fl| && 0 <= j < |fl| && i != j ==> fl[i] + 1 < fl[j] || fl[j] + 1 < fl[i])
  }

  /** The link words realise the doubly linked list fl, with `head` in the freeHead field. */
  ghost predicate Links(m: Words, head: int, fl: seq<int>) {
    && Spaced(|m|, fl)
    && head == (if |fl| == 0 then NULL else fl[0])
    && (forall i {:trigger NextLink(fl, i)} :: 0 <= i < |fl| ==> m[fl[i]] == NextLink(fl, i))
    && (forall i {:trigger PrevLink(fl, i)} :: 0 <= i < |fl| ==> m[fl[i] + 1] == PrevLink(fl, i))
  }

  /** The list holds free blocks only, and all of them. */
  ghost predicate Lists(v: View) {
    && (forall i :: 0 <= i < |v.fl| ==> v.fl[i] in v.blk && v.blk[v.fl[i]].free)
    && (forall b :: b in v.blk && v.blk[b].free ==> b in v.fl)
  }

  /** The complete invariant of an initialised page heap. */
  ghost predicate Inv(m: Words, head: int, v: View) {
    && Tiling(|m|, v.blk)
    && Aligned(|m|, v.blk)
    && Tags(m, v.blk)
    && Links(m, head, v.fl)
    && Lists(v)
  }

  /** Word j is a payload word of the allocated block b. */
  predicate Payload(blk: map<int, Block>, b: int, j: int) {
    b in blk && !blk[b].free && b <= j < b + blk[b].size - 2
  }

  /** Every payload word of every allocated block of blk is the same in both memories. */
  ghost predicate LiveSame(m: Words, m': Words, blk: map<int, Block>) {
    && |m'| == |m|
    && (forall b, j {:trigger Payload(blk, b, j)} :: Payload(blk, b, j) && 0 <= j < |m| ==> m'[j] == m[j])
  }

  // ----- sequences without one or several values ---------------------------------------------

  /** s with the values strictly between lo and hi left out, order kept. */
  function Outside(s: seq<int>, lo: int, hi: int): (r: seq<int>)
    ensures forall y :: y in r <==> y in s && !(lo < y < hi)
  {
    if s == [] then []
    else if lo < s[0] < hi then Outside(s[1..], lo, hi)
    else [s[0]] + Outside(s[1..], lo, hi)
  }

  /** Widening the hole of Outside over one more value of s. */
  lemma {:induction false} OutsideStep(s: seq<int>, lo: int, c: int, c': int)
    requires lo < c < c'
    requires forall i :: 0 <= i < |s| && c <= s[i] < c' ==> s[i] == c
    ensures Outside(s, lo, c') == Without(Outside(s, lo, c), c)
  {
    if s != [] {
      OutsideStep(s[1..], lo, c, c');
    }
  }

  lemma {:induction false} OutsideNothing(s: seq<int>, lo: int, hi: int)
    requires forall i :: 0 <= i < |s| ==> !(lo < s[i] < hi)
    ensures Outside(s, lo, hi) == s
  {
    if s != [] {
      OutsideNothing(s[1..], lo, hi);
    }
  }

  // ----- the free list: popping a node and pushing a node -------------------------------------

  /** The raw state of an initialised allocator: the page's words and the freeHead field. */
  datatype Raw = Raw(m: Words, head: int)

  predicate CanPop(r: Raw, b: int) {
    && 0 <= b && b + 1 < |r.m|
    && (r.m[b + 1] != HEAD ==> 0 <= r.m[b + 1] < |r.m|)
    && (r.m[b] != NULL ==> 0 <= r.m[b] < |r.m| - 1)
  }

  /** Writing the next link of node p; the node before the first one is the freeHead field. */
  function PutNext(m: Words, p: int, w: int): Words
    requires p != HEAD ==> 0 <= p < |m|
  {
    if p == HEAD then m else m[p := w]
  }

  /** Writing the previous link of node p, if there is such a node. */
  function PutPrev(m: Words, p: int, w: int): Words
    requires p != NULL ==> 0 <= p < |m| - 1
  {
    if p == NULL then m else m[p + 1 := w]
  }

  /** popFreeBlockOut on node b: the two neighbours' links are redirected. */
  function Pop(r: Raw, b: int): Raw
    requires CanPop(r, b)
  {
    Raw(PutPrev(PutNext(r.m, r.m[b + 1], r.m[b]), r.m[b], r.m[b + 1]),
        if r.m[b + 1] == HEAD then r.m[b] else r.head)
  }

  predicate CanPush(r: Raw, b: int) {
    0 <= b && b + 1 < |r.m| && (r.head != NULL ==> 0 <= r.head < |r.m| - 1)
  }

  /** insertAtFreeHead on block b. */
  function Push(r: Raw, b: int): Raw
    requires CanPush(r, b)
  {
    Raw(PutPrev(r.m[b := r.head], r.head, b)[b + 1 := HEAD], b)
  }

  lemma LinksAt(m: Words, head: int, fl: seq<int>, k: int)
    requires Links(m, head, fl) && 0 <= k < |fl|
    ensures 2 <= fl[k] < |m| - 2
    ensures m[fl[k]] == NextLink(fl, k) && m[fl[k] + 1] == PrevLink(fl, k)
    ensures m[fl[k] + 1] != NULL
    ensures m[fl[k] + 1] != HEAD ==> 0 < k && m[fl[k] + 1] == fl[k - 1] && 2 <= fl[k - 1] < |m| - 2
    ensures m[fl[k]] != NULL ==> k + 1 < |fl| && m[fl[k]] == fl[k + 1] && 2 <= fl[k + 1] < |m| - 2
  {
  }

  lemma LinksApart(m: Words, head: int, fl: seq<int>, i: int, j: int)
    requires Links(m, head, fl) && 0 <= i < |fl|
    ensures 0 <= j < |fl| && i != j ==> fl[i] + 1 < fl[j] || fl[j] + 1 < fl[i]
  {
  }

  lemma SpacedDrop(n: int, fl: seq<int>, k: int)
    requires Spaced(n, fl) && 0 <= k < |fl|
    ensures Spaced(n, Drop(fl, k))
  {
  }

  /** Where node i of the shortened list finds its links after node k was popped. */
  lemma PopLinksAt(r: Raw, fl: seq<int>, k: int, i: int)
    requires Links(r.m, r.head, fl) && 0 <= k < |fl| && 0 <= i < |fl| - 1
    ensures CanPop(r, fl[k])
    ensures 2 <= Drop(fl, k)[i] < |r.m| - 2
    ensures Pop(r, fl[k]).m[Drop(fl, k)[i]] == NextLink(Drop(fl, k), i)
    ensures Pop(r, fl[k]).m[Drop(fl, k)[i] + 1] == PrevLink(Drop(fl, k), i)
  {
    hide Links, Spaced;
    var j := if i < k then i else i + 1;
    LinksAt(r.m, r.head, fl, k);
    LinksAt(r.m, r.head, fl, j);
    LinksApart(r.m, r.head, fl, j, k);
    LinksApart(r.m, r.head, fl, j, k - 1);
    LinksApart(r.m, r.head, fl, j, k + 1);
  }

  lemma PopLinksDrop(r: Raw, fl: seq<int>, k: int)
    requires Links(r.m, r.head, fl) && 0 <= k < |fl|
    ensures CanPop(r, fl[k])
    ensures Links(Pop(r, fl[k]).m, Pop(r, fl[k]).head, Drop(fl, k))
  {
    LinksAt(r.m, r.head, fl, k);
    SpacedDrop(|r.m|, fl, k);
    forall i | 0 <= i < |fl| - 1
      ensures Pop(r, fl[k]).m[Drop(fl, k)[i]] == NextLink(Drop(fl, k), i)
      ensures Pop(r, fl[k]).m[Drop(fl, k)[i] + 1] == PrevLink(Drop(fl, k), i)
    {
      PopLinksAt(r, fl, k, i);
    }
  }

  /** Popping a node leaves a well-formed doubly linked list of the others, in order. */
  lemma PopLinks(r: Raw, fl: seq<int>, k: int)
    requires Links(r.m, r.head, fl) && 0 <= k < |fl|
    ensures CanPop(r, fl[k])
    ensures Links(Pop(r, fl[k]).m, Pop(r, fl[k]).head, Without(fl, fl[k]))
  {
    WithoutAt(fl, k);
    PopLinksDrop(r, fl, k);
  }

  lemma LinksFirst(m: Words, head: int, fl: seq<int>)
    requires Links(m, head, fl)
    ensures if fl == [] then head == NULL else 2 <= head == fl[0] < |m| - 2
  {
  }

  /** The links of node i after block b was pushed. */
  lemma PushLinksAt(r: Raw, fl: seq<int>, b: int, i: int)
    requires Links(r.m, r.head, fl) && 2 <= b < |r.m| - 2 && 0 <= i <= |fl|
    requires forall k :: 0 <= k < |fl| ==> fl[k] + 1 < b || b + 1 < fl[k]
    ensures CanPush(r, b) && 2 <= ([b] + fl)[i] < |r.m| - 2
    ensures Push(r, b).m[([b] + fl)[i]] == NextLink([b] + fl, i)
    ensures Push(r, b).m[([b] + fl)[i] + 1] == PrevLink([b] + fl, i)
  {
    hide Links, Spaced;
    LinksFirst(r.m, r.head, fl);
    if i > 0 {
      LinksAt(r.m, r.head, fl, i - 1);
      LinksApart(r.m, r.head, fl, i - 1, 0);
    }
  }

  /** Pushing a block puts it before all other nodes. */
  lemma PushLinks(r: Raw, fl: seq<int>, b: int)
    requires Links(r.m, r.head, fl)
    requires 2 <= b < |r.m| - 2
    requires forall i :: 0 <= i < |fl| ==> fl[i] + 1 < b || b + 1 < fl[i]
    ensures CanPush(r, b)
    ensures Links(Push(r, b).m, Push(r, b).head, [b] + fl)
  {
    hide Push, NextLink, PrevLink;
    PushLinksAt(r, fl, b, 0);
    PushSame(r, b);
    forall i | 0 <= i < |[b] + fl|
      ensures Push(r, b).m[([b] + fl)[i]] == NextLink([b] + fl, i)
      ensures Push(r, b).m[([b] + fl)[i] + 1] == PrevLink([b] + fl, i)
    {
      PushLinksAt(r, fl, b, i);
    }
  }

  lemma PushSame(r: Raw, b: int)
    requires CanPush(r, b)
    ensures |Push(r, b).m| == |r.m| && Push(r, b).head == b
  {
  }

  // ----- malloc and free on the view ----------------------------------------------------------

  /** The index in fl of the first block of at least asize words, |fl| if there is none. */
  function FirstFit(blk: map<int, Block>, fl: seq<int>, asize: int): (r: int)
    requires forall i :: 0 <= i < |fl| ==> fl[i] in blk
    ensures 0 <= r <= |fl|
    ensures forall i :: 0 <= i < r ==> blk[fl[i]].size < asize
    ensures r < |fl| ==> asize <= blk[fl[r]].size
  {
    if fl == [] then 0
    else if asize <= blk[fl[0]].size then 0
    else 1 + FirstFit(blk, fl[1..], asize)
  }

  /** Block b is cut: its first a words become allocated, the rest a free block. */
  function SplitBlk(blk: map<int, Block>, b: int, a: int): map<int, Block>
    requires b in blk
  {
    blk[b := Block(a, false)][b + a := Block(blk[b].size - a, true)]
  }

  /** What happens to the view when asize words are carved out of free block b: a remainder of fewer
      than four words stays with the block, a larger one becomes a new free block, first in the list. */
  function Carve(v: View, b: int, asize: int): View
    requires b in v.blk
  {
    var s := v.blk[b].size;
    if s - asize < 4 then View(v.blk[b := Block(s, false)], Without(v.fl, b))
    else View(SplitBlk(v.blk, b, asize), [b + asize] + Without(v.fl, b))
  }

  /** First-fit allocation: the new view and the block pointer handed out (NULL when nothing fits). */
  function Malloc(v: View, asize: int): (View, int)
    requires forall i :: 0 <= i < |v.fl| ==> v.fl[i] in v.blk
  {
    var i := FirstFit(v.blk, v.fl, asize);
    if i == |v.fl| then (v, NULL) else (Carve(v, v.fl[i], asize), v.fl[i])
  }

  /** The end of the run of free blocks that starts at c. */
  function RunEnd(n: int, blk: map<int, Block>, c: int): int
    requires forall b :: b in blk ==> Fits(n, b, blk[b])
    decreases n - c
  {
    if c in blk && blk[c].free then RunEnd(n, blk, Next(blk, c)) else c
  }

  /** Free block b swallows everything up to e. */
  function Swallow(v: View, b: int, e: int): View {
    View(map c | c in v.blk && !(b < c < e) :: if c == b then Block(e - b, true) else v.blk[c],
         Outside(v.fl, b, e))
  }

  /** The view between SET_FREE/insertAtFreeHead and the merge: b is free and first in the list. */
  function Release(v: View, b: int): View
    requires b in v.blk
  {
    View(v.blk[b := Block(v.blk[b].size, true)], [b] + v.fl)
  }

  /** Free block b takes over the run of free blocks directly to its right. */
  function Coalesce(n: int, v: View, b: int): View
    requires forall c :: c in v.blk ==> Fits(n, c, v.blk[c])
    requires b in v.blk
  {
    Swallow(v, b, RunEnd(n, v.blk, Next(v.blk, b)))
  }

  /** Releasing block b: it becomes free, moves to the front of the list and merges to the right. */
  function Free(n: int, v: View, b: int): View
    requires forall c :: c in v.blk ==> Fits(n, c, v.blk[c])
    requires b in v.blk
  {
    assert Fits(n, b, v.blk[b]);
    Coalesce(n, Release(v, b), b)
  }

  // ----- reading the view ---------------------------------------------------------------------

  function Max(x: int, y: int): int {
    if x < y then y else x
  }

  /** The largest size among the listed blocks from index i on, 0 if there are none. */
  function MaxFrom(blk: map<int, Block>, fl: seq<int>, i: int): int
    requires 0 <= i <= |fl| && forall j :: 0 <= j < |fl| ==> fl[j] in blk
    decreases |fl| - i
  {
    if i == |fl| then 0 else Max(blk[fl[i]].size, MaxFrom(blk, fl, i + 1))
  }

  /** The largest size among the listed blocks, 0 for the empty list. */
  function MaxSize(blk: map<int, Block>, fl: seq<int>): int
    requires forall j :: 0 <= j < |fl| ==> fl[j] in blk
  {
    MaxFrom(blk, fl, 0)
  }

  lemma {:induction false} MaxFromIs(blk: map<int, Block>, fl: seq<int>, i: int)
    requires 0 <= i <= |fl| && forall j :: 0 <= j < |fl| ==> fl[j] in blk
    ensures 0 <= MaxFrom(blk, fl, i)
    ensures forall j :: i <= j < |fl| ==> blk[fl[j]].size <= MaxFrom(blk, fl, i)
    ensures MaxFrom(blk, fl, i) == 0 || exists j :: i <= j < |fl| && blk[fl[j]].size == MaxFrom(blk, fl, i)
    decreases |fl| - i
  {
    if i < |fl| {
      MaxFromIs(blk, fl, i + 1);
    }
  }

  /** The last block of the page, found by walking from block b. */
  ghost function Last(n: int, blk: map<int, Block>, b: int): (l: int)
    requires Tiling(n, blk) && b in blk
    ensures l in blk && Next(blk, l) == n
    decreases n - b
  {
    assert Fits(n, b, blk[b]);
    if Next(blk, b) == n then b else Last(n, blk, Next(blk, b))
  }

  /** Where the free tail of the page begins; the end of the page if the last block is allocated. */
  ghost function TailOffset(n: int, blk: map<int, Block>): int
    requires Tiling(n, blk)
  {
    if blk[Last(n, blk, 2)].free then Last(n, blk, 2) else n
  }

  /** The block that ends the page decides: its start if it is free, the end of the page if not. */
  lemma TailOffsetIs(n: int, blk: map<int, Block>, b: int)
    requires Tiling(n, blk) && b in blk && Next(blk, b) == n
    ensures TailOffset(n, blk) == if blk[b].free then b else n
  {
    var l := Last(n, blk, 2);
    assert Fits(n, l, blk[l]) && Fits(n, b, blk[b]);
  }
}
