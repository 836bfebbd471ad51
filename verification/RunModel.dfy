/** Runs of pages, as values: the tags that the page-run allocator keeps in the first and last page of
    every run, and the doubly linked lists of free runs, one per run length. */
module RunModel {
  import opened ListOps

  const NONE := -1

  /** A run: its length in pages and whether it is free. */
  datatype Run = Run(size: int, free: bool)

  /** The tag fields of all pages, by page index.  An unmapped page has no record yet; it counts as free
      with length 0, as a new record would. */
  datatype Tags = Tags(mapped: seq<bool>, size: seq<int>, isFree: seq<bool>)

  /** The link fields of all pages, by page index. */
  datatype Links = Links(prev: seq<int>, next: seq<int>)

  /** The abstract state of one region: its runs by first page, and the free lists by run length. */
  datatype View = View(runs: map<int, Run>, lists: map<int, seq<int>>)

  function NextRun(runs: map<int, Run>, b: int): int
    requires b in runs
  {
    b + runs[b].size
  }

  /** A region that is one free run. */
  function OneRun(from: int, n: int): View {
    View(map[from := Run(n, true)], map[n := [from]])
  }

  // ----- runs tile the region ----------------------------------------------------------------------

  predicate Fits(lo: int, hi: int, b: int, r: Run) {
    lo <= b && 1 <= r.size && b + r.size <= hi
  }

  /** The runs tile the pages [lo, hi). */
  ghost predicate Tiling(lo: int, hi: int, runs: map<int, Run>) {
    && lo in runs
    && (forall b :: b in runs ==> Fits(lo, hi, b, runs[b]))
    && (forall b {:trigger NextRun(runs, b)} :: b in runs ==> NextRun(runs, b) == hi || NextRun(runs, b) in runs)
    && (forall b, c :: b in runs && c in runs && b < c ==> b + runs[b].size <= c)
  }

  ghost predicate SameLength(t: Tags, n: int) {
    |t.mapped| == n && |t.size| == n && |t.isFree| == n
  }

  /** First and last page of run b carry its tag. */
  predicate Tagged(t: Tags, b: int, r: Run) {
    && 0 <= b && 1 <= r.size && b + r.size <= |t.mapped| == |t.size| == |t.isFree|
    && t.mapped[b] && t.size[b] == r.size && t.isFree[b] == r.free
    && t.mapped[b + r.size - 1] && t.size[b + r.size - 1] == r.size && t.isFree[b + r.size - 1] == r.free
  }

  /** Page j belongs to run b. */
  predicate Within(runs: map<int, Run>, b: int, j: int) {
    b in runs && b <= j < b + runs[b].size
  }

  /** Tags of all runs are in place; every page of a free run is marked free; and every page of a run in
      use is mapped and marked as in use, except for the runs in `pending`, which are just being handed
      out. */
  ghost predicate Tagging(t: Tags, runs: map<int, Run>, pending: set<int>) {
    && SameLength(t, |t.mapped|)
    && (forall b :: b in runs ==> Tagged(t, b, runs[b]))
    && (forall b, j {:trigger Within(runs, b, j)} :: Within(runs, b, j) && runs[b].free && 0 <= j < |t.isFree| ==>
        t.isFree[j])
    && (forall b, j {:trigger Within(runs, b, j)} ::
          Within(runs, b, j) && !runs[b].free && b !in pending && 0 <= j < |t.isFree| ==> t.mapped[j] && !t.isFree[j])
  }

  // ----- lists of free runs ----------------------------------------------------------------------------

  function NextLink(l: seq<int>, i: int): int
    requires 0 <= i < |l|
  {
    if i + 1 < |l| then l[i + 1] else NONE
  }

  function PrevLink(l: seq<int>, i: int): int
    requires 0 <= i < |l|
  {
    if i == 0 then NONE else l[i - 1]
  }

  ghost predicate Distinct(n: int, l: seq<int>) {
    && (forall i :: 0 <= i < |l| ==> 0 <= l[i] < n)
    && (forall i, j :: 0 <= i < j < |l| ==> l[i] != l[j])
  }

  /** The link fields realise the list l. */
  ghost predicate Linked(k: Links, l: seq<int>) {
    && |k.prev| == |k.next| && Distinct(|k.next|, l)
    && (forall i {:trigger NextLink(l, i)} :: 0 <= i < |l| ==> k.next[l[i]] == NextLink(l, i))
    && (forall i {:trigger PrevLink(l, i)} :: 0 <= i < |l| ==> k.prev[l[i]] == PrevLink(l, i))
  }

  /** The list kept for length c: well linked, not empty, headed by the map's entry, and made of free
      runs of that length outside `off`. */
  ghost predicate ListFor(k: Links, heads: map<int, int>, v: View, off: set<int>, c: int) {
    && c in v.lists && c in heads && v.lists[c] != [] && heads[c] == v.lists[c][0]
    && Linked(k, v.lists[c])
    && (forall i :: 0 <= i < |v.lists[c]| ==>
          && v.lists[c][i] in v.runs && v.lists[c][i] !in off
          && v.runs[v.lists[c][i]].free && v.runs[v.lists[c][i]].size == c)
  }

  /** Free run b is on the list for its length. */
  ghost predicate Listed(v: View, b: int)
    requires b in v.runs
  {
    v.runs[b].size in v.lists && b in v.lists[v.runs[b].size]
  }

  /** Every free run is on the list for its length, except for those in `off`. */
  ghost predicate Listing(k: Links, heads: map<int, int>, v: View, off: set<int>) {
    && |k.prev| == |k.next|
    && heads.Keys == v.lists.Keys
    && (forall c {:trigger ListFor(k, heads, v, off, c)} :: c in v.lists ==> ListFor(k, heads, v, off, c))
    && (forall b {:trigger Listed(v, b)} :: b in v.runs && v.runs[b].free && b !in off ==> Listed(v, b))
  }

  // ----- taking a value out of a list ------------------------------------------------------------------

  /** hugePodMapRemoveEntry on the links: the neighbours of node b are joined. */
  function Unlink(k: Links, b: int): Links
    requires 0 <= b < |k.prev| == |k.next|
    requires k.prev[b] != NONE ==> 0 <= k.prev[b] < |k.next|
    requires k.next[b] != NONE ==> 0 <= k.next[b] < |k.next|
  {
    Links(if k.next[b] == NONE then k.prev else k.prev[k.next[b] := k.prev[b]],
          if k.prev[b] == NONE then k.next else k.next[k.prev[b] := k.next[b]])
  }

  lemma LinkedAt(k: Links, l: seq<int>, i: int)
    requires Linked(k, l) && 0 <= i < |l|
    ensures 0 <= l[i] < |k.next| == |k.prev|
    ensures k.next[l[i]] == NextLink(l, i) && k.prev[l[i]] == PrevLink(l, i)
    ensures k.prev[l[i]] == NONE <==> i == 0
    ensures k.next[l[i]] == NONE <==> i == |l| - 1
    ensures i > 0 ==> 0 <= l[i - 1] < |k.next|
    ensures i < |l| - 1 ==> 0 <= l[i + 1] < |k.next|
  {
  }

  lemma UnlinkAt(k: Links, l: seq<int>, i: int, a: int)
    requires Linked(k, l) && 0 <= i < |l| && 0 <= a < |l| - 1
    ensures 0 <= l[i] < |k.prev| == |k.next|
    ensures k.prev[l[i]] != NONE ==> 0 <= k.prev[l[i]] < |k.next|
    ensures k.next[l[i]] != NONE ==> 0 <= k.next[l[i]] < |k.next|
    ensures 0 <= Drop(l, i)[a] < |k.next|
    ensures Unlink(k, l[i]).next[Drop(l, i)[a]] == NextLink(Drop(l, i), a)
    ensures Unlink(k, l[i]).prev[Drop(l, i)[a]] == PrevLink(Drop(l, i), a)
  {
    LinkedAt(k, l, i);
    if a < i {
      LinkedAt(k, l, a);
    } else {
      LinkedAt(k, l, a + 1);
    }
  }

  /** Unlinking a node leaves a well-formed list of the others. */
  lemma UnlinkLinked(k: Links, l: seq<int>, i: int)
    requires Linked(k, l) && 0 <= i < |l|
    ensures 0 <= l[i] < |k.prev| == |k.next|
    ensures k.prev[l[i]] != NONE ==> 0 <= k.prev[l[i]] < |k.next|
    ensures k.next[l[i]] != NONE ==> 0 <= k.next[l[i]] < |k.next|
    ensures Linked(Unlink(k, l[i]), Drop(l, i))
  {
    LinkedAt(k, l, i);
    DropIs(l, i, l[i]);
    forall a | 0 <= a < |l| - 1
      ensures 0 <= Drop(l, i)[a] < |k.next|
      ensures Unlink(k, l[i]).next[Drop(l, i)[a]] == NextLink(Drop(l, i), a)
      ensures Unlink(k, l[i]).prev[Drop(l, i)[a]] == PrevLink(Drop(l, i), a)
    {
      UnlinkAt(k, l, i, a);
    }
  }

  /** hugePodMapAddEntry on the links: b goes in front of the list headed by h (NONE for a new list). */
  function LinkFront(k: Links, h: int, b: int): Links
    requires 0 <= b < |k.prev| == |k.next| && (h != NONE ==> 0 <= h < |k.next|)
  {
    Links((if h == NONE then k.prev else k.prev[h := b])[b := NONE], k.next[b := h])
  }

  /** The first run on the list for length c, NONE if there is no such list. */
  function HeadOf(heads: map<int, int>, c: int): int {
    if c in heads then heads[c] else NONE
  }

  lemma LinkFrontLinked(k: Links, l: seq<int>, b: int)
    requires Linked(k, l) && 0 <= b < |k.next| && forall i :: 0 <= i < |l| ==> l[i] != b
    ensures (l != [] ==> 0 <= l[0] < |k.next|)
    ensures Linked(LinkFront(k, if l == [] then NONE else l[0], b), [b] + l)
  {
    var k', l' := LinkFront(k, if l == [] then NONE else l[0], b), [b] + l;
    forall i | 0 <= i < |l'|
      ensures k'.next[l'[i]] == NextLink(l', i) && k'.prev[l'[i]] == PrevLink(l', i)
    {
      if i > 0 {
        LinkedAt(k, l, i - 1);
      }
    }
  }

  /** Lists that share no node with the written ones keep their shape. */
  lemma LinkedFrame(k: Links, k': Links, l: seq<int>)
    requires Linked(k, l) && |k'.prev| == |k'.next| == |k.next|
    requires forall i :: 0 <= i < |l| && 0 <= l[i] < |k.next| ==>
        k'.next[l[i]] == k.next[l[i]] && k'.prev[l[i]] == k.prev[l[i]]
    ensures Linked(k', l)
  {
  }

  // ----- allocation and release on the view ---------------------------------------------------------------

  function Split(runs: map<int, Run>, b: int, n: int): map<int, Run>
    requires b in runs
  {
    if runs[b].size == n then runs[b := Run(n, false)]
    else runs[b := Run(n, false)][b + n := Run(runs[b].size - n, true)]
  }

  function WithFront(lists: map<int, seq<int>>, c: int, b: int): map<int, seq<int>> {
    lists[c := [b] + if c in lists then lists[c] else []]
  }

  /** The lists after run x of length c was taken out; an empty list is no list. */
  function WithoutRun(lists: map<int, seq<int>>, c: int, x: int): map<int, seq<int>> {
    if c !in lists then lists
    else if Without(lists[c], x) == [] then lists - {c}
    else lists[c := Without(lists[c], x)]
  }

  /** The smallest run length on offer that is at least n. */
  ghost predicate IsBestFit(lists: map<int, seq<int>>, n: int, c: int) {
    c in lists && n <= c && forall d :: d in lists && n <= d ==> c <= d
  }

  /** map::lower_bound: the smallest key that is at least n */
  method LowerBound(heads: map<int, int>, n: int) returns (c: int)
    requires exists d :: d in heads && n <= d
    ensures c in heads && n <= c && forall d :: d in heads && n <= d ==> c <= d
  {
    ghost var some :| some in heads && n <= some;
    c := n;
    while c !in heads
      invariant n <= c <= some && forall d :: d in heads && n <= d ==> c <= d
      decreases some - c
    {
      c := c + 1;
    }
  }

  /** allocateNPages from the list of length c. */
  function Allocate(v: View, n: int, c: int): View
    requires c in v.lists && v.lists[c] != [] && v.lists[c][0] in v.runs
  {
    var b := v.lists[c][0];
    var rest := WithoutRun(v.lists, c, b);
    View(Split(v.runs, b, n), if c == n then rest else WithFront(rest, c - n, b + n))
  }

  /** The end of the stretch of free runs that starts at page c. */
  ghost function RunEnd(lo: int, hi: int, runs: map<int, Run>, c: int): int
    requires Tiling(lo, hi, runs)
    decreases hi - c
  {
    assert c in runs ==> Fits(lo, hi, c, runs[c]);
    if c in runs && runs[c].free then RunEnd(lo, hi, runs, NextRun(runs, c)) else c
  }

  /** Run b becomes free and takes over everything up to e. */
  function Swallow(runs: map<int, Run>, b: int, e: int): map<int, Run> {
    map c | c in runs && !(b < c < e) :: if c == b then Run(e - b, true) else runs[c]
  }

  /** The lists after the stretch of free runs from c up to e was taken out, run by run. */
  ghost function Unlist(lo: int, hi: int, runs: map<int, Run>, lists: map<int, seq<int>>, c: int,
                        e: int): map<int, seq<int>>
    requires Tiling(lo, hi, runs)
    decreases hi - c
  {
    assert c in runs ==> Fits(lo, hi, c, runs[c]);
    if c in runs && c < e then Unlist(lo, hi, runs, WithoutRun(lists, runs[c].size, c), NextRun(runs, c), e)
    else lists
  }

  /** hugeFree: the run takes over the free runs to its right and goes to the front of its list. */
  ghost function Release(lo: int, hi: int, v: View, b: int): View
    requires Tiling(lo, hi, v.runs)
    requires b in v.runs
  {
    ReleaseTo(lo, hi, v, b, RunEnd(lo, hi, v.runs, NextRun(v.runs, b)))
  }

  ghost function ReleaseTo(lo: int, hi: int, v: View, b: int, e: int): View
    requires Tiling(lo, hi, v.runs)
    requires b in v.runs
  {
    View(Swallow(v.runs, b, e), WithFront(Unlist(lo, hi, v.runs, v.lists, NextRun(v.runs, b), e), e - b, b))
  }
}
