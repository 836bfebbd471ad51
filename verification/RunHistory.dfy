/** Whole runs of page-run allocation and release in one region, against plain bookkeeping of what is handed out. */
module RunHistory {
  import opened RunModel
  import opened RunTheorems
  import opened PageRuns

  datatype Op = Take(pages: int) | Give(first: int)

  /** The pages [b, b + n) belong to no run that is handed out. */
  ghost predicate Apart(live: map<int, int>, b: int, n: int) {
    forall c :: c in live ==> b + n <= c || c + live[c] <= b
  }

  /** One step of the bookkeeping: a request is refused, or served with a run inside the region and apart from all
      others; a run that is handed out is given back, any other release is refused. */
  ghost predicate PlainStep(lo: int, hi: int, live: map<int, int>, op: Op, answer: int, live': map<int, int>) {
    match op
    case Take(n) =>
      if answer == NONE then live' == live
      else 1 <= n && lo <= answer && answer + n <= hi && Apart(live, answer, n) && live' == live[answer := n]
    case Give(b) =>
      if b in live then answer == b && live' == live - {b} else answer == NONE && live' == live
  }

  ghost predicate PlainRun(lo: int, hi: int, ops: seq<Op>, answers: seq<int>, lives: seq<map<int, int>>) {
    && |answers| == |ops| && |lives| == |ops| + 1
    && forall k :: 0 <= k < |ops| ==> PlainStep(lo, hi, lives[k], ops[k], answers[k], lives[k + 1])
  }

  /** A new run lies apart from all live ones. */
  lemma NewRunApart(lo: int, hi: int, runs: map<int, Run>, b: int, n: int)
    requires Tiling(lo, hi, runs) && b in runs && runs[b].free && n <= runs[b].size
    ensures lo <= b && b + n <= hi && Apart(Live(runs), b, n)
  {
    assert Fits(lo, hi, b, runs[b]);
  }

  lemma RunGrows(lo: int, hi: int, ops: seq<Op>, answers: seq<int>, lives: seq<map<int, int>>, op: Op, answer: int,
                 live: map<int, int>)
    requires PlainRun(lo, hi, ops, answers, lives) && PlainStep(lo, hi, lives[|ops|], op, answer, live)
    ensures PlainRun(lo, hi, ops + [op], answers + [answer], lives + [live])
  {
  }

  /** One call, if it can be made; a request is served exactly if some free run is long enough. */
  method One(region: TopLevelAllocator, held: map<int, int>, op: Op) returns (answer: int, held': map<int, int>)
    requires region.Valid() && held == Live(region.view.runs)
    modifies region, region.table
    ensures region.Valid() && held' == Live(region.view.runs)
    ensures PlainStep(region.from, region.to + 1, held, op, answer, held')
    ensures op.Take? && op.pages > 0 ==>
              (answer != NONE <==> exists b :: b in old(region.view).runs && old(region.view).runs[b].free
                                               && op.pages <= old(region.view).runs[b].size)
  {
    hide Tagging, Listing, Fits, ListFor, ReleaseTo;
    ghost var v := region.view;
    answer, held' := NONE, held;
    match op {
      case Take(n) =>
        ClassIffRun(region.table.K(), region.hugePodMap, v, n);
        if n > 0 && exists d :: d in region.hugePodMap && n <= d {
          ghost var c;
          answer, c := region.HugeMalloc(n);
          NewRunApart(region.from, region.to + 1, v.runs, answer, n);
          AllocateLive(region.from, region.to + 1, v, n, c);
          held' := held[answer := n];
        }
      case Give(b) =>
        if b in held {
          ReleaseLive(region.from, region.to + 1, v, b);
          assert Fits(region.from, region.to + 1, b, v.runs[b]);
          region.HugeFree(b);
          answer := b;
          held' := held - {b};
        }
    }
  }

  /** Any run of calls on a new region is a run of the bookkeeping: no two runs that are handed out at the same time
      share a page, and the region's invariant holds throughout. */
  method Execute(table: PodVector, from: int, to: int, ops: seq<Op>)
    returns (answers: seq<int>, ghost lives: seq<map<int, int>>)
    requires table.Shape() && 0 <= from <= to < |table.size| && forall j :: from <= j <= to ==> table.isFree[j]
    modifies table
    ensures PlainRun(from, to + 1, ops, answers, lives) && lives[0] == map[]
  {
    hide PlainStep, Live, Tiling, Tagging, Listing;
    var region := new TopLevelAllocator(table, from, to);
    var held: map<int, int> := map[];
    NothingLive(from, to - from + 1);
    answers := [];
    lives := [held];
    var k := 0;
    while k < |ops|
      invariant 0 <= k <= |ops| && region.Valid() && region.table == table && region.from == from && region.to == to
      invariant fresh(region) && held == Live(region.view.runs)
      invariant PlainRun(from, to + 1, ops[..k], answers, lives) && lives[0] == map[] && lives[k] == held
    {
      var answer;
      answer, held := One(region, held, ops[k]);
      RunGrows(from, to + 1, ops[..k], answers, lives, ops[k], answer, held);
      answers := answers + [answer];
      lives := lives + [held];
      assert ops[..k + 1] == ops[..k] + [ops[k]];
      k := k + 1;
    }
    assert ops[..k] == ops;
  }

  lemma NothingLive(from: int, n: int)
    ensures Live(OneRun(from, n).runs) == map[]
  {
  }
}
