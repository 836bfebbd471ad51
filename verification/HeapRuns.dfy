/** Whole runs of malloc and free on one page. */
module HeapRuns {
  import opened HeapModel
  import opened HeapProofs
  import opened HeapTheorems
  import opened PageHeap

  /** A call: malloc of a size in bytes, as computeAsize gives it, or free of a block pointer. */
  datatype Op = Take(size: nat) | Give(addr: int)

  ghost predicate Sound(n: int, v: View) {
    Tiling(n, v.blk) && Lists(v)
  }

  /** The call may be made: sizes are rounded, and only allocated blocks are released. */
  ghost predicate Allowed(v: View, op: Op) {
    match op
    case Take(s) => s == 0 || (32 <= s && s % 16 == 0)
    case Give(b) => b in v.blk && !v.blk[b].free
  }

  predicate Served(n: int, s: nat) {
    0 < s <= 8 * n - 32
  }

  /** The call returns with the page's mutex held, so that no other call on the page can follow. */
  predicate Refused(n: int, op: Op) {
    op.Take? && !Served(n, op.size)
  }

  /** A request is refused exactly if it is larger than the page size less 48 bytes. */
  lemma RefusedIff(n: nat, size: nat)
    requires 8 <= n && n % 2 == 0
    ensures Refused(n, Take(ComputeAsize(size))) <==> size > 8 * n - 48
  {
    AsizeIsLeast(size, 32);
    AsizeWithinLimit(n, size);
  }

  ghost function After(n: int, v: View, op: Op): View
    requires Sound(n, v) && Allowed(v, op)
  {
    match op
    case Take(s) => if Served(n, s) then Malloc(v, s / 8).0 else v
    case Give(b) => Free(n, v, b)
  }

  /** What the call returns; free returns nothing, written as NULL. */
  ghost function Answer(n: int, v: View, op: Op): int
    requires Sound(n, v) && Allowed(v, op)
  {
    match op
    case Take(s) => if Served(n, s) then Malloc(v, s / 8).1 else NULL
    case Give(b) => NULL
  }

  lemma StaysSound(n: int, v: View, op: Op)
    requires Sound(n, v) && Allowed(v, op)
    ensures Sound(n, After(n, v, op))
  {
    match op {
      case Take(s) =>
        if Served(n, s) && Malloc(v, s / 8).1 != NULL {
          MallocSound(n, v, s / 8);
        }
      case Give(b) =>
        FreeMaxGrows(n, v, b);
        var e := FreeIsSwallow(n, v, b);
        SwallowTiling(n, Release(v, b), b, e);
    }
  }

  lemma MallocSound(n: int, v: View, asize: int)
    requires Sound(n, v) && 4 <= asize && Malloc(v, asize).1 != NULL
    ensures Sound(n, Malloc(v, asize).0)
  {
    var b := Malloc(v, asize).1;
    CarveLists(n, v, b, asize);
    if v.blk[b].size - asize < 4 {
      RetagTiling(n, v.blk, b, false);
    } else {
      SplitTiling(n, v.blk, b, asize);
    }
  }

  /** A run that can be made to its end: every call is allowed, and none comes after a refused one. */
  ghost predicate AllAllowed(n: int, v: View, ops: seq<Op>)
    requires Sound(n, v)
    decreases |ops|
  {
    ops == [] || (
      && Allowed(v, ops[0]) && (Refused(n, ops[0]) ==> |ops| == 1)
      && (StaysSound(n, v, ops[0]); AllAllowed(n, After(n, v, ops[0]), ops[1..])))
  }

  /** The answers of a run depend on the reading of the page alone. */
  ghost function Answers(n: int, v: View, ops: seq<Op>): seq<int>
    requires Sound(n, v) && AllAllowed(n, v, ops)
    decreases |ops|
  {
    if ops == [] then []
    else StaysSound(n, v, ops[0]); [Answer(n, v, ops[0])] + Answers(n, After(n, v, ops[0]), ops[1..])
  }

  /** The words of every block that was allocated before the run and is not released by it are as they were, and still
      belong to that block. */
  ghost predicate Untouched(m: Words, m': Words, blk: map<int, Block>, blk': map<int, Block>, ops: seq<Op>) {
    && |m'| == |m|
    && forall b, j {:trigger Payload(blk, b, j)} :: Payload(blk, b, j) && 0 <= j < |m| && Give(b) !in ops ==>
         Payload(blk', b, j) && m'[j] == m[j]
  }

  /** One call keeps the blocks it does not release. */
  lemma StepKeeps(n: int, v: View, op: Op, b: int, j: int)
    requires Sound(n, v) && Allowed(v, op) && Payload(v.blk, b, j) && op != Give(b)
    ensures Payload(After(n, v, op).blk, b, j)
  {
    match op {
      case Take(s) =>
        if Served(n, s) && Malloc(v, s / 8).1 != NULL {
          MallocGives(n, v, s / 8);
        }
      case Give(c) =>
        FreeGives(n, v, c);
    }
  }

  /** Any run of allowed calls on a page: the answers and the final heap are those of the reading, and no live word that
      the run does not release is touched. */
  method Execute(heap: FreeListAllocator, ops: seq<Op>) returns (answers: seq<int>)
    requires heap.Valid() && heap.inited && !heap.locked
    requires Sound(heap.mem.Length, heap.view) && AllAllowed(heap.mem.Length, heap.view, ops)
    modifies heap, heap.mem
    ensures heap.Valid() && heap.inited && (heap.locked <==> ops != [] && Refused(heap.mem.Length, ops[|ops| - 1]))
    ensures answers == Answers(heap.mem.Length, old(heap.view), ops)
    ensures Untouched(old(heap.mem[..]), heap.mem[..], old(heap.view).blk, heap.view.blk, ops)
    decreases |ops|
  {
    hide Sound, Inv, After, Answer, Untouched, LiveSame, Allowed, Served;
    ghost var n, v, m := heap.mem.Length, heap.view, heap.mem[..];
    UntouchedAtFirst(m, v.blk, ops);
    if ops == [] {
      return [];
    }
    StaysSound(n, v, ops[0]);
    var first := One(heap, ops[0]);
    ghost var v1, m1 := heap.view, heap.mem[..];
    var rest := [];
    UntouchedAtFirst(m1, v1.blk, ops[1..]);
    if |ops| > 1 {
      rest := Execute(heap, ops[1..]);
    }
    answers := [first] + rest;
    UntouchedStep(n, m, m1, heap.mem[..], v, ops, heap.view.blk);
  }

  lemma UntouchedAtFirst(m: Words, blk: map<int, Block>, ops: seq<Op>)
    ensures Untouched(m, m, blk, blk, ops)
  {
  }

  method One(heap: FreeListAllocator, op: Op) returns (answer: int)
    requires heap.Valid() && heap.inited && !heap.locked && Sound(heap.mem.Length, heap.view) && Allowed(heap.view, op)
    modifies heap, heap.mem
    ensures heap.Valid() && heap.inited && (heap.locked <==> Refused(heap.mem.Length, op))
    ensures heap.view == After(heap.mem.Length, old(heap.view), op)
    ensures answer == Answer(heap.mem.Length, old(heap.view), op)
    ensures |heap.mem[..]| == |old(heap.mem[..])|
    ensures LiveSame(old(heap.mem[..]), heap.mem[..], if op.Take? then old(heap.view).blk else heap.view.blk)
  {
    match op {
      case Take(s) =>
        answer := heap.Malloc(s);
      case Give(b) =>
        heap.Free(b);
        answer := NULL;
    }
  }

  lemma UntouchedStep(n: int, m: Words, m1: Words, m2: Words, v: View, ops: seq<Op>, blk2: map<int, Block>)
    requires Sound(n, v) && ops != [] && Allowed(v, ops[0]) && |m| == n
    requires LiveSame(m, m1, if ops[0].Take? then v.blk else After(n, v, ops[0]).blk)
    requires Untouched(m1, m2, After(n, v, ops[0]).blk, blk2, ops[1..])
    ensures Untouched(m, m2, v.blk, blk2, ops)
  {
    forall b, j | Payload(v.blk, b, j) && 0 <= j < |m| && Give(b) !in ops
      ensures Payload(blk2, b, j) && m2[j] == m[j]
    {
      assert ops[0] in ops && forall op :: op in ops[1..] ==> op in ops;
      StepKeeps(n, v, ops[0], b, j);
    }
  }
}
