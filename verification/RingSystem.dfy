/** The ring buffer of pinned pages inside the whole paging system: over every run, the pages it holds stay pinned
    until the consumer takes them, and come out in order. */
module RingSystem {
  import opened Residency
  import opened Paging

  /** The queue after event e, with size slots in the ring: the producer pins a page and appends it, the consumer unpins
      the first page, and any other call leaves the queue alone (nobody releases a page that is still queued). */
  ghost predicate QueueNext(size: int, queue: seq<int>, e: Event, queue': seq<int>) {
    match e.call
    case DoPin => |queue| < size - 1 && queue' == queue + [e.page]
    case DoUnpin => queue != [] && queue[0] == e.page && queue' == queue[1..]
    case DoHugeGive => e.page !in queue && queue' == queue
    case _ => queue' == queue
  }

  /** A run of the system together with its queue; queues[t] is the queue before event t. */
  ghost predicate QueueRun(size: int, trace: seq<Event>, queues: seq<seq<int>>) {
    |queues| == |trace| + 1 && forall t :: 0 <= t < |trace| ==> QueueNext(size, queues[t], trace[t], queues[t + 1])
  }

  /** The pages of the queue are pinned, in use and distinct. */
  ghost predicate QueueInv(s: Sys, queue: seq<int>) {
    && (forall k :: 0 <= k < |queue| ==>
        0 <= queue[k] < |s.pods| && s.pods[queue[k]].state.LocalPinned? && !s.pods[queue[k]].isFree)
    && (forall k, l :: 0 <= k < l < |queue| ==> queue[k] != queue[l])
  }

  /** The pages that went in, in order. */
  function PutIn(trace: seq<Event>): seq<int> {
    if trace == [] then [] else if trace[0].call.DoPin? then [trace[0].page] + PutIn(trace[1..]) else PutIn(trace[1..])
  }

  /** The pages that came out, in order. */
  function TakenOut(trace: seq<Event>): seq<int> {
    if trace == [] then [] else if trace[0].call.DoUnpin? then [trace[0].page] + TakenOut(trace[1..])
        else TakenOut(trace[1..])
  }

  lemma PinnedFlag(n: int, x: Slice, c: Call, x': Slice)
    requires SliceInv(n, x) && PageNext(n, x, c, x') && x.pod.state.LocalPinned? && !x.pod.isFree && !c.DoUnpin?
    requires !c.DoHugeGive?
    ensures x'.pod.state.LocalPinned? && !x'.pod.isFree
  {
  }

  /** One step keeps the queue's pages pinned. */
  lemma QueueStep(size: int, s: Sys, queue: seq<int>, e: Event, s': Sys, queue': seq<int>)
    requires SysInv(s) && SysNext(s, e.page, e.call, e.part, s') && QueueInv(s, queue)
    requires QueueNext(size, queue, e, queue')
    ensures QueueInv(s', queue')
  {
    forall k | 0 <= k < |queue|
      ensures e.call.DoUnpin? || (s'.pods[queue[k]].state.LocalPinned? && !s'.pods[queue[k]].isFree)
    {
      if queue[k] == e.page && !e.call.DoUnpin? {
        assert e.page in queue;
        PinnedFlag(s.n, SliceOf(s, e.page), e.call, e.part);
      }
    }
    if e.call.DoPin? {
      assert e.page !in queue by {
        assert SliceOf(s, e.page).pod.isFree;
      }
      PinEffect(s.n, SliceOf(s, e.page), e.part);
    }
  }

  /** Over every run: the queued pages are pinned and distinct, at most size - 1 of them, and what was queued and went
      in is what came out and is queued, in the same order. */
  lemma {:induction false} QueueSafe(size: int, s: Sys, trace: seq<Event>, s': Sys, queues: seq<seq<int>>)
    requires SysInv(s) && Run(s, trace, s') && QueueRun(size, trace, queues)
    requires QueueInv(s, queues[0]) && |queues[0]| <= size - 1
    ensures QueueInv(s', queues[|trace|]) && |queues[|trace|]| <= size - 1
    ensures queues[0] + PutIn(trace) == TakenOut(trace) + queues[|trace|]
    decreases |trace|
  {
    if trace != [] {
      var e := trace[0];
      var s1 := Put(s, e.page, e.part);
      assert QueueNext(size, queues[0], e, queues[1]);
      StepRefines(s, e.page, e.call, e.part, s1);
      QueueStep(size, s, queues[0], e, s1, queues[1]);
      assert QueueRun(size, trace[1..], queues[1..]) by {
        forall t | 0 <= t < |trace[1..]|
          ensures QueueNext(size, queues[1..][t], trace[1..][t], queues[1..][t + 1])
        {
          assert QueueNext(size, queues[t + 1], trace[t + 1], queues[t + 2]);
        }
      }
      QueueSafe(size, s1, trace[1..], s', queues[1..]);
      SplitOrder(size, trace, queues);
    }
  }

  /** The order law for the whole trace follows from the one for its rest. */
  lemma SplitOrder(size: int, trace: seq<Event>, queues: seq<seq<int>>)
    requires trace != [] && |queues| == |trace| + 1 && QueueNext(size, queues[0], trace[0], queues[1])
    requires queues[1] + PutIn(trace[1..]) == TakenOut(trace[1..]) + queues[|trace|]
    ensures queues[0] + PutIn(trace) == TakenOut(trace) + queues[|trace|]
  {
    if trace[0].call.DoPin? {
      PinOrder(queues[0], trace[0].page, PutIn(trace[1..]));
    } else if trace[0].call.DoUnpin? {
      UnpinOrder(queues[0], PutIn(trace[1..]), TakenOut(trace[1..]), queues[|trace|]);
    }
  }

  lemma PinOrder(q: seq<int>, page: int, p: seq<int>)
    ensures q + ([page] + p) == (q + [page]) + p
  {
  }

  lemma UnpinOrder(q: seq<int>, p: seq<int>, t: seq<int>, end: seq<int>)
    requires q != [] && q[1..] + p == t + end
    ensures q + p == ([q[0]] + t) + end
  {
    assert q + p == [q[0]] + (q[1..] + p);
    assert ([q[0]] + t) + end == [q[0]] + (t + end);
  }
}
