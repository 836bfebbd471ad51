/** The least-recently-used list of pages: a linked list, with the list node of each page remembered in
    the page so that it can be moved in one step. */
module Lru {
  import opened ListOps

  /** A node of the list; the node number stands for its address. */
  datatype Item = Item(node: int, pod: int)

  function Pods(items: seq<Item>): (r: seq<int>)
    ensures |r| == |items| && forall i :: 0 <= i < |r| ==> r[i] == items[i].pod
  {
    seq(|items|, i requires 0 <= i < |items| => items[i].pod)
  }

  ghost predicate NoDuplicates(s: seq<int>) {
    forall i, j :: 0 <= i < j < |s| ==> s[i] != s[j]
  }

  /** Every page is listed at most once, under its own node, and the iterators name these nodes. */
  ghost predicate Linked(items: seq<Item>, iter: map<int, int>, nextNode: int) {
    && NoDuplicates(Pods(items))
    && (forall i, j :: 0 <= i < j < |items| ==> items[i].node != items[j].node)
    && (forall i :: 0 <= i < |items| ==> items[i].node < nextNode)
    && (forall i :: 0 <= i < |items| ==> items[i].pod in iter && iter[items[i].pod] == items[i].node)
  }

  lemma LinkedFront(items: seq<Item>, iter: map<int, int>, nextNode: int, p: int)
    requires Linked(items, iter, nextNode) && p !in Pods(items)
    ensures Linked([Item(nextNode, p)] + items, iter[p := nextNode], nextNode + 1)
    ensures Pods([Item(nextNode, p)] + items) == [p] + Pods(items)
  {
  }

  lemma LinkedBack(items: seq<Item>, iter: map<int, int>, nextNode: int, p: int)
    requires Linked(items, iter, nextNode) && p !in Pods(items)
    ensures Linked(items + [Item(nextNode, p)], iter[p := nextNode], nextNode + 1)
    ensures Pods(items + [Item(nextNode, p)]) == Pods(items) + [p]
  {
  }

  lemma LinkedDrop(items: seq<Item>, iter: map<int, int>, nextNode: int, p: int, k: int)
    requires Linked(items, iter, nextNode) && 0 <= k < |items| && items[k].pod == p
    ensures Linked(items[..k] + items[k + 1..], iter, nextNode)
    ensures Pods(items[..k] + items[k + 1..]) == Without(Pods(items), p)
  {
    WithoutAt(Pods(items), k);
    var d := items[..k] + items[k + 1..];
    assert forall i :: 0 <= i < |d| ==> d[i] == items[if i < k then i else i + 1];
    assert Pods(d) == Pods(items)[..k] + Pods(items)[k + 1..];
  }

  /** What front() and back() yield on an empty list, where the source does not test for emptiness. */
  const STRAY := -1

  class LruList {
    var items: seq<Item>
    var valid: set<int>          // pages whose LRUIterIsValid flag is set
    var iter: map<int, int>      // the LRUIter of each page
    var nextNode: int
    var locked: bool             // LRULock; a call waits until it is free

    /** No page occurs twice; a page's flag is set exactly when it is on the list, and its iterator then
        names the node that holds it. */
    ghost predicate Valid()
      reads this
    {
      Linked(items, iter, nextNode) && forall p :: p in valid <==> p in Pods(items)
    }

    ghost function Order(): seq<int>
      reads this
    {
      Pods(items)
    }

    constructor ()
      ensures Valid() && !locked && Order() == []
    {
      items, valid, iter, nextNode, locked := [], {}, map[], 0, false;
    }

    /** What front() reads; on an empty list it is not a page. */
    function Front(): int
      reads this
    {
      if items == [] then STRAY else items[0].pod
    }

    /** What back() reads. */
    function Back(): int
      reads this
    {
      if items == [] then STRAY else items[|items| - 1].pod
    }

    /** list::erase through the page's iterator: the node is taken out, whatever its position. */
    method EraseIter(p: int)
      requires Valid() && p in valid
      modifies this`items
      ensures Linked(items, iter, nextNode) && Pods(items) == Without(old(Order()), p)
    {
      assert p in Pods(items);
      var node := iter[p];
      var k := 0;
      while items[k].node != node
        invariant 0 <= k < |items| && forall i :: 0 <= i < k ==> items[i].node != node
        decreases |items| - k
      {
        k := k + 1;
      }
      assert items[k].pod == p;
      LinkedDrop(items, iter, nextNode, p, k);
      items := items[..k] + items[k + 1..];
    }

    /** The page leaves the list if it is on it. */
    method TakeOut(p: int)
      requires Valid()
      modifies this`items
      ensures Linked(items, iter, nextNode) && Pods(items) == Without(old(Order()), p)
    {
      if p in valid {
        EraseIter(p);
      } else {
        WithoutAbsent(Pods(items), p);
      }
    }

    /** updateLRUList: the page becomes the most recent one. */
    method UpdateLRUList(p: int)
      requires Valid() && !locked && 0 <= p
      modifies this
      ensures Valid() && !locked && Order() == [p] + Without(old(Order()), p)
    {
      hide Pods;
      if Front() == p {
        WithoutAt(Pods(items), 0);
        assert Pods(items) == [p] + Pods(items)[1..];
        return;
      }
      ghost var all := Pods(items);
      TakeOut(p);
      LinkedFront(items, iter, nextNode, p);
      items := [Item(nextNode, p)] + items;
      iter := iter[p := nextNode];
      nextNode := nextNode + 1;
      valid := valid + {p};
    }

    /** tailPodInLRUList: the page becomes the next one to be evicted. */
    method TailPodInLRUList(p: int)
      requires Valid() && !locked && 0 <= p
      modifies this
      ensures Valid() && !locked && Order() == Without(old(Order()), p) + [p]
    {
      if Back() == p {
        WithoutAt(Pods(items), |items| - 1);
        assert Pods(items) == Pods(items)[..|items| - 1] + [p];
        return;
      }
      TakeOut(p);
      LinkedBack(items, iter, nextNode, p);
      items := items + [Item(nextNode, p)];
      iter := iter[p := nextNode];
      nextNode := nextNode + 1;
      valid := valid + {p};
    }

    /** getFromLRUList: the page at the end, if there is one and it can be locked. */
    method GetFromLRUList(canLock: bool) returns (p: int, found: bool)
      requires Valid() && !locked
      modifies this
      ensures Valid() && !locked
      ensures found <==> old(Order()) != [] && canLock
      ensures found ==> old(Order()) == Order() + [p] && p !in Order()
      ensures !found ==> Order() == old(Order())
    {
      p, found := 0, false;
      if items == [] || !canLock {
        return;
      }
      p, found := items[|items| - 1].pod, true;
      valid := valid - {p};
      ghost var all := Pods(items);
      items := items[..|items| - 1];
      assert all == Pods(items) + [p];
    }

    /** removePodFromLRU: -1 if the page is not listed, 0 if it cannot be locked, else 1.  It returns with the list's
        lock held exactly if it locked a page and then found it not listed. */
    method RemovePodFromLRU(p: int, canLock: bool) returns (code: int)
      requires Valid() && !locked
      modifies this
      ensures Valid() && (locked <==> old(Order()) != [] && canLock && p !in old(Order()))
      ensures code == 1 <==> canLock && p in old(Order())
      ensures code == 0 <==> !canLock && old(Order()) != []
      ensures code == 1 || code == 0 || code == -1
      ensures Order() == if code == 1 then Without(old(Order()), p) else old(Order())
    {
      locked := true;
      if items == [] {
        locked := false;
        return -1;
      }
      if canLock {
        if p !in valid {
          return -1;
        }
        EraseIter(p);
        valid := valid - {p};
        locked := false;
        return 1;
      }
      locked := false;
      code := 0;
    }
  }

  // ----- all runs -----------------------------------------------------------------------------------------

  datatype Op = Touch(p: int) | Demote(p: int) | PopLast | Remove(p: int)

  function Apply(s: seq<int>, op: Op): seq<int> {
    match op
    case Touch(p) => [p] + Without(s, p)
    case Demote(p) => Without(s, p) + [p]
    case PopLast => if s == [] then s else s[..|s| - 1]
    case Remove(p) => Without(s, p)
  }

  function ApplyAll(s: seq<int>, ops: seq<Op>): seq<int>
    decreases |ops|
  {
    if ops == [] then s else ApplyAll(Apply(s, ops[0]), ops[1..])
  }

  lemma {:induction false} WithoutNoDuplicates(s: seq<int>, p: int)
    requires NoDuplicates(s)
    ensures NoDuplicates(Without(s, p))
  {
    if s != [] {
      WithoutNoDuplicates(s[1..], p);
      if s[0] != p {
        var r := Without(s[1..], p);
        forall i | 0 <= i < |r|
          ensures r[i] != s[0]
        {
          assert r[i] in r;
        }
        assert Without(s, p) == [s[0]] + r;
      }
    }
  }

  lemma ApplyNoDuplicates(s: seq<int>, op: Op)
    requires NoDuplicates(s)
    ensures NoDuplicates(Apply(s, op))
  {
    match op
    case Touch(p) =>
      WithoutNoDuplicates(s, p);
      var r := Without(s, p);
      assert forall i :: 0 <= i < |r| ==> r[i] in r;
    case Demote(p) =>
      WithoutNoDuplicates(s, p);
      var r := Without(s, p);
      assert forall i :: 0 <= i < |r| ==> r[i] in r;
    case PopLast =>
    case Remove(p) => WithoutNoDuplicates(s, p);
  }

  /** No run of list operations ever puts a page on the list twice. */
  lemma {:induction false} RunsHaveNoDuplicates(s: seq<int>, ops: seq<Op>)
    requires NoDuplicates(s)
    ensures NoDuplicates(ApplyAll(s, ops))
    decreases |ops|
  {
    if ops != [] {
      ApplyNoDuplicates(s, ops[0]);
      RunsHaveNoDuplicates(Apply(s, ops[0]), ops[1..]);
    }
  }

  lemma {:induction false} WithoutConcat(s: seq<int>, t: seq<int>, p: int)
    ensures Without(s + t, p) == Without(s, p) + Without(t, p)
  {
    if s == [] {
      assert s + t == t;
    } else {
      assert (s + t)[1..] == s[1..] + t;
      WithoutConcat(s[1..], t, p);
    }
  }

  /** An operation on page p leaves the order of all other pages as it was. */
  lemma OthersKeepOrder(s: seq<int>, op: Op)
    requires !op.PopLast?
    ensures Without(Apply(s, op), op.p) == Without(s, op.p)
  {
    var p := op.p;
    var r := Without(s, p);
    forall i | 0 <= i < |r|
      ensures r[i] != p
    {
      assert r[i] in r;
    }
    WithoutAbsent(r, p);
    WithoutConcat([p], r, p);
    WithoutConcat(r, [p], p);
    assert Without([p], p) == [];
  }
}
