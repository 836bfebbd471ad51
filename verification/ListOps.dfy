/** Sequences without one of their values. */
module ListOps {

  /** s with every x left out, order kept. */
  function Without(s: seq<int>, x: int): (r: seq<int>)
    ensures forall y :: y in r <==> y in s && y != x
  {
    if s == [] then []
    else if s[0] == x then Without(s[1..], x)
    else [s[0]] + Without(s[1..], x)
  }

  /** s without its k-th element. */
  function Drop(s: seq<int>, k: int): seq<int>
    requires 0 <= k < |s|
  {
    s[..k] + s[k + 1..]
  }

  lemma {:induction false} WithoutAbsent(s: seq<int>, x: int)
    requires forall i :: 0 <= i < |s| ==> s[i] != x
    ensures Without(s, x) == s
  {
    if s != [] {
      WithoutAbsent(s[1..], x);
    }
  }

  lemma {:induction false} WithoutAt(s: seq<int>, k: int)
    requires 0 <= k < |s|
    requires forall i, j :: 0 <= i < j < |s| ==> s[i] != s[j]
    ensures Without(s, s[k]) == Drop(s, k)
  {
    if k == 0 {
      WithoutAbsent(s[1..], s[0]);
    } else {
      WithoutAt(s[1..], k - 1);
      assert Drop(s, k) == [s[0]] + Drop(s[1..], k - 1);
    }
  }

  lemma DropIs(l: seq<int>, i: int, x: int)
    requires 0 <= i < |l| && forall a, b :: 0 <= a < b < |l| ==> l[a] != l[b]
    ensures x in Drop(l, i) <==> x in l && x != l[i]
    ensures forall a, b :: 0 <= a < b < |Drop(l, i)| ==> Drop(l, i)[a] != Drop(l, i)[b]
    ensures forall a :: 0 <= a < |Drop(l, i)| ==> Drop(l, i)[a] == l[if a < i then a else a + 1]
  {
  }
}
