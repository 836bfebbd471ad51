/** What is kept of a page while it is swapped out, and how it is put back.

    A page used by the small-block heap is cut at its free tail: the prefix up to the tail's block
    pointer is stored, together with the two link words of the tail and the last two words of the page. */
module SwapImage {
  import opened HeapModel

  /** A stored page: the words before the cut, and the four words kept besides (none if the whole page
      is stored). */
  datatype Image = Image(prefix: Words, rest: Words)

  ghost predicate WellFormed(n: int, g: Image) {
    |g.prefix| <= n && (|g.prefix| == n ==> g.rest == []) && (|g.prefix| < n ==> |g.rest| == 4 && |g.prefix| + 4 <= n)
  }

  /** What localToDisk and savePodToRemote keep of page m when the cut is at word t. */
  function Store(m: Words, t: int): Image
    requires 0 <= t <= |m| && (t < |m| ==> t + 4 <= |m|)
  {
    Image(m[..t], if t == |m| then [] else m[t..t + 2] + m[|m| - 2..])
  }

  /** Reading an image back over the words m of a page. */
  function Load(m: Words, g: Image): (r: Words)
    requires WellFormed(|m|, g)
    ensures |r| == |m|
  {
    if |g.prefix| == |m| then g.prefix
    else g.prefix + g.rest[..2] + m[|g.prefix| + 2..|m| - 2] + g.rest[2..]
  }

  function Zeros(n: int): Words
    requires 0 <= n
  {
    seq(n, _ => 0)
  }

  /** Storing the whole page loses nothing. */
  lemma WholeRoundTrip(m: Words, z: Words)
    requires |z| == |m|
    ensures WellFormed(|m|, Store(m, |m|)) && Load(z, Store(m, |m|)) == m
  {
  }

  /** Only the words strictly inside the tail, between its links and its footer, are lost. */
  lemma LoadAt(m: Words, z: Words, t: int, j: int)
    requires 0 <= t && t + 4 <= |m| && |z| == |m| && 0 <= j < |m| && !(t + 2 <= j < |m| - 2)
    ensures WellFormed(|m|, Store(m, t))
    ensures |Load(z, Store(m, t))| == |m| && Load(z, Store(m, t))[j] == m[j]
  {
  }

  /** The two memories differ at most in words of the free block t at the end that are neither tags nor links. */
  ghost predicate SameButTail(m: Words, m': Words, t: int) {
    |m'| == |m| && forall j :: 0 <= j < |m| && !(t + 2 <= j < |m| - 2) ==> m'[j] == m[j]
  }

  lemma TailTags(m: Words, m': Words, blk: map<int, Block>, t: int)
    requires Tiling(|m|, blk) && Tags(m, blk) && t in blk && Next(blk, t) == |m| && SameButTail(m, m', t)
    ensures Tags(m', blk)
  {
    hide Tag;
    assert Fits(|m|, t, blk[t]);
    forall b | b in blk
      ensures Fits(|m|, b, blk[b]) && m'[b - 1] == Tag(blk[b]) && m'[b + blk[b].size - 2] == Tag(blk[b])
    {
      assert Fits(|m|, b, blk[b]) && m[b - 1] == Tag(blk[b]) && m[b + blk[b].size - 2] == Tag(blk[b]);
    }
  }

  lemma TailLinks(m: Words, m': Words, head: int, v: View, t: int)
    requires Tiling(|m|, v.blk) && Lists(v) && Links(m, head, v.fl) && t in v.blk && SameButTail(m, m', t)
    requires Next(v.blk, t) == |m|
    ensures Links(m', head, v.fl)
  {
    hide NextLink, PrevLink;
    forall i | 0 <= i < |v.fl|
      ensures m'[v.fl[i]] == m[v.fl[i]] && m'[v.fl[i] + 1] == m[v.fl[i] + 1]
    {
      assert Fits(|m|, v.fl[i], v.blk[v.fl[i]]);
    }
  }

  lemma TailLive(m: Words, m': Words, blk: map<int, Block>, t: int)
    requires Tiling(|m|, blk) && t in blk && blk[t].free && Next(blk, t) == |m| && SameButTail(m, m', t)
    ensures LiveSame(m, m', blk)
  {
    forall b, j | Payload(blk, b, j) && 0 <= j < |m|
      ensures m'[j] == m[j]
    {
      assert Fits(|m|, b, blk[b]);
    }
  }

  /** Memory that agrees with a heap everywhere but inside the free block t that ends the page carries
      the same heap and the same live data. */
  lemma OutsideTail(m: Words, m': Words, head: int, v: View, t: int)
    requires Inv(m, head, v) && |m'| == |m|
    requires t in v.blk && v.blk[t].free && Next(v.blk, t) == |m|
    requires forall j :: 0 <= j < |m| && !(t + 2 <= j < |m| - 2) ==> m'[j] == m[j]
    ensures Inv(m', head, v) && LiveSame(m, m', v.blk)
  {
    hide Tiling, Tags, Links, Lists, LiveSame, Aligned;
    TailTags(m, m', v.blk, t);
    TailLinks(m, m', head, v, t);
    TailLive(m, m', v.blk, t);
  }

  /** The cut chosen by getTailOffset is a legal one. */
  lemma TailFits(n: int, blk: map<int, Block>)
    requires Tiling(n, blk)
    ensures 0 <= TailOffset(n, blk) <= n && (TailOffset(n, blk) < n ==> TailOffset(n, blk) + 4 <= n)
  {
  }

  /** Swapping a heap page out at its tail and back into any page of the same size brings back the same
      heap (hence the same answers to all later calls) and every live word. */
  lemma TrimRoundTrip(m: Words, head: int, v: View, z: Words)
    requires Inv(m, head, v) && |z| == |m|
    ensures 0 <= TailOffset(|m|, v.blk) <= |m| && (TailOffset(|m|, v.blk) < |m| ==> TailOffset(|m|, v.blk) + 4 <= |m|)
    ensures WellFormed(|m|, Store(m, TailOffset(|m|, v.blk)))
    ensures Inv(Load(z, Store(m, TailOffset(|m|, v.blk))), head, v)
    ensures LiveSame(m, Load(z, Store(m, TailOffset(|m|, v.blk))), v.blk)
  {
    var t := TailOffset(|m|, v.blk);
    TailFits(|m|, v.blk);
    if t == |m| {
      WholeRoundTrip(m, z);
    } else {
      forall j | 0 <= j < |m| && !(t + 2 <= j < |m| - 2)
        ensures Load(z, Store(m, t))[j] == m[j]
      {
        LoadAt(m, z, t, j);
      }
      LoadAt(m, z, t, 0);
      OutsideTail(m, Load(z, Store(m, t)), head, v, t);
    }
  }
}
