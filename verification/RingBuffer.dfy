/** The ring buffer of pinned pages: an array, a read index and a write index. */
module RingBuffer {

  /** The k-th slot after slot r in a ring of n slots. */
  function Slot(n: int, r: int, k: int): (s: int)
    requires 0 <= r < n && 0 <= k <= n
    ensures 0 <= s < n
  {
    if r + k < n then r + k else r + k - n
  }

  class PodBoundedBuffer {
    const buffer: array<int>
    var readIndex: int
    var writeIndex: int
    ghost var added: seq<int>   // all pages ever put in, in order
    ghost var taken: seq<int>   // all pages ever handed out, in order

    /** getBufferSize */
    function Count(): (c: int)
      requires 0 <= readIndex < buffer.Length && 0 <= writeIndex < buffer.Length
      reads this
      ensures 0 <= c < buffer.Length
      ensures c == if readIndex <= writeIndex then writeIndex - readIndex else writeIndex - readIndex + buffer.Length
    {
      Wrap(writeIndex - readIndex, buffer.Length);
      (writeIndex - readIndex + buffer.Length) % buffer.Length
    }

    /** The pages between the two indices. */
    ghost function Held(): (h: seq<int>)
      requires 0 <= readIndex < buffer.Length && 0 <= writeIndex < buffer.Length
      reads this, buffer
      ensures |h| == Count()
    {
      seq(Count(), k requires 0 <= k < buffer.Length && 0 <= readIndex < buffer.Length reads this, buffer =>
            buffer[Slot(buffer.Length, readIndex, k)])
    }

    /** Pages come out in the order they went in, each once: what was handed out, followed by what is held, is what was
        put in. */
    ghost predicate Valid()
      reads this, buffer
    {
      0 <= readIndex < buffer.Length && 0 <= writeIndex < buffer.Length && added == taken + Held()
    }

    constructor (size: int)
      requires 1 <= size
      ensures Valid() && buffer.Length == size && added == [] && taken == []
    {
      buffer := new int[size];
      readIndex, writeIndex := 0, 0;
      added, taken := [], [];
    }

    static lemma Wrap(x: int, n: int)
      requires 1 <= n && -n < x < n
      ensures (x + n) % n == if 0 <= x then x else x + n
    {
    }

    static lemma WrapNext(w: int, n: int)
      requires 0 <= w < n
      ensures (w + 1) % n == Slot(n, w, 1)
    {
    }

    /** boundedBufferIsFull: one slot is always left unused. */
    method BoundedBufferIsFull() returns (full: bool)
      requires Valid()
      ensures full <==> |Held()| == buffer.Length - 1
    {
      WrapNext(writeIndex, buffer.Length);
      full := (writeIndex + 1) % buffer.Length == readIndex;
    }

    method BoundedBufferIsEmpty() returns (empty: bool)
      requires Valid()
      ensures empty <==> Held() == []
    {
      empty := readIndex == writeIndex;
    }

    /** addPodToBuffer, once the wait for room is over */
    method AddPodToBuffer(page: int)
      requires Valid() && |Held()| < buffer.Length - 1
      modifies this, buffer
      ensures Valid() && Held() == old(Held()) + [page] && added == old(added) + [page] && taken == old(taken)
      ensures |Held()| <= buffer.Length - 1
    {
      WrapNext(writeIndex, buffer.Length);
      buffer[writeIndex] := page;
      writeIndex := (writeIndex + 1) % buffer.Length;
      added := added + [page];
      assert Held() == old(Held()) + [page];
    }

    /** getBufferedPodCore, once the wait for a page is over */
    method GetBufferedPod() returns (page: int)
      requires Valid() && Held() != []
      modifies this
      ensures Valid() && page == old(Held())[0] && Held() == old(Held())[1..]
      ensures taken == old(taken) + [page] && added == old(added) && page == added[|old(taken)|]
    {
      WrapNext(readIndex, buffer.Length);
      page := buffer[readIndex];
      readIndex := (readIndex + 1) % buffer.Length;
      taken := taken + [page];
      assert Held() == old(Held())[1..];
    }
  }
}
