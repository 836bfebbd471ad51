/** Buffered reading of a remote file in byte ranges. */
module HttpRead {

  const READ_BUFFER_LEN := 1000000

  function Min(x: int, y: int): int {
    if x <= y then x else y
  }

  /** What a server returns for the header "bytes=first-last", whose ends are both included. */
  function Range(file: seq<int>, first: int, last: int): seq<int>
    requires 0 <= first <= last < |file|
  {
    file[first..last + 1]
  }

  datatype Op = Seek(location: nat) | ReadAt(location: nat, count: nat) | ReadNext(count: nat)

  /** The same operations on a file at hand: what each returns, given the current offset. */
  function PlainResult(file: seq<int>, offset: nat, op: Op): seq<int> {
    match op
    case Seek(_) => []
    case ReadAt(l, n) => if l + n <= |file| then file[l..l + n] else []
    case ReadNext(n) => if offset <= |file| then file[offset..offset + Min(|file| - offset, n)] else []
  }

  function PlainOffset(file: seq<int>, offset: nat, op: Op): nat {
    match op
    case Seek(l) => l
    case ReadAt(l, n) => l + n
    case ReadNext(n) => if offset <= |file| then offset + Min(|file| - offset, n) else offset
  }

  /** All operations stay within the file. */
  predicate InBounds(file: seq<int>, offset: nat, ops: seq<Op>)
    decreases |ops|
  {
    ops == [] || (
      && (match ops[0] case Seek(_) => true case ReadAt(l, n) => l + n <= |file| case ReadNext(_) => offset <= |file|)
      && InBounds(file, PlainOffset(file, offset, ops[0]), ops[1..]))
  }

  function PlainResults(file: seq<int>, offset: nat, ops: seq<Op>): seq<seq<int>>
    decreases |ops|
  {
    if ops == [] then []
    else [PlainResult(file, offset, ops[0])] + PlainResults(file, PlainOffset(file, offset, ops[0]), ops[1..])
  }

  lemma SliceOfSlice(s: seq<int>, a: int, b: int, i: int, n: int)
    requires 0 <= a <= b <= |s| && 0 <= i && 0 <= n && i + n <= b - a
    ensures s[a..b][i..i + n] == s[a + i..a + i + n]
  {
    var x, y := s[a..b][i..i + n], s[a + i..a + i + n];
    assert |x| == |y| && forall k :: 0 <= k < n ==> x[k] == y[k];
  }

  lemma Joined(s: seq<int>, a: int, b: int, c: int)
    requires 0 <= a <= b <= c <= |s|
    ensures s[a..b] + s[b..c] == s[a..c]
  {
  }

  class HttpFileHandle {
    const file: seq<int>             // what the server holds; only range requests look at it
    const length: int
    const cached: bool               // the whole file was fetched when it was opened
    const cachedData: seq<int>
    const directIO: bool
    const readBuffer: array<int>
    var bufferAvailable: int
    var bufferIdx: int
    var fileOffset: int
    var bufferStart: int
    var bufferEnd: int

    /** The window [bufferStart, bufferEnd) of the buffer mirrors the file. */
    ghost predicate Valid()
      reads this, readBuffer
    {
      && length == |file| && readBuffer.Length == READ_BUFFER_LEN && 0 <= fileOffset
      && (cached ==> cachedData == file)
      && 0 <= bufferStart <= bufferEnd <= |file| && bufferEnd - bufferStart <= READ_BUFFER_LEN
      && readBuffer[..bufferEnd - bufferStart] == file[bufferStart..bufferEnd]
    }

    constructor (contents: seq<int>, cache: bool, direct: bool)
      ensures Valid() && file == contents && fileOffset == 0
    {
      file, length, cached, directIO := contents, |contents|, cache, direct;
      cachedData := if cache then contents else [];
      readBuffer := new int[READ_BUFFER_LEN];
      bufferAvailable, bufferIdx, fileOffset, bufferStart, bufferEnd := 0, 0, 0, 0, 0;
    }

    /** GetRangeRequest: every request names at least one byte, and no byte outside the file. */
    method GetRangeRequest(offset: int, count: int) returns (data: seq<int>)
      requires 0 <= offset && 1 <= count && offset + count <= |file|
      ensures data == file[offset..offset + count]
    {
      data := Range(file, offset, offset + count - 1);
    }

    /** The first lines of Read: a location inside the window is served from it, any other drops it. */
    method Position(location: int)
      requires Valid() && 0 <= location
      modifies this`bufferAvailable, this`bufferIdx, this`fileOffset
      ensures Valid() && fileOffset == location && Ready()
    {
      if bufferStart <= location < bufferEnd {
        fileOffset := location;
        bufferIdx := location - bufferStart;
        bufferAvailable := (bufferEnd - bufferStart) - bufferIdx;
      } else {
        bufferAvailable := 0;
        bufferIdx := 0;
        fileOffset := location;
      }
    }

    /** What is available in the buffer continues the file at the current offset. */
    ghost predicate Ready()
      reads this
    {
      0 <= bufferAvailable && 0 <= bufferIdx && (bufferAvailable > 0 ==>
        bufferStart + bufferIdx == fileOffset && bufferIdx + bufferAvailable == bufferEnd - bufferStart)
    }

    /** The next bytes come from the buffer. */
    method TakeBuffered(count: int) returns (data: seq<int>)
      requires Valid() && Ready() && 0 < count <= bufferAvailable
      modifies this`bufferAvailable, this`bufferIdx, this`fileOffset
      ensures Valid() && Ready() && old(fileOffset) + count <= |file|
      ensures data == file[old(fileOffset)..old(fileOffset) + count]
      ensures fileOffset == old(fileOffset) + count && bufferAvailable == old(bufferAvailable) - count
    {
      data := readBuffer[bufferIdx..bufferIdx + count];
      assert data == readBuffer[..bufferEnd - bufferStart][bufferIdx..bufferIdx + count];
      SliceOfSlice(file, bufferStart, bufferEnd, bufferIdx, count);
      bufferIdx := bufferIdx + count;
      bufferAvailable := bufferAvailable - count;
      fileOffset := fileOffset + count;
    }

    /** The buffer is filled at the current offset. */
    method Refill(count: int)
      requires Valid() && 1 <= count <= READ_BUFFER_LEN && fileOffset + count <= |file|
      modifies this`bufferAvailable, this`bufferIdx, this`bufferStart, this`bufferEnd, readBuffer
      ensures Valid() && Ready() && bufferAvailable == count
    {
      var data := GetRangeRequest(fileOffset, count);
      forall i | 0 <= i < count {
        readBuffer[i] := data[i];
      }
      bufferAvailable := count;
      bufferIdx := 0;
      bufferStart := fileOffset;
      bufferEnd := bufferStart + count;
      assert readBuffer[..count] == data;
    }

    /** Read at a location: from the whole-file cache, directly, or through the buffer. */
    method ReadAt(location: int, count: int) returns (out: seq<int>)
      requires Valid() && 0 <= location && 0 <= count && location + count <= |file|
      modifies this, readBuffer
      ensures Valid() && out == file[location..location + count] && fileOffset == location + count
    {
      if cached {
        fileOffset := location + count;
        return cachedData[location..location + count];
      }
      if directIO && count > 0 {
        fileOffset := location;
        out := Bypass(count);
        return;
      }
      Position(location);
      out := ReadBuffered(location, count);
    }

    lemma LengthIs()
      requires Valid() && Ready()
      ensures length == |file| && 0 <= bufferAvailable
    {
    }

    /** A long read goes past the buffer. */
    method Bypass(count: int) returns (data: seq<int>)
      requires Valid() && 1 <= count && fileOffset + count <= |file|
      modifies this`bufferAvailable, this`bufferIdx, this`fileOffset
      ensures Valid() && Ready() && fileOffset == old(fileOffset) + count && data == file[old(fileOffset)..fileOffset]
      ensures bufferAvailable == 0
    {
      data := GetRangeRequest(fileOffset, count);
      bufferAvailable := 0;
      bufferIdx := 0;
      fileOffset := fileOffset + count;
    }

    /** The loop of Read */
    method ReadBuffered(location: int, count: int) returns (out: seq<int>)
      requires Valid() && Ready() && fileOffset == location && 0 <= location && 0 <= count && location + count <= |file|
      modifies this, readBuffer
      ensures Valid() && out == file[location..location + count] && fileOffset == location + count
    {
      hide Valid, Ready;
      LengthIs();
      out := [];
      var toRead := count;
      while toRead > 0
        invariant Valid() && Ready() && 0 <= bufferAvailable && 0 <= toRead <= count
        invariant fileOffset == location + (count - toRead) && out == file[location..fileOffset]
        decreases toRead, if bufferAvailable == 0 then 1 else 0
      {
        var bufferReadLen := Min(bufferAvailable, toRead);
        if bufferReadLen > 0 {
          ghost var here := fileOffset;
          var data := TakeBuffered(bufferReadLen);
          Joined(file, location, here, fileOffset);
          out := out + data;
          toRead := toRead - bufferReadLen;
        }
        if toRead > 0 && bufferAvailable == 0 {
          var newBufferAvailable := Min(READ_BUFFER_LEN, length - fileOffset);
          if toRead > newBufferAvailable {
            Joined(file, location, fileOffset, fileOffset + toRead);
            var data := Bypass(toRead);
            out := out + data;
            toRead := 0;
            break;
          } else {
            Refill(newBufferAvailable);
          }
        }
      }
    }

    /** Read at the current offset, cut off at the end of the file. */
    method ReadNext(count: int) returns (out: seq<int>)
      requires Valid() && 0 <= count && fileOffset <= |file|
      modifies this, readBuffer
      ensures Valid() && out == file[old(fileOffset)..old(fileOffset) + Min(|file| - old(fileOffset), count)]
      ensures fileOffset == old(fileOffset) + Min(|file| - old(fileOffset), count)
    {
      var maxRead := length - fileOffset;
      out := ReadAt(fileOffset, Min(maxRead, count));
    }

    method Seek(location: int)
      requires Valid() && 0 <= location
      modifies this`fileOffset
      ensures Valid() && fileOffset == location
    {
      fileOffset := location;
    }

    /** Any run of operations inside the file returns what the file itself would give. */
    method Execute(ops: seq<Op>) returns (results: seq<seq<int>>)
      requires Valid() && InBounds(file, fileOffset, ops)
      modifies this, readBuffer
      ensures Valid() && results == PlainResults(file, old(fileOffset), ops)
      decreases |ops|
    {
      if ops == [] {
        return [];
      }
      ghost var offset := fileOffset;
      var first: seq<int>;
      match ops[0] {
        case Seek(l) =>
          Seek(l);
          first := [];
        case ReadAt(l, n) =>
          first := ReadAt(l, n);
        case ReadNext(n) =>
          first := ReadNext(n);
      }
      assert fileOffset == PlainOffset(file, offset, ops[0]);
      var rest := Execute(ops[1..]);
      results := [first] + rest;
    }
  }
}
