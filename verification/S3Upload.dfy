/** Writing a file to S3 as a multipart upload: parts are cut from the stream of written bytes, uploaded in the
    background in any order, and listed in the end. */
module S3Upload {
  import opened Regions
  import HttpRead

  function Concat(parts: seq<seq<int>>): seq<int> {
    if parts == [] then [] else parts[0] + Concat(parts[1..])
  }

  lemma {:induction false} ConcatSnoc(parts: seq<seq<int>>, last: seq<int>)
    ensures Concat(parts + [last]) == Concat(parts) + last
  {
    if parts == [] {
      assert parts + [last] == [last] && [last][1..] == [] && last + [] == last;
    } else {
      ConcatSnoc(parts[1..], last);
      assert (parts + [last])[1..] == parts[1..] + [last];
      assert parts[0] + (Concat(parts[1..]) + last) == (parts[0] + Concat(parts[1..])) + last;
    }
  }

  /** Every part has the given size. */
  ghost predicate AllFull(parts: seq<seq<int>>, size: int) {
    forall i :: 0 <= i < |parts| ==> |parts[i]| == size
  }

  /** Every part but the last has the given size; the last may be shorter, but not empty. */
  ghost predicate Sized(parts: seq<seq<int>>, size: int) {
    AllFull(if parts == [] then [] else parts[..|parts| - 1], size)
        && (parts != [] ==> 0 < |parts[|parts| - 1]| <= size)
  }

  /** An upload that is under way: its part number and its bytes. */
  datatype Upload = Upload(part: int, bytes: seq<int>)

  ghost predicate UnderWay(inProgress: seq<Upload>, i: int) {
    exists k :: 0 <= k < |inProgress| && inProgress[k].part == i
  }

  /** Every cut part is uploaded or under way, with its own bytes, and the count of uploaded parts is right. */
  ghost predicate Accounted(parts: seq<seq<int>>, inProgress: seq<Upload>, etags: map<int, seq<int>>, uploaded: int) {
    && (forall k :: 0 <= k < |inProgress| ==>
        0 <= inProgress[k].part < |parts| && inProgress[k].bytes == parts[inProgress[k].part])
    && (forall i :: i in etags ==> 0 <= i < |parts| && etags[i] == parts[i])
    && (forall i :: 0 <= i < |parts| ==> i in etags || UnderWay(inProgress, i))
    && uploaded + |inProgress| == |parts|
  }

  lemma DoneAccounted(parts: seq<seq<int>>, inProgress: seq<Upload>, etags: map<int, seq<int>>, uploaded: int, k: int)
    requires Accounted(parts, inProgress, etags, uploaded) && 0 <= k < |inProgress|
    ensures Accounted(parts, inProgress[..k] + inProgress[k + 1..], etags[inProgress[k].part := inProgress[k].bytes],
        uploaded + 1)
  {
    var rest := inProgress[..k] + inProgress[k + 1..];
    forall i | 0 <= i < |parts| && i !in etags && i != inProgress[k].part
      ensures UnderWay(rest, i)
    {
      assert UnderWay(inProgress, i);
      var j :| 0 <= j < |inProgress| && inProgress[j].part == i;
      assert rest[if j < k then j else j - 1] == inProgress[j];
    }
  }

  lemma CutAccounted(parts: seq<seq<int>>, inProgress: seq<Upload>, etags: map<int, seq<int>>, uploaded: int,
                     bytes: seq<int>)
    requires Accounted(parts, inProgress, etags, uploaded)
    ensures Accounted(parts + [bytes], inProgress + [Upload(|parts|, bytes)], etags, uploaded)
  {
    var more := inProgress + [Upload(|parts|, bytes)];
    forall i | 0 <= i <= |parts| && i !in etags
      ensures UnderWay(more, i)
    {
      if i == |parts| {
        assert more[|inProgress|].part == i;
      } else {
        assert UnderWay(inProgress, i);
        var j :| 0 <= j < |inProgress| && inProgress[j].part == i;
        assert more[j] == inProgress[j];
      }
    }
  }

  const PART_NUMBERS := 65536     // part numbers are kept in 16 bits

  class S3FileHandle {
    const partSize: int
    var fileOffset: int
    var writeBuffers: map<int, seq<int>>     // the filled part of each buffer, by part number
    var inProgress: seq<Upload>              // the uploads under way
    var partEtags: map<int, seq<int>>        // the uploaded parts; a part's tag stands for its bytes
    var partsUploaded: int
    ghost var parts: seq<seq<int>>           // the parts cut so far
    ghost var tail: seq<int>                 // what was written since
    ghost var written: seq<int>              // all bytes written

    /** Every cut part is uploaded or under way, and unless flushed the bytes since the last cut are in the one write
        buffer. */
    ghost predicate Valid()
      reads this
    {
      && 1 <= partSize && |parts| <= PART_NUMBERS && Sized(parts, partSize)
      && written == Concat(parts) + tail
      && Accounted(parts, inProgress, partEtags, partsUploaded)
    }

    /** The state while the file is being written. */
    ghost predicate Open()
      reads this
    {
      && Valid() && AllFull(parts, partSize) && |tail| < partSize && fileOffset == Start(|parts|, partSize) + |tail|
      && writeBuffers == if tail == [] then map[] else map[|parts| := tail]
    }

    constructor (size: int)
      requires 1 <= size
      ensures Open() && written == [] && partSize == size && fileOffset == 0
    {
      partSize := size;
      fileOffset, writeBuffers, inProgress, partEtags, partsUploaded := 0, map[], [], map[], 0;
      parts, tail, written := [], [], [];
    }

    /** An upload finishes, whichever it is. */
    method UploadDone(k: int)
      requires Valid() && 0 <= k < |inProgress|
      modifies this`inProgress, this`partEtags, this`partsUploaded
      ensures Valid() && |inProgress| == |old(inProgress)| - 1 && (old(Open()) ==> Open())
    {
      hide Accounted, Sized, AllFull, Concat;
      DoneAccounted(parts, inProgress, partEtags, partsUploaded, k);
      partEtags := partEtags[inProgress[k].part := inProgress[k].bytes];
      partsUploaded := partsUploaded + 1;
      inProgress := inProgress[..k] + inProgress[k + 1..];
    }

    /** FlushBuffer: the buffer of the next part goes on its way. */
    method FlushBuffer(part: int)
      requires Valid() && part in writeBuffers && part == |parts| && writeBuffers[part] == tail && tail != []
      requires part < PART_NUMBERS
      requires AllFull(parts, partSize) && |tail| <= partSize
      modifies this`writeBuffers, this`inProgress, this`parts, this`tail
      ensures Valid() && parts == old(parts) + [old(tail)] && tail == [] && writeBuffers == old(writeBuffers) - {part}
      ensures |old(tail)| == partSize ==> AllFull(parts, partSize)
    {
      hide Accounted, Concat;
      var bytes := writeBuffers[part];
      writeBuffers := writeBuffers - {part};
      ConcatSnoc(parts, tail);
      CutAccounted(parts, inProgress, partEtags, partsUploaded, bytes);
      inProgress := inProgress + [Upload(part, bytes)];
      assert (parts + [tail])[..|parts|] == parts;
      parts := parts + [tail];
      tail := [];
    }

    /** GetBuffer: the buffer of a part, made if there is none; what it holds so far. */
    method GetBuffer(part: int) returns (bytes: seq<int>)
      modifies this`writeBuffers
      ensures bytes == if part in old(writeBuffers) then old(writeBuffers)[part] else []
      ensures writeBuffers == if part in old(writeBuffers) then old(writeBuffers) else old(writeBuffers)[part := []]
    {
      if part !in writeBuffers {
        writeBuffers := writeBuffers[part := []];
      }
      bytes := writeBuffers[part];
    }

    /** The bytes go into the current part's buffer. */
    method PutInBuffer(part: int, bytes: seq<int>, idx: int, chunk: seq<int>)
      requires Valid() && bytes == tail && idx == |tail| && (writeBuffers - {part}) == map[]
      modifies this`writeBuffers, this`tail, this`written
      ensures Valid() && tail == old(tail) + chunk && written == old(written) + chunk
      ensures writeBuffers == map[part := tail]
    {
      hide Sized, Accounted;
      writeBuffers := writeBuffers[part := bytes[..idx] + chunk];
      assert bytes[..idx] == tail;
      tail := tail + chunk;
      written := written + chunk;
      assert (Concat(parts) + old(tail)) + chunk == Concat(parts) + (old(tail) + chunk);
      assert old(writeBuffers)[part := tail] == map[part := tail];
    }

    /** One round of Write's loop: as many bytes as the current part has room for. */
    method WriteSome(data: seq<int>) returns (count: int)
      requires Open() && data != [] && |parts| < PART_NUMBERS
      modifies this
      ensures Open() && 1 <= count <= |data| && written == old(written) + data[..count]
      ensures fileOffset == old(fileOffset) + count
    {
      hide Start, Concat, Sized, AllFull, Accounted;
      var part := fileOffset / partSize;
      StartsApart(|parts|, |parts| + 1, partSize);
      RegionOf(|parts|, fileOffset, partSize);
      var bytes := GetBuffer(part);
      var idx := fileOffset - Start(part, partSize);
      count := HttpRead.Min(|data|, partSize - idx);
      PutInBuffer(part, bytes, idx, data[..count]);
      fileOffset := fileOffset + count;
      if |writeBuffers[part]| >= partSize {
        StartNext(|parts|, partSize);
        FlushBuffer(part);
        assert writeBuffers == map[];
      }
    }

    /** Write at a location: only right behind the last byte; anything else is an error that writes nothing. */
    method Write(data: seq<int>, location: int) returns (ok: bool)
      requires Open() && fileOffset + |data| <= Start(PART_NUMBERS, partSize)
      modifies this
      ensures Open() && (ok <==> data == [] || location == old(fileOffset))
      ensures written == (if ok then old(written) + data else old(written))
      ensures fileOffset == old(fileOffset) + |written| - |old(written)|
    {
      hide Start, Valid;
      var bytesWritten := 0;
      while bytesWritten < |data|
        invariant Open() && 0 <= bytesWritten <= |data| && fileOffset == old(fileOffset) + bytesWritten
        invariant written == old(written) + data[..bytesWritten] && (bytesWritten > 0 ==> location == old(fileOffset))
      {
        if location + bytesWritten != fileOffset {
          return false;
        }
        RoomLeft(|parts|, |tail|);
        var count := WriteSome(data[bytesWritten..]);
        assert data[..bytesWritten] + data[bytesWritten..][..count] == data[..bytesWritten + count];
        bytesWritten := bytesWritten + count;
      }
      assert data[..bytesWritten] == data;
      return true;
    }

    lemma RoomLeft(k: int, t: int)
      requires 1 <= partSize && 0 <= k && 0 <= t && Start(k, partSize) + t < Start(PART_NUMBERS, partSize)
      ensures k < PART_NUMBERS
    {
    }

    /** FlushAllBuffers, up to the wait for the uploads under way. */
    method FlushAllBuffers()
      requires Open() && fileOffset <= Start(PART_NUMBERS, partSize)
      modifies this
      ensures Valid() && tail == [] && written == old(written) && writeBuffers == map[]
    {
      hide Start;
      if tail != [] {
        RoomLeft(|parts|, |tail| - 1);
      }
      StartsApart(|parts|, |parts| + 1, partSize);
      RegionOf(|parts|, fileOffset, partSize);
      ghost var last := |parts|;
      var part := 0;
      while part <= fileOffset / partSize
        invariant 0 <= part <= last + 1 && fileOffset == old(fileOffset) && Valid() && written == old(written)
        invariant writeBuffers == if tail == [] then map[] else map[last := tail]
        invariant tail != [] ==>
            |parts| == last && part <= last < PART_NUMBERS && AllFull(parts, partSize) && |tail| < partSize
      {
        if part in writeBuffers {
          FlushBuffer(part);
          assert writeBuffers == map[];
        }
        part := part + 1;
      }
    }

    /** FinalizeMultipartUpload, once no upload is under way: the list names the parts 0, 1, ... without a gap, and the
        parts put together are the bytes written. */
    method FinalizeMultipartUpload() returns (list: seq<seq<int>>)
      requires Valid() && tail == [] && inProgress == []
      ensures list == parts && Concat(list) == written && Sized(list, partSize)
    {
      list := [];
      var i := 0;
      while i < partsUploaded
        invariant 0 <= i <= |parts| && list == parts[..i]
      {
        assert !UnderWay(inProgress, i);
        list := list + [partEtags[i]];
        i := i + 1;
      }
    }
  }

  // ----- whole uploads ------------------------------------------------------------------------------------------

  /** What happens while a file is written: more bytes, or one of the uploads under way finishes. */
  datatype Step = More(data: seq<int>) | Finish(upload: nat)

  /** All bytes of the steps, in order. */
  function Bytes(steps: seq<Step>): seq<int> {
    if steps == [] then [] else (if steps[0].More? then steps[0].data else []) + Bytes(steps[1..])
  }

  lemma {:induction false} BytesSnoc(steps: seq<Step>, last: Step)
    ensures Bytes(steps + [last]) == Bytes(steps) + if last.More? then last.data else []
  {
    var b := if last.More? then last.data else [];
    if steps == [] {
      assert steps + [last] == [last] && [last][1..] == [];
    } else {
      BytesSnoc(steps[1..], last);
      assert (steps + [last])[1..] == steps[1..] + [last];
      var a := if steps[0].More? then steps[0].data else [];
      assert a + (Bytes(steps[1..]) + b) == (a + Bytes(steps[1..])) + b;
    }
  }

  lemma {:induction false} BytesShorter(steps: seq<Step>, k: int)
    requires 0 <= k <= |steps|
    ensures |Bytes(steps[..k])| <= |Bytes(steps)|
    decreases |steps| - k
  {
    if k < |steps| {
      BytesSnoc(steps[..k], steps[k]);
      assert steps[..k + 1] == steps[..k] + [steps[k]];
      BytesShorter(steps, k + 1);
    } else {
      assert steps[..k] == steps;
    }
  }

  /** Any sequential writes, with uploads finishing in any order meanwhile (steps) and at the end (rest): the completed
      upload is the list of all parts, and its contents are all bytes written. */
  method UploadFile(size: int, steps: seq<Step>, rest: seq<nat>) returns (list: seq<seq<int>>)
    requires 1 <= size && |Bytes(steps)| <= Start(PART_NUMBERS, size)
    ensures Concat(list) == Bytes(steps) && Sized(list, size)
  {
    hide Start, Concat, Sized, AllFull, Accounted;
    var handle := new S3FileHandle(size);
    var k := 0;
    while k < |steps|
      invariant 0 <= k <= |steps| && handle.Open() && handle.partSize == size
      invariant handle.written == Bytes(steps[..k]) && handle.fileOffset == |handle.written|
    {
      BytesSnoc(steps[..k], steps[k]);
      assert steps[..k + 1] == steps[..k] + [steps[k]];
      BytesShorter(steps, k + 1);
      match steps[k] {
        case More(data) =>
          var ok := handle.Write(data, handle.fileOffset);
        case Finish(u) =>
          if u < |handle.inProgress| {
            handle.UploadDone(u);
          }
      }
      k := k + 1;
    }
    assert steps[..k] == steps;
    handle.FlushAllBuffers();
    var w := 0;
    while |handle.inProgress| > 0
      invariant handle.Valid() && handle.partSize == size && handle.tail == [] && handle.written == Bytes(steps)
    {
      if w < |rest| && rest[w] < |handle.inProgress| {
        handle.UploadDone(rest[w]);
      } else {
        handle.UploadDone(0);
      }
      w := w + 1;
    }
    list := handle.FinalizeMultipartUpload();
  }
}
