/** The append-only TLV store of utils/tlv/tlv.c over the RAM back end. */
module TlvStore {
  import opened Bits
  import opened Wrappers

  const DATA_ALIGN := 4
  const PADDING_BYTE: uint8 := 0xFF
  const BLANK_TYPE: uint16 := 0xFFFF

  datatype Status = Success | EInval | ENoData | ENoMem

  datatype Header = Header(typ: uint16, padding: uint8, dataSize: uint8)
  {
    /** Offset of the next header relative to this one. */
    function Span(): (n: nat)
      ensures 4 <= n <= 514
    {
      4 + dataSize + padding
    }
  }

  function BytesToHeader(d: seq<uint8>): Header
    requires |d| == 4
  {
    var high: int := d[0];
    Header(256 * high + d[1], d[2], d[3])
  }

  function HeaderToBytes(h: Header): (d: seq<uint8>)
    ensures |d| == 4
  {
    [h.typ / 256, h.typ % 256, h.padding, h.dataSize]
  }

  lemma HeaderRoundTrip(h: Header)
    ensures BytesToHeader(HeaderToBytes(h)) == h
  {
  }

  lemma HeaderBytesRoundTrip(d: seq<uint8>)
    requires |d| == 4
    ensures HeaderToBytes(BytesToHeader(d)) == d
  {
  }

  function Padding(n: nat): (p: uint8)
    ensures p < DATA_ALIGN && (n + p) % DATA_ALIGN == 0
  {
    (DATA_ALIGN - n % DATA_ALIGN) % DATA_ALIGN
  }

  function HeaderAt(s: seq<uint8>, offset: nat): Header
    requires offset + 4 <= |s|
  {
    BytesToHeader(s[offset..offset + 4])
  }

  // ------------------------------------------------------------- the two walks

  /** Where the reader's walk meets the first header of type `t`. */
  function Find(s: seq<uint8>, offset: nat, end: nat, t: uint16): (r: Option<nat>)
    requires end <= |s|
    ensures r.Some? ==> offset <= r.value && r.value + 4 <= end && HeaderAt(s, r.value).typ == t
    decreases end - offset
  {
    if offset + 4 > end then None
    else
      var h := HeaderAt(s, offset);
      if h.typ == t then Some(offset) else Find(s, offset + h.Span(), end, t)
  }

  /** How many bytes past the end the writer's walk reads: it examines a header wherever it stands up to and
      including the end. */
  function PastEnd(s: seq<uint8>, offset: nat, end: nat): (n: nat)
    requires end <= |s|
    ensures n <= 4
    decreases end - offset
  {
    if offset > end then 0
    else if offset + 4 > end then offset + 4 - end
    else
      var h := HeaderAt(s, offset);
      if h.typ == BLANK_TYPE || h.dataSize == 0 then 0 else PastEnd(s, offset + h.Span(), end)
  }

  /** The storage reaches as far as the writer's walk reads. */
  predicate Walkable(s: seq<uint8>, offset: nat, end: nat) {
    end <= |s| && end + PastEnd(s, offset, end) <= |s|
  }

  /** Where the writer's walk stops: at a header that marks free space, or at the end. */
  function FreeOffset(s: seq<uint8>, offset: nat, end: nat): (r: nat)
    requires Walkable(s, offset, end)
    ensures r <= end
    decreases end - offset
  {
    if offset > end then end
    else
      var h := HeaderAt(s, offset);
      if h.typ == BLANK_TYPE || h.dataSize == 0 then offset else FreeOffset(s, offset + h.Span(), end)
  }

  lemma PastEndStep(s: seq<uint8>, offset: nat, end: nat)
    requires Walkable(s, offset, end) && offset <= end
    ensures offset + 4 > end ==> PastEnd(s, offset, end) == offset + 4 - end
    ensures offset + 4 <= end + PastEnd(s, offset, end) <= |s|
  {
  }

  /** One header further, or the end of the walk. */
  lemma WalkStep(s: seq<uint8>, offset: nat, end: nat)
    requires Walkable(s, offset, end) && offset <= end && offset + 4 <= |s|
    ensures
      var h := HeaderAt(s, offset);
      var next := offset + h.Span();
      if h.typ == BLANK_TYPE || h.dataSize == 0 then
        FreeOffset(s, offset, end) == offset && (offset + 4 <= end ==> PastEnd(s, offset, end) == 0)
      else
        && Walkable(s, next, end) && FreeOffset(s, offset, end) == FreeOffset(s, next, end)
        && (offset + 4 <= end ==> PastEnd(s, offset, end) == PastEnd(s, next, end))
  {
  }

  lemma WalkEnds(s: seq<uint8>, offset: nat, end: nat)
    requires end <= |s| && offset > end
    ensures PastEnd(s, offset, end) == 0 && FreeOffset(s, offset, end) == end
  {
  }

  function LookupResult(s: seq<uint8>, start: nat, end: nat, t: uint16): (Status, Option<Header>)
    requires end <= |s|
  {
    match Find(s, start, end, t)
    case None => (ENoData, None)
    case Some(at) => (Success, Some(HeaderAt(s, at)))
  }

  function ReadResult(s: seq<uint8>, start: nat, end: nat, t: uint16, n: nat): (Status, seq<uint8>)
    requires end <= |s|
  {
    match Find(s, start, end, t)
    case None => (ENoData, [])
    case Some(at) =>
      var h := HeaderAt(s, at);
      if n > h.dataSize + h.padding then (ENoMem, [])
      else if at + 4 + n > end then (ENoData, [])
      else (Success, s[at + 4..at + 4 + n])
  }

  /** A header with its eight-bit size field, the data, and padding up to the next word. */
  function Record(t: uint16, data: seq<uint8>): (r: seq<uint8>)
    ensures |r| == 4 + |data| + Padding(|data|)
  {
    HeaderToBytes(Header(t, Padding(|data|), |data| % 256)) + data + seq(Padding(|data|), _ => PADDING_BYTE)
  }

  /** Byte by byte: type, most significant byte first, padding, size modulo 256, then the data, and 0xFF up to a
      multiple of four. */
  lemma RecordLayout(t: uint16, data: seq<uint8>)
    ensures
      var r, n, pad := Record(t, data), |data|, (4 - |data| % 4) % 4;
      var high: int, low: int := r[0], r[1];
      && |r| == 4 + n + pad && |r| % 4 == 0
      && 256 * high + low == t && r[2] == pad && r[3] == n % 256
      && r[4..4 + n] == data && forall i :: 4 + n <= i < |r| ==> r[i] == 0xFF
  {
    var head, tail := HeaderToBytes(Header(t, Padding(|data|), |data| % 256)), seq(Padding(|data|), _ => PADDING_BYTE);
    Layers(head, data, tail);
    assert head[0] == t / 256 && head[1] == t % 256;
  }

  /** The parts of a concatenation of three. */
  lemma Layers(a: seq<uint8>, b: seq<uint8>, c: seq<uint8>)
    ensures
      var r := a + b + c;
      && |r| == |a| + |b| + |c| && r[|a|..|a| + |b|] == b
      && (forall i :: 0 <= i < |a| ==> r[i] == a[i])
      && (forall i :: |a| + |b| <= i < |r| ==> r[i] == c[i - |a| - |b|])
  {
  }

  /** Success, and the data with it, exactly if the first header of the type is found, is not shorter than asked
      for, and its data ends inside the region; the two errors exactly as the reader's limits are exceeded. */
  lemma ReadExactly(s: seq<uint8>, start: nat, end: nat, t: uint16, n: nat)
    requires end <= |s|
    ensures
      var (status, data) := ReadResult(s, start, end, t, n);
      match Find(s, start, end, t)
      case None => status == ENoData
      case Some(at) =>
        var high: int, low: int, padding: int, dataSize: int := s[at], s[at + 1], s[at + 2], s[at + 3];
        var size := padding + dataSize;
        && 256 * high + low == t
        && (status == ENoMem <==> n > size)
        && (status == ENoData <==> n <= size && at + 4 + n > end)
        && (status == Success <==> n <= size && at + 4 + n <= end)
        && (status == Success ==> data == s[at + 4..at + 4 + n])
        && (status != Success ==> data == [])
  {
  }

  /** The capacity test of tlv_write, whose sum is taken in 32 bits. */
  predicate NoRoom(at: uint32, n: nat, end: uint32) {
    end < (at + 4 + n + Padding(n)) % 0x1_0000_0000
  }

  /** The test refuses exactly what does not fit, unless the sum wraps; then it refuses nothing. */
  lemma NoRoomExactly(at: uint32, n: nat, end: uint32)
    requires n < 0x1_0000 && at <= end && end <= 0x1_0000_0000 - 515
    ensures NoRoom(at, n, end) <==> end < at + 4 + n + Padding(n) < 0x1_0000_0000
  {
  }

  /** `s` with `r` over the bytes from `at`. */
  function Overwrite(s: seq<uint8>, at: nat, r: seq<uint8>): (s': seq<uint8>)
    requires at + |r| <= |s|
    ensures |s'| == |s|
  {
    s[..at] + r + s[at + |r|..]
  }

  function WriteResult(s: seq<uint8>, start: nat, end: nat, t: uint16, data: seq<uint8>): (r: (Status, seq<uint8>))
    requires Walkable(s, start, end)
    ensures |r.1| == |s|
  {
    var at := FreeOffset(s, start, end);
    if end < at + |Record(t, data)| then (ENoMem, s)
    else (Success, Overwrite(s, at, Record(t, data)))
  }

  /** What has been done to the storage. */
  datatype Access = Program(from: nat, n: nat) | EraseSpan(from: nat, n: nat)

  /** The `k` words from `at` on, programmed one after another. */
  function Words(at: nat, k: nat): (w: seq<Access>)
    ensures |w| == k
  {
    if k == 0 then [] else Words(at, k - 1) + [Program(at + 4 * (k - 1), 4)]
  }

  lemma {:induction false} WordsConcat(at: nat, j: nat, k: nat)
    ensures Words(at, j) + Words(at + 4 * j, k) == Words(at, j + k)
  {
    if k == 0 {
      assert Words(at, j) + [] == Words(at, j);
    } else {
      WordsConcat(at, j, k - 1);
      ConcatAssoc(Words(at, j), Words(at + 4 * j, k - 1), [Program(at + 4 * (j + k - 1), 4)]);
    }
  }

  lemma NextWord(at: nat, k: nat, before: seq<Access>)
    ensures before + Words(at, k) + [Program(at + 4 * k, 4)] == before + Words(at, k + 1)
  {
    ConcatAssoc(before, Words(at, k), [Program(at + 4 * k, 4)]);
  }

  lemma FirstWord(at: nat, k: nat, before: seq<Access>)
    requires k >= 1
    ensures before + [Program(at, 4)] + Words(at + 4, k - 1) == before + Words(at, k)
  {
    WordsConcat(at, 1, k - 1);
    assert Words(at, 0) + [Program(at, 4)] == [Program(at, 4)];
    ConcatAssoc(before, [Program(at, 4)], Words(at + 4, k - 1));
  }

  /** What one write programs: the words of its record, if it is accepted. */
  function WriteAccesses(s: seq<uint8>, start: nat, end: nat, t: uint16, data: seq<uint8>): seq<Access>
    requires Walkable(s, start, end)
  {
    if WriteResult(s, start, end, t, data).0 == Success then Words(FreeOffset(s, start, end), |Record(t, data)| / 4) else []
  }

  // ------------------------------------------------------------------ the code

  class Tlv {
    const storage: array<uint8>
    ghost var accesses: seq<Access>
    const startOffset: uint32
    const endOffset: uint32
    const markerSize: uint32
    const hasRead: bool
    const hasWrite: bool

    constructor (storage: array<uint8>, startOffset: uint32, endOffset: uint32, markerSize: uint32, hasRead: bool, hasWrite: bool)
      ensures this.storage == storage && this.startOffset == startOffset && this.endOffset == endOffset
      ensures this.markerSize == markerSize && this.hasRead == hasRead && this.hasWrite == hasWrite
      ensures accesses == []
    {
      this.storage, this.startOffset, this.endOffset := storage, startOffset, endOffset;
      this.markerSize, this.hasRead, this.hasWrite := markerSize, hasRead, hasWrite;
      accesses := [];
    }

    /** First offset after the start marker. */
    ghost function First(): nat {
      startOffset + markerSize
    }

    /** The region is inside the storage, and offsets near it fit in 32 bits. */
    ghost predicate Valid() {
      endOffset <= storage.Length && endOffset <= 0x1_0000_0000 - 515 && First() <= 0x1_0000_0000 - 515
    }

    /** tlv_storage_ram_read; the caller states the bounds it reads within. */
    method Read(offset: uint32, n: nat, ghost lo: nat, ghost hi: nat) returns (data: seq<uint8>)
      requires lo <= offset && offset + n <= hi <= storage.Length
      ensures data == storage[offset..offset + n]
    {
      data := storage[offset..offset + n];
    }

    /** tlv_storage_ram_write */
    method Write(offset: uint32, data: seq<uint8>)
      requires offset + |data| <= storage.Length
      modifies storage, this`accesses
      ensures storage[..] == Overwrite(old(storage[..]), offset, data)
      ensures accesses == old(accesses) + [Program(offset, |data|)]
    {
      accesses := accesses + [Program(offset, |data|)];
      forall i | 0 <= i < |data| { storage[offset + i] := data[i]; }
    }

    /** tlv_storage_ram_erase */
    method Erase(offset: uint32, size: nat)
      requires offset + size <= storage.Length
      modifies storage, this`accesses
      ensures storage[..] == Overwrite(old(storage[..]), offset, seq(size, _ => 0))
      ensures accesses == old(accesses) + [EraseSpan(offset, size)]
    {
      accesses := accesses + [EraseSpan(offset, size)];
      forall i | 0 <= i < size { storage[offset + i] := 0; }
    }

    /** The walk that tlv_lookup and tlv_read share: every read stays inside the region. */
    method FindHeader(t: uint16) returns (found: bool, at: uint32, h: Header)
      requires Valid()
      ensures Find(storage[..], First(), endOffset, t) == if found then Some(at) else None
      ensures found ==> First() <= at && at + 4 <= endOffset && h == HeaderAt(storage[..], at)
    {
      ghost var s := storage[..];
      at, h := startOffset + markerSize, Header(0, 0, 0);
      while at + 4 <= endOffset
        invariant First() <= at <= 0x1_0000_0000 - 5
        invariant Find(s, First(), endOffset, t) == Find(s, at, endOffset, t)
        decreases endOffset - at
      {
        var raw := Read(at, 4, startOffset, endOffset);
        h := BytesToHeader(raw);
        assert h == HeaderAt(s, at) by { assert raw == s[at..at + 4]; }
        if h.typ == t {
          return true, at, h;
        }
        at := at + 4;
        at := at + (h.dataSize + h.padding);
      }
      return false, at, h;
    }

    method Lookup(t: uint16) returns (status: Status, header: Option<Header>)
      requires Valid()
      ensures !hasRead ==> status == EInval && header == None
      ensures hasRead ==> (status, header) == LookupResult(storage[..], First(), endOffset, t)
    {
      if !hasRead {
        return EInval, None;
      }
      var found, at, h := FindHeader(t);
      if found {
        return Success, Some(h);
      }
      return ENoData, None;
    }

    method ReadValue(t: uint16, dataSize: uint16) returns (status: Status, data: seq<uint8>)
      requires Valid()
      ensures !hasRead ==> status == EInval && data == []
      ensures hasRead ==> (status, data) == ReadResult(storage[..], First(), endOffset, t, dataSize)
    {
      if !hasRead {
        return EInval, [];
      }
      var found, at, h := FindHeader(t);
      if !found {
        return ENoData, [];
      }
      var offset: uint32 := at + 4;
      if dataSize > h.dataSize + h.padding {
        return ENoMem, [];
      }
      if offset + dataSize > endOffset {
        return ENoData, [];
      }
      data := Read(offset, dataSize, startOffset, endOffset);
      assert data == storage[..][offset..offset + dataSize];
      return Success, data;
    }

    /** `reach` is where the furthest read of the walk ends: past the region exactly as far as PastEnd says. */
    method GetNextFreeOffset() returns (r: uint32, ghost reach: nat)
      requires Valid() && (hasRead ==> Walkable(storage[..], First(), endOffset))
      ensures !hasRead ==> r == endOffset && reach == 0
      ensures hasRead ==> r == FreeOffset(storage[..], First(), endOffset)
      ensures hasRead ==> if reach > endOffset then reach == endOffset + PastEnd(storage[..], First(), endOffset)
                          else PastEnd(storage[..], First(), endOffset) == 0
    {
      hide FreeOffset, PastEnd;
      reach := 0;
      if !hasRead {
        return endOffset, reach;
      }
      ghost var s := storage[..];
      var offset: uint32 := startOffset + markerSize;
      while offset <= endOffset
        invariant First() <= offset && Walkable(s, offset, endOffset)
        invariant FreeOffset(s, First(), endOffset) == FreeOffset(s, offset, endOffset)
        invariant if reach > endOffset then offset > endOffset && reach == endOffset + PastEnd(s, First(), endOffset)
                  else PastEnd(s, First(), endOffset) == PastEnd(s, offset, endOffset)
        decreases endOffset - offset
      {
        PastEndStep(s, offset, endOffset);
        var raw := Read(offset, 4, startOffset, endOffset + PastEnd(s, offset, endOffset));
        reach := if reach < offset + 4 then offset + 4 else reach;
        var h := BytesToHeader(raw);
        assert raw == s[offset..offset + 4];
        WalkStep(s, offset, endOffset);
        if h.typ == BLANK_TYPE || h.dataSize == 0 {
          return offset, reach;
        }
        offset := offset + 4;
        offset := offset + (h.dataSize + h.padding);
      }
      WalkEnds(s, offset, endOffset);
      return endOffset, reach;
    }

    method WriteValue(t: uint16, data: seq<uint8>) returns (status: Status)
      requires Valid() && |data| < 0x1_0000
      requires hasRead && hasWrite ==> Walkable(storage[..], First(), endOffset)
      requires hasRead && hasWrite ==> FreeOffset(storage[..], First(), endOffset) + |Record(t, data)| < 0x1_0000_0000
      modifies storage, this`accesses
      ensures !hasRead || !hasWrite ==> status == EInval && storage[..] == old(storage[..]) && accesses == old(accesses)
      ensures hasRead && hasWrite ==>
        && (status, storage[..]) == WriteResult(old(storage[..]), First(), endOffset, t, data)
        && accesses == old(accesses) + WriteAccesses(old(storage[..]), First(), endOffset, t, data)
    {
      if !hasRead || !hasWrite {
        return EInval;
      }
      var nextFreeOffset, _ := GetNextFreeOffset();
      NoRoomExactly(nextFreeOffset, |data|, endOffset);
      if NoRoom(nextFreeOffset, |data|, endOffset) {
        return ENoMem;
      }
      ghost var before := storage[..];
      var raw := HeaderToBytes(Header(t, Padding(|data|), |data| % 256));
      assert Record(t, data)[..4] == raw;
      Write(nextFreeOffset, raw);
      WriteChunks(nextFreeOffset, data, before, t);
      FirstWord(nextFreeOffset, |Record(t, data)| / 4, old(accesses));
      return Success;
    }

    /** The data, four bytes at a time, after the header at `at`. */
    method WriteChunks(at: uint32, data: seq<uint8>, ghost before: seq<uint8>, ghost t: uint16)
      requires at + |Record(t, data)| <= storage.Length == |before|
      requires at + |Record(t, data)| < 0x1_0000_0000
      requires storage[..] == Partial(before, at, t, data, 4)
      modifies storage, this`accesses
      ensures storage[..] == Overwrite(before, at, Record(t, data))
      ensures accesses == old(accesses) + Words(at + 4, |Record(t, data)| / 4 - 1)
    {
      hide Partial, Chunk, Record, Overwrite, Padding;
      var nextFreeOffset := at + 4;
      var dataWritten := 0;
      while dataWritten < |data|
        invariant dataWritten % 4 == 0 && 4 + dataWritten <= |Record(t, data)| && nextFreeOffset == at + 4 + dataWritten
        invariant storage[..] == Partial(before, at, t, data, 4 + dataWritten)
        invariant accesses == old(accesses) + Words(at + 4, dataWritten / 4)
      {
        AppendChunk(before, at, t, data, dataWritten);
        var chunk := Chunk(data, dataWritten);
        NextWord(at + 4, dataWritten / 4, old(accesses));
        Write(nextFreeOffset, chunk);
        nextFreeOffset := nextFreeOffset + 4;
        dataWritten := dataWritten + 4;
      }
      PartialDone(before, at, t, data);
    }

    method ReadStartMarker(dataSize: uint8) returns (status: Status, data: seq<uint8>)
      requires Valid() && First() <= storage.Length
      ensures !hasRead ==> status == EInval
      ensures hasRead && dataSize != markerSize ==> status == ENoMem
      ensures hasRead && dataSize == markerSize ==> status == Success && data == storage[startOffset..First()]
    {
      if !hasRead {
        return EInval, [];
      }
      if dataSize != markerSize {
        return ENoMem, [];
      }
      data := Read(startOffset, dataSize, startOffset, startOffset + markerSize);
      return Success, data;
    }

    method WriteStartMarker(data: seq<uint8>) returns (status: Status)
      requires Valid() && First() <= storage.Length && |data| < 256
      modifies storage, this`accesses
      ensures !hasWrite ==> status == EInval
      ensures hasWrite && |data| != markerSize ==> status == ENoMem
      ensures status == Success <==> hasWrite && |data| == markerSize
      ensures storage[..] == if status == Success then Overwrite(old(storage[..]), startOffset, data) else old(storage[..])
      ensures accesses == old(accesses) + if status == Success then [Program(startOffset, |data|)] else []
    {
      if !hasWrite {
        return EInval;
      }
      if |data| != markerSize {
        return ENoMem;
      }
      Write(startOffset, data);
      return Success;
    }
  }

  /** The four-byte write buffer: padding bytes with the next data bytes over them. */
  function Chunk(data: seq<uint8>, from: nat): (c: seq<uint8>)
    requires from < |data|
    ensures |c| == DATA_ALIGN
  {
    var n := if |data| - from < DATA_ALIGN then |data| - from else DATA_ALIGN;
    data[from..from + n] + seq(DATA_ALIGN - n, _ => PADDING_BYTE)
  }

  lemma ChunkOfRecord(t: uint16, data: seq<uint8>, from: nat)
    requires from < |data| && from % 4 == 0
    ensures from + 8 <= |Record(t, data)| && Record(t, data)[from + 4..from + 8] == Chunk(data, from)
  {
    RecordLayout(t, data);
    var r, c := Record(t, data), Chunk(data, from);
    hide Record;
    forall i | 0 <= i < 4 ensures r[from + 4 + i] == c[i] {
      if from + i < |data| { assert r[4..4 + |data|][from + i] == r[from + 4 + i]; }
    }
    assert r[from + 4..from + 8] == c;
  }

  lemma OverwriteAt(s: seq<uint8>, at: nat, r: seq<uint8>, i: nat)
    requires at + |r| <= |s| && i < |s|
    ensures Overwrite(s, at, r)[i] == if at <= i < at + |r| then r[i - at] else s[i]
  {
  }

  lemma OverwriteTwice(s: seq<uint8>, at: nat, a: seq<uint8>, b: seq<uint8>)
    requires at + |a| + |b| <= |s|
    ensures Overwrite(Overwrite(s, at, a), at + |a|, b) == Overwrite(s, at, a + b)
  {
  }

  /** The storage when the first `n` bytes of a record have been written. */
  ghost function Partial(s: seq<uint8>, at: nat, t: uint16, data: seq<uint8>, n: nat): (r: seq<uint8>)
    requires at + |Record(t, data)| <= |s| && n <= |Record(t, data)|
    ensures |r| == |s|
  {
    Overwrite(s, at, Record(t, data)[..n])
  }

  lemma PartialDone(s: seq<uint8>, at: nat, t: uint16, data: seq<uint8>)
    requires at + |Record(t, data)| <= |s|
    ensures Partial(s, at, t, data, |Record(t, data)|) == Overwrite(s, at, Record(t, data))
  {
    assert Record(t, data)[..|Record(t, data)|] == Record(t, data);
  }

  lemma AppendChunk(s: seq<uint8>, at: nat, t: uint16, data: seq<uint8>, from: nat)
    requires from < |data| && from % 4 == 0 && at + |Record(t, data)| <= |s|
    ensures from + 8 <= |Record(t, data)|
    ensures Overwrite(Partial(s, at, t, data, 4 + from), at + 4 + from, Chunk(data, from)) == Partial(s, at, t, data, 8 + from)
  {
    ChunkOfRecord(t, data, from);
    var r := Record(t, data);
    OverwriteTwice(s, at, r[..4 + from], Chunk(data, from));
    assert r[..8 + from] == r[..4 + from] + r[4 + from..8 + from];
  }
}
