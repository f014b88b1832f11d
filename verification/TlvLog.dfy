/** The TLV store behaves like a log: what the two walks see after any run of writes. */
module TlvLog {
  import opened Bits
  import opened Wrappers
  import opened TlvStore

  datatype Entry = Entry(typ: uint16, data: seq<uint8>)
  {
    /** What the one-byte size field and the blank marker can hold. */
    predicate Storable() {
      1 <= |data| <= 255 && typ != BLANK_TYPE
    }

    function Size(): (n: nat)
      ensures n == |Record(typ, data)|
    {
      4 + |data| + Padding(|data|)
    }

    /** The data with its padding. */
    function Padded(): seq<uint8> {
      data + seq(Padding(|data|), _ => PADDING_BYTE)
    }

    function Head(): Header
      requires Storable()
    {
      Header(typ, Padding(|data|), |data|)
    }
  }

  function Size(log: seq<Entry>): nat {
    if log == [] then 0 else log[0].Size() + Size(log[1..])
  }

  ghost predicate InPlace(s: seq<uint8>, at: nat, e: Entry) {
    at + e.Size() <= |s| && s[at..at + e.Size()] == Record(e.typ, e.data)
  }

  ghost predicate Blank(s: seq<uint8>, from: nat, end: nat, fill: uint8) {
    (fill == 0x00 || fill == 0xFF) && from <= end <= |s| && forall i :: from <= i < end ==> s[i] == fill
  }

  /** From `at` the records of the log follow one another, and then everything up to `end` is erased. */
  ghost predicate Holds(s: seq<uint8>, at: nat, end: nat, log: seq<Entry>, fill: uint8)
    decreases |log|
  {
    if log == [] then Blank(s, at, end, fill)
    else log[0].Storable() && InPlace(s, at, log[0]) && Holds(s, at + log[0].Size(), end, log[1..], fill)
  }

  /** What erased bytes look like to the reader. */
  function BlankHeader(fill: uint8): Header {
    Header(if fill == 0xFF then 0xFFFF else 0, fill, fill)
  }

  lemma HeaderInPlace(s: seq<uint8>, at: nat, e: Entry)
    requires e.Storable() && InPlace(s, at, e)
    ensures HeaderAt(s, at) == e.Head() && e.Head().Span() == e.Size()
  {
    var record := Record(e.typ, e.data);
    assert s[at..at + 4] == s[at..at + e.Size()][..4] == HeaderToBytes(e.Head());
    HeaderRoundTrip(e.Head());
  }

  lemma DataInPlace(s: seq<uint8>, at: nat, e: Entry, n: nat)
    requires e.Storable() && InPlace(s, at, e) && n <= |e.Padded()|
    ensures at + 4 + n <= |s| && s[at + 4..at + 4 + n] == e.Padded()[..n]
  {
    var record := s[at..at + e.Size()];
    assert record[4..] == e.Padded();
    forall i | 0 <= i < n ensures s[at + 4 + i] == e.Padded()[i] { assert s[at + 4 + i] == record[4 + i] == record[4..][i]; }
  }

  lemma HeaderOfBlank(s: seq<uint8>, from: nat, end: nat, fill: uint8)
    requires Blank(s, from, end, fill) && from + 4 <= end
    ensures HeaderAt(s, from) == BlankHeader(fill)
  {
  }

  lemma {:induction false} HoldsInside(s: seq<uint8>, at: nat, end: nat, log: seq<Entry>, fill: uint8)
    requires Holds(s, at, end, log, fill)
    ensures at + Size(log) <= end <= |s| && (fill == 0x00 || fill == 0xFF)
    ensures forall e <- log :: e.Storable()
    decreases |log|
  {
    if log != [] {
      HoldsInside(s, at + log[0].Size(), end, log[1..], fill);
      assert log == [log[0]] + log[1..];
    }
  }

  // ------------------------------------------------------------------ the reader

  /** The earliest entry of type `t`. */
  function Earliest(log: seq<Entry>, t: uint16): (r: Option<Entry>)
    ensures r.None? ==> forall e <- log :: e.typ != t
    ensures r.Some? ==> exists j :: 0 <= j < |log| && log[j] == r.value && r.value.typ == t && forall i :: 0 <= i < j ==> log[i].typ != t
  {
    if log == [] then None
    else if log[0].typ == t then Some(log[0])
    else
      var r := Earliest(log[1..], t);
      assert log == [log[0]] + log[1..];
      assert r.Some? ==> exists j :: 0 <= j < |log| && log[j] == r.value && r.value.typ == t && forall i :: 0 <= i < j ==> log[i].typ != t by {
        if r.Some? {
          var k :| 0 <= k < |log[1..]| && log[1..][k] == r.value && forall i :: 0 <= i < k ==> log[1..][i].typ != t;
          assert log[k + 1] == r.value;
          forall i | 0 <= i < k + 1 ensures log[i].typ != t {
            if i > 0 { assert log[i] == log[1..][i - 1]; }
          }
        }
      }
      r
  }

  lemma {:induction false} FindInBlank(s: seq<uint8>, at: nat, end: nat, fill: uint8, t: uint16)
    requires (fill == 0x00 || fill == 0xFF) && end <= |s| && forall i :: at <= i < end ==> s[i] == fill
    ensures Find(s, at, end, t) == if at + 4 <= end && t == BlankHeader(fill).typ then Some(at) else None
    decreases end - at
  {
    if at + 4 <= end {
      assert HeaderAt(s, at) == BlankHeader(fill);
      if t != BlankHeader(fill).typ {
        FindInBlank(s, at + HeaderAt(s, at).Span(), end, fill, t);
      }
    }
  }

  /** tlv_lookup gives the header of the earliest write of the type; failing that, an erased header if
      that is the type asked for and there is room for one; failing that, nothing. */
  lemma {:induction false} LookupAgrees(s: seq<uint8>, at: nat, end: nat, log: seq<Entry>, fill: uint8, t: uint16)
    requires Holds(s, at, end, log, fill) && end <= |s|
    ensures LookupResult(s, at, end, t) ==
      match Earliest(log, t) {
        case Some(e) => (Success, Some(Header(t, Padding(|e.data|), |e.data| % 256)))
        case None =>
          if at + Size(log) + 4 <= end && t == BlankHeader(fill).typ then (Success, Some(BlankHeader(fill)))
          else (ENoData, None)
      }
    decreases |log|
  {
    if log == [] {
      FindInBlank(s, at, end, fill, t);
      if at + 4 <= end {
        HeaderOfBlank(s, at, end, fill);
      }
    } else {
      HeaderInPlace(s, at, log[0]);
      HoldsInside(s, at, end, log, fill);
      if log[0].typ != t {
        LookupAgrees(s, at + log[0].Size(), end, log[1..], fill, t);
      }
    }
  }

  lemma ReadSkips(s: seq<uint8>, at: nat, end: nat, e: Entry, t: uint16, n: nat)
    requires e.Storable() && InPlace(s, at, e) && at + e.Size() <= end <= |s| && e.typ != t
    ensures ReadResult(s, at, end, t, n) == ReadResult(s, at + e.Size(), end, t, n)
  {
    HeaderInPlace(s, at, e);
  }

  lemma ReadHere(s: seq<uint8>, at: nat, end: nat, e: Entry, n: nat)
    requires e.Storable() && InPlace(s, at, e) && at + e.Size() <= end <= |s|
    ensures ReadResult(s, at, end, e.typ, n) == if n <= |e.Padded()| then (Success, e.Padded()[..n]) else (ENoMem, [])
  {
    HeaderInPlace(s, at, e);
    if n <= |e.Padded()| {
      DataInPlace(s, at, e, n);
    }
  }

  /** tlv_read gives the first `n` bytes of that write, counting its padding, and refuses more. */
  lemma {:induction false} ReadAgrees(s: seq<uint8>, at: nat, end: nat, log: seq<Entry>, fill: uint8, t: uint16, n: nat)
    requires Holds(s, at, end, log, fill) && end <= |s| && t != BlankHeader(fill).typ
    ensures ReadResult(s, at, end, t, n) ==
      match Earliest(log, t) {
        case Some(e) => if n <= |e.Padded()| then (Success, e.Padded()[..n]) else (ENoMem, [])
        case None => (ENoData, [])
      }
    decreases |log|
  {
    if log == [] {
      FindInBlank(s, at, end, fill, t);
    } else {
      hide ReadResult, InPlace, Blank;
      HoldsInside(s, at, end, log, fill);
      if log[0].typ == t {
        ReadHere(s, at, end, log[0], n);
      } else {
        ReadSkips(s, at, end, log[0], t, n);
        ReadAgrees(s, at + log[0].Size(), end, log[1..], fill, t, n);
      }
    }
  }

  // ------------------------------------------------------------------ the writer

  /** The writer's walk reads past the end exactly when the log leaves less room than a header, and then as far
      as that header reaches. */
  lemma {:induction false} PastEndExactly(s: seq<uint8>, at: nat, end: nat, log: seq<Entry>, fill: uint8)
    requires Holds(s, at, end, log, fill)
    ensures end <= |s| && PastEnd(s, at, end) == if at + Size(log) + 4 > end then at + Size(log) + 4 - end else 0
    decreases |log|
  {
    HoldsInside(s, at, end, log, fill);
    if log == [] {
      if at + 4 <= end { HeaderOfBlank(s, at, end, fill); }
    } else {
      HeaderInPlace(s, at, log[0]);
      PastEndExactly(s, at + log[0].Size(), end, log[1..], fill);
    }
  }

  /** Whether the next write stays inside the storage can be told from the log before it. */
  lemma WalkableExactly(s: seq<uint8>, at: nat, end: nat, log: seq<Entry>, fill: uint8)
    requires Holds(s, at, end, log, fill)
    ensures Walkable(s, at, end) <==> at + Size(log) + 4 <= |s|
  {
    PastEndExactly(s, at, end, log, fill);
  }

  /** A region that one record of eight bytes fills: the next write reads the four bytes after it. */
  lemma FullRegionReadsPastEnd(t: uint16, data: seq<uint8>)
    requires t != BLANK_TYPE && 1 <= |data| <= 4
    ensures Holds(Record(t, data), 0, 8, [Entry(t, data)], 0xFF) && PastEnd(Record(t, data), 0, 8) == 4
  {
    var e, s := Entry(t, data), Record(t, data);
    assert [e][1..] == [] && s[0..8] == s;
    assert Size([]) == 0 && Size([e]) == 8;
    assert Holds(s, 8, 8, [], 0xFF);
    PastEndExactly(s, 0, 8, [e], 0xFF);
  }

  /** The writer stops exactly where the log ends, while a header still fits there. */
  lemma {:induction false} FreeAgrees(s: seq<uint8>, at: nat, end: nat, log: seq<Entry>, fill: uint8)
    requires Holds(s, at, end, log, fill) && Walkable(s, at, end)
    ensures at + Size(log) + 4 <= end ==> FreeOffset(s, at, end) == at + Size(log)
    ensures at + Size(log) + 4 > end ==> FreeOffset(s, at, end) + 4 > end
    decreases |log|
  {
    if log == [] {
      if at + 4 <= end {
        HeaderOfBlank(s, at, end, fill);
      }
    } else {
      HeaderInPlace(s, at, log[0]);
      HoldsInside(s, at, end, log, fill);
      FreeAgrees(s, at + log[0].Size(), end, log[1..], fill);
    }
  }

  lemma InPlaceStill(s: seq<uint8>, s': seq<uint8>, at: nat, e: Entry)
    requires InPlace(s, at, e) && |s'| == |s|
    requires forall i :: at <= i < at + e.Size() && i < |s| ==> s'[i] == s[i]
    ensures InPlace(s', at, e)
  {
    assert s'[at..at + e.Size()] == s[at..at + e.Size()];
  }

  /** A log followed by what the storage holds after it. */
  lemma {:induction false} HoldsJoin(s: seq<uint8>, s': seq<uint8>, at: nat, end: nat, log: seq<Entry>, rest: seq<Entry>, fill: uint8)
    requires Holds(s, at, end, log, fill) && |s'| == |s| && Holds(s', at + Size(log), end, rest, fill)
    requires forall i :: at <= i < at + Size(log) && i < |s| ==> s'[i] == s[i]
    ensures Holds(s', at, end, log + rest, fill)
    decreases |log|
  {
    hide Blank, InPlace;
    if log == [] {
      assert log + rest == rest;
    } else {
      var next := at + log[0].Size();
      assert (log + rest)[1..] == log[1..] + rest;
      assert at + Size(log) == next + Size(log[1..]);
      InPlaceStill(s, s', at, log[0]);
      HoldsJoin(s, s', next, end, log[1..], rest, fill);
    }
  }

  lemma {:induction false} BlankAfterLog(s: seq<uint8>, at: nat, end: nat, log: seq<Entry>, fill: uint8)
    requires Holds(s, at, end, log, fill)
    ensures Blank(s, at + Size(log), end, fill)
    decreases |log|
  {
    if log != [] {
      BlankAfterLog(s, at + log[0].Size(), end, log[1..], fill);
    }
  }

  lemma RecordOverBlank(s: seq<uint8>, at: nat, end: nat, fill: uint8, e: Entry)
    requires Blank(s, at, end, fill) && e.Storable() && at + e.Size() <= end
    ensures Holds(Overwrite(s, at, Record(e.typ, e.data)), at, end, [e], fill)
  {
    var r := Record(e.typ, e.data);
    var s' := Overwrite(s, at, r);
    assert s'[at..at + e.Size()] == r;
    forall i | at + e.Size() <= i < end ensures s'[i] == fill { OverwriteAt(s, at, r, i); }
    assert [e][1..] == [];
  }

  /** Putting a record where the log ends extends the log by it. */
  lemma HoldsAppend(s: seq<uint8>, at: nat, end: nat, log: seq<Entry>, fill: uint8, e: Entry)
    requires Holds(s, at, end, log, fill) && e.Storable() && at + Size(log) + e.Size() <= end <= |s|
    ensures Holds(Overwrite(s, at + Size(log), Record(e.typ, e.data)), at, end, log + [e], fill)
  {
    BlankAfterLog(s, at, end, log, fill);
    RecordOverBlank(s, at + Size(log), end, fill, e);
    var r := Record(e.typ, e.data);
    var s' := Overwrite(s, at + Size(log), r);
    forall i | at <= i < at + Size(log) ensures s'[i] == s[i] { OverwriteAt(s, at + Size(log), r, i); }
    HoldsJoin(s, s', at, end, log, [e], fill);
  }

  predicate Fits(start: nat, end: nat, log: seq<Entry>, e: Entry) {
    start + Size(log) + e.Size() <= end
  }

  /** A write is accepted exactly when it fits after what was accepted before; it then changes only
      the next free span, and a refused one changes nothing. */
  lemma WriteAgrees(s: seq<uint8>, start: nat, end: nat, log: seq<Entry>, fill: uint8, e: Entry)
    requires Holds(s, start, end, log, fill) && Walkable(s, start, end) && e.Storable()
    ensures WriteResult(s, start, end, e.typ, e.data) ==
      if Fits(start, end, log, e) then (Success, Overwrite(s, start + Size(log), Record(e.typ, e.data))) else (ENoMem, s)
    ensures Fits(start, end, log, e) ==> Holds(WriteResult(s, start, end, e.typ, e.data).1, start, end, log + [e], fill)
  {
    FreeAgrees(s, start, end, log, fill);
    if Fits(start, end, log, e) {
      HoldsAppend(s, start, end, log, fill, e);
    }
  }

  // -------------------------------------------------------------------- any run

  /** The log after a run of writes: the accepted ones are appended in order. */
  function Accepted(start: nat, end: nat, log: seq<Entry>, ops: seq<Entry>): seq<Entry> {
    if ops == [] then log else Offered(start, end, Accepted(start, end, log, ops[..|ops| - 1]), ops[|ops| - 1])
  }

  /** The log after one write. */
  function Offered(start: nat, end: nat, log: seq<Entry>, e: Entry): seq<Entry> {
    if Fits(start, end, log, e) then log + [e] else log
  }

  /** The storage after the writes. */
  function Run(s: seq<uint8>, start: nat, end: nat, ops: seq<Entry>): (r: seq<uint8>)
    requires end + 4 <= |s|
    ensures |r| == |s|
  {
    if ops == [] then s
    else
      var e := ops[|ops| - 1];
      WriteResult(Run(s, start, end, ops[..|ops| - 1]), start, end, e.typ, e.data).1
  }

  ghost predicate AllStorable(ops: seq<Entry>) {
    forall k :: 0 <= k < |ops| ==> ops[k].Storable()
  }

  /** After any run of writes the store holds exactly the log it held and the accepted ones. */
  lemma {:induction false} RunHoldsLog(s: seq<uint8>, start: nat, end: nat, log: seq<Entry>, fill: uint8, ops: seq<Entry>)
    requires Holds(s, start, end, log, fill) && end + 4 <= |s| && AllStorable(ops)
    ensures Holds(Run(s, start, end, ops), start, end, Accepted(start, end, log, ops), fill)
  {
    if ops != [] {
      var n := |ops| - 1;
      RunHoldsLog(s, start, end, log, fill, ops[..n]);
      WriteAgrees(Run(s, start, end, ops[..n]), start, end, Accepted(start, end, log, ops[..n]), fill, ops[n]);
    }
  }

  /** Reader against log, over every run of writes on an erased region. */
  lemma StoreAgreesWithLog(s: seq<uint8>, start: nat, end: nat, fill: uint8, ops: seq<Entry>, t: uint16, n: nat)
    requires Blank(s, start, end, fill) && end + 4 <= |s| && AllStorable(ops) && t != BlankHeader(fill).typ
    ensures match Earliest(Accepted(start, end, [], ops), t) {
        case None =>
          && LookupResult(Run(s, start, end, ops), start, end, t) == (ENoData, None)
          && ReadResult(Run(s, start, end, ops), start, end, t, n) == (ENoData, [])
        case Some(e) =>
          && LookupResult(Run(s, start, end, ops), start, end, t) == (Success, Some(Header(t, Padding(|e.data|), |e.data| % 256)))
          && ReadResult(Run(s, start, end, ops), start, end, t, n)
             == if n <= |e.Padded()| then (Success, e.Padded()[..n]) else (ENoMem, [])
      }
  {
    RunHoldsLog(s, start, end, [], fill, ops);
    LookupAgrees(Run(s, start, end, ops), start, end, Accepted(start, end, [], ops), fill, t);
    ReadAgrees(Run(s, start, end, ops), start, end, Accepted(start, end, [], ops), fill, t, n);
  }

  lemma {:induction false} SizeAppend(log: seq<Entry>, e: Entry)
    ensures Size(log + [e]) == Size(log) + e.Size()
  {
    if log == [] {
      assert (log + [e])[1..] == [];
    } else {
      assert (log + [e])[1..] == log[1..] + [e];
      SizeAppend(log[1..], e);
    }
  }

  lemma WriteKeeps(s: seq<uint8>, start: nat, end: nat, log: seq<Entry>, fill: uint8, e: Entry, i: nat)
    requires Holds(s, start, end, log, fill) && end + 4 <= |s| && e.Storable()
    requires i < |s| && (i < start + Size(log) || i >= end)
    ensures WriteResult(s, start, end, e.typ, e.data).1[i] == s[i]
  {
    WriteAgrees(s, start, end, log, fill, e);
    var r := WriteResult(s, start, end, e.typ, e.data);
    if Fits(start, end, log, e) {
      OverwriteAt(s, start + Size(log), Record(e.typ, e.data), i);
      assert r.1[i] == Overwrite(s, start + Size(log), Record(e.typ, e.data))[i];
    } else {
      assert r.1 == s;
    }
  }

  lemma {:induction false} LogGrows(start: nat, end: nat, log: seq<Entry>, ops: seq<Entry>)
    ensures Size(log) <= Size(Accepted(start, end, log, ops))
  {
    if ops != [] {
      var n := |ops| - 1;
      LogGrows(start, end, log, ops[..n]);
      SizeAppend(Accepted(start, end, log, ops[..n]), ops[n]);
    }
  }

  /** The value of no byte of the log, of the start marker or past the region ever changes. */
  lemma {:induction false} WrittenBytesStay(s: seq<uint8>, start: nat, end: nat, log: seq<Entry>, fill: uint8, ops: seq<Entry>, i: nat)
    requires Holds(s, start, end, log, fill) && end + 4 <= |s| && AllStorable(ops)
    requires i < |s| && (i < start + Size(log) || i >= end)
    ensures Run(s, start, end, ops)[i] == s[i]
  {
    if ops != [] {
      var n := |ops| - 1;
      WrittenBytesStay(s, start, end, log, fill, ops[..n], i);
      RunHoldsLog(s, start, end, log, fill, ops[..n]);
      LogGrows(start, end, log, ops[..n]);
      WriteKeeps(Run(s, start, end, ops[..n]), start, end, Accepted(start, end, log, ops[..n]), fill, ops[n], i);
    }
  }

  // ---------------------------------------------------- what the store can keep

  function RecordSize(n: nat): nat {
    4 + n + Padding(n)
  }

  /** Whatever `n` bytes are written as type `t`, the next write goes after them. */
  ghost predicate Kept(t: uint16, n: nat) {
    forall s, start: nat, end: nat, log, fill: uint8, data: seq<uint8> ::
      Holds(s, start, end, log, fill) && end + 4 <= |s| && |data| == n && start + Size(log) + RecordSize(n) + 4 <= end
      ==> FreeOffset(WriteResult(s, start, end, t, data).1, start, end) == start + Size(log) + RecordSize(n)
  }

  lemma KeptWhenStorable(s: seq<uint8>, start: nat, end: nat, log: seq<Entry>, fill: uint8, e: Entry)
    requires Holds(s, start, end, log, fill) && end + 4 <= |s| && e.Storable() && start + Size(log) + e.Size() + 4 <= end
    ensures FreeOffset(WriteResult(s, start, end, e.typ, e.data).1, start, end) == start + Size(log) + e.Size()
  {
    WriteAgrees(s, start, end, log, fill, e);
    SizeAppend(log, e);
    FreeAgrees(WriteResult(s, start, end, e.typ, e.data).1, start, end, log + [e], fill);
  }

  /** After 0xFF bytes have been written as an unstorable value to a fresh 0xFF region, the free-space walk
      stops inside what was written. */
  lemma FreeInsideRecord(t: uint16, n: nat, end: nat) returns (s: seq<uint8>, data: seq<uint8>)
    requires n == 0 || n > 255 || t == BLANK_TYPE
    requires end >= RecordSize(n) + 4
    ensures |data| == n && Holds(s, 0, end, [], 0xFF) && end + 4 <= |s|
    ensures FreeOffset(s, 0, end) == 0 && FreeOffset(WriteResult(s, 0, end, t, data).1, 0, end) < RecordSize(n)
  {
    s, data := seq(end + 4, _ => 0xFF), seq(n, _ => 0xFF);
    var s' := WriteResult(s, 0, end, t, data).1;
    assert HeaderAt(s, 0) == BlankHeader(0xFF);
    var h, record := Header(t, Padding(n), n % 256), Record(t, data);
    assert s' == Overwrite(s, 0, record);
    assert s'[0..4] == HeaderToBytes(h);
    HeaderRoundTrip(h);
    forall i | 4 <= i < |s'| ensures s'[i] == 0xFF { OverwriteAt(s, 0, record, i); }
    if t != BLANK_TYPE && n % 256 != 0 {
      assert HeaderAt(s', h.Span()) == BlankHeader(0xFF);
      assert FreeOffset(s', 0, end) == FreeOffset(s', h.Span(), end) == h.Span();
    }
  }

  lemma NotKept(t: uint16, n: nat)
    requires n == 0 || n > 255 || t == BLANK_TYPE
    ensures !Kept(t, n)
  {
    var s, data := FreeInsideRecord(t, n, RecordSize(n) + 4);
  }

  /** The store keeps every value of `n` bytes exactly for sizes 1 to 255 and types other than 0xFFFF;
      nothing checks this, so other writes are accepted and later overwritten. */
  lemma KeptExactly(t: uint16, n: nat)
    ensures Kept(t, n) <==> 1 <= n <= 255 && t != BLANK_TYPE
  {
    if 1 <= n <= 255 && t != BLANK_TYPE {
      forall s, start: nat, end: nat, log, fill: uint8, data: seq<uint8> |
        Holds(s, start, end, log, fill) && end + 4 <= |s| && |data| == n && start + Size(log) + RecordSize(n) + 4 <= end
        ensures FreeOffset(WriteResult(s, start, end, t, data).1, start, end) == start + Size(log) + RecordSize(n)
      {
        KeptWhenStorable(s, start, end, log, fill, Entry(t, data));
      }
    } else {
      NotKept(t, n);
    }
  }
}
