/** Which bytes of the storage tlv_write programs over a run, and how often. */
module TlvProgramming {
  import opened Bits
  import opened TlvStore
  import opened TlvLog

  /** How often offset `i` has been programmed since it was last erased. */
  function Times(h: seq<Access>, i: nat): nat {
    if h == [] then 0
    else
      var before := Times(h[..|h| - 1], i);
      match h[|h| - 1]
      case Program(from, n) => before + if from <= i < from + n then 1 else 0
      case EraseSpan(from, n) => if from <= i < from + n then 0 else before
  }

  lemma TimesThen(h: seq<Access>, from: nat, n: nat, i: nat)
    ensures Times(h + [Program(from, n)], i) == Times(h, i) + if from <= i < from + n then 1 else 0
  {
    assert (h + [Program(from, n)])[..|h|] == h;
  }

  lemma {:induction false} TimesWords(h: seq<Access>, at: nat, k: nat, i: nat)
    ensures Times(h + Words(at, k), i) == Times(h, i) + if at <= i < at + 4 * k then 1 else 0
  {
    hide Times;
    if k == 0 {
      assert h + [] == h;
    } else {
      TimesWords(h, at, k - 1, i);
      ConcatAssoc(h, Words(at, k - 1), [Program(at + 4 * (k - 1), 4)]);
      TimesThen(h + Words(at, k - 1), at + 4 * (k - 1), 4, i);
    }
  }

  lemma {:induction false} SizeAligned(log: seq<Entry>)
    ensures Size(log) % 4 == 0
  {
    if log != [] {
      SizeAligned(log[1..]);
      EntrySizeAligned(log[0]);
      SumAligned(log[0].Size(), Size(log[1..]));
    }
  }

  lemma EntrySizeAligned(e: Entry)
    ensures e.Size() % 4 == 0
  {
  }

  lemma SumAligned(a: nat, b: nat)
    requires a % 4 == 0 && b % 4 == 0
    ensures (a + b) % 4 == 0
  {
  }

  // -------------------------------------------------------------------- any run

  /** What a run of writes programs, in order. */
  function Accesses(s: seq<uint8>, start: nat, end: nat, ops: seq<Entry>): seq<Access>
    requires end + 4 <= |s|
  {
    if ops == [] then []
    else
      var n := |ops| - 1;
      Accesses(s, start, end, ops[..n]) + WriteAccesses(Run(s, start, end, ops[..n]), start, end, ops[n].typ, ops[n].data)
  }

  /** The words one write programs start where the log ends. */
  lemma WriteProgramsNext(s: seq<uint8>, start: nat, end: nat, log: seq<Entry>, fill: uint8, e: Entry)
    requires Holds(s, start, end, log, fill) && end + 4 <= |s| && e.Storable()
    ensures WriteAccesses(s, start, end, e.typ, e.data) == if Fits(start, end, log, e) then Words(start + Size(log), e.Size() / 4) else []
  {
    hide Holds, FreeOffset, Overwrite, Record;
    WriteAgrees(s, start, end, log, fill, e);
    FreeAgrees(s, start, end, log, fill);
  }

  /** A run programs the words behind the log, one after another up to where the log then ends, each once and
      in order, and nothing else. */
  lemma {:induction false} RunProgramsWords(s: seq<uint8>, start: nat, end: nat, log: seq<Entry>, fill: uint8, ops: seq<Entry>) returns (k: nat)
    requires Holds(s, start, end, log, fill) && end + 4 <= |s| && AllStorable(ops)
    ensures Size(Accepted(start, end, log, ops)) == Size(log) + 4 * k
    ensures Accesses(s, start, end, ops) == Words(start + Size(log), k)
  {
    if ops == [] {
      k := 0;
      NoAccesses(s, start, end, start + Size(log));
    } else {
      hide Holds, Accesses, Accepted, Words, Size;
      k := RunProgramsWords(s, start, end, log, fill, ops[..|ops| - 1]);
      k := RunProgramsNext(s, start, end, log, fill, ops, k);
    }
  }

  lemma RunProgramsNext(s: seq<uint8>, start: nat, end: nat, log: seq<Entry>, fill: uint8, ops: seq<Entry>, k: nat) returns (k': nat)
    requires Holds(s, start, end, log, fill) && end + 4 <= |s| && AllStorable(ops) && ops != []
    requires Size(Accepted(start, end, log, ops[..|ops| - 1])) == Size(log) + 4 * k
    requires Accesses(s, start, end, ops[..|ops| - 1]) == Words(start + Size(log), k)
    ensures Size(Accepted(start, end, log, ops)) == Size(log) + 4 * k'
    ensures Accesses(s, start, end, ops) == Words(start + Size(log), k')
  {
    hide Holds, Accesses, WriteAccesses, WriteResult, Words, Size, Run, Offered;
    var n := |ops| - 1;
    RunHoldsLog(s, start, end, log, fill, ops[..n]);
    k' := StepProgramsWords(Run(s, start, end, ops[..n]), start, end, Size(log), k, Accepted(start, end, log, ops[..n]), fill, ops[n]);
    RunThen(s, start, end, ops, n);
    assert ops[..n + 1] == ops;
  }

  lemma NoAccesses(s: seq<uint8>, start: nat, end: nat, at: nat)
    requires end + 4 <= |s|
    ensures Accesses(s, start, end, []) == [] && Words(at, 0) == []
  {
  }

  lemma StepProgramsWords(s: seq<uint8>, start: nat, end: nat, had: nat, k: nat, sofar: seq<Entry>, fill: uint8, e: Entry) returns (k': nat)
    requires Holds(s, start, end, sofar, fill) && end + 4 <= |s| && e.Storable() && Size(sofar) == had + 4 * k
    ensures Size(Offered(start, end, sofar, e)) == had + 4 * k'
    ensures Words(start + had, k) + WriteAccesses(s, start, end, e.typ, e.data) == Words(start + had, k')
  {
    hide Holds, WriteAccesses, Words, Size;
    WriteProgramsNext(s, start, end, sofar, fill, e);
    k' := k;
    if Fits(start, end, sofar, e) {
      SizeAppend(sofar, e);
      k' := k + e.Size() / 4;
      WordsConcat(start + had, k, e.Size() / 4);
    }
  }

  /** Each byte of an entry accepted in the run is programmed once in it; no byte of the log before, of the
      start marker, of the free space or past the region is programmed at all. */
  lemma ProgrammedOnce(h: seq<Access>, s: seq<uint8>, start: nat, end: nat, log: seq<Entry>, fill: uint8, ops: seq<Entry>, i: nat)
    requires Holds(s, start, end, log, fill) && end + 4 <= |s| && AllStorable(ops)
    ensures Times(h + Accesses(s, start, end, ops), i)
         == Times(h, i) + if start + Size(log) <= i < start + Size(Accepted(start, end, log, ops)) then 1 else 0
  {
    hide Times, Accesses, Holds;
    var k := RunProgramsWords(s, start, end, log, fill, ops);
    TimesWords(h, start + Size(log), k, i);
  }

  /** Entry `k` of a log starts a whole number of words after the start marker. */
  lemma EntryAligned(s: seq<uint8>, at: nat, end: nat, log: seq<Entry>, fill: uint8, k: nat)
    requires Holds(s, at, end, log, fill) && k < |log|
    ensures Size(log[..k]) % 4 == 0 && InPlace(s, at + Size(log[..k]), log[k])
    decreases k
  {
    hide InPlace;
    SizeAligned(log[..k]);
    if k > 0 {
      EntryAligned(s, at + log[0].Size(), end, log[1..], fill, k - 1);
      assert log[..k][1..] == log[1..][..k - 1];
    }
  }

  /** A run on the store itself. */
  method WriteEach(tlv: Tlv, ops: seq<Entry>, ghost log: seq<Entry>, ghost fill: uint8)
    requires tlv.Valid() && tlv.hasRead && tlv.hasWrite && tlv.endOffset + 4 <= tlv.storage.Length
    requires AllStorable(ops) && Holds(tlv.storage[..], tlv.First(), tlv.endOffset, log, fill)
    modifies tlv.storage, tlv`accesses
    ensures Holds(tlv.storage[..], tlv.First(), tlv.endOffset, Accepted(tlv.First(), tlv.endOffset, log, ops), fill)
    ensures
      var from, to := tlv.First() + Size(log), tlv.First() + Size(Accepted(tlv.First(), tlv.endOffset, log, ops));
      forall i: nat :: Times(tlv.accesses, i) == Times(old(tlv.accesses), i) + if from <= i < to then 1 else 0
    ensures forall i :: 0 <= i < tlv.storage.Length && (i < tlv.First() + Size(log) || i >= tlv.endOffset) ==>
      tlv.storage[i] == old(tlv.storage[i])
  {
    hide Holds, FreeOffset, WriteResult, WriteAccesses, Times, Accepted;
    ghost var s, start, end := tlv.storage[..], tlv.First(), tlv.endOffset;
    assert ops[..0] == [] && old(tlv.accesses) + [] == old(tlv.accesses);
    for n := 0 to |ops|
      invariant tlv.storage[..] == Run(s, start, end, ops[..n])
      invariant tlv.accesses == old(tlv.accesses) + Accesses(s, start, end, ops[..n])
    {
      RunThen(s, start, end, ops, n);
      ConcatAssoc(old(tlv.accesses), Accesses(s, start, end, ops[..n]),
                  WriteAccesses(tlv.storage[..], start, end, ops[n].typ, ops[n].data));
      var status := tlv.WriteValue(ops[n].typ, ops[n].data);
    }
    assert ops[..|ops|] == ops;
    RunHoldsLog(s, start, end, log, fill, ops);
    forall i: nat ensures Times(tlv.accesses, i) == Times(old(tlv.accesses), i)
      + if start + Size(log) <= i < start + Size(Accepted(start, end, log, ops)) then 1 else 0 {
      ProgrammedOnce(old(tlv.accesses), s, start, end, log, fill, ops, i);
    }
    forall i | 0 <= i < tlv.storage.Length && (i < start + Size(log) || i >= end) ensures tlv.storage[i] == s[i] {
      WrittenBytesStay(s, start, end, log, fill, ops, i);
      assert tlv.storage[i] == tlv.storage[..][i];
    }
  }

  lemma RunThen(s: seq<uint8>, start: nat, end: nat, ops: seq<Entry>, n: nat)
    requires end + 4 <= |s| && n < |ops|
    ensures
      var r, e := Run(s, start, end, ops[..n]), ops[n];
      && Run(s, start, end, ops[..n + 1]) == WriteResult(r, start, end, e.typ, e.data).1
      && Accesses(s, start, end, ops[..n + 1]) == Accesses(s, start, end, ops[..n]) + WriteAccesses(r, start, end, e.typ, e.data)
  {
    assert ops[..n + 1][..n] == ops[..n];
  }

  // ---------------------------------------------------------------- exactly when

  /** Whatever `n` bytes are written as type `t`, the next write programs none of theirs again. */
  ghost predicate WriteOnce(t: uint16, n: nat) {
    forall s, start: nat, end: nat, log, fill: uint8, data: seq<uint8>, e: Entry, i: nat ::
      Holds(s, start, end, log, fill) && end + 4 <= |s| && |data| == n && e.Storable()
      ==> Times(TwoWrites(s, start, end, t, data, e), i) <= 1
  }

  ghost function TwoWrites(s: seq<uint8>, start: nat, end: nat, t: uint16, data: seq<uint8>, e: Entry): seq<Access>
    requires end + 4 <= |s|
  {
    WriteAccesses(s, start, end, t, data) + WriteAccesses(WriteResult(s, start, end, t, data).1, start, end, e.typ, e.data)
  }

  /** Exactly the storable sizes and types are programmed once. */
  lemma WriteOnceExactly(t: uint16, n: nat)
    ensures WriteOnce(t, n) <==> 1 <= n <= 255 && t != BLANK_TYPE
  {
    if 1 <= n <= 255 && t != BLANK_TYPE {
      forall s, start: nat, end: nat, log, fill: uint8, data: seq<uint8>, e: Entry, i: nat |
        Holds(s, start, end, log, fill) && end + 4 <= |s| && |data| == n && e.Storable()
        ensures Times(TwoWrites(s, start, end, t, data, e), i) <= 1
      {
        TwoStorable(s, start, end, log, fill, Entry(t, data), e, i);
      }
    } else {
      ProgrammedTwice(t, n);
    }
  }

  lemma TwoStorable(s: seq<uint8>, start: nat, end: nat, log: seq<Entry>, fill: uint8, d: Entry, e: Entry, i: nat)
    requires Holds(s, start, end, log, fill) && end + 4 <= |s| && d.Storable() && e.Storable()
    ensures Times(TwoWrites(s, start, end, d.typ, d.data, e), i) <= 1
  {
    var ops := [d, e];
    hide Holds, Run, Times, WriteAccesses, WriteResult, Fits;
    TwoAccesses(s, start, end, d, e);
    assert [] + Accesses(s, start, end, ops) == Accesses(s, start, end, ops);
    TimesNone(i);
    ProgrammedOnce([], s, start, end, log, fill, ops, i);
  }

  lemma TimesNone(i: nat)
    ensures Times([], i) == 0
  {
  }

  lemma TwoAccesses(s: seq<uint8>, start: nat, end: nat, d: Entry, e: Entry)
    requires end + 4 <= |s|
    ensures Accesses(s, start, end, [d, e]) == TwoWrites(s, start, end, d.typ, d.data, e)
  {
    var ops := [d, e];
    assert ops[..0] == [] && ops[..2] == ops;
    assert Run(s, start, end, []) == s && Accesses(s, start, end, []) == [];
    hide Run, Accesses, WriteAccesses, WriteResult;
    RunThen(s, start, end, ops, 0);
    RunThen(s, start, end, ops, 1);
    assert [] + WriteAccesses(s, start, end, d.typ, d.data) == WriteAccesses(s, start, end, d.typ, d.data);
  }

  lemma ProgrammedTwice(t: uint16, n: nat)
    requires n == 0 || n > 255 || t == BLANK_TYPE
    ensures !WriteOnce(t, n)
  {
    hide FreeOffset, WriteResult, Holds, Times, Words, TwoWrites;
    var end := RecordSize(n) + 8;
    var s, data := FreeInsideRecord(t, n, end);
    var e := Entry(0, [0]);
    var again := FreeOffset(WriteResult(s, 0, end, t, data).1, 0, end);
    BothAccepted(s, end, t, data, e);
    OverlapTwice(RecordSize(n) / 4, again);
    assert Times(TwoWrites(s, 0, end, t, data, e), again) == 2;
  }

  lemma OverlapTwice(k: nat, again: nat)
    requires again < 4 * k
    ensures Times(Words(0, k) + Words(again, 2), again) == 2
  {
    assert Times([], again) == 0;
    hide Times, Words;
    TimesWords([], 0, k, again);
    TimesWords(Words(0, k), again, 2, again);
    assert [] + Words(0, k) == Words(0, k);
  }

  lemma BothAccepted(s: seq<uint8>, end: nat, t: uint16, data: seq<uint8>, e: Entry)
    requires end + 4 <= |s| && end == RecordSize(|data|) + 8 && e == Entry(0, [0])
    requires FreeOffset(s, 0, end) == 0 && FreeOffset(WriteResult(s, 0, end, t, data).1, 0, end) < RecordSize(|data|)
    ensures TwoWrites(s, 0, end, t, data, e)
         == Words(0, RecordSize(|data|) / 4) + Words(FreeOffset(WriteResult(s, 0, end, t, data).1, 0, end), 2)
  {
    hide FreeOffset, Overwrite, Words;
  }
}
