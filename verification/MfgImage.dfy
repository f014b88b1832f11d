/** The manufacturing image of tools/provision/sid_provision/run.py: a header at fixed offsets and a
    TLV region edited in place. */
module MfgImage {
  import opened Bits

  // -------------------------------------------------------------------- encoding

  /** The least multiple of `w` that is not below `n`. */
  function RoundUp(n: nat, w: nat): (r: nat)
    requires w >= 1
    ensures n <= r < n + w
  {
    if n == 0 then 0 else if n <= w then w else w + RoundUp(n - w, w)
  }

  lemma {:induction false} MulAtLeast(w: nat, k: nat)
    requires k >= 1
    ensures w * k >= w
  {
    if k > 1 {
      MulAtLeast(w, k - 1);
      assert w * k == w * (k - 1) + w;
    }
  }

  lemma DivisionIsUnique(w: nat, d: nat, m: nat, q: nat, r: nat)
    requires w * d + m == w * q + r && m < w && r < w
    ensures d == q
  {
    if d > q {
      MulAtLeast(w, d - q);
    } else if d < q {
      MulAtLeast(w, q - d);
    }
  }

  lemma QuotientOf(n: nat, w: nat, q: nat, r: nat)
    requires w >= 1 && n == w * q + r && r < w
    ensures n / w == q
  {
    DivisionIsUnique(w, n / w, n % w, q, r);
  }

  lemma {:induction false} RoundUpIsMultiple(n: nat, w: nat) returns (k: nat)
    requires w >= 1
    ensures RoundUp(n, w) == w * k
  {
    if n == 0 {
      k := 0;
    } else if n <= w {
      k := 1;
    } else {
      k := RoundUpIsMultiple(n - w, w);
      assert w * (k + 1) == w * k + w;
      k := k + 1;
    }
  }

  /** The expression the code rounds with. */
  lemma RoundUpFormula(n: nat, w: nat)
    requires w >= 1
    ensures (n + w - 1) / w * w == RoundUp(n, w)
  {
    var k := RoundUpIsMultiple(n, w);
    QuotientOf(n + w - 1, w, k, n + w - 1 - RoundUp(n, w));
    assert k * w == w * k;
  }

  /** Two bytes as a number, in network order or little-endian. */
  function Num(a: uint8, b: uint8, big: bool): uint16 {
    var x: int, y: int := a, b;
    if big then 256 * x + y else x + 256 * y
  }

  function NumBytes(n: uint16, big: bool): (r: seq<uint8>)
    ensures |r| == 2 && Num(r[0], r[1], big) == n
  {
    if big then [n / 256, n % 256] else [n % 256, n / 256]
  }

  /** make_tlv, for a value short enough for the two-byte length. */
  function MakeTlv(tag: uint16, value: seq<uint8>, big: bool, w: nat): (r: seq<uint8>)
    requires w >= 1 && |value| < 0x1_0000
    ensures |r| == RoundUp(|value| + 4, w)
  {
    var tlv := NumBytes(tag, big) + NumBytes(|value|, big) + value;
    tlv + seq(RoundUp(|tlv|, w) - |tlv|, _ => 0xFF)
  }

  /** Byte by byte: tag and length in the byte order of the image, the value, and 0xFF up to a whole word. */
  lemma TlvLayout(tag: uint16, value: seq<uint8>, big: bool, w: nat)
    requires w >= 1 && |value| < 0x1_0000
    ensures
      var r, n := MakeTlv(tag, value, big, w), |value|;
      var x: int, y: int, z: int, t: int := r[0], r[1], r[2], r[3];
      && (if big then 256 * x + y == tag && 256 * z + t == n else x + 256 * y == tag && z + 256 * t == n)
      && r[4..4 + n] == value && |r| == (n + 4 + w - 1) / w * w
      && forall i :: 4 + n <= i < |r| ==> r[i] == 0xFF
  {
    RoundUpFormula(|value| + 4, w);
    var tlv := NumBytes(tag, big) + NumBytes(|value|, big) + value;
    var r := MakeTlv(tag, value, big, w);
    assert r[..4 + |value|] == tlv;
    assert r[0] == NumBytes(tag, big)[0] && r[1] == NumBytes(tag, big)[1];
    assert r[2] == NumBytes(|value|, big)[0] && r[3] == NumBytes(|value|, big)[1];
    assert r[4..4 + |value|] == tlv[4..] == value;
  }

  /** Length of the record at `pos`, padding included. */
  function RecordLength(enc: seq<uint8>, pos: nat, big: bool, w: nat): (n: nat)
    requires w >= 1 && pos + 4 <= |enc|
    ensures n >= 4
  {
    RoundUp(Num(enc[pos + 2], enc[pos + 3], big) + 4, w)
  }

  /** Python's del of a slice that may reach past the end. */
  function Delete(enc: seq<uint8>, from: nat, n: nat): (r: seq<uint8>)
    requires from <= |enc|
  {
    enc[..from] + if from + n <= |enc| then enc[from + n..] else []
  }

  /** What remove_value_with_tag leaves, for arbitrary bytes. */
  function Remove(enc: seq<uint8>, pos: nat, tag: uint16, big: bool, w: nat): seq<uint8>
    requires w >= 1
    decreases |enc| - pos
  {
    if pos + 4 >= |enc| then enc
    else if Num(enc[pos], enc[pos + 1], big) == tag then Delete(enc, pos, RecordLength(enc, pos, big, w))
    else Remove(enc, pos + RecordLength(enc, pos, big, w), tag, big, w)
  }

  /** A value to store: in the TLV region when `start` and `end` are both zero, else at that slice. */
  datatype MfgObj = MfgObj(id: uint16, start: nat, end: nat, encoded: seq<uint8>)
  {
    predicate IsTlv() {
      start == 0 && end == 0
    }
  }

  datatype Outcome = Written | CannotFit | LengthChanged | Overflow

  /** One turn of the loop in write. */
  function WriteObj(enc: seq<uint8>, regionStart: nat, o: MfgObj, big: bool, w: nat): (Outcome, seq<uint8>)
    requires w >= 1
  {
    if o.IsTlv() then
      var removed := Remove(enc, regionStart, o.id, big, w);
      if |o.encoded| >= 0x1_0000 then (Overflow, removed) else (Written, removed + MakeTlv(o.id, o.encoded, big, w))
    else if |enc| < o.end then (CannotFit, enc)
    else
      var spliced := Splice(enc, o);
      (if |spliced| == |enc| then Written else LengthChanged, spliced)
  }

  /** Python's assignment to the slice [start : end]. */
  function Splice(enc: seq<uint8>, o: MfgObj): seq<uint8>
    requires o.end <= |enc|
  {
    var from := if o.start <= |enc| then o.start else |enc|;
    enc[..from] + o.encoded + enc[if from <= o.end then o.end else from..]
  }

  function WriteAll(enc: seq<uint8>, regionStart: nat, objs: seq<MfgObj>, big: bool, w: nat): (Outcome, seq<uint8>)
    requires w >= 1
    decreases |objs|
  {
    if objs == [] then (Written, enc)
    else
      var r := WriteObj(enc, regionStart, objs[0], big, w);
      if r.0 != Written then r else WriteAll(r.1, regionStart, objs[1..], big, w)
  }

  /** Which objects are refused and how: a value too long for its length field, a slice past the end of the image,
      and bytes that are not as many as the slice they replace. */
  lemma OutcomeExactly(enc: seq<uint8>, regionStart: nat, o: MfgObj, big: bool, w: nat)
    requires w >= 1
    ensures
      var outcome := WriteObj(enc, regionStart, o, big, w).0;
      var tlv := o.start == 0 && o.end == 0;
      && (outcome == Overflow <==> tlv && |o.encoded| > 65535)
      && (outcome == CannotFit <==> !tlv && o.end > |enc|)
      && (outcome == LengthChanged <==> !tlv && o.end <= |enc| && |o.encoded| != if o.start <= o.end then o.end - o.start else 0)
  {
  }

  /** A slice in place of one of the same size, and nothing else. */
  lemma SpliceInPlace(enc: seq<uint8>, regionStart: nat, o: MfgObj, big: bool, w: nat)
    requires w >= 1 && !o.IsTlv() && WriteObj(enc, regionStart, o, big, w).0 == Written && o.start <= o.end
    ensures
      var r := WriteObj(enc, regionStart, o, big, w).1;
      && |r| == |enc| && o.end <= |enc|
      && forall i :: 0 <= i < |enc| ==> r[i] == if o.start <= i < o.end then o.encoded[i - o.start] else enc[i]
  {
  }

  /** The objects are written in order, each to what those before it left, and the first refusal ends the write. */
  lemma {:induction false} WriteInOrder(enc: seq<uint8>, regionStart: nat, objs: seq<MfgObj>, o: MfgObj, big: bool, w: nat)
    requires w >= 1
    ensures
      var before := WriteAll(enc, regionStart, objs, big, w);
      WriteAll(enc, regionStart, objs + [o], big, w)
      == if before.0 == Written then WriteObj(before.1, regionStart, o, big, w) else before
    decreases |objs|
  {
    hide WriteObj;
    if objs == [] {
      assert [] + [o] == [o] && [o][1..] == [];
    } else {
      assert (objs + [o])[1..] == objs[1..] + [o];
      WriteInOrder(WriteObj(enc, regionStart, objs[0], big, w).1, regionStart, objs[1..], o, big, w);
    }
  }

  // -------------------------------------------------------------------- the code

  class SidMfgOutBin {
    var encoded: seq<uint8>
    const regionStart: nat
    const wordSize: nat

    ghost predicate Valid() {
      wordSize >= 1
    }

    /** Opening an image: the bytes of the file, extended with 0xFF to the start of the region. */
    constructor (file: seq<uint8>, regionStart: nat, wordSize: nat)
      requires wordSize >= 1
      ensures Valid() && this.regionStart == regionStart && this.wordSize == wordSize
      ensures file <= encoded && |encoded| >= regionStart
      ensures |file| >= regionStart ==> encoded == file
      ensures forall i :: |file| <= i < |encoded| ==> encoded[i] == 0xFF
    {
      this.regionStart, this.wordSize := regionStart, wordSize;
      encoded := if |file| < regionStart then file + seq(regionStart - |file|, _ => 0xFF) else file;
    }

    method RemoveValueWithTag(tag: uint16, big: bool)
      requires Valid()
      modifies this
      ensures encoded == Remove(old(encoded), regionStart, tag, big, wordSize)
    {
      var pos := regionStart;
      while pos + 4 < |encoded|
        invariant encoded == old(encoded)
        invariant Remove(encoded, pos, tag, big, wordSize) == Remove(encoded, regionStart, tag, big, wordSize)
        decreases |encoded| - pos
      {
        var recordLen := Num(encoded[pos + 2], encoded[pos + 3], big) + 4;
        RoundUpFormula(recordLen, wordSize);
        recordLen := (recordLen + wordSize - 1) / wordSize * wordSize;
        if Num(encoded[pos], encoded[pos + 1], big) == tag {
          encoded := Delete(encoded, pos, recordLen);
          break;
        }
        pos := pos + recordLen;
      }
    }

    /** `objs` is the iteration order of the SidMfg: sorted by id. */
    method Write(objs: seq<MfgObj>, big: bool) returns (outcome: Outcome)
      requires Valid()
      modifies this
      ensures (outcome, encoded) == WriteAll(old(encoded), regionStart, objs, big, wordSize)
    {
      outcome := Written;
      var i := 0;
      while i < |objs|
        invariant 0 <= i <= |objs|
        invariant WriteAll(encoded, regionStart, objs[i..], big, wordSize) == WriteAll(old(encoded), regionStart, objs, big, wordSize)
      {
        var o := objs[i];
        assert objs[i..][1..] == objs[i + 1..];
        if o.IsTlv() {
          RemoveValueWithTag(o.id, big);
          if |o.encoded| >= 0x1_0000 {
            return Overflow;
          }
          encoded := encoded + MakeTlv(o.id, o.encoded, big, wordSize);
        } else {
          if |encoded| < o.end {
            return CannotFit;
          }
          var encodedLen := |encoded|;
          encoded := Splice(encoded, o);
          if encodedLen != |encoded| {
            return LengthChanged;
          }
        }
        i := i + 1;
      }
    }
  }
}
