/** The manufacturing image as a header and a list of tagged records: what write does to them. */
module MfgRegion {
  import opened Bits
  import opened MfgImage

  datatype Rec = Rec(tag: uint16, value: seq<uint8>)

  /** Byte order and word size of an image. */
  datatype Layout = Layout(big: bool, w: nat)
  {
    predicate Valid() {
      w >= 1
    }
  }

  ghost predicate Encodable(rs: seq<Rec>) {
    forall i :: 0 <= i < |rs| ==> |rs[i].value| < 0x1_0000
  }

  function EncodeRec(r: Rec, l: Layout): (b: seq<uint8>)
    requires l.Valid() && |r.value| < 0x1_0000
    ensures |b| == RoundUp(|r.value| + 4, l.w) >= 4
  {
    MakeTlv(r.tag, r.value, l.big, l.w)
  }

  ghost function Encode(rs: seq<Rec>, l: Layout): seq<uint8>
    requires l.Valid() && Encodable(rs)
  {
    if rs == [] then [] else EncodeRec(rs[0], l) + Encode(rs[1..], l)
  }

  lemma {:induction false} EncodeConcat(a: seq<Rec>, b: seq<Rec>, l: Layout)
    requires l.Valid() && Encodable(a) && Encodable(b)
    ensures Encode(a + b, l) == Encode(a, l) + Encode(b, l)
  {
    if a == [] {
      assert a + b == b;
    } else {
      assert (a + b)[1..] == a[1..] + b;
      EncodeConcat(a[1..], b, l);
    }
  }

  // ------------------------------------------------------------ removal, by record

  /** A record of four bytes: an empty value in an image whose words are at most four bytes. */
  predicate Bare(r: Rec, l: Layout)
    requires l.Valid()
  {
    RoundUp(|r.value| + 4, l.w) == 4
  }

  /** What remove_value_with_tag does to the records: its loop never examines a bare last record. */
  function RemoveSeen(rs: seq<Rec>, tag: uint16, l: Layout): (r: seq<Rec>)
    requires l.Valid()
  {
    if rs == [] || (|rs| == 1 && Bare(rs[0], l)) then rs
    else if rs[0].tag == tag then rs[1..]
    else [rs[0]] + RemoveSeen(rs[1..], tag, l)
  }

  lemma {:induction false} RemoveSeenEncodable(rs: seq<Rec>, tag: uint16, l: Layout)
    requires l.Valid() && Encodable(rs)
    ensures Encodable(RemoveSeen(rs, tag, l))
  {
    if rs != [] {
      RemoveSeenEncodable(rs[1..], tag, l);
    }
  }

  /** The head record of a region is read back as it was written. */
  lemma HeadOfRegion(pre: seq<uint8>, r: Rec, tail: seq<uint8>, l: Layout)
    requires l.Valid() && |r.value| < 0x1_0000
    ensures var enc := pre + EncodeRec(r, l) + tail;
      && Num(enc[|pre|], enc[|pre| + 1], l.big) == r.tag
      && RecordLength(enc, |pre|, l.big, l.w) == |EncodeRec(r, l)|
  {
    var enc, rec := pre + EncodeRec(r, l) + tail, EncodeRec(r, l);
    assert enc[|pre|] == rec[0] && enc[|pre| + 1] == rec[1] && enc[|pre| + 2] == rec[2] && enc[|pre| + 3] == rec[3];
    assert rec[0] == NumBytes(r.tag, l.big)[0] && rec[1] == NumBytes(r.tag, l.big)[1];
    assert rec[2] == NumBytes(|r.value|, l.big)[0] && rec[3] == NumBytes(|r.value|, l.big)[1];
  }

  lemma HeadDetermined(a: Rec, b: Rec, s: seq<uint8>, t: seq<uint8>, l: Layout)
    requires l.Valid() && |a.value| < 0x1_0000 && |b.value| < 0x1_0000
    requires EncodeRec(a, l) + s == EncodeRec(b, l) + t
    ensures a == b && s == t
  {
    var x, y := EncodeRec(a, l), EncodeRec(b, l);
    var whole := x + s;
    assert whole[0] == x[0] == y[0] && whole[1] == x[1] == y[1] && whole[2] == x[2] == y[2] && whole[3] == x[3] == y[3];
    assert x[..4] == NumBytes(a.tag, l.big) + NumBytes(|a.value|, l.big);
    assert y[..4] == NumBytes(b.tag, l.big) + NumBytes(|b.value|, l.big);
    assert Num(x[0], x[1], l.big) == a.tag && Num(y[0], y[1], l.big) == b.tag;
    assert Num(x[2], x[3], l.big) == |a.value| && Num(y[2], y[3], l.big) == |b.value|;
    assert x == whole[..|x|] == y;
    assert a.value == x[4..4 + |a.value|] && b.value == y[4..4 + |b.value|];
    assert s == whole[|x|..] == t;
  }

  /** A region's bytes determine its records. */
  lemma {:induction false} EncodeInjective(a: seq<Rec>, b: seq<Rec>, l: Layout)
    requires l.Valid() && Encodable(a) && Encodable(b) && Encode(a, l) == Encode(b, l)
    ensures a == b
  {
    if a != [] && b != [] {
      HeadDetermined(a[0], b[0], Encode(a[1..], l), Encode(b[1..], l), l);
      EncodeInjective(a[1..], b[1..], l);
      assert a == [a[0]] + a[1..] && b == [b[0]] + b[1..];
    }
  }

  lemma NotEmptyRegion(rs: seq<Rec>, l: Layout)
    requires l.Valid() && Encodable(rs)
    ensures |Encode(rs, l)| <= 4 <==> rs == [] || (|rs| == 1 && Bare(rs[0], l))
  {
    if |rs| > 1 {
      assert |Encode(rs[1..], l)| >= |EncodeRec(rs[1], l)|;
    }
  }

  lemma RemoveHere(pre: seq<uint8>, r: Rec, tail: seq<uint8>, l: Layout)
    requires l.Valid() && |r.value| < 0x1_0000 && |EncodeRec(r, l) + tail| > 4
    ensures Remove(pre + EncodeRec(r, l) + tail, |pre|, r.tag, l.big, l.w) == pre + tail
  {
    HeadOfRegion(pre, r, tail, l);
    DeleteMiddle(pre, EncodeRec(r, l), tail);
  }

  lemma DeleteMiddle(a: seq<uint8>, b: seq<uint8>, c: seq<uint8>)
    ensures Delete(a + b + c, |a|, |b|) == a + c
  {
    var s := a + b + c;
    assert s[..|a|] == a && s[|a| + |b|..] == c;
  }

  lemma RemoveSkips(pre: seq<uint8>, r: Rec, tail: seq<uint8>, tag: uint16, l: Layout)
    requires l.Valid() && |r.value| < 0x1_0000 && |EncodeRec(r, l) + tail| > 4 && r.tag != tag
    ensures Remove(pre + EncodeRec(r, l) + tail, |pre|, tag, l.big, l.w)
         == Remove(pre + EncodeRec(r, l) + tail, |pre + EncodeRec(r, l)|, tag, l.big, l.w)
  {
    HeadOfRegion(pre, r, tail, l);
  }

  lemma EncodeCons(r: Rec, rs: seq<Rec>, l: Layout)
    requires l.Valid() && |r.value| < 0x1_0000 && Encodable(rs)
    ensures Encodable([r] + rs) && Encode([r] + rs, l) == EncodeRec(r, l) + Encode(rs, l)
  {
    assert ([r] + rs)[1..] == rs;
  }

  /** The byte-level removal is the record-level one. */
  lemma {:induction false} RemoveRefines(pre: seq<uint8>, rs: seq<Rec>, tag: uint16, l: Layout)
    requires l.Valid() && Encodable(rs)
    ensures Encodable(RemoveSeen(rs, tag, l))
    ensures Remove(pre + Encode(rs, l), |pre|, tag, l.big, l.w) == pre + Encode(RemoveSeen(rs, tag, l), l)
    decreases |rs|
  {
    NotEmptyRegion(rs, l);
    RemoveSeenEncodable(rs, tag, l);
    if rs != [] && !(|rs| == 1 && Bare(rs[0], l)) {
      var rec, tail := EncodeRec(rs[0], l), Encode(rs[1..], l);
      ConcatAssoc(pre, rec, tail);
      if rs[0].tag == tag {
        RemoveHere(pre, rs[0], tail, l);
      } else {
        RemoveSkips(pre, rs[0], tail, tag, l);
        RemoveRefines(pre + rec, rs[1..], tag, l);
        var rest := RemoveSeen(rs[1..], tag, l);
        EncodeCons(rs[0], rest, l);
        ConcatAssoc(pre, rec, Encode(rest, l));
      }
    }
  }

  // ------------------------------------------------------------------ one write

  /** An object that belongs in this image: a TLV value of encodable length, or a slice of the header. */
  predicate Fits(o: MfgObj, headerSize: nat) {
    if o.IsTlv() then |o.encoded| < 0x1_0000 else o.start <= o.end <= headerSize && |o.encoded| == o.end - o.start
  }

  ghost predicate AllFit(objs: seq<MfgObj>, headerSize: nat) {
    forall i :: 0 <= i < |objs| ==> Fits(objs[i], headerSize)
  }

  function PutRecord(rs: seq<Rec>, o: MfgObj, l: Layout): seq<Rec>
    requires l.Valid()
  {
    if o.IsTlv() then RemoveSeen(rs, o.id, l) + [Rec(o.id, o.encoded)] else rs
  }

  function PutHeader(header: seq<uint8>, o: MfgObj): (h: seq<uint8>)
    requires Fits(o, |header|)
    ensures |h| == |header|
  {
    if o.IsTlv() then header else header[..o.start] + o.encoded + header[o.end..]
  }

  /** Header and records are edited independently. */
  lemma WriteObjRefines(header: seq<uint8>, rs: seq<Rec>, o: MfgObj, l: Layout)
    requires l.Valid() && Encodable(rs) && Fits(o, |header|)
    ensures Encodable(PutRecord(rs, o, l))
    ensures WriteObj(header + Encode(rs, l), |header|, o, l.big, l.w)
         == (Written, PutHeader(header, o) + Encode(PutRecord(rs, o, l), l))
  {
    if o.IsTlv() {
      PutRecordRefines(header, rs, o, l);
    } else {
      SpliceRefines(header, Encode(rs, l), o);
    }
  }

  lemma PutRecordRefines(header: seq<uint8>, rs: seq<Rec>, o: MfgObj, l: Layout)
    requires l.Valid() && Encodable(rs) && Fits(o, |header|) && o.IsTlv()
    ensures Encodable(PutRecord(rs, o, l))
    ensures Remove(header + Encode(rs, l), |header|, o.id, l.big, l.w) + MakeTlv(o.id, o.encoded, l.big, l.w)
         == header + Encode(PutRecord(rs, o, l), l)
  {
    RemoveRefines(header, rs, o.id, l);
    var kept, added := RemoveSeen(rs, o.id, l), Rec(o.id, o.encoded);
    EncodeCons(added, [], l);
    assert [added] + [] == [added];
    EncodeConcat(kept, [added], l);
    var rec := EncodeRec(added, l);
    assert Encode([added], l) == rec;
    ConcatAssoc(header, Encode(kept, l), rec);
  }

  lemma SpliceRefines(header: seq<uint8>, body: seq<uint8>, o: MfgObj)
    requires Fits(o, |header|) && !o.IsTlv()
    ensures Splice(header + body, o) == PutHeader(header, o) + body
  {
  }

  function PutRecords(rs: seq<Rec>, objs: seq<MfgObj>, l: Layout): seq<Rec>
    requires l.Valid()
    decreases |objs|
  {
    if objs == [] then rs else PutRecords(PutRecord(rs, objs[0], l), objs[1..], l)
  }

  ghost function PutHeaders(header: seq<uint8>, objs: seq<MfgObj>): (h: seq<uint8>)
    requires AllFit(objs, |header|)
    ensures |h| == |header|
    decreases |objs|
  {
    if objs == [] then header else PutHeaders(PutHeader(header, objs[0]), objs[1..])
  }

  lemma {:induction false} WriteAllRefines(header: seq<uint8>, rs: seq<Rec>, objs: seq<MfgObj>, l: Layout)
    requires l.Valid() && Encodable(rs) && AllFit(objs, |header|)
    ensures Encodable(PutRecords(rs, objs, l))
    ensures WriteAll(header + Encode(rs, l), |header|, objs, l.big, l.w)
         == (Written, PutHeaders(header, objs) + Encode(PutRecords(rs, objs, l), l))
    decreases |objs|
  {
    if objs != [] {
      WriteObjRefines(header, rs, objs[0], l);
      WriteAllRefines(PutHeader(header, objs[0]), PutRecord(rs, objs[0], l), objs[1..], l);
    }
  }

  // ------------------------------------------------------------ the region as a map

  ghost predicate Distinct(rs: seq<Rec>) {
    forall i, j :: 0 <= i < j < |rs| ==> rs[i].tag != rs[j].tag
  }

  /** The tags a region holds and their values. */
  ghost function MapOf(rs: seq<Rec>): map<uint16, seq<uint8>> {
    if rs == [] then map[] else MapOf(rs[1..])[rs[0].tag := rs[0].value]
  }

  ghost function Tags(rs: seq<Rec>): (t: set<uint16>)
    ensures forall x <- rs :: x.tag in t
    ensures forall y <- t :: exists x :: x in rs && x.tag == y
  {
    set x | x in rs :: x.tag
  }

  /** The record that the removal would have to find is last and bare. */
  predicate Blind(rs: seq<Rec>, tag: uint16, l: Layout)
    requires l.Valid()
  {
    rs != [] && rs[|rs| - 1].tag == tag && Bare(rs[|rs| - 1], l)
  }

  /** The records whose tag is not in `tags`, in order. */
  ghost function Without(rs: seq<Rec>, tags: set<uint16>): (r: seq<Rec>)
    ensures forall x <- r :: x in rs && x.tag !in tags
  {
    if rs == [] then []
    else if rs[0].tag in tags then Without(rs[1..], tags)
    else [rs[0]] + Without(rs[1..], tags)
  }

  lemma {:induction false} WithoutNone(rs: seq<Rec>, tags: set<uint16>)
    requires forall x <- rs :: x.tag !in tags
    ensures Without(rs, tags) == rs
  {
    if rs != [] {
      WithoutNone(rs[1..], tags);
    }
  }

  lemma {:induction false} RemoveSeenIsWithout(rs: seq<Rec>, tag: uint16, l: Layout)
    requires l.Valid() && Distinct(rs) && !Blind(rs, tag, l)
    ensures RemoveSeen(rs, tag, l) == Without(rs, {tag})
  {
    if rs != [] {
      if rs[0].tag == tag {
        forall x | x in rs[1..] ensures x.tag != tag {
          var i :| 0 <= i < |rs[1..]| && rs[1..][i] == x;
          assert rs[i + 1] == x;
        }
        WithoutNone(rs[1..], {tag});
      } else if |rs| == 1 {
        assert rs[1..] == [];
        assert rs == [rs[0]];
      } else {
        assert Distinct(rs[1..]) by {
          forall i, j | 0 <= i < j < |rs[1..]| ensures rs[1..][i].tag != rs[1..][j].tag {
            assert rs[i + 1].tag != rs[j + 1].tag;
          }
        }
        assert rs[1..][|rs| - 2] == rs[|rs| - 1];
        RemoveSeenIsWithout(rs[1..], tag, l);
      }
    }
  }

  lemma DistinctTail(rs: seq<Rec>)
    requires Distinct(rs) && rs != []
    ensures Distinct(rs[1..]) && rs[0].tag !in Tags(rs[1..])
  {
    forall i, j | 0 <= i < j < |rs[1..]| ensures rs[1..][i].tag != rs[1..][j].tag {
      assert rs[i + 1].tag != rs[j + 1].tag;
    }
    forall x | x in rs[1..] ensures x.tag != rs[0].tag {
      var i :| 0 <= i < |rs[1..]| && rs[1..][i] == x;
      assert rs[i + 1] == x;
    }
  }

  lemma {:induction false} RemoveAbsent(rs: seq<Rec>, tag: uint16, l: Layout)
    requires l.Valid() && tag !in Tags(rs)
    ensures RemoveSeen(rs, tag, l) == rs
  {
    if |rs| > 1 {
      RemoveAbsent(rs[1..], tag, l);
      assert rs == [rs[0]] + rs[1..];
    }
  }

  /** Records behind the one to remove make it seen, and stay. */
  lemma {:induction false} RemoveBefore(base: seq<Rec>, done: seq<Rec>, tag: uint16, l: Layout)
    requires l.Valid() && Distinct(base) && tag !in Tags(done) && (done == [] ==> !Blind(base, tag, l))
    ensures RemoveSeen(base + done, tag, l) == Without(base, {tag}) + done
  {
    if done == [] {
      assert base + done == base;
      RemoveSeenIsWithout(base, tag, l);
    } else if base == [] {
      assert base + done == done;
      RemoveAbsent(done, tag, l);
    } else {
      DistinctTail(base);
      assert (base + done)[1..] == base[1..] + done;
      if base[0].tag == tag {
        WithoutNone(base[1..], {tag});
      } else {
        RemoveBefore(base[1..], done, tag, l);
        ConcatAssoc([base[0]], Without(base[1..], {tag}), done);
      }
    }
  }

  lemma DistinctConcat(a: seq<Rec>, b: seq<Rec>)
    requires Distinct(a) && Distinct(b) && Tags(a) !! Tags(b)
    ensures Distinct(a + b)
  {
    var c := a + b;
    forall i, j | 0 <= i < j < |c| ensures c[i].tag != c[j].tag {
      if i < |a| <= j {
        assert a[i] in a && b[j - |a|] in b;
      }
    }
  }

  lemma {:induction false} WithoutConcat(a: seq<Rec>, b: seq<Rec>, tags: set<uint16>)
    ensures Without(a + b, tags) == Without(a, tags) + Without(b, tags)
  {
    if a == [] {
      assert a + b == b;
    } else {
      assert (a + b)[1..] == a[1..] + b;
      WithoutConcat(a[1..], b, tags);
    }
  }

  lemma {:induction false} WithoutTwice(rs: seq<Rec>, s: set<uint16>, t: set<uint16>)
    ensures Without(Without(rs, s), t) == Without(rs, s + t)
  {
    if rs != [] {
      WithoutTwice(rs[1..], s, t);
      if rs[0].tag !in s {
        var rest := Without(rs[1..], s);
        assert ([rs[0]] + rest)[1..] == rest;
      }
    }
  }

  lemma {:induction false} WithoutAll(rs: seq<Rec>, tags: set<uint16>)
    requires Tags(rs) <= tags
    ensures Without(rs, tags) == []
  {
    if rs != [] {
      assert rs[0] in rs;
      assert Tags(rs[1..]) <= Tags(rs);
      WithoutAll(rs[1..], tags);
    }
  }

  lemma {:induction false} DistinctWithout(rs: seq<Rec>, tags: set<uint16>)
    requires Distinct(rs)
    ensures Distinct(Without(rs, tags))
  {
    if rs != [] {
      DistinctTail(rs);
      DistinctWithout(rs[1..], tags);
      if rs[0].tag !in tags {
        var rest := Without(rs[1..], tags);
        assert Tags([rs[0]]) == {rs[0].tag} by { assert rs[0] in [rs[0]]; }
        DistinctConcat([rs[0]], rest);
      }
    }
  }

  lemma {:induction false} MapWithout(rs: seq<Rec>, tags: set<uint16>)
    ensures MapOf(Without(rs, tags)) == MapOf(rs) - tags
  {
    if rs != [] {
      MapWithout(rs[1..], tags);
      if rs[0].tag !in tags {
        var rest := Without(rs[1..], tags);
        assert ([rs[0]] + rest)[1..] == rest;
      }
    }
  }

  lemma {:induction false} MapAppend(rs: seq<Rec>, r: Rec)
    requires r.tag !in Tags(rs)
    ensures MapOf(rs + [r]) == MapOf(rs)[r.tag := r.value]
  {
    if rs == [] {
      assert rs + [r] == [r] && [r][1..] == [];
    } else {
      assert (rs + [r])[1..] == rs[1..] + [r];
      assert rs[0] in rs && Tags(rs[1..]) <= Tags(rs);
      MapAppend(rs[1..], r);
    }
  }

  lemma {:induction false} MapKeys(rs: seq<Rec>)
    ensures MapOf(rs).Keys == Tags(rs)
  {
    if rs != [] {
      MapKeys(rs[1..]);
      assert rs[0] in rs;
      assert rs == [rs[0]] + rs[1..];
    }
  }

  lemma {:induction false} MapConcat(a: seq<Rec>, b: seq<Rec>)
    requires Tags(a) !! Tags(b)
    ensures MapOf(a + b) == MapOf(a) + MapOf(b)
  {
    if a == [] {
      assert a + b == b;
    } else {
      assert (a + b)[1..] == a[1..] + b;
      assert a[0] in a && Tags(a[1..]) <= Tags(a);
      MapConcat(a[1..], b);
      MapKeys(b);
    }
  }

  lemma {:induction false} LastUnseen(before: seq<Rec>, r: Rec, tag: uint16, l: Layout)
    requires l.Valid() && tag !in Tags(before) && Bare(r, l)
    ensures RemoveSeen(before + [r], tag, l) == before + [r]
  {
    hide Bare;
    var rs := before + [r];
    if before == [] {
      assert rs == [r];
    } else {
      LastUnseen(before[1..], r, tag, l);
      assert before[0] in before && rs[0] == before[0] && rs[1..] == before[1..] + [r];
      assert rs == [rs[0]] + rs[1..];
    }
  }

  lemma BlindRemovesNothing(rs: seq<Rec>, tag: uint16, l: Layout)
    requires l.Valid() && Distinct(rs) && Blind(rs, tag, l)
    ensures RemoveSeen(rs, tag, l) == rs
  {
    hide RemoveSeen, Bare;
    var n := |rs| - 1;
    assert rs == rs[..n] + [rs[n]];
    LastUnseen(rs[..n], rs[n], tag, l);
  }

  /** A write of one value is a map update that keeps tags unique, the other records' bytes and their
      order, exactly when the value it replaces is not a bare last record. */
  lemma PutIsUpdate(rs: seq<Rec>, o: MfgObj, l: Layout)
    requires l.Valid() && Distinct(rs) && o.IsTlv()
    ensures Distinct(PutRecord(rs, o, l)) <==> !Blind(rs, o.id, l)
    ensures !Blind(rs, o.id, l) ==>
      && PutRecord(rs, o, l) == Without(rs, {o.id}) + [Rec(o.id, o.encoded)]
      && MapOf(PutRecord(rs, o, l)) == MapOf(rs)[o.id := o.encoded]
  {
    var added := Rec(o.id, o.encoded);
    if Blind(rs, o.id, l) {
      BlindRemovesNothing(rs, o.id, l);
      var put := rs + [added];
      assert put[|rs| - 1].tag == put[|rs|].tag;
    } else {
      RemoveSeenIsWithout(rs, o.id, l);
      var kept := Without(rs, {o.id});
      DistinctWithout(rs, {o.id});
      assert Tags([added]) == {o.id} by { assert added in [added]; }
      DistinctConcat(kept, [added]);
      MapWithout(rs, {o.id});
      MapAppend(kept, added);
    }
  }
}
