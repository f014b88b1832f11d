/** A whole write of a SidMfg to an image, and the same write again. */
module MfgRewrite {
  import opened Bits
  import opened MfgImage
  import opened MfgRegion

  /** The TLV values among the objects, in order. */
  ghost function Tlvs(objs: seq<MfgObj>): (rs: seq<Rec>)
    ensures |rs| <= |objs|
  {
    if objs == [] then []
    else if objs[0].IsTlv() then [Rec(objs[0].id, objs[0].encoded)] + Tlvs(objs[1..])
    else Tlvs(objs[1..])
  }

  // ------------------------------------------------------------------- records

  lemma TagsConcat(a: seq<Rec>, b: seq<Rec>)
    ensures Tags(a + b) == Tags(a) + Tags(b)
  {
    forall t | t in Tags(a) + Tags(b) ensures t in Tags(a + b) {
      var x :| (x in a || x in b) && x.tag == t;
      assert x in a + b;
    }
  }

  lemma TagsOne(r: Rec)
    ensures Tags([r]) == {r.tag}
  {
    assert r in [r];
  }

  lemma WithoutTags(rs: seq<Rec>, tags: set<uint16>)
    ensures Tags(Without(rs, tags)) <= Tags(rs) && Tags(Without(rs, tags)) !! tags
  {
  }

  /** Invariant of the loop in write: some records from before, then those that stay. */
  ghost predicate Midway(base: seq<Rec>, done: seq<Rec>, todo: seq<Rec>, l: Layout)
    requires l.Valid()
  {
    && Distinct(base) && Distinct(todo) && Tags(done) !! Tags(todo)
    && (done == [] && todo != [] ==> !Blind(base, todo[0].tag, l))
  }

  /** One value moves from the values to write to the end of the region. */
  lemma MidwayStep(base: seq<Rec>, done: seq<Rec>, todo: seq<Rec>, o: MfgObj, l: Layout)
    requires l.Valid() && Midway(base, done, todo, l)
    requires o.IsTlv() && todo != [] && todo[0] == Rec(o.id, o.encoded)
    ensures var base' := Without(base, {o.id});
      && PutRecord(base + done, o, l) == base' + (done + [todo[0]])
      && Midway(base', done + [todo[0]], todo[1..], l)
  {
    var r, base' := todo[0], Without(base, {o.id});
    assert r in todo;
    RemoveBefore(base, done, o.id, l);
    ConcatAssoc(base', done, [r]);
    DistinctTail(todo);
    DistinctWithout(base, {r.tag});
    TagsOne(r);
    assert Tags(todo[1..]) <= Tags(todo);
    TagsConcat(done, [r]);
  }

  /** The records after a whole write: the old ones that were not rewritten, then the new ones. */
  lemma {:induction false} PutRecordsFrom(base: seq<Rec>, done: seq<Rec>, objs: seq<MfgObj>, l: Layout)
    requires l.Valid() && Midway(base, done, Tlvs(objs), l)
    ensures PutRecords(base + done, objs, l) == Without(base, Tags(Tlvs(objs))) + (done + Tlvs(objs))
    decreases |objs|
  {
    var todo := Tlvs(objs);
    if objs == [] {
      WithoutNone(base, {});
      assert Tags(todo) == {} && done + todo == done;
    } else if objs[0].IsTlv() {
      var r, base' := todo[0], Without(base, {objs[0].id});
      assert todo[1..] == Tlvs(objs[1..]);
      MidwayStep(base, done, todo, objs[0], l);
      PutRecordsFrom(base', done + [r], objs[1..], l);
      WithoutTwice(base, {r.tag}, Tags(todo[1..]));
      assert todo == [r] + todo[1..];
      TagsOne(r);
      TagsConcat([r], todo[1..]);
      ConcatAssoc(done, [r], todo[1..]);
    } else {
      PutRecordsFrom(base, done, objs[1..], l);
    }
  }

  /** The first value to write would replace a bare last record. */
  ghost predicate BlindWrite(rs: seq<Rec>, objs: seq<MfgObj>, l: Layout)
    requires l.Valid()
  {
    Tlvs(objs) != [] && Blind(rs, Tlvs(objs)[0].tag, l)
  }

  lemma WriteIsUpdate(rs: seq<Rec>, objs: seq<MfgObj>, l: Layout)
    requires l.Valid() && Distinct(rs) && Distinct(Tlvs(objs)) && !BlindWrite(rs, objs, l)
    ensures PutRecords(rs, objs, l) == Without(rs, Tags(Tlvs(objs))) + Tlvs(objs)
    ensures Distinct(PutRecords(rs, objs, l))
  {
    var news := Tlvs(objs);
    PutRecordsFrom(rs, [], objs, l);
    assert rs + [] == rs && [] + news == news;
    DistinctWithout(rs, Tags(news));
    WithoutTags(rs, Tags(news));
    DistinctConcat(Without(rs, Tags(news)), news);
  }

  /** Seen as a map, the region is updated by the values written and by nothing else, unless a bare last
      record hides a value that is not empty. */
  lemma WriteIsMapUpdate(rs: seq<Rec>, objs: seq<MfgObj>, l: Layout)
    requires l.Valid() && Distinct(rs) && Distinct(Tlvs(objs))
    ensures MapOf(PutRecords(rs, objs, l)) == MapOf(rs) + MapOf(Tlvs(objs))
       <==> (BlindWrite(rs, objs, l) ==> Bare(Tlvs(objs)[0], l))
  {
    var news := Tlvs(objs);
    if BlindWrite(rs, objs, l) {
      BlindMap(rs, objs, l);
    } else {
      WriteIsUpdate(rs, objs, l);
      UpdatedMap(rs, news);
    }
  }

  lemma UpdatedMap(rs: seq<Rec>, news: seq<Rec>)
    ensures MapOf(Without(rs, Tags(news)) + news) == MapOf(rs) + MapOf(news)
  {
    WithoutTags(rs, Tags(news));
    MapConcat(Without(rs, Tags(news)), news);
    MapWithout(rs, Tags(news));
    MapKeys(news);
    OverrideKeys(MapOf(rs), MapOf(news));
  }

  /** The bare record comes first, so its empty value is the one the region shows. */
  lemma BlindMap(rs: seq<Rec>, objs: seq<MfgObj>, l: Layout)
    requires l.Valid() && Distinct(rs) && Distinct(Tlvs(objs)) && BlindWrite(rs, objs, l)
    ensures MapOf(PutRecords(rs, objs, l)) == MapOf(rs) + MapOf(Tlvs(objs)) <==> Bare(Tlvs(objs)[0], l)
  {
    hide PutRecords, Tlvs;
    var n, news := |rs| - 1, Tlvs(objs);
    var bare, new1, kept := rs[n], news[0], Without(rs[..n], Tags(news));
    BlindOnce(rs, objs, l);
    BareIsEmpty(bare, l);
    BareIsEmpty(new1, l);
    MapHead(kept, bare, news);
    MapHead([], new1, news[1..]);
    assert [] + ([new1] + news[1..]) == news;
    if new1 == bare {
      DroppedLast(rs, news);
      UpdatedMap(rs, news);
      MapRepeats(kept, news);
    } else {
      assert MapOf(news)[new1.tag] == new1.value;
    }
  }

  /** The first record of a tag gives its value. */
  lemma {:induction false} MapHead(kept: seq<Rec>, r: Rec, tail: seq<Rec>)
    requires r.tag !in Tags(kept)
    ensures r.tag in MapOf(kept + ([r] + tail)) && MapOf(kept + ([r] + tail))[r.tag] == r.value
  {
    var rs := kept + ([r] + tail);
    if kept == [] {
      assert rs == [r] + tail && rs[1..] == tail;
    } else {
      MapHead(kept[1..], r, tail);
      assert rs[1..] == kept[1..] + ([r] + tail) && kept[0] in kept;
    }
  }

  lemma MapRepeats(kept: seq<Rec>, news: seq<Rec>)
    requires news != [] && Tags(kept) !! Tags(news)
    ensures MapOf(kept + ([news[0]] + news)) == MapOf(kept + news)
  {
    hide MapOf;
    var again := [news[0]] + news;
    assert news[0] in news;
    TagsConcat([news[0]], news);
    TagsOne(news[0]);
    MapConcat(kept, again);
    MapConcat(kept, news);
    MapTwice(news);
  }

  lemma MapTwice(news: seq<Rec>)
    requires news != []
    ensures MapOf([news[0]] + news) == MapOf(news)
  {
    assert ([news[0]] + news)[1..] == news;
  }

  lemma DroppedLast(rs: seq<Rec>, news: seq<Rec>)
    requires rs != [] && rs[|rs| - 1].tag in Tags(news)
    ensures Without(rs, Tags(news)) == Without(rs[..|rs| - 1], Tags(news))
  {
    hide Without;
    var n := |rs| - 1;
    assert rs == rs[..n] + [rs[n]];
    WithoutConcat(rs[..n], [rs[n]], Tags(news));
    TagsOne(rs[n]);
    WithoutAll([rs[n]], Tags(news));
  }

  lemma OverrideKeys(m: map<uint16, seq<uint8>>, n: map<uint16, seq<uint8>>)
    ensures (m - n.Keys) + n == m + n
  {
  }

  /** Writing the same values again leaves the records as they are: the condition, checkable beforehand. */
  ghost predicate Settles(rs: seq<Rec>, objs: seq<MfgObj>, l: Layout)
    requires l.Valid()
  {
    var news := Tlvs(objs);
    if BlindWrite(rs, objs, l) then Bare(news[0], l) else !(|news| == 1 && Bare(news[0], l))
  }

  /** Writing the same values again rotates the tail of the region back to where it was. */
  lemma SecondWriteOfRecords(rs: seq<Rec>, objs: seq<MfgObj>, l: Layout)
    requires l.Valid() && Distinct(rs) && Distinct(Tlvs(objs))
    ensures var once := PutRecords(rs, objs, l);
            PutRecords(once, objs, l) == once <==> Settles(rs, objs, l)
  {
    if BlindWrite(rs, objs, l) {
      BlindTwice(rs, objs, l);
    } else if |Tlvs(objs)| == 1 && Bare(Tlvs(objs)[0], l) {
      RewriteDuplicates(rs, objs, l);
    } else {
      RewriteKeeps(rs, objs, l);
    }
  }

  lemma RewriteDuplicates(rs: seq<Rec>, objs: seq<MfgObj>, l: Layout)
    requires l.Valid() && Distinct(rs) && Distinct(Tlvs(objs)) && !BlindWrite(rs, objs, l)
    requires |Tlvs(objs)| == 1 && Bare(Tlvs(objs)[0], l)
    ensures PutRecords(PutRecords(rs, objs, l), objs, l) != PutRecords(rs, objs, l)
  {
    hide PutRecords, Without;
    var once := PutRecords(rs, objs, l);
    WriteIsUpdate(rs, objs, l);
    var n := |once| - 1;
    assert once[n] == Tlvs(objs)[0];
    BlindOnce(once, objs, l);
    assert PutRecords(once, objs, l)[|PutRecords(once, objs, l)| - 2] == once[n];
  }

  lemma RewriteKeeps(rs: seq<Rec>, objs: seq<MfgObj>, l: Layout)
    requires l.Valid() && Distinct(rs) && Distinct(Tlvs(objs)) && !BlindWrite(rs, objs, l)
    requires !(|Tlvs(objs)| == 1 && Bare(Tlvs(objs)[0], l))
    ensures PutRecords(PutRecords(rs, objs, l), objs, l) == PutRecords(rs, objs, l)
  {
    var once := PutRecords(rs, objs, l);
    WriteIsUpdate(rs, objs, l);
    NotBlindAgain(Without(rs, Tags(Tlvs(objs))), objs, l);
    WriteIsUpdate(once, objs, l);
    RewriteRestores(rs, Tlvs(objs));
  }

  lemma NotBlindAgain(kept: seq<Rec>, objs: seq<MfgObj>, l: Layout)
    requires l.Valid() && Distinct(Tlvs(objs)) && !(|Tlvs(objs)| == 1 && Bare(Tlvs(objs)[0], l))
    ensures !BlindWrite(kept + Tlvs(objs), objs, l)
  {
    var news := Tlvs(objs);
    if news != [] {
      assert (kept + news)[|kept + news| - 1] == news[|news| - 1];
    }
  }

  lemma RewriteRestores(rs: seq<Rec>, news: seq<Rec>)
    ensures var kept := Without(rs, Tags(news)); Without(kept + news, Tags(news)) + news == kept + news
  {
    var kept := Without(rs, Tags(news));
    WithoutConcat(kept, news, Tags(news));
    WithoutAll(news, Tags(news));
    WithoutTwice(rs, Tags(news), Tags(news));
    assert Tags(news) + Tags(news) == Tags(news);
    assert kept + [] == kept;
  }

  /** The objects behind the first TLV value, which `put` is the effect of. */
  lemma {:induction false} AfterFirst(rs: seq<Rec>, objs: seq<MfgObj>, l: Layout) returns (rest: seq<MfgObj>)
    requires l.Valid() && Tlvs(objs) != []
    ensures Tlvs(rest) == Tlvs(objs)[1..]
    ensures PutRecords(rs, objs, l) == PutRecords(RemoveSeen(rs, Tlvs(objs)[0].tag, l) + [Tlvs(objs)[0]], rest, l)
    decreases |objs|
  {
    if objs[0].IsTlv() { rest := objs[1..]; } else { rest := AfterFirst(rs, objs[1..], l); }
  }

  /** The bare record is not replaced: it stays, and all the values follow. */
  lemma BlindOnce(rs: seq<Rec>, objs: seq<MfgObj>, l: Layout)
    requires l.Valid() && Distinct(rs) && Distinct(Tlvs(objs)) && BlindWrite(rs, objs, l)
    ensures var n := |rs| - 1;
            PutRecords(rs, objs, l) == Without(rs[..n], Tags(Tlvs(objs))) + ([rs[n]] + Tlvs(objs))
  {
    hide PutRecords, RemoveSeen, Tlvs, Without;
    var n, news := |rs| - 1, Tlvs(objs);
    var before, bare, new1 := rs[..n], rs[n], news[0];
    var rest := AfterFirst(rs, objs, l);
    BlindRemovesNothing(rs, new1.tag, l);
    assert rs + [new1] == before + [bare, new1];
    BlindRest(before, bare, news, rest, l);
  }

  lemma BlindRest(before: seq<Rec>, bare: Rec, news: seq<Rec>, rest: seq<MfgObj>, l: Layout)
    requires l.Valid() && Distinct(before + [bare]) && news != [] && Distinct(news) && bare.tag == news[0].tag
    requires Tlvs(rest) == news[1..]
    ensures PutRecords(before + [bare, news[0]], rest, l) == Without(before, Tags(news)) + ([bare] + news)
  {
    hide PutRecords, Tlvs, Without;
    var new1 := news[0];
    FirstAmong(news);
    assert Tags([bare, new1]) == {new1.tag} by { assert new1 in [bare, new1]; }
    NotIn(before, bare);
    PutRecordsFrom(before, [bare, new1], rest, l);
    assert [bare, new1] + news[1..] == [bare] + news;
    WithoutNone(before, {new1.tag});
    WithoutTwice(before, {new1.tag}, Tags(news[1..]));
  }

  lemma NotIn(rs: seq<Rec>, r: Rec)
    requires Distinct(rs + [r])
    ensures Distinct(rs) && r.tag !in Tags(rs)
  {
    forall i | 0 <= i < |rs| ensures rs[i].tag != r.tag {
      assert (rs + [r])[i].tag != (rs + [r])[|rs|].tag;
    }
    forall i, j | 0 <= i < j < |rs| ensures rs[i].tag != rs[j].tag {
      assert (rs + [r])[i].tag != (rs + [r])[j].tag;
    }
  }

  lemma FirstAmong(news: seq<Rec>)
    requires news != [] && Distinct(news)
    ensures Distinct(news[1..]) && news[0].tag !in Tags(news[1..]) && Tags(news) == {news[0].tag} + Tags(news[1..])
  {
    DistinctTail(news);
    assert news == [news[0]] + news[1..];
    TagsConcat([news[0]], news[1..]);
    TagsOne(news[0]);
  }

  /** The second write finds the bare record, because values follow it, and takes it for the first of them. */
  lemma BlindTwice(rs: seq<Rec>, objs: seq<MfgObj>, l: Layout)
    requires l.Valid() && Distinct(rs) && Distinct(Tlvs(objs)) && BlindWrite(rs, objs, l)
    ensures var once := PutRecords(rs, objs, l);
            PutRecords(once, objs, l) == once <==> Bare(Tlvs(objs)[0], l)
  {
    hide PutRecords, Tlvs, Without;
    var n, news := |rs| - 1, Tlvs(objs);
    var kept, bare, new1 := Without(rs[..n], Tags(news)), rs[n], news[0];
    BlindOnce(rs, objs, l);
    assert Distinct(rs[..n]);
    DistinctWithout(rs[..n], Tags(news));
    BlindAgain(kept, bare, objs, l);
    BareIsEmpty(bare, l);
    BareIsEmpty(new1, l);
    SameIffSameHead(kept, bare, new1, news);
  }

  lemma SameIffSameHead(kept: seq<Rec>, a: Rec, b: Rec, news: seq<Rec>)
    ensures kept + ([b] + news) == kept + ([a] + news) <==> a == b
  {
    assert (kept + ([a] + news))[|kept|] == a && (kept + ([b] + news))[|kept|] == b;
  }

  lemma BareIsEmpty(r: Rec, l: Layout)
    requires l.Valid()
    ensures Bare(r, l) ==> r.value == []
  {
  }

  lemma BlindAgain(kept: seq<Rec>, bare: Rec, objs: seq<MfgObj>, l: Layout)
    requires l.Valid() && Distinct(kept) && Distinct(Tlvs(objs)) && Tlvs(objs) != []
    requires Tags(kept) !! Tags(Tlvs(objs)) && bare.tag == Tlvs(objs)[0].tag
    ensures PutRecords(kept + ([bare] + Tlvs(objs)), objs, l) == kept + ([Tlvs(objs)[0]] + Tlvs(objs))
  {
    hide PutRecords, RemoveSeen, Tlvs;
    var news := Tlvs(objs);
    var new1 := news[0];
    var rest := AfterFirst(kept + ([bare] + news), objs, l);
    assert new1 in news;
    RemoveInside(kept, bare, news, l);
    FirstAmong(news);
    DistinctConcat(kept, news);
    TagsOne(new1);
    PutRecordsFrom(kept + news, [new1], rest, l);
    assert [new1] + news[1..] == news;
    OnlyFirstLeft(kept, news);
    ConcatAssoc(kept, [new1], news);
  }

  lemma OnlyFirstLeft(kept: seq<Rec>, news: seq<Rec>)
    requires Tags(kept) !! Tags(news) && news != [] && Distinct(news)
    ensures Without(kept + news, Tags(news[1..])) == kept + [news[0]]
  {
    hide Without;
    FirstAmong(news);
    assert news == [news[0]] + news[1..];
    WithoutConcat(kept, news, Tags(news[1..]));
    WithoutConcat([news[0]], news[1..], Tags(news[1..]));
    WithoutNone(kept, Tags(news[1..]));
    WithoutNone([news[0]], Tags(news[1..]));
    WithoutAll(news[1..], Tags(news[1..]));
    assert [news[0]] + [] == [news[0]];
  }

  lemma {:induction false} RemoveInside(kept: seq<Rec>, r: Rec, tail: seq<Rec>, l: Layout)
    requires l.Valid() && r.tag !in Tags(kept) && tail != []
    ensures RemoveSeen(kept + ([r] + tail), r.tag, l) == kept + tail
  {
    hide Bare;
    var rs := kept + ([r] + tail);
    if kept == [] {
      assert rs == [r] + tail && rs[1..] == tail;
      assert kept + tail == tail;
    } else {
      var k := kept[0];
      assert k in kept;
      RemoveInside(kept[1..], r, tail, l);
      assert rs[0] == k && rs[1..] == kept[1..] + ([r] + tail);
      assert RemoveSeen(rs, r.tag, l) == [k] + (kept[1..] + tail);
      assert kept == [k] + kept[1..];
      ConcatAssoc([k], kept[1..], tail);
    }
  }

  // -------------------------------------------------------------------- header

  ghost predicate Covers(o: MfgObj, i: nat) {
    !o.IsTlv() && o.start <= i < o.end
  }

  ghost predicate CoveredBy(objs: seq<MfgObj>, i: nat) {
    exists k :: 0 <= k < |objs| && Covers(objs[k], i)
  }

  lemma PutHeaderByte(h: seq<uint8>, o: MfgObj, i: nat)
    requires Fits(o, |h|) && i < |h|
    ensures PutHeader(h, o)[i] == if Covers(o, i) then o.encoded[i - o.start] else h[i]
  {
  }

  /** A header byte depends only on the last field written over it. */
  lemma {:induction false} HeaderByte(h: seq<uint8>, h': seq<uint8>, objs: seq<MfgObj>, i: nat)
    requires |h| == |h'| && AllFit(objs, |h|) && i < |h| && (CoveredBy(objs, i) || h[i] == h'[i])
    ensures PutHeaders(h, objs)[i] == PutHeaders(h', objs)[i]
    decreases |objs|
  {
    if objs != [] {
      PutHeaderByte(h, objs[0], i);
      PutHeaderByte(h', objs[0], i);
      if CoveredBy(objs, i) && !Covers(objs[0], i) {
        var k :| 0 <= k < |objs| && Covers(objs[k], i);
        assert Covers(objs[1..][k - 1], i);
      }
      HeaderByte(PutHeader(h, objs[0]), PutHeader(h', objs[0]), objs[1..], i);
    }
  }

  /** After a write a header byte is that of the last field over it, and no field leaves it as it was. */
  lemma {:induction false} LastFieldWins(h: seq<uint8>, objs: seq<MfgObj>, i: nat, k: nat)
    requires AllFit(objs, |h|) && i < |h| && k < |objs| && Covers(objs[k], i)
    requires forall j :: k < j < |objs| ==> !Covers(objs[j], i)
    ensures i - objs[k].start < |objs[k].encoded| && PutHeaders(h, objs)[i] == objs[k].encoded[i - objs[k].start]
    decreases |objs|
  {
    assert Fits(objs[k], |h|);
    PutHeaderByte(h, objs[0], i);
    assert forall j :: 0 <= j < |objs[1..]| ==> objs[1..][j] == objs[j + 1];
    if k == 0 {
      HeaderByteKept(PutHeader(h, objs[0]), objs[1..], i);
    } else {
      LastFieldWins(PutHeader(h, objs[0]), objs[1..], i, k - 1);
    }
  }

  lemma {:induction false} HeaderByteKept(h: seq<uint8>, objs: seq<MfgObj>, i: nat)
    requires AllFit(objs, |h|) && i < |h| && !CoveredBy(objs, i)
    ensures PutHeaders(h, objs)[i] == h[i]
    decreases |objs|
  {
    if objs != [] {
      assert !Covers(objs[0], i);
      PutHeaderByte(h, objs[0], i);
      assert forall k :: 0 <= k < |objs[1..]| ==> objs[1..][k] == objs[k + 1];
      HeaderByteKept(PutHeader(h, objs[0]), objs[1..], i);
    }
  }

  lemma SecondWriteOfHeader(h: seq<uint8>, objs: seq<MfgObj>)
    requires AllFit(objs, |h|)
    ensures PutHeaders(PutHeaders(h, objs), objs) == PutHeaders(h, objs)
  {
    var once := PutHeaders(h, objs);
    var twice := PutHeaders(once, objs);
    forall i | 0 <= i < |h| ensures twice[i] == once[i] {
      if CoveredBy(objs, i) {
        HeaderByte(once, h, objs, i);
      } else {
        HeaderByteKept(once, objs, i);
      }
    }
  }

  // --------------------------------------------------------------------- image

  /** The records after a whole write. */
  ghost function Rewritten(rs: seq<Rec>, objs: seq<MfgObj>, l: Layout): seq<Rec>
    requires l.Valid()
  {
    var news := Tlvs(objs);
    if BlindWrite(rs, objs, l) then Without(rs[..|rs| - 1], Tags(news)) + ([rs[|rs| - 1]] + news)
    else Without(rs, Tags(news)) + news
  }

  lemma WriteIsRewritten(rs: seq<Rec>, objs: seq<MfgObj>, l: Layout)
    requires l.Valid() && Distinct(rs) && Distinct(Tlvs(objs))
    ensures PutRecords(rs, objs, l) == Rewritten(rs, objs, l)
    ensures Distinct(Rewritten(rs, objs, l)) <==> !BlindWrite(rs, objs, l)
  {
    hide PutRecords, Tlvs, Without;
    if BlindWrite(rs, objs, l) {
      BlindOnce(rs, objs, l);
      var out := Rewritten(rs, objs, l);
      var k := |out| - |Tlvs(objs)|;
      assert out[k - 1].tag == out[k].tag;
    } else {
      WriteIsUpdate(rs, objs, l);
    }
  }

  /** A whole write succeeds; it replaces the rewritten records (except a bare last one), keeps the other
      ones in place and in order, and touches the header only in the fields it is given. */
  lemma WriteImage(header: seq<uint8>, rs: seq<Rec>, objs: seq<MfgObj>, l: Layout)
    requires l.Valid() && Encodable(rs) && AllFit(objs, |header|) && Distinct(rs) && Distinct(Tlvs(objs))
    ensures var out := Rewritten(rs, objs, l);
      && Encodable(out) && (Distinct(out) <==> !BlindWrite(rs, objs, l))
      && WriteAll(header + Encode(rs, l), |header|, objs, l.big, l.w) == (Written, PutHeaders(header, objs) + Encode(out, l))
  {
    hide Rewritten, BlindWrite;
    WriteAllRefines(header, rs, objs, l);
    WriteIsRewritten(rs, objs, l);
  }

  /** Writing the same SidMfg twice gives a byte-identical image, except around a bare last record (an empty
      value in an image with words of at most four bytes): a write of one such value alone duplicates it, and
      a write that has just failed to replace one by something else overwrites it the second time. */
  lemma WriteTwice(header: seq<uint8>, rs: seq<Rec>, objs: seq<MfgObj>, l: Layout)
    requires l.Valid() && Encodable(rs) && AllFit(objs, |header|) && Distinct(rs) && Distinct(Tlvs(objs))
    ensures var once := WriteAll(header + Encode(rs, l), |header|, objs, l.big, l.w).1;
            var twice := WriteAll(once, |header|, objs, l.big, l.w);
            twice == (Written, once) <==> Settles(rs, objs, l)
  {
    WriteAllRefines(header, rs, objs, l);
    var h1, r1 := PutHeaders(header, objs), PutRecords(rs, objs, l);
    WriteAllRefines(h1, r1, objs, l);
    SecondWriteOfHeader(header, objs);
    SameImageIffSameRecords(rs, objs, l, h1);
  }

  /** One empty value, twice into an image without records and with words of four bytes: eight bytes, not four. */
  lemma EmptyValueTwice(header: seq<uint8>, tag: uint16)
    ensures
      var objs, l := [MfgObj(tag, 0, 0, [])], Layout(false, 4);
      var once := WriteAll(header, |header|, objs, l.big, l.w).1;
      once == header + MakeTlv(tag, [], l.big, l.w) && WriteAll(once, |header|, objs, l.big, l.w).1 == once + MakeTlv(tag, [], l.big, l.w)
  {
    var o, l := MfgObj(tag, 0, 0, []), Layout(false, 4);
    var r := Rec(tag, []);
    assert [o][1..] == [] && header + [] == header;
    assert Encode([], l) == [] && Encode([r], l) == EncodeRec(r, l) by { assert [r][1..] == []; }
    assert Remove(header, |header|, tag, l.big, l.w) == header;
    assert Remove(header + EncodeRec(r, l), |header|, tag, l.big, l.w) == header + EncodeRec(r, l);
  }

  lemma SameImageIffSameRecords(rs: seq<Rec>, objs: seq<MfgObj>, l: Layout, h: seq<uint8>)
    requires l.Valid() && Distinct(rs) && Distinct(Tlvs(objs))
    requires Encodable(PutRecords(rs, objs, l)) && Encodable(PutRecords(PutRecords(rs, objs, l), objs, l))
    ensures var r1 := PutRecords(rs, objs, l); var r2 := PutRecords(r1, objs, l);
            h + Encode(r2, l) == h + Encode(r1, l) <==> Settles(rs, objs, l)
  {
    var r1 := PutRecords(rs, objs, l);
    var r2 := PutRecords(r1, objs, l);
    SecondWriteOfRecords(rs, objs, l);
    if h + Encode(r2, l) == h + Encode(r1, l) {
      assert Encode(r2, l) == (h + Encode(r2, l))[|h|..] == (h + Encode(r1, l))[|h|..] == Encode(r1, l);
      EncodeInjective(r2, r1, l);
    }
  }

  // ----------------------------------------------------------------- alignment

  /** Every record starts a whole number of words into the region. */
  lemma {:induction false} RecordsAligned(rs: seq<Rec>, k: nat, l: Layout) returns (words: nat)
    requires l.Valid() && Encodable(rs) && k <= |rs|
    ensures |Encode(rs[..k], l)| == l.w * words
    decreases k
  {
    if k == 0 {
      assert rs[..0] == [];
      words := 0;
    } else {
      var before := RecordsAligned(rs, k - 1, l);
      var r := rs[k - 1];
      var own := RoundUpIsMultiple(|r.value| + 4, l.w);
      assert rs[..k] == rs[..k - 1] + [r];
      EncodeConcat(rs[..k - 1], [r], l);
      EncodeCons(r, [], l);
      assert [r] + [] == [r];
      words := before + own;
      SumOfMultiples(l.w, before, own);
    }
  }

  lemma SumOfMultiples(w: nat, a: nat, b: nat)
    ensures w * (a + b) == w * a + w * b
  {
  }
}
