/** The GNSS scan group of sid_pal_gnss_wifi_impl.c: the payload it builds and what a reader gets from it. */
module GnssPayload {
  import opened Bits
  import opened Wrappers

  const HEADER_SIZE := 3
  const NG_TAG: uint8 := 0x53
  const MAX_PAYLOAD: nat := 106

  /** One navigation message; its size field is a byte. */
  type Nav = s: seq<uint8> | |s| <= 255

  datatype Outcome = Done | InsufficientResults | TooLarge

  // --------------------------------------------------------------------- the token

  function FirstToken(random: nat): (t: uint8)
    ensures 2 <= t <= 31
  {
    random % 30 + 2
  }

  function Rotate(t: uint8): (r: uint8)
    ensures 2 <= t <= 31 ==> 2 <= r <= 31 && r != t
  {
    if t >= 31 then 2 else t + 1
  }

  function Rotated(t: uint8, n: nat): uint8
    decreases n
  {
    if n == 0 then t else Rotate(Rotated(t, n - 1))
  }

  /** The tokens follow one another around the thirty of them: no two groups in thirty share one. */
  lemma {:induction false} RotatesAround(t: uint8, n: nat)
    requires 2 <= t <= 31
    ensures Rotated(t, n) == (t - 2 + n) % 30 + 2
    decreases n
  {
    if n > 0 {
      RotatesAround(t, n - 1);
      NextMod(t - 2 + n - 1);
    }
  }

  lemma NextMod(a: nat)
    ensures (a + 1) % 30 == if a % 30 == 29 then 0 else a % 30 + 1
  {
  }

  // ------------------------------------------------------------------- the records

  /** Bit 7 ends the group and the low five bits name it. */
  function NgHeader(token: uint8, end: bool): uint8 {
    (if end then 0x80 else 0) + token % 32
  }

  function Record(nav: Nav, token: uint8, end: bool): seq<uint8> {
    [NG_TAG, (|nav| + 1) % 256, NgHeader(token, end)] + nav
  }

  /** Byte by byte: the tag, the length of what follows, the end of the group in bit 7 over its token, the message. */
  lemma RecordLayout(nav: Nav, token: uint8, end: bool)
    requires token < 32 && |nav| < 255
    ensures
      var r := Record(nav, token, end);
      && |r| == 3 + |nav| && r[0] == 0x53 && r[1] == 1 + |nav| && r[2] == token + (if end then 128 else 0)
      && r[3..] == nav
  {
  }

  /** From the last scan to the first; the first ends the group. */
  function Payload(scans: seq<Nav>, token: uint8): seq<uint8> {
    if scans == [] then []
    else
      var n := |scans| - 1;
      Record(scans[n], token, n == 0) + Payload(scans[..n], token)
  }

  function Total(scans: seq<Nav>): nat {
    if scans == [] then 0 else HEADER_SIZE + |scans[|scans| - 1]| + Total(scans[..|scans| - 1])
  }

  lemma {:induction false} PayloadLength(scans: seq<Nav>, token: uint8)
    ensures |Payload(scans, token)| == Total(scans)
  {
    if scans != [] { PayloadLength(scans[..|scans| - 1], token); }
  }

  lemma {:induction false} TotalBounds(scans: seq<Nav>, k: nat)
    requires k < |scans|
    ensures HEADER_SIZE + |scans[k]| <= Total(scans)
  {
    if k < |scans| - 1 { TotalBounds(scans[..|scans| - 1], k); }
  }

  // -------------------------------------------------------------------- the reader

  datatype Entry = Entry(nav: seq<uint8>, token: nat, end: bool)

  /** Tag, length of what follows, group header, message; anything else is no group. */
  function Decode(s: seq<uint8>): Option<seq<Entry>>
    decreases |s|
  {
    if s == [] then Some([])
    else if |s| < HEADER_SIZE || s[0] != NG_TAG || s[1] == 0 || s[1] + 2 > |s| then None
    else
      var rest := Decode(s[s[1] + 2..]);
      if rest == None then None
      else Some([Entry(s[3..s[1] + 2], s[2] % 32, s[2] >= 0x80)] + rest.value)
  }

  function Entries(scans: seq<Nav>, token: uint8): seq<Entry> {
    if scans == [] then []
    else [Entry(scans[|scans| - 1], token, |scans| == 1)] + Entries(scans[..|scans| - 1], token)
  }

  lemma DecodeRecord(nav: Nav, token: uint8, end: bool, rest: seq<uint8>)
    requires |nav| <= 254 && token < 32
    ensures Decode(Record(nav, token, end) + rest) ==
            if Decode(rest) == None then None else Some([Entry(nav, token, end)] + Decode(rest).value)
  {
    hide Record, Decode, NgHeader;
    RecordParts(nav, token, end, rest);
    NgHeaderRead(token, end);
    assert (|nav| + 1) % 256 == |nav| + 1;
    DecodeStep(Record(nav, token, end) + rest, nav, rest);
  }

  lemma NgHeaderRead(token: uint8, end: bool)
    requires token < 32
    ensures NgHeader(token, end) % 32 == token && (NgHeader(token, end) >= 0x80 <==> end)
  {
  }

  lemma DecodeStep(s: seq<uint8>, nav: seq<uint8>, rest: seq<uint8>)
    requires |s| == HEADER_SIZE + |nav| + |rest| && s[0] == NG_TAG && s[1] == |nav| + 1
    requires s[3..|nav| + 3] == nav && s[|nav| + 3..] == rest
    ensures Decode(s) == if Decode(rest) == None then None else Some([Entry(nav, s[2] % 32, s[2] >= 0x80)] + Decode(rest).value)
  {
  }

  lemma RecordParts(nav: Nav, token: uint8, end: bool, rest: seq<uint8>)
    ensures
      var s := Record(nav, token, end) + rest;
      && |s| == HEADER_SIZE + |nav| + |rest|
      && s[0] == NG_TAG && s[1] == (|nav| + 1) % 256 && s[2] == NgHeader(token, end)
      && s[3..|nav| + 3] == nav && s[|nav| + 3..] == rest
  {
    var s := Record(nav, token, end) + rest;
    assert forall i :: 0 <= i < |nav| ==> s[i + 3] == nav[i];
    assert s[3..|nav| + 3] == nav;
    assert s[|nav| + 3..] == rest;
  }

  /** A size of 255 makes the length byte zero, which no reader accepts. */
  lemma DecodeOversized(nav: Nav, token: uint8, end: bool, rest: seq<uint8>)
    requires |nav| == 255
    ensures Decode(Record(nav, token, end) + rest) == None
  {
    RecordParts(nav, token, end, rest);
  }

  predicate Readable(scans: seq<Nav>) {
    forall k :: 0 <= k < |scans| ==> |scans[k]| <= 254
  }

  lemma ReadableStep(scans: seq<Nav>)
    requires scans != []
    ensures Readable(scans) <==> Readable(scans[..|scans| - 1]) && |scans[|scans| - 1]| <= 254
  {
    assert forall k :: 0 <= k < |scans| - 1 ==> scans[..|scans| - 1][k] == scans[k];
  }

  lemma {:induction false} DecodePayload(scans: seq<Nav>, token: uint8)
    requires token < 32
    ensures Decode(Payload(scans, token)) == if Readable(scans) then Some(Entries(scans, token)) else None
  {
    if scans != [] {
      hide Decode, Record, Readable;
      var n := |scans| - 1;
      var nav, first, rest := scans[n], scans[..n], Payload(scans[..n], token);
      DecodePayload(first, token);
      ReadableStep(scans);
      if |nav| <= 254 { DecodeRecord(nav, token, n == 0, rest); } else { DecodeOversized(nav, token, n == 0, rest); }
    }
  }

  /** Scans come back in reverse, each with the group's token, and only the last one read ends the group. */
  lemma {:induction false} EntryAt(scans: seq<Nav>, token: uint8, k: nat)
    requires k < |scans|
    ensures |Entries(scans, token)| == |scans|
    ensures Entries(scans, token)[k] == Entry(scans[|scans| - 1 - k], token, k == |scans| - 1)
    decreases |scans|
  {
    if |scans| > 1 { EntryAt(scans[..|scans| - 1], token, if k == 0 then 0 else k - 1); }
  }

  // ------------------------------------------------------------------- the encoder

  class Group {
    var size: nat
    var data: array<uint8>

    ghost predicate Valid()
      reads this
    {
      data.Length == MAX_PAYLOAD && size <= MAX_PAYLOAD
    }

    constructor ()
      ensures Valid() && fresh(data)
    {
      data := new uint8[MAX_PAYLOAD](_ => 0);
      size := 0;
    }

    method Append(s: seq<uint8>)
      requires Valid() && size + |s| <= MAX_PAYLOAD
      modifies this`size, data
      ensures Valid() && size == old(size) + |s|
      ensures data[..size] == old(data[..size]) + s
      ensures data[size..] == old(data[size + |s|..])
    {
      for i := 0 to |s|
        invariant size == old(size)
        invariant data[..size + i] == old(data[..size]) + s[..i]
        invariant data[size + i..] == old(data[size + i..])
      {
        data[size + i] := s[i];
      }
      size := size + |s|;
      assert s[..|s|] == s;
    }

    method Clear()
      requires Valid()
      modifies this`size, data
      ensures Valid() && size == 0 && data[..] == seq(MAX_PAYLOAD, _ => 0)
    {
      for i := 0 to MAX_PAYLOAD
        invariant forall j :: 0 <= j < i ==> data[j] == 0
      {
        data[i] := 0;
      }
      size := 0;
    }

    /** The scans are encoded exactly when all of them fit, and then nothing follows them but zeros. */
    method GetScanPayload(valid: bool, scans: seq<Nav>, token: uint8) returns (r: Outcome)
      requires Valid()
      modifies this`size, data
      ensures Valid()
      ensures r == InsufficientResults <==> !valid
      ensures r == InsufficientResults ==> size == old(size) && data[..] == old(data[..])
      ensures r == Done <==> valid && Total(scans) <= MAX_PAYLOAD
      ensures r == Done ==> data[..size] == Payload(scans, token) && data[size..] == seq(MAX_PAYLOAD - size, _ => 0)
    {
      if !valid { return InsufficientResults; }
      Clear();
      var idx := |scans|;
      assert scans[..idx] == scans;
      while idx > 0
        invariant Valid() && 0 <= idx <= |scans|
        invariant data[..size] + Payload(scans[..idx], token) == Payload(scans, token)
        invariant size + Total(scans[..idx]) == Total(scans)
        invariant data[size..] == seq(MAX_PAYLOAD - size, _ => 0)
      {
        idx := idx - 1;
        var nav := scans[idx];
        assert scans[..idx + 1][..idx] == scans[..idx];
        if size + HEADER_SIZE + |nav| > MAX_PAYLOAD { return TooLarge; }
        ghost var rest := Payload(scans[..idx], token);
        ConcatAssoc(data[..size], Record(nav, token, idx == 0), rest);
        Append(Record(nav, token, idx == 0));
      }
      return Done;
    }
  }

  /** What a successful group decodes to. */
  lemma GroupDecodes(scans: seq<Nav>, token: uint8)
    requires Total(scans) <= MAX_PAYLOAD && token < 32
    ensures Decode(Payload(scans, token)) == Some(Entries(scans, token))
  {
    forall k | 0 <= k < |scans| ensures |scans[k]| <= 254 { TotalBounds(scans, k); }
    DecodePayload(scans, token);
  }
}
