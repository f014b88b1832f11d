/** Splitting of a certificate chain by tools/provision/sid_provision/run.py. */
module CertChain {
  import opened Bits

  const SMSN_SIZE := 32
  const SERIAL_SIZE_WITHOUT_EXPANSION := 4
  const SIG_SIZE := 64

  datatype Ca = Device | Dak | Product | Man | Sw | Root

  const CA_LIST: seq<Ca> := [Device, Dak, Product, Man, Sw, Root]

  datatype Cert = Cert(serial: seq<uint8>, pub: seq<uint8>, sig: seq<uint8>)
  {
    function Bytes(): seq<uint8> {
      serial + pub + sig
    }
  }

  datatype Chain = Split(certs: seq<Cert>) | ShorterThanExpected | LongerThanExpected

  /** int.from_bytes of at most four bytes, little-endian. */
  function SerialNumber(data: seq<uint8>): (n: nat)
    ensures n < 0x1_0000_0000
  {
    ByteOr0(data, 0) + 0x100 * ByteOr0(data, 1) + 0x1_0000 * ByteOr0(data, 2) + 0x100_0000 * ByteOr0(data, 3)
  }

  function ByteOr0(data: seq<uint8>, i: nat): (b: nat)
    ensures b < 256
  {
    if i < |data| then data[i] else 0
  }

  /** A serial whose top nibble is 0xB says its own length, less two, in seven bits of its third byte. */
  function SerialLength(data: seq<uint8>): (n: nat)
    ensures 2 <= n <= 129
  {
    var sn := SerialNumber(data);
    if sn / 0x1000_0000 % 16 == 0xB then sn / 0x1_0000 % 128 + 2 else SERIAL_SIZE_WITHOUT_EXPANSION
  }

  /** Serial length of the next certificate of the chain. */
  function LengthFor(ca: Ca, data: seq<uint8>, expansion: bool): (n: nat)
    ensures n >= 2
  {
    if ca == Device then SMSN_SIZE else if expansion then SerialLength(data) else SERIAL_SIZE_WITHOUT_EXPANSION
  }

  /** The certificates of the listed authorities, and nothing after them. */
  function SplitFor(cas: seq<Ca>, data: seq<uint8>, pubkSize: nat, expansion: bool): (r: Chain)
    decreases |cas|
  {
    if cas == [] then (if data == [] then Split([]) else LongerThanExpected)
    else
      var n := LengthFor(cas[0], data, expansion);
      var m := n + pubkSize;
      if |data| < m + SIG_SIZE then ShorterThanExpected
      else
        var rest := SplitFor(cas[1..], data[m + SIG_SIZE..], pubkSize, expansion);
        if rest.Split? then Split([Cert(data[..n], data[n..m], data[m..m + SIG_SIZE])] + rest.certs) else rest
  }

  /** split_bytes: None is the exception. */
  method SplitBytes(data: seq<uint8>, length: nat) returns (ok: bool, head: seq<uint8>, tail: seq<uint8>)
    ensures ok <==> length <= |data|
    ensures ok ==> head == data[..length] && tail == data[length..]
  {
    if |data| < length {
      return false, [], data;
    }
    return true, data[..length], data[length..];
  }

  /** The serial, key and signature at the front of the data. */
  method TakeCert(data: seq<uint8>, serialLen: nat, pubkSize: nat) returns (ok: bool, cert: Cert, tail: seq<uint8>)
    ensures ok <==> serialLen + pubkSize + SIG_SIZE <= |data|
    ensures ok ==> var m := serialLen + pubkSize;
      && cert == Cert(data[..serialLen], data[serialLen..m], data[m..m + SIG_SIZE])
      && tail == data[m + SIG_SIZE..]
  {
    cert := Cert([], [], []);
    var serial, pubk, sig;
    ok, serial, tail := SplitBytes(data, serialLen);
    if ok {
      ok, pubk, tail := SplitBytes(tail, pubkSize);
      if ok {
        ok, sig, tail := SplitBytes(tail, SIG_SIZE);
        cert := Cert(serial, pubk, sig);
      }
    }
  }

  method SplitChain(certBuffer: seq<uint8>, pubkSize: nat, expansion: bool) returns (r: Chain)
    ensures r == SplitFor(CA_LIST, certBuffer, pubkSize, expansion)
    ensures r.Split? ==> SizesFit(certBuffer, pubkSize, expansion, r.certs) && Join(r.certs) == certBuffer
    ensures !expansion ==>
      var size := 52 + 6 * (pubkSize + 64);
      && (r.Split? <==> |certBuffer| == size) && (r == LongerThanExpected <==> |certBuffer| > size)
  {
    hide SplitFor, SizesFit;
    SplitSizes(certBuffer, pubkSize, expansion);
    SplitByLength(certBuffer, pubkSize);
    r := SplitList(CA_LIST, certBuffer, pubkSize, expansion);
  }

  /** One certificate is taken from the front of the data. */
  lemma SplitStep(cas: seq<Ca>, data: seq<uint8>, c: Cert, tail: seq<uint8>, pubkSize: nat, expansion: bool)
    requires cas != [] && LengthFor(cas[0], data, expansion) == |c.serial| && |c.pub| == pubkSize && |c.sig| == SIG_SIZE
    requires |data| == |c.serial| + pubkSize + SIG_SIZE + |tail|
    requires var n, m := |c.serial|, |c.serial| + pubkSize;
      data[..n] == c.serial && data[n..m] == c.pub && data[m..m + SIG_SIZE] == c.sig && data[m + SIG_SIZE..] == tail
    ensures SplitFor(cas, data, pubkSize, expansion) == Prepend([c], SplitFor(cas[1..], tail, pubkSize, expansion))
  {
  }

  /** The loop of the constructor. */
  method SplitList(caList: seq<Ca>, certBuffer: seq<uint8>, pubkSize: nat, expansion: bool) returns (r: Chain)
    ensures r == SplitFor(caList, certBuffer, pubkSize, expansion)
  {
    var data, certs := certBuffer, [];
    ghost var whole := SplitFor(caList, certBuffer, pubkSize, expansion);
    for i := 0 to |caList|
      invariant whole == Prepend(certs, SplitFor(caList[i..], data, pubkSize, expansion))
    {
      var ca := caList[i];
      var serialLen := if ca == Device then SMSN_SIZE
                       else if expansion then SerialLength(data) else SERIAL_SIZE_WITHOUT_EXPANSION;
      var ok, cert, tail := TakeCert(data, serialLen, pubkSize);
      if !ok {
        return ShorterThanExpected;
      }
      assert caList[i..][1..] == caList[i + 1..];
      SplitStep(caList[i..], data, cert, tail, pubkSize, expansion);
      PrependOne(certs, cert, SplitFor(caList[i + 1..], tail, pubkSize, expansion));
      certs, data := certs + [cert], tail;
    }
    if |data| != 0 {
      return LongerThanExpected;
    }
    assert certs + [] == certs;
    return Split(certs);
  }

  /** A chain after certificates already taken from the front. */
  ghost function Prepend(certs: seq<Cert>, rest: Chain): Chain {
    if rest.Split? then Split(certs + rest.certs) else rest
  }

  lemma PrependOne(certs: seq<Cert>, c: Cert, rest: Chain)
    ensures Prepend(certs, Prepend([c], rest)) == Prepend(certs + [c], rest)
  {
    if rest.Split? {
      ConcatAssoc(certs, [c], rest.certs);
    }
  }

  // ------------------------------------------------------- lossless and unique

  function Join(certs: seq<Cert>): seq<uint8> {
    if certs == [] then [] else certs[0].Bytes() + Join(certs[1..])
  }

  /** A certificate has the sizes of its kind, and its serial the length that its own first bytes announce. */
  predicate CertFor(ca: Ca, c: Cert, pubkSize: nat, expansion: bool) {
    |c.pub| == pubkSize && |c.sig| == SIG_SIZE && |c.serial| == LengthFor(ca, c.Bytes(), expansion)
  }

  predicate WellFormed(cas: seq<Ca>, certs: seq<Cert>, pubkSize: nat, expansion: bool) {
    |cas| == |certs| && forall i :: 0 <= i < |certs| ==> CertFor(cas[i], certs[i], pubkSize, expansion)
  }

  lemma SerialLengthLocal(a: seq<uint8>, b: seq<uint8>)
    requires |a| >= 4
    ensures SerialLength(a + b) == SerialLength(a)
  {
    assert SerialNumber(a + b) == SerialNumber(a);
  }

  lemma LengthOfCert(ca: Ca, c: Cert, rest: seq<uint8>, expansion: bool)
    requires |c.sig| == SIG_SIZE
    ensures LengthFor(ca, c.Bytes() + rest, expansion) == LengthFor(ca, c.Bytes(), expansion)
  {
    SerialLengthLocal(c.Bytes(), rest);
  }

  lemma CertSlices(c: Cert, rest: seq<uint8>)
    ensures var d, n, m := c.Bytes() + rest, |c.serial|, |c.serial| + |c.pub|;
      && d[..n] == c.serial && d[n..m] == c.pub && d[m..m + |c.sig|] == c.sig && d[m + |c.sig|..] == rest
  {
  }

  /** A well-formed certificate at the front is the one that is taken. */
  lemma FrontCert(cas: seq<Ca>, c: Cert, tail: seq<uint8>, pubkSize: nat, expansion: bool)
    requires cas != [] && CertFor(cas[0], c, pubkSize, expansion)
    ensures SplitFor(cas, c.Bytes() + tail, pubkSize, expansion)
         == Prepend([c], SplitFor(cas[1..], tail, pubkSize, expansion))
  {
    LengthOfCert(cas[0], c, tail, expansion);
    CertSlices(c, tail);
    SplitStep(cas, c.Bytes() + tail, c, tail, pubkSize, expansion);
  }

  lemma WellFormedParts(cas: seq<Ca>, certs: seq<Cert>, pubkSize: nat, expansion: bool)
    requires WellFormed(cas, certs, pubkSize, expansion) && certs != []
    ensures CertFor(cas[0], certs[0], pubkSize, expansion) && WellFormed(cas[1..], certs[1..], pubkSize, expansion)
  {
    forall i | 0 <= i < |certs[1..]| ensures CertFor(cas[1..][i], certs[1..][i], pubkSize, expansion) {
      assert CertFor(cas[i + 1], certs[i + 1], pubkSize, expansion);
    }
  }

  /** Any chain put together from well-formed parts splits back into those parts. */
  lemma {:induction false} JoinSplits(cas: seq<Ca>, certs: seq<Cert>, pubkSize: nat, expansion: bool)
    requires WellFormed(cas, certs, pubkSize, expansion)
    ensures SplitFor(cas, Join(certs), pubkSize, expansion) == Split(certs)
    decreases |certs|
  {
    if certs != [] {
      var c, rest := certs[0], certs[1..];
      WellFormedParts(cas, certs, pubkSize, expansion);
      JoinSplits(cas[1..], rest, pubkSize, expansion);
      FrontCert(cas, c, Join(rest), pubkSize, expansion);
      assert certs == [c] + rest;
    }
  }

  lemma SliceUp(d: seq<uint8>, a: nat, b: nat, c: nat)
    requires a <= b <= c <= |d|
    ensures d == d[..a] + d[a..b] + d[b..c] + d[c..]
  {
  }

  /** What is taken from the front is well formed. */
  lemma TakenCert(ca: Ca, data: seq<uint8>, pubkSize: nat, expansion: bool) returns (c: Cert)
    requires |data| >= LengthFor(ca, data, expansion) + pubkSize + SIG_SIZE
    ensures var n := LengthFor(ca, data, expansion); var m := n + pubkSize;
      && c == Cert(data[..n], data[n..m], data[m..m + SIG_SIZE])
      && data == c.Bytes() + data[m + SIG_SIZE..] && CertFor(ca, c, pubkSize, expansion)
  {
    var n := LengthFor(ca, data, expansion);
    var m := n + pubkSize;
    c := Cert(data[..n], data[n..m], data[m..m + SIG_SIZE]);
    SliceUp(data, n, m, m + SIG_SIZE);
    LengthOfCert(ca, c, data[m + SIG_SIZE..], expansion);
  }

  lemma WellFormedCons(cas: seq<Ca>, c: Cert, rest: seq<Cert>, pubkSize: nat, expansion: bool)
    requires cas != [] && CertFor(cas[0], c, pubkSize, expansion) && WellFormed(cas[1..], rest, pubkSize, expansion)
    ensures WellFormed(cas, [c] + rest, pubkSize, expansion)
  {
    hide CertFor;
    forall i | 1 <= i < |cas| ensures CertFor(cas[i], ([c] + rest)[i], pubkSize, expansion) {
      assert cas[i] == cas[1..][i - 1] && ([c] + rest)[i] == rest[i - 1];
    }
  }

  /** On success the parts concatenate to exactly the input, and they are well formed. */
  lemma {:induction false} SplitJoins(cas: seq<Ca>, data: seq<uint8>, pubkSize: nat, expansion: bool)
    requires SplitFor(cas, data, pubkSize, expansion).Split?
    ensures var certs := SplitFor(cas, data, pubkSize, expansion).certs;
      Join(certs) == data && WellFormed(cas, certs, pubkSize, expansion)
    decreases |cas|
  {
    if cas != [] {
      LongEnough(cas, data, pubkSize, expansion);
      hide WellFormed, CertFor, LengthFor, SplitFor;
      var c := TakenCert(cas[0], data, pubkSize, expansion);
      var tail := data[|c.serial| + pubkSize + SIG_SIZE..];
      SplitStep(cas, data, c, tail, pubkSize, expansion);
      SplitJoins(cas[1..], tail, pubkSize, expansion);
      var rest := SplitFor(cas[1..], tail, pubkSize, expansion).certs;
      WellFormedCons(cas, c, rest, pubkSize, expansion);
      assert ([c] + rest)[1..] == rest;
    }
  }

  lemma LongEnough(cas: seq<Ca>, data: seq<uint8>, pubkSize: nat, expansion: bool)
    requires cas != [] && SplitFor(cas, data, pubkSize, expansion).Split?
    ensures |data| >= LengthFor(cas[0], data, expansion) + pubkSize + SIG_SIZE
  {
    hide LengthFor;
  }

  /** A chain splits into given parts exactly when it is their concatenation and they are well formed. */
  lemma SplitExactly(data: seq<uint8>, certs: seq<Cert>, pubkSize: nat, expansion: bool)
    ensures SplitFor(CA_LIST, data, pubkSize, expansion) == Split(certs)
       <==> Join(certs) == data && WellFormed(CA_LIST, certs, pubkSize, expansion)
  {
    if SplitFor(CA_LIST, data, pubkSize, expansion) == Split(certs) {
      SplitJoins(CA_LIST, data, pubkSize, expansion);
    }
    if Join(certs) == data && WellFormed(CA_LIST, certs, pubkSize, expansion) {
      JoinSplits(CA_LIST, certs, pubkSize, expansion);
    }
  }

  /** A certificate of any authority but the device is well formed exactly if its first four bytes say so: 0xB in
      the top nibble of the fourth and the length less two in the third, or anything else for four bytes. */
  lemma SerialKinds(ca: Ca, c: Cert, pubkSize: nat)
    requires ca != Device
    ensures CertFor(ca, c, pubkSize, true) <==>
      && |c.pub| == pubkSize && |c.sig| == 64
      && var b := c.Bytes(); |c.serial| == if b[3] / 16 == 0xB then b[2] % 128 + 2 else 4
  {
    if |c.sig| == 64 {
      var b := c.Bytes();
      SerialDigits(b[0], b[1], b[2], b[3]);
    }
  }

  // ------------------------------------------------------------ sizes of the parts

  /** Certificates of one serial length each, the device's not among them. */
  lemma {:induction false} ShortSerials(cas: seq<Ca>, data: seq<uint8>, pubkSize: nat)
    requires Device !in cas
    ensures
      var r, size := SplitFor(cas, data, pubkSize, false), |cas| * (pubkSize + 68);
      && (r.Split? <==> |data| == size) && (r == ShorterThanExpected <==> |data| < size)
      && (r.Split? ==> |r.certs| == |cas| && forall i :: 0 <= i < |cas| ==> |r.certs[i].serial| == 4)
    decreases |cas|
  {
    if cas != [] {
      var m := 4 + pubkSize + SIG_SIZE;
      assert |cas| * (pubkSize + 68) == (|cas| - 1) * (pubkSize + 68) + m;
      assert cas[0] in cas && forall ca <- cas[1..] :: ca in cas;
      if |data| >= m {
        ShortSerials(cas[1..], data[m..], pubkSize);
      } else {
        NotNegative(|cas| - 1, pubkSize + 68);
      }
    }
  }

  lemma {:induction false} NotNegative(a: nat, b: nat)
    ensures a * b >= 0
  {
    if a > 0 { NotNegative(a - 1, b); }
  }

  /** On success there are six certificates, with keys and signatures of the sizes asked for. The first serial is
      the first 32 bytes; a later one has four bytes or, with expansion, as many as its certificate says. */
  predicate SizesFit(data: seq<uint8>, pubkSize: nat, expansion: bool, certs: seq<Cert>) {
    && |certs| == 6 && |data| >= 32 && certs[0].serial == data[..32]
    && (forall i :: 0 <= i < 6 ==> |certs[i].pub| == pubkSize && |certs[i].sig| == 64)
    && forall i :: 1 <= i < 6 ==>
         var b := certs[i].Bytes();
         |certs[i].serial| == if expansion && |b| > 3 && b[3] / 16 == 0xB then b[2] % 128 + 2 else 4
  }

  lemma SplitSizes(data: seq<uint8>, pubkSize: nat, expansion: bool)
    ensures var r := SplitFor(CA_LIST, data, pubkSize, expansion);
            r.Split? ==> SizesFit(data, pubkSize, expansion, r.certs) && Join(r.certs) == data
  {
    hide SplitFor, CertFor, Join;
    var r := SplitFor(CA_LIST, data, pubkSize, expansion);
    if r.Split? {
      SplitJoins(CA_LIST, data, pubkSize, expansion);
      assert CertFor(CA_LIST[0], r.certs[0], pubkSize, expansion);
      assert [r.certs[0]] + r.certs[1..] == r.certs;
      DeviceSerial(r.certs[0], r.certs[1..], data, pubkSize, expansion);
      forall i | 0 <= i < 6 ensures LaterSize(CA_LIST[i], r.certs[i], pubkSize, expansion) {
        assert CertFor(CA_LIST[i], r.certs[i], pubkSize, expansion);
        SizeOfKind(CA_LIST[i], r.certs[i], pubkSize, expansion);
      }
    }
  }

  predicate LaterSize(ca: Ca, c: Cert, pubkSize: nat, expansion: bool) {
    && |c.pub| == pubkSize && |c.sig| == 64
    && (ca != Device ==>
        var b := c.Bytes(); |c.serial| == if expansion && |b| > 3 && b[3] / 16 == 0xB then b[2] % 128 + 2 else 4)
  }

  lemma SizeOfKind(ca: Ca, c: Cert, pubkSize: nat, expansion: bool)
    requires CertFor(ca, c, pubkSize, expansion)
    ensures LaterSize(ca, c, pubkSize, expansion)
  {
    if ca != Device && expansion { SerialKinds(ca, c, pubkSize); }
  }

  lemma DeviceSerial(c: Cert, rest: seq<Cert>, data: seq<uint8>, pubkSize: nat, expansion: bool)
    requires CertFor(Device, c, pubkSize, expansion) && data == Join([c] + rest)
    ensures |data| >= 32 && c.serial == data[..32]
  {
    assert ([c] + rest)[0] == c;
    CertSlices(c, Join(([c] + rest)[1..]));
  }

  lemma DeviceFirst(data: seq<uint8>, pubkSize: nat)
    ensures
      var r, m := SplitFor(CA_LIST, data, pubkSize, false), 96 + pubkSize;
      if |data| < m then r == ShorterThanExpected
      else
        var rest := SplitFor(CA_LIST[1..], data[m..], pubkSize, false);
        r.Split? == rest.Split? && (!r.Split? ==> r == rest)
  {
  }

  /** Without expansion the length alone decides: 32 bytes of device serial and five of four, six keys and six
      signatures. */
  lemma SplitByLength(data: seq<uint8>, pubkSize: nat)
    ensures
      var r, size := SplitFor(CA_LIST, data, pubkSize, false), 52 + 6 * (pubkSize + 64);
      && (r.Split? <==> |data| == size)
      && (r == ShorterThanExpected <==> |data| < size)
      && (r == LongerThanExpected <==> |data| > size)
  {
    hide SplitFor;
    var m := 32 + pubkSize + SIG_SIZE;
    assert CA_LIST[1..] == [Dak, Product, Man, Sw, Root];
    DeviceFirst(data, pubkSize);
    if |data| >= m { ShortSerials(CA_LIST[1..], data[m..], pubkSize); }
  }

  // ------------------------------------------------------------ the two refusals

  lemma LengthOfPrefix(ca: Ca, data: seq<uint8>, n: nat, expansion: bool)
    requires 4 <= n <= |data|
    ensures LengthFor(ca, data[..n], expansion) == LengthFor(ca, data, expansion)
  {
    SerialLengthLocal(data[..n], data[n..]);
    assert data[..n] + data[n..] == data;
  }

  /** One certificate off the front of data and of a prefix of it. */
  lemma PrefixStep(cas: seq<Ca>, data: seq<uint8>, n: nat, pubkSize: nat, expansion: bool)
    requires cas != [] && 4 <= n <= |data|
    requires var m := LengthFor(cas[0], data, expansion) + pubkSize + SIG_SIZE; m <= n
    ensures
      var m := LengthFor(cas[0], data, expansion) + pubkSize + SIG_SIZE;
      var a, b := SplitFor(cas, data[..n], pubkSize, expansion), SplitFor(cas, data, pubkSize, expansion);
      var a', b' := SplitFor(cas[1..], data[m..][..n - m], pubkSize, expansion), SplitFor(cas[1..], data[m..], pubkSize, expansion);
      && a.Split? == a'.Split? && b.Split? == b'.Split? && (b == LongerThanExpected <==> b' == LongerThanExpected)
  {
    hide LengthFor;
    LengthOfPrefix(cas[0], data, n, expansion);
    var m := LengthFor(cas[0], data, expansion) + pubkSize + SIG_SIZE;
    assert data[..n][m..] == data[m..][..n - m];
  }

  /** Data that splits with something left over: exactly then it is longer than expected. */
  lemma {:induction false} PrefixIsLonger(cas: seq<Ca>, data: seq<uint8>, n: nat, pubkSize: nat, expansion: bool)
    requires n < |data| && SplitFor(cas, data[..n], pubkSize, expansion).Split?
    ensures SplitFor(cas, data, pubkSize, expansion) == LongerThanExpected
    decreases |cas|
  {
    if cas != [] {
      LongEnough(cas, data[..n], pubkSize, expansion);
      LengthOfPrefix(cas[0], data, n, expansion);
      var m := LengthFor(cas[0], data, expansion) + pubkSize + SIG_SIZE;
      hide LengthFor, SplitFor;
      PrefixStep(cas, data, n, pubkSize, expansion);
      PrefixIsLonger(cas[1..], data[m..], n - m, pubkSize, expansion);
    }
  }

  lemma {:induction false} LongerHasPrefix(cas: seq<Ca>, data: seq<uint8>, pubkSize: nat, expansion: bool) returns (n: nat)
    requires SplitFor(cas, data, pubkSize, expansion) == LongerThanExpected
    ensures n < |data| && SplitFor(cas, data[..n], pubkSize, expansion).Split?
    decreases |cas|
  {
    if cas == [] {
      n := 0;
    } else {
      var m := LengthFor(cas[0], data, expansion) + pubkSize + SIG_SIZE;
      assert |data| >= m && SplitFor(cas[1..], data[m..], pubkSize, expansion) == LongerThanExpected;
      var k := LongerHasPrefix(cas[1..], data[m..], pubkSize, expansion);
      n := m + k;
      hide LengthFor, SplitFor;
      PrefixStep(cas, data, n, pubkSize, expansion);
    }
  }

  /** Longer than expected: a proper prefix splits. Shorter: neither the data nor any prefix of it does. */
  lemma RefusedExactly(data: seq<uint8>, pubkSize: nat, expansion: bool)
    ensures
      var r := SplitFor(CA_LIST, data, pubkSize, expansion);
      && (r == LongerThanExpected <==> exists n: nat :: n < |data| && SplitFor(CA_LIST, data[..n], pubkSize, expansion).Split?)
      && (r == ShorterThanExpected <==> forall n: nat :: n <= |data| ==> !SplitFor(CA_LIST, data[..n], pubkSize, expansion).Split?)
  {
    hide SplitFor;
    assert data[..|data|] == data;
    forall n: nat | n < |data| && SplitFor(CA_LIST, data[..n], pubkSize, expansion).Split?
      ensures SplitFor(CA_LIST, data, pubkSize, expansion) == LongerThanExpected
    {
      PrefixIsLonger(CA_LIST, data, n, pubkSize, expansion);
    }
    if SplitFor(CA_LIST, data, pubkSize, expansion) == LongerThanExpected {
      var n := LongerHasPrefix(CA_LIST, data, pubkSize, expansion);
    }
  }

  lemma SerialDigits(a: uint8, b: uint8, c: uint8, d: uint8)
    ensures var x: int, y: int, z: int, t: int := a, b, c, d;
            var sn := x + 0x100 * y + 0x1_0000 * z + 0x100_0000 * t;
            sn / 0x1000_0000 % 16 == t / 16 && sn / 0x1_0000 % 128 == z % 128
  {
    var x: int, y: int, z: int, t: int := a, b, c, d;
    var sn := x + 0x100 * y + 0x1_0000 * z + 0x100_0000 * t;
    assert sn / 0x1_0000 == z + 0x100 * t;
    assert sn / 0x1000_0000 == t / 16;
  }
}
