/** The receive side of lr11xx_radio_fsk.c. */
module FskReceive {
  import opened Bits
  import opened RadioTypes
  import opened Whitening
  import opened FskFrame
  import Crc16
  import Crc32

  const RX_PAYLOAD_MAX_SIZE := 255

  datatype RxDoneStatus = StatusOk | BadCrc | Timeout | UnknownError | SwMarkNotPresent

  /** What the chip answers: the buffer-status command, the buffer read with its bytes, the packet-status command. */
  datatype Chip = Chip(bufferStatusOk: bool, readOk: bool, bytes: seq<bv8>, pktStatusOk: bool)

  class RxPacket {
    const rcvPayload: array<bv8>
    var payloadLen: uint8

    ghost predicate Valid() {
      rcvPayload.Length == RX_PAYLOAD_MAX_SIZE
    }

    constructor ()
      ensures Valid() && fresh(rcvPayload)
    {
      rcvPayload := new bv8[RX_PAYLOAD_MAX_SIZE](_ => 0);
      payloadLen := 0;
    }
  }

  datatype RxOutcome = RxOutcome(err: RadioError, status: RxDoneStatus, payloadLen: uint8, buffer: seq<bv8>)

  /** The buffer after a sync word: the frame's first four bytes, the last two overwritten by the marker. */
  function SyncDetected(buffer: seq<bv8>, head: seq<bv8>): (r: seq<bv8>)
    requires |buffer| == RX_PAYLOAD_MAX_SIZE && |head| >= 4
    ensures |r| == |buffer|
  {
    [head[0], head[1], 0xAB, 0xBA] + buffer[4..]
  }

  datatype Phr = Phr(fcsType: nat, isDataWhiteningEnabled: bool, length: uint8)

  function DecodePhr(first: bv8, second: bv8): Phr {
    Phr((first >> 4) as nat, first & 0x08 != 0, second as int)
  }

  /** What the received PSDU bytes are taken to say. */
  function Plain(whitening: bool, received: seq<bv8>): (r: seq<bv8>)
    ensures |r| == |received|
  {
    if whitening then Whiten(WHITENING_SEED, received) else received
  }

  /** The check sequence at the end is the one of the bytes before it. */
  predicate FcsMatches(fcsType: nat, plain: seq<bv8>)
    requires FcsLength(fcsType) <= |plain|
  {
    var n := |plain| - FcsLength(fcsType);
    plain[n..] == Fcs(fcsType, plain[..n])
  }

  predicate TooShort(fcsType: nat, length: nat) {
    Supported(fcsType) && length <= FcsLength(fcsType)
  }

  /** The outcome once the marker has been seen and removed. */
  function RxBody(phr: Phr, buffer: seq<bv8>, payloadLen: uint8, status: RxDoneStatus, chip: Chip): RxOutcome
    requires |buffer| == RX_PAYLOAD_MAX_SIZE && |chip.bytes| >= RX_PAYLOAD_MAX_SIZE
  {
    if TooShort(phr.fcsType, phr.length) then RxOutcome(IoError, BadCrc, payloadLen, buffer)
    else if !chip.bufferStatusOk then RxOutcome(IoError, status, payloadLen, buffer)
    else if !chip.readOk then RxOutcome(IoError, Timeout, payloadLen, buffer)
    else
      var plain := Plain(phr.isDataWhiteningEnabled, chip.bytes[..phr.length]);
      var filled := plain + buffer[phr.length..];
      if !Supported(phr.fcsType) then RxOutcome(Generic, UnknownError, 0, filled)
      else if status == UnknownError then RxOutcome(NoError, status, payloadLen, filled)
      else
        var n := phr.length - FcsLength(phr.fcsType);
        if !chip.pktStatusOk then RxOutcome(IoError, Timeout, n, filled)
        else if FcsMatches(phr.fcsType, plain) then RxOutcome(NoError, status, n, filled)
        else RxOutcome(Generic, BadCrc, n, filled)
  }

  function RxDone(buffer: seq<bv8>, payloadLen: uint8, status: RxDoneStatus, chip: Chip): RxOutcome
    requires |buffer| == RX_PAYLOAD_MAX_SIZE && |chip.bytes| >= RX_PAYLOAD_MAX_SIZE
  {
    if buffer[2] != 0xAB || buffer[3] != 0xBA then RxOutcome(Generic, SwMarkNotPresent, payloadLen, buffer)
    else RxBody(DecodePhr(buffer[0], buffer[1]), buffer[2 := 0x00][3 := 0x00], payloadLen, status, chip)
  }

  // ------------------------------------------------------ what each answer means

  predicate Marked(buffer: seq<bv8>)
    requires |buffer| >= 4
  {
    buffer[2] == 0xAB && buffer[3] == 0xBA
  }

  /** The PSDU the chip has read, with the whitening the header announces removed. */
  function Unwhitened(buffer: seq<bv8>, chip: Chip): (plain: seq<bv8>)
    requires |buffer| >= 4 && |chip.bytes| >= RX_PAYLOAD_MAX_SIZE
    ensures |plain| == buffer[1] as int
  {
    var body := chip.bytes[..buffer[1] as int];
    if buffer[0] & 0x08 != 0 then Whiten(0x1FF, body) else body
  }

  /** The announced type is one of the two, the length leaves room for a payload, and the last bytes are the CRC
      of those before them. */
  predicate EndsInItsCheck(fcsType: nat, plain: seq<bv8>) {
    var n := |plain|;
    || (fcsType == 0 && n > 4 && plain[n - 4..] == Crc32.WordBytes(Crc32.Crc32(plain[..n - 4])))
    || (fcsType == 1 && n > 2 && plain[n - 2..] == Crc16.WordBytes(Crc16.Crc16(plain[..n - 2])))
  }

  /** A type with its check sequence and nothing besides. */
  predicate NoPayload(fcsType: nat, length: nat) {
    (fcsType == 0 && length <= 4) || (fcsType == 1 && length <= 2)
  }

  /** The outcomes once the marker has been taken off, told by header, length, check and the answers of the chip. */
  predicate BodyJudged(fcsType: nat, plain: seq<bv8>, unmarked: seq<bv8>, payloadLen: uint8, chip: Chip, o: RxOutcome)
    requires |plain| <= |unmarked|
  {
    var n := |plain|;
    var read := !NoPayload(fcsType, n) && chip.bufferStatusOk && chip.readOk;
    var known := fcsType == 0 || fcsType == 1;
    && (o.err == NoError <==> read && chip.pktStatusOk && EndsInItsCheck(fcsType, plain))
    && (o.err == NoError ==>
        o.status == StatusOk && o.payloadLen == n - (if fcsType == 0 then 4 else 2) && o.buffer == plain + unmarked[n..])
    && (NoPayload(fcsType, n) ==> o == RxOutcome(IoError, BadCrc, payloadLen, unmarked))
    && (!NoPayload(fcsType, n) && !chip.bufferStatusOk ==> o == RxOutcome(IoError, StatusOk, payloadLen, unmarked))
    && (!NoPayload(fcsType, n) && chip.bufferStatusOk && !chip.readOk ==> o == RxOutcome(IoError, Timeout, payloadLen, unmarked))
    && (read && !known ==> o == RxOutcome(Generic, UnknownError, 0, plain + unmarked[n..]))
    && (read && known && !chip.pktStatusOk ==> o.err == IoError && o.status == Timeout)
    && (read && known && chip.pktStatusOk && !EndsInItsCheck(fcsType, plain) ==> o.err == Generic && o.status == BadCrc)
  }

  /** Every outcome, told by the receive buffer and the answers of the chip. */
  predicate Judged(buffer: seq<bv8>, payloadLen: uint8, chip: Chip, o: RxOutcome)
    requires |buffer| == RX_PAYLOAD_MAX_SIZE && |chip.bytes| >= RX_PAYLOAD_MAX_SIZE
  {
    var fcsType, plain := (buffer[0] >> 4) as nat, Unwhitened(buffer, chip);
    && (o.err == NoError <==>
        && Marked(buffer) && chip.bufferStatusOk && chip.readOk && chip.pktStatusOk
        && EndsInItsCheck(fcsType, plain))
    && if Marked(buffer) then BodyJudged(fcsType, plain, buffer[2 := 0x00][3 := 0x00], payloadLen, chip, o)
       else o == RxOutcome(Generic, SwMarkNotPresent, payloadLen, buffer)
  }

  /** The check of the code and the one above are the same. */
  lemma SameCheck(fcsType: nat, plain: seq<bv8>)
    requires fcsType == 0 || fcsType == 1
    requires |plain| > FcsLength(fcsType)
    ensures FcsMatches(fcsType, plain) <==> EndsInItsCheck(fcsType, plain)
  {
  }

  lemma KnownType(fcsType: nat, plain: seq<bv8>)
    ensures EndsInItsCheck(fcsType, plain) ==> (fcsType == 0 || fcsType == 1) && !NoPayload(fcsType, |plain|)
  {
  }

  lemma RxBodyJudged(phr: Phr, buffer: seq<bv8>, payloadLen: uint8, chip: Chip)
    requires |buffer| == RX_PAYLOAD_MAX_SIZE && |chip.bytes| >= RX_PAYLOAD_MAX_SIZE
    ensures BodyJudged(phr.fcsType, Plain(phr.isDataWhiteningEnabled, chip.bytes[..phr.length]), buffer, payloadLen, chip,
                       RxBody(phr, buffer, payloadLen, StatusOk, chip))
  {
    hide Whiten, FcsMatches, EndsInItsCheck, Plain;
    var plain := Plain(phr.isDataWhiteningEnabled, chip.bytes[..phr.length]);
    KnownType(phr.fcsType, plain);
    if (phr.fcsType == 0 || phr.fcsType == 1) && |plain| > FcsLength(phr.fcsType) { SameCheck(phr.fcsType, plain); }
  }

  /** For a call with the status that irq_process passes. */
  lemma RxDoneJudged(buffer: seq<bv8>, payloadLen: uint8, chip: Chip)
    requires |buffer| == RX_PAYLOAD_MAX_SIZE && |chip.bytes| >= RX_PAYLOAD_MAX_SIZE
    ensures Judged(buffer, payloadLen, chip, RxDone(buffer, payloadLen, StatusOk, chip))
  {
    hide RxBody, EndsInItsCheck, BodyJudged, Whiten;
    if Marked(buffer) {
      var phr := DecodePhr(buffer[0], buffer[1]);
      RxBodyJudged(phr, buffer[2 := 0x00][3 := 0x00], payloadLen, chip);
      assert Unwhitened(buffer, chip) == Plain(phr.isDataWhiteningEnabled, chip.bytes[..phr.length]);
      Success(phr.fcsType, Unwhitened(buffer, chip), buffer[2 := 0x00][3 := 0x00], payloadLen, chip, RxDone(buffer, payloadLen, StatusOk, chip));
    }
  }

  lemma Success(fcsType: nat, plain: seq<bv8>, unmarked: seq<bv8>, payloadLen: uint8, chip: Chip, o: RxOutcome)
    requires |plain| <= |unmarked| && BodyJudged(fcsType, plain, unmarked, payloadLen, chip, o)
    ensures o.err == NoError <==> chip.bufferStatusOk && chip.readOk && chip.pktStatusOk && EndsInItsCheck(fcsType, plain)
  {
    hide EndsInItsCheck;
    KnownType(fcsType, plain);
  }

  /** How many bytes of the frame the register says have arrived. */
  function Arrived(register: bv32): bv32 {
    (register & 0x0FFF_0000) >> 16
  }

  lemma ArrivedField(register: bv32)
    ensures Arrived(register) > 4 <==> register & 0x0FFF_0000 > 0x0004_0000
  {
  }

  /** The register answers `polls` in turn until more than the first four bytes have arrived; `polled` is the
      answer that ends the wait. `rxLength` is what the chip is then told to receive in all. */
  method ProcessSyncWordDetected(packet: RxPacket, polls: seq<bv32>, head: seq<bv8>) returns (polled: nat, rxLength: nat)
    requires packet.Valid() && |head| >= 4
    requires exists k :: 0 <= k < |polls| && Arrived(polls[k]) > 4
    modifies packet.rcvPayload
    ensures polled < |polls| && Arrived(polls[polled]) > 4 && forall k :: 0 <= k < polled ==> Arrived(polls[k]) <= 4
    ensures polls[polled] & 0x0FFF_0000 > 0x0004_0000 && forall k :: 0 <= k < polled ==> polls[k] & 0x0FFF_0000 <= 0x0004_0000
    ensures packet.rcvPayload[..] == SyncDetected(old(packet.rcvPayload[..]), head)
    ensures rxLength == DecodePhr(head[0], head[1]).length + PHY_HEADER_LENGTH
  {
    polled := 0;
    while Arrived(polls[polled]) <= 4
      invariant polled < |polls| && forall k :: 0 <= k < polled ==> Arrived(polls[k]) <= 4
      decreases |polls| - polled
    {
      polled := polled + 1;
    }
    forall k | 0 <= k <= polled ensures Arrived(polls[k]) > 4 <==> polls[k] & 0x0FFF_0000 > 0x0004_0000 { ArrivedField(polls[k]); }
    var buffer := packet.rcvPayload;
    forall i | 0 <= i < 4 { buffer[i] := head[i]; }
    rxLength := buffer[1] as int + PHY_HEADER_LENGTH;
    buffer[2] := 0xAB;
    buffer[3] := 0xBA;
  }

  method ProcessRxDone(packet: RxPacket, statusIn: RxDoneStatus, chip: Chip)
    returns (err: RadioError, status: RxDoneStatus)
    requires packet.Valid() && |chip.bytes| >= RX_PAYLOAD_MAX_SIZE
    modifies packet, packet.rcvPayload
    ensures RxOutcome(err, status, packet.payloadLen, packet.rcvPayload[..])
         == RxDone(old(packet.rcvPayload[..]), old(packet.payloadLen), statusIn, chip)
    ensures statusIn == StatusOk ==>
      Judged(old(packet.rcvPayload[..]), old(packet.payloadLen), chip, RxOutcome(err, status, packet.payloadLen, packet.rcvPayload[..]))
  {
    hide Judged, RxBody;
    RxDoneJudged(packet.rcvPayload[..], packet.payloadLen, chip);
    var buffer := packet.rcvPayload;
    status := statusIn;
    if buffer[2] != 0xAB || buffer[3] != 0xBA {
      return Generic, SwMarkNotPresent;
    }
    buffer[2] := 0x00;
    buffer[3] := 0x00;
    var phr := DecodePhr(buffer[0], buffer[1]);
    err, status := ReceiveBody(packet, phr, statusIn, chip);
  }

  method ReceiveBody(packet: RxPacket, phr: Phr, statusIn: RxDoneStatus, chip: Chip)
    returns (err: RadioError, status: RxDoneStatus)
    requires packet.Valid() && |chip.bytes| >= RX_PAYLOAD_MAX_SIZE
    modifies packet, packet.rcvPayload
    ensures RxOutcome(err, status, packet.payloadLen, packet.rcvPayload[..])
         == RxBody(phr, old(packet.rcvPayload[..]), old(packet.payloadLen), statusIn, chip)
  {
    var buffer, length := packet.rcvPayload, phr.length;
    status := statusIn;
    if (phr.fcsType == FCS_TYPE_0 && length <= 4) || (phr.fcsType == FCS_TYPE_1 && length <= 2) {
      return IoError, BadCrc;
    }
    if !chip.bufferStatusOk {
      return IoError, status;
    }
    if !chip.readOk {
      return IoError, Timeout;
    }
    ghost var plain := Plain(phr.isDataWhiteningEnabled, chip.bytes[..length]);
    ReadBody(buffer, chip.bytes, length, phr.isDataWhiteningEnabled);
    assert buffer[..] == plain + old(packet.rcvPayload[..])[length..];
    if !Supported(phr.fcsType) {
      packet.payloadLen := 0;
      return Generic, UnknownError;
    }
    if status == UnknownError {
      return NoError, status;
    }
    packet.payloadLen := length - FcsLength(phr.fcsType);
    var matches := CheckFcs(phr.fcsType, buffer, length, plain);
    err := NoError;
    if !matches {
      status, err := BadCrc, Generic;
    }
    if !chip.pktStatusOk {
      status, err := Timeout, IoError;
    }
  }

  method CheckFcs(fcsType: nat, buffer: array<bv8>, length: uint8, ghost plain: seq<bv8>) returns (matches: bool)
    requires Supported(fcsType) && FcsLength(fcsType) <= length <= buffer.Length && plain == buffer[..length]
    ensures matches == FcsMatches(fcsType, plain)
  {
    var n := length - FcsLength(fcsType);
    var fcs := ComputeFcs(fcsType, buffer, n);
    matches := CompareFcs(buffer, n, fcs);
    assert plain[n..] == buffer[n..length] && plain[..n] == buffer[..n];
  }

  method ReadBody(buffer: array<bv8>, bytes: seq<bv8>, length: uint8, whitening: bool)
    requires length <= buffer.Length && length <= |bytes|
    modifies buffer
    ensures buffer[..length] == if whitening then Whiten(WHITENING_SEED, bytes[..length]) else bytes[..length]
    ensures buffer[length..] == old(buffer[length..])
  {
    forall i | 0 <= i < length { buffer[i] := bytes[i]; }
    assert buffer[0..length] == bytes[..length];
    if whitening {
      PerformDataWhitening(WHITENING_SEED, buffer, 0, buffer, 0, length);
    }
    assert buffer[0..length] == buffer[..length];
  }

  /** The byte-by-byte comparison loop, stopping at the first difference. */
  method CompareFcs(buffer: array<bv8>, at: nat, fcs: seq<bv8>) returns (matches: bool)
    requires at + |fcs| <= buffer.Length
    ensures matches <==> buffer[at..at + |fcs|] == fcs
  {
    for i := 0 to |fcs|
      invariant buffer[at..at + i] == fcs[..i]
    {
      if buffer[at + i] != fcs[i] {
        assert buffer[at..at + |fcs|][i] != fcs[i];
        return false;
      }
    }
    return true;
  }

  // ---------------------------------------------------------------- round trip

  predicate Sendable(hdr: PhyHdr, payload: seq<bv8>) {
    Supported(hdr.fcsType) && 1 <= |payload| <= MaxPayload(hdr.fcsType)
  }

  lemma FirstByte(hdr: PhyHdr)
    requires Supported(hdr.fcsType)
    ensures (PhrByte(hdr) >> 4) as nat == hdr.fcsType && (PhrByte(hdr) & 0x08 != 0) == hdr.isDataWhiteningEnabled
  {
  }

  lemma PhrRoundTrip(hdr: PhyHdr, payload: seq<bv8>)
    requires Sendable(hdr, payload)
    ensures DecodePhr(Frame(hdr, payload)[0], Frame(hdr, payload)[1])
         == Phr(hdr.fcsType, hdr.isDataWhiteningEnabled, |payload| + FcsLength(hdr.fcsType))
  {
    FirstByte(hdr);
    ByteOfNat(|payload| + FcsLength(hdr.fcsType));
  }

  /** The chip is told to receive exactly the frame. */
  lemma WholeFrameExpected(hdr: PhyHdr, payload: seq<bv8>)
    requires Sendable(hdr, payload)
    ensures DecodePhr(Frame(hdr, payload)[0], Frame(hdr, payload)[1]).length + PHY_HEADER_LENGTH == |Frame(hdr, payload)|
  {
    PhrRoundTrip(hdr, payload);
  }

  /** A frame's header has been received and its PSDU arrives as `air`; `noise` is what the chip read after it. */
  ghost predicate Arrives(buffer: seq<bv8>, hdr: PhyHdr, payload: seq<bv8>, air: seq<bv8>, noise: seq<bv8>) {
    |buffer| == RX_PAYLOAD_MAX_SIZE && Sendable(hdr, payload) &&
    |air| == |payload| + FcsLength(hdr.fcsType) && |air| + |noise| >= RX_PAYLOAD_MAX_SIZE
  }

  /** Sync-word interrupt, then receive-done interrupt, with every chip command succeeding. */
  ghost function Receive(buffer: seq<bv8>, payloadLen: uint8, hdr: PhyHdr, payload: seq<bv8>, air: seq<bv8>, noise: seq<bv8>): RxOutcome
    requires Arrives(buffer, hdr, payload, air, noise)
  {
    var marked := SyncDetected(buffer, Frame(hdr, payload)[..2] + air);
    RxDone(marked, payloadLen, StatusOk, Chip(true, true, air + noise, true))
  }

  lemma ReceiveIsBody(buffer: seq<bv8>, payloadLen: uint8, hdr: PhyHdr, payload: seq<bv8>, air: seq<bv8>, noise: seq<bv8>)
    requires Arrives(buffer, hdr, payload, air, noise)
    ensures Receive(buffer, payloadLen, hdr, payload, air, noise)
         == RxBody(Phr(hdr.fcsType, hdr.isDataWhiteningEnabled, |air|),
                   SyncDetected(buffer, Frame(hdr, payload)[..2] + air)[2 := 0x00][3 := 0x00],
                   payloadLen, StatusOk, Chip(true, true, air + noise, true))
  {
    PhrRoundTrip(hdr, payload);
  }

  /** Receiving succeeds exactly when the check sequence fits, whatever the buffer held before. */
  lemma ReceiveChecks(buffer: seq<bv8>, payloadLen: uint8, hdr: PhyHdr, payload: seq<bv8>, air: seq<bv8>, noise: seq<bv8>)
    requires Arrives(buffer, hdr, payload, air, noise)
    ensures var plain := Plain(hdr.isDataWhiteningEnabled, air);
            var r := Receive(buffer, payloadLen, hdr, payload, air, noise);
            && r.payloadLen == |payload| && plain <= r.buffer
            && (if FcsMatches(hdr.fcsType, plain) then r.err == NoError && r.status == StatusOk
                else r.err == Generic && r.status == BadCrc)
  {
    ReceiveIsBody(buffer, payloadLen, hdr, payload, air, noise);
    assert (air + noise)[..|air|] == air;
  }

  /** The same with any answers of the chip to its three commands. */
  ghost function ReceiveWith(buffer: seq<bv8>, payloadLen: uint8, hdr: PhyHdr, payload: seq<bv8>, air: seq<bv8>, noise: seq<bv8>,
                             statusOk: bool, readOk: bool, pktStatusOk: bool): RxOutcome
    requires Arrives(buffer, hdr, payload, air, noise)
  {
    var marked := SyncDetected(buffer, Frame(hdr, payload)[..2] + air);
    RxDone(marked, payloadLen, StatusOk, Chip(statusOk, readOk, air + noise, pktStatusOk))
  }

  /** A command that fails turns success into an error and nothing into success. */
  lemma FailuresOnlyRefuse(buffer: seq<bv8>, payloadLen: uint8, hdr: PhyHdr, payload: seq<bv8>, air: seq<bv8>, noise: seq<bv8>,
                           statusOk: bool, readOk: bool, pktStatusOk: bool)
    requires Arrives(buffer, hdr, payload, air, noise)
    ensures ReceiveWith(buffer, payloadLen, hdr, payload, air, noise, statusOk, readOk, pktStatusOk).err == NoError
       <==> statusOk && readOk && pktStatusOk && Receive(buffer, payloadLen, hdr, payload, air, noise).err == NoError
  {
    PhrRoundTrip(hdr, payload);
  }

  /** What was sent is what is received. */
  lemma RoundTrip(buffer: seq<bv8>, payloadLen: uint8, hdr: PhyHdr, payload: seq<bv8>, noise: seq<bv8>)
    requires Arrives(buffer, hdr, payload, Psdu(hdr, payload), noise)
    ensures var r := Receive(buffer, payloadLen, hdr, payload, Psdu(hdr, payload), noise);
            r.err == NoError && r.status == StatusOk && r.payloadLen == |payload| && payload <= r.buffer
  {
    ReceiveChecks(buffer, payloadLen, hdr, payload, Psdu(hdr, payload), noise);
    PlainOfPsdu(hdr, payload);
    FcsMatchesOwn(hdr.fcsType, payload);
  }

  lemma FcsMatchesOwn(fcsType: nat, payload: seq<bv8>)
    ensures FcsMatches(fcsType, payload + Fcs(fcsType, payload))
  {
    var plain := payload + Fcs(fcsType, payload);
    assert plain[|payload|..] == Fcs(fcsType, payload) && plain[..|payload|] == payload;
  }

  lemma PlainOfPsdu(hdr: PhyHdr, payload: seq<bv8>)
    ensures Plain(hdr.isDataWhiteningEnabled, Psdu(hdr, payload)) == payload + Fcs(hdr.fcsType, payload)
  {
    WhitenTwice(WHITENING_SEED, payload + Fcs(hdr.fcsType, payload));
  }
}
