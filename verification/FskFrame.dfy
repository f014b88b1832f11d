/** The Sidewalk FSK frame of lr11xx_radio_fsk.c: built in place for transmission, taken apart in place on receive. */
module FskFrame {
  import opened Bits
  import opened RadioTypes
  import opened Wrappers
  import opened Whitening
  import Crc16
  import Crc32

  const FCS_TYPE_0 := 0   // four octets
  const FCS_TYPE_1 := 1   // two octets

  const PHY_HEADER_LENGTH := 2
  const WHITENING_SEED: bv16 := 0x01FF
  const MAX_PAYLOAD_LENGTH_WITH_FCS_TYPE_0 := 251
  const MAX_PAYLOAD_LENGTH_WITH_FCS_TYPE_1 := 253

  const ADDRESS_FILTERING_DISABLE: uint8 := 0x00
  const PKT_FIX_LEN: uint8 := 0x00
  const CRC_OFF: uint8 := 0x01
  const DC_FREE_OFF: uint8 := 0x00

  datatype PhyHdr = PhyHdr(fcsType: nat, isDataWhiteningEnabled: bool, isFecEnabled: bool)

  class PacketParams {
    var preambleLength: uint16
    var syncWordLength: uint8
    var addrComp: uint8
    var headerType: uint8
    var payloadLength: uint8
    var crcType: uint8
    var radioWhiteningMode: uint8
  }

  datatype PktCfg = PktCfg(
    phyHdr: Option<PhyHdr>, packetParams: PacketParams?, syncWord: array?<bv8>, payload: array?<bv8>)
  {
    predicate HasNull() {
      phyHdr.None? || packetParams == null || syncWord == null || payload == null
    }
  }

  // ----------------------------------------------------------------- the frame

  function FcsLength(fcsType: nat): nat {
    if fcsType == FCS_TYPE_0 then 4 else 2
  }

  function MaxPayload(fcsType: nat): nat {
    if fcsType == FCS_TYPE_0 then MAX_PAYLOAD_LENGTH_WITH_FCS_TYPE_0 else MAX_PAYLOAD_LENGTH_WITH_FCS_TYPE_1
  }

  predicate Supported(fcsType: nat) {
    fcsType == FCS_TYPE_0 || fcsType == FCS_TYPE_1
  }

  function Fcs(fcsType: nat, payload: seq<bv8>): (r: seq<bv8>)
    ensures |r| == FcsLength(fcsType)
  {
    if fcsType == FCS_TYPE_0 then Crc32.WordBytes(Crc32.Crc32(payload)) else Crc16.WordBytes(Crc16.Crc16(payload))
  }

  function PhrByte(hdr: PhyHdr): bv8 {
    (if hdr.fcsType == FCS_TYPE_0 then 0x00 else 0x10) + (if hdr.isDataWhiteningEnabled then 0x08 else 0x00)
  }

  /** Payload and check sequence as they go on the air. */
  function Psdu(hdr: PhyHdr, payload: seq<bv8>): (r: seq<bv8>)
    ensures |r| == |payload| + FcsLength(hdr.fcsType)
  {
    var plain := payload + Fcs(hdr.fcsType, payload);
    if hdr.isDataWhiteningEnabled then Whiten(WHITENING_SEED, plain) else plain
  }

  function Frame(hdr: PhyHdr, payload: seq<bv8>): (r: seq<bv8>)
    requires |payload| + FcsLength(hdr.fcsType) < 256
    ensures |r| == PHY_HEADER_LENGTH + |payload| + FcsLength(hdr.fcsType)
  {
    [PhrByte(hdr), (|payload| + FcsLength(hdr.fcsType)) as bv8] + Psdu(hdr, payload)
  }

  /** On the air: payload and check sequence, and with whitening the PN9 sequence of the all-ones seed added to them. */
  lemma PsduBit(hdr: PhyHdr, payload: seq<bv8>, k: nat)
    requires k < 8 * (|payload| + FcsLength(hdr.fcsType))
    ensures BytesBits(Psdu(hdr, payload))[k]
         == (BytesBits(payload + Fcs(hdr.fcsType, payload))[k] != (hdr.isDataWhiteningEnabled && Pn9(0x1FF, 9 + k)))
  {
    hide Whiten, Pn9, BytesBits;
    if hdr.isDataWhiteningEnabled {
      var plain := payload + Fcs(hdr.fcsType, payload);
      WhitenAddsPn9(0x1FF, plain);
      AddedBit(0x1FF, plain, Whiten(0x1FF, plain), k);
    }
  }

  function SyncWord(hdr: PhyHdr): seq<bv8> {
    [0x55, if hdr.isFecEnabled then 0x6F else 0x90, 0x4E]
  }

  /** A preamble byte and the start-of-frame delimiter, 0x904E for uncoded and 0x6F4E for coded frames. */
  lemma SyncWordValue(hdr: PhyHdr)
    ensures
      var w := SyncWord(hdr);
      |w| == 3 && w[0] == 0x55 && 256 * (w[1] as int) + (w[2] as int) == if hdr.isFecEnabled then 0x6F4E else 0x904E
  {
  }

  /** What the argument checks of prepare_fsk_for_tx answer. */
  function TxCheck(hdr: PhyHdr, preambleLength: uint16, payloadLength: uint8): RadioError {
    if payloadLength == 0 || preambleLength == 0 then InvalidParams
    else if Supported(hdr.fcsType) && payloadLength > MaxPayload(hdr.fcsType) then InvalidParams
    else if !Supported(hdr.fcsType) then NotSupported
    else NoError
  }

  /** Which frames are built, and how the others are refused. */
  lemma TxCheckExactly(hdr: PhyHdr, preambleLength: uint16, payloadLength: uint8)
    ensures
      var err, t := TxCheck(hdr, preambleLength, payloadLength), hdr.fcsType;
      && (err == NoError <==>
          preambleLength > 0 && ((t == 0 && 1 <= payloadLength <= 251) || (t == 1 && 1 <= payloadLength <= 253)))
      && (err == NotSupported <==> preambleLength > 0 && payloadLength > 0 && t > 1)
      && err in {NoError, NotSupported, InvalidParams}
  {
  }

  /** The header: type in the high nibble, whitening in bit 3, and the length of what follows. */
  lemma HeaderOfFrame(hdr: PhyHdr, payload: seq<bv8>)
    requires Supported(hdr.fcsType) && |payload| <= MaxPayload(hdr.fcsType)
    ensures
      var f := Frame(hdr, payload);
      && f[0] == (match hdr case PhyHdr(t, w, _) => if t == 0 then (if w then 0x08 else 0x00) else if w then 0x18 else 0x10)
      && f[1] as int == |payload| + if hdr.fcsType == 0 then 4 else 2
  {
    ByteOfNat(|payload| + FcsLength(hdr.fcsType));
  }

  ghost function Footprint(cfg: Option<PktCfg>): set<object> {
    if cfg.None? || cfg.value.HasNull() then {}
    else {cfg.value.packetParams, cfg.value.syncWord, cfg.value.payload}
  }

  method PrepareFskForTx(cfg: Option<PktCfg>) returns (err: RadioError)
    // what is written to: three bytes of sync word, and room after the payload for header and check sequence
    requires cfg.Some? && !cfg.value.HasNull() ==>
      var c := cfg.value;
      TxCheck(c.phyHdr.value, c.packetParams.preambleLength, c.packetParams.payloadLength) == NoError ==>
        && c.payload != c.syncWord && c.syncWord.Length >= 3
        && c.payload.Length >= c.packetParams.payloadLength + PHY_HEADER_LENGTH + FcsLength(c.phyHdr.value.fcsType)
    modifies Footprint(cfg)
    ensures cfg.None? || cfg.value.HasNull() ==> err == InvalidParams
    ensures cfg.Some? && !cfg.value.HasNull() ==>
      var c := cfg.value;
      err == TxCheck(c.phyHdr.value, old(c.packetParams.preambleLength), old(c.packetParams.payloadLength))
    ensures err != NoError ==> forall o <- Footprint(cfg) :: unchanged(o)
    ensures err == NoError ==>
      var c, hdr := cfg.value, cfg.value.phyHdr.value;
      var p := old(c.packetParams.payloadLength);
      var psduLength := p + FcsLength(hdr.fcsType);
      && c.payload[..PHY_HEADER_LENGTH + psduLength] == Frame(hdr, old(c.payload[..p]))
      && c.payload[PHY_HEADER_LENGTH + psduLength..] == old(c.payload[PHY_HEADER_LENGTH + psduLength..])
      && c.syncWord[..3] == SyncWord(hdr) && c.syncWord[3..] == old(c.syncWord[3..])
      && c.packetParams.payloadLength == (PHY_HEADER_LENGTH + psduLength) % 256
      && c.packetParams.preambleLength == old(c.packetParams.preambleLength)
      && c.packetParams.syncWordLength == 3
      && c.packetParams.addrComp == ADDRESS_FILTERING_DISABLE
      && c.packetParams.headerType == PKT_FIX_LEN
      && c.packetParams.crcType == CRC_OFF
      && c.packetParams.radioWhiteningMode == DC_FREE_OFF
  {
    if cfg.None? || cfg.value.HasNull() {
      return InvalidParams;
    }
    var pp, hdr := cfg.value.packetParams, cfg.value.phyHdr.value;
    if pp.payloadLength == 0 || pp.preambleLength == 0 {
      return InvalidParams;
    }
    if (hdr.fcsType == FCS_TYPE_0 && pp.payloadLength > MAX_PAYLOAD_LENGTH_WITH_FCS_TYPE_0) ||
       (hdr.fcsType == FCS_TYPE_1 && pp.payloadLength > MAX_PAYLOAD_LENGTH_WITH_FCS_TYPE_1) {
      return InvalidParams;
    }
    if !Supported(hdr.fcsType) {
      return NotSupported;
    }
    var psduLength := BuildPsdu(hdr, cfg.value.payload, pp.payloadLength);
    BuildSyncWord(hdr, cfg.value.syncWord);
    pp.syncWordLength := 3;
    pp.addrComp := ADDRESS_FILTERING_DISABLE;
    pp.headerType := PKT_FIX_LEN;
    pp.payloadLength := (PHY_HEADER_LENGTH + psduLength) % 256;
    pp.crcType := CRC_OFF;
    pp.radioWhiteningMode := DC_FREE_OFF;
    return NoError;
  }

  method BuildSyncWord(hdr: PhyHdr, syncWord: array<bv8>)
    requires syncWord.Length >= 3
    modifies syncWord
    ensures syncWord[..3] == SyncWord(hdr) && syncWord[3..] == old(syncWord[3..])
  {
    syncWord[0] := 0x55;
    syncWord[1] := if hdr.isFecEnabled then 0x6F else 0x90;
    syncWord[2] := 0x4E;
  }

  method BuildPsdu(hdr: PhyHdr, txBuffer: array<bv8>, payloadLength: uint8) returns (psduLength: uint8)
    requires Supported(hdr.fcsType) && 1 <= payloadLength <= MaxPayload(hdr.fcsType)
    requires txBuffer.Length >= payloadLength + PHY_HEADER_LENGTH + FcsLength(hdr.fcsType)
    modifies txBuffer
    ensures psduLength == payloadLength + FcsLength(hdr.fcsType)
    ensures txBuffer[..PHY_HEADER_LENGTH + psduLength] == Frame(hdr, old(txBuffer[..payloadLength]))
    ensures txBuffer[PHY_HEADER_LENGTH + psduLength..] == old(txBuffer[PHY_HEADER_LENGTH + psduLength..])
    ensures forall k :: 0 <= k < 8 * psduLength ==>
      BytesBits(txBuffer[2..2 + psduLength])[k]
      == (BytesBits(old(txBuffer[..payloadLength]) + Fcs(hdr.fcsType, old(txBuffer[..payloadLength])))[k]
          != (hdr.isDataWhiteningEnabled && Pn9(0x1FF, 9 + k)))
  {
    hide Whiten, Pn9, BytesBits;
    ghost var payload := txBuffer[..payloadLength];
    psduLength := payloadLength + FcsLength(hdr.fcsType);
    ghost var rest := txBuffer[PHY_HEADER_LENGTH + psduLength..];
    LayOut(hdr.fcsType, txBuffer, payloadLength);
    WriteHeader(hdr, txBuffer, psduLength);
    WhitenBody(hdr.isDataWhiteningEnabled, txBuffer, psduLength, payload + Fcs(hdr.fcsType, payload), rest);
    assert txBuffer[..] == Frame(hdr, payload) + rest;
    assert txBuffer[2..2 + psduLength] == Psdu(hdr, payload);
    forall k | 0 <= k < 8 * psduLength
      ensures BytesBits(txBuffer[2..2 + psduLength])[k]
           == (BytesBits(payload + Fcs(hdr.fcsType, payload))[k] != (hdr.isDataWhiteningEnabled && Pn9(0x1FF, 9 + k)))
    {
      PsduBit(hdr, payload, k);
    }
  }

  method WhitenBody(whitening: bool, txBuffer: array<bv8>, psduLength: uint8, ghost plain: seq<bv8>, ghost rest: seq<bv8>)
    requires PHY_HEADER_LENGTH <= txBuffer.Length && |plain| == psduLength
    requires txBuffer[PHY_HEADER_LENGTH..] == plain + rest
    modifies txBuffer
    ensures txBuffer[..] == old(txBuffer[..PHY_HEADER_LENGTH]) + (if whitening then Whiten(WHITENING_SEED, plain) else plain) + rest
  {
    ghost var body := txBuffer[PHY_HEADER_LENGTH..];
    ghost var end := PHY_HEADER_LENGTH + psduLength;
    assert txBuffer[PHY_HEADER_LENGTH..end] == body[..psduLength] == plain;
    assert txBuffer[end..] == body[psduLength..] == rest;
    if whitening {
      PerformDataWhitening(WHITENING_SEED, txBuffer, PHY_HEADER_LENGTH, txBuffer, PHY_HEADER_LENGTH, psduLength);
    }
    assert txBuffer[..] == txBuffer[..PHY_HEADER_LENGTH] + txBuffer[PHY_HEADER_LENGTH..end] + txBuffer[end..];
  }

  method WriteHeader(hdr: PhyHdr, txBuffer: array<bv8>, psduLength: uint8)
    requires PHY_HEADER_LENGTH <= txBuffer.Length && Supported(hdr.fcsType)
    modifies txBuffer
    ensures txBuffer[..PHY_HEADER_LENGTH] == [PhrByte(hdr), psduLength as bv8]
    ensures txBuffer[PHY_HEADER_LENGTH..] == old(txBuffer[PHY_HEADER_LENGTH..])
  {
    txBuffer[0] := if hdr.fcsType == FCS_TYPE_0 then 0x00 else 0x10;
    txBuffer[0] := txBuffer[0] + (if hdr.isDataWhiteningEnabled then 0x08 else 0x00);
    txBuffer[1] := psduLength as bv8;
  }

  /** The check sequence is written two bytes past the payload first, then the payload is moved up to meet it. */
  method LayOut(fcsType: nat, txBuffer: array<bv8>, payloadLength: uint8)
    requires Supported(fcsType) && 1 <= payloadLength
    requires txBuffer.Length >= payloadLength + PHY_HEADER_LENGTH + FcsLength(fcsType)
    modifies txBuffer
    ensures txBuffer[PHY_HEADER_LENGTH..]
         == old(txBuffer[..payloadLength]) + Fcs(fcsType, old(txBuffer[..payloadLength]))
          + old(txBuffer[PHY_HEADER_LENGTH + payloadLength + FcsLength(fcsType)..])
  {
    ghost var payload, at := txBuffer[..payloadLength], PHY_HEADER_LENGTH + payloadLength;
    WriteFcs(fcsType, txBuffer, payloadLength);
    assert txBuffer[..payloadLength] == txBuffer[..at][..payloadLength] == payload;
    MovePastHeader(txBuffer, payloadLength);
  }

  /** memmove of the payload to the bytes after the header; the two ranges overlap. */
  method MovePastHeader(txBuffer: array<bv8>, n: nat)
    requires PHY_HEADER_LENGTH + n <= txBuffer.Length
    modifies txBuffer
    ensures txBuffer[PHY_HEADER_LENGTH..] == old(txBuffer[..n]) + old(txBuffer[PHY_HEADER_LENGTH + n..])
  {
    forall i | 0 <= i < n { txBuffer[PHY_HEADER_LENGTH + i] := txBuffer[i]; }
  }

  method WriteFcs(fcsType: nat, txBuffer: array<bv8>, payloadLength: uint8)
    requires Supported(fcsType) && 1 <= payloadLength
    requires txBuffer.Length >= payloadLength + PHY_HEADER_LENGTH + FcsLength(fcsType)
    modifies txBuffer
    ensures var at := PHY_HEADER_LENGTH + payloadLength;
      && txBuffer[..at] == old(txBuffer[..at])
      && txBuffer[at..] == Fcs(fcsType, old(txBuffer[..payloadLength])) + old(txBuffer[at + FcsLength(fcsType)..])
  {
    var at := PHY_HEADER_LENGTH + payloadLength;
    var fcs := ComputeFcs(fcsType, txBuffer, payloadLength);
    CopyBytes(fcs, txBuffer, at);
  }

  method CopyBytes(bytes: seq<bv8>, buffer: array<bv8>, at: nat)
    requires at + |bytes| <= buffer.Length
    modifies buffer
    ensures buffer[..at] == old(buffer[..at])
    ensures buffer[at..] == bytes + old(buffer[at + |bytes|..])
  {
    for i := 0 to |bytes|
      invariant forall k :: 0 <= k < i ==> buffer[at + k] == bytes[k]
      invariant forall k :: 0 <= k < buffer.Length && !(at <= k < at + i) ==> buffer[k] == old(buffer[k])
    {
      buffer[at + i] := bytes[i];
    }
  }

  /** The check sequence in transmission order, from compute_crc32 or compute_crc16. */
  method ComputeFcs(fcsType: nat, buffer: array<bv8>, length: uint8) returns (fcs: seq<bv8>)
    requires Supported(fcsType) && length <= buffer.Length
    ensures fcs == Fcs(fcsType, buffer[..length])
  {
    if fcsType == FCS_TYPE_0 {
      var crc := Crc32.ComputeCrc32(buffer, length);
      fcs := Crc32.WordBytes(crc);
    } else {
      var crc := Crc16.ComputeCrc16(buffer, length);
      fcs := Crc16.WordBytes(crc);
    }
  }

  /** The byte count handed to the radio is the frame's length unless the 8-bit field wraps. */
  lemma AnnouncedLength(hdr: PhyHdr, payload: seq<bv8>)
    requires Supported(hdr.fcsType) && 1 <= |payload| <= MaxPayload(hdr.fcsType)
    ensures |Frame(hdr, payload)| % 256 == |Frame(hdr, payload)| <==> |payload| <= MaxPayload(hdr.fcsType) - 2
  {
  }
}
