/** SOME/IP frames as the example applications build and read them
    (services/someip_sd_cpp/examples/someip_app_protocol.hpp). */
module SomeIpFrame {
  import opened Bytes
  import opened ByteStreams
  import SdWire
  import SdWireTheorems
  import opened SdDatagrams

  /** The message type is whatever byte the frame holds. */
  datatype SomeIpMessage = SomeIpMessage(
    serviceId: u16, methodId: u16, clientId: u16, sessionId: u16,
    interfaceVersion: byte, messageType: byte, returnCode: byte, payload: seq<byte>)

  datatype FrameError = PayloadTooLarge | TooShort | InvalidLength | LengthMismatch | UnsupportedProtocol

  const MAX_PAYLOAD: nat := 0xFFFF_FFFF - 8

  function Pair(hi: u16, lo: u16): u32 {
    (hi as int) * 0x1_0000 + lo as int
  }

  function FrameBytes(m: SomeIpMessage): (f: seq<byte>)
    ensures |f| == 16 + |m.payload|
  {
    SdWire.HeaderBytes(Pair(m.serviceId, m.methodId), 8 + |m.payload|, Pair(m.clientId, m.sessionId),
                       SdWire.PROTOCOL_VERSION, m.interfaceVersion, m.messageType, m.returnCode)
    + m.payload
  }

  function EncodeFrame(m: SomeIpMessage): Result<seq<byte>, FrameError> {
    if |m.payload| > MAX_PAYLOAD then Failure(PayloadTooLarge) else Success(FrameBytes(m))
  }

  function DecodeFrame(data: seq<byte>): Result<SomeIpMessage, FrameError> {
    if |data| < 16 then Failure(TooShort)
    else
      var id, length, request := FromBE(data[0..4]), FromBE(data[4..8]), FromBE(data[8..12]);
      if length < 8 then Failure(InvalidLength)
      else if |data| != 16 + (length - 8) then Failure(LengthMismatch)
      else if data[12] != SdWire.PROTOCOL_VERSION then Failure(UnsupportedProtocol)
      else Success(SomeIpMessage(id / 0x1_0000 % 0x1_0000, id % 0x1_0000, request / 0x1_0000 % 0x1_0000, request % 0x1_0000,
                                 data[13], data[14], data[15], data[16..]))
  }

  /** Copies the three words and the payload into a buffer of the final size, by offset. */
  method EncodeSomeIp(m: SomeIpMessage) returns (r: Result<seq<byte>, FrameError>)
    ensures r == EncodeFrame(m)
  {
    if |m.payload| > MAX_PAYLOAD {
      return Failure(PayloadTooLarge);
    }
    var bytes := new byte[16 + |m.payload|];
    var messageId, length, requestId := Pair(m.serviceId, m.methodId), |m.payload| + 8, Pair(m.clientId, m.sessionId);
    CopyWords(bytes, messageId, length, requestId);
    ghost var words := bytes[..12];
    bytes[12] := 0x01;
    bytes[13] := m.interfaceVersion;
    bytes[14] := m.messageType;
    bytes[15] := m.returnCode;
    assert bytes[..12] == words;
    if |m.payload| > 0 {
      CopyInto(bytes, 16, m.payload);
    }
    Assembled(bytes[..], words, [0x01, m.interfaceVersion, m.messageType, m.returnCode], m.payload);
    return Success(bytes[..]);
  }

  /** The three words of the header, most significant byte first. */
  method CopyWords(bytes: array<byte>, messageId: u32, length: nat, requestId: u32)
    requires bytes.Length >= 12
    modifies bytes
    ensures bytes[..12] == BE(4, messageId) + BE(4, length) + BE(4, requestId)
  {
    CopyInto(bytes, 0, BE(4, messageId));
    CopyInto(bytes, 4, BE(4, length));
    assert bytes[..8] == BE(4, messageId) + BE(4, length);
    CopyInto(bytes, 8, BE(4, requestId));
    assert bytes[..12] == bytes[..8] + bytes[8..12];
  }

  lemma Assembled(whole: seq<byte>, words: seq<byte>, rest: seq<byte>, payload: seq<byte>)
    requires |whole| == 16 + |payload| && |words| == 12 && |rest| == 4
    requires whole[..12] == words && whole[16..] == payload
    requires whole[12] == rest[0] && whole[13] == rest[1] && whole[14] == rest[2] && whole[15] == rest[3]
    ensures whole == words + rest + payload
  {
  }

  method DecodeSomeIp(data: seq<byte>) returns (r: Result<SomeIpMessage, FrameError>)
    ensures r == DecodeFrame(data)
  {
    if |data| < 16 {
      return Failure(TooShort);
    }
    var messageId, length, requestId := FromBE(data[0..4]), FromBE(data[4..8]), FromBE(data[8..12]);
    if length < 8 {
      return Failure(InvalidLength);
    }
    var payloadLength := length - 8;
    if |data| != 16 + payloadLength {
      return Failure(LengthMismatch);
    }
    var serviceId, methodId := messageId / 0x1_0000 % 0x1_0000, messageId % 0x1_0000;
    var clientId, sessionId := requestId / 0x1_0000 % 0x1_0000, requestId % 0x1_0000;
    if data[12] != 0x01 {
      return Failure(UnsupportedProtocol);
    }
    assert data[16..16 + payloadLength] == data[16..];
    return Success(SomeIpMessage(serviceId, methodId, clientId, sessionId, data[13], data[14], data[15], data[16..16 + payloadLength]));
  }

  /** Decoding is exactly the inverse of encoding: a frame decodes to a message if and only if the message
      encodes to that frame. So nothing is lost either way, and there is one frame per message. */
  lemma DecodeInvertsEncode(data: seq<byte>, m: SomeIpMessage)
    ensures DecodeFrame(data) == Success(m) <==> EncodeFrame(m) == Success(data)
  {
    if EncodeFrame(m) == Success(data) {
      EncodedDecodes(m);
    }
    if DecodeFrame(data) == Success(m) {
      DecodedEncodes(data);
    }
  }

  lemma EncodedDecodes(m: SomeIpMessage)
    requires |m.payload| <= MAX_PAYLOAD
    ensures DecodeFrame(FrameBytes(m)) == Success(m)
  {
    var id, request := Pair(m.serviceId, m.methodId), Pair(m.clientId, m.sessionId);
    SdWireTheorems.HeaderParts(id, 8 + |m.payload|, request, SdWire.PROTOCOL_VERSION,
                               m.interfaceVersion, m.messageType, m.returnCode, m.payload);
    SdWireTheorems.Read32(id);
    SdWireTheorems.Read32(8 + |m.payload|);
    SdWireTheorems.Read32(request);
    DecodeFrom(FrameBytes(m), m);
  }

  lemma DecodeFrom(data: seq<byte>, m: SomeIpMessage)
    requires |data| == 16 + |m.payload|
    requires FromBE(data[0..4]) == Pair(m.serviceId, m.methodId) && FromBE(data[4..8]) == 8 + |m.payload|
    requires FromBE(data[8..12]) == Pair(m.clientId, m.sessionId)
    requires data[12] == SdWire.PROTOCOL_VERSION && data[13] == m.interfaceVersion && data[14] == m.messageType && data[15] == m.returnCode
    requires data[16..] == m.payload
    ensures DecodeFrame(data) == Success(m)
  {
    PairSplit(m.serviceId, m.methodId);
    PairSplit(m.clientId, m.sessionId);
  }

  lemma PairSplit(hi: u16, lo: u16)
    ensures Pair(hi, lo) / 0x1_0000 % 0x1_0000 == hi && Pair(hi, lo) % 0x1_0000 == lo
  {
  }

  lemma DecodedEncodes(data: seq<byte>)
    requires DecodeFrame(data).Success?
    ensures EncodeFrame(DecodeFrame(data).value) == Success(data)
  {
    var m := DecodeFrame(data).value;
    SdWireTheorems.Read32Bound(data[0..4]);
    SdWireTheorems.Read32Bound(data[4..8]);
    SdWireTheorems.Read32Bound(data[8..12]);
    Rejoined(FromBE(data[0..4]));
    Rejoined(FromBE(data[8..12]));
    HeaderSplit(data);
  }

  lemma Rejoined(word: u32)
    ensures Pair(word / 0x1_0000 % 0x1_0000, word % 0x1_0000) == word
  {
  }

  lemma HeaderSplit(data: seq<byte>)
    requires |data| >= 16
    ensures data == data[0..4] + data[4..8] + data[8..12] + [data[12], data[13], data[14], data[15]] + data[16..]
  {
  }

  /** The service discovery packets are the SOME/IP frames with the fixed SD identity and interface version,
      and both codecs read them alike. */
  lemma SdPacketsAreFrames(data: seq<byte>)
    ensures SdWire.Decode(data).Success? <==>
            DecodeFrame(data).Success? && var m := DecodeFrame(data).value;
            m.serviceId == SdWire.SD_SERVICE_ID && m.methodId == SdWire.SD_METHOD_ID && m.interfaceVersion == SdWire.INTERFACE_VERSION
    ensures SdWire.Decode(data).Success? ==>
            var m := DecodeFrame(data).value;
            SdWire.Decode(data).value == SdWire.SdPacket(m.messageType, m.sessionId, m.payload)
  {
    if |data| >= 16 {
      SdWireTheorems.Read32Bound(data[0..4]);
      Halves(FromBE(data[0..4]));
    }
  }

  lemma Halves(id: u32)
    ensures id == SdWire.SD_MESSAGE_ID <==> id / 0x1_0000 % 0x1_0000 == SdWire.SD_SERVICE_ID && id % 0x1_0000 == SdWire.SD_METHOD_ID
  {
  }

  // ---- byte by byte

  /** A frame by its bytes: the four ids, the length of what follows it, protocol version 1, the four bytes of
      the message, the payload. */
  function FrameOf(m: SomeIpMessage): seq<byte> {
    Word16Bytes(m.serviceId) + Word16Bytes(m.methodId) + Word32Bytes(8 + |m.payload|)
    + Word16Bytes(m.clientId) + Word16Bytes(m.sessionId) + [1, m.interfaceVersion, m.messageType, m.returnCode] + m.payload
  }

  lemma PairWritten(hi: u16, lo: u16)
    ensures BE(4, Pair(hi, lo)) == Word16Bytes(hi) + Word16Bytes(lo)
  {
    BE4(Pair(hi, lo));
    DivModUnique(Pair(hi, lo), 0x1_0000, hi, lo);
    DivModUnique(Pair(hi, lo), 0x100_0000, hi / 0x100, hi % 0x100 * 0x1_0000 + lo);
    DivModUnique(Pair(hi, lo), 0x100, hi * 0x100 + lo / 0x100, lo % 0x100);
    DivModUnique(hi * 0x100 + lo / 0x100, 0x100, hi, lo / 0x100);
  }

  /** Encoding gives exactly those bytes, for every payload whose length fits the length field. */
  lemma FrameByBytes(m: SomeIpMessage)
    ensures EncodeFrame(m) == if |m.payload| <= 0xFFFF_FFF7 then Success(FrameOf(m)) else Failure(PayloadTooLarge)
  {
    PairWritten(m.serviceId, m.methodId);
    PairWritten(m.clientId, m.sessionId);
    BE4(8 + |m.payload|);
    Flat(Word16Bytes(m.serviceId), Word16Bytes(m.methodId), Word32Bytes(8 + |m.payload|), Word16Bytes(m.clientId), Word16Bytes(m.sessionId));
  }

  lemma Flat(a: seq<byte>, b: seq<byte>, c: seq<byte>, d: seq<byte>, e: seq<byte>)
    ensures a + b + c + (d + e) == a + b + c + d + e
  {
  }

  /** What is wrong with bytes that are no frame: the first of the four checks that fails. */
  function FrameFault(x: seq<byte>): Option<FrameError> {
    if |x| < 16 then Some(TooShort)
    else if U32At(x, 4) < 8 then Some(InvalidLength)
    else if |x| != 8 + U32At(x, 4) then Some(LengthMismatch)
    else if x[12] != 1 then Some(UnsupportedProtocol)
    else None
  }

  lemma FaultByBytes(x: seq<byte>)
    ensures DecodeFrame(x).Failure? <==> FrameFault(x).Some?
    ensures DecodeFrame(x).Failure? ==> FrameFault(x) == Some(DecodeFrame(x).error)
  {
    if |x| >= 16 {
      WordAt(x, 4);
    }
  }
}
