/** The functions of protocol.cpp: writers that push onto vectors, readers that advance a position, and
    the cursor loops of the block parser, each proved against the wire format. */
module SdCodec {
  import opened Bytes
  import opened ByteStreams
  import opened SdWire

  // ---- words

  method WriteU16(out: ByteVector, v: u16)
    modifies out
    ensures out.data == old(out.data) + BE(2, v)
  {
    out.PushBack(v / 0x100 % 0x100);
    out.PushBack(v % 0x100);
    assert BE(2, v) == BE(1, v / 256) + [v % 256] && BE(1, v / 256) == [v / 256 % 256];
  }

  method WriteU24(out: ByteVector, v: u32)
    modifies out
    ensures out.data == old(out.data) + BE(3, v)
  {
    out.PushBack(v / 0x1_0000 % 0x100);
    out.PushBack(v / 0x100 % 0x100);
    out.PushBack(v % 0x100);
    assert v / 0x100 / 0x100 == v / 0x1_0000;
    assert BE(3, v) == BE(2, v / 256) + [v % 256] && BE(2, v / 256) == BE(1, v / 256 / 256) + [v / 256 % 256];
  }

  method WriteU32(out: ByteVector, v: u32)
    modifies out
    ensures out.data == old(out.data) + BE(4, v)
  {
    out.PushBack(v / 0x100_0000 % 0x100);
    WriteU24(out, v);
    assert v / 0x100 / 0x100 / 0x100 == v / 0x100_0000;
    BE4(v);
  }

  lemma BE4(v: nat)
    ensures BE(4, v) == [v / 256 / 256 / 256 % 256] + BE(3, v)
  {
    var a, b, c := v / 256, v / 256 / 256, v / 256 / 256 / 256;
    assert BE(1, c) == [c % 256] && BE(2, b) == [c % 256] + [b % 256] && BE(1, b) == [b % 256];
    assert BE(3, a) == [c % 256] + [b % 256] + [a % 256] && BE(2, a) == [b % 256] + [a % 256];
    assert BE(4, v) == BE(3, a) + [v % 256] && BE(3, v) == BE(2, a) + [v % 256];
  }

  method ReadU16(input: seq<byte>, pos: nat) returns (ok: bool, v: u16, next: nat)
    ensures ok <==> pos + 2 <= |input|
    ensures if ok then next == pos + 2 && v == FromBE(input[pos..pos + 2]) else next == pos
  {
    if pos + 2 > |input| {
      return false, 0, pos;
    }
    FromTwo(input[pos], input[pos + 1]);
    assert input[pos..pos + 2] == [input[pos], input[pos + 1]];
    return true, Word16(input[pos], input[pos + 1]), pos + 2;
  }

  lemma FromTwo(a: byte, b: byte)
    ensures FromBE([a, b]) == Word16(a, b)
  {
    assert [a, b][..1] == [a] && [a][..0] == [];
    assert FromBE([a]) == a;
  }

  method ReadU32(input: seq<byte>, pos: nat) returns (ok: bool, v: u32, next: nat)
    ensures ok <==> pos + 4 <= |input|
    ensures if ok then next == pos + 4 && v == FromBE(input[pos..pos + 4]) else next == pos
  {
    if pos + 4 > |input| {
      return false, 0, pos;
    }
    var a, b, c, d := input[pos] as int, input[pos + 1] as int, input[pos + 2] as int, input[pos + 3] as int;
    FromFour(input[pos..pos + 4]);
    return true, a * 0x100_0000 + b * 0x1_0000 + c * 0x100 + d, pos + 4;
  }

  lemma FromFour(s: seq<byte>)
    requires |s| == 4
    ensures FromBE(s) == (s[0] as int) * 0x100_0000 + (s[1] as int) * 0x1_0000 + (s[2] as int) * 0x100 + s[3]
  {
    FromTwo(s[0], s[1]);
    assert s[..3][..2] == [s[0], s[1]];
    assert FromBE(s[..3]) == FromBE([s[0], s[1]]) * 256 + s[2];
  }

  // ---- options and entries

  method BuildIpv4EndpointOption(svc: ServiceDescriptor) returns (option: seq<byte>)
    ensures option == OptionBytes(svc)
  {
    var out := new ByteVector();
    WriteU16(out, 9);
    out.PushBack(OPTION_IPV4_ENDPOINT);
    out.PushBack(0x00);
    out.PushBack(0x00);
    assert out.data == BE(2, 9) + [OPTION_IPV4_ENDPOINT, 0, 0];
    ghost var head := out.data;
    var ip := if svc.host.Octets? then svc.host else LOOPBACK;
    out.PushBack(ip.a);
    out.PushBack(ip.b);
    out.PushBack(ip.c);
    out.PushBack(ip.d);
    assert out.data == head + HostBytes(svc.host);
    out.PushBack(0x00);
    out.PushBack(L4_UDP);
    WriteU16(out, svc.port);
    return out.data;
  }

  method BuildServiceEntry(kind: byte, index1: byte, index2: byte, count1: byte, count2: byte,
                           svc: ServiceDescriptor, ttl: u32, minor: u32) returns (entry: seq<byte>)
    ensures entry == EntryBytes(kind, index1, index2, count1 % 16 * 16 + count2 % 16, svc, ttl, minor)
  {
    var out := new ByteVector();
    out.PushBack(kind);
    out.PushBack(index1);
    out.PushBack(index2);
    out.PushBack(count1 % 16 * 16 + count2 % 16);
    WriteU16(out, svc.serviceId);
    WriteU16(out, svc.instanceId);
    out.PushBack(svc.majorVersion);
    WriteU24(out, if ttl < MAX_TTL then ttl else MAX_TTL);
    WriteU32(out, minor);
    return out.data;
  }

  method ParseEndpointOption(option: seq<byte>) returns (ok: bool, host: Host, port: u16)
    ensures ok == ParseOption(option).Some?
    ensures ok ==> ParseOption(option) == Some(Endpoint(host, port))
  {
    if |option| != 13 || option[2] != OPTION_IPV4_ENDPOINT || option[10] != L4_UDP {
      return false, LOOPBACK, 0;
    }
    host := Octets(option[5], option[6], option[7], option[8]);
    return true, host, Word16(option[11], option[12]);
  }

  // ---- payloads

  method StartPayload() returns (out: ByteVector)
    ensures fresh(out) && out.data == NO_FLAGS
  {
    out := new ByteVector();
    out.PushBack(0x00);
    out.PushBack(0x00);
    out.PushBack(0x00);
    out.PushBack(0x00);
  }

  /** BE keeps the low bytes of a wider number. */
  lemma BEOfMod(v: nat)
    ensures BE(4, v % 0x1_0000_0000) == BE(4, v)
  {
    Pow256Values();
    FromBEOfBE(4, v);
    BEOfFromBE(BE(4, v));
  }

  /** Flags, then both blocks behind their lengths; a length field keeps the low 32 bits of the size. */
  method WritePayload(entries: seq<byte>, options: seq<byte>) returns (payload: seq<byte>)
    ensures payload == PrintBlocks(NO_FLAGS, entries, options)
  {
    var out := StartPayload();
    BEOfMod(|entries|);
    BEOfMod(|options|);
    WriteU32(out, |entries| % 0x1_0000_0000);
    out.Insert(entries);
    WriteU32(out, |options| % 0x1_0000_0000);
    out.Insert(options);
    return out.data;
  }

  method BuildFindEntry(svc: ServiceDescriptor) returns (entry: seq<byte>)
    ensures entry == FindEntry(svc, ANY_MINOR)
  {
    entry := BuildServiceEntry(ENTRY_FIND, 0, 0, 0, 0, svc, 0, ANY_MINOR);
  }

  method BuildSdFindPayload(serviceId: u16, instanceId: Option<u16>) returns (payload: seq<byte>)
    ensures payload == FindPayload(serviceId, instanceId)
  {
    var svc := FindDescriptor(serviceId, instanceId);
    var entry := BuildFindEntry(svc);
    payload := WritePayload(entry, []);
  }

  /** An offer entry with one option, the one at the index. */
  method BuildOfferEntry(index: byte, svc: ServiceDescriptor, ttl: u32) returns (entry: seq<byte>)
    ensures entry == EntryBytes(ENTRY_OFFER, index, 0, 0x10, svc, ttl, svc.minorVersion)
  {
    entry := BuildServiceEntry(ENTRY_OFFER, index, 0, 1, 0, svc, ttl, svc.minorVersion);
  }

  method BuildSdOfferPayload(svc: ServiceDescriptor, ttl: u32, stop: bool) returns (payload: seq<byte>)
    ensures payload == OfferPayload(svc, ttl, stop)
  {
    var option := BuildIpv4EndpointOption(svc);
    var entry := BuildOfferEntry(0, svc, if stop then 0 else ttl);
    payload := WritePayload(entry, option);
  }

  lemma {:induction false} FlattenSnoc(parts: seq<seq<byte>>, x: seq<byte>)
    ensures Flatten(parts + [x]) == Flatten(parts) + x
    decreases |parts|
  {
    if parts == [] {
      assert ([] + [x])[1..] == [];
      assert x + [] == [] + x;
    } else {
      FlattenSnoc(parts[1..], x);
      assert (parts + [x])[1..] == parts[1..] + [x];
      assert parts[0] + (Flatten(parts[1..]) + x) == parts[0] + Flatten(parts[1..]) + x;
    }
  }

  lemma FlattenTake(parts: seq<seq<byte>>, i: nat)
    requires i < |parts|
    ensures Flatten(parts[..i + 1]) == Flatten(parts[..i]) + parts[i]
  {
    FlattenSnoc(parts[..i], parts[i]);
    assert parts[..i + 1] == parts[..i] + [parts[i]];
  }

  /** The loop that fills the entries blob. */
  method ListEntriesBlob(services: seq<ServiceDescriptor>, ttl: u32) returns (blob: seq<byte>)
    ensures blob == Flatten(ListEntries(services, ttl))
  {
    var entries := new ByteVector();
    ghost var es := ListEntries(services, ttl);
    for i := 0 to |services|
      invariant entries.data == Flatten(es[..i])
    {
      var entry := BuildOfferEntry(i % 0x100, services[i], ttl);
      entries.Insert(entry);
      FlattenTake(es, i);
    }
    assert es[..|es|] == es;
    return entries.data;
  }

  /** The loops that build the options and join them. */
  method ListOptionsBlob(services: seq<ServiceDescriptor>) returns (blob: seq<byte>)
    ensures blob == Flatten(ListOptions(services))
  {
    var options := new ByteVector();
    ghost var os := ListOptions(services);
    for i := 0 to |services|
      invariant options.data == Flatten(os[..i])
    {
      var option := BuildIpv4EndpointOption(services[i]);
      options.Insert(option);
      FlattenTake(os, i);
    }
    assert os[..|os|] == os;
    return options.data;
  }

  method BuildSdOfferPayloadList(services: seq<ServiceDescriptor>, ttl: u32) returns (payload: seq<byte>)
    ensures payload == OfferListPayload(services, ttl)
  {
    var entries := ListEntriesBlob(services, ttl);
    var options := ListOptionsBlob(services);
    payload := WritePayload(entries, options);
  }

  /** Blocks already taken, then those still to come. */
  function Join(taken: seq<seq<byte>>, rest: Option<seq<seq<byte>>>): Option<seq<seq<byte>>> {
    if rest.Some? then Some(taken + rest.value) else None
  }

  lemma JoinStep(taken: seq<seq<byte>>, x: seq<byte>, rest: Option<seq<seq<byte>>>)
    ensures Join(taken, Prepend(x, rest)) == Join(taken + [x], rest)
  {
    if rest.Some? {
      assert taken + ([x] + rest.value) == taken + [x] + rest.value;
    }
  }

  /** The entry loop: whole entries between two positions. */
  method TakeEntries(payload: seq<byte>, start: nat, end: nat) returns (ok: bool, entries: seq<seq<byte>>)
    requires start <= end <= |payload|
    ensures SplitEntries(payload[start..end]) == if ok then Some(entries) else None
  {
    entries := [];
    var pos := start;
    assert Join([], SplitEntries(payload[start..end])) == SplitEntries(payload[start..end]) by {
      var r := SplitEntries(payload[start..end]);
      assert r.Some? ==> [] + r.value == r.value;
    }
    while pos < end
      invariant start <= pos <= end
      invariant SplitEntries(payload[start..end]) == Join(entries, SplitEntries(payload[pos..end]))
    {
      if pos + 16 > end {
        return false, entries;
      }
      ghost var rest := payload[pos..end];
      assert rest[..16] == payload[pos..pos + 16] && rest[16..] == payload[pos + 16..end];
      JoinStep(entries, payload[pos..pos + 16], SplitEntries(payload[pos + 16..end]));
      entries := entries + [payload[pos..pos + 16]];
      pos := pos + 16;
    }
    assert entries + [] == entries;
    return true, entries;
  }

  /** One option, as long as it says, if the payload reaches that far. */
  method TakeOption(payload: seq<byte>, at: nat, end: nat) returns (ok: bool, option: seq<byte>, next: nat)
    requires at < end == |payload|
    ensures ok ==> at < next <= end && SplitOptions(payload[at..]) == Prepend(option, SplitOptions(payload[next..]))
    ensures !ok ==> SplitOptions(payload[at..]) == None
  {
    ghost var rest := payload[at..];
    var more, length, pos := ReadU16(payload, at);
    if !more {
      return false, [], at;
    }
    assert rest[..2] == payload[at..at + 2];
    if pos + 2 + length > end {
      return false, [], at;
    }
    var fullLen: nat := 2 + 2 + length as int;
    option := payload[pos - 2..pos - 2 + fullLen];
    next := pos + 2 + length;
    assert rest[..4 + length] == option && rest[4 + length..] == payload[next..];
    return true, option, next;
  }

  /** The option loop: self-delimiting options up to the end of the payload. */
  method TakeOptions(payload: seq<byte>, start: nat) returns (ok: bool, options: seq<seq<byte>>)
    requires start <= |payload|
    ensures SplitOptions(payload[start..]) == if ok then Some(options) else None
  {
    options := [];
    var pos, end := start, |payload|;
    assert Join([], SplitOptions(payload[start..])) == SplitOptions(payload[start..]) by {
      var r := SplitOptions(payload[start..]);
      assert r.Some? ==> [] + r.value == r.value;
    }
    while pos < end
      invariant start <= pos <= end
      invariant SplitOptions(payload[start..]) == Join(options, SplitOptions(payload[pos..]))
    {
      var more, option, next := TakeOption(payload, pos, end);
      if !more {
        return false, options;
      }
      JoinStep(options, option, SplitOptions(payload[next..]));
      options := options + [option];
      pos := next;
    }
    assert options + [] == options;
    return true, options;
  }

  method ParseSdBlocks(payload: seq<byte>) returns (ok: bool, entries: seq<seq<byte>>, options: seq<seq<byte>>)
    ensures ParseBlocks(payload) == if ok then Some(Blocks(entries, options)) else None
  {
    entries, options := [], [];
    if |payload| < 12 {
      return false, [], [];
    }
    var pos := 4;
    var entriesLen, optionsLen;
    ok, entriesLen, pos := ReadU32(payload, pos);
    if !ok || pos + entriesLen > |payload| {
      return false, [], [];
    }
    var end := pos + entriesLen;
    ok, entries := TakeEntries(payload, pos, end);
    if !ok {
      return;
    }
    ok, optionsLen, pos := ReadU32(payload, end);
    if !ok || pos + optionsLen != |payload| {
      return false, entries, [];
    }
    ok, options := TakeOptions(payload, pos);
  }

  method ParseSdFindPayload(payload: seq<byte>) returns (query: Option<Query>)
    ensures query == ParseFind(payload)
  {
    var ok, entries, options := ParseSdBlocks(payload);
    if !ok || entries == [] {
      return None;
    }
    var e := entries[0];
    if e[0] != ENTRY_FIND {
      return None;
    }
    var instance := Word16(e[6], e[7]);
    return Some(Query(Word16(e[4], e[5]), if instance == 0xFFFF then None else Some(instance)));
  }

  /** The fields of an entry, with the endpoint of its first option when that can be read. */
  method ReadDescriptor(e: seq<byte>, options: seq<seq<byte>>) returns (svc: ServiceDescriptor)
    requires |e| == 16
    ensures svc == EntryDescriptor(e, options)
  {
    svc := DefaultDescriptor(Word16(e[4], e[5]), Word16(e[6], e[7]));
    svc := svc.(majorVersion := e[8], minorVersion := e[15]);
    var index, count := e[1], e[3] / 16;
    if count > 0 && index < |options| {
      var ok, host, port := ParseEndpointOption(options[index]);
      if ok {
        svc := svc.(host := host, port := port, transport := "udp");
      }
    }
  }

  lemma {:induction false} OffersInSnoc(es: seq<seq<byte>>, e: seq<byte>, options: seq<seq<byte>>)
    requires |e| == 16 && forall i :: 0 <= i < |es| ==> |es[i]| == 16
    ensures forall i :: 0 <= i < |es + [e]| ==> |(es + [e])[i]| == 16
    ensures OffersIn(es + [e], options) ==
            OffersIn(es, options) + if e[0] == ENTRY_OFFER then [EntryDescriptor(e, options)] else []
    decreases |es|
  {
    if es == [] {
      assert ([] + [e])[1..] == [];
    } else {
      OffersInSnoc(es[1..], e, options);
      assert (es + [e])[1..] == es[1..] + [e];
    }
  }

  method ParseSdOffers(payload: seq<byte>) returns (ok: bool, services: seq<ServiceDescriptor>)
    ensures ParseOffers(payload) == if ok then Some(services) else None
  {
    services := [];
    var entries, options;
    ok, entries, options := ParseSdBlocks(payload);
    if !ok {
      return;
    }
    for i := 0 to |entries|
      invariant services == OffersIn(entries[..i], options)
    {
      var e := entries[i];
      OffersInSnoc(entries[..i], e, options);
      assert entries[..i + 1] == entries[..i] + [e];
      if e[0] != ENTRY_OFFER {
        continue;
      }
      var svc := ReadDescriptor(e, options);
      services := services + [svc];
    }
    assert entries[..|entries|] == entries;
  }

  method ParseSdOfferFirst(payload: seq<byte>) returns (offer: Option<Offer>)
    ensures offer == ParseOffer(payload)
  {
    var ok, entries, options := ParseSdBlocks(payload);
    if !ok || entries == [] {
      return None;
    }
    var e := entries[0];
    if e[0] != ENTRY_OFFER {
      return None;
    }
    var svc := ReadDescriptor(e, options);
    return Some(Offer(svc, (e[9] as int) * 0x1_0000 + (e[10] as int) * 0x100 + e[11]));
  }

  // ---- packets

  /** The header struct, in network byte order. */
  method BuildHeader(p: SdPacket) returns (header: seq<byte>)
    ensures header == HeaderBytes(SD_MESSAGE_ID, 8 + |p.payload|, CLIENT_ID * 0x1_0000 + p.requestId % 0x1_0000,
                                  PROTOCOL_VERSION, INTERFACE_VERSION, p.messageType,
                                  if p.messageType == ERROR then RETURN_MALFORMED else RETURN_OK)
  {
    var n := |p.payload|;
    BEOfMod(8 + n);
    var out := new ByteVector();
    WriteU32(out, SD_MESSAGE_ID);
    WriteU32(out, (8 + n) % 0x1_0000_0000);
    WriteU32(out, CLIENT_ID * 0x1_0000 + p.requestId % 0x1_0000);
    out.PushBack(PROTOCOL_VERSION);
    out.PushBack(INTERFACE_VERSION);
    out.PushBack(p.messageType);
    out.PushBack(if p.messageType == ERROR then RETURN_MALFORMED else RETURN_OK);
    return out.data;
  }

  method EncodePacket(p: SdPacket) returns (bytes: seq<byte>)
    ensures bytes == Encode(p)
  {
    var n := |p.payload|;
    var header := BuildHeader(p);
    var buffer := new byte[16 + n];
    CopyInto(buffer, 0, header);
    CopyInto(buffer, 16, p.payload);
    assert buffer[..16] == header && buffer[16..] == p.payload;
    assert buffer[..] == buffer[..16] + buffer[16..];
    return buffer[..];
  }

  method DecodePacket(data: seq<byte>) returns (r: Result<SdPacket, DecodeError>)
    ensures r == Decode(data)
  {
    if |data| < 16 {
      return Failure(TooShort);
    }
    var _, messageId, _ := ReadU32(data, 0);
    if messageId != SD_MESSAGE_ID {
      return Failure(UnexpectedMessageId);
    }
    if data[12] != PROTOCOL_VERSION {
      return Failure(UnsupportedProtocol);
    }
    if data[13] != INTERFACE_VERSION {
      return Failure(UnsupportedInterface);
    }
    var _, length, _ := ReadU32(data, 4);
    if length < 8 {
      return Failure(InvalidLength);
    }
    var payloadLen: nat := length - 8;
    if 16 + payloadLen != |data| {
      return Failure(LengthMismatch);
    }
    var _, requestId, _ := ReadU32(data, 8);
    assert data[16..16 + payloadLen] == data[16..];
    return Success(SdPacket(data[14], requestId % 0x1_0000, data[16..16 + payloadLen]));
  }
}
