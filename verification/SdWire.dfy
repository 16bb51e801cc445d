/** The SOME/IP-SD wire format: what each payload, block and packet is, byte for byte. The layout is the
    one of services/someip_sd_cpp, whose endpoint option has one reserved byte more than the standard's. */
module SdWire {
  import opened Bytes

  const SD_SERVICE_ID: u16 := 0xFFFF
  const SD_METHOD_ID: u16 := 0x8100
  const CLIENT_ID: u16 := 0x0001
  const PROTOCOL_VERSION: byte := 1
  const INTERFACE_VERSION: byte := 1
  const RETURN_OK: byte := 0x00
  const RETURN_MALFORMED: byte := 0x09
  const ENTRY_FIND: byte := 0x00
  const ENTRY_OFFER: byte := 0x01
  const OPTION_IPV4_ENDPOINT: byte := 0x04
  const L4_UDP: byte := 0x11
  const MAX_TTL: u24 := 0xFF_FFFF

  /** Message types that the source names. A received packet may hold any other byte. */
  const REQUEST: byte := 0x00
  const RESPONSE: byte := 0x80
  const ERROR: byte := 0x81

  datatype SdPacket = SdPacket(messageType: byte, requestId: u32, payload: seq<byte>)

  /** A dotted quad, or any text that is not one. */
  datatype Host = Octets(a: byte, b: byte, c: byte, d: byte) | Text(s: string)

  const LOOPBACK: Host := Octets(127, 0, 0, 1)

  datatype ServiceDescriptor = ServiceDescriptor(
    serviceId: u16, instanceId: u16, majorVersion: byte, minorVersion: byte,
    host: Host, port: u16, transport: string)

  /** A default-constructed descriptor with the given identity. */
  function DefaultDescriptor(serviceId: u16, instanceId: u16): ServiceDescriptor {
    ServiceDescriptor(serviceId, instanceId, 1, 0, LOOPBACK, 0, "udp")
  }

  /** What survives a trip over the wire. */
  function Normalise(d: ServiceDescriptor): (r: ServiceDescriptor)
    ensures r.serviceId == d.serviceId && r.instanceId == d.instanceId && r.port == d.port
    ensures r.majorVersion == d.majorVersion && r.minorVersion == d.minorVersion
    ensures r.host == (if d.host.Octets? then d.host else LOOPBACK) && r.transport == "udp"
  {
    d.(host := if d.host.Octets? then d.host else LOOPBACK, transport := "udp")
  }

  function ClampTtl(ttl: u32): u24 {
    if ttl < MAX_TTL then ttl else MAX_TTL
  }

  // ---- building blocks

  function HostBytes(h: Host): (s: seq<byte>)
    ensures |s| == 4
  {
    match h
    case Octets(a, b, c, d) => [a, b, c, d]
    case Text(_) => [127, 0, 0, 1]
  }

  function OptionBytes(d: ServiceDescriptor): (s: seq<byte>)
    ensures |s| == 13
  {
    BE(2, 9) + [OPTION_IPV4_ENDPOINT, 0, 0] + HostBytes(d.host) + [0, L4_UDP] + BE(2, d.port)
  }

  /** One entry; `counts` packs the numbers of options in two nibbles. */
  function EntryBytes(kind: byte, index1: byte, index2: byte, counts: byte, d: ServiceDescriptor, ttl: u32, minor: u32): (s: seq<byte>)
    ensures |s| == 16
  {
    [kind, index1, index2, counts] + BE(2, d.serviceId) + BE(2, d.instanceId) + [d.majorVersion]
    + BE(3, ClampTtl(ttl)) + BE(4, minor)
  }

  function Flatten(parts: seq<seq<byte>>): seq<byte> {
    if parts == [] then [] else parts[0] + Flatten(parts[1..])
  }

  const NO_FLAGS: seq<byte> := [0, 0, 0, 0]

  /** A payload: flags, entries with their total length, options with theirs. Lengths are 32 bits wide. */
  function PrintBlocks(flags: seq<byte>, entries: seq<byte>, options: seq<byte>): (s: seq<byte>)
    ensures |s| == |flags| + 8 + |entries| + |options|
  {
    flags + BE(4, |entries|) + entries + BE(4, |options|) + options
  }

  /** Any major and minor version; instance 0xFFFF stands for any. */
  function FindDescriptor(serviceId: u16, instanceId: Option<u16>): ServiceDescriptor {
    DefaultDescriptor(serviceId, if instanceId.Some? then instanceId.value else 0xFFFF).(majorVersion := 0xFF)
  }

  const ANY_MINOR: u32 := 0xFFFF_FFFF

  function FindEntry(d: ServiceDescriptor, minor: u32): (s: seq<byte>)
    ensures |s| == 16
  {
    EntryBytes(ENTRY_FIND, 0, 0, 0, d, 0, minor)
  }

  function FindPayload(serviceId: u16, instanceId: Option<u16>): (s: seq<byte>)
    ensures |s| == 28
  {
    PrintBlocks(NO_FLAGS, FindEntry(FindDescriptor(serviceId, instanceId), ANY_MINOR), [])
  }

  function OfferPayload(d: ServiceDescriptor, ttl: u32, stop: bool): (s: seq<byte>)
    ensures |s| == 41
  {
    PrintBlocks(NO_FLAGS, EntryBytes(ENTRY_OFFER, 0, 0, 0x10, d, if stop then 0 else ttl, d.minorVersion), OptionBytes(d))
  }

  /** Entry i refers to option i, through an 8-bit index. */
  function ListEntries(services: seq<ServiceDescriptor>, ttl: u32): (es: seq<seq<byte>>)
    ensures |es| == |services|
    ensures forall i :: 0 <= i < |es| ==>
      es[i] == EntryBytes(ENTRY_OFFER, i % 256, 0, 0x10, services[i], ttl, services[i].minorVersion)
  {
    seq(|services|, i requires 0 <= i < |services| =>
      EntryBytes(ENTRY_OFFER, i % 256, 0, 0x10, services[i], ttl, services[i].minorVersion))
  }

  function ListOptions(services: seq<ServiceDescriptor>): (os: seq<seq<byte>>)
    ensures |os| == |services|
    ensures forall i :: 0 <= i < |os| ==> os[i] == OptionBytes(services[i])
  {
    seq(|services|, i requires 0 <= i < |services| => OptionBytes(services[i]))
  }

  function OfferListPayload(services: seq<ServiceDescriptor>, ttl: u32): seq<byte> {
    PrintBlocks(NO_FLAGS, Flatten(ListEntries(services, ttl)), Flatten(ListOptions(services)))
  }

  // ---- parsing

  datatype Blocks = Blocks(entries: seq<seq<byte>>, options: seq<seq<byte>>)

  function Prepend(x: seq<byte>, rest: Option<seq<seq<byte>>>): Option<seq<seq<byte>>> {
    if rest.Some? then Some([x] + rest.value) else None
  }

  /** Whole 16-byte entries. */
  function SplitEntries(bs: seq<byte>): (r: Option<seq<seq<byte>>>)
    ensures r.Some? ==> forall i :: 0 <= i < |r.value| ==> |r.value[i]| == 16
  {
    if bs == [] then Some([])
    else if |bs| < 16 then None
    else Prepend(bs[..16], SplitEntries(bs[16..]))
  }

  /** Options, each of which says how long it is. */
  function SplitOptions(bs: seq<byte>): Option<seq<seq<byte>>> {
    if bs == [] then Some([])
    else if |bs| < 2 || |bs| < 4 + FromBE(bs[..2]) then None
    else Prepend(bs[..4 + FromBE(bs[..2])], SplitOptions(bs[4 + FromBE(bs[..2])..]))
  }

  function ParseBlocks(payload: seq<byte>): (r: Option<Blocks>)
    ensures r.Some? ==> forall i :: 0 <= i < |r.value.entries| ==> |r.value.entries[i]| == 16
  {
    if |payload| < 12 then None
    else
      var end := 8 + FromBE(payload[4..8]);
      if end > |payload| then None
      else
        var entries := SplitEntries(payload[8..end]);
        if entries.None? || end + 4 > |payload| || end + 4 + FromBE(payload[end..end + 4]) != |payload| then None
        else
          var options := SplitOptions(payload[end + 4..]);
          if options.None? then None else Some(Blocks(entries.value, options.value))
  }

  datatype Endpoint = Endpoint(host: Host, port: u16)

  function Word16(hi: byte, lo: byte): u16 {
    hi * 256 + lo
  }

  function ParseOption(option: seq<byte>): Option<Endpoint> {
    if |option| == 13 && option[2] == OPTION_IPV4_ENDPOINT && option[10] == L4_UDP
    then Some(Endpoint(Octets(option[5], option[6], option[7], option[8]), Word16(option[11], option[12])))
    else None
  }

  /** The endpoint an entry refers to: its first option, if there is one that can be read. */
  function EntryEndpoint(e: seq<byte>, options: seq<seq<byte>>): Endpoint
    requires |e| == 16
  {
    var found := if e[3] / 16 > 0 && e[1] < |options| then ParseOption(options[e[1]]) else None;
    if found.Some? then found.value else Endpoint(LOOPBACK, 0)
  }

  function EntryDescriptor(e: seq<byte>, options: seq<seq<byte>>): ServiceDescriptor
    requires |e| == 16
  {
    var p := EntryEndpoint(e, options);
    ServiceDescriptor(Word16(e[4], e[5]), Word16(e[6], e[7]), e[8], e[15], p.host, p.port, "udp")
  }

  function EntryTtl(e: seq<byte>): u24
    requires |e| == 16
  {
    (e[9] as int) * 0x1_0000 + (e[10] as int) * 0x100 + e[11]
  }

  datatype Query = Query(serviceId: u16, instanceId: Option<u16>)

  function ParseFind(payload: seq<byte>): Option<Query> {
    var b := ParseBlocks(payload);
    if b.None? || b.value.entries == [] || b.value.entries[0][0] != ENTRY_FIND then None
    else
      var e := b.value.entries[0];
      var instance := Word16(e[6], e[7]);
      Some(Query(Word16(e[4], e[5]), if instance == 0xFFFF then None else Some(instance)))
  }

  function OffersIn(entries: seq<seq<byte>>, options: seq<seq<byte>>): seq<ServiceDescriptor>
    requires forall i :: 0 <= i < |entries| ==> |entries[i]| == 16
  {
    if entries == [] then []
    else
      (if entries[0][0] == ENTRY_OFFER then [EntryDescriptor(entries[0], options)] else [])
      + OffersIn(entries[1..], options)
  }

  function ParseOffers(payload: seq<byte>): Option<seq<ServiceDescriptor>> {
    var b := ParseBlocks(payload);
    if b.None? then None else Some(OffersIn(b.value.entries, b.value.options))
  }

  datatype Offer = Offer(descriptor: ServiceDescriptor, ttl: u24)

  function ParseOffer(payload: seq<byte>): Option<Offer> {
    var b := ParseBlocks(payload);
    if b.None? || b.value.entries == [] || b.value.entries[0][0] != ENTRY_OFFER then None
    else Some(Offer(EntryDescriptor(b.value.entries[0], b.value.options), EntryTtl(b.value.entries[0])))
  }

  // ---- packets

  function HeaderBytes(messageId: u32, length: nat, requestId: u32, protocol: byte, interface: byte, messageType: byte, returnCode: byte): (h: seq<byte>)
    ensures |h| == 16
  {
    BE(4, messageId) + BE(4, length) + BE(4, requestId) + [protocol, interface, messageType, returnCode]
  }

  const SD_MESSAGE_ID: u32 := 0xFFFF_8100

  /** The length field is 32 bits wide, the request id keeps its low 16 bits. */
  function Encode(p: SdPacket): (s: seq<byte>)
    ensures |s| == 16 + |p.payload|
  {
    HeaderBytes(SD_MESSAGE_ID, 8 + |p.payload|, CLIENT_ID * 0x1_0000 + p.requestId % 0x1_0000,
                PROTOCOL_VERSION, INTERFACE_VERSION, p.messageType,
                if p.messageType == ERROR then RETURN_MALFORMED else RETURN_OK)
    + p.payload
  }

  datatype DecodeError = TooShort | UnexpectedMessageId | UnsupportedProtocol | UnsupportedInterface | InvalidLength | LengthMismatch

  function Decode(data: seq<byte>): Result<SdPacket, DecodeError> {
    if |data| < 16 then Failure(TooShort)
    else if FromBE(data[0..4]) != SD_MESSAGE_ID then Failure(UnexpectedMessageId)
    else if data[12] != PROTOCOL_VERSION then Failure(UnsupportedProtocol)
    else if data[13] != INTERFACE_VERSION then Failure(UnsupportedInterface)
    else if FromBE(data[4..8]) < 8 then Failure(InvalidLength)
    else if 16 + (FromBE(data[4..8]) - 8) != |data| then Failure(LengthMismatch)
    else Success(SdPacket(data[14], FromBE(data[8..12]) % 0x1_0000, data[16..]))
  }
}
