/** Service discovery datagrams by their bytes: which offset means what, and what the daemon does about each
    datagram. Everything here is said of literal offsets and values, without the parser and the printer;
    the lemmas say that parser, printer and daemon do just that. */
module SdDatagrams {
  import opened Bytes
  import opened SdWire
  import opened SdWireTheorems
  import opened SdRegistry
  import SdDaemon

  // ---- words at offsets, most significant byte first

  function U16At(x: seq<byte>, i: nat): u16
    requires i + 2 <= |x|
  {
    (x[i] as int) * 0x100 + x[i + 1]
  }

  function U24At(x: seq<byte>, i: nat): u24
    requires i + 3 <= |x|
  {
    (x[i] as int) * 0x1_0000 + (x[i + 1] as int) * 0x100 + x[i + 2]
  }

  function U32At(x: seq<byte>, i: nat): u32
    requires i + 4 <= |x|
  {
    (x[i] as int) * 0x100_0000 + (x[i + 1] as int) * 0x1_0000 + (x[i + 2] as int) * 0x100 + x[i + 3]
  }

  function Word16Bytes(v: nat): seq<byte> {
    [v / 0x100 % 0x100, v % 0x100]
  }

  function Word24Bytes(v: nat): seq<byte> {
    [v / 0x1_0000 % 0x100, v / 0x100 % 0x100, v % 0x100]
  }

  function Word32Bytes(v: nat): seq<byte> {
    [v / 0x100_0000 % 0x100, v / 0x1_0000 % 0x100, v / 0x100 % 0x100, v % 0x100]
  }

  // ---- what is received

  /** What is read of a datagram. */
  function Cut(data: seq<byte>): seq<byte> {
    if |data| > 4096 then data[..4096] else data
  }

  /** A SOME/IP frame with the service discovery ids and versions, whose length field is right. */
  predicate SdFrame(x: seq<byte>) {
    && |x| >= 16
    && x[0] == 0xFF && x[1] == 0xFF && x[2] == 0x81 && x[3] == 0x00
    && x[12] == 1 && x[13] == 1
    && U32At(x, 4) >= 8 && |x| == U32At(x, 4) + 8
  }

  /** The first thing that is wrong with what is no such frame. */
  function FirstFault(x: seq<byte>): DecodeError {
    if |x| < 16 then TooShort
    else if !(x[0] == 0xFF && x[1] == 0xFF && x[2] == 0x81 && x[3] == 0x00) then UnexpectedMessageId
    else if x[12] != 1 then UnsupportedProtocol
    else if x[13] != 1 then UnsupportedInterface
    else if U32At(x, 4) < 8 then InvalidLength
    else LengthMismatch
  }

  /** Options one after the other, each with its length in front, up to the end of the frame. */
  predicate Options(x: seq<byte>, p: nat)
    decreases |x| - p
  {
    p == |x| || (p + 4 <= |x| && p + 4 + U16At(x, p) <= |x| && Options(x, p + 4 + U16At(x, p)))
  }

  /** Where the n-th option after position p starts. */
  function OptionAt(x: seq<byte>, p: nat, n: nat): (q: Option<nat>)
    requires Options(x, p)
    ensures q.Some? ==> q.value + 4 <= |x| && q.value + 4 + U16At(x, q.value) <= |x|
    decreases |x| - p
  {
    if p == |x| then None
    else if n == 0 then Some(p)
    else OptionAt(x, p + 4 + U16At(x, p), n - 1)
  }

  /** Flags (ignored), the length of the entries, whole 16-byte entries, the length of the options, options. */
  predicate SdSections(x: seq<byte>) {
    && |x| >= 28
    && U32At(x, 20) % 16 == 0 && 28 + U32At(x, 20) <= |x|
    && |x| == 28 + U32At(x, 20) + U32At(x, 24 + U32At(x, 20))
    && Options(x, 28 + U32At(x, 20))
  }

  /** A UDP endpoint option has 9 bytes of payload, type 4 and protocol 0x11. */
  function EndpointIn(x: seq<byte>, q: nat): Option<Endpoint>
    requires q + 4 <= |x| && q + 4 + U16At(x, q) <= |x|
  {
    if U16At(x, q) == 9 && x[q + 2] == 0x04 && x[q + 10] == 0x11
    then Some(Endpoint(Octets(x[q + 5], x[q + 6], x[q + 7], x[q + 8]), U16At(x, q + 11)))
    else None
  }

  /** The entry at e refers to option e[1] if it has any options. Without an endpoint there, it means the
      loopback address and port 0. */
  function EndpointAt(x: seq<byte>, e: nat): Endpoint
    requires SdSections(x) && e + 16 <= |x|
  {
    var q := if x[e + 3] >= 0x10 then OptionAt(x, 28 + U32At(x, 20), x[e + 1]) else None;
    if q.Some? && EndpointIn(x, q.value).Some? then EndpointIn(x, q.value).value else Endpoint(Octets(127, 0, 0, 1), 0)
  }

  function DescriptorAt(x: seq<byte>, e: nat): ServiceDescriptor
    requires SdSections(x) && e + 16 <= |x|
  {
    var p := EndpointAt(x, e);
    ServiceDescriptor(U16At(x, e + 4), U16At(x, e + 6), x[e + 8], x[e + 15], p.host, p.port, "udp")
  }

  /** The frame has a first entry, of the given type. */
  predicate FirstEntry(x: seq<byte>, kind: byte) {
    SdSections(x) && U32At(x, 20) >= 16 && x[24] == kind
  }

  /** The descriptors of all offer entries from the k-th on, in order. */
  function OffersFrom(x: seq<byte>, k: nat): seq<ServiceDescriptor>
    requires SdSections(x)
    decreases |x| - 16 * k
  {
    if 16 * k + 16 > U32At(x, 20) then []
    else OfferHere(x, 24 + 16 * k) + OffersFrom(x, k + 1)
  }

  function OfferHere(x: seq<byte>, e: nat): seq<ServiceDescriptor>
    requires SdSections(x) && e + 16 <= |x|
  {
    if x[e] == 1 then [DescriptorAt(x, e)] else []
  }

  // ---- what is sent

  function Header(length: nat, session: u16, kind: byte, code: byte): seq<byte> {
    [0xFF, 0xFF, 0x81, 0x00] + Word32Bytes(length) + [0x00, 0x01] + Word16Bytes(session) + [1, 1, kind, code]
  }

  function OfferEntry(index: byte, d: ServiceDescriptor, ttl: u24): (e: seq<byte>)
    ensures |e| == 16
  {
    [1, index, 0, 0x10] + Word16Bytes(d.serviceId) + Word16Bytes(d.instanceId)
    + [d.majorVersion] + Word24Bytes(ttl) + [0, 0, 0, d.minorVersion]
  }

  function EndpointOption(d: ServiceDescriptor): (o: seq<byte>)
    ensures |o| == 13
  {
    [0, 9] + [0x04, 0, 0]
    + (if d.host.Octets? then [d.host.a, d.host.b, d.host.c, d.host.d] else [127, 0, 0, 1])
    + [0, 0x11] + Word16Bytes(d.port)
  }

  /** One offer, 57 bytes in all. */
  function OfferFrame(session: u16, kind: byte, d: ServiceDescriptor, ttl: u24): seq<byte> {
    Header(49, session, kind, 0) + OfferSections(d, ttl)
  }

  function OfferSections(d: ServiceDescriptor, ttl: u24): seq<byte> {
    [0, 0, 0, 0] + [0, 0, 0, 16] + OfferEntry(0, d, ttl) + [0, 0, 0, 13] + EndpointOption(d)
  }

  /** One query, 44 bytes in all: any major and minor version, TTL 0, no options. */
  function FindFrame(session: u16, serviceId: u16, instanceId: u16): seq<byte> {
    Header(36, session, 0x00, 0) + FindSections(serviceId, instanceId)
  }

  function FindSections(serviceId: u16, instanceId: u16): seq<byte> {
    [0, 0, 0, 0] + [0, 0, 0, 16] + FindEntryOf(serviceId, instanceId) + [0, 0, 0, 0]
  }

  function FindEntryOf(serviceId: u16, instanceId: u16): (e: seq<byte>)
    ensures |e| == 16
  {
    [0, 0, 0, 0] + Word16Bytes(serviceId) + Word16Bytes(instanceId) + [0xFF] + [0, 0, 0] + [0xFF, 0xFF, 0xFF, 0xFF]
  }

  function ListedEntries(list: seq<ServiceDescriptor>, n: nat): seq<byte>
    requires n <= |list|
  {
    if n == 0 then [] else ListedEntries(list, n - 1) + OfferEntry((n - 1) % 0x100, list[n - 1], 3)
  }

  function ListedOptions(list: seq<ServiceDescriptor>, n: nat): seq<byte>
    requires n <= |list|
  {
    if n == 0 then [] else ListedOptions(list, n - 1) + EndpointOption(list[n - 1])
  }

  /** A reply that lists services, each with TTL 3; entry i refers to option i mod 256. */
  function ListFrame(session: u16, list: seq<ServiceDescriptor>): seq<byte> {
    Header(20 + 29 * |list|, session, 0x80, 0) + ListSections(list)
  }

  function ListSections(list: seq<ServiceDescriptor>): seq<byte> {
    [0, 0, 0, 0] + Word32Bytes(16 * |list|) + ListedEntries(list, |list|) + Word32Bytes(13 * |list|) + ListedOptions(list, |list|)
  }

  /** Return code 9, no payload. */
  function ErrorFrame(session: u16): seq<byte> {
    Header(8, session, 0x81, 9)
  }

  // ---- what the daemon does

  /** The query in the first entry; instance 0xFFFF asks for all. */
  function QueryAt(x: seq<byte>): Query
    requires |x| >= 32
  {
    Query(U16At(x, 28), if U16At(x, 30) == 0xFFFF then None else Some(U16At(x, 30)))
  }

  predicate Asked(x: seq<byte>, d: ServiceDescriptor)
    requires |x| >= 32
  {
    d.serviceId == U16At(x, 28) && (U16At(x, 30) == 0xFFFF || d.instanceId == U16At(x, 30))
  }

  /** The list has the descriptors of all entries that are asked for, each once, in the order of `keys`. */
  ghost predicate Inventory(reg: Registry, x: seq<byte>, keys: seq<u32>, list: seq<ServiceDescriptor>)
    requires |x| >= 32
  {
    && (forall i, j :: 0 <= i < j < |keys| ==> keys[i] != keys[j])
    && (forall k: u32 :: k in keys <==> k in reg && Asked(x, reg[k].descriptor))
    && |list| == |keys| && forall i :: 0 <= i < |list| ==> keys[i] in reg && list[i] == reg[keys[i]].descriptor
  }

  /** Frames of type 0 are requests; a first entry of type 0 asks, one of type 1 offers. */
  predicate AsksFor(x: seq<byte>) {
    SdFrame(x) && x[14] == 0 && FirstEntry(x, 0)
  }

  predicate OffersOne(x: seq<byte>) {
    SdFrame(x) && x[14] == 0 && FirstEntry(x, 1)
  }

  /** An offer replaces what was known of the service; one with TTL 0 withdraws it. Nothing else changes the
      registry. */
  function RegistryAfter(reg: Registry, x: seq<byte>, at: nat): Registry {
    if OffersOne(x) then
      if U24At(x, 33) == 0 then reg - {U32At(x, 28)}
      else reg[U32At(x, 28) := RegistryEntry(DescriptorAt(x, 24), at + 1000 * U24At(x, 33))]
    else reg
  }

  /** A query is answered by a list, an offer by its echo, every other frame by an error, what is no frame by
      nothing. The reply has the session id of the frame. */
  ghost predicate RepliedByList(reg: Registry, x: seq<byte>, reply: Option<seq<byte>>)
    requires |x| >= 32
  {
    exists keys, list :: Inventory(reg, x, keys, list) && reply == Some(ListFrame(U16At(x, 10), list))
  }

  ghost predicate ReplyFor(reg: Registry, x: seq<byte>, reply: Option<seq<byte>>) {
    if AsksFor(x) then RepliedByList(reg, x, reply)
    else if OffersOne(x) then reply == Some(OfferFrame(U16At(x, 10), 0x80, DescriptorAt(x, 24), U24At(x, 33)))
    else if SdFrame(x) then reply == Some(ErrorFrame(U16At(x, 10)))
    else reply == None
  }

  /** The registry and the reply after a datagram, by its bytes. */
  ghost predicate DatagramServed(reg: Registry, data: seq<byte>, at: nat, reg': Registry, reply: Option<seq<byte>>) {
    reg' == RegistryAfter(reg, Cut(data), at) && ReplyFor(reg, Cut(data), reply)
  }

  // ---- the parser reads just that

  lemma FromBE2(s: seq<byte>)
    requires |s| == 2
    ensures FromBE(s) == (s[0] as int) * 0x100 + s[1]
  {
    assert FromBE(s[..1]) == FromBE(s[..1][..0]) * 256 + s[0];
  }

  lemma FromBE4(s: seq<byte>)
    requires |s| == 4
    ensures FromBE(s) == (s[0] as int) * 0x100_0000 + (s[1] as int) * 0x1_0000 + (s[2] as int) * 0x100 + s[3]
  {
    FromBE2(s[..2]);
    assert s[..3][..2] == s[..2];
  }

  lemma WordAt(x: seq<byte>, i: nat)
    requires i + 4 <= |x|
    ensures FromBE(x[i..i + 4]) == U32At(x, i)
  {
    FromBE4(x[i..i + 4]);
  }

  lemma FrameDecodes(x: seq<byte>)
    ensures Decode(x) == if SdFrame(x) then Success(SdPacket(x[14], U16At(x, 10), x[16..])) else Failure(FirstFault(x))
  {
    if |x| >= 16 {
      WordAt(x, 0);
      WordAt(x, 4);
      WordAt(x, 8);
      MessageIdIs(x);
      LowWord(x);
    }
  }

  lemma MessageIdIs(x: seq<byte>)
    requires |x| >= 16
    ensures U32At(x, 0) == SD_MESSAGE_ID <==> x[0] == 0xFF && x[1] == 0xFF && x[2] == 0x81 && x[3] == 0x00
  {
  }

  lemma LowWord(x: seq<byte>)
    requires |x| >= 16
    ensures U32At(x, 8) % 0x1_0000 == U16At(x, 10)
  {
    DivModUnique(U32At(x, 8), 0x1_0000, U16At(x, 8), U16At(x, 10));
  }

  lemma {:induction false} EntriesSplit(x: seq<byte>, a: nat, b: nat)
    requires a <= b <= |x|
    ensures SplitEntries(x[a..b]).Some? <==> (b - a) % 16 == 0
    ensures SplitEntries(x[a..b]).Some? ==>
            var es := SplitEntries(x[a..b]).value;
            16 * |es| == b - a && forall i :: 0 <= i < |es| ==> es[i] == x[a + 16 * i..a + 16 * i + 16]
    decreases b - a
  {
    if b - a >= 16 {
      EntriesSplit(x, a + 16, b);
      assert x[a..b][16..] == x[a + 16..b] && x[a..b][..16] == x[a..a + 16];
    }
  }

  lemma OptionCons(x: seq<byte>, p: nat)
    requires p + 4 <= |x| && p + 4 + U16At(x, p) <= |x|
    ensures var q := p + 4 + U16At(x, p); SplitOptions(x[p..]) == Prepend(x[p..q], SplitOptions(x[q..]))
  {
    var bs, n := x[p..], 4 + U16At(x, p);
    FromBE2(bs[..2]);
    assert bs[n..] == x[p + n..] && bs[..n] == x[p..p + n];
  }

  lemma {:induction false} OptionsSplit(x: seq<byte>, p: nat)
    requires p <= |x|
    ensures SplitOptions(x[p..]).Some? <==> Options(x, p)
    decreases |x| - p
  {
    if p + 4 <= |x| {
      FromBE2(x[p..][..2]);
      var q := p + 4 + U16At(x, p);
      if q <= |x| {
        OptionsSplit(x, q);
        assert x[p..][4 + U16At(x, p)..] == x[q..];
      }
    }
  }

  lemma OptionStep(x: seq<byte>, p: nat, os: seq<seq<byte>>)
    requires p < |x| && Options(x, p) && SplitOptions(x[p..]) == Some(os)
    ensures var q := p + 4 + U16At(x, p);
            q <= |x| && |os| > 0 && os[0] == x[p..q] && SplitOptions(x[q..]) == Some(os[1..])
  {
    OptionCons(x, p);
    var q := p + 4 + U16At(x, p);
    assert os == [x[p..q]] + SplitOptions(x[q..]).value;
  }

  lemma {:induction false} OptionFound(x: seq<byte>, p: nat, n: nat, os: seq<seq<byte>>)
    requires p <= |x| && Options(x, p) && SplitOptions(x[p..]) == Some(os)
    ensures Found(x, OptionAt(x, p, n), os, n)
    decreases |x| - p
  {
    if p < |x| {
      OptionStep(x, p, os);
      if n > 0 {
        OptionFound(x, p + 4 + U16At(x, p), n - 1, os[1..]);
        assert OptionAt(x, p, n) == OptionAt(x, p + 4 + U16At(x, p), n - 1);
      } else {
        assert OptionAt(x, p, n) == Some(p);
      }
    } else {
      assert x[p..] == [] && os == [];
    }
  }

  predicate Found(x: seq<byte>, q: Option<nat>, os: seq<seq<byte>>, n: nat)
    requires q.Some? ==> q.value + 4 <= |x| && q.value + 4 + U16At(x, q.value) <= |x|
  {
    if q.Some? then n < |os| && os[n] == x[q.value..q.value + 4 + U16At(x, q.value)] else n >= |os|
  }

  lemma FirstLength(x: seq<byte>)
    requires |x| >= 24
    ensures FromBE(x[16..][4..8]) == U32At(x, 20)
  {
    WordAt(x, 20);
    assert x[16..][4..8] == x[20..24];
  }

  lemma SecondLength(x: seq<byte>, end: nat)
    requires 24 <= end && end + 4 <= |x|
    ensures FromBE(x[16..][end - 16..end - 12]) == U32At(x, end)
    ensures x[16..][end - 12..] == x[end + 4..]
  {
    WordAt(x, end);
    assert x[16..][end - 16..end - 12] == x[end..end + 4];
  }

  lemma EntriesParse(x: seq<byte>, end: nat)
    requires 24 <= end <= |x|
    ensures var es := SplitEntries(x[16..][8..end - 16]);
            && (es.Some? <==> (end - 24) % 16 == 0)
            && (es.Some? ==> 16 * |es.value| == end - 24 && forall i :: 0 <= i < |es.value| ==> es.value[i] == x[24 + 16 * i..40 + 16 * i])
  {
    assert x[16..][8..end - 16] == x[24..end];
    EntriesSplit(x, 24, end);
  }

  /** The blocks of the payload of a frame. */
  lemma SectionsParse(x: seq<byte>)
    requires |x| >= 16
    ensures ParseBlocks(x[16..]).Some? <==> SdSections(x)
    ensures SdSections(x) ==>
            var b := ParseBlocks(x[16..]).value;
            16 * |b.entries| == U32At(x, 20) && SplitOptions(x[28 + U32At(x, 20)..]) == Some(b.options)
            && forall i :: 0 <= i < |b.entries| ==> b.entries[i] == x[24 + 16 * i..40 + 16 * i]
  {
    if |x| >= 28 {
      FirstLength(x);
      var end := 24 + U32At(x, 20);
      if end + 4 <= |x| {
        EntriesParse(x, end);
        SecondLength(x, end);
        OptionsSplit(x, end + 4);
      }
    }
  }

  lemma EndpointRead(x: seq<byte>, e: nat, os: seq<seq<byte>>)
    requires SdSections(x) && e + 16 <= |x| && SplitOptions(x[28 + U32At(x, 20)..]) == Some(os)
    ensures EntryEndpoint(x[e..e + 16], os) == EndpointAt(x, e)
  {
    var start := 28 + U32At(x, 20);
    OptionFound(x, start, x[e + 1], os);
    var q := OptionAt(x, start, x[e + 1]);
    if q.Some? {
      OptionRead(x, q.value);
    }
    EntryPoints(x[e..e + 16], os, q.Some?, if q.Some? then EndpointIn(x, q.value) else None);
  }

  lemma EntryPoints(e: seq<byte>, os: seq<seq<byte>>, found: bool, p: Option<Endpoint>)
    requires |e| == 16 && found == (e[1] < |os|) && (found ==> p == ParseOption(os[e[1]]))
    ensures EntryEndpoint(e, os) == if e[3] >= 0x10 && found && p.Some? then p.value else Endpoint(Octets(127, 0, 0, 1), 0)
  {
  }

  lemma OptionRead(x: seq<byte>, q: nat)
    requires q + 4 <= |x| && q + 4 + U16At(x, q) <= |x|
    ensures ParseOption(x[q..q + 4 + U16At(x, q)]) == EndpointIn(x, q)
  {
  }

  lemma EntryRead(x: seq<byte>, k: nat)
    requires |x| >= 16 && SdSections(x) && 16 * k + 16 <= U32At(x, 20)
    ensures ParseBlocks(x[16..]).Some? && k < |ParseBlocks(x[16..]).value.entries|
    ensures var b, e := ParseBlocks(x[16..]).value, 24 + 16 * k;
            && b.entries[k][0] == x[e] && EntryDescriptor(b.entries[k], b.options) == DescriptorAt(x, e)
            && EntryTtl(b.entries[k]) == U24At(x, e + 9)
            && Word16(b.entries[k][4], b.entries[k][5]) == U16At(x, e + 4) && Word16(b.entries[k][6], b.entries[k][7]) == U16At(x, e + 6)
  {
    SectionsParse(x);
    var b := ParseBlocks(x[16..]).value;
    EndpointRead(x, 24 + 16 * k, b.options);
    assert b.entries[k] == x[24 + 16 * k..40 + 16 * k];
  }

  /** A find is read from the first entry if that has type 0, an offer if it has type 1. */
  lemma FirstEntryRead(x: seq<byte>)
    requires |x| >= 16
    ensures ParseFind(x[16..]) ==
            if FirstEntry(x, 0) then Some(QueryAt(x)) else None
    ensures ParseOffer(x[16..]) == if FirstEntry(x, 1) then Some(Offer(DescriptorAt(x, 24), U24At(x, 33))) else None
  {
    SectionsParse(x);
    if SdSections(x) && U32At(x, 20) >= 16 {
      EntryRead(x, 0);
    }
  }

  /** All entries of type 1 are read as offers, others are skipped. */
  lemma OffersRead(x: seq<byte>)
    requires |x| >= 16
    ensures ParseOffers(x[16..]) == if SdSections(x) then Some(OffersFrom(x, 0)) else None
  {
    SectionsParse(x);
    if SdSections(x) {
      OffersReadFrom(x, 0);
      assert ParseBlocks(x[16..]).value.entries[0..] == ParseBlocks(x[16..]).value.entries;
    }
  }

  lemma {:induction false} OffersReadFrom(x: seq<byte>, k: nat)
    requires |x| >= 16 && SdSections(x) && 16 * k <= U32At(x, 20)
    ensures ParseBlocks(x[16..]).Some? && k <= |ParseBlocks(x[16..]).value.entries|
    ensures var b := ParseBlocks(x[16..]).value; OffersIn(b.entries[k..], b.options) == OffersFrom(x, k)
    decreases |x| - 16 * k
  {
    SectionsParse(x);
    var b := ParseBlocks(x[16..]).value;
    if 16 * k + 16 <= U32At(x, 20) {
      EntryRead(x, k);
      OffersReadFrom(x, k + 1);
      assert b.entries[k..][0] == b.entries[k] && b.entries[k..][1..] == b.entries[k + 1..];
    }
  }

  // ---- the printer writes just that

  lemma BE4(v: nat)
    ensures BE(4, v) == Word32Bytes(v)
  {
    BE3(v / 0x100);
    assert v / 0x100 / 0x1_0000 == v / 0x100_0000 && v / 0x100 / 0x100 == v / 0x1_0000;
  }

  lemma BE16(v: nat)
    ensures BE(2, v) == Word16Bytes(v)
  {
    BE2(v);
  }

  lemma BE24(v: nat)
    ensures BE(3, v) == Word24Bytes(v)
  {
    BE3(v);
  }

  lemma EntryWritten(kind: byte, index: byte, counts: byte, d: ServiceDescriptor, ttl: u32, minor: u32)
    ensures var t: u24 := if ttl <= 0xFF_FFFF then ttl else 0xFF_FFFF;
            EntryBytes(kind, index, 0, counts, d, ttl, minor) ==
            [kind, index, 0, counts] + Word16Bytes(d.serviceId) + Word16Bytes(d.instanceId)
            + [d.majorVersion] + Word24Bytes(t) + Word32Bytes(minor)
  {
    BE16(d.serviceId);
    BE16(d.instanceId);
    BE24(ClampTtl(ttl));
    BE4(minor);
  }

  lemma OfferEntryWritten(index: byte, d: ServiceDescriptor, ttl: u32)
    ensures EntryBytes(ENTRY_OFFER, index, 0, 0x10, d, ttl, d.minorVersion) ==
            OfferEntry(index, d, if ttl <= 0xFF_FFFF then ttl else 0xFF_FFFF)
  {
    EntryWritten(1, index, 0x10, d, ttl, d.minorVersion);
    assert Word32Bytes(d.minorVersion) == [0, 0, 0, d.minorVersion];
  }

  lemma OptionWritten(d: ServiceDescriptor)
    ensures OptionBytes(d) == EndpointOption(d)
  {
    BE16(9);
    BE16(d.port);
    assert Word16Bytes(9) == [0, 9];
  }

  lemma RequestIdWritten(session: u16)
    ensures BE(4, CLIENT_ID * 0x1_0000 + session) == [0x00, 0x01] + Word16Bytes(session)
  {
    BE4(0x1_0000 + session);
    assert (0x1_0000 + session) / 0x100 % 0x100 == session / 0x100 % 0x100;
  }

  lemma MessageIdWritten()
    ensures BE(4, SD_MESSAGE_ID) == [0xFF, 0xFF, 0x81, 0x00]
  {
    BE4(SD_MESSAGE_ID);
  }

  lemma HeaderWritten(p: SdPacket)
    ensures Encode(p) == Header(8 + |p.payload|, p.requestId % 0x1_0000, p.messageType, if p.messageType == 0x81 then 9 else 0) + p.payload
  {
    MessageIdWritten();
    BE4(8 + |p.payload|);
    RequestIdWritten(p.requestId % 0x1_0000);
  }

  lemma BlocksWritten(es: seq<byte>, os: seq<byte>)
    ensures PrintBlocks(NO_FLAGS, es, os) == [0, 0, 0, 0] + Word32Bytes(|es|) + es + Word32Bytes(|os|) + os
  {
    BE4(|es|);
    BE4(|os|);
  }

  lemma OfferBlocks(d: ServiceDescriptor, ttl: u24, e: seq<byte>, o: seq<byte>)
    requires e == OfferEntry(0, d, ttl) && o == EndpointOption(d)
    ensures PrintBlocks(NO_FLAGS, e, o) == OfferSections(d, ttl)
  {
    BlocksWritten(e, o);
    assert Word32Bytes(16) == [0, 0, 0, 16] && Word32Bytes(13) == [0, 0, 0, 13];
  }

  lemma OfferPayloadWritten(d: ServiceDescriptor, ttl: u32, stop: bool)
    ensures OfferPayload(d, ttl, stop) == OfferSections(d, if stop then 0 else if ttl <= 0xFF_FFFF then ttl else 0xFF_FFFF)
  {
    var sent := if stop then 0 else ttl;
    var t: u24 := if sent <= 0xFF_FFFF then sent else 0xFF_FFFF;
    OfferEntryWritten(0, d, sent);
    OptionWritten(d);
    OfferBlocks(d, t, EntryBytes(ENTRY_OFFER, 0, 0, 0x10, d, sent, d.minorVersion), OptionBytes(d));
  }

  lemma OfferWritten(id: u32, session: u16, kind: byte, d: ServiceDescriptor, ttl: u32, stop: bool)
    requires kind != 0x81 && session == id % 0x1_0000
    ensures var t: u24 := if stop then 0 else if ttl <= 0xFF_FFFF then ttl else 0xFF_FFFF;
            Encode(SdPacket(kind, id, OfferPayload(d, ttl, stop))) == OfferFrame(session, kind, d, t)
  {
    var payload := OfferPayload(d, ttl, stop);
    OfferPayloadWritten(d, ttl, stop);
    HeaderWritten(SdPacket(kind, id, payload));
  }

  lemma FindEntryWritten(serviceId: u16, instanceId: Option<u16>)
    ensures FindEntry(FindDescriptor(serviceId, instanceId), ANY_MINOR) ==
            FindEntryOf(serviceId, if instanceId.Some? then instanceId.value else 0xFFFF)
  {
    EntryWritten(0, 0, 0, FindDescriptor(serviceId, instanceId), 0, 0xFFFF_FFFF);
    assert Word24Bytes(0) == [0, 0, 0] && Word32Bytes(0xFFFF_FFFF) == [0xFF, 0xFF, 0xFF, 0xFF];
  }

  lemma FindPayloadWritten(serviceId: u16, instanceId: Option<u16>)
    ensures FindPayload(serviceId, instanceId) == FindSections(serviceId, if instanceId.Some? then instanceId.value else 0xFFFF)
  {
    FindEntryWritten(serviceId, instanceId);
    var e := FindEntryOf(serviceId, if instanceId.Some? then instanceId.value else 0xFFFF);
    BlocksWritten(e, []);
    assert Word32Bytes(16) == [0, 0, 0, 16] && Word32Bytes(0) == [0, 0, 0, 0];
  }

  lemma FindWritten(id: u32, session: u16, serviceId: u16, instanceId: Option<u16>)
    requires session == id % 0x1_0000
    ensures Encode(SdPacket(0x00, id, FindPayload(serviceId, instanceId))) ==
            FindFrame(session, serviceId, if instanceId.Some? then instanceId.value else 0xFFFF)
  {
    var payload := FindPayload(serviceId, instanceId);
    FindPayloadWritten(serviceId, instanceId);
    HeaderWritten(SdPacket(0x00, id, payload));
  }

  lemma {:induction false} FlattenSnoc(parts: seq<seq<byte>>, last: seq<byte>)
    ensures Flatten(parts + [last]) == Flatten(parts) + last
    decreases |parts|
  {
    if parts == [] {
      FlattenOne(last);
      assert [] + [last] == [last];
    } else {
      FlattenSnoc(parts[1..], last);
      assert (parts + [last])[1..] == parts[1..] + [last];
    }
  }

  lemma EntriesListed(list: seq<ServiceDescriptor>, es: seq<seq<byte>>)
    requires es == ListEntries(list, 3)
    ensures forall i :: 0 <= i < |es| ==> es[i] == OfferEntry(i % 0x100, list[i], 3)
  {
    forall i | 0 <= i < |es|
      ensures es[i] == OfferEntry(i % 0x100, list[i], 3)
    {
      OfferEntryWritten(i % 256, list[i], 3);
    }
  }

  lemma {:induction false} EntriesWritten(list: seq<ServiceDescriptor>, es: seq<seq<byte>>, n: nat)
    requires n <= |list| == |es| && forall i :: 0 <= i < |es| ==> es[i] == OfferEntry(i % 0x100, list[i], 3)
    ensures Flatten(es[..n]) == ListedEntries(list, n)
  {
    if n > 0 {
      EntriesWritten(list, es, n - 1);
      assert es[..n] == es[..n - 1] + [es[n - 1]];
      FlattenSnoc(es[..n - 1], es[n - 1]);
    }
  }

  lemma {:induction false} OptionsWritten(list: seq<ServiceDescriptor>, os: seq<seq<byte>>, n: nat)
    requires n <= |list| && os == ListOptions(list)
    ensures Flatten(os[..n]) == ListedOptions(list, n)
  {
    if n > 0 {
      OptionsWritten(list, os, n - 1);
      assert os[..n] == os[..n - 1] + [os[n - 1]];
      FlattenSnoc(os[..n - 1], os[n - 1]);
      OptionWritten(list[n - 1]);
    }
  }

  lemma ListEntriesWritten(list: seq<ServiceDescriptor>)
    ensures |Flatten(ListEntries(list, 3))| == 16 * |list| && Flatten(ListEntries(list, 3)) == ListedEntries(list, |list|)
  {
    var es := ListEntries(list, 3);
    FlattenLength(es, 16);
    EntriesListed(list, es);
    EntriesWritten(list, es, |list|);
    assert es[..|list|] == es;
  }

  lemma ListOptionsWritten(list: seq<ServiceDescriptor>)
    ensures |Flatten(ListOptions(list))| == 13 * |list| && Flatten(ListOptions(list)) == ListedOptions(list, |list|)
  {
    var os := ListOptions(list);
    OfferListSize(list, 3);
    OptionsWritten(list, os, |list|);
    assert os[..|list|] == os;
  }

  lemma ListPayloadWritten(list: seq<ServiceDescriptor>)
    ensures OfferListPayload(list, 3) == ListSections(list) && |ListSections(list)| == 12 + 29 * |list|
  {
    ListEntriesWritten(list);
    ListOptionsWritten(list);
    BlocksWritten(ListedEntries(list, |list|), ListedOptions(list, |list|));
  }

  lemma ListWritten(id: u32, session: u16, list: seq<ServiceDescriptor>)
    requires session == id % 0x1_0000
    ensures Encode(SdPacket(0x80, id, OfferListPayload(list, 3))) == ListFrame(session, list)
  {
    ListPayloadWritten(list);
    ListFramed(id, session, OfferListPayload(list, 3), list);
  }

  lemma ListFramed(id: u32, session: u16, payload: seq<byte>, list: seq<ServiceDescriptor>)
    requires session == id % 0x1_0000 && payload == ListSections(list) && |payload| == 12 + 29 * |list|
    ensures Encode(SdPacket(0x80, id, payload)) == ListFrame(session, list)
  {
    HeaderWritten(SdPacket(0x80, id, payload));
    assert 8 + |payload| == 20 + 29 * |list|;
  }

  // ---- the daemon does just that

  lemma KeyAt(x: seq<byte>)
    requires SdSections(x) && U32At(x, 20) >= 16
    ensures KeyOf(DescriptorAt(x, 24)) == U32At(x, 28)
  {
  }

  lemma NoRequest(p: SdPacket)
    requires p.messageType != 0
    ensures RequestOf(p) == Rejected
  {
  }

  /** The request in a frame. */
  lemma RequestRead(x: seq<byte>)
    requires SdFrame(x)
    ensures RequestOf(SdPacket(x[14], U16At(x, 10), x[16..])) ==
            if AsksFor(x) then Lookup(QueryAt(x)) else if OffersOne(x) then Announce(Offer(DescriptorAt(x, 24), U24At(x, 33))) else Rejected
  {
    if x[14] == 0 {
      FirstEntryRead(x);
    } else {
      NoRequest(SdPacket(x[14], U16At(x, 10), x[16..]));
    }
  }

  lemma RegistryExact(reg: Registry, d: Datagram)
    ensures Step(reg, Meaning(d)) == RegistryAfter(reg, Cut(d.data), d.at)
  {
    var x := Cut(d.data);
    assert Received(d.data) == x;
    FrameDecodes(x);
    if SdFrame(x) {
      RequestRead(x);
      FrameStep(reg, SdPacket(x[14], U16At(x, 10), x[16..]), x, d.at);
    }
  }

  lemma FrameStep(reg: Registry, p: SdPacket, x: seq<byte>, at: nat)
    requires OffersOne(x) ==> RequestOf(p) == Announce(Offer(DescriptorAt(x, 24), U24At(x, 33)))
    requires !OffersOne(x) ==> !RequestOf(p).Announce?
    ensures Step(reg, MeaningOf(p, at)) == RegistryAfter(reg, x, at)
  {
    if OffersOne(x) {
      KeyAt(x);
    }
  }

  ghost predicate Answer(reg: Registry, p: SdPacket, reply: Option<seq<byte>>) {
    exists resp :: Answers(reg, p, resp) && reply == Some(Encode(resp))
  }

  lemma OnlyAnswer(reg: Registry, p: SdPacket, resp: SdPacket, reply: Option<seq<byte>>)
    requires Answers(reg, p, resp) && !RequestOf(p).Lookup?
    ensures Answer(reg, p, reply) <==> reply == Some(Encode(resp))
  {
  }

  lemma OfferAnswered(reg: Registry, p: SdPacket, o: Offer, session: u16, reply: Option<seq<byte>>)
    requires RequestOf(p) == Announce(o) && session == p.requestId % 0x1_0000
    ensures Answer(reg, p, reply) <==> reply == Some(OfferFrame(session, 0x80, o.descriptor, o.ttl))
  {
    OnlyAnswer(reg, p, SdPacket(RESPONSE, p.requestId, OfferPayload(o.descriptor, o.ttl, o.ttl == 0)), reply);
    OfferWritten(p.requestId, session, 0x80, o.descriptor, o.ttl, o.ttl == 0);
  }

  lemma ErrorAnswered(reg: Registry, p: SdPacket, session: u16, reply: Option<seq<byte>>)
    requires RequestOf(p) == Rejected && p.requestId == session
    ensures Answer(reg, p, reply) <==> reply == Some(ErrorFrame(session))
  {
    OnlyAnswer(reg, p, SdPacket(ERROR, p.requestId, []), reply);
    HeaderWritten(SdPacket(ERROR, p.requestId, []));
    assert Header(8, session, 0x81, 9) + [] == Header(8, session, 0x81, 9);
  }

  lemma InventoryIs(reg: Registry, x: seq<byte>, keys: seq<u32>, list: seq<ServiceDescriptor>)
    requires |x| >= 32
    ensures ListedBy(list, keys, reg, QueryAt(x)) <==> Inventory(reg, x, keys, list)
  {
    assert forall k :: k in reg ==> (Matches(reg[k].descriptor, QueryAt(x)) <==> Asked(x, reg[k].descriptor));
    assert forall k :: k in MatchingKeys(reg, QueryAt(x)) <==> k in reg && Asked(x, reg[k].descriptor);
  }

  // A reply that lists services, for whatever way of writing the list.

  ghost predicate ListedReply(reg: Registry, q: Query, write: seq<ServiceDescriptor> -> seq<byte>, reply: Option<seq<byte>>) {
    exists keys, list :: ListedBy(list, keys, reg, q) && reply == Some(write(list))
  }

  ghost predicate InventoryReply(reg: Registry, x: seq<byte>, write: seq<ServiceDescriptor> -> seq<byte>, reply: Option<seq<byte>>)
    requires |x| >= 32
  {
    exists keys, list :: Inventory(reg, x, keys, list) && reply == Some(write(list))
  }

  function PacketWriter(id: u32): seq<ServiceDescriptor> -> seq<byte> {
    list => Encode(SdPacket(0x80, id, OfferListPayload(list, 3)))
  }

  function FrameWriter(session: u16): seq<ServiceDescriptor> -> seq<byte> {
    list => ListFrame(session, list)
  }

  lemma SameReply(reg: Registry, x: seq<byte>, a: seq<ServiceDescriptor> -> seq<byte>, b: seq<ServiceDescriptor> -> seq<byte>, reply: Option<seq<byte>>)
    requires |x| >= 32 && forall list {:trigger a(list)} {:trigger b(list)} :: a(list) == b(list)
    ensures ListedReply(reg, QueryAt(x), a, reply) <==> InventoryReply(reg, x, b, reply)
  {
    if ListedReply(reg, QueryAt(x), a, reply) {
      var keys, list :| ListedBy(list, keys, reg, QueryAt(x)) && reply == Some(a(list));
      InventoryIs(reg, x, keys, list);
      assert Inventory(reg, x, keys, list) && reply == Some(b(list));
    }
    if InventoryReply(reg, x, b, reply) {
      var keys, list :| Inventory(reg, x, keys, list) && reply == Some(b(list));
      InventoryIs(reg, x, keys, list);
      assert ListedBy(list, keys, reg, QueryAt(x)) && reply == Some(a(list));
    }
  }

  lemma SameWriters(id: u32, session: u16)
    requires session == id % 0x1_0000
    ensures forall list {:trigger PacketWriter(id)(list)} {:trigger FrameWriter(session)(list)} :: PacketWriter(id)(list) == FrameWriter(session)(list)
  {
    forall list
      ensures PacketWriter(id)(list) == FrameWriter(session)(list)
    {
      ListWritten(id, session, list);
    }
  }

  lemma LookupAnswered(reg: Registry, p: SdPacket, q: Query, reply: Option<seq<byte>>)
    requires RequestOf(p) == Lookup(q)
    ensures Answer(reg, p, reply) <==> ListedReply(reg, q, PacketWriter(p.requestId), reply)
  {
    if Answer(reg, p, reply) {
      var resp :| Answers(reg, p, resp) && reply == Some(Encode(resp));
      var list :| ListReply(reg, p, resp, q, list);
      var keys :| ListedBy(list, keys, reg, q);
      assert ListedBy(list, keys, reg, q) && reply == Some(PacketWriter(p.requestId)(list));
    }
    if ListedReply(reg, q, PacketWriter(p.requestId), reply) {
      var keys, list :| ListedBy(list, keys, reg, q) && reply == Some(PacketWriter(p.requestId)(list));
      var resp := SdPacket(RESPONSE, p.requestId, OfferListPayload(list, REPLY_TTL));
      assert ListReply(reg, p, resp, q, list);
      assert Answers(reg, p, resp);
    }
  }

  lemma ListReplied(reg: Registry, x: seq<byte>, session: u16, reply: Option<seq<byte>>)
    requires |x| >= 32 && session == U16At(x, 10)
    ensures RepliedByList(reg, x, reply) <==> InventoryReply(reg, x, FrameWriter(session), reply)
  {
    if RepliedByList(reg, x, reply) {
      var keys, list :| Inventory(reg, x, keys, list) && reply == Some(ListFrame(U16At(x, 10), list));
      assert Inventory(reg, x, keys, list) && reply == Some(FrameWriter(session)(list));
    }
    if InventoryReply(reg, x, FrameWriter(session), reply) {
      var keys, list :| Inventory(reg, x, keys, list) && reply == Some(FrameWriter(session)(list));
      assert Inventory(reg, x, keys, list) && reply == Some(ListFrame(U16At(x, 10), list));
    }
  }

  lemma QueryAnswered(reg: Registry, p: SdPacket, x: seq<byte>, reply: Option<seq<byte>>)
    requires |x| >= 32 && RequestOf(p) == Lookup(QueryAt(x)) && p.requestId == U16At(x, 10)
    ensures Answer(reg, p, reply) <==> RepliedByList(reg, x, reply)
  {
    var a, b := PacketWriter(p.requestId), FrameWriter(p.requestId);
    LookupAnswered(reg, p, QueryAt(x), reply);
    SameWriters(p.requestId, p.requestId);
    SameReply(reg, x, a, b, reply);
    ListReplied(reg, x, p.requestId, reply);
  }

  /** The daemon may give a reply if and only if it is the one that the bytes call for. */
  lemma ReplyExact(reg: Registry, d: Datagram, reply: Option<seq<byte>>)
    ensures Replied(reg, d, reply) <==> ReplyFor(reg, Cut(d.data), reply)
  {
    var x := Cut(d.data);
    assert Received(d.data) == x;
    FrameDecodes(x);
    if SdFrame(x) {
      var p := SdPacket(x[14], U16At(x, 10), x[16..]);
      RequestRead(x);
      assert Replied(reg, d, reply) <==> Answer(reg, p, reply);
      FrameAnswered(reg, p, x, reply);
    }
  }

  lemma NotBoth(x: seq<byte>)
    ensures OffersOne(x) ==> !AsksFor(x)
  {
  }

  lemma ReplyToOffer(reg: Registry, x: seq<byte>, o: Offer, session: u16, reply: Option<seq<byte>>)
    requires OffersOne(x) && o.descriptor == DescriptorAt(x, 24) && o.ttl == U24At(x, 33) && session == U16At(x, 10)
    ensures ReplyFor(reg, x, reply) <==> reply == Some(OfferFrame(session, 0x80, o.descriptor, o.ttl))
  {
    NotBoth(x);
  }

  lemma OfferFrameAnswered(reg: Registry, p: SdPacket, x: seq<byte>, o: Offer, reply: Option<seq<byte>>)
    requires OffersOne(x) && o.descriptor == DescriptorAt(x, 24) && o.ttl == U24At(x, 33)
    requires RequestOf(p) == Announce(o) && p.requestId == U16At(x, 10)
    ensures Answer(reg, p, reply) <==> ReplyFor(reg, x, reply)
  {
    OfferAnswered(reg, p, o, p.requestId, reply);
    ReplyToOffer(reg, x, o, p.requestId, reply);
  }

  lemma FrameAnswered(reg: Registry, p: SdPacket, x: seq<byte>, reply: Option<seq<byte>>)
    requires SdFrame(x) && p.requestId == U16At(x, 10)
    requires RequestOf(p) ==
             if AsksFor(x) then Lookup(QueryAt(x)) else if OffersOne(x) then Announce(Offer(DescriptorAt(x, 24), U24At(x, 33))) else Rejected
    ensures Answer(reg, p, reply) <==> ReplyFor(reg, x, reply)
  {
    NotBoth(x);
    if AsksFor(x) {
      QueryAnswered(reg, p, x, reply);
    } else if OffersOne(x) {
      OfferFrameAnswered(reg, p, x, Offer(DescriptorAt(x, 24), U24At(x, 33)), reply);
    } else {
      ErrorAnswered(reg, p, U16At(x, 10), reply);
    }
  }

  /** A frame of any other type than 0, or with no first entry of type 0 or 1, means nothing to the registry and
      is answered by 16 bytes: the session id of the frame, type 0x81, return code 9. */
  lemma OthersAreErrors(reg: Registry, d: Datagram, reply: Option<seq<byte>>)
    requires var x := Cut(d.data); SdFrame(x) && (x[14] != 0 || !(FirstEntry(x, 0) || FirstEntry(x, 1)))
    ensures Meaning(d) == Ignored(d.at)
    ensures var x := Cut(d.data);
            Replied(reg, d, reply) <==> reply == Some([0xFF, 0xFF, 0x81, 0x00, 0, 0, 0, 8, 0x00, 0x01, x[10], x[11], 1, 1, 0x81, 9])
  {
    var x := Cut(d.data);
    assert Received(d.data) == x;
    FrameDecodes(x);
    RequestRead(x);
    ReplyExact(reg, d, reply);
    ErrorBytes(x);
  }

  lemma ErrorBytes(x: seq<byte>)
    requires |x| >= 16
    ensures ErrorFrame(U16At(x, 10)) == [0xFF, 0xFF, 0x81, 0x00, 0, 0, 0, 8, 0x00, 0x01, x[10], x[11], 1, 1, 0x81, 9]
  {
    assert Word16Bytes(U16At(x, 10)) == [x[10], x[11]] && Word32Bytes(8) == [0, 0, 0, 8];
  }

  /** Registry and reply together: what the daemon makes of any datagram is what its bytes say. */
  lemma DatagramExact(reg: Registry, d: Datagram, reply: Option<seq<byte>>)
    ensures Replied(reg, d, reply) <==> DatagramServed(reg, d.data, d.at, Step(reg, Meaning(d)), reply)
  {
    RegistryExact(reg, d);
    ReplyExact(reg, d, reply);
  }

  /** The same of the daemon object. */
  method AnswerDatagram(daemon: SdDaemon.SomeIpSdDaemon, d: Datagram) returns (reply: Option<seq<byte>>)
    modifies daemon
    ensures DatagramServed(old(daemon.registry), d.data, d.at, daemon.registry, reply)
  {
    reply := daemon.ProcessDatagram(d);
    DatagramExact(old(daemon.registry), d, reply);
  }

  // ---- the serve loop

  function AfterIfAny(reg: Registry, d: Option<Datagram>): Registry {
    if d.None? then reg else RegistryAfter(reg, Cut(d.value.data), d.value.at)
  }

  function Unexpired(reg: Registry, now: nat): Registry {
    map k | k in reg && reg[k].expiresAtMs > now :: reg[k]
  }

  /** A turn drops what has expired, then takes the first socket's datagram, then the second one's. */
  function AfterRound(reg: Registry, r: SdDaemon.Round): Registry {
    AfterIfAny(AfterIfAny(Unexpired(reg, r.cleanupAt), r.udp), r.control)
  }

  function AfterRounds(rounds: seq<SdDaemon.Round>, n: nat): Registry
    requires n <= |rounds|
  {
    if n == 0 then map[] else AfterRound(AfterRounds(rounds, n - 1), rounds[n - 1])
  }

  ghost predicate ReplyIfAny(reg: Registry, d: Option<Datagram>, reply: Option<seq<byte>>) {
    if d.None? then reply == None else ReplyFor(reg, Cut(d.value.data), reply)
  }

  ghost predicate RoundServed(reg: Registry, r: SdDaemon.Round, replies: (Option<seq<byte>>, Option<seq<byte>>)) {
    && ReplyIfAny(Unexpired(reg, r.cleanupAt), r.udp, replies.0)
    && ReplyIfAny(AfterIfAny(Unexpired(reg, r.cleanupAt), r.udp), r.control, replies.1)
  }

  lemma IfAnyExact(reg: Registry, d: Option<Datagram>, reply: Option<seq<byte>>)
    ensures Run(reg, SdDaemon.MeaningIfAny(d)) == AfterIfAny(reg, d)
    ensures SdDaemon.RepliedIfAny(reg, d, reply) <==> ReplyIfAny(reg, d, reply)
  {
    if d.Some? {
      SdDaemon.RunOne(reg, Meaning(d.value));
      RegistryExact(reg, d.value);
      ReplyExact(reg, d.value, reply);
    }
  }

  lemma RoundExact(reg: Registry, r: SdDaemon.Round, replies: (Option<seq<byte>>, Option<seq<byte>>))
    ensures Run(reg, SdDaemon.MeaningOfRound(r)) == AfterRound(reg, r)
    ensures SdDaemon.RoundReplied(reg, r, replies) <==> RoundServed(reg, r, replies)
  {
    var live := Unexpired(reg, r.cleanupAt);
    assert Live(reg, r.cleanupAt) == live && Step(reg, Swept(r.cleanupAt)) == live;
    SdDaemon.RoundRuns(reg, r);
    IfAnyExact(live, r.udp, replies.0);
    IfAnyExact(AfterIfAny(live, r.udp), r.control, replies.1);
  }

  lemma {:induction false} RoundsExact(rounds: seq<SdDaemon.Round>, n: nat)
    requires n <= |rounds|
    ensures SdDaemon.RunRounds(map[], rounds, n) == AfterRounds(rounds, n)
  {
    if n > 0 {
      RoundsExact(rounds, n - 1);
      RoundExact(AfterRounds(rounds, n - 1), rounds[n - 1], (None, None));
    }
  }

  /** A fresh daemon over any number of turns: every reply is the one that the bytes of its datagram call for,
      in the registry that the bytes of all earlier datagrams and the cleanups have made. */
  method ServeByBytes(rounds: seq<SdDaemon.Round>) returns (replies: seq<(Option<seq<byte>>, Option<seq<byte>>)>)
    ensures |replies| == |rounds|
    ensures forall i :: 0 <= i < |rounds| ==> RoundServed(AfterRounds(rounds, i), rounds[i], replies[i])
  {
    var daemon := new SdDaemon.SomeIpSdDaemon();
    replies := daemon.ServeLoop(rounds);
    forall i | 0 <= i < |rounds|
      ensures RoundServed(AfterRounds(rounds, i), rounds[i], replies[i])
    {
      RoundsExact(rounds, i);
      RoundExact(AfterRounds(rounds, i), rounds[i], replies[i]);
    }
  }
}
