/** Parser and printer of the SD wire format undo each other, exactly within the limits that its field
    widths set. */
module SdWireTheorems {
  import opened Bytes
  import opened SdWire

  // ---- integers of known width

  lemma BE2(v: nat)
    ensures BE(2, v) == [v / 256 % 256, v % 256]
  {
    assert BE(1, v / 256) == [v / 256 % 256];
  }

  lemma BE3(v: nat)
    ensures BE(3, v) == [v / 0x1_0000 % 256, v / 256 % 256, v % 256]
  {
    BE2(v / 256);
    assert v / 256 / 256 == v / 0x1_0000;
  }

  lemma Word16OfBE(v: u16)
    ensures Word16(BE(2, v)[0], BE(2, v)[1]) == v
  {
    BE2(v);
  }

  lemma Read32(v: u32)
    ensures FromBE(BE(4, v)) == v
  {
    Pow256Values();
    FromBEOfSmallBE(4, v);
  }

  lemma Read32Bound(s: seq<byte>)
    requires |s| == 4
    ensures FromBE(s) < 0x1_0000_0000 && BE(4, FromBE(s)) == s
  {
    Pow256Values();
    FromBEBound(s);
    BEOfFromBE(s);
  }

  // ---- blocks

  ghost predicate WholeEntries(es: seq<seq<byte>>) {
    forall i :: 0 <= i < |es| ==> |es[i]| == 16
  }

  /** An option that states its own length. */
  predicate SelfDelimiting(o: seq<byte>) {
    |o| >= 4 && |o| == 4 + FromBE(o[..2])
  }

  ghost predicate WholeOptions(os: seq<seq<byte>>) {
    forall i :: 0 <= i < |os| ==> SelfDelimiting(os[i])
  }

  lemma {:induction false} SplitEntriesOfFlatten(es: seq<seq<byte>>)
    requires WholeEntries(es)
    ensures |Flatten(es)| == 16 * |es| && SplitEntries(Flatten(es)) == Some(es)
    decreases |es|
  {
    if es != [] {
      var rest := Flatten(es[1..]);
      SplitEntriesOfFlatten(es[1..]);
      assert (es[0] + rest)[..16] == es[0] && (es[0] + rest)[16..] == rest;
      assert [es[0]] + es[1..] == es;
    }
  }

  lemma {:induction false} FlattenOfSplitEntries(bs: seq<byte>)
    requires SplitEntries(bs).Some?
    ensures Flatten(SplitEntries(bs).value) == bs && WholeEntries(SplitEntries(bs).value)
    decreases |bs|
  {
    if bs != [] {
      FlattenOfSplitEntries(bs[16..]);
      var es := SplitEntries(bs).value;
      assert es[1..] == SplitEntries(bs[16..]).value;
      assert bs == bs[..16] + bs[16..];
    }
  }

  lemma {:induction false} SplitOptionsOfFlatten(os: seq<seq<byte>>)
    requires WholeOptions(os)
    ensures SplitOptions(Flatten(os)) == Some(os)
    decreases |os|
  {
    if os != [] {
      var o, rest := os[0], Flatten(os[1..]);
      SplitOptionsOfFlatten(os[1..]);
      assert SelfDelimiting(o);
      assert (o + rest)[..2] == o[..2] && (o + rest)[..|o|] == o && (o + rest)[|o|..] == rest;
      assert [os[0]] + os[1..] == os;
    }
  }

  lemma {:induction false} FlattenOfSplitOptions(bs: seq<byte>)
    requires SplitOptions(bs).Some?
    ensures Flatten(SplitOptions(bs).value) == bs && WholeOptions(SplitOptions(bs).value)
    decreases |bs|
  {
    if bs != [] {
      var n := 4 + FromBE(bs[..2]);
      FlattenOfSplitOptions(bs[n..]);
      var os := SplitOptions(bs).value;
      assert os[1..] == SplitOptions(bs[n..]).value;
      assert bs[..n][..2] == bs[..2];
      assert bs == bs[..n] + bs[n..];
    }
  }

  /** The payload is four flag bytes and the given blocks, with lengths that fit their fields. */
  ghost predicate Printed(payload: seq<byte>, es: seq<seq<byte>>, os: seq<seq<byte>>) {
    && WholeEntries(es) && WholeOptions(os)
    && |Flatten(es)| < 0x1_0000_0000 && |Flatten(os)| < 0x1_0000_0000
    && |payload| >= 4 && payload == PrintBlocks(payload[..4], Flatten(es), Flatten(os))
  }

  lemma FivePieces(a: seq<byte>, b: seq<byte>, c: seq<byte>, d: seq<byte>, e: seq<byte>)
    requires |a| == |b| == |d| == 4
    ensures var f, end := a + b + c + d + e, 8 + |c|;
            f[..4] == a && f[4..8] == b && f[8..end] == c && f[end..end + 4] == d && f[end + 4..] == e
  {
  }

  /** Where the parts of a printed payload are. */
  lemma PrintedParts(flags: seq<byte>, es: seq<byte>, os: seq<byte>)
    requires |flags| == 4
    ensures var p, end := PrintBlocks(flags, es, os), 8 + |es|;
            && p[..4] == flags && p[4..8] == BE(4, |es|) && p[8..end] == es
            && p[end..end + 4] == BE(4, |os|) && p[end + 4..] == os
  {
    FivePieces(flags, BE(4, |es|), es, BE(4, |os|), os);
  }

  /** The parser accepts exactly the printed payloads, and returns the blocks they were printed from. */
  lemma ParseBlocksExact(payload: seq<byte>, es: seq<seq<byte>>, os: seq<seq<byte>>)
    ensures ParseBlocks(payload) == Some(Blocks(es, os)) <==> Printed(payload, es, os)
  {
    if ParseBlocks(payload) == Some(Blocks(es, os)) {
      ParsedIsPrinted(payload);
    }
    if Printed(payload, es, os) {
      PrintedParses(payload[..4], es, os);
    }
  }

  lemma ParsedIsPrinted(payload: seq<byte>)
    requires ParseBlocks(payload).Some?
    ensures Printed(payload, ParseBlocks(payload).value.entries, ParseBlocks(payload).value.options)
  {
    var end := 8 + FromBE(payload[4..8]);
    FlattenOfSplitEntries(payload[8..end]);
    FlattenOfSplitOptions(payload[end + 4..]);
    Read32Bound(payload[4..8]);
    Read32Bound(payload[end..end + 4]);
    FiveParts(payload, end);
  }

  lemma FiveParts(p: seq<byte>, end: nat)
    requires 8 <= end && end + 4 <= |p|
    ensures p == p[..4] + p[4..8] + p[8..end] + p[end..end + 4] + p[end + 4..]
  {
  }

  lemma PrintedParses(flags: seq<byte>, es: seq<seq<byte>>, os: seq<seq<byte>>)
    requires |flags| == 4 && WholeEntries(es) && WholeOptions(os)
    requires |Flatten(es)| < 0x1_0000_0000 && |Flatten(os)| < 0x1_0000_0000
    ensures ParseBlocks(PrintBlocks(flags, Flatten(es), Flatten(os))) == Some(Blocks(es, os))
  {
    PrintedParts(flags, Flatten(es), Flatten(os));
    Read32(|Flatten(es)|);
    Read32(|Flatten(os)|);
    SplitEntriesOfFlatten(es);
    SplitOptionsOfFlatten(os);
  }

  // ---- entries and options

  lemma OptionParses(d: ServiceDescriptor)
    ensures SelfDelimiting(OptionBytes(d))
    ensures ParseOption(OptionBytes(d)) == Some(Endpoint(Normalise(d).host, d.port))
  {
    var o := OptionBytes(d);
    BE2(9);
    BE2(d.port);
    assert o[..2] == BE(2, 9);
    FromBEOfBE(2, 9);
    Pow256Values();
    assert o[11..13] == BE(2, d.port);
    Word16OfBE(d.port);
  }

  lemma EntryParts(kind: byte, index1: byte, index2: byte, counts: byte, d: ServiceDescriptor, ttl: u32, minor: u32)
    ensures var e := EntryBytes(kind, index1, index2, counts, d, ttl, minor);
            && e[0] == kind && e[1] == index1 && e[3] == counts
            && Word16(e[4], e[5]) == d.serviceId && Word16(e[6], e[7]) == d.instanceId
            && e[8] == d.majorVersion && EntryTtl(e) == ClampTtl(ttl) && e[15] == minor % 256
  {
    var e := EntryBytes(kind, index1, index2, counts, d, ttl, minor);
    BE2(d.serviceId);
    BE2(d.instanceId);
    BE3(ClampTtl(ttl));
    Word16OfBE(d.serviceId);
    Word16OfBE(d.instanceId);
    var t := ClampTtl(ttl);
    assert e[4..6] == BE(2, d.serviceId) && e[6..8] == BE(2, d.instanceId) && e[9..12] == BE(3, t);
    assert e[12..16] == BE(4, minor);
    assert e[15] == BE(4, minor)[3];
    assert BE(4, minor) == BE(3, minor / 256) + [minor % 256];
  }

  /** An offer entry with one option is read back as the descriptor it was built from, with the endpoint
      of the option its index leads to. */
  lemma OfferEntryParses(index: byte, d: ServiceDescriptor, ttl: u32, options: seq<seq<byte>>, at: ServiceDescriptor)
    requires index < |options| && options[index] == OptionBytes(at)
    ensures EntryDescriptor(EntryBytes(ENTRY_OFFER, index, 0, 0x10, d, ttl, d.minorVersion), options) ==
            Normalise(d).(host := Normalise(at).host, port := at.port)
  {
    var e := EntryBytes(ENTRY_OFFER, index, 0, 0x10, d, ttl, d.minorVersion);
    EntryParts(ENTRY_OFFER, index, 0, 0x10, d, ttl, d.minorVersion);
    OptionParses(at);
    EndpointFound(e, options, Normalise(at).host, at.port);
  }

  lemma EndpointFound(e: seq<byte>, options: seq<seq<byte>>, host: Host, port: u16)
    requires |e| == 16 && e[3] == 0x10 && e[1] < |options| && ParseOption(options[e[1]]) == Some(Endpoint(host, port))
    ensures EntryEndpoint(e, options) == Endpoint(host, port)
  {
  }

  // ---- single offers and finds

  lemma {:induction false} FlattenOne(x: seq<byte>)
    ensures Flatten([x]) == x
  {
    assert [x][1..] == [];
    assert x + [] == x;
  }

  lemma OfferPayloadBlocks(d: ServiceDescriptor, ttl: u32, stop: bool)
    ensures ParseBlocks(OfferPayload(d, ttl, stop)) ==
            Some(Blocks([EntryBytes(ENTRY_OFFER, 0, 0, 0x10, d, if stop then 0 else ttl, d.minorVersion)], [OptionBytes(d)]))
  {
    var e, o := EntryBytes(ENTRY_OFFER, 0, 0, 0x10, d, if stop then 0 else ttl, d.minorVersion), OptionBytes(d);
    FlattenOne(e);
    FlattenOne(o);
    OptionParses(d);
    PrintedParses(NO_FLAGS, [e], [o]);
  }

  /** An offer is read back up to normalisation; its TTL is clamped to 24 bits, a stop-offer has TTL 0. */
  lemma OfferRoundTrip(d: ServiceDescriptor, ttl: u32, stop: bool)
    ensures ParseOffer(OfferPayload(d, ttl, stop)) == Some(Offer(Normalise(d), if stop then 0 else ClampTtl(ttl)))
    ensures ClampTtl(ttl) == if ttl <= 0xFF_FFFF then ttl else 0xFF_FFFF
    ensures ParseFind(OfferPayload(d, ttl, stop)).None?
  {
    var t := if stop then 0 else ttl;
    OfferPayloadBlocks(d, ttl, stop);
    EntryParts(ENTRY_OFFER, 0, 0, 0x10, d, t, d.minorVersion);
    OfferEntryParses(0, d, t, [OptionBytes(d)], d);
  }

  /** A query is read back, except that instance 0xFFFF means any instance. */
  lemma FindRoundTrip(serviceId: u16, instanceId: Option<u16>)
    ensures ParseFind(FindPayload(serviceId, instanceId)) ==
            Some(Query(serviceId, if instanceId == Some(0xFFFF) then None else instanceId))
  {
    var d := FindDescriptor(serviceId, instanceId);
    var e := FindEntry(d, ANY_MINOR);
    FlattenOne(e);
    PrintedParses(NO_FLAGS, [e], []);
    EntryParts(ENTRY_FIND, 0, 0, 0, d, 0, ANY_MINOR);
  }

  /** A descriptor that came off the wire is stored in a form that further trips do not change, and its
      TTL is below 2^24: an offer echoed by the daemon says again what was stored. */
  lemma AcceptedOfferIsFixed(payload: seq<byte>)
    requires ParseOffer(payload).Some?
    ensures var o := ParseOffer(payload).value;
            && Normalise(o.descriptor) == o.descriptor
            && ParseOffer(OfferPayload(o.descriptor, o.ttl, false)) == Some(o)
  {
    var o := ParseOffer(payload).value;
    EntryHostIsOctets(ParseBlocks(payload).value.entries[0], ParseBlocks(payload).value.options);
    OfferRoundTrip(o.descriptor, o.ttl, false);
  }

  lemma EntryHostIsOctets(e: seq<byte>, options: seq<seq<byte>>)
    requires |e| == 16
    ensures EntryDescriptor(e, options).host.Octets? && EntryDescriptor(e, options).transport == "udp"
  {
  }

  // ---- offer lists

  lemma {:induction false} FlattenLength(parts: seq<seq<byte>>, n: nat)
    requires forall i :: 0 <= i < |parts| ==> |parts[i]| == n
    ensures |Flatten(parts)| == n * |parts|
    decreases |parts|
  {
    if parts != [] {
      FlattenLength(parts[1..], n);
      assert n * |parts| == n + n * (|parts| - 1);
    }
  }

  lemma OfferListSize(services: seq<ServiceDescriptor>, ttl: u32)
    ensures |Flatten(ListEntries(services, ttl))| == 16 * |services|
    ensures |Flatten(ListOptions(services))| == 13 * |services|
    ensures |OfferListPayload(services, ttl)| == 12 + 29 * |services|
  {
    FlattenLength(ListEntries(services, ttl), 16);
    FlattenLength(ListOptions(services), 13);
  }

  lemma OfferListBlocks(services: seq<ServiceDescriptor>, ttl: u32)
    requires |services| < 0x1000_0000
    ensures ParseBlocks(OfferListPayload(services, ttl)) == Some(Blocks(ListEntries(services, ttl), ListOptions(services)))
  {
    OfferListSize(services, ttl);
    forall i | 0 <= i < |services|
      ensures SelfDelimiting(ListOptions(services)[i])
    {
      OptionParses(services[i]);
    }
    PrintedParses(NO_FLAGS, ListEntries(services, ttl), ListOptions(services));
  }

  /** What position i of a decoded list holds: the i-th service with the endpoint of the service that the
      8-bit option index leads to. */
  function Listed(services: seq<ServiceDescriptor>, i: nat): ServiceDescriptor
    requires i < |services|
  {
    var at := services[i % 256];
    Normalise(services[i]).(host := Normalise(at).host, port := at.port)
  }

  function ListedAll(services: seq<ServiceDescriptor>): (r: seq<ServiceDescriptor>)
    ensures |r| == |services| && forall i :: 0 <= i < |r| ==> r[i] == Listed(services, i)
  {
    seq(|services|, i requires 0 <= i < |services| => Listed(services, i))
  }

  function NormaliseAll(services: seq<ServiceDescriptor>): (r: seq<ServiceDescriptor>)
    ensures |r| == |services| && forall i :: 0 <= i < |r| ==> r[i] == Normalise(services[i])
  {
    seq(|services|, i requires 0 <= i < |services| => Normalise(services[i]))
  }

  lemma {:induction false} OffersInEach(es: seq<seq<byte>>, options: seq<seq<byte>>)
    requires WholeEntries(es) && forall i :: 0 <= i < |es| ==> es[i][0] == ENTRY_OFFER
    ensures |OffersIn(es, options)| == |es|
    ensures forall i :: 0 <= i < |es| ==> OffersIn(es, options)[i] == EntryDescriptor(es[i], options)
    decreases |es|
  {
    if es != [] {
      OffersInEach(es[1..], options);
      forall i | 0 <= i < |es|
        ensures OffersIn(es, options)[i] == EntryDescriptor(es[i], options)
      {
        if i > 0 {
          assert OffersIn(es[1..], options)[i - 1] == EntryDescriptor(es[1..][i - 1], options);
        }
      }
    }
  }

  /** Decoding a printed list of offers: it is accepted exactly when there are fewer than 2^28 services,
      and entry i then carries the endpoint of service i mod 256. */
  lemma OfferListRoundTrip(services: seq<ServiceDescriptor>, ttl: u32)
    ensures ParseOffers(OfferListPayload(services, ttl)) ==
            if |services| < 0x1000_0000 then Some(ListedAll(services)) else None
  {
    if |services| < 0x1000_0000 {
      var es, os := ListEntries(services, ttl), ListOptions(services);
      OfferListBlocks(services, ttl);
      EntriesListed(services, ttl);
      OffersInEach(es, os);
      assert OffersIn(es, os) == ListedAll(services);
    } else {
      HugeListRejected(services, ttl);
    }
  }

  lemma EntriesListed(services: seq<ServiceDescriptor>, ttl: u32)
    ensures forall i :: 0 <= i < |services| ==>
      var e := ListEntries(services, ttl)[i];
      e[0] == ENTRY_OFFER && EntryDescriptor(e, ListOptions(services)) == Listed(services, i)
  {
    forall i | 0 <= i < |services|
      ensures var e := ListEntries(services, ttl)[i];
              e[0] == ENTRY_OFFER && EntryDescriptor(e, ListOptions(services)) == Listed(services, i)
    {
      EntryParts(ENTRY_OFFER, i % 256, 0, 0x10, services[i], ttl, services[i].minorVersion);
      OfferEntryParses(i % 256, services[i], ttl, ListOptions(services), services[i % 256]);
    }
  }

  /** With 2^28 services or more the entries length wraps; what the parser then takes for the options
      length cannot match. */
  lemma HugeListRejected(services: seq<ServiceDescriptor>, ttl: u32)
    requires |services| >= 0x1000_0000
    ensures ParseBlocks(OfferListPayload(services, ttl)).None?
  {
    var payload := OfferListPayload(services, ttl);
    var es := Flatten(ListEntries(services, ttl));
    OfferListSize(services, ttl);
    PrintedParts(NO_FLAGS, es, Flatten(ListOptions(services)));
    assert FromBE(payload[4..8]) <= |es| - 0x1_0000_0000 by {
      FromBEOfBE(4, |es|);
      Pow256Values();
      Wraps(|es|);
    }
    OversizeRejected(payload, |es|);
  }

  lemma Wraps(n: nat)
    requires n >= 0x1_0000_0000
    ensures n % 0x1_0000_0000 <= n - 0x1_0000_0000
  {
  }

  lemma OversizeRejected(payload: seq<byte>, n: nat)
    requires |payload| >= 12 + n && FromBE(payload[4..8]) <= n - 0x1_0000_0000
    ensures ParseBlocks(payload).None?
  {
    var end := 8 + FromBE(payload[4..8]);
    Read32Bound(payload[end..end + 4]);
  }

  predicate SameEndpoint(a: ServiceDescriptor, b: ServiceDescriptor) {
    Normalise(a).host == Normalise(b).host && a.port == b.port
  }

  predicate OwnEndpoint(services: seq<ServiceDescriptor>, i: nat)
    requires i < |services|
  {
    SameEndpoint(services[i], services[i % 256])
  }

  /** Every service has the endpoint of the one that 8 bits of its index lead to. */
  ghost predicate Unaliased(services: seq<ServiceDescriptor>) {
    forall i {:trigger OwnEndpoint(services, i)} :: 0 <= i < |services| ==> OwnEndpoint(services, i)
  }

  lemma OwnEndpointMeans(services: seq<ServiceDescriptor>, i: nat)
    requires i < |services|
    ensures Listed(services, i) == Normalise(services[i]) <==> OwnEndpoint(services, i)
    ensures i < 256 ==> OwnEndpoint(services, i)
  {
  }

  /** The list is read back unchanged, up to normalisation, exactly when it is unaliased; up to 256
      services it always is. */
  lemma OfferListFaithfulIff(services: seq<ServiceDescriptor>, ttl: u32)
    requires |services| < 0x1000_0000
    ensures ParseOffers(OfferListPayload(services, ttl)) == Some(NormaliseAll(services)) <==> Unaliased(services)
    ensures |services| <= 256 ==> ParseOffers(OfferListPayload(services, ttl)) == Some(NormaliseAll(services))
  {
    OfferListRoundTrip(services, ttl);
    ListedIsNormalised(services);
  }

  lemma ListedIsNormalised(services: seq<ServiceDescriptor>)
    ensures ListedAll(services) == NormaliseAll(services) <==> Unaliased(services)
    ensures |services| <= 256 ==> ListedAll(services) == NormaliseAll(services)
  {
    var read, sent := ListedAll(services), NormaliseAll(services);
    forall i | 0 <= i < |services|
      ensures read[i] == sent[i] <==> OwnEndpoint(services, i)
      ensures |services| <= 256 ==> OwnEndpoint(services, i)
    {
      OwnEndpointMeans(services, i);
    }
    if Unaliased(services) {
      assert forall i :: 0 <= i < |services| ==> OwnEndpoint(services, i) && read[i] == sent[i];
      assert read == sent;
    }
  }

  // ---- packets

  lemma HeaderParts(messageId: u32, length: nat, requestId: u32, protocol: byte, interface: byte, messageType: byte, returnCode: byte, payload: seq<byte>)
    ensures var f := HeaderBytes(messageId, length, requestId, protocol, interface, messageType, returnCode) + payload;
            && f[0..4] == BE(4, messageId) && f[4..8] == BE(4, length) && f[8..12] == BE(4, requestId)
            && f[12] == protocol && f[13] == interface && f[14] == messageType && f[15] == returnCode && f[16..] == payload
  {
    FramePieces(BE(4, messageId), BE(4, length), BE(4, requestId), [protocol, interface, messageType, returnCode], payload);
  }

  lemma FramePieces(a: seq<byte>, b: seq<byte>, c: seq<byte>, d: seq<byte>, payload: seq<byte>)
    requires |a| == |b| == |c| == |d| == 4
    ensures var f := a + b + c + d + payload;
            && f[0..4] == a && f[4..8] == b && f[8..12] == c && f[16..] == payload
            && f[12] == d[0] && f[13] == d[1] && f[14] == d[2] && f[15] == d[3]
  {
  }

  lemma EncodedParts(p: SdPacket)
    ensures var f := Encode(p);
            && FromBE(f[0..4]) == SD_MESSAGE_ID && f[12] == PROTOCOL_VERSION && f[13] == INTERFACE_VERSION
            && FromBE(f[4..8]) == (8 + |p.payload|) % 0x1_0000_0000
            && FromBE(f[8..12]) % 0x1_0000 == p.requestId % 0x1_0000
            && f[14] == p.messageType && f[16..] == p.payload
  {
    var length, rid := 8 + |p.payload|, CLIENT_ID * 0x1_0000 + p.requestId % 0x1_0000;
    HeaderParts(SD_MESSAGE_ID, length, rid, PROTOCOL_VERSION, INTERFACE_VERSION, p.messageType,
                if p.messageType == ERROR then RETURN_MALFORMED else RETURN_OK, p.payload);
    Read32(SD_MESSAGE_ID);
    Read32(rid);
    FromBEOfBE(4, length);
    Pow256Values();
  }

  /** A packet survives encoding with its request id cut to 16 bits, exactly when its length fits 32 bits. */
  lemma PacketRoundTrip(p: SdPacket)
    ensures |p.payload| < 0xFFFF_FFF8 ==> Decode(Encode(p)) == Success(p.(requestId := p.requestId % 0x1_0000))
    ensures |p.payload| >= 0xFFFF_FFF8 ==> Decode(Encode(p)).Failure?
  {
    EncodedParts(p);
    if |p.payload| >= 0xFFFF_FFF8 {
      Wraps(8 + |p.payload|);
    }
  }

  /** Re-encoding an accepted frame changes at most the client id and the return code. */
  lemma FrameReencoded(data: seq<byte>)
    requires Decode(data).Success?
    ensures var p := Decode(data).value;
            Encode(p) == data[..8] + [0, 1] + data[10..15] + [if p.messageType == ERROR then RETURN_MALFORMED else RETURN_OK] + data[16..]
  {
    var p := Decode(data).value;
    Read32Bound(data[0..4]);
    Read32Bound(data[4..8]);
    LowHalf(data[8..12]);
    var rc := if p.messageType == ERROR then RETURN_MALFORMED else RETURN_OK;
    assert data[8..12][2..] == data[10..12];
    EncodeFrom(p, data[0..4], data[4..8], [0, 1] + data[10..12], rc);
    Reframed(data, rc);
  }

  lemma EncodeFrom(p: SdPacket, mid: seq<byte>, length: seq<byte>, rid: seq<byte>, rc: byte)
    requires mid == BE(4, SD_MESSAGE_ID) && length == BE(4, 8 + |p.payload|)
    requires rid == BE(4, CLIENT_ID * 0x1_0000 + p.requestId % 0x1_0000)
    requires rc == if p.messageType == ERROR then RETURN_MALFORMED else RETURN_OK
    ensures Encode(p) == mid + length + rid + [PROTOCOL_VERSION, INTERFACE_VERSION, p.messageType, rc] + p.payload
  {
  }

  lemma Reframed(data: seq<byte>, rc: byte)
    requires |data| >= 16
    ensures data[0..4] + data[4..8] + ([0, 1] + data[10..12]) + [data[12], data[13], data[14], rc] + data[16..] ==
            data[..8] + [0, 1] + data[10..15] + [rc] + data[16..]
  {
  }

  lemma LowHalf(s: seq<byte>)
    requires |s| == 4
    ensures BE(4, CLIENT_ID * 0x1_0000 + FromBE(s) % 0x1_0000) == [0, 1] + s[2..]
  {
    var low := (s[2] as int) * 256 + s[3];
    FromBELow(s, low);
    BE2(1);
    var mid: nat := 256 + s[2] as int;
    assert BE(3, mid) == BE(2, 1) + [s[2]];
    assert BE(4, 0x1_0000 + low) == BE(3, mid) + [s[3]];
    assert s[2..] == [s[2], s[3]];
  }

  lemma FromBELow(s: seq<byte>, low: int)
    requires |s| == 4 && low == (s[2] as int) * 256 + s[3]
    ensures FromBE(s) % 0x1_0000 == low
  {
    assert s[..3][..2] == s[..2] && s[..3][2] == s[2];
    assert FromBE(s) == FromBE(s[..2]) * 0x1_0000 + low;
  }

  /** Two accepted frames, one a prefix of the other, are the same frame: every truncation and every
      extension of an accepted frame is rejected. */
  lemma FramesPrefixFree(a: seq<byte>, b: seq<byte>)
    requires Decode(a).Success? && Decode(b).Success? && a <= b
    ensures a == b
  {
    assert a[4..8] == b[4..8];
  }

  /** The one prefix of an encoded packet that can be accepted: the one as long as the 32-bit length says. */
  lemma AcceptedPrefix(p: SdPacket, k: nat)
    requires k <= |Encode(p)|
    ensures var length := (8 + |p.payload|) % 0x1_0000_0000;
            Decode(Encode(p)[..k]).Success? <==> length >= 8 && k == 8 + length
  {
    EncodedParts(p);
    var f := Encode(p);
    if k >= 16 {
      assert f[..k][0..4] == f[0..4] && f[..k][4..8] == f[4..8];
    }
  }

  /** Every strict prefix of an encoded packet is rejected, unless the payload reaches 4 GiB and its length,
      wrapped to 32 bits, looks proper. */
  lemma StrictPrefixesRejectedIff(p: SdPacket)
    ensures (forall k {:trigger Encode(p)[..k]} :: 0 <= k < |Encode(p)| ==> Decode(Encode(p)[..k]).Failure?) <==>
            |p.payload| < 0x1_0000_0000 || (8 + |p.payload|) % 0x1_0000_0000 < 8
  {
    var length := (8 + |p.payload|) % 0x1_0000_0000;
    forall k | 0 <= k < |Encode(p)|
      ensures Decode(Encode(p)[..k]).Success? <==> length >= 8 && k == 8 + length
    {
      AcceptedPrefix(p, k);
    }
    if |p.payload| >= 0x1_0000_0000 && length >= 8 {
      Wraps(8 + |p.payload|);
      assert Decode(Encode(p)[..8 + length]).Success?;
    }
  }
}
