/** Client and daemon joined by their real encodings, with nothing lost on the way: what a call achieves in
    the registry, what the client is told, and what discovery reports, over every history. */
module SdComposition {
  import opened Bytes
  import opened SdWire
  import opened SdWireTheorems
  import opened SdRegistry
  import SdDaemon
  import opened SdClient

  /** The largest request id that the wire carries. */
  const MAX_WIRE_ID := 0xFFFF

  /** The most services a reply can hold and still fit the receive buffer. */
  const MAX_DISCOVERABLE := 140

  // ---- transport

  /** A packet that fits the buffer arrives with its id cut to 16 bits. */
  lemma Delivered(p: SdPacket)
    requires 16 + |p.payload| <= RECEIVE_BUFFER
    ensures Decode(Received(Encode(p))) == Success(p.(requestId := p.requestId % 0x1_0000))
  {
    PacketRoundTrip(p);
  }

  /** A packet that does not fit is lost. */
  lemma CutOff(p: SdPacket)
    requires RECEIVE_BUFFER < 16 + |p.payload| < 0xFFFF_FFF8
    ensures Decode(Received(Encode(p))).Failure?
  {
    AcceptedPrefix(p, RECEIVE_BUFFER);
  }

  /** The daemon, in the given state, sends the reply when the request arrives. */
  ghost predicate Served(reg: Registry, request: SdPacket, at: nat, reply: Option<seq<byte>>) {
    Replied(reg, Datagram(Encode(request), at), reply)
  }

  /** What the arrival of the request means to the registry. */
  ghost predicate Means(h: Happening, request: SdPacket, at: nat) {
    h == Meaning(Datagram(Encode(request), at))
  }

  // ---- what the daemon makes of the client's calls

  /** Registering offers the normalised descriptor with the clamped TTL, whatever the request id. */
  lemma RegisterMeans(id: u32, d: ServiceDescriptor, ttlSec: int, at: nat)
    ensures Meaning(Datagram(Encode(RegisterRequest(id, d, ttlSec)), at)) == Offered(Offer(Normalise(d), ClampTtl(ToU32(ttlSec))), at)
  {
    Delivered(RegisterRequest(id, d, ttlSec));
    OfferRoundTrip(d, ToU32(ttlSec), false);
  }

  lemma UnregisterMeans(id: u32, s: u16, i: u16, at: nat)
    ensures Meaning(Datagram(Encode(UnregisterRequest(id, s, i)), at)) == Offered(Offer(DefaultDescriptor(s, i), 0), at)
  {
    Delivered(UnregisterRequest(id, s, i));
    OfferRoundTrip(DefaultDescriptor(s, i), 0, true);
  }

  function QueryOf(s: u16, i: Option<u16>): Query {
    Query(s, if i == Some(0xFFFF) then None else i)
  }

  lemma FindMeans(id: u32, s: u16, i: Option<u16>, at: nat)
    ensures Meaning(Datagram(Encode(FindRequest(id, s, i)), at)) == Ignored(at)
  {
    Delivered(FindRequest(id, s, i));
    FindRoundTrip(s, i);
  }

  /** Registering with TTL 0 does to the registry what unregistering does. */
  lemma ZeroTtlUnregisters(reg: Registry, id: u32, id': u32, d: ServiceDescriptor, at: nat)
    ensures Step(reg, Meaning(Datagram(Encode(RegisterRequest(id, d, 0)), at))) ==
            Step(reg, Meaning(Datagram(Encode(UnregisterRequest(id', d.serviceId, d.instanceId)), at)))
  {
    RegisterMeans(id, d, 0, at);
    UnregisterMeans(id', d.serviceId, d.instanceId, at);
    assert KeyOf(Normalise(d)) == KeyOf(DefaultDescriptor(d.serviceId, d.instanceId));
  }

  // ---- what the client is told

  /** A control call succeeds exactly when its id fits 16 bits, though the daemon applied it in any case. */
  lemma ControlCallVerdict(id: u32, payload: seq<byte>, o: Offer, reg: Registry, at: nat, reply: Option<seq<byte>>)
    requires |payload| == 41 && ParseFind(payload).None? && ParseOffer(payload) == Some(o)
    requires Served(reg, SdPacket(REQUEST, id, payload), at, reply)
    ensures reply.Some? && Verdict(id, reply) == if id <= MAX_WIRE_ID then None else Some(RequestIdMismatch)
  {
    var req := SdPacket(REQUEST, id, payload);
    var p := req.(requestId := id % 0x1_0000);
    assert Replied(reg, Datagram(Encode(req), at), reply);
    Delivered(req);
    assert RequestOf(p) == Announce(o);
    var resp :| Answers(reg, p, resp) && reply == Some(Encode(resp));
    EchoVerdict(id, o, resp);
  }

  lemma EchoVerdict(id: u32, o: Offer, resp: SdPacket)
    requires resp == SdPacket(RESPONSE, id % 0x1_0000, OfferPayload(o.descriptor, o.ttl, o.ttl == 0))
    ensures Verdict(id, Some(Encode(resp))) == if id <= MAX_WIRE_ID then None else Some(RequestIdMismatch)
  {
    OfferRoundTrip(o.descriptor, o.ttl, o.ttl == 0);
    ReplyVerdict(id, OfferPayload(o.descriptor, o.ttl, o.ttl == 0));
  }

  lemma ReplyVerdict(id: u32, payload: seq<byte>)
    requires 16 + |payload| <= RECEIVE_BUFFER && ParseOffer(payload).Some?
    ensures Verdict(id, Some(Encode(SdPacket(RESPONSE, id % 0x1_0000, payload)))) ==
            if id <= MAX_WIRE_ID then None else Some(RequestIdMismatch)
  {
    var resp := SdPacket(RESPONSE, id % 0x1_0000, payload);
    DeliveredReply(id, payload);
    VerdictOf(id, Encode(resp), resp);
  }

  lemma DeliveredReply(id: u32, payload: seq<byte>)
    requires 16 + |payload| <= RECEIVE_BUFFER
    ensures var resp := SdPacket(RESPONSE, id % 0x1_0000, payload); Decode(Received(Encode(resp))) == Success(resp)
  {
    Delivered(SdPacket(RESPONSE, id % 0x1_0000, payload));
  }

  lemma VerdictOf(id: u32, x: seq<byte>, p: SdPacket)
    requires x != [] && Decode(Received(x)) == Success(p) && p.messageType == RESPONSE && ParseOffer(p.payload).Some?
    requires p.requestId == id % 0x1_0000
    ensures Verdict(id, Some(x)) == if id <= MAX_WIRE_ID then None else Some(RequestIdMismatch)
  {
  }

  lemma RegisterVerdict(id: u32, d: ServiceDescriptor, ttlSec: int, reg: Registry, at: nat, reply: Option<seq<byte>>)
    requires Served(reg, RegisterRequest(id, d, ttlSec), at, reply)
    ensures reply.Some? && Verdict(id, reply) == if id <= MAX_WIRE_ID then None else Some(RequestIdMismatch)
  {
    OfferRoundTrip(d, ToU32(ttlSec), false);
    ControlCallVerdict(id, OfferPayload(d, ToU32(ttlSec), false), Offer(Normalise(d), ClampTtl(ToU32(ttlSec))), reg, at, reply);
  }

  lemma UnregisterVerdict(id: u32, s: u16, i: u16, reg: Registry, at: nat, reply: Option<seq<byte>>)
    requires Served(reg, UnregisterRequest(id, s, i), at, reply)
    ensures reply.Some? && Verdict(id, reply) == if id <= MAX_WIRE_ID then None else Some(RequestIdMismatch)
  {
    var d := DefaultDescriptor(s, i);
    OfferRoundTrip(d, 0, true);
    ControlCallVerdict(id, OfferPayload(d, 0, true), Offer(d, 0), reg, at, reply);
  }

  // ---- discovery

  ghost predicate WellFormed(reg: Registry) {
    forall k :: k in reg ==> KeyOf(reg[k].descriptor) == k && Normalise(reg[k].descriptor) == reg[k].descriptor
  }

  lemma {:induction false} RangeSize(s: set<u32>, a: nat, m: nat)
    requires forall k :: k in s ==> a <= k < a + m
    ensures |s| <= m
    decreases m
  {
    if m == 0 {
      assert s == {};
    } else {
      var top := a + m - 1;
      if top < 0x1_0000_0000 && top in s {
        RangeSize(s - {top}, a, m - 1);
      } else {
        RangeSize(s, a, m - 1);
      }
    }
  }

  /** One service has at most 65536 instances. */
  lemma FewMatches(reg: Registry, q: Query)
    requires WellFormed(reg)
    ensures |MatchingKeys(reg, q)| <= 0x1_0000
  {
    RangeSize(MatchingKeys(reg, q), (q.serviceId as int) * 0x1_0000, 0x1_0000);
  }

  lemma OneArrival(id: u32, x: seq<byte>)
    ensures Discovered(id, [x]) == FirstOfEach(OffersFor(id, x))
  {
    assert [] + [x] == [x];
    GatheredSnoc(id, [], x);
    assert Gathered(id, []) == [];
    assert [] + OffersFor(id, x) == OffersFor(id, x);
  }

  lemma ReplySize(id: u32, list: seq<ServiceDescriptor>)
    ensures |Encode(SdPacket(RESPONSE, id, OfferListPayload(list, REPLY_TTL)))| == 28 + 29 * |list|
  {
    OfferListSize(list, REPLY_TTL);
  }

  /** What a client with request id `id` reads from the reply that lists `list`: all of it or nothing. */
  lemma ReplyRead(id: u32, list: seq<ServiceDescriptor>)
    requires NormaliseAll(list) == list && |list| <= 0x1_0000
    ensures OffersFor(id, Encode(SdPacket(RESPONSE, id % 0x1_0000, OfferListPayload(list, REPLY_TTL)))) ==
            if id <= MAX_WIRE_ID && |list| <= MAX_DISCOVERABLE then list else []
  {
    if |list| <= MAX_DISCOVERABLE {
      ReplyFits(id, list);
    } else {
      ReplyCutOff(id, list);
    }
  }

  lemma ReplyFits(id: u32, list: seq<ServiceDescriptor>)
    requires NormaliseAll(list) == list && |list| <= MAX_DISCOVERABLE
    ensures OffersFor(id, Encode(SdPacket(RESPONSE, id % 0x1_0000, OfferListPayload(list, REPLY_TTL)))) ==
            if id <= MAX_WIRE_ID then list else []
  {
    OfferListSize(list, REPLY_TTL);
    OfferListFaithfulIff(list, REPLY_TTL);
    ReplyReadAs(id, OfferListPayload(list, REPLY_TTL), list);
  }

  lemma ReplyReadAs(id: u32, payload: seq<byte>, list: seq<ServiceDescriptor>)
    requires 16 + |payload| <= RECEIVE_BUFFER && ParseOffers(payload) == Some(list)
    ensures OffersFor(id, Encode(SdPacket(RESPONSE, id % 0x1_0000, payload))) == if id <= MAX_WIRE_ID then list else []
  {
    var resp := SdPacket(RESPONSE, id % 0x1_0000, payload);
    DeliveredReply(id, payload);
    ReadWhole(id, Encode(resp), resp, list);
  }

  lemma ReplyCutOff(id: u32, list: seq<ServiceDescriptor>)
    requires MAX_DISCOVERABLE < |list| <= 0x1_0000
    ensures OffersFor(id, Encode(SdPacket(RESPONSE, id % 0x1_0000, OfferListPayload(list, REPLY_TTL)))) == []
  {
    OfferListSize(list, REPLY_TTL);
    CutOff(SdPacket(RESPONSE, id % 0x1_0000, OfferListPayload(list, REPLY_TTL)));
  }

  lemma ReadWhole(id: u32, x: seq<byte>, p: SdPacket, list: seq<ServiceDescriptor>)
    requires Decode(Received(x)) == Success(p) && p.messageType == RESPONSE && ParseOffers(p.payload) == Some(list)
    requires p.requestId == id % 0x1_0000
    ensures OffersFor(id, x) == if id <= MAX_WIRE_ID then list else []
  {
  }

  lemma ListIsNormal(list: seq<ServiceDescriptor>, reg: Registry, q: Query)
    requires Lists(list, reg, q) && WellFormed(reg)
    ensures NormaliseAll(list) == list && |list| <= 0x1_0000 && FirstOfEach(list) == list && |list| == |MatchingKeys(reg, q)|
  {
    var keys :| ListedBy(list, keys, reg, q);
    EnumerationSize(keys, MatchingKeys(reg, q));
    FewMatches(reg, q);
    forall i | 0 <= i < |list|
      ensures Normalise(list[i]) == list[i]
    {
      assert keys[i] in reg;
    }
    ListDistinct(list, keys, reg, q);
    DistinctKept(list);
  }

  lemma ListDistinct(list: seq<ServiceDescriptor>, keys: seq<u32>, reg: Registry, q: Query)
    requires ListedBy(list, keys, reg, q) && WellFormed(reg)
    ensures forall i, j :: 0 <= i < j < |list| ==> !SameTriple(list[i], list[j])
  {
    forall i, j | 0 <= i < j < |list|
      ensures !SameTriple(list[i], list[j])
    {
      assert keys[i] in reg && keys[j] in reg;
      assert KeyOf(list[i]) == keys[i] && KeyOf(list[j]) == keys[j];
    }
  }

  /** Every query is answered. */
  lemma FindAnswered(id: u32, s: u16, i: Option<u16>, reg: Registry, at: nat, reply: Option<seq<byte>>) returns (list: seq<ServiceDescriptor>)
    requires Served(reg, FindRequest(id, s, i), at, reply)
    ensures Lists(list, reg, QueryOf(s, i))
    ensures reply == Some(Encode(SdPacket(RESPONSE, id % 0x1_0000, OfferListPayload(list, REPLY_TTL))))
  {
    var p := FindRequest(id, s, i).(requestId := id % 0x1_0000);
    assert Replied(reg, Datagram(Encode(FindRequest(id, s, i)), at), reply);
    Delivered(FindRequest(id, s, i));
    FindRoundTrip(s, i);
    assert RequestOf(p) == Lookup(QueryOf(s, i));
    var resp :| Answers(reg, p, resp) && reply == Some(Encode(resp));
    list :| ListReply(reg, p, resp, QueryOf(s, i), list);
  }

  /** Discovery is all or nothing: the reply is 28 + 29n bytes for n matching services, and the client ends
      up with each of them once if n is at most 140 and its id fits 16 bits, and with nothing otherwise.
      Instance 0xFFFF is a wildcard. */
  lemma DiscoveryAllOrNothing(id: u32, s: u16, i: Option<u16>, reg: Registry, at: nat, reply: seq<byte>)
    requires WellFormed(reg) && Served(reg, FindRequest(id, s, i), at, Some(reply))
    ensures var n := |MatchingKeys(reg, QueryOf(s, i))|;
            && |reply| == 28 + 29 * n
            && (|reply| <= RECEIVE_BUFFER <==> n <= MAX_DISCOVERABLE)
            && (if n <= MAX_DISCOVERABLE && id <= MAX_WIRE_ID
                then Lists(Discovered(id, [reply]), reg, QueryOf(s, i))
                else Discovered(id, [reply]) == [])
  {
    var list := FindAnswered(id, s, i, reg, at, Some(reply));
    ListIsNormal(list, reg, QueryOf(s, i));
    ReplySize(id % 0x1_0000, list);
    ReplyRead(id, list);
    OneArrival(id, reply);
  }

  // ---- whole runs

  ghost predicate AllNormal(events: seq<Happening>) {
    forall h :: h in events ==> Normal(h)
  }

  lemma RunWellFormed(events: seq<Happening>)
    requires AllNormal(events)
    ensures WellFormed(Run(map[], events))
  {
    forall k | k in Run(map[], events)
      ensures var d := Run(map[], events)[k].descriptor; KeyOf(d) == k && Normalise(d) == d
    {
      KeysAgree(events, k);
    }
  }

  /** Whatever the daemon serves, its history is of the kind that the theorems below speak of. */
  lemma {:induction false} ServedIsNormal(rounds: seq<SdDaemon.Round>)
    ensures AllNormal(SdDaemon.MeaningOfRounds(rounds))
    decreases |rounds|
  {
    if rounds != [] {
      var r := rounds[|rounds| - 1];
      ServedIsNormal(rounds[..|rounds| - 1]);
      NormalIfAny(r.udp);
      NormalIfAny(r.control);
    }
  }

  lemma NormalIfAny(d: Option<Datagram>)
    ensures AllNormal(SdDaemon.MeaningIfAny(d))
  {
    if d.Some? {
      MeaningIsNormal(d.value);
    }
  }

  /** A discovery after the given history, within the limits on ids and on the number of services. */
  ghost predicate DiscoveryAfter(events: seq<Happening>, id: u32, s: u16, i: Option<u16>, at: nat, reply: seq<byte>) {
    && AllNormal(events) && id <= MAX_WIRE_ID
    && |MatchingKeys(Run(map[], events), QueryOf(s, i))| <= MAX_DISCOVERABLE
    && Served(Run(map[], events), FindRequest(id, s, i), at, Some(reply))
  }

  /** What is reported is what the registry holds. */
  lemma DiscoveryIsRegistry(events: seq<Happening>, id: u32, s: u16, i: Option<u16>, at: nat, reply: seq<byte>, d: ServiceDescriptor)
    requires DiscoveryAfter(events, id, s, i, at, reply)
    ensures var entry := Get(Run(map[], events), KeyOf(d));
            d in Discovered(id, [reply]) <==> Matches(d, QueryOf(s, i)) && entry.Some? && entry.value.descriptor == d
  {
    RunWellFormed(events);
    DiscoveryAllOrNothing(id, s, i, Run(map[], events), at, reply);
    ListingHas(Discovered(id, [reply]), Run(map[], events), QueryOf(s, i), d);
  }

  /** What discovery reports after a history of arbitrary datagrams and cleanups: exactly the services that
      the history holds. */
  lemma DiscoveryIsHistory(events: seq<Happening>, id: u32, s: u16, i: Option<u16>, at: nat, reply: seq<byte>, d: ServiceDescriptor)
    requires DiscoveryAfter(events, id, s, i, at, reply)
    ensures d in Discovered(id, [reply]) <==>
            Matches(d, QueryOf(s, i)) && exists t :: Held(events, d.serviceId, d.instanceId, RegistryEntry(d, t))
  {
    DiscoveryIsRegistry(events, id, s, i, at, reply, d);
    EntryIsHistory(events, d);
  }

  lemma EntryIsHistory(events: seq<Happening>, d: ServiceDescriptor)
    ensures var entry := Get(Run(map[], events), KeyOf(d));
            entry.Some? && entry.value.descriptor == d <==>
            exists t :: Held(events, d.serviceId, d.instanceId, RegistryEntry(d, t))
  {
    var entry := Get(Run(map[], events), KeyOf(d));
    forall t
      ensures entry == Some(RegistryEntry(d, t)) <==> Held(events, d.serviceId, d.instanceId, RegistryEntry(d, t))
    {
      LastWriterWins(events, d.serviceId, d.instanceId, RegistryEntry(d, t));
    }
    if entry.Some? && entry.value.descriptor == d {
      assert entry == Some(RegistryEntry(d, entry.value.expiresAtMs));
    }
  }

  predicate SameService(a: ServiceDescriptor, b: ServiceDescriptor) {
    a.serviceId == b.serviceId && a.instanceId == b.instanceId
  }

  /** In every run: after the last offer for a service, discovery reports that service, as it was offered,
      until the first cleanup at or after its expiry, and from then on not at all. */
  lemma ReportedUntilExpiry(before: seq<Happening>, o: Offer, offeredAt: nat, after: seq<Happening>,
                            id: u32, s: u16, i: Option<u16>, at: nat, reply: seq<byte>, x: ServiceDescriptor)
    requires DiscoveryAfter(before + [Offered(o, offeredAt)] + after, id, s, i, at, reply)
    requires !SpokenOf(after, o.descriptor.serviceId, o.descriptor.instanceId)
    requires Matches(o.descriptor, QueryOf(s, i)) && SameService(x, o.descriptor)
    ensures x in Discovered(id, [reply]) <==>
            x == o.descriptor && o.ttl > 0 && !SweptFrom(after, offeredAt + o.ttl * 1000)
  {
    DiscoveryIsRegistry(before + [Offered(o, offeredAt)] + after, id, s, i, at, reply, x);
    LastOfferDecides(before, o, offeredAt, after);
  }

  /** For clients: a registered service is reported until it expires or something else is said of it... */
  lemma RegisteredIsReported(before: seq<Happening>, registered: Happening, after: seq<Happening>,
                             registerId: u32, d: ServiceDescriptor, ttlSec: int, offeredAt: nat,
                             id: u32, s: u16, i: Option<u16>, at: nat, reply: seq<byte>)
    requires Means(registered, RegisterRequest(registerId, d, ttlSec), offeredAt)
    requires DiscoveryAfter(before + [registered] + after, id, s, i, at, reply)
    requires !SpokenOf(after, d.serviceId, d.instanceId) && Matches(d, QueryOf(s, i))
    ensures var ttl := ClampTtl(ToU32(ttlSec));
            Normalise(d) in Discovered(id, [reply]) <==> ttl > 0 && !SweptFrom(after, offeredAt + ttl * 1000)
  {
    var o := Offer(Normalise(d), ClampTtl(ToU32(ttlSec)));
    assert registered == Offered(o, offeredAt) by {
      RegisterMeans(registerId, d, ttlSec, offeredAt);
    }
    ReportedUntilExpiry(before, o, offeredAt, after, id, s, i, at, reply, o.descriptor);
  }

  /** ... and one that was withdrawn is not reported, under any endpoint, until it is offered again. */
  lemma UnregisteredIsGone(before: seq<Happening>, withdrawn: Happening, after: seq<Happening>,
                           unregisterId: u32, withdrawnAt: nat,
                           id: u32, s: u16, i: Option<u16>, at: nat, reply: seq<byte>, x: ServiceDescriptor)
    requires Means(withdrawn, UnregisterRequest(unregisterId, x.serviceId, x.instanceId), withdrawnAt)
    requires DiscoveryAfter(before + [withdrawn] + after, id, s, i, at, reply)
    requires !SpokenOf(after, x.serviceId, x.instanceId) && Matches(x, QueryOf(s, i))
    ensures x !in Discovered(id, [reply])
  {
    var o := Offer(DefaultDescriptor(x.serviceId, x.instanceId), 0);
    assert withdrawn == Offered(o, withdrawnAt) by {
      UnregisterMeans(unregisterId, x.serviceId, x.instanceId, withdrawnAt);
    }
    ReportedUntilExpiry(before, o, withdrawnAt, after, id, s, i, at, reply, x);
  }
}
