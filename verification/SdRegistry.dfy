/** The registry of the SD daemon as a function of what happened: which events change it and how, and what
    a request is answered with. Whole runs are folds over events; the registry at the end of any run is
    characterised by the history alone. */
module SdRegistry {
  import opened Bytes
  import opened SdWire

  datatype RegistryEntry = RegistryEntry(descriptor: ServiceDescriptor, expiresAtMs: nat)

  type Registry = map<u32, RegistryEntry>

  function MakeRegistryKey(serviceId: u16, instanceId: u16): u32 {
    (serviceId as int) * 0x1_0000 + instanceId as int
  }

  /** Two services share a key only if they are the same, and there is no key without a service. */
  lemma RegistryKeyIsFaithful(s: u16, i: u16, s': u16, i': u16, key: u32)
    ensures MakeRegistryKey(s, i) == MakeRegistryKey(s', i') <==> s == s' && i == i'
    ensures key / 0x1_0000 < 0x1_0000 && MakeRegistryKey(key / 0x1_0000, key % 0x1_0000) == key
  {
  }

  function KeyOf(d: ServiceDescriptor): u32 {
    MakeRegistryKey(d.serviceId, d.instanceId)
  }

  function Get(reg: Registry, key: u32): Option<RegistryEntry> {
    if key in reg then Some(reg[key]) else None
  }

  /** The entries that have not expired at time `now`. */
  function Live(reg: Registry, now: nat): Registry {
    map k | k in reg && now < reg[k].expiresAtMs :: reg[k]
  }

  // ---- requests

  datatype Request = Rejected | Lookup(query: Query) | Announce(offer: Offer)

  function RequestOf(p: SdPacket): Request {
    if p.messageType != REQUEST then Rejected
    else if ParseFind(p.payload).Some? then Lookup(ParseFind(p.payload).value)
    else if ParseOffer(p.payload).Some? then Announce(ParseOffer(p.payload).value)
    else Rejected
  }

  /** What an event means to the registry. */
  datatype Happening = Swept(time: nat) | Offered(offer: Offer, time: nat) | Ignored(time: nat)

  function MeaningOf(p: SdPacket, now: nat): Happening {
    if RequestOf(p).Announce? then Offered(RequestOf(p).offer, now) else Ignored(now)
  }

  /** An offer with TTL 0 withdraws the service; any other offer replaces whatever was known of it. */
  function Step(reg: Registry, h: Happening): Registry {
    match h
    case Swept(time) => Live(reg, time)
    case Offered(o, time) =>
      if o.ttl == 0 then reg - {KeyOf(o.descriptor)}
      else reg[KeyOf(o.descriptor) := RegistryEntry(o.descriptor, time + o.ttl * 1000)]
    case Ignored(_) => reg
  }

  predicate Matches(d: ServiceDescriptor, q: Query) {
    d.serviceId == q.serviceId && (q.instanceId == None || q.instanceId == Some(d.instanceId))
  }

  function MatchingKeys(reg: Registry, q: Query): set<u32> {
    set k | k in reg && Matches(reg[k].descriptor, q)
  }

  /** `keys` goes through the set, in some order, without repeats. */
  ghost predicate Enumerates(keys: seq<u32>, s: set<u32>) {
    && (forall i, j :: 0 <= i < j < |keys| ==> keys[i] != keys[j])
    && (forall k: u32 :: k in keys <==> k in s)
  }

  ghost predicate ListedBy(list: seq<ServiceDescriptor>, keys: seq<u32>, reg: Registry, q: Query) {
    && Enumerates(keys, MatchingKeys(reg, q))
    && |list| == |keys|
    && forall i :: 0 <= i < |list| ==> keys[i] in reg && list[i] == reg[keys[i]].descriptor
  }

  /** The list holds each matching service once and nothing else, in whatever order. */
  ghost predicate Lists(list: seq<ServiceDescriptor>, reg: Registry, q: Query) {
    exists keys :: ListedBy(list, keys, reg, q)
  }

  /** TTL of the entries in a reply to a query. */
  const REPLY_TTL: u32 := 3

  ghost predicate Answers(reg: Registry, p: SdPacket, resp: SdPacket) {
    match RequestOf(p)
    case Rejected => resp == SdPacket(ERROR, p.requestId, [])
    case Announce(o) => resp == SdPacket(RESPONSE, p.requestId, OfferPayload(o.descriptor, o.ttl, o.ttl == 0))
    case Lookup(q) => exists list :: ListReply(reg, p, resp, q, list)
  }

  ghost predicate ListReply(reg: Registry, p: SdPacket, resp: SdPacket, q: Query, list: seq<ServiceDescriptor>) {
    Lists(list, reg, q) && resp == SdPacket(RESPONSE, p.requestId, OfferListPayload(list, REPLY_TTL))
  }

  // ---- datagrams and runs

  const RECEIVE_BUFFER := 4096

  /** A longer datagram is cut to the buffer. */
  function Received(datagram: seq<byte>): (r: seq<byte>)
    ensures |r| <= RECEIVE_BUFFER && r <= datagram
  {
    if |datagram| > RECEIVE_BUFFER then datagram[..RECEIVE_BUFFER] else datagram
  }

  datatype Datagram = Datagram(data: seq<byte>, at: nat)

  function Meaning(d: Datagram): (h: Happening)
    ensures h.time == d.at
  {
    var p := Decode(Received(d.data));
    if p.Success? then MeaningOf(p.value, d.at) else Ignored(d.at)
  }

  /** What goes out in return: nothing for what cannot be decoded. */
  ghost predicate Replied(reg: Registry, d: Datagram, reply: Option<seq<byte>>) {
    var p := Decode(Received(d.data));
    if p.Failure? then reply == None
    else exists resp :: Answers(reg, p.value, resp) && reply == Some(Encode(resp))
  }

  function Run(reg: Registry, events: seq<Happening>): Registry
    decreases |events|
  {
    if events == [] then reg else Step(Run(reg, events[..|events| - 1]), events[|events| - 1])
  }

  lemma {:induction false} RunAppend(reg: Registry, a: seq<Happening>, b: seq<Happening>)
    ensures Run(reg, a + b) == Run(Run(reg, a), b)
    decreases |b|
  {
    if b == [] {
      assert a + b == a;
    } else {
      RunAppend(reg, a, b[..|b| - 1]);
      assert (a + b)[..|a + b| - 1] == a + b[..|b| - 1];
    }
  }

  // ---- the registry is its history

  predicate Concerns(o: Offer, s: u16, i: u16) {
    o.descriptor.serviceId == s && o.descriptor.instanceId == i
  }

  predicate Stores(h: Happening, s: u16, i: u16, entry: RegistryEntry) {
    h.Offered? && Concerns(h.offer, s, i) && h.offer.ttl > 0
    && entry == RegistryEntry(h.offer.descriptor, h.time + h.offer.ttl * 1000)
  }

  /** A later offer or stop-offer for the service, or a cleanup at or after the entry's expiry. */
  predicate Drops(h: Happening, s: u16, i: u16, entry: RegistryEntry) {
    match h
    case Swept(time) => entry.expiresAtMs <= time
    case Offered(o, _) => Concerns(o, s, i)
    case Ignored(_) => false
  }

  ghost predicate HeldSince(events: seq<Happening>, k: nat, s: u16, i: u16, entry: RegistryEntry) {
    && k < |events| && Stores(events[k], s, i, entry)
    && forall j :: k < j < |events| ==> !Drops(events[j], s, i, entry)
  }

  ghost predicate Held(events: seq<Happening>, s: u16, i: u16, entry: RegistryEntry) {
    exists k :: HeldSince(events, k, s, i, entry)
  }

  /** The map of the daemon is the last-writer-wins reading of the history over (service, instance). */
  lemma {:induction false} LastWriterWins(events: seq<Happening>, s: u16, i: u16, entry: RegistryEntry)
    ensures Get(Run(map[], events), MakeRegistryKey(s, i)) == Some(entry) <==> Held(events, s, i, entry)
    decreases |events|
  {
    if events != [] {
      var n := |events| - 1;
      LastWriterWins(events[..n], s, i, entry);
      StepChanges(Run(map[], events[..n]), events[n], s, i, entry);
      HeldStep(events, s, i, entry);
    }
  }

  lemma StepChanges(reg: Registry, h: Happening, s: u16, i: u16, entry: RegistryEntry)
    ensures Get(Step(reg, h), MakeRegistryKey(s, i)) == Some(entry) <==>
            Stores(h, s, i, entry) || (Get(reg, MakeRegistryKey(s, i)) == Some(entry) && !Drops(h, s, i, entry))
  {
    var key := MakeRegistryKey(s, i);
    match h
    case Swept(time) =>
    case Offered(o, time) =>
      var d := o.descriptor;
      RegistryKeyIsFaithful(s, i, d.serviceId, d.instanceId, 0);
      assert KeyOf(d) == key <==> Concerns(o, s, i);
      OfferChanges(reg, o, time, key);
    case Ignored(_) =>
  }

  lemma OfferChanges(reg: Registry, o: Offer, time: nat, key: u32)
    ensures Get(Step(reg, Offered(o, time)), key) ==
            if KeyOf(o.descriptor) != key then Get(reg, key)
            else if o.ttl == 0 then None
            else Some(RegistryEntry(o.descriptor, time + o.ttl * 1000))
  {
  }

  lemma HeldStep(events: seq<Happening>, s: u16, i: u16, entry: RegistryEntry)
    requires events != []
    ensures var n := |events| - 1;
            Held(events, s, i, entry) <==>
            Stores(events[n], s, i, entry) || (Held(events[..n], s, i, entry) && !Drops(events[n], s, i, entry))
  {
    var n := |events| - 1;
    if Stores(events[n], s, i, entry) {
      assert HeldSince(events, n, s, i, entry);
    }
    if Held(events[..n], s, i, entry) && !Drops(events[n], s, i, entry) {
      var k :| HeldSince(events[..n], k, s, i, entry);
      assert HeldSince(events, k, s, i, entry);
    }
    if Held(events, s, i, entry) && !Stores(events[n], s, i, entry) {
      var k :| HeldSince(events, k, s, i, entry);
      assert HeldSince(events[..n], k, s, i, entry);
    }
  }

  predicate SpokenOf(events: seq<Happening>, s: u16, i: u16) {
    exists j :: 0 <= j < |events| && events[j].Offered? && Concerns(events[j].offer, s, i)
  }

  predicate SweptFrom(events: seq<Happening>, time: nat) {
    exists j :: 0 <= j < |events| && events[j].Swept? && events[j].time >= time
  }

  /** The last offer for a service decides: the service is known from then on until the first cleanup at or
      after its expiry, and not at all if the TTL was 0. */
  lemma {:induction false} LastOfferDecides(before: seq<Happening>, o: Offer, at: nat, after: seq<Happening>)
    requires !SpokenOf(after, o.descriptor.serviceId, o.descriptor.instanceId)
    ensures Get(Run(map[], before + [Offered(o, at)] + after), KeyOf(o.descriptor)) ==
            if o.ttl > 0 && !SweptFrom(after, at + o.ttl * 1000)
            then Some(RegistryEntry(o.descriptor, at + o.ttl * 1000)) else None
    decreases |after|
  {
    var start := before + [Offered(o, at)];
    if after == [] {
      assert start + after == start && start[..|start| - 1] == before;
      OfferChanges(Run(map[], before), o, at, KeyOf(o.descriptor));
    } else {
      var n := |after| - 1;
      var d, expiry := o.descriptor, at + o.ttl * 1000;
      assert (start + after)[..|start + after| - 1] == start + after[..n];
      SpokenSnoc(after, d.serviceId, d.instanceId, expiry);
      LastOfferDecides(before, o, at, after[..n]);
      OtherChanges(Run(map[], start + after[..n]), after[n], d);
    }
  }

  lemma SpokenSnoc(events: seq<Happening>, s: u16, i: u16, time: nat)
    requires events != [] && !SpokenOf(events, s, i)
    ensures var n := |events| - 1;
            && !SpokenOf(events[..n], s, i)
            && !(events[n].Offered? && Concerns(events[n].offer, s, i))
            && (SweptFrom(events, time) <==> SweptFrom(events[..n], time) || (events[n].Swept? && events[n].time >= time))
  {
    var n := |events| - 1;
    if SweptFrom(events[..n], time) {
      var j :| 0 <= j < n && events[..n][j].Swept? && events[..n][j].time >= time;
      assert events[j] == events[..n][j];
    }
    if SweptFrom(events, time) {
      var j :| 0 <= j < |events| && events[j].Swept? && events[j].time >= time;
      assert j < n ==> events[..n][j] == events[j];
    }
  }

  lemma OtherChanges(reg: Registry, h: Happening, d: ServiceDescriptor)
    requires !(h.Offered? && Concerns(h.offer, d.serviceId, d.instanceId))
    ensures Get(Step(reg, h), KeyOf(d)) ==
            if h.Swept? && KeyOf(d) in reg && reg[KeyOf(d)].expiresAtMs <= h.time then None else Get(reg, KeyOf(d))
  {
    if h.Offered? {
      var x := h.offer.descriptor;
      RegistryKeyIsFaithful(d.serviceId, d.instanceId, x.serviceId, x.instanceId, 0);
      OfferChanges(reg, h.offer, h.time, KeyOf(d));
    }
  }

  /** Every entry of the registry was stored by some offer. */
  lemma HeldByWhom(events: seq<Happening>, key: u32) returns (s: u16, i: u16, k: nat)
    requires key in Run(map[], events)
    ensures key == MakeRegistryKey(s, i) && HeldSince(events, k, s, i, Run(map[], events)[key])
  {
    RegistryKeyIsFaithful(0, 0, 0, 0, key);
    s, i := key / 0x1_0000, key % 0x1_0000;
    LastWriterWins(events, s, i, Run(map[], events)[key]);
    k :| HeldSince(events, k, s, i, Run(map[], events)[key]);
  }

  /** The offer, if any, has a descriptor that further trips over the wire do not change. */
  predicate Normal(h: Happening) {
    h.Offered? ==> Normalise(h.offer.descriptor) == h.offer.descriptor
  }

  lemma MeaningIsNormal(d: Datagram)
    ensures Normal(Meaning(d))
  {
  }

  /** Every key agrees with its descriptor; descriptors are normal. */
  lemma KeysAgree(events: seq<Happening>, key: u32)
    requires key in Run(map[], events) && forall h :: h in events ==> Normal(h)
    ensures var d := Run(map[], events)[key].descriptor; KeyOf(d) == key && Normalise(d) == d
  {
    var s, i, k := HeldByWhom(events, key);
    assert Normal(events[k]);
  }

  // ---- staleness

  ghost predicate ClockMonotone(events: seq<Happening>) {
    forall i, j :: 0 <= i < j < |events| ==> events[i].time <= events[j].time
  }

  /** With a monotone clock, whatever the registry holds expires after every cleanup that has been made. */
  lemma BoundedStaleness(events: seq<Happening>, key: u32, c: nat)
    requires ClockMonotone(events) && key in Run(map[], events)
    requires c < |events| && events[c].Swept?
    ensures Run(map[], events)[key].expiresAtMs > events[c].time
  {
    var s, i, k := HeldByWhom(events, key);
    if k < c {
      assert !Drops(events[c], s, i, Run(map[], events)[key]);
    } else {
      assert events[c].time <= events[k].time;
    }
  }

  // ---- listings

  lemma {:induction false} EnumerationSize(keys: seq<u32>, s: set<u32>)
    requires Enumerates(keys, s)
    ensures |keys| == |s|
    decreases |keys|
  {
    if keys == [] {
      assert s == {};
    } else {
      var n := |keys| - 1;
      assert keys == keys[..n] + [keys[n]];
      EnumerationSize(keys[..n], s - {keys[n]});
    }
  }

  /** A listing of a registry in which keys and descriptors agree. */
  lemma ListingHas(list: seq<ServiceDescriptor>, reg: Registry, q: Query, d: ServiceDescriptor)
    requires Lists(list, reg, q) && forall k :: k in reg ==> KeyOf(reg[k].descriptor) == k
    ensures |list| == |MatchingKeys(reg, q)|
    ensures d in list <==> Matches(d, q) && KeyOf(d) in reg && reg[KeyOf(d)].descriptor == d
    ensures forall i, j :: 0 <= i < j < |list| ==> KeyOf(list[i]) != KeyOf(list[j])
  {
    var keys :| ListedBy(list, keys, reg, q);
    EnumerationSize(keys, MatchingKeys(reg, q));
    if Matches(d, q) && KeyOf(d) in reg && reg[KeyOf(d)].descriptor == d {
      assert KeyOf(d) in keys;
      var i :| 0 <= i < |keys| && keys[i] == KeyOf(d);
      assert list[i] == d;
    }
    if d in list {
      var i :| 0 <= i < |list| && list[i] == d;
      assert keys[i] in keys;
    }
  }
}
