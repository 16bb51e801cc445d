/** The SD daemon (services/someip_sd_cpp/src/sd_daemon.cpp): its registry, updated in place, the handling of
    one packet, and the serve loop over the datagrams that its two sockets deliver. */
module SdDaemon {
  import opened Bytes
  import opened SdWire
  import opened SdRegistry
  import SdCodec

  /** One turn of the serve loop: the time of its cleanup, and what each socket had to read, if anything. */
  datatype Round = Round(cleanupAt: nat, udp: Option<Datagram>, control: Option<Datagram>)

  function MeaningIfAny(d: Option<Datagram>): seq<Happening> {
    if d.Some? then [Meaning(d.value)] else []
  }

  function MeaningOfRound(r: Round): seq<Happening> {
    [Swept(r.cleanupAt)] + MeaningIfAny(r.udp) + MeaningIfAny(r.control)
  }

  function MeaningOfRounds(rounds: seq<Round>): seq<Happening>
    decreases |rounds|
  {
    if rounds == [] then [] else MeaningOfRounds(rounds[..|rounds| - 1]) + MeaningOfRound(rounds[|rounds| - 1])
  }

  /** The registry after the first n turns. */
  function RunRounds(reg: Registry, rounds: seq<Round>, n: nat): Registry
    requires n <= |rounds|
  {
    if n == 0 then reg else Run(RunRounds(reg, rounds, n - 1), MeaningOfRound(rounds[n - 1]))
  }

  /** A reply goes out on the socket that was read, and only if there was something to read. */
  ghost predicate RepliedIfAny(reg: Registry, d: Option<Datagram>, reply: Option<seq<byte>>) {
    if d.Some? then Replied(reg, d.value, reply) else reply == None
  }

  ghost predicate RoundReplied(reg: Registry, r: Round, replies: (Option<seq<byte>>, Option<seq<byte>>)) {
    && RepliedIfAny(Live(reg, r.cleanupAt), r.udp, replies.0)
    && RepliedIfAny(Run(Live(reg, r.cleanupAt), MeaningIfAny(r.udp)), r.control, replies.1)
  }

  /** The entries collected for a query, in the order of some walk through the map. */
  ghost predicate Collected(matches: seq<RegistryEntry>, keys: seq<u32>, reg: Registry, q: Query, rest: set<u32>) {
    && Enumerates(keys, MatchingKeys(reg, q) - rest)
    && |matches| == |keys|
    && forall i :: 0 <= i < |keys| ==> keys[i] in reg && matches[i] == reg[keys[i]]
  }

  method CollectMatches(reg: Registry, q: Query) returns (matches: seq<RegistryEntry>)
    ensures exists keys :: Collected(matches, keys, reg, q, {})
  {
    matches := [];
    ghost var keys: seq<u32> := [];
    var rest := reg.Keys;
    while rest != {}
      invariant rest <= reg.Keys
      invariant Collected(matches, keys, reg, q, rest)
      decreases |rest|
    {
      var k :| k in rest;
      var svc := reg[k];
      if svc.descriptor.serviceId != q.serviceId {
        SkipOne(reg, q, rest, k);
      } else if q.instanceId.Some? && svc.descriptor.instanceId != q.instanceId.value {
        SkipOne(reg, q, rest, k);
      } else {
        CollectOne(matches, keys, reg, q, rest, k);
        matches, keys := matches + [svc], keys + [k];
      }
      rest := rest - {k};
    }
    assert Collected(matches, keys, reg, q, {});
  }

  lemma SkipOne(reg: Registry, q: Query, rest: set<u32>, k: u32)
    requires k in reg && !Matches(reg[k].descriptor, q)
    ensures MatchingKeys(reg, q) - (rest - {k}) == MatchingKeys(reg, q) - rest
  {
  }

  lemma CollectOne(matches: seq<RegistryEntry>, keys: seq<u32>, reg: Registry, q: Query, rest: set<u32>, k: u32)
    requires Collected(matches, keys, reg, q, rest)
    requires rest <= reg.Keys && k in rest && Matches(reg[k].descriptor, q)
    ensures Collected(matches + [reg[k]], keys + [k], reg, q, rest - {k})
  {
    assert k !in keys;
    assert MatchingKeys(reg, q) - (rest - {k}) == MatchingKeys(reg, q) - rest + {k};
  }

  /** The list to be sent: the descriptors of all matching entries. */
  method ListMatches(reg: Registry, q: Query) returns (list: seq<ServiceDescriptor>)
    ensures Lists(list, reg, q)
  {
    var matches := CollectMatches(reg, q);
    ghost var keys :| Collected(matches, keys, reg, q, {});
    list := [];
    for i := 0 to |matches|
      invariant |list| == i && forall j :: 0 <= j < i ==> list[j] == matches[j].descriptor
    {
      list := list + [matches[i].descriptor];
    }
    assert MatchingKeys(reg, q) - {} == MatchingKeys(reg, q);
    assert ListedBy(list, keys, reg, q);
  }

  class SomeIpSdDaemon {
    var registry: Registry

    constructor ()
      ensures registry == map[]
    {
      registry := map[];
    }

    /** Goes through the map and erases what has expired. */
    method CleanupExpired(now: nat)
      modifies this
      ensures registry == Step(old(registry), Swept(now))
    {
      var rest := registry.Keys;
      while rest != {}
        invariant rest <= old(registry).Keys
        invariant registry == map k | k in old(registry) && (k in rest || now < old(registry)[k].expiresAtMs) :: old(registry)[k]
        decreases |rest|
      {
        var k :| k in rest;
        if registry[k].expiresAtMs <= now {
          registry := registry - {k};
        }
        rest := rest - {k};
      }
    }

    method AnswerQuery(requestId: u32, q: Query) returns (resp: SdPacket)
      ensures exists list :: Lists(list, registry, q) && resp == SdPacket(RESPONSE, requestId, OfferListPayload(list, REPLY_TTL))
    {
      var list := ListMatches(registry, q);
      var payload := SdCodec.BuildSdOfferPayloadList(list, REPLY_TTL);
      resp := SdPacket(RESPONSE, requestId, payload);
    }

    method Withdraw(requestId: u32, o: Offer, now: nat) returns (resp: SdPacket)
      requires o.ttl == 0
      modifies this
      ensures registry == Step(old(registry), Offered(o, now))
      ensures resp == SdPacket(RESPONSE, requestId, OfferPayload(o.descriptor, 0, true))
    {
      registry := registry - {MakeRegistryKey(o.descriptor.serviceId, o.descriptor.instanceId)};
      var payload := SdCodec.BuildSdOfferPayload(o.descriptor, 0, true);
      resp := SdPacket(RESPONSE, requestId, payload);
    }

    method Record(requestId: u32, o: Offer, now: nat) returns (resp: SdPacket)
      requires o.ttl > 0
      modifies this
      ensures registry == Step(old(registry), Offered(o, now))
      ensures resp == SdPacket(RESPONSE, requestId, OfferPayload(o.descriptor, o.ttl, false))
    {
      var entry := RegistryEntry(o.descriptor, now + o.ttl * 1000);
      registry := registry[MakeRegistryKey(o.descriptor.serviceId, o.descriptor.instanceId) := entry];
      var payload := SdCodec.BuildSdOfferPayload(o.descriptor, o.ttl, false);
      resp := SdPacket(RESPONSE, requestId, payload);
    }

    method HandlePacket(req: SdPacket, now: nat) returns (resp: SdPacket)
      modifies this
      ensures registry == Step(old(registry), MeaningOf(req, now))
      ensures Answers(old(registry), req, resp)
    {
      if req.messageType != REQUEST {
        return SdPacket(ERROR, req.requestId, []);
      }
      var query := SdCodec.ParseSdFindPayload(req.payload);
      if query.Some? {
        assert RequestOf(req) == Lookup(query.value);
        resp := AnswerQuery(req.requestId, query.value);
        ghost var list :| Lists(list, registry, query.value) && resp == SdPacket(RESPONSE, req.requestId, OfferListPayload(list, REPLY_TTL));
        assert ListReply(registry, req, resp, query.value, list);
        return;
      }
      var offer := SdCodec.ParseSdOfferFirst(req.payload);
      if offer.None? {
        return SdPacket(ERROR, req.requestId, []);
      }
      assert RequestOf(req) == Announce(offer.value);
      if offer.value.ttl == 0 {
        resp := Withdraw(req.requestId, offer.value, now);
      } else {
        resp := Record(req.requestId, offer.value, now);
      }
    }

    /** Reads one datagram into the buffer and answers it; what cannot be decoded is dropped silently. */
    method ProcessDatagram(d: Datagram) returns (reply: Option<seq<byte>>)
      modifies this
      ensures registry == Step(old(registry), Meaning(d))
      ensures Replied(old(registry), d, reply)
    {
      var buffer := Received(d.data);
      if |buffer| == 0 {
        return None;
      }
      var req := SdCodec.DecodePacket(buffer);
      if req.Failure? {
        return None;
      }
      var resp := HandlePacket(req.value, d.at);
      var out := SdCodec.EncodePacket(resp);
      reply := Some(out);
    }

    method ProcessIfAny(d: Option<Datagram>) returns (reply: Option<seq<byte>>)
      modifies this
      ensures registry == Run(old(registry), MeaningIfAny(d))
      ensures RepliedIfAny(old(registry), d, reply)
    {
      reply := None;
      if d.Some? {
        reply := ProcessDatagram(d.value);
        RunOne(old(registry), Meaning(d.value));
      }
    }

    /** One turn: cleanup first, then the UDP socket, then the control socket. */
    method ServeRound(r: Round) returns (replies: (Option<seq<byte>>, Option<seq<byte>>))
      modifies this
      ensures registry == Run(old(registry), MeaningOfRound(r))
      ensures RoundReplied(old(registry), r, replies)
    {
      CleanupExpired(r.cleanupAt);
      var first := ProcessIfAny(r.udp);
      var second := ProcessIfAny(r.control);
      RoundRuns(old(registry), r);
      replies := (first, second);
    }

    /** The serve loop while `running_` holds, for as many turns as there are rounds. */
    method ServeLoop(rounds: seq<Round>) returns (replies: seq<(Option<seq<byte>>, Option<seq<byte>>)>)
      modifies this
      ensures registry == RunRounds(old(registry), rounds, |rounds|)
      ensures |replies| == |rounds| && forall i :: 0 <= i < |rounds| ==> RoundReplied(RunRounds(old(registry), rounds, i), rounds[i], replies[i])
    {
      replies := [];
      for i := 0 to |rounds|
        invariant registry == RunRounds(old(registry), rounds, i)
        invariant |replies| == i
        invariant forall j :: 0 <= j < i ==> RoundReplied(RunRounds(old(registry), rounds, j), rounds[j], replies[j])
      {
        var r := ServeRound(rounds[i]);
        replies := replies + [r];
      }
    }
  }

  lemma RunOne(reg: Registry, h: Happening)
    ensures Run(reg, [h]) == Step(reg, h)
  {
    assert [h][..0] == [];
    assert Run(reg, []) == reg;
  }

  lemma RoundRuns(reg: Registry, r: Round)
    ensures Run(reg, MeaningOfRound(r)) ==
            Run(Run(Step(reg, Swept(r.cleanupAt)), MeaningIfAny(r.udp)), MeaningIfAny(r.control))
  {
    RunAppend(reg, [Swept(r.cleanupAt)] + MeaningIfAny(r.udp), MeaningIfAny(r.control));
    RunAppend(reg, [Swept(r.cleanupAt)], MeaningIfAny(r.udp));
    RunOne(reg, Swept(r.cleanupAt));
  }

  /** Serving turn after turn is one run over everything that happened in them. */
  lemma {:induction false} RoundsAreOneRun(reg: Registry, rounds: seq<Round>)
    ensures RunRounds(reg, rounds, |rounds|) == Run(reg, MeaningOfRounds(rounds))
    decreases |rounds|
  {
    if rounds != [] {
      var n := |rounds| - 1;
      RoundsAreOneRun(reg, rounds[..n]);
      assert RunRounds(reg, rounds, n) == Run(reg, MeaningOfRounds(rounds[..n])) by {
        SameRounds(reg, rounds[..n], rounds, n);
      }
      LastRound(reg, rounds);
    }
  }

  lemma LastRound(reg: Registry, rounds: seq<Round>)
    requires rounds != []
    requires RunRounds(reg, rounds, |rounds| - 1) == Run(reg, MeaningOfRounds(rounds[..|rounds| - 1]))
    ensures RunRounds(reg, rounds, |rounds|) == Run(reg, MeaningOfRounds(rounds))
  {
    var n := |rounds| - 1;
    RunAppend(reg, MeaningOfRounds(rounds[..n]), MeaningOfRound(rounds[n]));
  }

  lemma {:induction false} SameRounds(reg: Registry, a: seq<Round>, b: seq<Round>, n: nat)
    requires n <= |a| && n <= |b| && a[..n] == b[..n]
    ensures RunRounds(reg, a, n) == RunRounds(reg, b, n)
  {
    if n > 0 {
      assert a[n - 1] == a[..n][n - 1] && b[n - 1] == b[..n][n - 1];
      assert a[..n - 1] == a[..n][..n - 1] && b[..n - 1] == b[..n][..n - 1];
      SameRounds(reg, a, b, n - 1);
    }
  }

  /** Whatever a turn starts from, no packet handled in it finds an entry that had expired by the turn's
      cleanup, what the first socket brought included: with a clock that does not run backwards within the
      turn, a reported service is never staler than the time since that cleanup. */
  lemma RoundStaleness(reg: Registry, r: Round, key: u32)
    requires r.udp.Some? ==> r.cleanupAt <= r.udp.value.at
    ensures var first := Live(reg, r.cleanupAt); key in first ==> first[key].expiresAtMs > r.cleanupAt
    ensures var second := Run(Live(reg, r.cleanupAt), MeaningIfAny(r.udp));
            key in second ==> second[key].expiresAtMs > r.cleanupAt
  {
    if r.udp.Some? {
      RunOne(Live(reg, r.cleanupAt), Meaning(r.udp.value));
      StepKeepsFresh(Live(reg, r.cleanupAt), Meaning(r.udp.value), key, r.cleanupAt);
    }
  }

  lemma StepKeepsFresh(reg: Registry, h: Happening, key: u32, since: nat)
    requires key in reg ==> reg[key].expiresAtMs > since
    requires since <= h.time
    ensures key in Step(reg, h) ==> Step(reg, h)[key].expiresAtMs > since
  {
  }
}
