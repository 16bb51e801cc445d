/** The client side (services/someip_sd_cpp/src/sd_api.cpp): request ids, the verdict on a control reply, and
    the loop that gathers discovery replies. What the network delivers is a parameter of each call. */
module SdClient {
  import opened Bytes
  import opened SdWire
  import SdCodec
  import opened SdRegistry

  datatype ControlError =
    | Timeout
    | Undecodable(reason: DecodeError)
    | RequestIdMismatch
    | UnexpectedResponseType
    | PayloadRejected

  /** A C++ cast of a signed value to 32 unsigned bits. */
  function ToU32(i: int): u32 {
    i % 0x1_0000_0000
  }

  function RegisterRequest(requestId: u32, d: ServiceDescriptor, ttlSec: int): SdPacket {
    SdPacket(REQUEST, requestId, OfferPayload(d, ToU32(ttlSec), false))
  }

  function UnregisterRequest(requestId: u32, serviceId: u16, instanceId: u16): SdPacket {
    SdPacket(REQUEST, requestId, OfferPayload(DefaultDescriptor(serviceId, instanceId), 0, true))
  }

  function FindRequest(requestId: u32, serviceId: u16, instanceId: Option<u16>): SdPacket {
    SdPacket(REQUEST, requestId, FindPayload(serviceId, instanceId))
  }

  function ControlResponse(arrived: Option<seq<byte>>): Result<SdPacket, ControlError> {
    if arrived.None? || arrived.value == [] then Failure(Timeout)
    else
      var p := Decode(Received(arrived.value));
      if p.Failure? then Failure(Undecodable(p.error)) else Success(p.value)
  }

  /** What a control call makes of the datagram that came back, if one did: None is success. */
  function Verdict(requestId: u32, arrived: Option<seq<byte>>): Option<ControlError> {
    var r := ControlResponse(arrived);
    if r.Failure? then Some(r.error)
    else if r.value.requestId != requestId then Some(RequestIdMismatch)
    else if r.value.messageType != RESPONSE then Some(UnexpectedResponseType)
    else if ParseOffer(r.value.payload).None? then Some(PayloadRejected)
    else None
  }

  // ---- discovery

  /** The offers a datagram contributes to the discovery with the given id. */
  function OffersFor(requestId: u32, datagram: seq<byte>): seq<ServiceDescriptor> {
    var p := Decode(Received(datagram));
    if p.Success? && p.value.requestId == requestId && p.value.messageType == RESPONSE && ParseOffers(p.value.payload).Some?
    then ParseOffers(p.value.payload).value
    else []
  }

  function OfferReader(requestId: u32): seq<byte> -> seq<ServiceDescriptor> {
    datagram => OffersFor(requestId, datagram)
  }

  function Gather(read: seq<byte> -> seq<ServiceDescriptor>, arrivals: seq<seq<byte>>): seq<ServiceDescriptor>
    decreases |arrivals|
  {
    if arrivals == [] then []
    else Gather(read, arrivals[..|arrivals| - 1]) + read(arrivals[|arrivals| - 1])
  }

  /** All offers in proper replies, in order of arrival. */
  function Gathered(requestId: u32, arrivals: seq<seq<byte>>): seq<ServiceDescriptor> {
    Gather(OfferReader(requestId), arrivals)
  }

  predicate SameTriple(a: ServiceDescriptor, b: ServiceDescriptor) {
    a.serviceId == b.serviceId && a.instanceId == b.instanceId && a.port == b.port
  }

  predicate Seen(d: ServiceDescriptor, s: seq<ServiceDescriptor>) {
    exists i :: 0 <= i < |s| && SameTriple(s[i], d)
  }

  /** Of every (service, instance, port) the first in order of arrival. */
  function FirstOfEach(s: seq<ServiceDescriptor>): seq<ServiceDescriptor>
    decreases |s|
  {
    if s == [] then []
    else
      var n := |s| - 1;
      FirstOfEach(s[..n]) + if Seen(s[n], s[..n]) then [] else [s[n]]
  }

  function Discovered(requestId: u32, arrivals: seq<seq<byte>>): seq<ServiceDescriptor> {
    FirstOfEach(Gathered(requestId, arrivals))
  }

  function DecodeFailure(datagram: seq<byte>): Option<DecodeError> {
    if datagram == [] then None
    else
      var p := Decode(Received(datagram));
      if p.Failure? then Some(p.error) else None
  }

  function DecodeFailures(arrivals: seq<seq<byte>>): (r: seq<Option<DecodeError>>)
    ensures |r| == |arrivals| && forall i :: 0 <= i < |r| ==> r[i] == DecodeFailure(arrivals[i])
  {
    seq(|arrivals|, i requires 0 <= i < |arrivals| => DecodeFailure(arrivals[i]))
  }

  function LastOf(s: seq<Option<DecodeError>>): Option<DecodeError>
    decreases |s|
  {
    if s == [] then None else if s[|s| - 1].Some? then s[|s| - 1] else LastOf(s[..|s| - 1])
  }

  /** The last complaint; none for empty datagrams or replies to something else. */
  function LastFailure(arrivals: seq<seq<byte>>): Option<DecodeError> {
    LastOf(DecodeFailures(arrivals))
  }

  /** The triple packed into 64 bits. */
  function DedupKey(d: ServiceDescriptor): nat {
    (d.serviceId as int) * 0x1_0000_0000_0000 + (d.instanceId as int) * 0x1_0000_0000 + d.port as int
  }

  lemma DedupKeyIsFaithful(a: ServiceDescriptor, b: ServiceDescriptor)
    ensures DedupKey(a) == DedupKey(b) <==> SameTriple(a, b)
    ensures DedupKey(a) < 0x1_0000_0000_0000_0000
  {
    DedupKeyParts(a);
    DedupKeyParts(b);
  }

  lemma DedupKeyParts(d: ServiceDescriptor)
    ensures DedupKey(d) < 0x1_0000_0000_0000_0000
    ensures DedupKey(d) / 0x1_0000_0000_0000 == d.serviceId
    ensures DedupKey(d) % 0x1_0000_0000_0000 / 0x1_0000_0000 == d.instanceId
    ensures DedupKey(d) % 0x1_0000_0000_0000 % 0x1_0000_0000 == d.port
  {
    var low: nat := (d.instanceId as int) * 0x1_0000_0000 + d.port as int;
    DivModUnique(DedupKey(d), 0x1_0000_0000_0000, d.serviceId, low);
    DivModUnique(low, 0x1_0000_0000, d.instanceId, d.port);
  }

  function KeysOf(s: seq<ServiceDescriptor>): set<nat>
    decreases |s|
  {
    if s == [] then {} else KeysOf(s[..|s| - 1]) + {DedupKey(s[|s| - 1])}
  }

  /** The set of packed keys tells what has been seen. */
  lemma {:induction false} SeenByKey(d: ServiceDescriptor, s: seq<ServiceDescriptor>)
    ensures DedupKey(d) in KeysOf(s) <==> Seen(d, s)
    decreases |s|
  {
    if s != [] {
      var n := |s| - 1;
      SeenByKey(d, s[..n]);
      DedupKeyIsFaithful(s[n], d);
      assert s == s[..n] + [s[n]];
      SeenSnoc(d, s[..n], s[n]);
    }
  }

  lemma FirstOfEachSnoc(s: seq<ServiceDescriptor>, d: ServiceDescriptor)
    ensures FirstOfEach(s + [d]) == FirstOfEach(s) + if Seen(d, s) then [] else [d]
    ensures KeysOf(s + [d]) == KeysOf(s) + {DedupKey(d)}
  {
    assert (s + [d])[..|s|] == s;
  }

  lemma GatheredSnoc(requestId: u32, arrivals: seq<seq<byte>>, x: seq<byte>)
    ensures Gathered(requestId, arrivals + [x]) == Gathered(requestId, arrivals) + OffersFor(requestId, x)
    ensures LastFailure(arrivals + [x]) == if DecodeFailure(x).Some? then DecodeFailure(x) else LastFailure(arrivals)
  {
    assert (arrivals + [x])[..|arrivals|] == arrivals;
    assert DecodeFailures(arrivals + [x])[..|arrivals|] == DecodeFailures(arrivals);
  }

  class SomeIpSdApi {
    var nextRequestId: u32

    constructor ()
      ensures nextRequestId == 1
    {
      nextRequestId := 1;
    }

    /** The counter wraps at 2^32. */
    method AllocateRequestId() returns (id: u32)
      modifies this
      ensures id == old(nextRequestId) && nextRequestId == (id + 1) % 0x1_0000_0000
    {
      id := nextRequestId;
      nextRequestId := if id == 0xFFFF_FFFF then 0 else id + 1;
    }

    static method DoControlRequest(req: SdPacket, arrived: Option<seq<byte>>) returns (sent: seq<byte>, r: Result<SdPacket, ControlError>)
      ensures sent == Encode(req) && r == ControlResponse(arrived)
    {
      sent := SdCodec.EncodePacket(req);
      if arrived.None? || arrived.value == [] {
        return sent, Failure(Timeout);
      }
      var p := SdCodec.DecodePacket(Received(arrived.value));
      r := if p.Success? then Success(p.value) else Failure(Undecodable(p.error));
    }

    /** The checks that registering and unregistering share. */
    static method CheckResponse(requestId: u32, resp: SdPacket) returns (error: Option<ControlError>)
      ensures error == if resp.requestId != requestId then Some(RequestIdMismatch)
                       else if resp.messageType != RESPONSE then Some(UnexpectedResponseType)
                       else if ParseOffer(resp.payload).None? then Some(PayloadRejected)
                       else None
    {
      if resp.requestId != requestId {
        return Some(RequestIdMismatch);
      }
      if resp.messageType != RESPONSE {
        return Some(UnexpectedResponseType);
      }
      var offer := SdCodec.ParseSdOfferFirst(resp.payload);
      error := if offer.None? then Some(PayloadRejected) else None;
    }

    method RegisterService(d: ServiceDescriptor, ttlSec: int, arrived: Option<seq<byte>>)
      returns (sent: seq<byte>, error: Option<ControlError>)
      modifies this
      ensures nextRequestId == (old(nextRequestId) + 1) % 0x1_0000_0000
      ensures sent == Encode(RegisterRequest(old(nextRequestId), d, ttlSec))
      ensures error == Verdict(old(nextRequestId), arrived)
    {
      var id := AllocateRequestId();
      var payload := SdCodec.BuildSdOfferPayload(d, ToU32(ttlSec), false);
      var r;
      sent, r := DoControlRequest(SdPacket(REQUEST, id, payload), arrived);
      if r.Failure? {
        return sent, Some(r.error);
      }
      error := CheckResponse(id, r.value);
    }

    method UnregisterService(serviceId: u16, instanceId: u16, arrived: Option<seq<byte>>)
      returns (sent: seq<byte>, error: Option<ControlError>)
      modifies this
      ensures nextRequestId == (old(nextRequestId) + 1) % 0x1_0000_0000
      ensures sent == Encode(UnregisterRequest(old(nextRequestId), serviceId, instanceId))
      ensures error == Verdict(old(nextRequestId), arrived)
    {
      var id := AllocateRequestId();
      var payload := SdCodec.BuildSdOfferPayload(DefaultDescriptor(serviceId, instanceId), 0, true);
      var r;
      sent, r := DoControlRequest(SdPacket(REQUEST, id, payload), arrived);
      if r.Failure? {
        return sent, Some(r.error);
      }
      error := CheckResponse(id, r.value);
    }

    /** One turn of the gathering loop up to the point where offers are at hand. */
    static method ReadReply(requestId: u32, datagram: seq<byte>) returns (offers: seq<ServiceDescriptor>, failure: Option<DecodeError>)
      ensures offers == OffersFor(requestId, datagram) && failure == DecodeFailure(datagram)
    {
      offers, failure := [], None;
      if |datagram| == 0 {
        return;
      }
      var p := SdCodec.DecodePacket(Received(datagram));
      if p.Failure? {
        return [], Some(p.error);
      }
      if p.value.requestId == requestId && p.value.messageType == RESPONSE {
        var ok, services := SdCodec.ParseSdOffers(p.value.payload);
        if ok {
          offers := services;
        }
      }
    }

    static method AddIfNew(list: seq<ServiceDescriptor>, dedup: set<nat>, d: ServiceDescriptor, ghost seen: seq<ServiceDescriptor>)
      returns (list': seq<ServiceDescriptor>, dedup': set<nat>)
      requires list == FirstOfEach(seen) && dedup == KeysOf(seen)
      ensures list' == FirstOfEach(seen + [d]) && dedup' == KeysOf(seen + [d])
    {
      SeenByKey(d, seen);
      FirstOfEachSnoc(seen, d);
      var key := DedupKey(d);
      list' := if key !in dedup then list + [d] else list;
      dedup' := dedup + {key};
    }

    /** Appends to the list what has not been seen before. */
    static method Accumulate(list: seq<ServiceDescriptor>, dedup: set<nat>, offers: seq<ServiceDescriptor>, ghost seen: seq<ServiceDescriptor>)
      returns (list': seq<ServiceDescriptor>, dedup': set<nat>)
      requires list == FirstOfEach(seen) && dedup == KeysOf(seen)
      ensures list' == FirstOfEach(seen + offers) && dedup' == KeysOf(seen + offers)
    {
      list', dedup' := list, dedup;
      ghost var before := seen;
      for i := 0 to |offers|
        invariant before == seen + offers[..i]
        invariant list' == FirstOfEach(before) && dedup' == KeysOf(before)
      {
        list', dedup' := AddIfNew(list', dedup', offers[i], before);
        before := before + [offers[i]];
      }
      assert before == seen + offers;
    }

    /** `arrivals` are the datagrams that come in before the deadline. */
    method DiscoverServices(serviceId: u16, instanceId: Option<u16>, arrivals: seq<seq<byte>>)
      returns (sent: seq<byte>, list: seq<ServiceDescriptor>, error: Option<DecodeError>)
      modifies this
      ensures nextRequestId == (old(nextRequestId) + 1) % 0x1_0000_0000
      ensures sent == Encode(FindRequest(old(nextRequestId), serviceId, instanceId))
      ensures list == Discovered(old(nextRequestId), arrivals)
      ensures error == LastFailure(arrivals)
    {
      var id := AllocateRequestId();
      var payload := SdCodec.BuildSdFindPayload(serviceId, instanceId);
      sent := SdCodec.EncodePacket(SdPacket(REQUEST, id, payload));
      list, error := Collect(id, arrivals);
    }

    /** One turn of the gathering loop. */
    static method TakeReply(requestId: u32, datagram: seq<byte>, list: seq<ServiceDescriptor>, dedup: set<nat>, error: Option<DecodeError>,
                            ghost before: seq<seq<byte>>)
      returns (list': seq<ServiceDescriptor>, dedup': set<nat>, error': Option<DecodeError>)
      requires list == FirstOfEach(Gathered(requestId, before)) && dedup == KeysOf(Gathered(requestId, before))
      requires error == LastFailure(before)
      ensures list' == FirstOfEach(Gathered(requestId, before + [datagram]))
      ensures dedup' == KeysOf(Gathered(requestId, before + [datagram]))
      ensures error' == LastFailure(before + [datagram])
    {
      var offers, failure := ReadReply(requestId, datagram);
      GatheredSnoc(requestId, before, datagram);
      list', dedup' := Accumulate(list, dedup, offers, Gathered(requestId, before));
      error' := if failure.Some? then failure else error;
    }

    static method Collect(requestId: u32, arrivals: seq<seq<byte>>) returns (list: seq<ServiceDescriptor>, error: Option<DecodeError>)
      ensures list == Discovered(requestId, arrivals) && error == LastFailure(arrivals)
    {
      list, error := [], None;
      var dedup: set<nat> := {};
      for i := 0 to |arrivals|
        invariant list == FirstOfEach(Gathered(requestId, arrivals[..i]))
        invariant dedup == KeysOf(Gathered(requestId, arrivals[..i]))
        invariant error == LastFailure(arrivals[..i])
      {
        list, dedup, error := TakeReply(requestId, arrivals[i], list, dedup, error, arrivals[..i]);
        assert arrivals[..i + 1] == arrivals[..i] + [arrivals[i]];
      }
      assert arrivals[..|arrivals|] == arrivals;
    }
  }

  // ---- what discovery returns

  predicate IsFirst(s: seq<ServiceDescriptor>, i: nat)
    requires i < |s|
  {
    !Seen(s[i], s[..i])
  }

  /** `at` names, in order, the positions of the first occurrences. */
  ghost predicate Picks(s: seq<ServiceDescriptor>, at: seq<nat>, r: seq<ServiceDescriptor>) {
    && |at| == |r|
    && (forall j :: 0 <= j < |at| ==> at[j] < |s| && r[j] == s[at[j]])
    && (forall j, k :: 0 <= j < k < |at| ==> at[j] < at[k])
    && (forall i {:trigger IsFirst(s, i)} :: 0 <= i < |s| ==> (i in at <==> IsFirst(s, i)))
  }

  /** The result is the arrival-order subsequence of first occurrences. */
  lemma {:induction false} FirstOfEachExact(s: seq<ServiceDescriptor>) returns (at: seq<nat>)
    ensures Picks(s, at, FirstOfEach(s))
    decreases |s|
  {
    if s == [] {
      at := [];
    } else {
      var n := |s| - 1;
      var earlier := FirstOfEachExact(s[..n]);
      at := if IsFirst(s, n) then earlier + [n] else earlier;
      PicksSnoc(s, earlier, FirstOfEach(s[..n]));
    }
  }

  lemma PicksSnoc(s: seq<ServiceDescriptor>, at: seq<nat>, r: seq<ServiceDescriptor>)
    requires s != [] && Picks(s[..|s| - 1], at, r)
    ensures var n := |s| - 1;
            if IsFirst(s, n) then Picks(s, at + [n], r + [s[n]]) else Picks(s, at, r)
  {
    var n := |s| - 1;
    var now := if IsFirst(s, n) then at + [n] else at;
    forall i {:trigger IsFirst(s, i)} | 0 <= i < |s|
      ensures i in now <==> IsFirst(s, i)
    {
      if i < n {
        assert s[..n][..i] == s[..i];
        assert i in at <==> IsFirst(s[..n], i);
      }
    }
  }

  /** No (service, instance, port) is reported twice, and none that was offered is missing. */
  lemma DiscoveredTriples(s: seq<ServiceDescriptor>, d: ServiceDescriptor)
    ensures forall j, k :: 0 <= j < k < |FirstOfEach(s)| ==> !SameTriple(FirstOfEach(s)[j], FirstOfEach(s)[k])
    ensures Seen(d, FirstOfEach(s)) <==> Seen(d, s)
  {
    var at := FirstOfEachExact(s);
    var r := FirstOfEach(s);
    forall j, k | 0 <= j < k < |r|
      ensures !SameTriple(r[j], r[k])
    {
      assert IsFirst(s, at[k]);
      assert s[..at[k]][at[j]] == s[at[j]];
    }
    SeenInFirsts(s, d);
  }

  lemma {:induction false} SeenInFirsts(s: seq<ServiceDescriptor>, d: ServiceDescriptor)
    ensures Seen(d, FirstOfEach(s)) <==> Seen(d, s)
    decreases |s|
  {
    if s != [] {
      var n := |s| - 1;
      SeenInFirsts(s[..n], d);
      SeenSnoc(d, s[..n], s[n]);
      assert s == s[..n] + [s[n]];
      SeenSnoc(d, FirstOfEach(s[..n]), s[n]);
      if Seen(s[n], s[..n]) {
        assert FirstOfEach(s) == FirstOfEach(s[..n]);
        if SameTriple(s[n], d) {
          SeenLike(s[n], d, s[..n]);
        }
      }
    }
  }

  lemma SeenSnoc(d: ServiceDescriptor, s: seq<ServiceDescriptor>, x: ServiceDescriptor)
    ensures Seen(d, s + [x]) <==> Seen(d, s) || SameTriple(x, d)
  {
    if Seen(d, s) {
      var i :| 0 <= i < |s| && SameTriple(s[i], d);
      assert (s + [x])[i] == s[i];
    }
    if SameTriple(x, d) {
      assert (s + [x])[|s|] == x;
    }
  }

  lemma SeenLike(x: ServiceDescriptor, d: ServiceDescriptor, s: seq<ServiceDescriptor>)
    requires Seen(x, s) && SameTriple(x, d)
    ensures Seen(d, s)
  {
    var i :| 0 <= i < |s| && SameTriple(s[i], x);
    assert SameTriple(s[i], d);
  }

  ghost predicate AllSeen(b: seq<ServiceDescriptor>, a: seq<ServiceDescriptor>) {
    forall i :: 0 <= i < |b| ==> Seen(b[i], a)
  }

  /** What brings nothing new may as well not have been there. */
  lemma {:induction false} OldNewsIgnored(a: seq<ServiceDescriptor>, b: seq<ServiceDescriptor>, c: seq<ServiceDescriptor>)
    requires AllSeen(b, a)
    ensures FirstOfEach(a + b + c) == FirstOfEach(a + c)
    decreases |b| + |c|
  {
    if c != [] {
      var n := |c| - 1;
      OldNewsIgnored(a, b, c[..n]);
      assert a + b + c == a + b + c[..n] + [c[n]];
      assert a + c == a + c[..n] + [c[n]];
      FirstOfEachSnoc(a + b + c[..n], c[n]);
      FirstOfEachSnoc(a + c[..n], c[n]);
      SeenWithout(a, b, c[..n], c[n]);
    } else if b != [] {
      var n := |b| - 1;
      OldNewsIgnored(a, b[..n], []);
      assert a + b + [] == a + b[..n] + [b[n]];
      assert a + b[..n] + [] == a + b[..n];
      FirstOfEachSnoc(a + b[..n], b[n]);
      SeenMore(b[n], a, b[..n]);
    } else {
      assert a + b + c == a + c;
    }
  }

  lemma SeenMore(d: ServiceDescriptor, a: seq<ServiceDescriptor>, b: seq<ServiceDescriptor>)
    requires Seen(d, a)
    ensures Seen(d, a + b)
  {
    var i :| 0 <= i < |a| && SameTriple(a[i], d);
    assert (a + b)[i] == a[i];
  }

  lemma SeenWithout(a: seq<ServiceDescriptor>, b: seq<ServiceDescriptor>, c: seq<ServiceDescriptor>, d: ServiceDescriptor)
    requires AllSeen(b, a)
    ensures Seen(d, a + b + c) <==> Seen(d, a + c)
  {
    if Seen(d, a + b + c) {
      var i :| 0 <= i < |a + b + c| && SameTriple((a + b + c)[i], d);
      if i < |a| {
        assert (a + c)[i] == a[i];
      } else if i < |a| + |b| {
        SeenLike(b[i - |a|], d, a);
        SeenMore(d, a, c);
      } else {
        assert (a + c)[i - |b|] == (a + b + c)[i];
      }
    }
    if Seen(d, a + c) {
      var i :| 0 <= i < |a + c| && SameTriple((a + c)[i], d);
      if i < |a| {
        assert (a + b + c)[i] == a[i];
      } else {
        assert (a + b + c)[i + |b|] == (a + c)[i];
      }
    }
  }

  lemma {:induction false} GatherAppend(read: seq<byte> -> seq<ServiceDescriptor>, a: seq<seq<byte>>, b: seq<seq<byte>>)
    ensures Gather(read, a + b) == Gather(read, a) + Gather(read, b)
    decreases |b|
  {
    if b == [] {
      assert a + b == a;
    } else {
      var n := |b| - 1;
      GatherAppend(read, a, b[..n]);
      assert (a + b)[..|a + b| - 1] == a + b[..n];
      Reassociate(Gather(read, a), Gather(read, b[..n]), read(b[n]));
    }
  }

  lemma Reassociate(a: seq<ServiceDescriptor>, b: seq<ServiceDescriptor>, c: seq<ServiceDescriptor>)
    ensures a + b + c == a + (b + c)
  {
  }

  /** A datagram that is not a proper reply, or that only repeats what came before it, leaves the list as it is. */
  lemma JunkAndDuplicatesIgnored(requestId: u32, before: seq<seq<byte>>, x: seq<byte>, after: seq<seq<byte>>)
    requires AllSeen(OffersFor(requestId, x), Gathered(requestId, before))
    ensures Discovered(requestId, before + [x] + after) == Discovered(requestId, before + after)
  {
    var read := OfferReader(requestId);
    GatherAppend(read, before + [x], after);
    GatherAppend(read, before, after);
    GatheredSnoc(requestId, before, x);
    OldNewsIgnored(Gather(read, before), OffersFor(requestId, x), Gather(read, after));
  }

  /** In particular a datagram received before brings nothing new. */
  lemma DuplicateIsOldNews(requestId: u32, before: seq<seq<byte>>, x: seq<byte>)
    requires x in before
    ensures AllSeen(OffersFor(requestId, x), Gathered(requestId, before))
  {
    var i :| 0 <= i < |before| && before[i] == x;
    var read := OfferReader(requestId);
    assert before == before[..i] + [x] + before[i + 1..];
    GatherAppend(read, before[..i] + [x], before[i + 1..]);
    GatheredSnoc(requestId, before[..i], x);
    SeenInside(Gather(read, before[..i]), OffersFor(requestId, x), Gather(read, before[i + 1..]));
  }

  lemma SeenInside(a: seq<ServiceDescriptor>, b: seq<ServiceDescriptor>, c: seq<ServiceDescriptor>)
    ensures AllSeen(b, a + b + c)
  {
    forall i | 0 <= i < |b|
      ensures Seen(b[i], a + b + c)
    {
      assert (a + b + c)[|a| + i] == b[i];
    }
  }

  /** A list without repeated triples is reported as it is. */
  lemma {:induction false} DistinctKept(s: seq<ServiceDescriptor>)
    requires forall i, j :: 0 <= i < j < |s| ==> !SameTriple(s[i], s[j])
    ensures FirstOfEach(s) == s
    decreases |s|
  {
    if s != [] {
      var n := |s| - 1;
      DistinctKept(s[..n]);
      assert s == s[..n] + [s[n]];
    }
  }
}
