/** What a client sends and what it makes of anything that arrives, by the bytes: when a call succeeds, which
    error it reports otherwise, and which services a discovery lists. Like `SdDatagrams`, without the parser
    and the printer. */
module SdVerdicts {
  import opened Bytes
  import opened SdWire
  import opened SdDatagrams
  import opened SdClient
  import opened SdRuns

  // ---- what is sent

  /** What the n-th call of a session sends, counted from 0. A TTL is an int; what does not fit 24 bits goes
      out as the largest that does. */
  ghost predicate Sends(n: nat, c: Call, sent: seq<byte>) {
    var session := (n + 1) % 0x1_0000;
    match c
    case Register(d, ttlSec, _) =>
      -0x8000_0000 <= ttlSec < 0x8000_0000 ==>
        sent == OfferFrame(session, 0x00, d, if 0 <= ttlSec <= 0xFF_FFFF then ttlSec else 0xFF_FFFF)
    case Unregister(s, i, _) => sent == OfferFrame(session, 0x00, ServiceDescriptor(s, i, 1, 0, Octets(127, 0, 0, 1), 0, "udp"), 0)
    case Discover(s, i, _) => sent == FindFrame(session, s, if i.Some? then i.value else 0xFFFF)
  }

  lemma SessionIds(n: nat)
    ensures IdOfCall(n) % 0x1_0000 == (n + 1) % 0x1_0000
  {
    var q, r := (n + 1) / 0x1_0000_0000, (n + 1) % 0x1_0000_0000;
    assert n + 1 == q * 0x1_0000_0000 + r;
    DivModUnique(n + 1, 0x1_0000, q * 0x1_0000 + r / 0x1_0000, r % 0x1_0000);
  }

  lemma SendsExact(n: nat, c: Call)
    ensures Sends(n, c, Encode(RequestOfCall(IdOfCall(n), c)))
  {
    var id, session: u16 := IdOfCall(n), (n + 1) % 0x1_0000;
    SessionIds(n);
    match c
    case Register(d, ttlSec, _) =>
      if -0x8000_0000 <= ttlSec < 0x8000_0000 {
        RegisterWritten(id, session, d, ttlSec);
      }
    case Unregister(s, i, _) => OfferWritten(id, session, 0x00, DefaultDescriptor(s, i), 0, true);
    case Discover(s, i, _) => FindWritten(id, session, s, i);
  }

  lemma RegisterWritten(id: u32, session: u16, d: ServiceDescriptor, ttlSec: int)
    requires session == id % 0x1_0000 && -0x8000_0000 <= ttlSec < 0x8000_0000
    ensures Encode(RegisterRequest(id, d, ttlSec)) == OfferFrame(session, 0x00, d, if 0 <= ttlSec <= 0xFF_FFFF then ttlSec else 0xFF_FFFF)
  {
    OfferWritten(id, session, 0x00, d, ToU32(ttlSec), false);
    TtlSent(ttlSec);
  }

  lemma TtlSent(ttlSec: int)
    requires -0x8000_0000 <= ttlSec < 0x8000_0000
    ensures (if ToU32(ttlSec) <= 0xFF_FFFF then ToU32(ttlSec) else 0xFF_FFFF) == if 0 <= ttlSec <= 0xFF_FFFF then ttlSec else 0xFF_FFFF
  {
  }

  // ---- control calls

  /** What registering and unregistering report, for anything that arrives or nothing. */
  function VerdictOn(id: nat, arrived: Option<seq<byte>>): Option<ControlError> {
    if arrived == None || arrived == Some([]) then Some(Timeout)
    else
      var x := Cut(arrived.value);
      if !SdFrame(x) then Some(Undecodable(FirstFault(x)))
      else if U16At(x, 10) != id then Some(RequestIdMismatch)
      else if x[14] != 0x80 then Some(UnexpectedResponseType)
      else if !FirstEntry(x, 1) then Some(PayloadRejected)
      else None
  }

  lemma VerdictExact(id: u32, arrived: Option<seq<byte>>)
    ensures Verdict(id, arrived) == VerdictOn(id, arrived)
  {
    if arrived.Some? && arrived.value != [] {
      var x := Cut(arrived.value);
      FrameDecodes(x);
      if SdFrame(x) {
        FirstEntryRead(x);
      }
    }
  }

  // ---- discovery

  /** A reply to the discovery with the given id. */
  predicate ProperReply(id: nat, x: seq<byte>) {
    SdFrame(x) && U16At(x, 10) == id && x[14] == 0x80 && SdSections(x)
  }

  /** Entry k of arrival j is an offer of d. */
  predicate OfferedAt(id: nat, arrivals: seq<seq<byte>>, j: nat, k: nat, d: ServiceDescriptor) {
    && j < |arrivals| && ProperReply(id, Cut(arrivals[j]))
    && 16 * k + 16 <= U32At(Cut(arrivals[j]), 20) && Cut(arrivals[j])[24 + 16 * k] == 1
    && d == DescriptorAt(Cut(arrivals[j]), 24 + 16 * k)
  }

  /** And no earlier one has its service, instance and port. */
  ghost predicate FirstOffer(id: nat, arrivals: seq<seq<byte>>, j: nat, k: nat, d: ServiceDescriptor) {
    && OfferedAt(id, arrivals, j, k, d)
    && forall j': nat, k': nat, d' :: OfferedAt(id, arrivals, j', k', d') && (j' < j || (j' == j && k' < k)) ==>
         !(d'.serviceId == d.serviceId && d'.instanceId == d.instanceId && d'.port == d.port)
  }

  /** Something arrived that is no service discovery frame. */
  predicate Faulty(a: seq<byte>) {
    a != [] && !SdFrame(Cut(a))
  }

  /** The list has exactly the first offer of each service, instance and port; the error is that of the last
      faulty datagram. */
  ghost predicate DiscoveryOf(id: nat, arrivals: seq<seq<byte>>, list: seq<ServiceDescriptor>, failure: Option<DecodeError>) {
    && (forall d :: d in list <==> exists j: nat, k: nat :: FirstOffer(id, arrivals, j, k, d))
    && (forall a, b :: 0 <= a < b < |list| ==>
          !(list[a].serviceId == list[b].serviceId && list[a].instanceId == list[b].instanceId && list[a].port == list[b].port))
    && FailureOf(arrivals, failure)
  }

  ghost predicate FailureOf(arrivals: seq<seq<byte>>, failure: Option<DecodeError>) {
    match failure
    case None => forall j :: 0 <= j < |arrivals| ==> !Faulty(arrivals[j])
    case Some(e) => exists j: nat :: LastFaulty(arrivals, j) && e == FirstFault(Cut(arrivals[j]))
  }

  ghost predicate LastFaulty(arrivals: seq<seq<byte>>, j: nat) {
    j < |arrivals| && Faulty(arrivals[j]) && forall i :: j < i < |arrivals| ==> !Faulty(arrivals[i])
  }

  lemma {:induction false} FailureExact(arrivals: seq<seq<byte>>)
    ensures FailureOf(arrivals, LastFailure(arrivals))
    decreases |arrivals|
  {
    if arrivals != [] {
      var front, x := arrivals[..|arrivals| - 1], arrivals[|arrivals| - 1];
      FailureExact(front);
      assert arrivals == front + [x];
      GatheredSnoc(0, front, x);
      FaultIs(x);
      if Faulty(x) {
        assert LastFaulty(arrivals, |front|);
      } else if LastFailure(front).Some? {
        var j: nat :| LastFaulty(front, j) && LastFailure(front) == Some(FirstFault(Cut(front[j])));
        assert LastFaulty(arrivals, j);
      }
    }
  }

  lemma FaultIs(x: seq<byte>)
    ensures DecodeFailure(x) == if Faulty(x) then Some(FirstFault(Cut(x))) else None
  {
    FrameDecodes(Cut(x));
  }

  lemma OffersForExact(id: u32, a: seq<byte>)
    ensures OffersFor(id, a) == if ProperReply(id, Cut(a)) then OffersFrom(Cut(a), 0) else []
  {
    var x := Cut(a);
    FrameDecodes(x);
    if SdFrame(x) {
      OffersRead(x);
    }
  }

  // All offers of all arrivals in order, with where they stand.

  datatype Tag = Tag(j: nat, k: nat, d: ServiceDescriptor)

  predicate Before(a: Tag, b: Tag) {
    a.j < b.j || (a.j == b.j && a.k < b.k)
  }

  function TagsFrom(x: seq<byte>, j: nat, k: nat): seq<Tag>
    requires SdSections(x)
    decreases |x| - 16 * k
  {
    if 16 * k + 16 > U32At(x, 20) then []
    else TagHere(x, j, k) + TagsFrom(x, j, k + 1)
  }

  function TagHere(x: seq<byte>, j: nat, k: nat): seq<Tag>
    requires SdSections(x) && 16 * k + 16 <= U32At(x, 20)
  {
    if x[24 + 16 * k] == 1 then [Tag(j, k, DescriptorAt(x, 24 + 16 * k))] else []
  }

  function Tags(id: nat, a: seq<byte>, j: nat): seq<Tag> {
    if ProperReply(id, Cut(a)) then TagsFrom(Cut(a), j, 0) else []
  }

  function Tagged(id: nat, arrivals: seq<seq<byte>>): seq<Tag>
    decreases |arrivals|
  {
    if arrivals == [] then []
    else Tagged(id, arrivals[..|arrivals| - 1]) + Tags(id, arrivals[|arrivals| - 1], |arrivals| - 1)
  }

  function Descriptors(tags: seq<Tag>): (ds: seq<ServiceDescriptor>)
    ensures |ds| == |tags| && forall i :: 0 <= i < |ds| ==> ds[i] == tags[i].d
  {
    seq(|tags|, i requires 0 <= i < |tags| => tags[i].d)
  }

  predicate IsTag(x: seq<byte>, j: nat, k: nat, t: Tag)
    requires SdSections(x)
  {
    && t.j == j && t.k >= k && 16 * t.k + 16 <= U32At(x, 20) && x[24 + 16 * t.k] == 1
    && t.d == DescriptorAt(x, 24 + 16 * t.k)
  }

  ghost predicate Ascending(tags: seq<Tag>) {
    forall a, b :: 0 <= a < b < |tags| ==> Before(tags[a], tags[b])
  }

  lemma DescriptorsAppend(a: seq<Tag>, b: seq<Tag>)
    ensures Descriptors(a + b) == Descriptors(a) + Descriptors(b)
  {
  }

  lemma {:induction false} TagsDescribe(x: seq<byte>, j: nat, k: nat)
    requires SdSections(x)
    ensures Descriptors(TagsFrom(x, j, k)) == OffersFrom(x, k)
    decreases |x| - 16 * k
  {
    if 16 * k + 16 <= U32At(x, 20) {
      TagsDescribe(x, j, k + 1);
      DescriptorsAppend(TagHere(x, j, k), TagsFrom(x, j, k + 1));
      HereDescribed(x, j, k);
      assert TagsFrom(x, j, k) == TagHere(x, j, k) + TagsFrom(x, j, k + 1);
      assert OffersFrom(x, k) == OfferHere(x, 24 + 16 * k) + OffersFrom(x, k + 1);
    } else {
      assert TagsFrom(x, j, k) == [] && OffersFrom(x, k) == [];
    }
  }

  lemma HereDescribed(x: seq<byte>, j: nat, k: nat)
    requires SdSections(x) && 16 * k + 16 <= U32At(x, 20)
    ensures Descriptors(TagHere(x, j, k)) == OfferHere(x, 24 + 16 * k)
  {
  }

  /** The tag of entry k, if that is an offer, before those of the later ones. */
  lemma TagsCons(x: seq<byte>, j: nat, k: nat, first: seq<Tag>, rest: seq<Tag>)
    requires SdSections(x) && 16 * k + 16 <= U32At(x, 20)
    requires first == TagHere(x, j, k)
    requires Ascending(rest) && forall t :: t in rest <==> IsTag(x, j, k + 1, t)
    ensures Ascending(first + rest) && forall t :: t in first + rest <==> IsTag(x, j, k, t)
  {
    var tags := first + rest;
    forall a, b | 0 <= a < b < |tags|
      ensures Before(tags[a], tags[b])
    {
      assert tags[b] == rest[b - |first|] && tags[b] in rest;
    }
    forall t
      ensures t in tags <==> IsTag(x, j, k, t)
    {
      assert t in tags <==> t in first || t in rest;
    }
  }

  lemma {:induction false} TagsFromExact(x: seq<byte>, j: nat, k: nat)
    requires SdSections(x)
    ensures Ascending(TagsFrom(x, j, k)) && forall t :: t in TagsFrom(x, j, k) <==> IsTag(x, j, k, t)
    decreases |x| - 16 * k
  {
    if 16 * k + 16 <= U32At(x, 20) {
      TagsFromExact(x, j, k + 1);
      TagsCons(x, j, k, TagHere(x, j, k), TagsFrom(x, j, k + 1));
    }
  }

  predicate TagOk(id: nat, arrivals: seq<seq<byte>>, t: Tag) {
    OfferedAt(id, arrivals, t.j, t.k, t.d)
  }

  /** The tags of all offers of the arrivals, in order. */
  ghost predicate TagsOf(id: u32, arrivals: seq<seq<byte>>, tags: seq<Tag>) {
    && Descriptors(tags) == Gathered(id, arrivals) && Ascending(tags)
    && forall t :: t in tags <==> TagOk(id, arrivals, t)
  }

  lemma {:induction false} TaggedExact(id: u32, arrivals: seq<seq<byte>>)
    ensures TagsOf(id, arrivals, Tagged(id, arrivals))
    decreases |arrivals|
  {
    if arrivals != [] {
      var n := |arrivals| - 1;
      TaggedExact(id, arrivals[..n]);
      TaggedStep(id, arrivals[..n], arrivals[n]);
      assert arrivals[..n] + [arrivals[n]] == arrivals;
    } else {
      assert Tagged(id, arrivals) == [] && Gathered(id, arrivals) == [];
    }
  }

  lemma TaggedStep(id: u32, front: seq<seq<byte>>, x: seq<byte>)
    requires TagsOf(id, front, Tagged(id, front))
    ensures TagsOf(id, front + [x], Tagged(id, front + [x]))
  {
    TagsExact(id, x, |front|);
    TagsJoin(id, front, x, Tagged(id, front), Tags(id, x, |front|));
    assert (front + [x])[..|front|] == front;
  }

  lemma GatherTags(id: u32, front: seq<seq<byte>>, x: seq<byte>, a: seq<Tag>, b: seq<Tag>)
    requires Descriptors(a) == Gathered(id, front) && Descriptors(b) == OffersFor(id, x)
    ensures Descriptors(a + b) == Gathered(id, front + [x])
  {
    GatheredSnoc(id, front, x);
    DescriptorsAppend(a, b);
  }

  lemma TagsExact(id: u32, a: seq<byte>, j: nat)
    ensures Descriptors(Tags(id, a, j)) == OffersFor(id, a) && Ascending(Tags(id, a, j))
    ensures forall t :: t in Tags(id, a, j) <==> ProperReply(id, Cut(a)) && IsTag(Cut(a), j, 0, t)
  {
    OffersForExact(id, a);
    if ProperReply(id, Cut(a)) {
      TagsDescribe(Cut(a), j, 0);
      TagsFromExact(Cut(a), j, 0);
    }
  }

  lemma TagsJoin(id: u32, front: seq<seq<byte>>, x: seq<byte>, a: seq<Tag>, b: seq<Tag>)
    requires TagsOf(id, front, a) && Ascending(b) && Descriptors(b) == OffersFor(id, x)
    requires forall t :: t in b <==> ProperReply(id, Cut(x)) && IsTag(Cut(x), |front|, 0, t)
    ensures TagsOf(id, front + [x], a + b)
  {
    GatherTags(id, front, x, a, b);
    forall i, j | 0 <= i < j < |a + b|
      ensures Before((a + b)[i], (a + b)[j])
    {
      if i < |a| <= j {
        assert a[i] in a && b[j - |a|] in b;
      }
    }
    forall t
      ensures t in a + b <==> TagOk(id, front + [x], t)
    {
      TagJoins(id, front, x, t);
    }
  }

  lemma TagJoins(id: u32, front: seq<seq<byte>>, x: seq<byte>, t: Tag)
    ensures TagOk(id, front + [x], t) <==> TagOk(id, front, t) || (ProperReply(id, Cut(x)) && IsTag(Cut(x), |front|, 0, t))
  {
    if t.j < |front| {
      assert (front + [x])[t.j] == front[t.j];
    } else if t.j == |front| {
      assert (front + [x])[t.j] == x;
    }
  }

  lemma DiscoveredIsFirst(id: u32, arrivals: seq<seq<byte>>, tags: seq<Tag>, at: seq<nat>, d: ServiceDescriptor)
    requires TagsOf(id, arrivals, tags) && Picks(Gathered(id, arrivals), at, Discovered(id, arrivals)) && d in Discovered(id, arrivals)
    ensures exists j: nat, k: nat :: FirstOffer(id, arrivals, j, k, d)
  {
    var g := Gathered(id, arrivals);
    var r :| 0 <= r < |at| && g[at[r]] == d;
    assert IsFirst(g, at[r]);
    FirstIsFirstOffer(id, arrivals, tags, at[r]);
  }

  lemma FirstIsDiscovered(id: u32, arrivals: seq<seq<byte>>, tags: seq<Tag>, at: seq<nat>, j: nat, k: nat, d: ServiceDescriptor)
    requires TagsOf(id, arrivals, tags) && Picks(Gathered(id, arrivals), at, Discovered(id, arrivals)) && FirstOffer(id, arrivals, j, k, d)
    ensures d in Discovered(id, arrivals)
  {
    assert TagOk(id, arrivals, Tag(j, k, d));
    var i :| 0 <= i < |tags| && tags[i] == Tag(j, k, d);
    FirstOfferIsFirst(id, arrivals, tags, i);
    assert i in at;
  }

  lemma DiscoveredExact(id: u32, arrivals: seq<seq<byte>>, d: ServiceDescriptor)
    ensures d in Discovered(id, arrivals) <==> exists j: nat, k: nat :: FirstOffer(id, arrivals, j, k, d)
  {
    var tags := Tagged(id, arrivals);
    TaggedExact(id, arrivals);
    var at := FirstOfEachExact(Gathered(id, arrivals));
    if d in Discovered(id, arrivals) {
      DiscoveredIsFirst(id, arrivals, tags, at, d);
    }
    if j: nat, k: nat :| FirstOffer(id, arrivals, j, k, d) {
      FirstIsDiscovered(id, arrivals, tags, at, j, k, d);
    }
  }

  lemma AscendingOrder(tags: seq<Tag>, a: nat, b: nat)
    requires Ascending(tags) && a < |tags| && b < |tags|
    ensures Before(tags[a], tags[b]) ==> a < b
  {
    assert b < a ==> Before(tags[b], tags[a]);
  }

  lemma FirstIsFirstOffer(id: u32, arrivals: seq<seq<byte>>, tags: seq<Tag>, i: nat)
    requires TagsOf(id, arrivals, tags) && i < |tags|
    requires IsFirst(Gathered(id, arrivals), i)
    ensures FirstOffer(id, arrivals, tags[i].j, tags[i].k, tags[i].d)
  {
    var g, t := Gathered(id, arrivals), tags[i];
    assert t in tags;
    forall j': nat, k': nat, d' | OfferedAt(id, arrivals, j', k', d') && (j' < t.j || (j' == t.j && k' < t.k))
      ensures !(d'.serviceId == t.d.serviceId && d'.instanceId == t.d.instanceId && d'.port == t.d.port)
    {
      assert TagOk(id, arrivals, Tag(j', k', d'));
      var i' :| 0 <= i' < |tags| && tags[i'] == Tag(j', k', d');
      AscendingOrder(tags, i', i);
      assert g[..i][i'] == d';
    }
  }

  lemma FirstOfferIsFirst(id: u32, arrivals: seq<seq<byte>>, tags: seq<Tag>, i: nat)
    requires TagsOf(id, arrivals, tags) && i < |tags|
    requires FirstOffer(id, arrivals, tags[i].j, tags[i].k, tags[i].d)
    ensures IsFirst(Gathered(id, arrivals), i)
  {
    var g := Gathered(id, arrivals);
    forall i' | 0 <= i' < i
      ensures !SameTriple(g[..i][i'], g[i])
    {
      assert tags[i'] in tags && Before(tags[i'], tags[i]);
      assert OfferedAt(id, arrivals, tags[i'].j, tags[i'].k, tags[i'].d);
    }
  }

  lemma DiscoveryExact(id: u32, arrivals: seq<seq<byte>>)
    ensures DiscoveryOf(id, arrivals, Discovered(id, arrivals), LastFailure(arrivals))
  {
    forall d
      ensures d in Discovered(id, arrivals) <==> exists j: nat, k: nat :: FirstOffer(id, arrivals, j, k, d)
    {
      DiscoveredExact(id, arrivals, d);
    }
    DiscoveredTriples(Gathered(id, arrivals), DefaultDescriptor(0, 0));
    FailureExact(arrivals);
  }

  // ---- every call of a session

  /** The n-th call and what comes of it, by the bytes sent and received. */
  ghost predicate CallExact(n: nat, c: Call, r: Outcome) {
    var id := (n + 1) % 0x1_0000_0000;
    && r.Listed? == c.Discover?
    && Sends(n, c, r.sent)
    && match c
       case Discover(_, _, arrivals) => DiscoveryOf(id, arrivals, r.list, r.failure)
       case _ => r.error == VerdictOn(id, c.arrived)
  }

  lemma OutcomeExact(n: nat, c: Call)
    ensures CallExact(n, c, OutcomeOf(IdOfCall(n), c))
  {
    var id := IdOfCall(n);
    SendsExact(n, c);
    match c
    case Register(_, _, arrived) => VerdictExact(id, arrived);
    case Unregister(_, _, arrived) => VerdictExact(id, arrived);
    case Discover(_, _, arrivals) => DiscoveryExact(id, arrivals);
  }

  /** Any calls in any order on one client: each sends and returns what the bytes say. */
  method SessionByBytes(calls: seq<Call>) returns (outcomes: seq<Outcome>)
    ensures |outcomes| == |calls| && forall n :: 0 <= n < |calls| ==> CallExact(n, calls[n], outcomes[n])
  {
    outcomes := Session(calls);
    forall n | 0 <= n < |calls|
      ensures CallExact(n, calls[n], outcomes[n])
    {
      assert OutcomeAt(calls, n, outcomes[n]);
      OutcomeExact(n, calls[n]);
    }
  }

  /** A register or unregister call succeeds exactly if a frame comes back with its full 32-bit id, type 0x80,
      and an offer for its first entry. If nothing comes back, or nothing is in it, that is a timeout. */
  lemma ControlSucceedsIff(n: nat, c: Call)
    requires !c.Discover?
    ensures OutcomeOf(IdOfCall(n), c).error == None <==>
            c.arrived.Some? && c.arrived.value != [] &&
            var x := Cut(c.arrived.value);
            SdFrame(x) && U16At(x, 10) == (n + 1) % 0x1_0000_0000 && x[14] == 0x80 && FirstEntry(x, 1)
    ensures OutcomeOf(IdOfCall(n), c).error == Some(Timeout) <==> c.arrived == None || c.arrived == Some([])
  {
    OutcomeExact(n, c);
  }
}
