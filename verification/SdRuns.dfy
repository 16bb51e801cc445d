/** Whole runs: what a sequence of calls on one client gets back, and what the serve loop of a fresh daemon
    replies, turn by turn. */
module SdRuns {
  import opened Bytes
  import opened SdWire
  import opened SdRegistry
  import opened SdDaemon
  import opened SdClient
  import opened SdComposition

  // ---- a client

  /** The calls on a client, each with what the network delivers while it runs. */
  datatype Call =
    | Register(d: ServiceDescriptor, ttlSec: int, arrived: Option<seq<byte>>)
    | Unregister(serviceId: u16, instanceId: u16, arrived: Option<seq<byte>>)
    | Discover(service: u16, instance: Option<u16>, arrivals: seq<seq<byte>>)

  datatype Outcome =
    | Controlled(sent: seq<byte>, error: Option<ControlError>)
    | Listed(sent: seq<byte>, list: seq<ServiceDescriptor>, failure: Option<DecodeError>)

  function RequestOfCall(id: u32, c: Call): SdPacket {
    match c
    case Register(d, ttlSec, _) => RegisterRequest(id, d, ttlSec)
    case Unregister(s, i, _) => UnregisterRequest(id, s, i)
    case Discover(s, i, _) => FindRequest(id, s, i)
  }

  function OutcomeOf(id: u32, c: Call): Outcome {
    var sent := Encode(RequestOfCall(id, c));
    match c
    case Register(_, _, arrived) => Controlled(sent, Verdict(id, arrived))
    case Unregister(_, _, arrived) => Controlled(sent, Verdict(id, arrived))
    case Discover(_, _, arrivals) => Listed(sent, Discovered(id, arrivals), LastFailure(arrivals))
  }

  /** The id of a fresh client's n-th call, counted from 0. */
  function IdOfCall(n: nat): u32 {
    (1 + n) % 0x1_0000_0000
  }

  method Perform(api: SomeIpSdApi, c: Call) returns (r: Outcome)
    modifies api
    ensures r == OutcomeOf(old(api.nextRequestId), c)
    ensures api.nextRequestId == (old(api.nextRequestId) + 1) % 0x1_0000_0000
  {
    match c
    case Register(d, ttlSec, arrived) =>
      var sent, error := api.RegisterService(d, ttlSec, arrived);
      r := Controlled(sent, error);
    case Unregister(s, i, arrived) =>
      var sent, error := api.UnregisterService(s, i, arrived);
      r := Controlled(sent, error);
    case Discover(s, i, arrivals) =>
      var sent, list, failure := api.DiscoverServices(s, i, arrivals);
      r := Listed(sent, list, failure);
  }

  predicate OutcomeAt(calls: seq<Call>, n: nat, r: Outcome)
    requires n < |calls|
  {
    r == OutcomeOf(IdOfCall(n), calls[n])
  }

  lemma NextId(n: nat)
    ensures IdOfCall(n + 1) == (IdOfCall(n) + 1) % 0x1_0000_0000
  {
  }

  ghost predicate OutcomesSoFar(calls: seq<Call>, outcomes: seq<Outcome>) {
    |outcomes| <= |calls| && forall n :: 0 <= n < |outcomes| ==> OutcomeAt(calls, n, outcomes[n])
  }

  lemma OneMore(calls: seq<Call>, outcomes: seq<Outcome>, r: Outcome)
    requires OutcomesSoFar(calls, outcomes) && |outcomes| < |calls| && OutcomeAt(calls, |outcomes|, r)
    ensures OutcomesSoFar(calls, outcomes + [r])
  {
    var longer := outcomes + [r];
    forall n | 0 <= n < |longer|
      ensures OutcomeAt(calls, n, longer[n])
    {
      assert n < |outcomes| ==> OutcomeAt(calls, n, outcomes[n]);
    }
  }

  method PerformNext(api: SomeIpSdApi, calls: seq<Call>, n: nat) returns (r: Outcome)
    requires n < |calls| && api.nextRequestId == IdOfCall(n)
    modifies api
    ensures OutcomeAt(calls, n, r) && api.nextRequestId == IdOfCall(n + 1)
  {
    r := Perform(api, calls[n]);
    NextId(n);
  }

  /** A program that makes its calls, of any kind and in any order, on one client. */
  method Session(calls: seq<Call>) returns (outcomes: seq<Outcome>)
    ensures |outcomes| == |calls| && OutcomesSoFar(calls, outcomes)
  {
    var api := new SomeIpSdApi();
    outcomes := [];
    for n := 0 to |calls|
      invariant fresh(api) && api.nextRequestId == IdOfCall(n)
      invariant |outcomes| == n && OutcomesSoFar(calls, outcomes)
    {
      var r := PerformNext(api, calls, n);
      OneMore(calls, outcomes, r);
      outcomes := outcomes + [r];
    }
  }

  /** Calls 65535 to 2^32 - 2 of each turn of the 32-bit counter have ids that the wire does not carry. */
  predicate Correlates(n: nat) {
    n % 0x1_0000_0000 < 0xFFFF || n % 0x1_0000_0000 == 0xFFFF_FFFF
  }

  /** What arrives during the call is what a daemon with the given registry replies to what it sent. */
  ghost predicate AnsweredBy(reg: Registry, id: u32, c: Call, at: nat) {
    match c
    case Discover(_, _, arrivals) => |arrivals| == 1 && Served(reg, RequestOfCall(id, c), at, Some(arrivals[0]))
    case _ => Served(reg, RequestOfCall(id, c), at, c.arrived)
  }

  /** What the n-th call of a session gets from the daemon: success or the matching services if the call
      correlates, a mismatch or nothing if it does not. */
  lemma CallsThatCorrelate(n: nat, c: Call, reg: Registry, at: nat)
    requires WellFormed(reg) && AnsweredBy(reg, IdOfCall(n), c, at)
    ensures var r := OutcomeOf(IdOfCall(n), c);
            match c
            case Discover(s, i, _) =>
              if Correlates(n) && |MatchingKeys(reg, QueryOf(s, i))| <= MAX_DISCOVERABLE then Lists(r.list, reg, QueryOf(s, i)) else r.list == []
            case _ => r.error == if Correlates(n) then None else Some(RequestIdMismatch)
  {
    var id := IdOfCall(n);
    IdFits(n);
    match c
    case Register(d, ttlSec, arrived) => RegisterVerdict(id, d, ttlSec, reg, at, arrived);
    case Unregister(s, i, arrived) => UnregisterVerdict(id, s, i, reg, at, arrived);
    case Discover(s, i, arrivals) =>
      assert arrivals == [arrivals[0]];
      DiscoveryAllOrNothing(id, s, i, reg, at, arrivals[0]);
  }

  lemma IdFits(n: nat)
    ensures IdOfCall(n) <= MAX_WIRE_ID <==> Correlates(n)
    ensures n < 0xFFFF_FFFF ==> (Correlates(n) <==> n < 0xFFFF)
  {
  }

  // ---- the serve loop

  /** What the first or the second socket had to read in turn i. */
  function Packet(rounds: seq<Round>, i: nat, second: bool): Option<Datagram>
    requires i < |rounds|
  {
    if second then rounds[i].control else rounds[i].udp
  }

  /** Everything that happens before that. */
  function Before(rounds: seq<Round>, i: nat, second: bool): seq<Happening>
    requires i < |rounds|
  {
    MeaningOfRounds(rounds[..i]) + [Swept(rounds[i].cleanupAt)] + if second then MeaningIfAny(rounds[i].udp) else []
  }

  /** The replies of `ServeLoop` on a fresh daemon. */
  ghost predicate LoopReplied(rounds: seq<Round>, replies: seq<(Option<seq<byte>>, Option<seq<byte>>)>) {
    |replies| == |rounds| && forall i :: 0 <= i < |rounds| ==> RoundReplied(RunRounds(map[], rounds, i), rounds[i], replies[i])
  }

  /** A fresh daemon, served for some turns. */
  method ServeFresh(rounds: seq<Round>) returns (replies: seq<(Option<seq<byte>>, Option<seq<byte>>)>)
    ensures LoopReplied(rounds, replies)
  {
    var daemon := new SomeIpSdDaemon();
    replies := daemon.ServeLoop(rounds);
  }

  function ReplyAt(replies: seq<(Option<seq<byte>>, Option<seq<byte>>)>, i: nat, second: bool): Option<seq<byte>>
    requires i < |replies|
  {
    if second then replies[i].1 else replies[i].0
  }

  /** The reply to a packet is given from the registry to which everything before it has led. */
  lemma RepliedFromHistory(rounds: seq<Round>, replies: seq<(Option<seq<byte>>, Option<seq<byte>>)>, i: nat, second: bool)
    requires LoopReplied(rounds, replies) && i < |rounds|
    ensures RepliedIfAny(Run(map[], Before(rounds, i, second)), Packet(rounds, i, second), ReplyAt(replies, i, second))
  {
    var reg, swept := Run(map[], MeaningOfRounds(rounds[..i])), [Swept(rounds[i].cleanupAt)];
    RoundsAreOneRun(map[], rounds[..i]);
    SameRounds(map[], rounds[..i], rounds, i);
    assert RoundReplied(reg, rounds[i], replies[i]);
    RunAppend(map[], MeaningOfRounds(rounds[..i]), swept);
    RunOne(reg, swept[0]);
    RunAppend(map[], MeaningOfRounds(rounds[..i]) + swept, MeaningIfAny(rounds[i].udp));
    assert Before(rounds, i, false) == MeaningOfRounds(rounds[..i]) + swept;
  }

  predicate Earlier(a: nat, aSecond: bool, b: nat, bSecond: bool) {
    a < b || (a == b && !aSecond && bSecond)
  }

  lemma {:induction false} RoundsPrefix(rounds: seq<Round>, i: nat, j: nat)
    requires i <= j <= |rounds|
    ensures MeaningOfRounds(rounds[..i]) <= MeaningOfRounds(rounds[..j])
    decreases j
  {
    if i < j {
      RoundsPrefix(rounds, i, j - 1);
      assert rounds[..j][..j - 1] == rounds[..j - 1];
    }
  }

  /** A packet read earlier is part of the history of one read later. */
  lemma EarlierHappened(rounds: seq<Round>, a: nat, aSecond: bool, b: nat, bSecond: bool)
    requires a < |rounds| && b < |rounds| && Earlier(a, aSecond, b, bSecond)
    ensures Before(rounds, a, aSecond) + MeaningIfAny(Packet(rounds, a, aSecond)) <= Before(rounds, b, bSecond)
  {
    if a < b {
      RoundsPrefix(rounds, a + 1, b);
      WholeRound(rounds, a, aSecond);
    }
  }

  lemma WholeRound(rounds: seq<Round>, a: nat, second: bool)
    requires a < |rounds|
    ensures Before(rounds, a, second) + MeaningIfAny(Packet(rounds, a, second)) <= MeaningOfRounds(rounds[..a + 1])
  {
    assert rounds[..a + 1][..a] == rounds[..a];
    var before, r := MeaningOfRounds(rounds[..a]), rounds[a];
    assert before + MeaningOfRound(r) == before + [Swept(r.cleanupAt)] + MeaningIfAny(r.udp) + MeaningIfAny(r.control);
  }

  /** What happens between the two packets. */
  function Between(rounds: seq<Round>, a: nat, aSecond: bool, b: nat, bSecond: bool): seq<Happening>
    requires a < |rounds| && b < |rounds| && Earlier(a, aSecond, b, bSecond)
  {
    EarlierHappened(rounds, a, aSecond, b, bSecond);
    Before(rounds, b, bSecond)[|Before(rounds, a, aSecond)| + |MeaningIfAny(Packet(rounds, a, aSecond))|..]
  }

  lemma SplitHistory(rounds: seq<Round>, a: nat, aSecond: bool, b: nat, bSecond: bool)
    requires a < |rounds| && b < |rounds| && Earlier(a, aSecond, b, bSecond) && Packet(rounds, a, aSecond).Some?
    ensures Before(rounds, a, aSecond) + [Meaning(Packet(rounds, a, aSecond).value)] + Between(rounds, a, aSecond, b, bSecond) ==
            Before(rounds, b, bSecond)
  {
    EarlierHappened(rounds, a, aSecond, b, bSecond);
  }

  /** The loop reads a query, within the limits on ids and on the number of services. */
  ghost predicate Queried(rounds: seq<Round>, i: nat, second: bool, id: u32, s: u16, q: Option<u16>, at: nat)
    requires i < |rounds|
  {
    && Packet(rounds, i, second) == Some(Datagram(Encode(FindRequest(id, s, q)), at)) && id <= MAX_WIRE_ID
    && |MatchingKeys(Run(map[], Before(rounds, i, second)), QueryOf(s, q))| <= MAX_DISCOVERABLE
  }

  lemma QueryAnswered(rounds: seq<Round>, replies: seq<(Option<seq<byte>>, Option<seq<byte>>)>, i: nat, second: bool,
                      id: u32, s: u16, q: Option<u16>, at: nat)
    requires LoopReplied(rounds, replies) && i < |rounds| && Queried(rounds, i, second, id, s, q, at)
    ensures ReplyAt(replies, i, second).Some?
    ensures DiscoveryAfter(Before(rounds, i, second), id, s, q, at, ReplyAt(replies, i, second).value)
  {
    RepliedFromHistory(rounds, replies, i, second);
    BeforeIsNormal(rounds, i, second);
    var list := FindAnswered(id, s, q, Run(map[], Before(rounds, i, second)), at, ReplyAt(replies, i, second));
  }

  lemma BeforeIsNormal(rounds: seq<Round>, i: nat, second: bool)
    requires i < |rounds|
    ensures AllNormal(Before(rounds, i, second))
  {
    ServedIsNormal(rounds[..i]);
    NormalIfAny(rounds[i].udp);
  }

  /** In every run of the serve loop: if a registration is read on some socket in some turn, then a query read
      later gets the service in its reply if and only if the TTL was positive and no cleanup at or after the
      expiry came between them, unless something else was said of the service. */
  lemma LoopReportsRegistered(rounds: seq<Round>, replies: seq<(Option<seq<byte>>, Option<seq<byte>>)>,
                              a: nat, aSecond: bool, registerId: u32, d: ServiceDescriptor, ttlSec: int, offeredAt: nat,
                              b: nat, bSecond: bool, id: u32, s: u16, q: Option<u16>, at: nat)
    requires LoopReplied(rounds, replies) && a < |rounds| && b < |rounds| && Earlier(a, aSecond, b, bSecond)
    requires Packet(rounds, a, aSecond) == Some(Datagram(Encode(RegisterRequest(registerId, d, ttlSec)), offeredAt))
    requires Queried(rounds, b, bSecond, id, s, q, at) && Matches(d, QueryOf(s, q))
    requires !SpokenOf(Between(rounds, a, aSecond, b, bSecond), d.serviceId, d.instanceId)
    ensures ReplyAt(replies, b, bSecond).Some?
    ensures var ttl := ClampTtl(ToU32(ttlSec));
            Normalise(d) in Discovered(id, [ReplyAt(replies, b, bSecond).value]) <==>
            ttl > 0 && !SweptFrom(Between(rounds, a, aSecond, b, bSecond), offeredAt + ttl * 1000)
  {
    QueryAnswered(rounds, replies, b, bSecond, id, s, q, at);
    SplitHistory(rounds, a, aSecond, b, bSecond);
    var registered := Meaning(Packet(rounds, a, aSecond).value);
    var before, after := Before(rounds, a, aSecond), Between(rounds, a, aSecond, b, bSecond);
    RegisteredIsReported(before, registered, after, registerId, d, ttlSec, offeredAt, id, s, q, at, ReplyAt(replies, b, bSecond).value);
  }
}
