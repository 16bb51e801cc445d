/** Remote calls and events through the generated application, over the generated codecs: what a proxy call
    returns, and which subscriber gets what is published. */
module Rpc {
  import opened Bytes
  import opened Schema
  import Codec
  import CodecTheorems
  import opened GeneratedCode
  import GeneratedReader
  import GeneratorTheorems
  import opened GeneratorHygiene
  import Headers
  import opened AppIdl
  import opened AppHeader
  import App = AppRuntime

  type Message = seq<Value>

  /** The generated headers of the table compile, and their code is correct. */
  ghost predicate Usable(s: TypeTable) {
    Valid(s) && Headers.Includable(s) && AllHygienic(s)
  }

  ghost predicate TypedMessage(s: TypeTable, t: string, v: Message) {
    t in s && Typed(s, ECustom(t), VObj(v))
  }

  /** Every length in the message fits its length type. */
  ghost predicate FitsMessage(s: TypeTable, t: string, v: Message) {
    Fits(s, ECustom(t), L32, VObj(v))
  }

  /** serialize(), with as much stack as the message needs. */
  function SerializeMessage(s: TypeTable, t: string, v: Message): seq<byte> {
    var r := SerializeCall(s, t, v, GeneratorTheorems.Height(VObj(v)));
    if r.Some? then r.value else []
  }

  /** deserialize() into an existing object: the verdict, and the object afterwards. */
  ghost function DeserializeMessage(s: TypeTable, t: string, initial: Message, bs: seq<byte>): (bool, Message)
    requires Valid(s)
  {
    var r := DeserializeCall(s, t, initial, bs, GeneratedReader.Depth(s, t, |bs|));
    if r.Some? then r.value else (false, initial)
  }

  /** A message sent from one object into another arrives whole, or not at all: if some length does not fit,
      the receiving object is left as it was. */
  lemma TransferExact(s: TypeTable, t: string, v: Message, initial: Message)
    requires Usable(s) && TypedMessage(s, t, v) && TypedMessage(s, t, initial)
    ensures DeserializeMessage(s, t, initial, SerializeMessage(s, t, v)) ==
            if FitsMessage(s, t, v) then (true, v) else (false, initial)
  {
    HygienicIsCorrect(s);
    assert GeneratedCorrect(s, t);
    var bs := Codec.Serialize(s, t, VObj(v));
    assert SerializeMessage(s, t, v) == bs;
    assert CallMatches(s, t, initial, bs, DeserializeCall(s, t, initial, bs, GeneratedReader.Depth(s, t, |bs|)));
    CodecTheorems.SerialisableIff(s, ECustom(t), L32, VObj(v));
    CodecTheorems.EmptyMeansFailure(s, t, VObj(v));
  }

  // ---- calls

  /** What the implementation objects do, and the objects that closures read messages into. */
  datatype World = World(serve: (App.Handler, Message) -> Message, scratch: string -> Message)

  ghost predicate WorldOk(s: TypeTable, w: World) {
    && (forall t: string {:trigger w.scratch(t)} :: t in s ==> TypedMessage(s, t, w.scratch(t)))
    && (forall hd: App.Handler, v: Message {:trigger w.serve(hd, v)} :: hd.stub.response in s ==> TypedMessage(s, hd.stub.response, w.serve(hd, v)))
  }

  /** The registered closure: decode the request, serve it, encode the response. */
  ghost function Invoke(s: TypeTable, w: World, hd: App.Handler, request: seq<byte>): Option<seq<byte>>
    requires Valid(s)
  {
    var r := DeserializeMessage(s, hd.stub.request, w.scratch(hd.stub.request), request);
    if r.0 then Some(SerializeMessage(s, hd.stub.response, w.serve(hd, r.1))) else None
  }

  /** The emitted proxy method. `initial` is the response it starts from; the verdict of its last
      deserialize is not looked at. */
  ghost function ProxyCall(s: TypeTable, w: World, hs: App.Handlers, m: MethodStub, instanceId: int, request: Message, initial: Message): Message
    requires Valid(s)
  {
    var key := MethodKeyOf(m, instanceId);
    if key !in hs then initial
    else
      var bytes := Invoke(s, w, hs[key], SerializeMessage(s, m.request, request));
      if bytes.None? then initial else DeserializeMessage(s, m.response, initial, bytes.value).1
  }

  lemma CallOfHandler(s: TypeTable, w: World, hs: App.Handlers, m: MethodStub, instanceId: int, request: Message, initial: Message)
    requires Usable(s) && WorldOk(s, w)
    requires TypedMessage(s, m.request, request) && TypedMessage(s, m.response, initial)
    requires MethodKeyOf(m, instanceId) in hs && hs[MethodKeyOf(m, instanceId)].stub == m
    ensures var response := w.serve(hs[MethodKeyOf(m, instanceId)], request);
            ProxyCall(s, w, hs, m, instanceId, request, initial) ==
            if FitsMessage(s, m.request, request) && FitsMessage(s, m.response, response) then response else initial
  {
    var hd := hs[MethodKeyOf(m, instanceId)];
    TransferExact(s, m.request, request, w.scratch(m.request));
    if FitsMessage(s, m.request, request) {
      TransferExact(s, m.response, w.serve(hd, request), initial);
    }
  }

  /** Method k of attach point i is one that client instance j calls there. */
  ghost predicate Calls(h: Header, j: nat, i: nat, k: nat)
    requires App.Sound(h) && j < |h.factories|
  {
    App.BoundTo(h, j, i) && App.Slot(h, i, k) && App.StubAt(h, i, k) in App.ClientClassAt(h, j).calls
  }

  /** After any history without stray detaching, a proxy call returns exactly what the implementation attached
      at the bound service instance answers to exactly the request passed, if one is attached and both
      messages can be serialised; and the default response in every other case. */
  lemma RpcExact(s: TypeTable, w: World, h: Header, ops: seq<App.AppOp>, j: nat, i: nat, k: nat, request: Message, initial: Message)
    requires Usable(s) && WorldOk(s, w)
    requires App.Sound(h) && App.OpsOk(h, ops) && App.KeysDistinct(h) && App.NoStray(h, ops)
    requires j < |h.factories| && Calls(h, j, i, k)
    requires TypedMessage(s, App.StubAt(h, i, k).request, request) && TypedMessage(s, App.StubAt(h, i, k).response, initial)
    ensures var st, m := App.Run(h, ops), App.StubAt(h, i, k);
            ProxyCall(s, w, st.handlers, m, h.factories[j].instanceId, request, initial) ==
            if i !in st.members then initial
            else
              var response := w.serve(App.Handler(st.members[i], k, m), request);
              if FitsMessage(s, m.request, request) && FitsMessage(s, m.response, response) then response else initial
  {
    var st, m := App.Run(h, ops), App.StubAt(h, i, k);
    App.ReachesOwnHandler(h, ops);
    assert App.OwnHandler(h, st, i, k);
    assert App.KeyAt(h, i, k) == MethodKeyOf(m, h.factories[j].instanceId);
    if i in st.members {
      CallOfHandler(s, w, st.handlers, m, h.factories[j].instanceId, request, initial);
    }
  }

  // ---- events

  datatype Delivery =
    | Refused
    | Ignored(subscriber: App.Subscriber)
    | Notified(subscriber: App.Subscriber, event: Message)

  /** The emitted Publish function of a service object, through the backend into the closure of the subscriber
      found there: refused without a runtime or a subscriber, ignored if the payload does not decode. */
  ghost function Publish(s: TypeTable, w: World, st: App.AppState, ref: App.ObjectRef, e: EventStub, event: Message): Delivery
    requires Valid(s)
  {
    if ref !in st.ids then Refused
    else
      var key := EventKeyOf(e, st.ids[ref]);
      if key !in st.subscribers then Refused
      else
        var sub := st.subscribers[key];
        var r := DeserializeMessage(s, sub.stub.payload, w.scratch(sub.stub.payload), SerializeMessage(s, e.payload, event));
        if r.0 then Notified(sub, r.1) else Ignored(sub)
  }

  lemma PublishTo(s: TypeTable, w: World, st: App.AppState, ref: App.ObjectRef, e: EventStub, event: Message)
    requires Usable(s) && WorldOk(s, w) && TypedMessage(s, e.payload, event)
    requires ref in st.ids && EventKeyOf(e, st.ids[ref]) in st.subscribers && st.subscribers[EventKeyOf(e, st.ids[ref])].stub == e
    ensures var sub := st.subscribers[EventKeyOf(e, st.ids[ref])];
            Publish(s, w, st, ref, e, event) == if FitsMessage(s, e.payload, event) then Notified(sub, event) else Ignored(sub)
  {
    TransferExact(s, e.payload, event, w.scratch(e.payload));
  }

  /** After any history, what a service object publishes reaches the client object that subscribed last to that
      event of the instance where the publisher was attached last, exactly as published, or is ignored there
      if it cannot be serialised. It is refused if nobody is subscribed or the object was never attached.
      Detaching the publisher makes no difference. */
  lemma PublishExact(s: TypeTable, w: World, h: Header, bind: seq<nat>, ops: seq<App.AppOp>, ref: App.ObjectRef, e: EventStub, event: Message)
    requires Usable(s) && WorldOk(s, w) && TypedMessage(s, e.payload, event)
    requires App.Sound(h) && App.OpsOk(h, ops) && App.WellBound(h, bind) && App.SubscribedKeysDistinct(h, bind)
    requires var p := App.LastAttach(h, ops, ref); p.Some? ==> App.EventSlot(h, p.value, e)
    ensures var p := App.LastAttach(h, ops, ref);
            Publish(s, w, App.Run(h, ops), ref, e, event) ==
            if p.None? then Refused
            else
              match App.LastSubscriber(h, bind, ops, p.value, e)
              case None => Refused
              case Some(sub) => if FitsMessage(s, e.payload, event) then Notified(sub, event) else Ignored(sub)
  {
    var p := App.LastAttach(h, ops, ref);
    App.IdIsLastAttach(h, ops, ref);
    if p.Some? {
      App.ReachesLastSubscriber(h, bind, ops, p.value, e);
      assert App.OwnSubscriber(h, bind, ops, p.value, e);
      if App.LastSubscriber(h, bind, ops, p.value, e).Some? {
        PublishTo(s, w, App.Run(h, ops), ref, e, event);
      }
    }
  }

  // ---- what accepted applications bind

  ghost predicate NamesDistinct(spec: AppSpec) {
    && (forall a, b :: 0 <= a < b < |spec.services| ==> spec.services[a].name != spec.services[b].name)
    && (forall a, b :: 0 <= a < b < |spec.clients| ==> spec.clients[a].name != spec.clients[b].name)
  }

  lemma OneOfName<T>(nameOf: T -> string, s: seq<T>, x: T)
    requires x in s && forall a, b :: 0 <= a < b < |s| ==> nameOf(s[a]) != nameOf(s[b])
    ensures nameOf(x) in ByName(nameOf, s) && ByName(nameOf, s)[nameOf(x)] == x
  {
    var a :| 0 <= a < |s| && s[a] == x;
    ByNameHas(nameOf, s, nameOf(x));
    var b :| 0 <= b < |s| && s[b] == ByName(nameOf, s)[nameOf(x)];
    assert a == b;
  }

  lemma HeaderSound(spec: AppSpec, h: Header)
    requires Consistent(spec) && HeaderFor(h, spec)
    ensures App.Sound(h)
  {
    forall i | 0 <= i < |h.attachPoints|
      ensures h.attachPoints[i].serviceClass in ByName(App.ClassName, h.services)
    {
      var d := Position(ServiceName, spec.services, spec.serviceInstances[i].serviceName);
      assert App.ClassName(h.services[d]) == h.attachPoints[i].serviceClass;
      ByNameHas(App.ClassName, h.services, h.attachPoints[i].serviceClass);
    }
    forall j | 0 <= j < |h.factories|
      ensures h.factories[j].clientClass in ByName(App.ClientClassName, h.clients)
    {
      assert BindsKnown(spec, spec.clientInstances[j]);
      var a := Position(ClientName, spec.clients, spec.clientInstances[j].clientName);
      assert App.ClientClassName(h.clients[a]) == h.factories[j].clientClass;
      ByNameHas(App.ClientClassName, h.clients, h.factories[j].clientClass);
    }
  }

  /** For every accepted application and every client instance there is the attach point that it is bound to,
      the one that the IDL names. */
  lemma BoundInstance(spec: AppSpec, h: Header, j: nat) returns (i: nat)
    requires Consistent(spec) && HeaderFor(h, spec) && NamesDistinct(spec) && App.Sound(h) && j < |h.factories|
    ensures App.BoundTo(h, j, i) && h.attachPoints[i].name == spec.clientInstances[j].serviceInstanceName
  {
    var c, p, s := LinkingSound(spec, h, j);
    i :| 0 <= i < |h.attachPoints| && h.attachPoints[i] == p;
    OneOfName(App.ClassName, h.services, s);
    OneOfName(App.ClientClassName, h.clients, c);
  }

  /** All of them together; and each method that a client instance calls has its slot there. */
  lemma BoundInstances(spec: AppSpec, h: Header) returns (bind: seq<nat>)
    requires Consistent(spec) && HeaderFor(h, spec) && NamesDistinct(spec)
    ensures App.Sound(h) && App.WellBound(h, bind)
    ensures forall j :: 0 <= j < |bind| ==> h.attachPoints[bind[j]].name == spec.clientInstances[j].serviceInstanceName
    ensures forall j, m :: 0 <= j < |bind| && m in App.ClientClassAt(h, j).calls ==> HasSlot(h, bind[j], m)
  {
    HeaderSound(spec, h);
    bind := [];
    for j := 0 to |h.factories|
      invariant |bind| == j && forall a :: 0 <= a < j ==>
        App.BoundTo(h, a, bind[a]) && h.attachPoints[bind[a]].name == spec.clientInstances[a].serviceInstanceName
    {
      var i := BoundInstance(spec, h, j);
      bind := bind + [i];
    }
    forall j, m | 0 <= j < |bind| && m in App.ClientClassAt(h, j).calls
      ensures HasSlot(h, bind[j], m)
    {
      assert App.BoundTo(h, j, bind[j]);
      var k: nat :| k < |App.ClassAt(h, bind[j]).registers| && App.ClassAt(h, bind[j]).registers[k] == m;
      assert App.Slot(h, bind[j], k) && App.StubAt(h, bind[j], k) == m;
    }
  }

  ghost predicate HasSlot(h: Header, i: nat, m: MethodStub)
    requires App.Sound(h)
  {
    exists k: nat :: App.Slot(h, i, k) && App.StubAt(h, i, k) == m
  }

  lemma AcceptedNamesDistinct(files: seq<RawAppFile>, spec: AppSpec)
    requires AppOf(files) == Success(spec)
    ensures NamesDistinct(spec)
  {
    AcceptedStages(files, spec);
    DistinctServices(spec, Concat(ServicePart, files), MessageNames(files));
    DistinctClients(spec, Concat(ClientPart, files));
  }

  lemma DistinctServices(spec: AppSpec, raws: seq<RawService>, messages: set<string>)
    requires ServicesOk(raws, messages) && spec.services == ServicesOf(raws)
    ensures forall a, b :: 0 <= a < b < |spec.services| ==> spec.services[a].name != spec.services[b].name
  {
    forall a, b | 0 <= a < b < |raws|
      ensures spec.services[a].name != spec.services[b].name
    {
      assert ServiceOk(raws[a], messages) && ServiceOk(raws[b], messages);
    }
  }

  lemma DistinctClients(spec: AppSpec, raws: seq<RawClient>)
    requires ClientsOk(raws, ServiceMap(spec)) && spec.clients == ClientsOf(raws, ServiceMap(spec))
    ensures forall a, b :: 0 <= a < b < |spec.clients| ==> spec.clients[a].name != spec.clients[b].name
  {
    forall a, b | 0 <= a < b < |raws|
      ensures spec.clients[a].name != spec.clients[b].name
    {
      assert ClientOk(raws[a], ServiceMap(spec)) && ClientOk(raws[b], ServiceMap(spec));
    }
  }
}
