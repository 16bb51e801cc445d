/** What generate_header of tools/someip_idl/generate_someip_app.py emits, as far as identities and message
    types go: the keys that service classes register and publish under, those that proxies call and
    subscribe to, and the instance ids that attach points and factories pass on. */
module AppHeader {
  import opened Bytes
  import opened AppIdl

  /** A method as a service class registers it or as a proxy calls it. */
  datatype MethodStub = MethodStub(name: string, request: string, response: string, serviceId: int, methodId: int)

  /** An event as a service class publishes it or as a proxy subscribes to it. */
  datatype EventStub = EventStub(name: string, payload: string, serviceId: int, eventId: int)

  datatype ServiceClass = ServiceClass(name: string, registers: seq<MethodStub>, publishes: seq<EventStub>)
  datatype ClientClass = ClientClass(name: string, calls: seq<MethodStub>, subscribes: seq<EventStub>)
  datatype AttachPoint = AttachPoint(name: string, serviceClass: string, instanceId: int)
  datatype Factory = Factory(name: string, clientClass: string, instanceId: int)
  datatype Header = Header(services: seq<ServiceClass>, clients: seq<ClientClass>, attachPoints: seq<AttachPoint>, factories: seq<Factory>)

  function MethodStubOf(serviceId: int, m: MethodSpec): MethodStub {
    MethodStub(m.name, m.request, m.response, serviceId, m.methodId)
  }

  function EventStubOf(serviceId: int, e: EventSpec): EventStub {
    EventStub(e.name, e.payload, serviceId, e.eventId)
  }

  function MethodStubs(serviceId: int, ms: seq<MethodSpec>): (r: seq<MethodStub>)
    ensures |r| == |ms| && forall i :: 0 <= i < |r| ==> r[i] == MethodStubOf(serviceId, ms[i])
  {
    seq(|ms|, i requires 0 <= i < |ms| => MethodStubOf(serviceId, ms[i]))
  }

  function EventStubs(serviceId: int, es: seq<EventSpec>): (r: seq<EventStub>)
    ensures |r| == |es| && forall i :: 0 <= i < |r| ==> r[i] == EventStubOf(serviceId, es[i])
  {
    seq(|es|, i requires 0 <= i < |es| => EventStubOf(serviceId, es[i]))
  }

  function ServiceClassOf(s: ServiceSpec): ServiceClass {
    ServiceClass(s.name, MethodStubs(s.serviceId, s.methods), EventStubs(s.serviceId, s.events))
  }

  function ServiceMap(spec: AppSpec): map<string, ServiceSpec> { ByName(ServiceName, spec.services) }
  function ClientMap(spec: AppSpec): map<string, ClientSpec> { ByName(ClientName, spec.clients) }
  function InstanceMap(spec: AppSpec): map<string, ServiceInstanceSpec> { ByName(ServiceInstanceName, spec.serviceInstances) }

  /** Names are looked up in dictionaries; the generator relies on the resolver for them to be there. */
  predicate Resolved(spec: AppSpec) {
    && (forall i :: 0 <= i < |spec.serviceInstances| ==> spec.serviceInstances[i].serviceName in ServiceMap(spec))
    && (forall c :: c in spec.clients ==> c.serviceName in ServiceMap(spec))
    && (forall i :: 0 <= i < |spec.clientInstances| ==> BindsKnown(spec, spec.clientInstances[i]))
  }

  predicate BindsKnown(spec: AppSpec, ci: ClientInstanceSpec) {
    ci.clientName in ClientMap(spec) && ci.serviceInstanceName in InstanceMap(spec)
  }

  function ClientClassOf(c: ClientSpec, services: map<string, ServiceSpec>): ClientClass
    requires c.serviceName in services
  {
    var id := services[c.serviceName].serviceId;
    ClientClass(c.name, MethodStubs(id, c.methods), EventStubs(id, c.events))
  }

  function FactoryOf(ci: ClientInstanceSpec, instances: map<string, ServiceInstanceSpec>): Factory
    requires ci.serviceInstanceName in instances
  {
    Factory(ci.name, ci.clientName, instances[ci.serviceInstanceName].instanceId)
  }

  ghost predicate HeaderFor(h: Header, spec: AppSpec)
    requires Resolved(spec)
  {
    && |h.services| == |spec.services| && (forall i :: 0 <= i < |spec.services| ==> h.services[i] == ServiceClassOf(spec.services[i]))
    && |h.clients| == |spec.clients|
    && (forall i :: 0 <= i < |spec.clients| ==> spec.clients[i] in spec.clients && h.clients[i] == ClientClassOf(spec.clients[i], ServiceMap(spec)))
    && |h.attachPoints| == |spec.serviceInstances|
    && (forall i :: 0 <= i < |spec.serviceInstances| ==>
          h.attachPoints[i] == AttachPoint(spec.serviceInstances[i].name, spec.serviceInstances[i].serviceName, spec.serviceInstances[i].instanceId))
    && |h.factories| == |spec.clientInstances|
    && (forall i :: 0 <= i < |spec.clientInstances| ==>
          BindsKnown(spec, spec.clientInstances[i]) && h.factories[i] == FactoryOf(spec.clientInstances[i], InstanceMap(spec)))
  }

  method EmitMethods(serviceId: int, ms: seq<MethodSpec>) returns (stubs: seq<MethodStub>)
    ensures stubs == MethodStubs(serviceId, ms)
  {
    stubs := [];
    for i := 0 to |ms|
      invariant |stubs| == i && forall k :: 0 <= k < i ==> stubs[k] == MethodStubOf(serviceId, ms[k])
    {
      stubs := stubs + [MethodStub(ms[i].name, ms[i].request, ms[i].response, serviceId, ms[i].methodId)];
    }
  }

  method EmitEvents(serviceId: int, es: seq<EventSpec>) returns (stubs: seq<EventStub>)
    ensures stubs == EventStubs(serviceId, es)
  {
    stubs := [];
    for i := 0 to |es|
      invariant |stubs| == i && forall k :: 0 <= k < i ==> stubs[k] == EventStubOf(serviceId, es[k])
    {
      stubs := stubs + [EventStub(es[i].name, es[i].payload, serviceId, es[i].eventId)];
    }
  }

  method EmitServices(services: seq<ServiceSpec>) returns (classes: seq<ServiceClass>)
    ensures |classes| == |services| && forall i :: 0 <= i < |services| ==> classes[i] == ServiceClassOf(services[i])
  {
    classes := [];
    for i := 0 to |services|
      invariant |classes| == i && forall k :: 0 <= k < i ==> classes[k] == ServiceClassOf(services[k])
    {
      var publishes := EmitEvents(services[i].serviceId, services[i].events);
      var registers := EmitMethods(services[i].serviceId, services[i].methods);
      classes := classes + [ServiceClass(services[i].name, registers, publishes)];
    }
  }

  method EmitClients(clients: seq<ClientSpec>, services: map<string, ServiceSpec>) returns (classes: seq<ClientClass>)
    requires forall c :: c in clients ==> c.serviceName in services
    ensures |classes| == |clients| && forall i :: 0 <= i < |clients| ==> clients[i] in clients && classes[i] == ClientClassOf(clients[i], services)
  {
    classes := [];
    for i := 0 to |clients|
      invariant |classes| == i && forall k :: 0 <= k < i ==> clients[k] in clients && classes[k] == ClientClassOf(clients[k], services)
    {
      var c := clients[i];
      assert c in clients;
      var id := services[c.serviceName].serviceId;
      var calls := EmitMethods(id, c.methods);
      var subscribes := EmitEvents(id, c.events);
      classes := classes + [ClientClass(c.name, calls, subscribes)];
    }
  }

  method GenerateHeader(spec: AppSpec) returns (h: Header)
    requires Resolved(spec)
    ensures HeaderFor(h, spec)
  {
    var services := EmitServices(spec.services);
    var clients := EmitClients(spec.clients, ServiceMap(spec));
    var points: seq<AttachPoint> := [];
    for i := 0 to |spec.serviceInstances|
      invariant |points| == i && forall k :: 0 <= k < i ==>
        points[k] == AttachPoint(spec.serviceInstances[k].name, spec.serviceInstances[k].serviceName, spec.serviceInstances[k].instanceId)
    {
      var p := spec.serviceInstances[i];
      points := points + [AttachPoint(p.name, p.serviceName, p.instanceId)];
    }
    var instances := InstanceMap(spec);
    var factories: seq<Factory> := [];
    for i := 0 to |spec.clientInstances|
      invariant |factories| == i && forall k :: 0 <= k < i ==>
        BindsKnown(spec, spec.clientInstances[k]) && factories[k] == FactoryOf(spec.clientInstances[k], instances)
    {
      var ci := spec.clientInstances[i];
      assert BindsKnown(spec, ci);
      factories := factories + [Factory(ci.name, ci.clientName, instances[ci.serviceInstanceName].instanceId)];
    }
    h := Header(services, clients, points, factories);
  }

  // ---- keys at run time

  datatype ServiceKey = ServiceKey(serviceId: int, instanceId: int)
  datatype MethodKey = MethodKey(serviceId: int, instanceId: int, methodId: int)
  datatype EventKey = EventKey(serviceId: int, instanceId: int, eventId: int)

  /** An instance id is passed as a std::uint16_t argument, which truncates it. (Service, method and event
      ids stand in braces, where C++ does not narrow.) */
  function Narrow(instanceId: int): int {
    instanceId % 0x1_0000
  }

  function MethodKeyOf(m: MethodStub, instanceId: int): MethodKey {
    MethodKey(m.serviceId, Narrow(instanceId), m.methodId)
  }

  function EventKeyOf(e: EventStub, instanceId: int): EventKey {
    EventKey(e.serviceId, Narrow(instanceId), e.eventId)
  }

  // ---- linking

  /** The client side of factory f and the service side of attach point p, class by class. */
  ghost predicate Linked(h: Header, f: Factory, c: ClientClass, p: AttachPoint, s: ServiceClass) {
    && c in h.clients && c.name == f.clientClass && p in h.attachPoints && s in h.services && s.name == p.serviceClass
    && (forall m :: m in c.calls ==> m in s.registers && MethodKeyOf(m, f.instanceId) == MethodKeyOf(m, p.instanceId))
    && (forall e :: e in c.subscribes ==> e in s.publishes && EventKeyOf(e, f.instanceId) == EventKeyOf(e, p.instanceId))
  }

  predicate WithinService(c: ClientSpec, service: ServiceSpec) {
    && (forall m :: m in c.methods ==> m in service.methods)
    && (forall e :: e in c.events ==> e in service.events)
  }

  /** References lead somewhere, clients have only what their service has, and client instances are bound to
      instances of their client's service. */
  ghost predicate Consistent(spec: AppSpec) {
    && Resolved(spec)
    && (forall c :: c in spec.clients ==> WithinService(c, ServiceMap(spec)[c.serviceName]))
    && (forall i :: 0 <= i < |spec.clientInstances| ==> BindsSameService(spec, spec.clientInstances[i]))
  }

  predicate BindsSameService(spec: AppSpec, ci: ClientInstanceSpec) {
    BindsKnown(spec, ci) && ClientMap(spec)[ci.clientName].serviceName == InstanceMap(spec)[ci.serviceInstanceName].serviceName
  }

  /** The resolver accepts consistent applications only. */
  lemma AcceptedIsConsistent(files: seq<RawAppFile>)
    requires AppOf(files).Success?
    ensures Consistent(AppOf(files).value)
  {
    var spec := AppOf(files).value;
    var raws, bound, rawClients := Concat(ServiceInstancePart, files), Concat(ClientInstancePart, files), Concat(ClientPart, files);
    ConsistentStages(spec, raws, rawClients, bound);
  }

  lemma ConsistentStages(spec: AppSpec, raws: seq<RawServiceInstance>, rawClients: seq<RawClient>, bound: seq<RawClientInstance>)
    requires ServiceInstancesOk(raws, ServiceMap(spec)) && spec.serviceInstances == ServiceInstancesOf(raws)
    requires ClientsOk(rawClients, ServiceMap(spec)) && spec.clients == ClientsOf(rawClients, ServiceMap(spec))
    requires ClientInstancesOk(bound, ClientMap(spec), InstanceMap(spec)) && spec.clientInstances == ClientInstancesOf(bound)
    ensures Consistent(spec)
  {
    assert forall i :: 0 <= i < |raws| ==> ServiceInstanceOk(raws[i], ServiceMap(spec));
    assert forall i :: 0 <= i < |bound| ==> ClientInstanceOk(bound[i], ClientMap(spec), InstanceMap(spec));
    forall c | c in spec.clients
      ensures c.serviceName in ServiceMap(spec) && WithinService(c, ServiceMap(spec)[c.serviceName])
    {
      var a :| 0 <= a < |spec.clients| && spec.clients[a] == c;
      PickedWithin(rawClients[a], ServiceMap(spec));
    }
  }

  lemma PickedWithin(raw: RawClient, services: map<string, ServiceSpec>)
    requires ClientOk(raw, services)
    ensures WithinService(ClientOf(raw, services), services[raw.service.value])
  {
    var client, service := ClientOf(raw, services), services[raw.service.value];
    forall m | m in client.methods
      ensures m in service.methods
    {
      var k :| 0 <= k < |client.methods| && client.methods[k] == m;
      ByNameHas(MethodName, service.methods, raw.methods[k]);
    }
    forall e | e in client.events
      ensures e in service.events
    {
      var k :| 0 <= k < |client.events| && client.events[k] == e;
      ByNameHas(EventName, service.events, raw.events[k]);
    }
  }

  /** For every accepted application: each method that a client instance calls is registered, under the
      same key and with the same message types, by the service instance it is bound to; and each event it
      subscribes to is one which that service publishes. */
  lemma LinkingSound(spec: AppSpec, h: Header, i: nat) returns (c: ClientClass, p: AttachPoint, s: ServiceClass)
    requires Consistent(spec) && HeaderFor(h, spec) && i < |h.factories|
    ensures p.name == spec.clientInstances[i].serviceInstanceName
    ensures Linked(h, h.factories[i], c, p, s)
  {
    var ci := spec.clientInstances[i];
    assert BindsKnown(spec, ci) && BindsSameService(spec, ci);
    var client, instance := ClientMap(spec)[ci.clientName], InstanceMap(spec)[ci.serviceInstanceName];
    var a := Position(ClientName, spec.clients, ci.clientName);
    var b := Position(ServiceInstanceName, spec.serviceInstances, ci.serviceInstanceName);
    var d := Position(ServiceName, spec.services, client.serviceName);
    c, p, s := h.clients[a], h.attachPoints[b], h.services[d];
    assert client in spec.clients;
    StubsWithin(spec.services[d], client, c, s);
  }

  lemma Position<T>(nameOf: T -> string, s: seq<T>, n: string) returns (i: nat)
    requires n in ByName(nameOf, s)
    ensures i < |s| && s[i] == ByName(nameOf, s)[n] && nameOf(s[i]) == n
  {
    ByNameHas(nameOf, s, n);
    i :| 0 <= i < |s| && s[i] == ByName(nameOf, s)[n];
  }

  lemma StubsWithin(service: ServiceSpec, client: ClientSpec, c: ClientClass, s: ServiceClass)
    requires WithinService(client, service)
    requires s == ServiceClassOf(service)
    requires c == ClientClass(client.name, MethodStubs(service.serviceId, client.methods), EventStubs(service.serviceId, client.events))
    ensures forall m :: m in c.calls ==> m in s.registers
    ensures forall e :: e in c.subscribes ==> e in s.publishes
  {
    forall m | m in c.calls
      ensures m in s.registers
    {
      var k :| 0 <= k < |c.calls| && c.calls[k] == m;
      assert client.methods[k] in service.methods;
      var j :| 0 <= j < |service.methods| && service.methods[j] == client.methods[k];
      assert s.registers[j] == m;
    }
    forall e | e in c.subscribes
      ensures e in s.publishes
    {
      var k :| 0 <= k < |c.subscribes| && c.subscribes[k] == e;
      assert client.events[k] in service.events;
      var j :| 0 <= j < |service.events| && service.events[j] == client.events[k];
      assert s.publishes[j] == e;
    }
  }
}
