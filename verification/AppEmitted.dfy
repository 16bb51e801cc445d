/** From the raw records to the emitted header: every name, message type and id that stands in a record stands
    in the header, in the right place. Stated without what the resolver and the generator make of the records
    in between. */
module AppEmitted {
  import opened Bytes
  import opened AppIdl
  import opened AppHeader
  import opened AppRecords
  import App = AppRuntime

  /** What a method of a service record is registered and called as. */
  ghost predicate StubFor(stub: MethodStub, service: RawService, k: nat) {
    && k < |service.methods| && IsNumber(service.serviceId) && IsNumber(service.methods[k].methodId)
    && Some(stub.name) == service.methods[k].name
    && Some(stub.request) == service.methods[k].request
    && Some(stub.response) == service.methods[k].response
    && stub.serviceId == service.serviceId.value.i
    && stub.methodId == service.methods[k].methodId.value.i
  }

  ghost predicate EventFor(stub: EventStub, service: RawService, k: nat) {
    && k < |service.events| && IsNumber(service.serviceId) && IsNumber(service.events[k].eventId)
    && Some(stub.name) == service.events[k].name
    && Some(stub.payload) == service.events[k].payload
    && stub.serviceId == service.serviceId.value.i
    && stub.eventId == service.events[k].eventId.value.i
  }

  ghost predicate ClassFor(c: ServiceClass, raw: RawService) {
    && Some(c.name) == raw.name
    && |c.registers| == |raw.methods| && (forall k :: 0 <= k < |raw.methods| ==> StubFor(c.registers[k], raw, k))
    && |c.publishes| == |raw.events| && (forall k :: 0 <= k < |raw.events| ==> EventFor(c.publishes[k], raw, k))
  }

  ghost predicate PointFor(p: AttachPoint, raw: RawServiceInstance) {
    Some(p.name) == raw.name && Some(p.serviceClass) == raw.service && IsNumber(raw.instanceId) && p.instanceId == raw.instanceId.value.i
  }

  /** The k-th call of a proxy is the last method of that name in the record of the client's service. */
  ghost predicate CallFor(stub: MethodStub, service: RawService, name: string) {
    exists q: nat :: StubFor(stub, service, q) && stub.name == name
                && forall r :: q < r < |service.methods| ==> service.methods[r].name != Some(name)
  }

  ghost predicate SubscriptionFor(stub: EventStub, service: RawService, name: string) {
    exists q: nat :: EventFor(stub, service, q) && stub.name == name
                && forall r :: q < r < |service.events| ==> service.events[r].name != Some(name)
  }

  ghost predicate ProxyFor(c: ClientClass, raw: RawClient, services: seq<RawService>) {
    && Some(c.name) == raw.name
    && |c.calls| == |raw.methods| && |c.subscribes| == |raw.events|
    && exists d: nat :: ServiceNamed(services, d, raw.service)
         && (forall k :: 0 <= k < |raw.methods| ==> CallFor(c.calls[k], services[d], raw.methods[k]))
         && (forall k :: 0 <= k < |raw.events| ==> SubscriptionFor(c.subscribes[k], services[d], raw.events[k]))
  }

  /** A factory passes on the instance id of the service instance that the record names. */
  ghost predicate FactoryFor(f: Factory, raw: RawClientInstance, instances: seq<RawServiceInstance>) {
    && Some(f.name) == raw.name && Some(f.clientClass) == raw.client
    && exists b: nat :: b < |instances| && instances[b].name == raw.serviceInstance && IsNumber(instances[b].instanceId)
                   && f.instanceId == instances[b].instanceId.value.i
  }

  /** Everything emitted, record by record, in the order of the files. */
  ghost predicate EmittedFor(h: Header, files: seq<RawAppFile>) {
    var services, clients, instances, bindings := ServicesIn(files), ClientsIn(files), InstancesIn(files), BindingsIn(files);
    && |h.services| == |services| && (forall i :: 0 <= i < |services| ==> ClassFor(h.services[i], services[i]))
    && |h.attachPoints| == |instances| && (forall i :: 0 <= i < |instances| ==> PointFor(h.attachPoints[i], instances[i]))
    && |h.clients| == |clients| && (forall i :: 0 <= i < |clients| ==> ProxyFor(h.clients[i], clients[i], services))
    && |h.factories| == |bindings| && (forall i :: 0 <= i < |bindings| ==> FactoryFor(h.factories[i], bindings[i], instances))
  }

  // ---- services and attach points

  lemma ClassEmitted(raw: RawService, messages: set<string>)
    requires ServiceRecord(raw, messages)
    ensures ClassFor(ServiceClassOf(ServiceOf(raw)), raw)
  {
    var c := ServiceClassOf(ServiceOf(raw));
    forall k | 0 <= k < |raw.methods|
      ensures StubFor(c.registers[k], raw, k)
    {
      assert MethodRecord(raw.methods[k], messages);
    }
    forall k | 0 <= k < |raw.events|
      ensures EventFor(c.publishes[k], raw, k)
    {
      assert EventRecord(raw.events[k], messages);
    }
  }

  // ---- proxies

  lemma {:induction false} LastOfName<T>(nameOf: T -> string, s: seq<T>, n: string) returns (q: nat)
    requires n in ByName(nameOf, s)
    ensures q < |s| && s[q] == ByName(nameOf, s)[n] && nameOf(s[q]) == n
    ensures forall r :: q < r < |s| ==> nameOf(s[r]) != n
    decreases |s|
  {
    var last := |s| - 1;
    if nameOf(s[last]) == n {
      q := last;
    } else {
      q := LastOfName(nameOf, s[..last], n);
    }
  }

  lemma CallEmitted(raw: RawService, messages: set<string>, name: string)
    requires ServiceRecord(raw, messages) && name in ByName(MethodName, ServiceOf(raw).methods)
    ensures CallFor(MethodStubOf(ServiceOf(raw).serviceId, ByName(MethodName, ServiceOf(raw).methods)[name]), raw, name)
  {
    var ms := ServiceOf(raw).methods;
    var q := LastOfName(MethodName, ms, name);
    assert forall r :: 0 <= r < |ms| ==> MethodRecord(raw.methods[r], messages) && MethodName(ms[r]) == raw.methods[r].name.value;
    assert StubFor(MethodStubOf(ServiceOf(raw).serviceId, ms[q]), raw, q);
  }

  lemma SubscriptionEmitted(raw: RawService, messages: set<string>, name: string)
    requires ServiceRecord(raw, messages) && name in ByName(EventName, ServiceOf(raw).events)
    ensures SubscriptionFor(EventStubOf(ServiceOf(raw).serviceId, ByName(EventName, ServiceOf(raw).events)[name]), raw, name)
  {
    var es := ServiceOf(raw).events;
    var q := LastOfName(EventName, es, name);
    assert forall r :: 0 <= r < |es| ==> EventRecord(raw.events[r], messages) && EventName(es[r]) == raw.events[r].name.value;
    assert EventFor(EventStubOf(ServiceOf(raw).serviceId, es[q]), raw, q);
  }

  lemma ProxyEmitted(raw: RawClient, services: seq<RawService>, messages: set<string>, d: nat)
    requires ServicesRecorded(services, messages) && ServiceNamed(services, d, raw.service)
    requires ClientOk(raw, ByName(ServiceName, ServicesOf(services)))
    ensures var found := ByName(ServiceName, ServicesOf(services));
            ProxyFor(ClientClassOf(ClientOf(raw, found), found), raw, services)
  {
    var found := ByName(ServiceName, ServicesOf(services));
    ServiceFound(services, messages, raw.service);
    assert ServiceRecord(services[d], messages) && found[raw.service.value] == ServiceOf(services[d]);
    var c := ClientClassOf(ClientOf(raw, found), found);
    forall k | 0 <= k < |raw.methods|
      ensures CallFor(c.calls[k], services[d], raw.methods[k])
    {
      CallEmitted(services[d], messages, raw.methods[k]);
    }
    forall k | 0 <= k < |raw.events|
      ensures SubscriptionFor(c.subscribes[k], services[d], raw.events[k])
    {
      SubscriptionEmitted(services[d], messages, raw.events[k]);
    }
  }

  // ---- all of it

  /** The stages of an accepted application, over the records. */
  lemma Stages(files: seq<RawAppFile>, spec: AppSpec)
    requires AppOf(files) == Success(spec)
    ensures ServicesRecorded(ServicesIn(files), MessagesIn(files)) && spec.services == ServicesOf(ServicesIn(files))
    ensures ClientsOk(ClientsIn(files), ServiceMap(spec)) && spec.clients == ClientsOf(ClientsIn(files), ServiceMap(spec))
    ensures ServiceInstancesOk(InstancesIn(files), ServiceMap(spec)) && spec.serviceInstances == ServiceInstancesOf(InstancesIn(files))
    ensures ClientInstancesOk(BindingsIn(files), ClientMap(spec), InstanceMap(spec)) && spec.clientInstances == ClientInstancesOf(BindingsIn(files))
  {
    FilesExact(files);
    MessagesExact(files);
    InOrder(files);
    ServicesExact(ServicesIn(files), MessagesIn(files));
    AcceptedStages(files, spec);
  }

  lemma PointsEmitted(files: seq<RawAppFile>, spec: AppSpec, h: Header)
    requires AppOf(files) == Success(spec) && Resolved(spec) && HeaderFor(h, spec)
    ensures var instances := InstancesIn(files);
            |h.attachPoints| == |instances| && forall i :: 0 <= i < |instances| ==> PointFor(h.attachPoints[i], instances[i])
  {
    Stages(files, spec);
    var instances := InstancesIn(files);
    forall i | 0 <= i < |instances|
      ensures PointFor(h.attachPoints[i], instances[i])
    {
      assert ServiceInstanceOk(instances[i], ServiceMap(spec));
    }
  }

  lemma ClassesEmitted(files: seq<RawAppFile>, spec: AppSpec, h: Header)
    requires AppOf(files) == Success(spec) && Resolved(spec) && HeaderFor(h, spec)
    ensures var services := ServicesIn(files);
            |h.services| == |services| && forall i :: 0 <= i < |services| ==> ClassFor(h.services[i], services[i])
  {
    Stages(files, spec);
    var services := ServicesIn(files);
    forall i | 0 <= i < |services|
      ensures ClassFor(h.services[i], services[i])
    {
      ClassEmitted(services[i], MessagesIn(files));
    }
  }

  lemma ProxiesEmitted(files: seq<RawAppFile>, spec: AppSpec, h: Header)
    requires AppOf(files) == Success(spec) && Resolved(spec) && HeaderFor(h, spec)
    ensures var clients := ClientsIn(files);
            |h.clients| == |clients| && forall i :: 0 <= i < |clients| ==> ProxyFor(h.clients[i], clients[i], ServicesIn(files))
  {
    Stages(files, spec);
    var clients, services := ClientsIn(files), ServicesIn(files);
    forall i | 0 <= i < |clients|
      ensures ProxyFor(h.clients[i], clients[i], services)
    {
      assert ClientOk(clients[i], ServiceMap(spec));
      ServiceFound(services, MessagesIn(files), clients[i].service);
      var d: nat :| ServiceNamed(services, d, clients[i].service);
      ProxyEmitted(clients[i], services, MessagesIn(files), d);
    }
  }

  lemma FactoriesEmitted(files: seq<RawAppFile>, spec: AppSpec, h: Header)
    requires AppOf(files) == Success(spec) && Resolved(spec) && HeaderFor(h, spec)
    ensures var bindings := BindingsIn(files);
            |h.factories| == |bindings| && forall i :: 0 <= i < |bindings| ==> FactoryFor(h.factories[i], bindings[i], InstancesIn(files))
  {
    Stages(files, spec);
    var bindings, instances := BindingsIn(files), InstancesIn(files);
    forall i | 0 <= i < |bindings|
      ensures FactoryFor(h.factories[i], bindings[i], instances)
    {
      FactoryEmitted(bindings[i], instances, ServiceMap(spec), ClientMap(spec));
      assert BindsKnown(spec, spec.clientInstances[i]) && h.factories[i] == FactoryOf(spec.clientInstances[i], InstanceMap(spec));
    }
  }

  lemma FactoryEmitted(raw: RawClientInstance, instances: seq<RawServiceInstance>, services: map<string, ServiceSpec>, clients: map<string, ClientSpec>)
    requires ServiceInstancesOk(instances, services)
    requires ClientInstanceOk(raw, clients, ByName(ServiceInstanceName, ServiceInstancesOf(instances)))
    ensures FactoryFor(FactoryOf(ClientInstanceOf(raw), ByName(ServiceInstanceName, ServiceInstancesOf(instances))), raw, instances)
  {
    InstanceFound(instances, services, raw.serviceInstance);
    var b: nat :| b < |instances| && instances[b].name == raw.serviceInstance;
    assert ServiceInstanceOk(instances[b], services);
  }

  /** What is emitted for accepted files has what stands in their records. */
  lemma HeaderEmitted(files: seq<RawAppFile>, spec: AppSpec, h: Header)
    requires AppOf(files) == Success(spec) && Resolved(spec) && HeaderFor(h, spec)
    ensures EmittedFor(h, files)
  {
    ClassesEmitted(files, spec, h);
    PointsEmitted(files, spec, h);
    ProxiesEmitted(files, spec, h);
    FactoriesEmitted(files, spec, h);
  }

  /** The application generator: a header for every proper application, record by record, and none for any
      other files. */
  method GenerateApplication(files: seq<RawAppFile>) returns (h: Option<Header>)
    ensures h.Some? <==> ProperApplication(files)
    ensures h.Some? ==> EmittedFor(h.value, files)
  {
    AcceptedIffProper(files);
    var spec := ParseAppIdl(files);
    if spec.Failure? {
      return None;
    }
    AcceptedIsConsistent(files);
    var header := GenerateHeader(spec.value);
    HeaderEmitted(files, spec.value, header);
    h := Some(header);
  }

  /** The key under which method k of attach point i is registered: the ids of the service record, and 16 bits
      of the instance id of the instance record. */
  lemma KeyEmitted(h: Header, files: seq<RawAppFile>, i: nat, k: nat) returns (d: nat)
    requires EmittedFor(h, files) && ServicesRecorded(ServicesIn(files), MessagesIn(files)) && App.Sound(h) && App.Slot(h, i, k)
    ensures i < |InstancesIn(files)| && ServiceNamed(ServicesIn(files), d, InstancesIn(files)[i].service)
    ensures var service, instance := ServicesIn(files)[d], InstancesIn(files)[i];
            && k < |service.methods| && IsNumber(service.serviceId) && IsNumber(instance.instanceId) && IsNumber(service.methods[k].methodId)
            && App.KeyAt(h, i, k) == MethodKey(service.serviceId.value.i, instance.instanceId.value.i % 0x1_0000, service.methods[k].methodId.value.i)
  {
    var services, p := ServicesIn(files), h.attachPoints[i];
    assert PointFor(p, InstancesIn(files)[i]);
    ByNameHas(App.ClassName, h.services, p.serviceClass);
    var e :| 0 <= e < |h.services| && h.services[e] == App.ClassAt(h, i);
    d := e;
    assert ClassFor(h.services[e], services[e]);
    assert StubFor(h.services[e].registers[k], services[e], k);
  }
}
