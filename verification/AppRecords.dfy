/** What application records come to, by what they hold: which files are accepted, and which names, message
    types and ids the emitted header has for them. Stated of the raw records, without what the resolver and
    the generator make of them in between. */
module AppRecords {
  import opened Bytes
  import IdlWire
  import opened AppIdl
  import opened AppHeader

  predicate ProperText(name: Option<string>) {
    name.Some? && IdlWire.ProperName(name.value)
  }

  predicate IsNumber(id: Option<RawId>) {
    id.Some? && id.value.Number?
  }

  // ---- what is accepted

  predicate MethodRecord(raw: RawMethod, messages: set<string>) {
    && ProperText(raw.name) && IsNumber(raw.methodId)
    && raw.request.Some? && raw.request.value in messages && raw.response.Some? && raw.response.value in messages
  }

  predicate EventRecord(raw: RawEvent, messages: set<string>) {
    ProperText(raw.name) && IsNumber(raw.eventId) && raw.payload.Some? && raw.payload.value in messages
  }

  predicate ServiceRecord(raw: RawService, messages: set<string>) {
    && ProperText(raw.name) && IsNumber(raw.serviceId)
    && (forall k :: 0 <= k < |raw.methods| ==> MethodRecord(raw.methods[k], messages))
    && (forall k :: 0 <= k < |raw.events| ==> EventRecord(raw.events[k], messages))
  }

  /** Record d of the services has the given name. */
  predicate ServiceNamed(services: seq<RawService>, d: nat, name: Option<string>) {
    d < |services| && name.Some? && services[d].name == name
  }

  predicate HasMethod(service: RawService, name: string) {
    exists q :: 0 <= q < |service.methods| && service.methods[q].name == Some(name)
  }

  predicate HasEvent(service: RawService, name: string) {
    exists q :: 0 <= q < |service.events| && service.events[q].name == Some(name)
  }

  /** The client names a service, and only methods and events of that service. */
  ghost predicate ClientRecord(raw: RawClient, services: seq<RawService>) {
    ProperText(raw.name) && exists d: nat :: ServiceNamed(services, d, raw.service) && Offers(services[d], raw)
  }

  predicate Offers(service: RawService, raw: RawClient) {
    && (forall k :: 0 <= k < |raw.methods| ==> HasMethod(service, raw.methods[k]))
    && (forall k :: 0 <= k < |raw.events| ==> HasEvent(service, raw.events[k]))
  }

  ghost predicate InstanceRecord(raw: RawServiceInstance, services: seq<RawService>) {
    ProperText(raw.name) && IsNumber(raw.instanceId) && exists d: nat :: ServiceNamed(services, d, raw.service)
  }

  /** Client a and service instance b, which are of one service, have the names that the record gives. */
  predicate Binds(raw: RawClientInstance, clients: seq<RawClient>, instances: seq<RawServiceInstance>, a: nat, b: nat) {
    && a < |clients| && b < |instances| && raw.client.Some? && raw.serviceInstance.Some?
    && clients[a].name == raw.client && instances[b].name == raw.serviceInstance && clients[a].service == instances[b].service
  }

  ghost predicate BindingRecord(raw: RawClientInstance, clients: seq<RawClient>, instances: seq<RawServiceInstance>) {
    ProperText(raw.name) && exists a: nat, b: nat :: Binds(raw, clients, instances, a, b)
  }

  // ---- several files

  function ServicesIn(files: seq<RawAppFile>): seq<RawService> {
    if files == [] then [] else files[0].services + ServicesIn(files[1..])
  }

  function ClientsIn(files: seq<RawAppFile>): seq<RawClient> {
    if files == [] then [] else files[0].clients + ClientsIn(files[1..])
  }

  function InstancesIn(files: seq<RawAppFile>): seq<RawServiceInstance> {
    if files == [] then []
    else (if files[0].application.Some? then files[0].application.value.serviceInstances else []) + InstancesIn(files[1..])
  }

  function BindingsIn(files: seq<RawAppFile>): seq<RawClientInstance> {
    if files == [] then []
    else (if files[0].application.Some? then files[0].application.value.clientInstances else []) + BindingsIn(files[1..])
  }

  ghost function MessagesIn(files: seq<RawAppFile>): set<string> {
    set i, k | 0 <= i < |files| && 0 <= k < |files[i].messages| && files[i].messages[k].Some? :: files[i].messages[k].value
  }

  ghost predicate OneNamespace(files: seq<RawAppFile>) {
    forall i, j :: 0 <= i < |files| && 0 <= j < |files| ==> NamespaceText(files[i]) == NamespaceText(files[j])
  }

  function NamespaceText(f: RawAppFile): string {
    if f.namespace == None then "someip::generated" else f.namespace.value
  }

  /** The application is named somewhere, properly, and nowhere otherwise. */
  ghost predicate OneApplication(files: seq<RawAppFile>, name: string) {
    && IdlWire.ProperName(name)
    && (exists i :: 0 <= i < |files| && files[i].application.Some?)
    && forall i :: 0 <= i < |files| && files[i].application.Some? ==> files[i].application.value.name == Some(name)
  }

  ghost predicate MessagesNamed(files: seq<RawAppFile>) {
    forall i, k :: 0 <= i < |files| && 0 <= k < |files[i].messages| ==> ProperText(files[i].messages[k])
  }

  /** The files make an application. */
  ghost predicate ProperApplication(files: seq<RawAppFile>) {
    var services, clients, instances, bindings := ServicesIn(files), ClientsIn(files), InstancesIn(files), BindingsIn(files);
    && OneNamespace(files) && (exists name :: OneApplication(files, name)) && MessagesNamed(files)
    && ServicesRecorded(services, MessagesIn(files)) && InstancesRecorded(instances, services)
    && ClientsRecorded(clients, services) && BindingsRecorded(bindings, clients, instances)
  }

  lemma {:induction false} InOrder(files: seq<RawAppFile>)
    ensures Concat(ServicePart, files) == ServicesIn(files) && Concat(ClientPart, files) == ClientsIn(files)
    ensures Concat(ServiceInstancePart, files) == InstancesIn(files) && Concat(ClientInstancePart, files) == BindingsIn(files)
    decreases |files|
  {
    if files != [] {
      InOrder(files[1..]);
      ConcatFirst(ServicePart, files);
      ConcatFirst(ClientPart, files);
      ConcatFirst(ServiceInstancePart, files);
      ConcatFirst(ClientInstancePart, files);
    }
  }

  lemma {:induction false} ConcatFirst<T>(part: RawAppFile -> seq<T>, files: seq<RawAppFile>)
    requires files != []
    ensures Concat(part, files) == part(files[0]) + Concat(part, files[1..])
    decreases |files|
  {
    var n := |files| - 1;
    if n == 0 {
      assert files[..0] == [] && files[1..] == [];
      assert [] + part(files[0]) == part(files[0]) + [];
    } else {
      ConcatFirst(part, files[..n]);
      assert files[..n][0] == files[0] && files[..n][1..] == files[1..][..n - 1] && files[1..][n - 1] == files[n];
      assert Concat(part, files[1..]) == Concat(part, files[1..][..n - 1]) + part(files[n]);
    }
  }

  lemma {:induction false} InConcat<T>(part: RawAppFile -> seq<T>, files: seq<RawAppFile>, x: T)
    ensures x in Concat(part, files) <==> exists i :: 0 <= i < |files| && x in part(files[i])
    decreases |files|
  {
    if files != [] {
      var n := |files| - 1;
      InConcat(part, files[..n], x);
      if x in Concat(part, files[..n]) {
        var i :| 0 <= i < n && x in part(files[..n][i]);
        assert x in part(files[i]);
      }
      if i :| 0 <= i < |files| && x in part(files[i]) {
        assert i < n ==> files[..n][i] == files[i];
      }
    }
  }

  lemma MessagesExact(files: seq<RawAppFile>)
    requires MessagesNamed(files)
    ensures MessageNames(files) == MessagesIn(files)
  {
    forall name
      ensures name in MessageNames(files) <==> name in MessagesIn(files)
    {
      if name in MessageNames(files) {
        var m :| m in Concat(MessagePart, files) && AppIdl.Text(m) == name;
        InConcat(MessagePart, files, m);
        var i :| 0 <= i < |files| && m in files[i].messages;
        var k :| 0 <= k < |files[i].messages| && files[i].messages[k] == m;
        assert ProperText(files[i].messages[k]);
      }
      if name in MessagesIn(files) {
        var i, k :| 0 <= i < |files| && 0 <= k < |files[i].messages| && files[i].messages[k].Some? && files[i].messages[k].value == name;
        InConcat(MessagePart, files, files[i].messages[k]);
        assert files[i].messages[k] in MessagePart(files[i]);
      }
    }
  }

  lemma ProperExact(name: Option<string>)
    ensures Proper(name) <==> ProperText(name)
  {
    if name.Some? {
      IdlWire.NamesExact(name.value);
    }
  }

  lemma {:induction false} ApplicationNameIs(files: seq<RawAppFile>, name: string)
    requires forall i :: 0 <= i < |files| && files[i].application.Some? ==> files[i].application.value.name == Some(name)
    ensures ApplicationName(files) == if exists i :: 0 <= i < |files| && files[i].application.Some? then Some(name) else None
    decreases |files|
  {
    if files != [] {
      var n := |files| - 1;
      ApplicationNameIs(files[..n], name);
      if i :| 0 <= i < |files| && files[i].application.Some? {
        assert i < n ==> files[..n][i].application.Some?;
      }
    }
  }

  lemma {:induction false} NamedSomewhere(files: seq<RawAppFile>)
    requires ApplicationName(files).Some?
    ensures exists i :: 0 <= i < |files| && files[i].application.Some?
    decreases |files|
  {
    var n := |files| - 1;
    if ApplicationName(files[..n]).Some? {
      NamedSomewhere(files[..n]);
      var i :| 0 <= i < n && files[..n][i].application.Some?;
      assert files[i].application.Some?;
    }
  }

  lemma FilesExact(files: seq<RawAppFile>)
    ensures FilesOk(files) <==> OneNamespace(files) && (exists name :: OneApplication(files, name)) && MessagesNamed(files)
  {
    forall x: Option<string>
      ensures Proper(x) <==> ProperText(x)
    {
      ProperExact(x);
    }
    if FilesOk(files) {
      NamedSomewhere(files);
      var name := ApplicationName(files).value;
      assert forall i :: 0 <= i < |files| ==> FileOk(files[i], Namespace(files[0]), Some(name));
      assert OneApplication(files, name);
    }
    if OneNamespace(files) && (exists name :: OneApplication(files, name)) && MessagesNamed(files) {
      var name :| OneApplication(files, name);
      ApplicationNameIs(files, name);
      assert forall i :: 0 <= i < |files| ==> FileOk(files[i], Namespace(files[0]), Some(name));
    }
  }

  // ---- stage by stage

  /** With distinct names, what is found under a name is the one that has it. */
  lemma AtName<T>(nameOf: T -> string, s: seq<T>, n: string)
    requires forall a, b :: 0 <= a < b < |s| ==> nameOf(s[a]) != nameOf(s[b])
    ensures n in ByName(nameOf, s) <==> exists d :: 0 <= d < |s| && nameOf(s[d]) == n
    ensures forall d :: 0 <= d < |s| && nameOf(s[d]) == n ==> n in ByName(nameOf, s) && ByName(nameOf, s)[n] == s[d]
  {
    ByNameHas(nameOf, s, n);
    forall d | 0 <= d < |s| && nameOf(s[d]) == n
      ensures n in ByName(nameOf, s) && ByName(nameOf, s)[n] == s[d]
    {
      var e :| 0 <= e < |s| && s[e] == ByName(nameOf, s)[n];
      assert d == e;
    }
  }

  ghost predicate ServicesRecorded(raws: seq<RawService>, messages: set<string>) {
    && (forall i :: 0 <= i < |raws| ==> ServiceRecord(raws[i], messages))
    && (forall i, j :: 0 <= i < j < |raws| ==> raws[i].name != raws[j].name)
  }

  lemma MethodExact(raw: RawMethod, messages: set<string>)
    ensures MethodOk(raw, messages) <==> MethodRecord(raw, messages)
  {
    ProperExact(raw.name);
  }

  lemma EventExact(raw: RawEvent, messages: set<string>)
    ensures EventOk(raw, messages) <==> EventRecord(raw, messages)
  {
    ProperExact(raw.name);
  }

  lemma ServiceExact(raw: RawService, messages: set<string>)
    ensures ServiceOk(raw, messages) <==> ServiceRecord(raw, messages)
  {
    ProperExact(raw.name);
    forall m
      ensures MethodOk(m, messages) <==> MethodRecord(m, messages)
    {
      MethodExact(m, messages);
    }
    forall e
      ensures EventOk(e, messages) <==> EventRecord(e, messages)
    {
      EventExact(e, messages);
    }
  }

  lemma ServicesExact(raws: seq<RawService>, messages: set<string>)
    ensures ServicesOk(raws, messages) <==> ServicesRecorded(raws, messages)
  {
    forall i | 0 <= i < |raws|
      ensures ServiceOk(raws[i], messages) <==> ServiceRecord(raws[i], messages)
    {
      ServiceExact(raws[i], messages);
    }
  }

  /** The dictionary of services has each record under its name. */
  lemma ServiceFound(raws: seq<RawService>, messages: set<string>, name: Option<string>)
    requires ServicesRecorded(raws, messages)
    ensures var services := ByName(ServiceName, ServicesOf(raws));
            && (Known(name, services.Keys) <==> exists d: nat :: ServiceNamed(raws, d, name))
            && forall d: nat :: ServiceNamed(raws, d, name) ==> name.value in services && services[name.value] == ServiceOf(raws[d])
  {
    var services := ServicesOf(raws);
    assert forall i :: 0 <= i < |raws| ==> ServiceRecord(raws[i], messages) && ServiceName(services[i]) == raws[i].name.value;
    if name.Some? {
      AtName(ServiceName, services, name.value);
      forall d: nat | ServiceNamed(raws, d, name)
        ensures ServiceName(services[d]) == name.value
      {
      }
      if name.value in ByName(ServiceName, services) {
        var d :| 0 <= d < |services| && ServiceName(services[d]) == name.value;
        assert ServiceNamed(raws, d, name);
      }
    }
  }

  lemma InstancesExact(raws: seq<RawServiceInstance>, services: seq<RawService>, messages: set<string>)
    requires ServicesRecorded(services, messages)
    ensures ServiceInstancesOk(raws, ByName(ServiceName, ServicesOf(services))) <==>
            InstancesRecorded(raws, services)
  {
    forall i | 0 <= i < |raws|
      ensures ServiceInstanceOk(raws[i], ByName(ServiceName, ServicesOf(services))) <==> InstanceRecord(raws[i], services)
    {
      ProperExact(raws[i].name);
      ServiceFound(services, messages, raws[i].service);
    }
  }

  lemma MethodsOffered(service: RawService, messages: set<string>, name: string)
    requires ServiceRecord(service, messages)
    ensures name in ByName(MethodName, ServiceOf(service).methods) <==> HasMethod(service, name)
  {
    var ms := ServiceOf(service).methods;
    ByNameHas(MethodName, ms, name);
    assert forall q :: 0 <= q < |ms| ==> MethodRecord(service.methods[q], messages) && MethodName(ms[q]) == service.methods[q].name.value;
    if HasMethod(service, name) {
      var q :| 0 <= q < |service.methods| && service.methods[q].name == Some(name);
      assert MethodName(ms[q]) == name;
    }
  }

  lemma EventsOffered(service: RawService, messages: set<string>, name: string)
    requires ServiceRecord(service, messages)
    ensures name in ByName(EventName, ServiceOf(service).events) <==> HasEvent(service, name)
  {
    var es := ServiceOf(service).events;
    ByNameHas(EventName, es, name);
    assert forall q :: 0 <= q < |es| ==> EventRecord(service.events[q], messages) && EventName(es[q]) == service.events[q].name.value;
    if HasEvent(service, name) {
      var q :| 0 <= q < |service.events| && service.events[q].name == Some(name);
      assert EventName(es[q]) == name;
    }
  }

  lemma OffersExact(service: RawService, messages: set<string>, raw: RawClient)
    requires ServiceRecord(service, messages)
    ensures Offers(service, raw) <==>
            (forall k :: 0 <= k < |raw.methods| ==> raw.methods[k] in ByName(MethodName, ServiceOf(service).methods))
            && (forall k :: 0 <= k < |raw.events| ==> raw.events[k] in ByName(EventName, ServiceOf(service).events))
  {
    forall k | 0 <= k < |raw.methods|
      ensures raw.methods[k] in ByName(MethodName, ServiceOf(service).methods) <==> HasMethod(service, raw.methods[k])
    {
      MethodsOffered(service, messages, raw.methods[k]);
    }
    forall k | 0 <= k < |raw.events|
      ensures raw.events[k] in ByName(EventName, ServiceOf(service).events) <==> HasEvent(service, raw.events[k])
    {
      EventsOffered(service, messages, raw.events[k]);
    }
  }

  lemma ClientExact(raw: RawClient, services: seq<RawService>, messages: set<string>)
    requires ServicesRecorded(services, messages)
    ensures ClientOk(raw, ByName(ServiceName, ServicesOf(services))) <==> ClientRecord(raw, services)
  {
    ProperExact(raw.name);
    ServiceFound(services, messages, raw.service);
    forall d: nat | ServiceNamed(services, d, raw.service)
      ensures ByName(ServiceName, ServicesOf(services))[raw.service.value] == ServiceOf(services[d])
      ensures Offers(services[d], raw) <==> ClientOffered(raw, ServiceOf(services[d]))
    {
      OffersExact(services[d], messages, raw);
    }
    if ClientOk(raw, ByName(ServiceName, ServicesOf(services))) {
      var d: nat :| ServiceNamed(services, d, raw.service);
      assert ClientOffered(raw, ServiceOf(services[d]));
    }
  }

  predicate ClientOffered(raw: RawClient, service: ServiceSpec) {
    && (forall k :: 0 <= k < |raw.methods| ==> raw.methods[k] in ByName(MethodName, service.methods))
    && (forall k :: 0 <= k < |raw.events| ==> raw.events[k] in ByName(EventName, service.events))
  }

  ghost predicate ClientsRecorded(raws: seq<RawClient>, services: seq<RawService>) {
    && (forall i :: 0 <= i < |raws| ==> ClientRecord(raws[i], services))
    && (forall i, j :: 0 <= i < j < |raws| ==> raws[i].name != raws[j].name)
  }

  lemma ClientsExact(raws: seq<RawClient>, services: seq<RawService>, messages: set<string>)
    requires ServicesRecorded(services, messages)
    ensures ClientsOk(raws, ByName(ServiceName, ServicesOf(services))) <==> ClientsRecorded(raws, services)
  {
    forall i | 0 <= i < |raws|
      ensures ClientOk(raws[i], ByName(ServiceName, ServicesOf(services))) <==> ClientRecord(raws[i], services)
    {
      ClientExact(raws[i], services, messages);
    }
  }

  ghost predicate InstancesRecorded(raws: seq<RawServiceInstance>, services: seq<RawService>) {
    && (forall i :: 0 <= i < |raws| ==> InstanceRecord(raws[i], services))
    && (forall i, j :: 0 <= i < j < |raws| ==> raws[i].name != raws[j].name)
  }

  lemma ClientFound(raws: seq<RawClient>, services: map<string, ServiceSpec>, name: Option<string>)
    requires ClientsOk(raws, services)
    ensures var clients := ByName(ClientName, ClientsOf(raws, services));
            && (Known(name, clients.Keys) <==> exists a: nat :: a < |raws| && name.Some? && raws[a].name == name)
            && forall a: nat :: a < |raws| && name.Some? && raws[a].name == name ==>
                 raws[a].service.Some? && name.value in clients && clients[name.value].serviceName == raws[a].service.value
  {
    var clients := ClientsOf(raws, services);
    assert forall i :: 0 <= i < |raws| ==> ClientOk(raws[i], services) && ClientName(clients[i]) == raws[i].name.value;
    if name.Some? {
      AtName(ClientName, clients, name.value);
      if name.value in ByName(ClientName, clients) {
        var a :| 0 <= a < |clients| && ClientName(clients[a]) == name.value;
        assert raws[a].name == name;
      }
    }
  }

  lemma InstanceFound(raws: seq<RawServiceInstance>, services: map<string, ServiceSpec>, name: Option<string>)
    requires ServiceInstancesOk(raws, services)
    ensures var instances := ByName(ServiceInstanceName, ServiceInstancesOf(raws));
            && (Known(name, instances.Keys) <==> exists b: nat :: b < |raws| && name.Some? && raws[b].name == name)
            && forall b: nat :: b < |raws| && name.Some? && raws[b].name == name ==>
                 raws[b].service.Some? && name.value in instances && instances[name.value] == ServiceInstanceOf(raws[b])
  {
    var instances := ServiceInstancesOf(raws);
    assert forall i :: 0 <= i < |raws| ==> ServiceInstanceOk(raws[i], services) && ServiceInstanceName(instances[i]) == raws[i].name.value;
    if name.Some? {
      AtName(ServiceInstanceName, instances, name.value);
      if name.value in ByName(ServiceInstanceName, instances) {
        var b :| 0 <= b < |instances| && ServiceInstanceName(instances[b]) == name.value;
        assert raws[b].name == name;
      }
    }
  }

  lemma BindingExact(raw: RawClientInstance, clients: seq<RawClient>, instances: seq<RawServiceInstance>, services: map<string, ServiceSpec>)
    requires ClientsOk(clients, services) && ServiceInstancesOk(instances, services)
    ensures ClientInstanceOk(raw, ByName(ClientName, ClientsOf(clients, services)), ByName(ServiceInstanceName, ServiceInstancesOf(instances)))
            <==> BindingRecord(raw, clients, instances)
  {
    ProperExact(raw.name);
    ClientFound(clients, services, raw.client);
    InstanceFound(instances, services, raw.serviceInstance);
    if ClientInstanceOk(raw, ByName(ClientName, ClientsOf(clients, services)), ByName(ServiceInstanceName, ServiceInstancesOf(instances))) {
      var a: nat :| a < |clients| && clients[a].name == raw.client;
      var b: nat :| b < |instances| && instances[b].name == raw.serviceInstance;
      assert Binds(raw, clients, instances, a, b);
    }
  }

  ghost predicate BindingsRecorded(raws: seq<RawClientInstance>, clients: seq<RawClient>, instances: seq<RawServiceInstance>) {
    && (forall i :: 0 <= i < |raws| ==> BindingRecord(raws[i], clients, instances))
    && (forall i, j :: 0 <= i < j < |raws| ==> raws[i].name != raws[j].name)
  }

  lemma BindingsExact(raws: seq<RawClientInstance>, clients: seq<RawClient>, instances: seq<RawServiceInstance>, services: map<string, ServiceSpec>)
    requires ClientsOk(clients, services) && ServiceInstancesOk(instances, services)
    ensures ClientInstancesOk(raws, ByName(ClientName, ClientsOf(clients, services)), ByName(ServiceInstanceName, ServiceInstancesOf(instances)))
            <==> BindingsRecorded(raws, clients, instances)
  {
    forall i | 0 <= i < |raws|
      ensures ClientInstanceOk(raws[i], ByName(ClientName, ClientsOf(clients, services)), ByName(ServiceInstanceName, ServiceInstancesOf(instances)))
              <==> BindingRecord(raws[i], clients, instances)
    {
      BindingExact(raws[i], clients, instances, services);
    }
  }

  ghost predicate FilesProper(files: seq<RawAppFile>) {
    OneNamespace(files) && (exists name :: OneApplication(files, name)) && MessagesNamed(files)
  }

  /** The first stage at which the records are not proper. */
  ghost function FirstFault(files: seq<RawAppFile>): Option<AppError> {
    var services, clients, instances, bindings := ServicesIn(files), ClientsIn(files), InstancesIn(files), BindingsIn(files);
    if !FilesProper(files) then Some(BadFiles)
    else if !ServicesRecorded(services, MessagesIn(files)) then Some(BadService)
    else if !InstancesRecorded(instances, services) then Some(BadServiceInstance)
    else if !ClientsRecorded(clients, services) then Some(BadClient)
    else if !BindingsRecorded(bindings, clients, instances) then Some(BadClientInstance)
    else None
  }

  /** Files are rejected at the first stage that is not proper, and accepted if there is none. */
  lemma FaultExact(files: seq<RawAppFile>)
    ensures FirstFault(files) == if AppOf(files).Failure? then Some(AppOf(files).error) else None
  {
    var services, instances, clients := ServicesIn(files), InstancesIn(files), ClientsIn(files);
    FilesExact(files);
    InOrder(files);
    if FilesOk(files) {
      MessagesExact(files);
      ServicesExact(services, MessagesIn(files));
      if ServicesRecorded(services, MessagesIn(files)) {
        InstancesExact(instances, services, MessagesIn(files));
        ClientsExact(clients, services, MessagesIn(files));
        var found := ByName(ServiceName, ServicesOf(services));
        if ServiceInstancesOk(instances, found) && ClientsOk(clients, found) {
          BindingsExact(BindingsIn(files), clients, instances, found);
        }
      }
    }
  }

  /** The files are accepted exactly when their records make an application. */
  lemma AcceptedIffProper(files: seq<RawAppFile>)
    ensures AppOf(files).Success? <==> ProperApplication(files)
  {
    FaultExact(files);
  }

  /** The namespace, the name and the messages of an accepted application. */
  lemma AcceptedNames(files: seq<RawAppFile>, spec: AppSpec)
    requires AppOf(files) == Success(spec)
    ensures files != [] && spec.namespace == NamespaceText(files[0])
    ensures OneApplication(files, spec.applicationName) && spec.messageNames == MessagesIn(files)
  {
    AcceptedStages(files, spec);
    FilesExact(files);
    MessagesExact(files);
    var name :| OneApplication(files, name);
    ApplicationNameIs(files, name);
  }
}
