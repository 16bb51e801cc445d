/** Resolving the application sections of the IDL: parse_app_idl of tools/someip_idl/generate_someip_app.py.
    Every stage accepts exactly the records its predicate describes, and says which stage failed. */
module AppIdl {
  import opened Bytes
  import IdlParser

  /** An int or a numeric string, or anything else. */
  datatype RawId = Number(i: int) | NotNumeric

  datatype RawMethod = RawMethod(name: Option<string>, methodId: Option<RawId>, request: Option<string>, response: Option<string>)
  datatype RawEvent = RawEvent(name: Option<string>, eventId: Option<RawId>, payload: Option<string>)
  datatype RawService = RawService(name: Option<string>, serviceId: Option<RawId>, methods: seq<RawMethod>, events: seq<RawEvent>)
  datatype RawServiceInstance = RawServiceInstance(name: Option<string>, service: Option<string>, instanceId: Option<RawId>)
  datatype RawClient = RawClient(name: Option<string>, service: Option<string>, methods: seq<string>, events: seq<string>)
  datatype RawClientInstance = RawClientInstance(name: Option<string>, client: Option<string>, serviceInstance: Option<string>)
  datatype RawApplication = RawApplication(name: Option<string>, serviceInstances: seq<RawServiceInstance>, clientInstances: seq<RawClientInstance>)
  datatype RawAppFile = RawAppFile(namespace: Option<string>, application: Option<RawApplication>, messages: seq<Option<string>>,
                                   services: seq<RawService>, clients: seq<RawClient>)

  datatype MethodSpec = MethodSpec(name: string, methodId: int, request: string, response: string)
  datatype EventSpec = EventSpec(name: string, eventId: int, payload: string)
  datatype ServiceSpec = ServiceSpec(name: string, serviceId: int, methods: seq<MethodSpec>, events: seq<EventSpec>)
  datatype ServiceInstanceSpec = ServiceInstanceSpec(name: string, serviceName: string, instanceId: int)
  datatype ClientSpec = ClientSpec(name: string, serviceName: string, methods: seq<MethodSpec>, events: seq<EventSpec>)
  datatype ClientInstanceSpec = ClientInstanceSpec(name: string, clientName: string, serviceInstanceName: string)
  datatype AppSpec = AppSpec(namespace: string, applicationName: string, messageNames: set<string>,
                             services: seq<ServiceSpec>, serviceInstances: seq<ServiceInstanceSpec>,
                             clients: seq<ClientSpec>, clientInstances: seq<ClientInstanceSpec>)

  datatype AppError = BadFiles | BadService | BadServiceInstance | BadClient | BadClientInstance

  // ---- dictionaries by name, where the last entry of a name wins

  function ByName<T>(nameOf: T -> string, s: seq<T>): map<string, T>
    decreases |s|
  {
    if s == [] then map[] else ByName(nameOf, s[..|s| - 1])[nameOf(s[|s| - 1]) := s[|s| - 1]]
  }

  lemma {:induction false} ByNameHas<T>(nameOf: T -> string, s: seq<T>, n: string)
    ensures n in ByName(nameOf, s) <==> exists i :: 0 <= i < |s| && nameOf(s[i]) == n
    ensures n in ByName(nameOf, s) ==> ByName(nameOf, s)[n] in s && nameOf(ByName(nameOf, s)[n]) == n
    decreases |s|
  {
    if s != [] {
      var last := |s| - 1;
      ByNameHas(nameOf, s[..last], n);
      assert forall i :: 0 <= i < last ==> s[..last][i] == s[i];
      assert nameOf(s[last]) == n ==> exists i :: 0 <= i < |s| && nameOf(s[i]) == n;
    }
  }

  function MethodName(m: MethodSpec): string { m.name }
  function EventName(e: EventSpec): string { e.name }
  function ServiceName(s: ServiceSpec): string { s.name }
  function ServiceInstanceName(s: ServiceInstanceSpec): string { s.name }
  function ClientName(c: ClientSpec): string { c.name }

  // ---- records that are accepted, and what they resolve to

  predicate Proper(name: Option<string>) {
    name.Some? && IdlParser.Identifier(name.value)
  }

  predicate Numeric(id: Option<RawId>) {
    id.Some? && id.value.Number?
  }

  predicate Known(name: Option<string>, names: set<string>) {
    name.Some? && name.value in names
  }

  function Text(name: Option<string>): string {
    if name.Some? then name.value else ""
  }

  function Id(id: Option<RawId>): int {
    if Numeric(id) then id.value.i else 0
  }

  predicate MethodOk(raw: RawMethod, messages: set<string>) {
    Proper(raw.name) && Numeric(raw.methodId) && Known(raw.request, messages) && Known(raw.response, messages)
  }

  function MethodOf(raw: RawMethod): MethodSpec {
    MethodSpec(Text(raw.name), Id(raw.methodId), Text(raw.request), Text(raw.response))
  }

  predicate EventOk(raw: RawEvent, messages: set<string>) {
    Proper(raw.name) && Numeric(raw.eventId) && Known(raw.payload, messages)
  }

  function EventOf(raw: RawEvent): EventSpec {
    EventSpec(Text(raw.name), Id(raw.eventId), Text(raw.payload))
  }

  predicate ServiceOk(raw: RawService, messages: set<string>) {
    && Proper(raw.name) && Numeric(raw.serviceId)
    && (forall k :: 0 <= k < |raw.methods| ==> MethodOk(raw.methods[k], messages))
    && (forall k :: 0 <= k < |raw.events| ==> EventOk(raw.events[k], messages))
  }

  function ServiceOf(raw: RawService): ServiceSpec {
    ServiceSpec(Text(raw.name), Id(raw.serviceId),
                seq(|raw.methods|, k requires 0 <= k < |raw.methods| => MethodOf(raw.methods[k])),
                seq(|raw.events|, k requires 0 <= k < |raw.events| => EventOf(raw.events[k])))
  }

  ghost predicate ServicesOk(raws: seq<RawService>, messages: set<string>) {
    && (forall i :: 0 <= i < |raws| ==> ServiceOk(raws[i], messages))
    && (forall i, j :: 0 <= i < j < |raws| ==> raws[i].name != raws[j].name)
  }

  function ServicesOf(raws: seq<RawService>): (r: seq<ServiceSpec>)
    ensures |r| == |raws| && forall i :: 0 <= i < |r| ==> r[i] == ServiceOf(raws[i])
  {
    seq(|raws|, i requires 0 <= i < |raws| => ServiceOf(raws[i]))
  }

  predicate ServiceInstanceOk(raw: RawServiceInstance, services: map<string, ServiceSpec>) {
    Proper(raw.name) && Numeric(raw.instanceId) && Known(raw.service, services.Keys)
  }

  function ServiceInstanceOf(raw: RawServiceInstance): ServiceInstanceSpec {
    ServiceInstanceSpec(Text(raw.name), Text(raw.service), Id(raw.instanceId))
  }

  ghost predicate ServiceInstancesOk(raws: seq<RawServiceInstance>, services: map<string, ServiceSpec>) {
    && (forall i :: 0 <= i < |raws| ==> ServiceInstanceOk(raws[i], services))
    && (forall i, j :: 0 <= i < j < |raws| ==> raws[i].name != raws[j].name)
  }

  function ServiceInstancesOf(raws: seq<RawServiceInstance>): (r: seq<ServiceInstanceSpec>)
    ensures |r| == |raws| && forall i :: 0 <= i < |r| ==> r[i] == ServiceInstanceOf(raws[i])
  {
    seq(|raws|, i requires 0 <= i < |raws| => ServiceInstanceOf(raws[i]))
  }

  predicate ClientOk(raw: RawClient, services: map<string, ServiceSpec>) {
    && Proper(raw.name) && Known(raw.service, services.Keys)
    && (forall k :: 0 <= k < |raw.methods| ==> raw.methods[k] in ByName(MethodName, services[raw.service.value].methods))
    && (forall k :: 0 <= k < |raw.events| ==> raw.events[k] in ByName(EventName, services[raw.service.value].events))
  }

  function ClientOf(raw: RawClient, services: map<string, ServiceSpec>): ClientSpec
    requires ClientOk(raw, services)
  {
    var methods, events := ByName(MethodName, services[raw.service.value].methods), ByName(EventName, services[raw.service.value].events);
    ClientSpec(raw.name.value, raw.service.value,
               seq(|raw.methods|, k requires 0 <= k < |raw.methods| => methods[raw.methods[k]]),
               seq(|raw.events|, k requires 0 <= k < |raw.events| => events[raw.events[k]]))
  }

  ghost predicate ClientsOk(raws: seq<RawClient>, services: map<string, ServiceSpec>) {
    && (forall i :: 0 <= i < |raws| ==> ClientOk(raws[i], services))
    && (forall i, j :: 0 <= i < j < |raws| ==> raws[i].name != raws[j].name)
  }

  ghost function ClientsOf(raws: seq<RawClient>, services: map<string, ServiceSpec>): (r: seq<ClientSpec>)
    requires ClientsOk(raws, services)
    ensures |r| == |raws| && forall i :: 0 <= i < |r| ==> r[i] == ClientOf(raws[i], services)
  {
    seq(|raws|, i requires 0 <= i < |raws| => ClientOf(raws[i], services))
  }

  predicate ClientInstanceOk(raw: RawClientInstance, clients: map<string, ClientSpec>, instances: map<string, ServiceInstanceSpec>) {
    && Proper(raw.name) && Known(raw.client, clients.Keys) && Known(raw.serviceInstance, instances.Keys)
    && clients[raw.client.value].serviceName == instances[raw.serviceInstance.value].serviceName
  }

  function ClientInstanceOf(raw: RawClientInstance): ClientInstanceSpec {
    ClientInstanceSpec(Text(raw.name), Text(raw.client), Text(raw.serviceInstance))
  }

  ghost predicate ClientInstancesOk(raws: seq<RawClientInstance>, clients: map<string, ClientSpec>, instances: map<string, ServiceInstanceSpec>) {
    && (forall i :: 0 <= i < |raws| ==> ClientInstanceOk(raws[i], clients, instances))
    && (forall i, j :: 0 <= i < j < |raws| ==> raws[i].name != raws[j].name)
  }

  function ClientInstancesOf(raws: seq<RawClientInstance>): (r: seq<ClientInstanceSpec>)
    ensures |r| == |raws| && forall i :: 0 <= i < |r| ==> r[i] == ClientInstanceOf(raws[i])
  {
    seq(|raws|, i requires 0 <= i < |raws| => ClientInstanceOf(raws[i]))
  }

  // ---- the loops

  method ResolveMethods(raws: seq<RawMethod>, messages: set<string>) returns (ok: bool, methods: seq<MethodSpec>)
    ensures ok <==> forall k :: 0 <= k < |raws| ==> MethodOk(raws[k], messages)
    ensures ok ==> methods == seq(|raws|, k requires 0 <= k < |raws| => MethodOf(raws[k]))
  {
    methods := [];
    for i := 0 to |raws|
      invariant forall k :: 0 <= k < i ==> MethodOk(raws[k], messages)
      invariant |methods| == i && forall k :: 0 <= k < i ==> methods[k] == MethodOf(raws[k])
    {
      var raw := raws[i];
      if raw.name == None || raw.methodId == None || raw.request == None || raw.response == None {
        return false, [];
      }
      if !IdlParser.Identifier(raw.name.value) || raw.request.value !in messages || raw.response.value !in messages {
        return false, [];
      }
      if raw.methodId.value.NotNumeric? {
        return false, [];
      }
      methods := methods + [MethodSpec(raw.name.value, raw.methodId.value.i, raw.request.value, raw.response.value)];
    }
    return true, methods;
  }

  method ResolveEvents(raws: seq<RawEvent>, messages: set<string>) returns (ok: bool, events: seq<EventSpec>)
    ensures ok <==> forall k :: 0 <= k < |raws| ==> EventOk(raws[k], messages)
    ensures ok ==> events == seq(|raws|, k requires 0 <= k < |raws| => EventOf(raws[k]))
  {
    events := [];
    for i := 0 to |raws|
      invariant forall k :: 0 <= k < i ==> EventOk(raws[k], messages)
      invariant |events| == i && forall k :: 0 <= k < i ==> events[k] == EventOf(raws[k])
    {
      var raw := raws[i];
      if raw.name == None || raw.eventId == None || raw.payload == None {
        return false, [];
      }
      if !IdlParser.Identifier(raw.name.value) || raw.payload.value !in messages || raw.eventId.value.NotNumeric? {
        return false, [];
      }
      events := events + [EventSpec(raw.name.value, raw.eventId.value.i, raw.payload.value)];
    }
    return true, events;
  }

  method ResolveService(raw: RawService, messages: set<string>) returns (ok: bool, service: ServiceSpec)
    ensures ok <==> ServiceOk(raw, messages)
    ensures ok ==> service == ServiceOf(raw)
  {
    service := ServiceSpec("", 0, [], []);
    if !Proper(raw.name) {
      return false, service;
    }
    var methodsOk, methods := ResolveMethods(raw.methods, messages);
    if !methodsOk {
      return false, service;
    }
    var eventsOk, events := ResolveEvents(raw.events, messages);
    if !eventsOk || !Numeric(raw.serviceId) {
      return false, service;
    }
    return true, ServiceSpec(raw.name.value, raw.serviceId.value.i, methods, events);
  }

  /** Names are checked against the dictionary built so far. */
  method ResolveServices(raws: seq<RawService>, messages: set<string>) returns (r: Result<seq<ServiceSpec>, AppError>)
    ensures ServicesOk(raws, messages) ==> r == Success(ServicesOf(raws))
    ensures !ServicesOk(raws, messages) ==> r == Failure(BadService)
  {
    var services: seq<ServiceSpec> := [];
    var names: set<string> := {};
    for i := 0 to |raws|
      invariant ServicesOk(raws[..i], messages)
      invariant |services| == i && forall k :: 0 <= k < i ==> services[k] == ServiceOf(raws[k])
      invariant names == set k | 0 <= k < i :: Text(raws[k].name)
    {
      var ok, service := ResolveService(raws[i], messages);
      if !ok || service.name in names {
        return Failure(BadService);
      }
      names := names + {service.name};
      services := services + [service];
    }
    assert raws[..|raws|] == raws;
    assert services == ServicesOf(raws);
    return Success(services);
  }

  method ResolveServiceInstances(raws: seq<RawServiceInstance>, services: map<string, ServiceSpec>)
    returns (r: Result<seq<ServiceInstanceSpec>, AppError>)
    ensures ServiceInstancesOk(raws, services) ==> r == Success(ServiceInstancesOf(raws))
    ensures !ServiceInstancesOk(raws, services) ==> r == Failure(BadServiceInstance)
  {
    var instances: seq<ServiceInstanceSpec> := [];
    var names: set<string> := {};
    for i := 0 to |raws|
      invariant ServiceInstancesOk(raws[..i], services)
      invariant |instances| == i && forall k :: 0 <= k < i ==> instances[k] == ServiceInstanceOf(raws[k])
      invariant names == set k | 0 <= k < i :: Text(raws[k].name)
    {
      var raw := raws[i];
      if !Proper(raw.name) || raw.name.value in names || !Known(raw.service, services.Keys) || !Numeric(raw.instanceId) {
        return Failure(BadServiceInstance);
      }
      names := names + {raw.name.value};
      instances := instances + [ServiceInstanceSpec(raw.name.value, raw.service.value, raw.instanceId.value.i)];
    }
    assert raws[..|raws|] == raws;
    assert instances == ServiceInstancesOf(raws);
    return Success(instances);
  }

  /** The named ones among a service's methods. */
  method PickMethods(names: seq<string>, methodMap: map<string, MethodSpec>) returns (ok: bool, methods: seq<MethodSpec>)
    ensures ok <==> forall k :: 0 <= k < |names| ==> names[k] in methodMap
    ensures ok ==> methods == seq(|names|, k requires 0 <= k < |names| => methodMap[names[k]])
  {
    methods := [];
    for i := 0 to |names|
      invariant forall k :: 0 <= k < i ==> names[k] in methodMap
      invariant |methods| == i && forall k :: 0 <= k < i ==> methods[k] == methodMap[names[k]]
    {
      if names[i] !in methodMap {
        return false, [];
      }
      methods := methods + [methodMap[names[i]]];
    }
    return true, methods;
  }

  method PickEvents(names: seq<string>, eventMap: map<string, EventSpec>) returns (ok: bool, events: seq<EventSpec>)
    ensures ok <==> forall k :: 0 <= k < |names| ==> names[k] in eventMap
    ensures ok ==> events == seq(|names|, k requires 0 <= k < |names| => eventMap[names[k]])
  {
    events := [];
    for i := 0 to |names|
      invariant forall k :: 0 <= k < i ==> names[k] in eventMap
      invariant |events| == i && forall k :: 0 <= k < i ==> events[k] == eventMap[names[k]]
    {
      if names[i] !in eventMap {
        return false, [];
      }
      events := events + [eventMap[names[i]]];
    }
    return true, events;
  }

  method ResolveClient(raw: RawClient, services: map<string, ServiceSpec>) returns (ok: bool, client: ClientSpec)
    ensures ok <==> ClientOk(raw, services)
    ensures ok ==> client == ClientOf(raw, services)
  {
    client := ClientSpec("", "", [], []);
    if !Proper(raw.name) || !Known(raw.service, services.Keys) {
      return false, client;
    }
    var service := services[raw.service.value];
    var methodsOk, methods := PickMethods(raw.methods, ByName(MethodName, service.methods));
    if !methodsOk {
      return false, client;
    }
    var eventsOk, events := PickEvents(raw.events, ByName(EventName, service.events));
    if !eventsOk {
      return false, client;
    }
    return true, ClientSpec(raw.name.value, raw.service.value, methods, events);
  }

  method ResolveClients(raws: seq<RawClient>, services: map<string, ServiceSpec>) returns (r: Result<seq<ClientSpec>, AppError>)
    ensures ClientsOk(raws, services) ==> r == Success(ClientsOf(raws, services))
    ensures !ClientsOk(raws, services) ==> r == Failure(BadClient)
  {
    var clients: seq<ClientSpec> := [];
    var names: set<string> := {};
    for i := 0 to |raws|
      invariant ClientsOk(raws[..i], services)
      invariant |clients| == i && forall k :: 0 <= k < i ==> ClientOk(raws[k], services) && clients[k] == ClientOf(raws[k], services)
      invariant names == set k | 0 <= k < i :: Text(raws[k].name)
    {
      var ok, client := ResolveClient(raws[i], services);
      if !ok || client.name in names {
        return Failure(BadClient);
      }
      names := names + {client.name};
      clients := clients + [client];
    }
    assert raws[..|raws|] == raws;
    assert clients == ClientsOf(raws, services);
    return Success(clients);
  }

  method ResolveClientInstances(raws: seq<RawClientInstance>, clients: map<string, ClientSpec>, instances: map<string, ServiceInstanceSpec>)
    returns (r: Result<seq<ClientInstanceSpec>, AppError>)
    ensures ClientInstancesOk(raws, clients, instances) ==> r == Success(ClientInstancesOf(raws))
    ensures !ClientInstancesOk(raws, clients, instances) ==> r == Failure(BadClientInstance)
  {
    var bound: seq<ClientInstanceSpec> := [];
    var names: set<string> := {};
    for i := 0 to |raws|
      invariant ClientInstancesOk(raws[..i], clients, instances)
      invariant |bound| == i && forall k :: 0 <= k < i ==> bound[k] == ClientInstanceOf(raws[k])
      invariant names == set k | 0 <= k < i :: Text(raws[k].name)
    {
      var raw := raws[i];
      if !Proper(raw.name) || raw.name.value in names {
        return Failure(BadClientInstance);
      }
      names := names + {raw.name.value};
      if !Known(raw.client, clients.Keys) || !Known(raw.serviceInstance, instances.Keys) {
        return Failure(BadClientInstance);
      }
      if clients[raw.client.value].serviceName != instances[raw.serviceInstance.value].serviceName {
        return Failure(BadClientInstance);
      }
      bound := bound + [ClientInstanceSpec(raw.name.value, raw.client.value, raw.serviceInstance.value)];
    }
    assert raws[..|raws|] == raws;
    assert bound == ClientInstancesOf(raws);
    return Success(bound);
  }

  // ---- several files

  function Concat<T>(part: RawAppFile -> seq<T>, files: seq<RawAppFile>): seq<T>
    decreases |files|
  {
    if files == [] then [] else Concat(part, files[..|files| - 1]) + part(files[|files| - 1])
  }

  function ServicePart(f: RawAppFile): seq<RawService> { f.services }
  function ClientPart(f: RawAppFile): seq<RawClient> { f.clients }
  function MessagePart(f: RawAppFile): seq<Option<string>> { f.messages }

  function ServiceInstancePart(f: RawAppFile): seq<RawServiceInstance> {
    if f.application.Some? then f.application.value.serviceInstances else []
  }

  function ClientInstancePart(f: RawAppFile): seq<RawClientInstance> {
    if f.application.Some? then f.application.value.clientInstances else []
  }

  function Namespace(f: RawAppFile): string {
    if f.namespace.Some? then f.namespace.value else "someip::generated"
  }

  /** One namespace, one application name, stated in one file at least. */
  predicate FileOk(f: RawAppFile, namespace: string, application: Option<string>) {
    && Namespace(f) == namespace
    && (f.application.Some? ==> Proper(f.application.value.name) && f.application.value.name == application)
    && forall k :: 0 <= k < |f.messages| ==> Proper(f.messages[k])
  }

  /** The application name of the first file that has one. */
  function ApplicationName(files: seq<RawAppFile>): Option<string>
    decreases |files|
  {
    if files == [] then None
    else
      var earlier, last := ApplicationName(files[..|files| - 1]), files[|files| - 1];
      if earlier.Some? then earlier else if last.application.Some? then last.application.value.name else None
  }

  ghost predicate FilesOk(files: seq<RawAppFile>) {
    && files != [] && ApplicationName(files).Some?
    && forall i :: 0 <= i < |files| ==> FileOk(files[i], Namespace(files[0]), ApplicationName(files))
  }

  function MessageNames(files: seq<RawAppFile>): set<string> {
    set m | m in Concat(MessagePart, files) :: Text(m)
  }

  /** What the files come to, stage by stage; the first stage that fails decides. */
  ghost function AppOf(files: seq<RawAppFile>): Result<AppSpec, AppError> {
    var messages := MessageNames(files);
    var rawServices, rawInstances := Concat(ServicePart, files), Concat(ServiceInstancePart, files);
    var rawClients, rawBound := Concat(ClientPart, files), Concat(ClientInstancePart, files);
    if !FilesOk(files) then Failure(BadFiles)
    else if !ServicesOk(rawServices, messages) then Failure(BadService)
    else
      var services := ServicesOf(rawServices);
      var serviceMap := ByName(ServiceName, services);
      if !ServiceInstancesOk(rawInstances, serviceMap) then Failure(BadServiceInstance)
      else if !ClientsOk(rawClients, serviceMap) then Failure(BadClient)
      else
        var instances, clients := ServiceInstancesOf(rawInstances), ClientsOf(rawClients, serviceMap);
        if !ClientInstancesOk(rawBound, ByName(ClientName, clients), ByName(ServiceInstanceName, instances)) then Failure(BadClientInstance)
        else Success(AppSpec(Namespace(files[0]), ApplicationName(files).value, messages, services, instances, clients, ClientInstancesOf(rawBound)))
  }

  /** What an accepted application consists of. */
  lemma AcceptedStages(files: seq<RawAppFile>, spec: AppSpec)
    requires AppOf(files) == Success(spec)
    ensures FilesOk(files)
    ensures ServicesOk(Concat(ServicePart, files), MessageNames(files)) && spec.services == ServicesOf(Concat(ServicePart, files))
    ensures var services := ByName(ServiceName, spec.services);
            && ServiceInstancesOk(Concat(ServiceInstancePart, files), services)
            && spec.serviceInstances == ServiceInstancesOf(Concat(ServiceInstancePart, files))
            && ClientsOk(Concat(ClientPart, files), services) && spec.clients == ClientsOf(Concat(ClientPart, files), services)
    ensures ClientInstancesOk(Concat(ClientInstancePart, files), ByName(ClientName, spec.clients), ByName(ServiceInstanceName, spec.serviceInstances))
    ensures spec.clientInstances == ClientInstancesOf(Concat(ClientInstancePart, files))
  {
    var services := ServicesOf(Concat(ServicePart, files));
    var clients := ClientsOf(Concat(ClientPart, files), ByName(ServiceName, services));
    assert spec.services == services && spec.clients == clients;
  }

  datatype Merged = Merged(applicationName: Option<string>, messages: set<string>, services: seq<RawService>, clients: seq<RawClient>,
                           serviceInstances: seq<RawServiceInstance>, clientInstances: seq<RawClientInstance>)

  ghost predicate MergedFrom(m: Merged, files: seq<RawAppFile>) {
    && m.applicationName == ApplicationName(files) && m.messages == MessageNames(files)
    && m.services == Concat(ServicePart, files) && m.clients == Concat(ClientPart, files)
    && m.serviceInstances == Concat(ServiceInstancePart, files) && m.clientInstances == Concat(ClientInstancePart, files)
  }

  ghost predicate PrefixOk(files: seq<RawAppFile>, namespace: string) {
    forall i :: 0 <= i < |files| ==> FileOk(files[i], namespace, ApplicationName(files))
  }

  lemma {:induction false} NameStays(files: seq<RawAppFile>, k: nat)
    requires k <= |files| && ApplicationName(files[..k]).Some?
    ensures ApplicationName(files) == ApplicationName(files[..k])
    decreases |files|
  {
    if k < |files| {
      assert files[..|files| - 1][..k] == files[..k];
      NameStays(files[..|files| - 1], k);
    } else {
      assert files[..k] == files;
    }
  }

  /** A file that fails against what its predecessors settled makes the whole list fail. */
  lemma BadFileDecides(files: seq<RawAppFile>, k: nat)
    requires k < |files| && PrefixOk(files[..k], Namespace(files[0]))
    requires !FileOk(files[k], Namespace(files[0]), ApplicationName(files[..k + 1]))
    ensures !FilesOk(files)
  {
    assert files[..k + 1][..k] == files[..k];
    if ApplicationName(files[..k + 1]).Some? {
      NameStays(files, k + 1);
    }
  }

  lemma MergeStep(m: Merged, files: seq<RawAppFile>, k: nat)
    requires k < |files| && MergedFrom(m, files[..k])
    ensures var f := files[k];
            MergedFrom(Merged(if m.applicationName.Some? then m.applicationName else if f.application.Some? then f.application.value.name else None,
                              m.messages + (set x | x in f.messages :: Text(x)), m.services + f.services, m.clients + f.clients,
                              m.serviceInstances + ServiceInstancePart(f), m.clientInstances + ClientInstancePart(f)), files[..k + 1])
  {
    assert files[..k + 1][..k] == files[..k];
  }

  lemma PrefixStep(files: seq<RawAppFile>, k: nat, namespace: string)
    requires k < |files| && PrefixOk(files[..k], namespace)
    requires FileOk(files[k], namespace, ApplicationName(files[..k + 1]))
    ensures PrefixOk(files[..k + 1], namespace)
  {
    assert files[..k + 1][..k] == files[..k];
    var longer := files[..k + 1];
    forall i | 0 <= i < |longer|
      ensures FileOk(longer[i], namespace, ApplicationName(longer))
    {
      assert i < k ==> FileOk(files[..k][i], namespace, ApplicationName(files[..k]));
    }
  }

  /** One file against what its predecessors settled: the namespace, and the application name if any. */
  method CheckFile(f: RawAppFile, namespace: string, settled: Option<string>) returns (ok: bool, name: Option<string>)
    ensures name == if settled.Some? then settled else if f.application.Some? then f.application.value.name else None
    ensures ok <==> FileOk(f, namespace, name)
  {
    name := settled;
    if f.application.Some? && settled == None {
      name := f.application.value.name;
    }
    if Namespace(f) != namespace {
      return false, name;
    }
    if f.application.Some? {
      var own := f.application.value.name;
      if own == None || !IdlParser.Identifier(own.value) || own != name {
        return false, name;
      }
    }
    for k := 0 to |f.messages|
      invariant forall j :: 0 <= j < k ==> Proper(f.messages[j])
    {
      if f.messages[k] == None || !IdlParser.Identifier(f.messages[k].value) {
        return false, name;
      }
    }
    return true, name;
  }

  method MergeFiles(files: seq<RawAppFile>) returns (r: Result<Merged, AppError>)
    ensures FilesOk(files) ==> r.Success? && MergedFrom(r.value, files)
    ensures !FilesOk(files) ==> r == Failure(BadFiles)
  {
    if files == [] {
      return Failure(BadFiles);
    }
    var m := Merged(None, {}, [], [], [], []);
    for i := 0 to |files|
      invariant MergedFrom(m, files[..i]) && PrefixOk(files[..i], Namespace(files[0]))
    {
      var f := files[i];
      MergeStep(m, files, i);
      var ok, name := CheckFile(f, Namespace(files[0]), m.applicationName);
      if !ok {
        BadFileDecides(files, i);
        return Failure(BadFiles);
      }
      PrefixStep(files, i, Namespace(files[0]));
      m := Merged(name, m.messages + (set x | x in f.messages :: Text(x)), m.services + f.services, m.clients + f.clients,
                  m.serviceInstances + ServiceInstancePart(f), m.clientInstances + ClientInstancePart(f));
    }
    assert files[..|files|] == files;
    if m.applicationName == None {
      return Failure(BadFiles);
    }
    return Success(m);
  }

  method ParseAppIdl(files: seq<RawAppFile>) returns (r: Result<AppSpec, AppError>)
    ensures r == AppOf(files)
  {
    var m := MergeFiles(files);
    if m.Failure? {
      return Failure(BadFiles);
    }
    var services := ResolveServices(m.value.services, m.value.messages);
    if services.Failure? {
      return Failure(services.error);
    }
    var serviceMap := ByName(ServiceName, services.value);
    var instances := ResolveServiceInstances(m.value.serviceInstances, serviceMap);
    if instances.Failure? {
      return Failure(instances.error);
    }
    var clients := ResolveClients(m.value.clients, serviceMap);
    if clients.Failure? {
      return Failure(clients.error);
    }
    var bound := ResolveClientInstances(m.value.clientInstances, ByName(ClientName, clients.value), ByName(ServiceInstanceName, instances.value));
    if bound.Failure? {
      return Failure(bound.error);
    }
    return Success(AppSpec(Namespace(files[0]), m.value.applicationName.value, m.value.messages,
                           services.value, instances.value, clients.value, bound.value));
  }
}
