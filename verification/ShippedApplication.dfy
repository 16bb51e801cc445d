/** The application that the repository ships with the vehicle node's IDL, from its records to its header. */
module ShippedApplication {
  import opened Bytes
  import IdlWire
  import opened AppIdl
  import opened AppHeader
  import opened AppRecords
  import opened AppEmitted

  const NAMESPACE := Some("openveh::someip::vehicle")

  const INFO_METHOD := RawMethod(Some("GetVehicleInfo"), Some(Number(0x0001)), Some("GetVehicleInfoRequest"), Some("GetVehicleInfoResponse"))
  const SPEED_METHOD := RawMethod(Some("SetCruiseSpeed"), Some(Number(0x0003)), Some("SetCruiseSpeedRequest"), Some("SetCruiseSpeedResponse"))
  const INFO_EVENT := RawEvent(Some("VehicleInfoChanged"), Some(Number(0x8001)), Some("VehicleInfoChangedEvent"))
  const SERVICE := RawService(Some("VehicleInfoService"), Some(Number(0x1234)), [INFO_METHOD, SPEED_METHOD], [INFO_EVENT])
  const INSTANCE := RawServiceInstance(Some("VehicleInfoService"), Some("VehicleInfoService"), Some(Number(0x0001)))
  const INFO_CLIENT := RawClient(Some("VehicleInfoClient"), Some("VehicleInfoService"), ["GetVehicleInfo"], ["VehicleInfoChanged"])
  const SPEED_CLIENT := RawClient(Some("CruiseControlClient"), Some("VehicleInfoService"), ["SetCruiseSpeed"], [])
  const INFO_BINDING := RawClientInstance(Some("VehicleInfoClientMain"), Some("VehicleInfoClient"), Some("VehicleInfoService"))
  const SPEED_BINDING := RawClientInstance(Some("CruiseControlClientMain"), Some("CruiseControlClient"), Some("VehicleInfoService"))
  const MESSAGES: seq<Option<string>> := [
    Some("GetVehicleInfoRequest"), Some("GetVehicleInfoResponse"), Some("VehicleInfoChangedEvent"),
    Some("SetCruiseSpeedRequest"), Some("SetCruiseSpeedResponse")]

  const APPLICATION_JSON :=
    RawAppFile(NAMESPACE, Some(RawApplication(Some("VehicleNodeApplication"), [INSTANCE], [INFO_BINDING, SPEED_BINDING])), [], [], [])
  const CLIENT_JSON := RawAppFile(NAMESPACE, None, [], [], [INFO_CLIENT, SPEED_CLIENT])
  const MESSAGE_JSON := RawAppFile(NAMESPACE, None, MESSAGES, [], [])
  const SERVER_JSON := RawAppFile(NAMESPACE, None, [], [SERVICE], [])

  /** In the order in which the directory is read. */
  const FILES := [APPLICATION_JSON, CLIENT_JSON, MESSAGE_JSON, SERVER_JSON]

  const INFO_STUB := MethodStub("GetVehicleInfo", "GetVehicleInfoRequest", "GetVehicleInfoResponse", 0x1234, 0x0001)
  const SPEED_STUB := MethodStub("SetCruiseSpeed", "SetCruiseSpeedRequest", "SetCruiseSpeedResponse", 0x1234, 0x0003)
  const EVENT_STUB := EventStub("VehicleInfoChanged", "VehicleInfoChangedEvent", 0x1234, 0x8001)

  const HEADER := Header(
    [ServiceClass("VehicleInfoService", [INFO_STUB, SPEED_STUB], [EVENT_STUB])],
    [ClientClass("VehicleInfoClient", [INFO_STUB], [EVENT_STUB]), ClientClass("CruiseControlClient", [SPEED_STUB], [])],
    [AttachPoint("VehicleInfoService", "VehicleInfoService", 0x0001)],
    [Factory("VehicleInfoClientMain", "VehicleInfoClient", 0x0001), Factory("CruiseControlClientMain", "CruiseControlClient", 0x0001)])

  lemma FirstFile(f: RawAppFile, rest: seq<RawAppFile>)
    ensures ServicesIn([f] + rest) == f.services + ServicesIn(rest) && ClientsIn([f] + rest) == f.clients + ClientsIn(rest)
    ensures InstancesIn([f] + rest) == (if f.application.Some? then f.application.value.serviceInstances else []) + InstancesIn(rest)
    ensures BindingsIn([f] + rest) == (if f.application.Some? then f.application.value.clientInstances else []) + BindingsIn(rest)
  {
    assert ([f] + rest)[1..] == rest;
  }

  lemma Sections()
    ensures ServicesIn(FILES) == [SERVICE] && ClientsIn(FILES) == [INFO_CLIENT, SPEED_CLIENT]
    ensures InstancesIn(FILES) == [INSTANCE] && BindingsIn(FILES) == [INFO_BINDING, SPEED_BINDING]
  {
    var last := [SERVER_JSON] + [];
    var two := [MESSAGE_JSON] + last;
    var three := [CLIENT_JSON] + two;
    FirstFile(SERVER_JSON, []);
    FirstFile(MESSAGE_JSON, last);
    FirstFile(CLIENT_JSON, two);
    FirstFile(APPLICATION_JSON, three);
    assert [APPLICATION_JSON] + three == FILES;
  }

  lemma MessagesKnown()
    ensures {"GetVehicleInfoRequest", "GetVehicleInfoResponse", "VehicleInfoChangedEvent", "SetCruiseSpeedRequest", "SetCruiseSpeedResponse"}
            <= MessagesIn(FILES)
  {
    assert FILES[2].messages[0].value == "GetVehicleInfoRequest" && FILES[2].messages[1].value == "GetVehicleInfoResponse";
    assert FILES[2].messages[2].value == "VehicleInfoChangedEvent" && FILES[2].messages[3].value == "SetCruiseSpeedRequest";
    assert FILES[2].messages[4].value == "SetCruiseSpeedResponse";
  }

  lemma ServiceProper(messages: set<string>)
    requires {"GetVehicleInfoRequest", "GetVehicleInfoResponse", "VehicleInfoChangedEvent", "SetCruiseSpeedRequest", "SetCruiseSpeedResponse"} <= messages
    ensures ServiceRecord(SERVICE, messages)
  {
    assert MethodRecord(INFO_METHOD, messages) && MethodRecord(SPEED_METHOD, messages) && EventRecord(INFO_EVENT, messages);
  }

  lemma MessageNamesProper(k: nat)
    requires k < |MESSAGES|
    ensures ProperText(MESSAGES[k])
  {
  }

  lemma MessagesProper()
    ensures MessagesNamed(FILES)
  {
    forall i, k | 0 <= i < |FILES| && 0 <= k < |FILES[i].messages|
      ensures ProperText(FILES[i].messages[k])
    {
      assert FILES[i].messages == if i == 2 then MESSAGES else [];
      MessageNamesProper(k);
    }
  }

  lemma ClientsProper()
    ensures ClientsRecorded([INFO_CLIENT, SPEED_CLIENT], [SERVICE])
  {
    assert SERVICE.methods[0].name == Some("GetVehicleInfo") && SERVICE.methods[1].name == Some("SetCruiseSpeed");
    assert SERVICE.events[0].name == Some("VehicleInfoChanged");
    assert ServiceNamed([SERVICE], 0, INFO_CLIENT.service) && ServiceNamed([SERVICE], 0, SPEED_CLIENT.service);
    assert Offers(SERVICE, INFO_CLIENT) && Offers(SERVICE, SPEED_CLIENT);
    assert |"VehicleInfoClient"| == 17 && |"CruiseControlClient"| == 19;
  }

  lemma BindingsProper()
    ensures BindingsRecorded([INFO_BINDING, SPEED_BINDING], [INFO_CLIENT, SPEED_CLIENT], [INSTANCE])
  {
    assert Binds(INFO_BINDING, [INFO_CLIENT, SPEED_CLIENT], [INSTANCE], 0, 0);
    assert Binds(SPEED_BINDING, [INFO_CLIENT, SPEED_CLIENT], [INSTANCE], 1, 0);
    assert |"VehicleInfoClientMain"| == 21 && |"CruiseControlClientMain"| == 23;
  }

  lemma OneOfEach()
    ensures OneNamespace(FILES) && OneApplication(FILES, "VehicleNodeApplication")
  {
    assert FILES[0].application.Some?;
    assert forall i :: 0 <= i < |FILES| ==> FILES[i].namespace == NAMESPACE;
  }

  lemma InstanceProper()
    ensures InstancesRecorded([INSTANCE], [SERVICE])
  {
    assert ServiceNamed([SERVICE], 0, INSTANCE.service);
  }

  /** The shipped files make an application. */
  lemma ShippedProper()
    ensures ProperApplication(FILES)
  {
    OneOfEach();
    MessagesProper();
    Sections();
    ServicesProper();
    ClientsProper();
    InstanceProper();
    BindingsProper();
  }

  lemma ServicesProper()
    ensures ServicesRecorded([SERVICE], MessagesIn(FILES))
  {
    MessagesKnown();
    ServiceProper(MessagesIn(FILES));
  }

  // ---- the header

  lemma ClassIs(c: ServiceClass)
    requires ClassFor(c, SERVICE)
    ensures c == HEADER.services[0]
  {
    assert StubFor(c.registers[0], SERVICE, 0) && StubFor(c.registers[1], SERVICE, 1) && EventFor(c.publishes[0], SERVICE, 0);
    assert c.registers == [INFO_STUB, SPEED_STUB] && c.publishes == [EVENT_STUB];
  }

  lemma CallIs(stub: MethodStub, name: string)
    requires CallFor(stub, SERVICE, name)
    ensures name == "GetVehicleInfo" ==> stub == INFO_STUB
    ensures name == "SetCruiseSpeed" ==> stub == SPEED_STUB
  {
    var q: nat :| StubFor(stub, SERVICE, q) && stub.name == name;
    assert |"GetVehicleInfo"| == 14 && "GetVehicleInfo"[0] == 'G' && "SetCruiseSpeed"[0] == 'S';
    assert SERVICE.methods[0] == INFO_METHOD && SERVICE.methods[1] == SPEED_METHOD;
  }

  lemma SubscriptionIs(stub: EventStub, name: string)
    requires SubscriptionFor(stub, SERVICE, name)
    ensures stub == EVENT_STUB
  {
    var q: nat :| EventFor(stub, SERVICE, q) && stub.name == name;
    assert q == 0 && SERVICE.events[0] == INFO_EVENT;
  }

  lemma ProxiesAre(c: ClientClass, d: ClientClass)
    requires ProxyFor(c, INFO_CLIENT, [SERVICE]) && ProxyFor(d, SPEED_CLIENT, [SERVICE])
    ensures c == HEADER.clients[0] && d == HEADER.clients[1]
  {
    assert CallFor(c.calls[0], SERVICE, INFO_CLIENT.methods[0]) && SubscriptionFor(c.subscribes[0], SERVICE, INFO_CLIENT.events[0]);
    assert CallFor(d.calls[0], SERVICE, SPEED_CLIENT.methods[0]);
    CallIs(c.calls[0], "GetVehicleInfo");
    SubscriptionIs(c.subscribes[0], "VehicleInfoChanged");
    CallIs(d.calls[0], "SetCruiseSpeed");
    assert c.calls == [INFO_STUB] && c.subscribes == [EVENT_STUB] && d.calls == [SPEED_STUB] && d.subscribes == [];
  }

  /** What is generated from the shipped files. */
  lemma ShippedHeader(h: Header)
    requires EmittedFor(h, FILES)
    ensures h == HEADER
  {
    Sections();
    ClassIs(h.services[0]);
    ProxiesAre(h.clients[0], h.clients[1]);
    assert PointFor(h.attachPoints[0], INSTANCE);
    assert FactoryFor(h.factories[0], INFO_BINDING, [INSTANCE]) && FactoryFor(h.factories[1], SPEED_BINDING, [INSTANCE]);
    PiecesAre(h);
  }

  lemma PiecesAre(h: Header)
    requires |h.services| == 1 && h.services[0] == HEADER.services[0]
    requires |h.clients| == 2 && h.clients[0] == HEADER.clients[0] && h.clients[1] == HEADER.clients[1]
    requires |h.attachPoints| == 1 && PointFor(h.attachPoints[0], INSTANCE)
    requires |h.factories| == 2 && FactoryFor(h.factories[0], INFO_BINDING, [INSTANCE]) && FactoryFor(h.factories[1], SPEED_BINDING, [INSTANCE])
    ensures h == HEADER
  {
    assert h.services == HEADER.services && h.clients == HEADER.clients;
    assert h.attachPoints == HEADER.attachPoints && h.factories == HEADER.factories;
  }
}
