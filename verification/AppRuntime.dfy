/** The generated application at run time, over a map-like backend: service objects are attached, detached
    and publish; client objects subscribe. Which handler a method key leads to, and which subscriber an
    event key. */
module AppRuntime {
  import opened Bytes
  import opened AppIdl
  import opened AppHeader

  /** The closure registered for the index-th method of a service object. */
  datatype Handler = Handler(impl: nat, index: nat, stub: MethodStub)

  /** The closure that a client object subscribes. */
  datatype Subscriber = Subscriber(client: nat, stub: EventStub)

  type Handlers = map<MethodKey, Handler>
  type Subscribers = map<EventKey, Subscriber>

  function Get<K, V>(m: map<K, V>, key: K): Option<V> {
    if key in m then Some(m[key]) else None
  }

  // ---- one service class

  function Register(hs: Handlers, s: ServiceClass, instanceId: int, impl: nat, n: nat): Handlers
    requires n <= |s.registers|
  {
    if n == 0 then hs
    else Register(hs, s, instanceId, impl, n - 1)[MethodKeyOf(s.registers[n - 1], instanceId) := Handler(impl, n - 1, s.registers[n - 1])]
  }

  function Unregister(hs: Handlers, s: ServiceClass, instanceId: int, n: nat): Handlers
    requires n <= |s.registers|
  {
    if n == 0 then hs else Unregister(hs, s, instanceId, n - 1) - {MethodKeyOf(s.registers[n - 1], instanceId)}
  }

  predicate HasKey(s: ServiceClass, instanceId: int, n: nat, key: MethodKey)
    requires n <= |s.registers|
  {
    exists k :: 0 <= k < n && MethodKeyOf(s.registers[k], instanceId) == key
  }

  lemma {:induction false} RegisteredElsewhere(hs: Handlers, s: ServiceClass, instanceId: int, impl: nat, n: nat, key: MethodKey)
    requires n <= |s.registers| && !HasKey(s, instanceId, n, key)
    ensures Get(Register(hs, s, instanceId, impl, n), key) == Get(hs, key)
  {
    if n > 0 {
      assert !HasKey(s, instanceId, n - 1, key);
      RegisteredElsewhere(hs, s, instanceId, impl, n - 1, key);
    }
  }

  /** The last method registered under a key is the one found there. */
  lemma {:induction false} RegisteredHere(hs: Handlers, s: ServiceClass, instanceId: int, impl: nat, n: nat, k: nat)
    requires k < n <= |s.registers|
    requires forall l :: k < l < n ==> MethodKeyOf(s.registers[l], instanceId) != MethodKeyOf(s.registers[k], instanceId)
    ensures Get(Register(hs, s, instanceId, impl, n), MethodKeyOf(s.registers[k], instanceId)) == Some(Handler(impl, k, s.registers[k]))
  {
    if k < n - 1 {
      RegisteredHere(hs, s, instanceId, impl, n - 1, k);
    }
  }

  lemma {:induction false} UnregisteredGet(hs: Handlers, s: ServiceClass, instanceId: int, n: nat, key: MethodKey)
    requires n <= |s.registers|
    ensures Get(Unregister(hs, s, instanceId, n), key) == if HasKey(s, instanceId, n, key) then None else Get(hs, key)
  {
    if n > 0 {
      UnregisteredGet(hs, s, instanceId, n - 1, key);
      assert HasKey(s, instanceId, n, key) <==> HasKey(s, instanceId, n - 1, key) || MethodKeyOf(s.registers[n - 1], instanceId) == key;
    }
  }

  // ---- the application

  function ClassName(s: ServiceClass): string { s.name }
  function ClientClassName(c: ClientClass): string { c.name }

  /** Attach points and factories name classes of the header. */
  predicate Sound(h: Header) {
    && (forall i :: 0 <= i < |h.attachPoints| ==> h.attachPoints[i].serviceClass in ByName(ClassName, h.services))
    && (forall j :: 0 <= j < |h.factories| ==> h.factories[j].clientClass in ByName(ClientClassName, h.clients))
  }

  function ClassAt(h: Header, i: nat): ServiceClass
    requires Sound(h) && i < |h.attachPoints|
  {
    ByName(ClassName, h.services)[h.attachPoints[i].serviceClass]
  }

  function ClientClassAt(h: Header, j: nat): ClientClass
    requires Sound(h) && j < |h.factories|
  {
    ByName(ClientClassName, h.clients)[h.factories[j].clientClass]
  }

  lemma ClassAtName(h: Header, i: nat)
    requires Sound(h) && i < |h.attachPoints|
    ensures ClassAt(h, i).name == h.attachPoints[i].serviceClass
  {
    ByNameHas(ClassName, h.services, h.attachPoints[i].serviceClass);
  }

  /** A service object, by the class whose instance id it holds. */
  datatype ObjectRef = ObjectRef(serviceClass: string, impl: nat)

  function RefAt(h: Header, i: nat, impl: nat): ObjectRef
    requires i < |h.attachPoints|
  {
    ObjectRef(h.attachPoints[i].serviceClass, impl)
  }

  /** The objects held at attach points, the instance ids that objects hold themselves (none before an
      object is first attached), and what is registered at the backend. */
  datatype AppState = AppState(members: map<nat, nat>, ids: map<ObjectRef, int>, handlers: Handlers, subscribers: Subscribers)

  const NOTHING_ATTACHED := AppState(map[], map[], map[], map[])

  /** Attaching and detaching at attach point i; subscribing and unsubscribing an object that factory j made. */
  datatype AppOp =
    | AttachOp(i: nat, impl: nat)
    | DetachOp(i: nat)
    | SubscribeOp(j: nat, e: EventStub, client: nat)
    | UnsubscribeOp(j: nat, e: EventStub)

  predicate OpOk(h: Header, op: AppOp)
    requires Sound(h)
  {
    match op
    case AttachOp(i, _) => i < |h.attachPoints|
    case DetachOp(i) => i < |h.attachPoints|
    case SubscribeOp(j, e, _) => j < |h.factories| && e in ClientClassAt(h, j).subscribes
    case UnsubscribeOp(j, e) => j < |h.factories| && e in ClientClassAt(h, j).subscribes
  }

  /** Attaching writes the instance id into the object, registers all its methods under it, and remembers the
      object. Detaching unregisters them under the id that the object holds by then, whichever attach point
      it got that from; detaching where nothing is attached does nothing. */
  function Step(h: Header, st: AppState, op: AppOp): AppState
    requires Sound(h) && OpOk(h, op)
  {
    match op
    case AttachOp(i, impl) =>
      var s, id := ClassAt(h, i), h.attachPoints[i].instanceId;
      st.(members := st.members[i := impl], ids := st.ids[RefAt(h, i, impl) := id],
          handlers := Register(st.handlers, s, id, impl, |s.registers|))
    case DetachOp(i) =>
      if i !in st.members then st
      else
        var s, ref := ClassAt(h, i), RefAt(h, i, st.members[i]);
        st.(members := st.members - {i},
            handlers := if ref in st.ids then Unregister(st.handlers, s, st.ids[ref], |s.registers|) else st.handlers)
    case SubscribeOp(j, e, client) =>
      st.(subscribers := st.subscribers[EventKeyOf(e, h.factories[j].instanceId) := Subscriber(client, e)])
    case UnsubscribeOp(j, e) =>
      st.(subscribers := st.subscribers - {EventKeyOf(e, h.factories[j].instanceId)})
  }

  predicate OpsOk(h: Header, ops: seq<AppOp>)
    requires Sound(h)
  {
    forall n :: 0 <= n < |ops| ==> OpOk(h, ops[n])
  }

  function Run(h: Header, ops: seq<AppOp>): AppState
    requires Sound(h) && OpsOk(h, ops)
    decreases |ops|
  {
    if ops == [] then NOTHING_ATTACHED
    else Step(h, Run(h, ops[..|ops| - 1]), ops[|ops| - 1])
  }

  // ---- the objects

  /** What is registered at a backend: whatever came last under a key is what the key leads to. */
  class MapBackend {
    var handlers: Handlers
    var subscribers: Subscribers

    constructor ()
      ensures handlers == map[] && subscribers == map[]
    {
      handlers, subscribers := map[], map[];
    }

    method RegisterMethodHandler(key: MethodKey, handler: Handler) returns (ok: bool)
      modifies this`handlers
      ensures ok && handlers == old(handlers)[key := handler]
    {
      handlers := handlers[key := handler];
      ok := true;
    }

    method UnregisterMethodHandler(key: MethodKey) returns (ok: bool)
      modifies this`handlers
      ensures ok && handlers == old(handlers) - {key}
    {
      handlers := handlers - {key};
      ok := true;
    }

    method SubscribeEvent(key: EventKey, subscriber: Subscriber) returns (ok: bool)
      modifies this`subscribers
      ensures ok && subscribers == old(subscribers)[key := subscriber]
    {
      subscribers := subscribers[key := subscriber];
      ok := true;
    }

    method UnsubscribeEvent(key: EventKey) returns (ok: bool)
      modifies this`subscribers
      ensures ok && subscribers == old(subscribers) - {key}
    {
      subscribers := subscribers - {key};
      ok := true;
    }
  }

  /** A service object. It holds no instance id before it is first attached. */
  class ServiceObject {
    const serviceClass: ServiceClass
    const impl: nat
    var instanceId: Option<int>

    constructor (serviceClass: ServiceClass, impl: nat)
      ensures this.serviceClass == serviceClass && this.impl == impl && instanceId == None
    {
      this.serviceClass, this.impl, instanceId := serviceClass, impl, None;
    }

    function Ref(): ObjectRef {
      ObjectRef(serviceClass.name, impl)
    }

    method AttachRuntime(id: int)
      modifies this
      ensures instanceId == Some(id)
    {
      instanceId := Some(id);
    }

    method RegisterWithRuntime(backend: MapBackend) returns (ok: bool)
      modifies backend`handlers
      ensures ok == instanceId.Some?
      ensures backend.handlers ==
              if ok then Register(old(backend.handlers), serviceClass, instanceId.value, impl, |serviceClass.registers|)
              else old(backend.handlers)
    {
      if instanceId == None {
        return false;
      }
      ok := true;
      for k := 0 to |serviceClass.registers|
        invariant ok && backend.handlers == Register(old(backend.handlers), serviceClass, instanceId.value, impl, k)
      {
        if ok {
          var key := MethodKeyOf(serviceClass.registers[k], instanceId.value);
          ok := backend.RegisterMethodHandler(key, Handler(impl, k, serviceClass.registers[k]));
        }
      }
    }

    method UnregisterFromRuntime(backend: MapBackend) returns (ok: bool)
      modifies backend`handlers
      ensures ok == instanceId.Some?
      ensures backend.handlers ==
              if ok then Unregister(old(backend.handlers), serviceClass, instanceId.value, |serviceClass.registers|)
              else old(backend.handlers)
    {
      if instanceId == None {
        return false;
      }
      ok := true;
      for k := 0 to |serviceClass.registers|
        invariant ok && backend.handlers == Unregister(old(backend.handlers), serviceClass, instanceId.value, k)
      {
        var done := backend.UnregisterMethodHandler(MethodKeyOf(serviceClass.registers[k], instanceId.value));
        ok := done && ok;
      }
    }
  }

  lemma AttachStep(h: Header, st: AppState, i: nat, o: ServiceObject)
    requires Sound(h) && i < |h.attachPoints| && o.serviceClass == ClassAt(h, i)
    ensures var id := h.attachPoints[i].instanceId;
            Step(h, st, AttachOp(i, o.impl)) ==
            AppState(st.members[i := o.impl], st.ids[o.Ref() := id],
                     Register(st.handlers, o.serviceClass, id, o.impl, |o.serviceClass.registers|), st.subscribers)
  {
    ClassAtName(h, i);
  }

  lemma DetachStep(h: Header, st: AppState, i: nat, o: ServiceObject)
    requires Sound(h) && i < |h.attachPoints| && o.serviceClass == ClassAt(h, i)
    requires i in st.members && st.members[i] == o.impl && o.Ref() in st.ids
    ensures Step(h, st, DetachOp(i)) ==
            AppState(st.members - {i}, st.ids,
                     Unregister(st.handlers, o.serviceClass, st.ids[o.Ref()], |o.serviceClass.registers|), st.subscribers)
  {
    ClassAtName(h, i);
  }

  /** The application object, its backend and the service objects around it show a state of the model. */
  ghost predicate Shows(app: Application, objects: set<ServiceObject>, st: AppState)
    requires Sound(app.header)
    reads app, app.backend, objects
  {
    && IdsShown(objects, st.ids)
    && MembersShown(app.header, objects, app.members, st)
    && app.backend.handlers == st.handlers
    && app.backend.subscribers == st.subscribers
  }

  /** No two objects go by the same name, and each holds the id that the state has for it. */
  ghost predicate IdsShown(objects: set<ServiceObject>, ids: map<ObjectRef, int>)
    reads objects
  {
    && (forall o, p :: o in objects && p in objects && o.Ref() == p.Ref() ==> o == p)
    && (forall o :: o in objects ==> Get(ids, o.Ref()) == o.instanceId)
  }

  ghost predicate MembersShown(h: Header, objects: set<ServiceObject>, members: map<nat, ServiceObject>, st: AppState)
    requires Sound(h)
  {
    && (forall i :: i in members <==> i in st.members)
    && (forall i :: i in members ==> Held(h, objects, members[i], st, i))
  }

  predicate Held(h: Header, objects: set<ServiceObject>, o: ServiceObject, st: AppState, i: nat)
    requires Sound(h)
  {
    && o in objects && o.Ref() in st.ids
    && i < |h.attachPoints| && o.serviceClass == ClassAt(h, i)
    && i in st.members && st.members[i] == o.impl
  }

  lemma AttachMembers(h: Header, objects: set<ServiceObject>, members: map<nat, ServiceObject>, st: AppState, i: nat, o: ServiceObject)
    requires Sound(h) && MembersShown(h, objects, members, st)
    requires i < |h.attachPoints| && o in objects && o.serviceClass == ClassAt(h, i)
    ensures MembersShown(h, objects, members[i := o], Step(h, st, AttachOp(i, o.impl)))
  {
    AttachStep(h, st, i, o);
    var st', members' := Step(h, st, AttachOp(i, o.impl)), members[i := o];
    forall k | k in members'
      ensures Held(h, objects, members'[k], st', k)
    {
      assert k != i ==> Held(h, objects, members[k], st, k);
    }
  }

  lemma DetachMembers(h: Header, objects: set<ServiceObject>, members: map<nat, ServiceObject>, st: AppState, i: nat)
    requires Sound(h) && MembersShown(h, objects, members, st) && i in members
    ensures MembersShown(h, objects, members - {i}, Step(h, st, DetachOp(i)))
  {
    assert Held(h, objects, members[i], st, i);
    DetachStep(h, st, i, members[i]);
    var st', members' := Step(h, st, DetachOp(i)), members - {i};
    forall k | k in members'
      ensures Held(h, objects, members'[k], st', k)
    {
      assert Held(h, objects, members[k], st, k);
    }
  }

  class Application {
    const header: Header
    const backend: MapBackend
    var members: map<nat, ServiceObject>

    constructor (header: Header, backend: MapBackend)
      ensures this.header == header && this.backend == backend && members == map[]
    {
      this.header, this.backend, members := header, backend, map[];
    }

    method Attach(i: nat, service: ServiceObject?, ghost objects: set<ServiceObject>, ghost st: AppState) returns (ok: bool)
      requires Sound(header) && i < |header.attachPoints|
      requires service != null ==> service in objects && service.serviceClass == ClassAt(header, i)
      requires Shows(this, objects, st)
      modifies this, backend`handlers, service
      ensures ok == (service != null)
      ensures Shows(this, objects, if ok then Step(header, st, AttachOp(i, service.impl)) else st)
    {
      if service == null {
        return false;
      }
      AttachStep(header, st, i, service);
      AttachMembers(header, objects, members, st, i, service);
      service.AttachRuntime(header.attachPoints[i].instanceId);
      ok := service.RegisterWithRuntime(backend);
      if !ok {
        return;
      }
      members := members[i := service];
    }

    method Detach(i: nat, ghost objects: set<ServiceObject>, ghost st: AppState) returns (ok: bool)
      requires Sound(header) && i < |header.attachPoints|
      requires Shows(this, objects, st)
      modifies this, backend`handlers
      ensures ok == (i in st.members)
      ensures Shows(this, objects, Step(header, st, DetachOp(i)))
    {
      if i !in members {
        return false;
      }
      assert Held(header, objects, members[i], st, i);
      DetachStep(header, st, i, members[i]);
      DetachMembers(header, objects, members, st, i);
      ok := members[i].UnregisterFromRuntime(backend);
      members := members - {i};
    }

    method CreateClient(j: nat, client: nat) returns (c: ClientObject)
      requires Sound(header) && j < |header.factories|
      ensures fresh(c) && c.MadeBy(this, j) && c.client == client
    {
      c := new ClientObject(backend, header.factories[j].instanceId, client);
    }
  }

  class ClientObject {
    const backend: MapBackend
    const instanceId: int
    const client: nat

    constructor (backend: MapBackend, instanceId: int, client: nat)
      ensures this.backend == backend && this.instanceId == instanceId && this.client == client
    {
      this.backend, this.instanceId, this.client := backend, instanceId, client;
    }

    ghost predicate MadeBy(app: Application, j: nat) {
      backend == app.backend && j < |app.header.factories| && instanceId == app.header.factories[j].instanceId
    }

    method Subscribe(e: EventStub, ghost app: Application, ghost j: nat, ghost objects: set<ServiceObject>, ghost st: AppState) returns (ok: bool)
      requires MadeBy(app, j) && Sound(app.header) && e in ClientClassAt(app.header, j).subscribes
      requires Shows(app, objects, st)
      modifies backend`subscribers
      ensures ok && Shows(app, objects, Step(app.header, st, SubscribeOp(j, e, client)))
    {
      ok := backend.SubscribeEvent(EventKeyOf(e, instanceId), Subscriber(client, e));
    }

    method Unsubscribe(e: EventStub, ghost app: Application, ghost j: nat, ghost objects: set<ServiceObject>, ghost st: AppState) returns (ok: bool)
      requires MadeBy(app, j) && Sound(app.header) && e in ClientClassAt(app.header, j).subscribes
      requires Shows(app, objects, st)
      modifies backend`subscribers
      ensures ok && Shows(app, objects, Step(app.header, st, UnsubscribeOp(j, e)))
    {
      ok := backend.UnsubscribeEvent(EventKeyOf(e, instanceId));
    }
  }

  // ---- which handler a method key leads to

  predicate Slot(h: Header, i: nat, k: nat)
    requires Sound(h)
  {
    i < |h.attachPoints| && k < |ClassAt(h, i).registers|
  }

  function StubAt(h: Header, i: nat, k: nat): MethodStub
    requires Sound(h) && Slot(h, i, k)
  {
    ClassAt(h, i).registers[k]
  }

  function KeyAt(h: Header, i: nat, k: nat): MethodKey
    requires Sound(h) && Slot(h, i, k)
  {
    MethodKeyOf(StubAt(h, i, k), h.attachPoints[i].instanceId)
  }

  ghost predicate KeysDistinct(h: Header)
    requires Sound(h)
  {
    forall i: nat, k: nat, j: nat, l: nat {:trigger KeyAt(h, i, k), KeyAt(h, j, l)} ::
      Slot(h, i, k) && Slot(h, j, l) && KeyAt(h, i, k) == KeyAt(h, j, l) ==> i == j && k == l
  }

  /** The key of a slot leads to the method of the object attached there, and nowhere while there is none. */
  ghost predicate OwnHandler(h: Header, st: AppState, i: nat, k: nat)
    requires Sound(h) && Slot(h, i, k)
  {
    Get(st.handlers, KeyAt(h, i, k)) == if i in st.members then Some(Handler(st.members[i], k, StubAt(h, i, k))) else None
  }

  ghost predicate Owned(h: Header, st: AppState)
    requires Sound(h)
  {
    forall i: nat, k: nat {:trigger OwnHandler(h, st, i, k)} :: Slot(h, i, k) ==> OwnHandler(h, st, i, k)
  }

  /** The operation detaches an object with methods that holds, on 16 bits, another instance id than the
      attach point has: it was attached elsewhere since. */
  predicate Stray(h: Header, st: AppState, op: AppOp)
    requires Sound(h) && OpOk(h, op)
  {
    op.DetachOp? && op.i in st.members && Slot(h, op.i, 0)
    && var ref := RefAt(h, op.i, st.members[op.i]);
       ref !in st.ids || Narrow(st.ids[ref]) != Narrow(h.attachPoints[op.i].instanceId)
  }

  predicate NoStray(h: Header, ops: seq<AppOp>)
    requires Sound(h) && OpsOk(h, ops)
    decreases |ops|
  {
    ops == [] || (NoStray(h, ops[..|ops| - 1]) && !Stray(h, Run(h, ops[..|ops| - 1]), ops[|ops| - 1]))
  }

  /** A method key carries 16 bits of the instance id. */
  lemma SameKeys(s: ServiceClass, a: int, b: int, n: nat, key: MethodKey)
    requires n <= |s.registers| && Narrow(a) == Narrow(b)
    ensures HasKey(s, a, n, key) <==> HasKey(s, b, n, key)
  {
    assert forall k :: 0 <= k < n ==> MethodKeyOf(s.registers[k], a) == MethodKeyOf(s.registers[k], b);
  }

  /** An attach point has the keys of its own methods only. */
  lemma KeyOfPoint(h: Header, j: nat, i: nat, k: nat)
    requires Sound(h) && KeysDistinct(h) && Slot(h, i, k) && j < |h.attachPoints|
    ensures var s := ClassAt(h, j); HasKey(s, h.attachPoints[j].instanceId, |s.registers|, KeyAt(h, i, k)) <==> i == j
  {
    var s := ClassAt(h, j);
    if l :| 0 <= l < |s.registers| && MethodKeyOf(s.registers[l], h.attachPoints[j].instanceId) == KeyAt(h, i, k) {
      assert Slot(h, j, l) && KeyAt(h, j, l) == KeyAt(h, i, k);
    }
  }

  lemma AttachKeepsOwn(h: Header, st: AppState, j: nat, impl: nat, i: nat, k: nat)
    requires Sound(h) && KeysDistinct(h) && Slot(h, i, k) && j < |h.attachPoints| && OwnHandler(h, st, i, k)
    ensures OwnHandler(h, Step(h, st, AttachOp(j, impl)), i, k)
  {
    var s, id, key := ClassAt(h, j), h.attachPoints[j].instanceId, KeyAt(h, i, k);
    KeyOfPoint(h, j, i, k);
    if j == i {
      forall l | k < l < |s.registers|
        ensures MethodKeyOf(s.registers[l], id) != MethodKeyOf(s.registers[k], id)
      {
        assert Slot(h, i, l) && KeyAt(h, i, l) != key;
      }
      RegisteredHere(st.handlers, s, id, impl, |s.registers|, k);
    } else {
      RegisteredElsewhere(st.handlers, s, id, impl, |s.registers|, key);
    }
  }

  lemma DetachKeepsOwn(h: Header, st: AppState, j: nat, i: nat, k: nat)
    requires Sound(h) && KeysDistinct(h) && Slot(h, i, k) && j < |h.attachPoints| && OwnHandler(h, st, i, k)
    requires !Stray(h, st, DetachOp(j))
    ensures OwnHandler(h, Step(h, st, DetachOp(j)), i, k)
  {
    if j in st.members {
      var s, ref, key := ClassAt(h, j), RefAt(h, j, st.members[j]), KeyAt(h, i, k);
      KeyOfPoint(h, j, i, k);
      if ref in st.ids {
        UnregisteredGet(st.handlers, s, st.ids[ref], |s.registers|, key);
        if s.registers != [] {
          SameKeys(s, st.ids[ref], h.attachPoints[j].instanceId, |s.registers|, key);
        }
      }
    }
  }

  lemma StepKeepsOwned(h: Header, st: AppState, op: AppOp)
    requires Sound(h) && KeysDistinct(h) && OpOk(h, op) && Owned(h, st) && !Stray(h, st, op)
    ensures Owned(h, Step(h, st, op))
  {
    forall i: nat, k: nat | Slot(h, i, k)
      ensures OwnHandler(h, Step(h, st, op), i, k)
    {
      assert OwnHandler(h, st, i, k);
      match op
      case AttachOp(j, impl) => AttachKeepsOwn(h, st, j, impl, i, k);
      case DetachOp(j) => DetachKeepsOwn(h, st, j, i, k);
      case _ =>
    }
  }

  /** With distinct keys and no stray detaching, every key leads to its own method of the object that is
      attached there, and nowhere while none is. */
  lemma {:induction false} ReachesOwnHandler(h: Header, ops: seq<AppOp>)
    requires Sound(h) && OpsOk(h, ops) && KeysDistinct(h) && NoStray(h, ops)
    ensures Owned(h, Run(h, ops))
    decreases |ops|
  {
    if ops != [] {
      var n := |ops| - 1;
      ReachesOwnHandler(h, ops[..n]);
      StepKeepsOwned(h, Run(h, ops[..n]), ops[n]);
    }
  }

  /** A stray detaching leaves the keys of its attach point behind. */
  lemma StrayBreaks(h: Header, st: AppState, op: AppOp)
    requires Sound(h) && OpOk(h, op) && Owned(h, st) && Stray(h, st, op)
    ensures !Owned(h, Step(h, st, op))
  {
    var i := op.i;
    var s, ref, key := ClassAt(h, i), RefAt(h, i, st.members[i]), KeyAt(h, i, 0);
    assert OwnHandler(h, st, i, 0);
    if ref in st.ids {
      UnregisteredGet(st.handlers, s, st.ids[ref], |s.registers|, key);
      assert key.instanceId == Narrow(h.attachPoints[i].instanceId);
    }
    assert !OwnHandler(h, Step(h, st, op), i, 0);
  }

  ghost predicate AlwaysOwned(h: Header, ops: seq<AppOp>)
    requires Sound(h) && OpsOk(h, ops)
  {
    forall n {:trigger ops[..n]} :: 0 <= n <= |ops| ==> Owned(h, Run(h, ops[..n]))
  }

  /** Exactly when: keys lead where they should throughout a history if and only if it has no stray
      detaching. */
  lemma {:induction false} AlwaysOwnedIffNoStray(h: Header, ops: seq<AppOp>)
    requires Sound(h) && OpsOk(h, ops) && KeysDistinct(h)
    ensures AlwaysOwned(h, ops) <==> NoStray(h, ops)
    decreases |ops|
  {
    assert ops[..|ops|] == ops;
    if ops == [] {
      assert Owned(h, NOTHING_ATTACHED);
      assert forall n :: 0 <= n <= |ops| ==> ops[..n] == [];
    } else {
      var n := |ops| - 1;
      AlwaysOwnedIffNoStray(h, ops[..n]);
      AlwaysSplit(h, ops);
      assert Run(h, ops) == Step(h, Run(h, ops[..n]), ops[n]);
      if Owned(h, Run(h, ops[..n])) {
        if Stray(h, Run(h, ops[..n]), ops[n]) {
          StrayBreaks(h, Run(h, ops[..n]), ops[n]);
        } else {
          StepKeepsOwned(h, Run(h, ops[..n]), ops[n]);
        }
      }
    }
  }

  lemma AlwaysSplit(h: Header, ops: seq<AppOp>)
    requires Sound(h) && OpsOk(h, ops) && ops != []
    ensures AlwaysOwned(h, ops) <==> AlwaysOwned(h, ops[..|ops| - 1]) && Owned(h, Run(h, ops))
    ensures AlwaysOwned(h, ops[..|ops| - 1]) ==> Owned(h, Run(h, ops[..|ops| - 1]))
  {
    var front := ops[..|ops| - 1];
    assert ops[..|ops|] == ops && front[..|front|] == front;
    assert forall n :: 0 <= n <= |front| ==> front[..n] == ops[..n];
    if AlwaysOwned(h, ops) {
      forall n {:trigger front[..n]} | 0 <= n <= |front|
        ensures Owned(h, Run(h, front[..n]))
      {
        assert front[..n] == ops[..n];
      }
    }
    if AlwaysOwned(h, front) && Owned(h, Run(h, ops)) {
      forall n {:trigger ops[..n]} | 0 <= n <= |ops|
        ensures Owned(h, Run(h, ops[..n]))
      {
        if n < |ops| {
          assert front[..n] == ops[..n];
        }
      }
    }
  }

  lemma RunSnoc(h: Header, ops: seq<AppOp>, op: AppOp)
    requires Sound(h) && OpsOk(h, ops) && OpOk(h, op)
    ensures OpsOk(h, ops + [op]) && Run(h, ops + [op]) == Step(h, Run(h, ops), op)
  {
    assert (ops + [op])[..|ops|] == ops;
  }

  lemma RunOfThree(h: Header, a: AppOp, b: AppOp, c: AppOp)
    requires Sound(h) && OpOk(h, a) && OpOk(h, b) && OpOk(h, c)
    ensures Run(h, [a, b, c]) == Step(h, Step(h, Step(h, NOTHING_ATTACHED, a), b), c)
  {
    RunSnoc(h, [], a);
    RunSnoc(h, [a], b);
    RunSnoc(h, [a, b], c);
    assert [] + [a] == [a] && [a] + [b] == [a, b] && [a, b] + [c] == [a, b, c];
  }

  /** One object attached at two points of its class and detached from the first: the first point's keys stay
      registered although nothing is attached there, the second point's are gone although the object is
      still attached. */
  lemma SharedObjectDetached(h: Header, i: nat, j: nat, impl: nat, k: nat)
    requires Sound(h) && KeysDistinct(h) && i != j && Slot(h, i, k) && Slot(h, j, k)
    requires h.attachPoints[i].serviceClass == h.attachPoints[j].serviceClass
    ensures var st := Run(h, [AttachOp(i, impl), AttachOp(j, impl), DetachOp(i)]);
            && i !in st.members && Get(st.handlers, KeyAt(h, i, k)) == Some(Handler(impl, k, StubAt(h, i, k)))
            && Get(st.members, j) == Some(impl) && Get(st.handlers, KeyAt(h, j, k)) == None
  {
    var st1 := Step(h, NOTHING_ATTACHED, AttachOp(i, impl));
    var st2 := Step(h, st1, AttachOp(j, impl));
    RunOfThree(h, AttachOp(i, impl), AttachOp(j, impl), DetachOp(i));
    assert Owned(h, NOTHING_ATTACHED);
    StepKeepsOwned(h, NOTHING_ATTACHED, AttachOp(i, impl));
    StepKeepsOwned(h, st1, AttachOp(j, impl));
    assert OwnHandler(h, st2, i, k) && OwnHandler(h, st2, j, k);
    var s := ClassAt(h, j);
    KeyOfPoint(h, j, i, k);
    KeyOfPoint(h, j, j, k);
    UnregisteredGet(st2.handlers, s, h.attachPoints[j].instanceId, |s.registers|, KeyAt(h, i, k));
    UnregisteredGet(st2.handlers, s, h.attachPoints[j].instanceId, |s.registers|, KeyAt(h, j, k));
  }

  // ---- histories without stray detaching

  /** The attach point at which an object was attached last. */
  function LastAttach(h: Header, ops: seq<AppOp>, ref: ObjectRef): Option<nat>
    requires Sound(h) && OpsOk(h, ops)
    decreases |ops|
  {
    if ops == [] then None
    else
      var last := ops[|ops| - 1];
      if last.AttachOp? && RefAt(h, last.i, last.impl) == ref then Some(last.i) else LastAttach(h, ops[..|ops| - 1], ref)
  }

  /** An object holds the instance id of the attach point where it was attached last, detached or not. */
  lemma {:induction false} IdIsLastAttach(h: Header, ops: seq<AppOp>, ref: ObjectRef)
    requires Sound(h) && OpsOk(h, ops)
    ensures var p := LastAttach(h, ops, ref);
            (p.Some? ==> p.value < |h.attachPoints| && h.attachPoints[p.value].serviceClass == ref.serviceClass)
            && Get(Run(h, ops).ids, ref) == if p.Some? then Some(h.attachPoints[p.value].instanceId) else None
    decreases |ops|
  {
    if ops != [] {
      IdIsLastAttach(h, ops[..|ops| - 1], ref);
    }
  }

  /** Whatever points an object is attached at, they have the same 16-bit instance id. */
  ghost predicate NoSharing(h: Header, ops: seq<AppOp>)
    requires Sound(h) && OpsOk(h, ops)
  {
    forall a, b :: 0 <= a < |ops| && 0 <= b < |ops| ==> SharesNothing(h, ops[a], ops[b])
  }

  predicate SharesNothing(h: Header, a: AppOp, b: AppOp)
    requires Sound(h) && OpOk(h, a) && OpOk(h, b)
  {
    a.AttachOp? && b.AttachOp? && RefAt(h, a.i, a.impl) == RefAt(h, b.i, b.impl) ==>
      Narrow(h.attachPoints[a.i].instanceId) == Narrow(h.attachPoints[b.i].instanceId)
  }

  lemma {:induction false} AttachedBy(h: Header, ops: seq<AppOp>, i: nat, ref: ObjectRef)
    requires Sound(h) && OpsOk(h, ops)
    ensures i in Run(h, ops).members ==> i < |h.attachPoints| && AttachOp(i, Run(h, ops).members[i]) in ops
    ensures LastAttach(h, ops, ref).Some? ==> AttachOp(LastAttach(h, ops, ref).value, ref.impl) in ops
    ensures i in Run(h, ops).members ==> LastAttach(h, ops, ObjectRef(h.attachPoints[i].serviceClass, Run(h, ops).members[i])).Some?
    decreases |ops|
  {
    if ops != [] {
      var front, last := ops[..|ops| - 1], ops[|ops| - 1];
      AttachedBy(h, front, i, ref);
      assert last in ops && forall op :: op in front ==> op in ops;
    }
  }

  /** If every object keeps to one attach point, nothing strays. */
  lemma {:induction false} NoSharingNoStray(h: Header, ops: seq<AppOp>)
    requires Sound(h) && OpsOk(h, ops) && NoSharing(h, ops)
    ensures NoStray(h, ops)
    decreases |ops|
  {
    if ops != [] {
      var front, op := ops[..|ops| - 1], ops[|ops| - 1];
      NoSharingNoStray(h, front);
      var st := Run(h, front);
      if op.DetachOp? && op.i in st.members {
        var ref := RefAt(h, op.i, st.members[op.i]);
        AttachedBy(h, front, op.i, ref);
        IdIsLastAttach(h, front, ref);
        var p := LastAttach(h, front, ref).value;
        var a :| 0 <= a < |front| && front[a] == AttachOp(op.i, st.members[op.i]);
        var b :| 0 <= b < |front| && front[b] == AttachOp(p, ref.impl);
        assert SharesNothing(h, ops[a], ops[b]);
      }
    }
  }

  function AttachEach(n: nat): (ops: seq<AppOp>)
    ensures |ops| == n && forall j :: 0 <= j < n ==> ops[j] == AttachOp(j, j)
  {
    seq(n, (j: nat) => AttachOp(j, j))
  }

  lemma {:induction false} AllAttached(h: Header, n: nat, j: nat)
    requires Sound(h) && n <= |h.attachPoints|
    ensures var ms := Run(h, AttachEach(n)).members; (j in ms <==> j < n) && (j in ms ==> ms[j] == j)
  {
    if n > 0 {
      AllAttached(h, n - 1, j);
      assert AttachEach(n) == AttachEach(n - 1) + [AttachOp(n - 1, n - 1)];
      RunSnoc(h, AttachEach(n - 1), AttachOp(n - 1, n - 1));
    }
  }

  lemma {:induction false} AttachingStraysNot(h: Header, n: nat)
    requires Sound(h) && n <= |h.attachPoints|
    ensures NoStray(h, AttachEach(n))
  {
    if n > 0 {
      AttachingStraysNot(h, n - 1);
      assert AttachEach(n)[..n - 1] == AttachEach(n - 1);
    }
  }

  /** Distinct keys are exactly what is needed: with every instance attached to an object of its own, each
      method is reached under its key if and only if all keys are distinct. */
  lemma OwnHandlersIffDistinct(h: Header)
    requires Sound(h)
    ensures (forall i: nat, k: nat {:trigger KeyAt(h, i, k)} :: Slot(h, i, k) ==>
               Get(Run(h, AttachEach(|h.attachPoints|)).handlers, KeyAt(h, i, k)) == Some(Handler(i, k, StubAt(h, i, k))))
            <==> KeysDistinct(h)
  {
    var st := Run(h, AttachEach(|h.attachPoints|));
    if KeysDistinct(h) {
      AttachingStraysNot(h, |h.attachPoints|);
      ReachesOwnHandler(h, AttachEach(|h.attachPoints|));
      forall i: nat, k: nat | Slot(h, i, k)
        ensures Get(st.handlers, KeyAt(h, i, k)) == Some(Handler(i, k, StubAt(h, i, k)))
      {
        AllAttached(h, |h.attachPoints|, i);
        assert OwnHandler(h, st, i, k);
      }
    }
  }

  /** Keys are distinct when each service has distinct method ids and no two attach points have the same
      service id and, on 16 bits, the same instance id. */
  ghost predicate IdsDistinct(h: Header)
    requires Sound(h)
  {
    && (forall i: nat, k: nat, l: nat {:trigger StubAt(h, i, k), StubAt(h, i, l)} ::
          Slot(h, i, k) && Slot(h, i, l) && StubAt(h, i, k).methodId == StubAt(h, i, l).methodId ==> k == l)
    && (forall i: nat, k: nat, j: nat, l: nat {:trigger StubAt(h, i, k), StubAt(h, j, l)} ::
          Slot(h, i, k) && Slot(h, j, l) && SamePair(h, i, k, j, l) ==> i == j)
  }

  predicate SamePair(h: Header, i: nat, k: nat, j: nat, l: nat)
    requires Sound(h) && Slot(h, i, k) && Slot(h, j, l)
  {
    && StubAt(h, i, k).serviceId == StubAt(h, j, l).serviceId
    && Narrow(h.attachPoints[i].instanceId) == Narrow(h.attachPoints[j].instanceId)
  }

  lemma DistinctIdsGiveDistinctKeys(h: Header)
    requires Sound(h) && IdsDistinct(h)
    ensures KeysDistinct(h)
  {
    forall i: nat, k: nat, j: nat, l: nat | Slot(h, i, k) && Slot(h, j, l) && KeyAt(h, i, k) == KeyAt(h, j, l)
      ensures i == j && k == l
    {
      assert SamePair(h, i, k, j, l);
    }
  }

  // ---- which subscriber an event key leads to

  /** For each client instance, the attach point that it is bound to. */
  ghost predicate WellBound(h: Header, bind: seq<nat>)
    requires Sound(h)
  {
    && |bind| == |h.factories|
    && forall j :: 0 <= j < |bind| ==> BoundTo(h, j, bind[j])
  }

  ghost predicate BoundTo(h: Header, j: nat, i: nat)
    requires Sound(h) && j < |h.factories|
  {
    i < |h.attachPoints| && Linked(h, h.factories[j], ClientClassAt(h, j), h.attachPoints[i], ClassAt(h, i))
  }

  predicate EventSlot(h: Header, i: nat, e: EventStub)
    requires Sound(h)
  {
    i < |h.attachPoints| && e in ClassAt(h, i).publishes
  }

  function EventKeyAt(h: Header, i: nat, e: EventStub): EventKey
    requires i < |h.attachPoints|
  {
    EventKeyOf(e, h.attachPoints[i].instanceId)
  }

  /** Some client instance bound to attach point i has the event among its subscriptions. */
  predicate Subscribable(h: Header, bind: seq<nat>, i: nat, e: EventStub)
    requires Sound(h) && |bind| == |h.factories|
  {
    exists j :: 0 <= j < |bind| && bind[j] == i && e in ClientClassAt(h, j).subscribes
  }

  /** An event that can be subscribed to shares its key with no other event of any attach point. */
  ghost predicate SubscribedKeysDistinct(h: Header, bind: seq<nat>)
    requires Sound(h) && WellBound(h, bind)
  {
    forall i: nat, e, i': nat, e' {:trigger EventSlot(h, i, e), EventSlot(h, i', e')} ::
      EventSlot(h, i, e) && EventSlot(h, i', e') && Subscribable(h, bind, i, e) && EventKeyAt(h, i, e) == EventKeyAt(h, i', e')
      ==> i == i' && e == e'
  }

  /** The client object that subscribed last to the event of the attach point, unless someone unsubscribed
      from it since. */
  function LastSubscriber(h: Header, bind: seq<nat>, ops: seq<AppOp>, i: nat, e: EventStub): (r: Option<Subscriber>)
    requires Sound(h) && OpsOk(h, ops) && |bind| == |h.factories|
    ensures r.Some? ==> r.value.stub == e
    decreases |ops|
  {
    if ops == [] then None
    else
      match ops[|ops| - 1]
      case SubscribeOp(j, e', client) =>
        if bind[j] == i && e' == e then Some(Subscriber(client, e)) else LastSubscriber(h, bind, ops[..|ops| - 1], i, e)
      case UnsubscribeOp(j, e') =>
        if bind[j] == i && e' == e then None else LastSubscriber(h, bind, ops[..|ops| - 1], i, e)
      case _ => LastSubscriber(h, bind, ops[..|ops| - 1], i, e)
  }

  ghost predicate OwnSubscriber(h: Header, bind: seq<nat>, ops: seq<AppOp>, i: nat, e: EventStub)
    requires Sound(h) && OpsOk(h, ops) && |bind| == |h.factories| && i < |h.attachPoints|
  {
    Get(Run(h, ops).subscribers, EventKeyAt(h, i, e)) == LastSubscriber(h, bind, ops, i, e)
  }

  /** The key a client object subscribes under is that of the event at the attach point it is bound to. */
  lemma SubscriptionSlot(h: Header, bind: seq<nat>, j: nat, e: EventStub)
    requires Sound(h) && WellBound(h, bind) && j < |h.factories| && e in ClientClassAt(h, j).subscribes
    ensures EventSlot(h, bind[j], e) && Subscribable(h, bind, bind[j], e)
    ensures EventKeyOf(e, h.factories[j].instanceId) == EventKeyAt(h, bind[j], e)
  {
    assert BoundTo(h, j, bind[j]);
  }

  /** With distinct event keys, after any history, an event key leads to the last subscriber to that very
      event of that very instance. */
  lemma {:induction false} ReachesLastSubscriber(h: Header, bind: seq<nat>, ops: seq<AppOp>, i: nat, e: EventStub)
    requires Sound(h) && OpsOk(h, ops) && WellBound(h, bind) && SubscribedKeysDistinct(h, bind) && EventSlot(h, i, e)
    ensures OwnSubscriber(h, bind, ops, i, e)
    decreases |ops|
  {
    if ops != [] {
      var n := |ops| - 1;
      ReachesLastSubscriber(h, bind, ops[..n], i, e);
      match ops[n]
      case SubscribeOp(j, e', _) => SubscriptionSlot(h, bind, j, e');
      case UnsubscribeOp(j, e') => SubscriptionSlot(h, bind, j, e');
      case _ =>
    }
  }

  /** Exactly when: in every history every event key leads to its own last subscriber if and only if events
      that can be subscribed to have keys of their own. */
  lemma OwnSubscribersIffDistinct(h: Header, bind: seq<nat>)
    requires Sound(h) && WellBound(h, bind)
    ensures (forall ops: seq<AppOp>, i: nat, e: EventStub :: OpsOk(h, ops) && EventSlot(h, i, e) ==> OwnSubscriber(h, bind, ops, i, e))
            <==> SubscribedKeysDistinct(h, bind)
  {
    if SubscribedKeysDistinct(h, bind) {
      forall ops: seq<AppOp>, i: nat, e: EventStub | OpsOk(h, ops) && EventSlot(h, i, e)
        ensures OwnSubscriber(h, bind, ops, i, e)
      {
        ReachesLastSubscriber(h, bind, ops, i, e);
      }
    } else {
      var i: nat, e, i': nat, e' :| EventSlot(h, i, e) && EventSlot(h, i', e') && Subscribable(h, bind, i, e)
        && EventKeyAt(h, i, e) == EventKeyAt(h, i', e') && !(i == i' && e == e');
      var j :| 0 <= j < |bind| && bind[j] == i && e in ClientClassAt(h, j).subscribes;
      var ops := [SubscribeOp(j, e, 0)];
      SubscriptionSlot(h, bind, j, e);
      assert ops[..0] == [];
      assert Run(h, ops) == Step(h, NOTHING_ATTACHED, ops[0]);
      assert LastSubscriber(h, bind, ops[..0], i', e') == None;
      assert !OwnSubscriber(h, bind, ops, i', e');
    }
  }
}
