/** One set of IDL files, read by both generators: the parameter generator makes the messages that the
    application generator's classes exchange. */
module Projects {
  import opened Bytes
  import opened Schema
  import Parser = IdlParser
  import opened IdlTheorems
  import opened AppIdl
  import opened AppHeader
  import App = AppRuntime
  import opened Rpc

  /** The two readings of one file: both look at the names in the messages section. */
  predicate SameFile(a: RawAppFile, f: Parser.RawFile) {
    match f.messages
    case Items(items) => |a.messages| == |items| && forall k :: 0 <= k < |items| ==> a.messages[k] == items[k].name
    case _ => a.messages == []
  }

  predicate SameFiles(apps: seq<RawAppFile>, files: seq<Parser.RawFile>) {
    |apps| == |files| && forall i :: 0 <= i < |files| ==> SameFile(apps[i], files[i])
  }

  lemma {:induction false} MessageInItems(apps: seq<RawAppFile>, files: seq<Parser.RawFile>, name: Option<string>)
    requires SameFiles(apps, files) && name in Concat(MessagePart, apps)
    ensures exists i :: 0 <= i < |AllItems(files)| && AllItems(files)[i].raw.name == name
    decreases |files|
  {
    var n := |files| - 1;
    AllItemsSnoc(files[..n], files[n]);
    assert files[..n] + [files[n]] == files;
    if name in Concat(MessagePart, apps[..n]) {
      MessageInItems(apps[..n], files[..n], name);
      var i :| 0 <= i < |AllItems(files[..n])| && AllItems(files[..n])[i].raw.name == name;
      assert AllItems(files)[i].raw.name == name;
    } else {
      assert SameFile(apps[n], files[n]);
      var k :| 0 <= k < |apps[n].messages| && apps[n].messages[k] == name;
      var before := |AllItems(files[..n])| + |SectionItems(Parser.TypeCategory, files[n].types)|;
      assert AllItems(files)[before + k] == Item(Parser.MessageCategory, files[n].messages.items[k]);
    }
  }

  lemma {:induction false} AllItemsSnoc(files: seq<Parser.RawFile>, f: Parser.RawFile)
    ensures AllItems(files + [f]) == AllItems(files) + FileItems(f)
    decreases |files|
  {
    if files != [] {
      AllItemsSnoc(files[1..], f);
      assert (files + [f])[1..] == files[1..] + [f];
    } else {
      assert [f][1..] == [] && FileItems(f) + [] == FileItems(f);
    }
  }

  /** Every message that the application resolver knows is a type of the parsed table. */
  lemma MessagesAreTypes(apps: seq<RawAppFile>, files: seq<Parser.RawFile>)
    requires SameFiles(apps, files) && Parser.ParseIdl(files).Success?
    ensures MessageNames(apps) <= Table(Parser.ParseIdl(files).value.defs).Keys
  {
    var defs, items := Parser.ParseIdl(files).value.defs, AllItems(files);
    AcceptedMeans(files);
    AcceptedIffAcceptable(files);
    forall name | name in MessageNames(apps)
      ensures name in Table(defs)
    {
      var m :| m in Concat(MessagePart, apps) && Text(m) == name;
      MessageInItems(apps, files, m);
      var i :| 0 <= i < |items| && items[i].raw.name == m;
      assert ItemFresh(items[i], {});
      assert Defines(defs[i], PendingOf(items[i]), Parser.FieldParser(Names(items)));
      TableKeys(defs, name);
    }
  }

  // ---- the messages of accepted applications

  ghost predicate MessagesIn(s: TypeTable, c: ServiceClass) {
    && (forall m :: m in c.registers ==> m.request in s && m.response in s)
    && (forall e :: e in c.publishes ==> e.payload in s)
  }

  lemma AcceptedMessages(apps: seq<RawAppFile>, spec: AppSpec, h: Header, s: TypeTable)
    requires AppOf(apps) == Success(spec) && Resolved(spec) && HeaderFor(h, spec) && MessageNames(apps) <= s.Keys
    ensures forall c :: c in h.services ==> MessagesIn(s, c)
  {
    AcceptedStages(apps, spec);
    ServiceMessages(Concat(ServicePart, apps), MessageNames(apps), spec.services, h.services, s);
  }

  lemma ServiceMessages(raws: seq<RawService>, messages: set<string>, services: seq<ServiceSpec>, classes: seq<ServiceClass>, s: TypeTable)
    requires ServicesOk(raws, messages) && services == ServicesOf(raws) && messages <= s.Keys
    requires |classes| == |services| && forall i :: 0 <= i < |services| ==> classes[i] == ServiceClassOf(services[i])
    ensures forall c :: c in classes ==> MessagesIn(s, c)
  {
    forall c | c in classes
      ensures MessagesIn(s, c)
    {
      var d :| 0 <= d < |classes| && classes[d] == c;
      assert ServiceOk(raws[d], messages) && services[d] == ServiceOf(raws[d]);
      forall m | m in c.registers
        ensures m.request in s && m.response in s
      {
        var k :| 0 <= k < |c.registers| && c.registers[k] == m;
        assert MethodOk(raws[d].methods[k], messages);
      }
      forall e | e in c.publishes
        ensures e.payload in s
      {
        var k :| 0 <= k < |c.publishes| && c.publishes[k] == e;
        assert EventOk(raws[d].events[k], messages);
      }
    }
  }

  /** Files that both generators accept make a project to which `RpcExact` and `PublishExact` apply: every
      client instance is bound to the service instance that the IDL names, every method it calls has its slot
      there, and all messages are types of the parsed table. */
  lemma AcceptedProject(apps: seq<RawAppFile>, files: seq<Parser.RawFile>, spec: AppSpec, h: Header) returns (bind: seq<nat>)
    requires SameFiles(apps, files) && Parser.ParseIdl(files).Success? && AppOf(apps) == Success(spec)
    requires Consistent(spec) && HeaderFor(h, spec)
    ensures App.Sound(h) && App.WellBound(h, bind)
    ensures forall j :: 0 <= j < |bind| ==> h.attachPoints[bind[j]].name == spec.clientInstances[j].serviceInstanceName
    ensures forall j, m :: 0 <= j < |bind| && m in App.ClientClassAt(h, j).calls ==> HasSlot(h, bind[j], m)
    ensures forall c :: c in h.services ==> MessagesIn(Table(Parser.ParseIdl(files).value.defs), c)
  {
    ProjectMessages(apps, files, spec, h);
    AcceptedNamesDistinct(apps, spec);
    bind := BoundInstances(spec, h);
  }

  lemma ProjectMessages(apps: seq<RawAppFile>, files: seq<Parser.RawFile>, spec: AppSpec, h: Header)
    requires SameFiles(apps, files) && Parser.ParseIdl(files).Success? && AppOf(apps) == Success(spec)
    requires Resolved(spec) && HeaderFor(h, spec)
    ensures forall c :: c in h.services ==> MessagesIn(Table(Parser.ParseIdl(files).value.defs), c)
  {
    MessagesAreTypes(apps, files);
    AcceptedMessages(apps, spec, h, Table(Parser.ParseIdl(files).value.defs));
  }
}
