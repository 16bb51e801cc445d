/** The IDL of the vehicle node that the repository ships (tools/someip_idl/examples/vehicle_node), record by
    record, through both generators. */
module ShippedIdl {
  import opened Bytes
  import opened Schema
  import opened IdlParser
  import opened IdlTheorems
  import VehicleStatusTheorems

  function Plain(name: string, t: string): RawField {
    RawField(Some(name), Some(t), None, None)
  }

  function Text(name: string, lengthType: string): RawField {
    RawField(Some(name), Some("string"), None, Some(lengthType))
  }

  function ArrayOf(name: string, t: string, lengthType: string): RawField {
    RawField(Some(name), Some("array"), Some(t), Some(lengthType))
  }

  const WHEEL_INFO := RawType(Some("WheelInfo"), Some([
    Plain("wheelId", "u8"), Plain("pressureKpa", "u16"), Plain("temperatureC", "i16")]))

  const VEHICLE_STATUS := RawType(Some("VehicleStatus"), Some([
    Text("vin", "u16"), Plain("speedKph", "u16"), Plain("engineRpm", "u32"), Plain("doorOpen", "bool"),
    ArrayOf("wheels", "WheelInfo", "u8"), ArrayOf("accelHistory", "f32", "u16")]))

  const INFO_REQUEST := RawType(Some("GetVehicleInfoRequest"), Some([Plain("requestId", "u32"), Text("targetVin", "u16")]))
  const INFO_RESPONSE := RawType(Some("GetVehicleInfoResponse"), Some([Plain("requestId", "u32"), Plain("status", "VehicleStatus")]))
  const INFO_EVENT := RawType(Some("VehicleInfoChangedEvent"), Some([Plain("eventSequence", "u32"), Plain("status", "VehicleStatus")]))
  const SPEED_REQUEST := RawType(Some("SetCruiseSpeedRequest"), Some([Plain("targetSpeedKph", "u16")]))
  const SPEED_RESPONSE := RawType(Some("SetCruiseSpeedResponse"), Some([Plain("accepted", "bool")]))

  const NAMESPACE := "openveh::someip::vehicle"

  const MESSAGE_JSON := RawFile(Some(NAMESPACE), Items([WHEEL_INFO, VEHICLE_STATUS]),
                                Items([INFO_REQUEST, INFO_RESPONSE, INFO_EVENT, SPEED_REQUEST, SPEED_RESPONSE]))

  const ITEMS: seq<Item> := [
    Item(TypeCategory, WHEEL_INFO), Item(TypeCategory, VEHICLE_STATUS),
    Item(MessageCategory, INFO_REQUEST), Item(MessageCategory, INFO_RESPONSE), Item(MessageCategory, INFO_EVENT),
    Item(MessageCategory, SPEED_REQUEST), Item(MessageCategory, SPEED_RESPONSE)]

  lemma MessageItems()
    ensures AllItems([MESSAGE_JSON]) == ITEMS
  {
    assert [MESSAGE_JSON][1..] == [];
    var types, messages := SectionItems(TypeCategory, MESSAGE_JSON.types), SectionItems(MessageCategory, MESSAGE_JSON.messages);
    assert types == ITEMS[..2] && messages == ITEMS[2..];
    assert AllItems([MESSAGE_JSON]) == types + messages + [];
  }

  lemma MessageNames()
    ensures Names(ITEMS) == {"WheelInfo", "VehicleStatus", "GetVehicleInfoRequest", "GetVehicleInfoResponse",
                             "VehicleInfoChangedEvent", "SetCruiseSpeedRequest", "SetCruiseSpeedResponse"}
  {
    assert ItemName(ITEMS[0]) == "WheelInfo" && ItemName(ITEMS[1]) == "VehicleStatus" && ItemName(ITEMS[2]) == "GetVehicleInfoRequest";
    assert ItemName(ITEMS[3]) == "GetVehicleInfoResponse" && ItemName(ITEMS[4]) == "VehicleInfoChangedEvent";
    assert ItemName(ITEMS[5]) == "SetCruiseSpeedRequest" && ItemName(ITEMS[6]) == "SetCruiseSpeedResponse";
  }

  lemma PlainOk(name: string, t: string, known: set<string>)
    requires Identifier(name) && t !in {"", "array", "string"} && (Builtin(t).Some? || t in known)
    ensures FieldOk(Plain(name, t), known)
  {
  }

  lemma TextOk(name: string, known: set<string>)
    requires Identifier(name)
    ensures FieldOk(Text(name, "u16"), known)
  {
  }

  lemma ArrayOk(name: string, t: string, lengthType: string, known: set<string>)
    requires Identifier(name) && t != "" && (Builtin(t).Some? || t in known) && LengthType(Some(lengthType)).Some?
    ensures FieldOk(ArrayOf(name, t, lengthType), known)
  {
  }

  lemma WheelOk(known: set<string>)
    ensures FieldsOk(WHEEL_INFO, known) && ItemOk(WHEEL_INFO)
  {
    PlainOk("wheelId", "u8", known);
    PlainOk("pressureKpa", "u16", known);
    PlainOk("temperatureC", "i16", known);
    assert Identifier("WheelInfo");
  }

  lemma StatusOk(known: set<string>)
    requires "WheelInfo" in known
    ensures FieldsOk(VEHICLE_STATUS, known) && ItemOk(VEHICLE_STATUS)
  {
    TextOk("vin", known);
    PlainOk("speedKph", "u16", known);
    PlainOk("engineRpm", "u32", known);
    PlainOk("doorOpen", "bool", known);
    ArrayOk("wheels", "WheelInfo", "u8", known);
    ArrayOk("accelHistory", "f32", "u16", known);
    assert Identifier("VehicleStatus");
  }

  lemma InfoRequestOk(known: set<string>)
    ensures FieldsOk(INFO_REQUEST, known) && ItemOk(INFO_REQUEST)
  {
    PlainOk("requestId", "u32", known);
    TextOk("targetVin", known);
    assert Identifier("GetVehicleInfoRequest");
  }

  lemma InfoResponseOk(known: set<string>)
    requires "VehicleStatus" in known
    ensures FieldsOk(INFO_RESPONSE, known) && ItemOk(INFO_RESPONSE)
  {
    PlainOk("requestId", "u32", known);
    PlainOk("status", "VehicleStatus", known);
    assert Identifier("GetVehicleInfoResponse");
  }

  lemma InfoEventOk(known: set<string>)
    requires "VehicleStatus" in known
    ensures FieldsOk(INFO_EVENT, known) && ItemOk(INFO_EVENT)
  {
    PlainOk("eventSequence", "u32", known);
    PlainOk("status", "VehicleStatus", known);
    assert Identifier("VehicleInfoChangedEvent");
  }

  lemma SpeedOk(known: set<string>)
    ensures FieldsOk(SPEED_REQUEST, known) && FieldsOk(SPEED_RESPONSE, known)
    ensures ItemOk(SPEED_REQUEST) && ItemOk(SPEED_RESPONSE)
  {
    PlainOk("targetSpeedKph", "u16", known);
    PlainOk("accepted", "bool", known);
    assert Identifier("SetCruiseSpeedRequest") && Identifier("SetCruiseSpeedResponse");
  }

  lemma NamesDiffer()
    ensures forall i, j :: 0 <= i < j < |ITEMS| ==> DifferentNames(ITEMS[i], ITEMS[j])
  {
    var marks := [9, 13, 21, 22, 23, 21, 22];
    assert forall i :: 0 <= i < |ITEMS| ==> |ItemName(ITEMS[i])| == marks[i];
    assert ItemName(ITEMS[2])[0] == 'G' && ItemName(ITEMS[3])[0] == 'G' && ItemName(ITEMS[5])[0] == 'S' && ItemName(ITEMS[6])[0] == 'S';
  }

  lemma ItemsOk(known: set<string>, i: nat)
    requires i < |ITEMS| && "WheelInfo" in known && "VehicleStatus" in known
    ensures ItemOk(ITEMS[i].raw) && FieldsOk(ITEMS[i].raw, known)
  {
    if i == 0 {
      WheelOk(known);
    } else if i == 1 {
      StatusOk(known);
    } else if i == 2 {
      InfoRequestOk(known);
    } else if i == 3 {
      InfoResponseOk(known);
    } else if i == 4 {
      InfoEventOk(known);
    } else {
      SpeedOk(known);
    }
  }

  lemma Accepted(files: seq<RawFile>, items: seq<Item>)
    requires |files| == 1 && items == AllItems(files) && Compatible(files[0], NamespaceOf(files[0]))
    requires forall i, j :: 0 <= i < j < |items| ==> DifferentNames(items[i], items[j])
    requires forall i :: 0 <= i < |items| ==> ItemOk(items[i].raw) && FieldsOk(items[i].raw, Names(items))
    ensures ParseIdl(files).Success?
  {
    assert forall i :: 0 <= i < |items| ==> ItemFresh(items[i], {});
    AcceptedIffAcceptable(files);
  }

  lemma MessagesAccepted()
    ensures ParseIdl([MESSAGE_JSON]).Success?
  {
    MessageItems();
    MessageNames();
    NamesDiffer();
    forall i | 0 <= i < |ITEMS|
      ensures ItemOk(ITEMS[i].raw) && FieldsOk(ITEMS[i].raw, Names(ITEMS))
    {
      ItemsOk(Names(ITEMS), i);
    }
    Accepted([MESSAGE_JSON], ITEMS);
  }

  lemma WheelParsed(known: set<string>, fs: seq<Field>)
    requires |fs| == 3 && forall k :: 0 <= k < 3 ==> ParseField(WHEEL_INFO.fields.value[k], known) == Success(fs[k])
    ensures fs == VehicleStatusTheorems.WHEEL
  {
    WheelOk(known);
    assert ParseField(WHEEL_INFO.fields.value[0], known) == Success(Field("wheelId", One(EPrim(U8), L32)));
    assert ParseField(WHEEL_INFO.fields.value[1], known) == Success(Field("pressureKpa", One(EPrim(U16), L32)));
    assert ParseField(WHEEL_INFO.fields.value[2], known) == Success(Field("temperatureC", One(EPrim(I16), L32)));
  }

  lemma StatusParsed(known: set<string>, fs: seq<Field>)
    requires "WheelInfo" in known
    requires |fs| == 6 && forall k :: 0 <= k < 6 ==> ParseField(VEHICLE_STATUS.fields.value[k], known) == Success(fs[k])
    ensures fs == VehicleStatusTheorems.STATUS
  {
    StatusOk(known);
    var raws := VEHICLE_STATUS.fields.value;
    assert ParseField(raws[0], known) == Success(Field("vin", One(EStr, L16)));
    assert ParseField(raws[1], known) == Success(Field("speedKph", One(EPrim(U16), L32)));
    assert ParseField(raws[2], known) == Success(Field("engineRpm", One(EPrim(U32), L32)));
    assert ParseField(raws[3], known) == Success(Field("doorOpen", One(EPrim(Bool), L32)));
    assert ParseField(raws[4], known) == Success(Field("wheels", Many(ECustom("WheelInfo"), L8)));
    assert ParseField(raws[5], known) == Success(Field("accelHistory", Many(EPrim(F32), L16)));
  }

  lemma MessageRecordsParsed(known: set<string>, i: nat, fs: seq<Field>)
    requires 2 <= i < |ITEMS| && "VehicleStatus" in known && |fs| == |ITEMS[i].raw.fields.value|
    requires forall k :: 0 <= k < |fs| ==> ParseField(ITEMS[i].raw.fields.value[k], known) == Success(fs[k])
    ensures fs == if i == 2 then INFO_REQUEST_FIELDS else if i == 3 then INFO_RESPONSE_FIELDS else if i == 4 then INFO_EVENT_FIELDS
                  else if i == 5 then SPEED_REQUEST_FIELDS else SPEED_RESPONSE_FIELDS
  {
    PlainParsed("requestId", "u32", known);
    PlainParsed("eventSequence", "u32", known);
    PlainParsed("status", "VehicleStatus", known);
    PlainParsed("targetSpeedKph", "u16", known);
    PlainParsed("accepted", "bool", known);
    assert ParseField(Text("targetVin", "u16"), known) == Success(Field("targetVin", One(EStr, L16)));
  }

  lemma PlainParsed(name: string, t: string, known: set<string>)
    requires Identifier(name) && (t in {"u16", "u32", "bool"} || (t == "VehicleStatus" && t in known))
    ensures ParseField(Plain(name, t), known) ==
            Success(Field(name, One(if t == "u16" then EPrim(U16) else if t == "u32" then EPrim(U32) else if t == "bool" then EPrim(Bool)
                                    else ECustom("VehicleStatus"), L32)))
  {
  }

  // ---- the table

  const INFO_REQUEST_FIELDS := [Field("requestId", One(EPrim(U32), L32)), Field("targetVin", One(EStr, L16))]
  const INFO_RESPONSE_FIELDS := [Field("requestId", One(EPrim(U32), L32)), Field("status", One(ECustom("VehicleStatus"), L32))]
  const INFO_EVENT_FIELDS := [Field("eventSequence", One(EPrim(U32), L32)), Field("status", One(ECustom("VehicleStatus"), L32))]
  const SPEED_REQUEST_FIELDS := [Field("targetSpeedKph", One(EPrim(U16), L32))]
  const SPEED_RESPONSE_FIELDS := [Field("accepted", One(EPrim(Bool), L32))]

  const ORDER := ["WheelInfo", "VehicleStatus", "GetVehicleInfoRequest", "GetVehicleInfoResponse", "VehicleInfoChangedEvent",
                  "SetCruiseSpeedRequest", "SetCruiseSpeedResponse"]

  const FIELDS: seq<seq<Field>> := [
    VehicleStatusTheorems.WHEEL, VehicleStatusTheorems.STATUS, INFO_REQUEST_FIELDS, INFO_RESPONSE_FIELDS, INFO_EVENT_FIELDS,
    SPEED_REQUEST_FIELDS, SPEED_RESPONSE_FIELDS]

  /** The table has these types with these fields, and no others. */
  ghost predicate TableIs(s: TypeTable, order: seq<string>, fields: seq<seq<Field>>)
    requires |order| == |fields|
  {
    && (forall t :: t in s <==> t in order)
    && forall i :: 0 <= i < |order| ==> order[i] in s && s[order[i]] == fields[i]
  }

  lemma TableOf(defs: seq<TypeDef>, order: seq<string>, fields: seq<seq<Field>>)
    requires |defs| == |order| == |fields| && forall i :: 0 <= i < |defs| ==> defs[i].name == order[i] && defs[i].fields == fields[i]
    requires forall i :: 0 <= i < |defs| ==> defs[i].name in Table(defs) && Table(defs)[defs[i].name] == defs[i].fields
    ensures TableIs(Table(defs), order, fields)
  {
    forall t
      ensures t in Table(defs) <==> t in order
    {
      TableKeys(defs, t);
      if t in order {
        var i :| 0 <= i < |order| && order[i] == t;
        assert defs[i].name == t;
      }
    }
  }

  ghost predicate Shipped(s: TypeTable) {
    TableIs(s, ORDER, FIELDS)
  }

  /** What message.json is parsed to. */
  lemma MessagesParsed()
    ensures ParseIdl([MESSAGE_JSON]).Success? && Shipped(Table(ParseIdl([MESSAGE_JSON]).value.defs))
  {
    MessagesAccepted();
    ParsedTableIsClosed([MESSAGE_JSON]);
    var defs := ParseIdl([MESSAGE_JSON]).value.defs;
    DefsParsed(defs);
    TableOf(defs, ORDER, FIELDS);
  }

  lemma DefsParsed(defs: seq<TypeDef>)
    requires ParseIdl([MESSAGE_JSON]).Success? && defs == ParseIdl([MESSAGE_JSON]).value.defs
    ensures |defs| == |ITEMS| && forall i :: 0 <= i < |ITEMS| ==> defs[i].name == ORDER[i] && defs[i].fields == FIELDS[i]
  {
    MessageItems();
    MessageNames();
    AcceptedMeans([MESSAGE_JSON]);
    forall i | 0 <= i < |ITEMS|
      ensures defs[i].name == ORDER[i] && defs[i].fields == FIELDS[i]
    {
      DefParsed(Names(ITEMS), i, defs[i]);
    }
  }

  lemma DefParsed(known: set<string>, i: nat, d: TypeDef)
    requires i < |ITEMS| && known == Names(ITEMS) && "WheelInfo" in known && "VehicleStatus" in known
    requires Defines(d, PendingOf(ITEMS[i]), FieldParser(known))
    ensures d.name == ORDER[i] && d.fields == FIELDS[i]
  {
    ItemsOk(known, i);
    var raws := ITEMS[i].raw.fields.value;
    assert forall k :: 0 <= k < |raws| ==> ParseField(raws[k], known) == Success(d.fields[k]);
    if i == 0 {
      WheelParsed(known, d.fields);
    } else if i == 1 {
      StatusParsed(known, d.fields);
    } else {
      MessageRecordsParsed(known, i, d.fields);
    }
  }
}
