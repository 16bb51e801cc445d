/** The table of the shipped vehicle node meets all conditions: its headers compile, its generated code is
    correct, and it has the two types of the written-out classes. */
module ShippedProject {
  import opened Bytes
  import opened Schema
  import opened Headers
  import opened GeneratedCode
  import opened GeneratedReader
  import opened GeneratorTheorems
  import opened GeneratorHygiene
  import opened ShippedIdl
  import VehicleStatusTheorems

  lemma OrderIndices()
    ensures forall i :: 0 <= i < |ORDER| ==> Index(ORDER, ORDER[i]) == i
  {
    forall i, j | 0 <= i < j < |ORDER|
      ensures ORDER[i] != ORDER[j]
    {
      var marks := [9, 13, 21, 22, 23, 21, 22];
      assert forall k :: 0 <= k < |ORDER| ==> |ORDER[k]| == marks[k];
      assert ORDER[2][0] == 'G' && ORDER[3][0] == 'G' && ORDER[5][0] == 'S' && ORDER[6][0] == 'S';
    }
    forall i | 0 <= i < |ORDER|
      ensures Index(ORDER, ORDER[i]) == i
    {
      IndexAt(ORDER, ORDER[i]);
    }
  }

  lemma ShippedIncludable(s: TypeTable)
    requires Shipped(s)
    ensures Closed(s) && Includable(s)
  {
    forall t | t in s
      ensures s[t] != [] && FieldsClosed(s, s[t]) && forall k :: 0 <= k < |s[t]| ==> RefBelow(ORDER, t, s[t][k].kind)
    {
      var i :| 0 <= i < |ORDER| && ORDER[i] == t;
      IncludedAt(s, i, s[t]);
    }
    assert InclusionOrder(s, ORDER);
  }

  lemma IncludedAt(s: TypeTable, i: nat, fs: seq<Field>)
    requires Shipped(s) && i < |ORDER| && fs == FIELDS[i]
    ensures fs != [] && FieldsClosed(s, fs) && forall k :: 0 <= k < |fs| ==> RefBelow(ORDER, ORDER[i], fs[k].kind)
  {
    OrderIndices();
    RefersBack(i);
    assert ORDER[0] in s && ORDER[1] in s;
    assert Index(ORDER, ORDER[0]) == 0 && Index(ORDER, ORDER[1]) == 1 && Index(ORDER, ORDER[i]) == i;
    forall k | 0 <= k < |fs|
      ensures ElemClosed(s, fs[k].kind.e) && RefBelow(ORDER, ORDER[i], fs[k].kind)
    {
    }
  }

  /** Types are referred to after they are declared. */
  lemma RefersBack(i: nat)
    requires i < |ORDER|
    ensures FIELDS[i] != []
    ensures forall k :: 0 <= k < |FIELDS[i]| ==>
              FIELDS[i][k].kind.e.ECustom? ==> (FIELDS[i][k].kind.e.t == ORDER[0] && i > 0) || (FIELDS[i][k].kind.e.t == ORDER[1] && i > 1)
  {
  }

  // ---- names

  predicate FreeName(x: string) {
    x !in {"bytes", "writer", "reader", "i", "temp", "b"} + BASE_NAMES
  }

  /** Field names, element types and generated locals that have nothing to do with each other. */
  ghost predicate Unrelated(t: string, fs: seq<Field>) {
    && DistinctNames(fs) && FreeName(t) && t !in RESERVED_TYPES
    && (forall k :: 0 <= k < |fs| ==> FreeName(fs[k].name) && fs[k].name != t)
    && (forall k :: 0 <= k < |fs| ==> fs[k].kind.e.ECustom? ==> FreeName(fs[k].kind.e.t))
    && (forall j, k :: 0 <= j < |fs| && 0 <= k < |fs| ==> Apart(fs[j], fs[k]))
    && (forall j, k :: 0 <= j < k < |fs| ==> LocalOf(fs[j]) !! LocalOf(fs[k]))
  }

  predicate Apart(f: Field, g: Field) {
    g.name !in LocalOf(f) && (g.kind.e.ECustom? ==> g.kind.e.t !in LocalOf(f) && g.kind.e.t != f.name)
  }

  lemma {:induction false} LocalAt(fs: seq<Field>, k: nat, x: string)
    requires k <= |fs|
    ensures x in LocalNames(fs, k) <==> exists j :: 0 <= j < k && x in LocalOf(fs[j])
  {
    if k > 0 {
      LocalAt(fs, k - 1, x);
    }
  }

  lemma UnrelatedStruct(t: string, fs: seq<Field>)
    requires Unrelated(t, fs)
    ensures StructOk(t, fs) && WriteHygienic(fs) && Callable(t, fs, "serialize") && Callable(t, fs, "deserialize")
  {
    forall k | 0 <= k < |fs|
      ensures fs[k].name !in METHOD_NAMES && NamesType(t, fs, fs[k].kind.e)
    {
      if fs[k].kind.e.ECustom? {
        var e := fs[k].kind.e.t;
        assert forall j :: 0 <= j < |fs| ==> Apart(fs[j], fs[k]);
      }
    }
  }

  lemma UnrelatedRead(t: string, fs: seq<Field>, k: nat)
    requires Unrelated(t, fs) && k < |fs|
    ensures ReadHygienic(fs, k)
  {
    assert forall j :: 0 <= j < |fs| ==> Apart(fs[j], fs[k]);
    LocalAt(fs, k + 1, fs[k].name);
    forall x | x in LocalOf(fs[k])
      ensures x !in LocalNames(fs, k)
    {
      LocalAt(fs, k, x);
    }
    if fs[k].kind.e.ECustom? {
      LocalAt(fs, k + 1, fs[k].kind.e.t);
    }
  }

  lemma UnrelatedIsHygienic(t: string, fs: seq<Field>)
    requires Unrelated(t, fs)
    ensures Hygienic(t, fs)
  {
    UnrelatedStruct(t, fs);
    forall k | 0 <= k < |fs|
      ensures ReadHygienic(fs, k)
    {
      UnrelatedRead(t, fs, k);
    }
  }

  lemma FreeBySecond(x: string)
    requires |x| >= 2 && x[1] !in {'y', 'r', 'e'}
    ensures FreeName(x)
  {
  }

  lemma FreeByLength(x: string)
    requires |x| > 9 && |x| != 11 && |x| != 18 && |x| != 21
    ensures FreeName(x)
  {
  }

  /** Length and first letter tell names apart. */
  predicate Marked(x: string, length: nat, first: char) {
    |x| == length && length > 0 && x[0] == first
  }

  lemma StatusMarks()
    ensures var fs := VehicleStatusTheorems.STATUS;
            && Marked(fs[0].name, 3, 'v') && Marked(fs[1].name, 8, 's') && Marked(fs[2].name, 9, 'e') && Marked(fs[3].name, 8, 'd')
            && Marked(fs[4].name, 6, 'w') && Marked(fs[5].name, 12, 'a')
            && LocalOf(fs[0]) == {"vinStrLen"} && LocalOf(fs[1]) == {} && LocalOf(fs[2]) == {} && LocalOf(fs[3]) == {"b"}
            && LocalOf(fs[4]) == {"wheelsLen"} && LocalOf(fs[5]) == {"accelHistoryLen"}
  {
    assert "vin" + "StrLen" == "vinStrLen" && "wheels" + "Len" == "wheelsLen" && "accelHistory" + "Len" == "accelHistoryLen";
  }

  lemma LocalMarks()
    ensures Marked("vinStrLen", 9, 'v') && Marked("b", 1, 'b') && Marked("wheelsLen", 9, 'w') && Marked("accelHistoryLen", 15, 'a')
    ensures Marked("VehicleStatus", 13, 'V') && Marked("WheelInfo", 9, 'W')
  {
  }

  lemma StatusFree()
    ensures var fs := VehicleStatusTheorems.STATUS; forall k :: 0 <= k < |fs| ==> FreeName(fs[k].name)
    ensures FreeName("VehicleStatus") && FreeName("WheelInfo")
  {
    FreeBySecond("vin");
    FreeBySecond("speedKph");
    FreeBySecond("engineRpm");
    FreeBySecond("doorOpen");
    FreeBySecond("wheels");
    FreeBySecond("accelHistory");
    FreeByLength("VehicleStatus");
    FreeBySecond("WheelInfo");
  }

  lemma StatusApart(j: nat, k: nat)
    requires j < 6 && k < 6
    ensures var fs := VehicleStatusTheorems.STATUS; Apart(fs[j], fs[k])
  {
    StatusMarks();
    LocalMarks();
  }

  lemma StatusDistinct()
    ensures var fs := VehicleStatusTheorems.STATUS;
            && DistinctNames(fs) && (forall k :: 0 <= k < |fs| ==> fs[k].name != "VehicleStatus")
            && forall j, k :: 0 <= j < k < |fs| ==> LocalOf(fs[j]) !! LocalOf(fs[k])
  {
    StatusMarks();
    LocalMarks();
  }

  lemma StatusUnrelated()
    ensures Unrelated("VehicleStatus", VehicleStatusTheorems.STATUS)
  {
    var fs := VehicleStatusTheorems.STATUS;
    StatusDistinct();
    StatusFree();
    forall j, k | 0 <= j < |fs| && 0 <= k < |fs|
      ensures Apart(fs[j], fs[k])
    {
      StatusApart(j, k);
    }
    Reserved("VehicleStatus");
  }

  lemma Reserved(t: string)
    requires |t| in {9, 13} || (|t| in {21, 22, 23} && t[0] in {'G', 'S', 'V'} && t[1] in {'e'} && t[|t| - 1] in {'t', 'e'})
    ensures t !in RESERVED_TYPES
  {
  }

  /** Structs without generated locals, or with one. */
  lemma SmallUnrelated(t: string, fs: seq<Field>, local: string)
    requires |fs| <= 3 && DistinctNames(fs) && FreeName(t) && t !in RESERVED_TYPES
    requires forall k :: 0 <= k < |fs| ==> FreeName(fs[k].name) && fs[k].name != t && fs[k].name != local
    requires forall k :: 0 <= k < |fs| ==> fs[k].kind.e.ECustom? ==> Marked(fs[k].kind.e.t, 13, 'V') && FreeName(fs[k].kind.e.t)
    requires forall k :: 0 <= k < |fs| ==> !Marked(fs[k].name, 13, 'V')
    requires !Marked(local, 13, 'V')
    requires forall k :: 0 <= k < |fs| ==> LocalOf(fs[k]) <= {local}
    requires forall j, k :: 0 <= j < k < |fs| ==> LocalOf(fs[j]) !! LocalOf(fs[k])
    ensures Unrelated(t, fs)
  {
  }

  lemma WheelUnrelated()
    ensures Unrelated("WheelInfo", VehicleStatusTheorems.WHEEL)
  {
    FreeBySecond("WheelInfo");
    FreeBySecond("wheelId");
    FreeName11("pressureKpa");
    FreeByLength("temperatureC");
    Reserved("WheelInfo");
    SmallUnrelated("WheelInfo", VehicleStatusTheorems.WHEEL, "");
  }

  lemma FreeName11(x: string)
    requires |x| > 0 && x[0] == 'p'
    ensures FreeName(x)
  {
  }

  lemma InfoRequestUnrelated()
    ensures Unrelated("GetVehicleInfoRequest", INFO_REQUEST_FIELDS)
  {
    FreeMessage("GetVehicleInfoRequest");
    FreeRequestId();
    FreeBySecond("targetVin");
    Reserved("GetVehicleInfoRequest");
    assert "targetVin" + "StrLen" == "targetVinStrLen";
    assert INFO_REQUEST_FIELDS[0].name == "requestId" && INFO_REQUEST_FIELDS[1].name == "targetVin";
    assert LocalOf(INFO_REQUEST_FIELDS[0]) == {} && LocalOf(INFO_REQUEST_FIELDS[1]) == {"targetVinStrLen"};
    SmallUnrelated("GetVehicleInfoRequest", INFO_REQUEST_FIELDS, "targetVinStrLen");
  }

  lemma FreeRequestId()
    ensures FreeName("requestId")
  {
  }

  lemma FreeMessage(t: string)
    requires |t| > 20 && t[0] in {'G', 'S', 'V'}
    ensures FreeName(t)
  {
  }

  lemma WithStatusUnrelated(t: string, first: string, fs: seq<Field>)
    requires |t| > 20 && t[0] in {'G', 'V'} && t !in RESERVED_TYPES && FreeName(first) && 6 < |first| < 20 && first[0] != 'V'
    requires fs == [Field(first, One(EPrim(U32), L32)), Field("status", One(ECustom("VehicleStatus"), L32))]
    ensures Unrelated(t, fs)
  {
    FreeMessage(t);
    FreeBySecond("status");
    FreeByLength("VehicleStatus");
    assert |"status"| == 6 && Marked("VehicleStatus", 13, 'V');
    SmallUnrelated(t, fs, "");
  }

  lemma InfoRepliesUnrelated()
    ensures Unrelated("GetVehicleInfoResponse", INFO_RESPONSE_FIELDS) && Unrelated("VehicleInfoChangedEvent", INFO_EVENT_FIELDS)
  {
    FreeRequestId();
    FreeBySecond("eventSequence");
    Reserved("GetVehicleInfoResponse");
    Reserved("VehicleInfoChangedEvent");
    assert |"requestId"| == 9 && |"eventSequence"| == 13;
    WithStatusUnrelated("GetVehicleInfoResponse", "requestId", INFO_RESPONSE_FIELDS);
    WithStatusUnrelated("VehicleInfoChangedEvent", "eventSequence", INFO_EVENT_FIELDS);
  }

  lemma SpeedUnrelated()
    ensures Unrelated("SetCruiseSpeedRequest", SPEED_REQUEST_FIELDS) && Unrelated("SetCruiseSpeedResponse", SPEED_RESPONSE_FIELDS)
  {
    FreeMessage("SetCruiseSpeedRequest");
    FreeMessage("SetCruiseSpeedResponse");
    FreeBySecond("targetSpeedKph");
    FreeBySecond("accepted");
    Reserved("SetCruiseSpeedRequest");
    Reserved("SetCruiseSpeedResponse");
    assert LocalOf(SPEED_RESPONSE_FIELDS[0]) == {"b"};
    SmallUnrelated("SetCruiseSpeedRequest", SPEED_REQUEST_FIELDS, "");
    SmallUnrelated("SetCruiseSpeedResponse", SPEED_RESPONSE_FIELDS, "b");
  }

  lemma AllUnrelated(i: nat)
    requires i < |ORDER|
    ensures Unrelated(ORDER[i], FIELDS[i])
  {
    if i == 0 {
      WheelUnrelated();
    } else if i == 1 {
      StatusUnrelated();
    } else if i == 2 {
      InfoRequestUnrelated();
    } else if i <= 4 {
      InfoRepliesUnrelated();
    } else {
      SpeedUnrelated();
    }
  }

  lemma ShippedHygienic(s: TypeTable)
    requires Shipped(s)
    ensures AllHygienic(s)
  {
    forall t | t in s
      ensures Hygienic(t, s[t])
    {
      var i :| 0 <= i < |ORDER| && ORDER[i] == t;
      AllUnrelated(i);
      UnrelatedIsHygienic(ORDER[i], FIELDS[i]);
    }
  }

  /** For the table of message.json: the generated headers compile, all generated code computes the reference
      codec, and the written-out classes are the ones that the table describes. */
  lemma ShippedWorks(s: TypeTable, inc: map<string, seq<string>>, all: seq<string>)
    requires Shipped(s) && IncludeLines(s, inc) && forall x :: x in all <==> x in s
    ensures Works(s, inc, all) && VehicleStatusTheorems.Vehicle(s)
  {
    ShippedIncludable(s);
    ShippedHygienic(s);
    GeneratorCorrectIffHygienic(s, inc, all);
    assert ORDER[0] == "WheelInfo" && ORDER[1] == "VehicleStatus";
    assert s[ORDER[0]] == FIELDS[0] && s[ORDER[1]] == FIELDS[1];
  }
}
