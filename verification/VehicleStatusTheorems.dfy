/** The hand-checkable specifications of the two structs are the reference codec at their entries of the
    type table. */
module VehicleStatusTheorems {
  import opened Bytes
  import opened Schema
  import opened Codec
  import opened CodecSteps
  import opened CodecTheorems
  import opened VehicleStatus

  const WHEEL: seq<Field> := [
    Field("wheelId", One(EPrim(U8), L32)),
    Field("pressureKpa", One(EPrim(U16), L32)),
    Field("temperatureC", One(EPrim(I16), L32))]

  const STATUS: seq<Field> := [
    Field("vin", One(EStr, L16)),
    Field("speedKph", One(EPrim(U16), L32)),
    Field("engineRpm", One(EPrim(U32), L32)),
    Field("doorOpen", One(EPrim(Bool), L32)),
    Field("wheels", Many(ECustom("WheelInfo"), L8)),
    Field("accelHistory", Many(EPrim(F32), L16))]

  /** A type table with these two entries. */
  ghost predicate Vehicle(s: TypeTable) {
    Valid(s) && "WheelInfo" in s && s["WheelInfo"] == WHEEL && "VehicleStatus" in s && s["VehicleStatus"] == STATUS
  }

  lemma VehicleTableExists()
    ensures Vehicle(map["WheelInfo" := WHEEL, "VehicleStatus" := STATUS])
  {
    var s: TypeTable := map["WheelInfo" := WHEEL, "VehicleStatus" := STATUS];
    var order := ["WheelInfo", "VehicleStatus"];
    assert order[0] == "WheelInfo" && order[1..][0] == "VehicleStatus";
    assert Index(order, "WheelInfo") == 0 && Index(order, "VehicleStatus") == 1;
    assert FieldsClosed(s, WHEEL) && FieldsClosed(s, STATUS);
    assert FieldsBelow(order, WHEEL, 0) && FieldsBelow(order, STATUS, 1);
    assert DefinitionOrder(s, order);
  }

  // ---- reading

  /** Reading one more plain word. */
  lemma WordSnoc(s: TypeTable, fs: seq<Field>, r: nat, k: nat, p: Prim, bs: seq<byte>, pos: nat)
    requires Valid(s) && AllBelow(s, fs, r) && k < |fs| && pos <= |bs| && fs[k].kind == One(EPrim(p), L32)
    ensures AllBelow(s, fs[0..k], r) && AllBelow(s, fs[0..k + 1], r)
    ensures DecFields(s, fs[0..k + 1], r, bs, pos) == ThenWord(DecFields(s, fs[0..k], r, bs, pos), p, bs)
  {
    DecFieldsSnoc(s, fs, r, 0, k, bs, pos);
  }

  lemma WheelReadIsDec(s: TypeTable, bs: seq<byte>, pos: nat)
    requires Vehicle(s) && pos <= |bs|
    ensures var w := WheelRead(bs, pos);
            Dec(s, ECustom("WheelInfo"), L8, bs, pos) == if w.Got? then Got(VObj(w.v), w.pos) else Fail
  {
    var r := Rank(s, "WheelInfo");
    FieldsOfTypeBelow(s, "WheelInfo");
    assert WHEEL[0..0] == [] && WHEEL[0..3] == WHEEL;
    WordSnoc(s, WHEEL, r, 0, U8, bs, pos);
    WordSnoc(s, WHEEL, r, 1, U16, bs, pos);
    WordSnoc(s, WHEEL, r, 2, I16, bs, pos);
  }

  ghost predicate WheelAt(s: TypeTable, bs: seq<byte>, pos: nat)
    requires Valid(s) && "WheelInfo" in s && pos <= |bs|
  {
    var w := WheelRead(bs, pos);
    Dec(s, ECustom("WheelInfo"), L8, bs, pos) == if w.Got? then Got(VObj(w.v), w.pos) else Fail
  }

  /** The table agrees with WheelRead, wherever a wheel is read. */
  ghost predicate WheelsAgree(s: TypeTable, bs: seq<byte>) {
    Valid(s) && "WheelInfo" in s && forall pos {:trigger WheelAt(s, bs, pos)} :: 0 <= pos <= |bs| ==> WheelAt(s, bs, pos)
  }

  lemma WheelsDoAgree(s: TypeTable, bs: seq<byte>)
    requires Vehicle(s)
    ensures WheelsAgree(s, bs)
  {
    forall pos | 0 <= pos <= |bs|
      ensures WheelAt(s, bs, pos)
    {
      WheelReadIsDec(s, bs, pos);
    }
  }

  lemma {:induction false} WheelsAllIsDec(s: TypeTable, n: nat, bs: seq<byte>, pos: nat)
    requires WheelsAgree(s, bs) && pos <= |bs|
    ensures WheelsAll(n, bs, pos) == DecAll(s, ECustom("WheelInfo"), L8, n, bs, pos)
    decreases n
  {
    if n > 0 {
      WheelsAllIsDec(s, n - 1, bs, pos);
      assert WheelsAll(n, bs, pos) == ThenWheel(WheelsAll(n - 1, bs, pos), bs);
      NextWheel(s, n, bs, pos, WheelsAll(n - 1, bs, pos), WheelsAll(n, bs, pos));
    }
  }

  lemma NextWheel(s: TypeTable, n: nat, bs: seq<byte>, pos: nat, a: Read<seq<Value>>, next: Read<seq<Value>>)
    requires WheelsAgree(s, bs) && pos <= |bs| && n > 0
    requires a == DecAll(s, ECustom("WheelInfo"), L8, n - 1, bs, pos) && next == ThenWheel(a, bs)
    ensures next == DecAll(s, ECustom("WheelInfo"), L8, n, bs, pos)
  {
    DecAllSnoc(s, ECustom("WheelInfo"), L8, n - 1, bs, pos);
    OneMoreWheel(s, a, bs);
  }

  lemma OneMoreWheel(s: TypeTable, a: Read<seq<Value>>, bs: seq<byte>)
    requires WheelsAgree(s, bs) && (a.Got? ==> a.pos <= |bs|)
    ensures ThenWheel(a, bs) == Snoc(a, if a.Got? then Dec(s, ECustom("WheelInfo"), L8, bs, a.pos) else Fail)
  {
    if a.Got? {
      assert WheelAt(s, bs, a.pos);
    }
  }

  lemma {:induction false} FloatsAllIsDec(s: TypeTable, n: nat, bs: seq<byte>, pos: nat)
    requires Valid(s) && pos <= |bs|
    ensures FloatsAll(n, bs, pos) == DecAll(s, EPrim(F32), L16, n, bs, pos)
    decreases n
  {
    if n > 0 {
      FloatsAllIsDec(s, n - 1, bs, pos);
      DecAllSnoc(s, EPrim(F32), L16, n - 1, bs, pos);
    }
  }

  lemma StringFirst(s: TypeTable, fs: seq<Field>, r: nat, bs: seq<byte>, pos: nat)
    requires Valid(s) && AllBelow(s, fs, r) && pos <= |bs| && fs != [] && fs[0].kind == One(EStr, L16)
    ensures AllBelow(s, fs[0..1], r)
    ensures DecFields(s, fs[0..1], r, bs, pos) == Snoc(Got([], pos), DecStr(L16, bs, pos))
  {
    assert fs[0..0] == [];
    DecFieldsSnoc(s, fs, r, 0, 0, bs, pos);
    assert DecFields(s, [], r, bs, pos) == Got([], pos);
  }

  lemma ScalarsReadIsDec(s: TypeTable, fs: seq<Field>, r: nat, bs: seq<byte>, pos: nat)
    requires Valid(s) && AllBelow(s, fs, r) && pos <= |bs| && |fs| >= 4
    requires fs[0].kind == One(EStr, L16) && fs[1].kind == One(EPrim(U16), L32)
    requires fs[2].kind == One(EPrim(U32), L32) && fs[3].kind == One(EPrim(Bool), L32)
    ensures AllBelow(s, fs[0..4], r) && ScalarsRead(bs, pos) == DecFields(s, fs[0..4], r, bs, pos)
  {
    StringFirst(s, fs, r, bs, pos);
    WordSnoc(s, fs, r, 1, U16, bs, pos);
    WordSnoc(s, fs, r, 2, U32, bs, pos);
    WordSnoc(s, fs, r, 3, Bool, bs, pos);
  }

  lemma WheelsReadIsDec(s: TypeTable, kind: Kind, r: nat, bs: seq<byte>, pos: nat)
    requires WheelsAgree(s, bs) && pos <= |bs| && kind == Many(ECustom("WheelInfo"), L8) && Below(s, kind, r)
    ensures WheelsRead(bs, pos) == DecKind(s, kind, r, bs, pos)
  {
    var n := DecLen(L8, bs, pos);
    if n.Got? {
      WheelsAllIsDec(s, n.v, bs, n.pos);
    }
  }

  lemma HistoryReadIsDec(s: TypeTable, kind: Kind, r: nat, bs: seq<byte>, pos: nat)
    requires Valid(s) && pos <= |bs| && kind == Many(EPrim(F32), L16) && Below(s, kind, r)
    ensures HistoryRead(bs, pos) == DecKind(s, kind, r, bs, pos)
  {
    var m := DecLen(L16, bs, pos);
    if m.Got? {
      FloatsAllIsDec(s, m.v, bs, m.pos);
    }
  }

  lemma FieldsReadAreDec(s: TypeTable, fs: seq<Field>, r: nat, bs: seq<byte>, pos: nat)
    requires WheelsAgree(s, bs) && AllBelow(s, fs, r) && pos <= |bs| && |fs| == 6
    requires fs[0].kind == One(EStr, L16) && fs[1].kind == One(EPrim(U16), L32)
    requires fs[2].kind == One(EPrim(U32), L32) && fs[3].kind == One(EPrim(Bool), L32)
    requires fs[4].kind == Many(ECustom("WheelInfo"), L8) && fs[5].kind == Many(EPrim(F32), L16)
    ensures StatusRead(bs, pos) == DecFields(s, fs, r, bs, pos)
  {
    ScalarsReadIsDec(s, fs, r, bs, pos);
    WheelsNext(s, fs, r, bs, pos, ScalarsRead(bs, pos));
    DecFieldsSnoc(s, fs, r, 0, 5, bs, pos);
    var b := DecFields(s, fs[0..5], r, bs, pos);
    if b.Got? {
      HistoryReadIsDec(s, fs[5].kind, r, bs, b.pos);
    }
    assert fs[0..6] == fs;
  }

  lemma WheelsNext(s: TypeTable, fs: seq<Field>, r: nat, bs: seq<byte>, pos: nat, a: Read<seq<Value>>)
    requires WheelsAgree(s, bs) && AllBelow(s, fs, r) && pos <= |bs| && |fs| == 6 && fs[4].kind == Many(ECustom("WheelInfo"), L8)
    requires AllBelow(s, fs[0..4], r) && a == DecFields(s, fs[0..4], r, bs, pos)
    ensures AllBelow(s, fs[0..5], r)
    ensures DecFields(s, fs[0..5], r, bs, pos) == Snoc(a, if a.Got? then WheelsRead(bs, a.pos) else Fail)
  {
    DecFieldsSnoc(s, fs, r, 0, 4, bs, pos);
    if a.Got? {
      WheelsReadIsDec(s, fs[4].kind, r, bs, a.pos);
    }
  }

  /** What VehicleStatus.DeserializeFromReader is proved to compute is the reference decoder. */
  lemma StatusReadIsDec(s: TypeTable, bs: seq<byte>, pos: nat)
    requires Vehicle(s) && pos <= |bs|
    ensures var d := StatusRead(bs, pos);
            Dec(s, ECustom("VehicleStatus"), L32, bs, pos) == if d.Got? then Got(VObj(d.v), d.pos) else Fail
  {
    var r := Rank(s, "VehicleStatus");
    FieldsOfTypeBelow(s, "VehicleStatus");
    WheelsDoAgree(s, bs);
    FieldsReadAreDec(s, STATUS, r, bs, pos);
  }

  // ---- writing

  lemma WordWritten(s: TypeTable, fs: seq<Field>, ms: seq<Value>, k: nat, p: Prim, done: seq<byte>)
    requires k < |fs| == |ms| && fs[k].kind == One(EPrim(p), L32) && PrimTyped(p, ms[k])
    requires EncFields(s, fs[0..k], ms[0..k]) == Some(done)
    ensures EncFields(s, fs[0..k + 1], ms[0..k + 1]) == Some(done + EncPrim(p, ms[k]))
  {
    EncFieldsSnoc(s, fs, ms, 0, k);
  }

  lemma WheelEncodedIsEnc(s: TypeTable, w: WheelInfo)
    requires Vehicle(s)
    ensures Enc(s, ECustom("WheelInfo"), L8, VObj(w.Members())) == Some(w.Encoded())
  {
    var ms := w.Members();
    var a, b := EncPrim(U8, ms[0]), EncPrim(U16, ms[1]);
    assert WHEEL[0..0] == [] && ms[0..0] == [] && WHEEL[0..3] == WHEEL && ms[0..3] == ms;
    WordWritten(s, WHEEL, ms, 0, U8, []);
    assert [] + a == a;
    WordWritten(s, WHEEL, ms, 1, U16, a);
    WordWritten(s, WHEEL, ms, 2, I16, a + b);
  }

  lemma {:induction false} WheelsBytesIsEnc(s: TypeTable, ws: seq<WheelInfo>)
    requires Vehicle(s)
    ensures |WheelValues(ws)| == |ws|
    ensures EncAll(s, ECustom("WheelInfo"), L8, WheelValues(ws)) == Some(WheelsBytes(ws))
    decreases |ws|
  {
    if ws != [] {
      var front, last := ws[..|ws| - 1], ws[|ws| - 1];
      WheelsBytesIsEnc(s, front);
      WheelEncodedIsEnc(s, last);
      EncAllSnoc(s, ECustom("WheelInfo"), L8, WheelValues(front), VObj(last.Members()));
    }
  }

  lemma {:induction false} FloatsBytesIsEnc(s: TypeTable, ws: seq<u32>)
    ensures |FloatValues(ws)| == |ws|
    ensures EncAll(s, EPrim(F32), L16, FloatValues(ws)) == Some(FloatsBytes(ws))
    decreases |ws|
  {
    if ws != [] {
      FloatsBytesIsEnc(s, ws[..|ws| - 1]);
      EncAllSnoc(s, EPrim(F32), L16, FloatValues(ws[..|ws| - 1]), VInt(ws[|ws| - 1]));
    }
  }

  lemma ScalarsWritten(s: TypeTable, fs: seq<Field>, ms: seq<Value>)
    requires |fs| == |ms| == 6 && ms[0].VStr? && PrimTyped(U16, ms[1]) && PrimTyped(U32, ms[2]) && PrimTyped(Bool, ms[3])
    requires fs[0].kind == One(EStr, L16) && fs[1].kind == One(EPrim(U16), L32)
    requires fs[2].kind == One(EPrim(U32), L32) && fs[3].kind == One(EPrim(Bool), L32)
    ensures EncFields(s, fs[0..4], ms[0..4]) ==
            if |ms[0].s| <= 0xFFFF
            then Some(BE(2, |ms[0].s|) + ms[0].s + EncPrim(U16, ms[1]) + EncPrim(U32, ms[2]) + EncPrim(Bool, ms[3]))
            else None
  {
    assert fs[0..0] == [] && ms[0..0] == [];
    EncFieldsSnoc(s, fs, ms, 0, 0);
    EncFieldsSnoc(s, fs, ms, 0, 1);
    EncFieldsSnoc(s, fs, ms, 0, 2);
    EncFieldsSnoc(s, fs, ms, 0, 3);
    var head := BE(2, |ms[0].s|) + ms[0].s;
    assert [] + head == head;
  }

  /** What VehicleStatus.SerializeTo is proved to append is the reference encoding; it fails when there is none. */
  lemma StatusEncodedIsEnc(s: TypeTable, o: VehicleStatus)
    requires Vehicle(s)
    ensures Enc(s, ECustom("VehicleStatus"), L32, VObj(o.Members())) == o.Encoded()
  {
    ScalarsWritten(s, STATUS, o.Members());
    FieldsWrittenAre(s, STATUS, o.Members());
    WheelsBytesIsEnc(s, o.wheels);
    FloatsBytesIsEnc(s, o.accelHistory);
  }

  lemma FieldsWrittenAre(s: TypeTable, fs: seq<Field>, ms: seq<Value>)
    requires |fs| == |ms| == 6
    ensures EncFields(s, fs, ms) ==
            Append(Append(EncFields(s, fs[0..4], ms[0..4]), EncKind(s, fs[4].kind, ms[4])), EncKind(s, fs[5].kind, ms[5]))
  {
    EncFieldsSnoc(s, fs, ms, 0, 4);
    EncFieldsSnoc(s, fs, ms, 0, 5);
    assert fs[0..6] == fs && ms[0..6] == ms;
  }

  /** Whatever one status object writes, another reads back as the same members, behind any prefix and
      before any suffix. */
  lemma StatusRoundTrip(s: TypeTable, o: VehicleStatus, before: seq<byte>, after: seq<byte>)
    requires Vehicle(s) && o.Encoded().Some?
    ensures StatusRead(before + o.Encoded().value + after, |before|) ==
            Got(o.Members(), |before| + |o.Encoded().value|)
  {
    StatusEncodedIsEnc(s, o);
    RoundTrip(s, ECustom("VehicleStatus"), L32, VObj(o.Members()), before, after);
    StatusReadIsDec(s, before + o.Encoded().value + after, |before|);
  }
}
