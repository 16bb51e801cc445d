/** The generated WheelInfo and VehicleStatus structs: in-place readers and writers, each proved to do
    what the reference codec does for its entry of the type table. */
module VehicleStatus {
  import opened Bytes
  import opened Schema
  import opened Codec
  import opened CodecSteps
  import opened ByteStreams

  type u8 = byte
  type i16 = i: int | -0x8000 <= i < 0x8000

  // ---- what the statements of the two structs compute, in order

  function ThenWord(a: Read<seq<Value>>, p: Prim, bs: seq<byte>): (r: Read<seq<Value>>)
    ensures r.Got? ==> a.Got? && a.pos < r.pos <= |bs| && |r.v| == |a.v| + 1
  {
    Snoc(a, if a.Got? then DecPrim(p, bs, a.pos) else Fail)
  }

  function WheelRead(bs: seq<byte>, pos: nat): (r: Read<seq<Value>>)
    ensures r.Got? ==> pos < r.pos <= |bs|
  {
    ThenWord(ThenWord(ThenWord(Got([], pos), U8, bs), U16, bs), I16, bs)
  }

  function ScalarsRead(bs: seq<byte>, pos: nat): (r: Read<seq<Value>>)
    ensures r.Got? ==> pos < r.pos <= |bs|
  {
    ThenWord(ThenWord(ThenWord(Snoc(Got([], pos), DecStr(L16, bs, pos)), U16, bs), U32, bs), Bool, bs)
  }

  function ThenWheel(a: Read<seq<Value>>, bs: seq<byte>): (r: Read<seq<Value>>)
    ensures r.Got? ==> a.Got? && a.pos < r.pos <= |bs| && |r.v| == |a.v| + 1
  {
    if a.Fail? then Fail
    else
      var w := WheelRead(bs, a.pos);
      if w.Got? then Got(a.v + [VObj(w.v)], w.pos) else Fail
  }

  function WheelsAll(n: nat, bs: seq<byte>, pos: nat): (r: Read<seq<Value>>)
    requires pos <= |bs|
    ensures r.Got? ==> pos <= r.pos <= |bs| && |r.v| == n
  {
    if n == 0 then Got([], pos) else ThenWheel(WheelsAll(n - 1, bs, pos), bs)
  }

  function FloatsAll(n: nat, bs: seq<byte>, pos: nat): (r: Read<seq<Value>>)
    requires pos <= |bs|
    ensures r.Got? ==> pos <= r.pos <= |bs| && |r.v| == n
  {
    if n == 0 then Got([], pos) else ThenWord(FloatsAll(n - 1, bs, pos), F32, bs)
  }

  function ArrayOf(r: Read<seq<Value>>): Read<Value> {
    if r.Got? then Got(VArr(r.v), r.pos) else Fail
  }

  function WheelsRead(bs: seq<byte>, pos: nat): (r: Read<Value>)
    ensures r.Got? ==> pos < r.pos <= |bs|
  {
    var n := DecLen(L8, bs, pos);
    if n.Fail? then Fail else ArrayOf(WheelsAll(n.v, bs, n.pos))
  }

  function HistoryRead(bs: seq<byte>, pos: nat): (r: Read<Value>)
    ensures r.Got? ==> pos < r.pos <= |bs|
  {
    var n := DecLen(L16, bs, pos);
    if n.Fail? then Fail else ArrayOf(FloatsAll(n.v, bs, n.pos))
  }

  function StatusRead(bs: seq<byte>, pos: nat): Read<seq<Value>> {
    var a := ScalarsRead(bs, pos);
    var b := Snoc(a, if a.Got? then WheelsRead(bs, a.pos) else Fail);
    Snoc(b, if b.Got? then HistoryRead(bs, b.pos) else Fail)
  }

  /** A failed prefix of an array is a failed array. */
  lemma {:induction false} WheelsFail(i: nat, n: nat, bs: seq<byte>, pos: nat)
    requires i <= n && pos <= |bs| && WheelsAll(i, bs, pos).Fail?
    ensures WheelsAll(n, bs, pos).Fail?
    decreases n
  {
    if i < n {
      WheelsFail(i, n - 1, bs, pos);
    }
  }

  lemma {:induction false} FloatsFail(i: nat, n: nat, bs: seq<byte>, pos: nat)
    requires i <= n && pos <= |bs| && FloatsAll(i, bs, pos).Fail?
    ensures FloatsAll(n, bs, pos).Fail?
    decreases n
  {
    if i < n {
      FloatsFail(i, n - 1, bs, pos);
    }
  }

  lemma Three(a: Value, b: Value, c: Value)
    ensures [] + [a] + [b] + [c] == [a, b, c]
  {
  }

  lemma Four(a: Value, b: Value, c: Value, d: Value)
    ensures [] + [a] + [b] + [c] + [d] == [a, b, c, d]
  {
  }

  // ---- the structs

  /** The vector of wheels holds its elements by value. */
  datatype WheelInfo = WheelInfo(wheelId: u8, pressureKpa: u16, temperatureC: i16) {

    function Members(): seq<Value> {
      [VInt(wheelId), VInt(pressureKpa), VInt(temperatureC)]
    }

    function Encoded(): seq<byte> {
      EncPrim(U8, VInt(wheelId)) + EncPrim(U16, VInt(pressureKpa)) + EncPrim(I16, VInt(temperatureC))
    }

    method SerializeTo(bytes: ByteVector)
      modifies bytes
      ensures bytes.data == old(bytes.data) + Encoded()
    {
      var writer := new ByteWriter(bytes);
      writer.WriteIntegralBE(U8, wheelId);
      writer.WriteIntegralBE(U16, pressureKpa);
      writer.WriteIntegralBE(I16, temperatureC);
    }

    static method DeserializeFromReader(reader: ByteReader) returns (ok: bool, wheel: WheelInfo)
      requires reader.Valid()
      modifies reader
      ensures reader.Valid()
      ensures var d := WheelRead(reader.input, old(reader.pos));
              ok == d.Got? && (ok ==> d == Got(wheel.Members(), reader.pos))
    {
      wheel := WheelInfo(0, 0, 0);
      var v;
      ok, v := reader.ReadIntegralBE(U8);
      if !ok { return; }
      wheel := wheel.(wheelId := v);
      ok, v := reader.ReadIntegralBE(U16);
      if !ok { return; }
      wheel := wheel.(pressureKpa := v);
      ok, v := reader.ReadIntegralBE(I16);
      if !ok { return; }
      wheel := wheel.(temperatureC := v);
      Three(VInt(wheel.wheelId), VInt(wheel.pressureKpa), VInt(wheel.temperatureC));
    }
  }

  function WheelValues(ws: seq<WheelInfo>): (vs: seq<Value>) {
    if ws == [] then [] else WheelValues(ws[..|ws| - 1]) + [VObj(ws[|ws| - 1].Members())]
  }

  lemma WheelAppended(i: nat, bs: seq<byte>, start: nat, ws: seq<WheelInfo>, w: WheelInfo, pos: nat)
    requires start <= |bs| && WheelsAll(i, bs, start).Got? && WheelsAll(i, bs, start).v == WheelValues(ws)
    requires WheelRead(bs, WheelsAll(i, bs, start).pos) == Got(w.Members(), pos)
    ensures WheelsAll(i + 1, bs, start) == Got(WheelValues(ws + [w]), pos)
  {
    assert (ws + [w])[..|ws|] == ws;
  }

  function FloatValues(ws: seq<u32>): (vs: seq<Value>) {
    if ws == [] then [] else FloatValues(ws[..|ws| - 1]) + [VInt(ws[|ws| - 1])]
  }

  function WheelsBytes(ws: seq<WheelInfo>): seq<byte> {
    if ws == [] then [] else WheelsBytes(ws[..|ws| - 1]) + ws[|ws| - 1].Encoded()
  }

  function FloatsBytes(ws: seq<u32>): seq<byte> {
    if ws == [] then [] else FloatsBytes(ws[..|ws| - 1]) + EncPrim(F32, VInt(ws[|ws| - 1]))
  }

  class VehicleStatus {
    var vin: seq<byte>
    var speedKph: u16
    var engineRpm: u32
    var doorOpen: bool
    var wheels: seq<WheelInfo>
    var accelHistory: seq<u32>  // bit patterns of floats

    function Members(): (ms: seq<Value>)
      reads this
    {
      [VStr(vin), VInt(speedKph), VInt(engineRpm), VBool(doorOpen), VArr(WheelValues(wheels)), VArr(FloatValues(accelHistory))]
    }

    function EncodedScalars(): seq<byte>
      reads this
    {
      BE(2, |vin|) + vin + EncPrim(U16, VInt(speedKph)) + EncPrim(U32, VInt(engineRpm)) + EncPrim(Bool, VBool(doorOpen))
    }

    /** The bytes of a status whose three lengths fit. */
    function Encoded(): Option<seq<byte>>
      reads this
    {
      if |vin| <= 0xFFFF && |wheels| <= 0xFF && |accelHistory| <= 0xFFFF then
        Some(EncodedScalars() + (BE(1, |wheels|) + WheelsBytes(wheels)) + (BE(2, |accelHistory|) + FloatsBytes(accelHistory)))
      else None
    }

    method SerializeTo(bytes: ByteVector) returns (ok: bool)
      modifies bytes
      ensures ok == Encoded().Some? && (ok ==> bytes.data == old(bytes.data) + Encoded().value)
    {
      var writer := new ByteWriter(bytes);
      ghost var before := bytes.data;
      ok := SerializeScalars(writer);
      if !ok { return; }
      ok := SerializeWheels(writer);
      if !ok { return; }
      ok := SerializeHistory(writer);
      if !ok { return; }
      Regroup(before, EncodedScalars(), BE(1, |wheels|) + WheelsBytes(wheels), BE(2, |accelHistory|) + FloatsBytes(accelHistory));
    }

    /** The statements for the members before the arrays. */
    method SerializeScalars(writer: ByteWriter) returns (ok: bool)
      modifies writer.out
      ensures ok <==> |vin| <= 0xFFFF
      ensures ok ==> writer.out.data == old(writer.out.data) + EncodedScalars()
    {
      ok := writer.WriteString(L16, vin);
      if !ok { return; }
      writer.WriteIntegralBE(U16, speedKph);
      writer.WriteIntegralBE(U32, engineRpm);
      writer.WriteBool(doorOpen);
    }

    /** The statements for the array of wheels. */
    method SerializeWheels(writer: ByteWriter) returns (ok: bool)
      modifies writer.out
      ensures ok <==> |wheels| <= 0xFF
      ensures ok ==> writer.out.data == old(writer.out.data) + (BE(1, |wheels|) + WheelsBytes(wheels))
    {
      if |wheels| > 0xFF { return false; }
      writer.WriteIntegralBE(U8, |wheels|);
      ghost var before := writer.out.data;
      for i := 0 to |wheels|
        invariant writer.out.data == before + WheelsBytes(wheels[..i])
      {
        wheels[i].SerializeTo(writer.out);
        assert wheels[..i + 1][..i] == wheels[..i];
      }
      assert wheels[..|wheels|] == wheels;
      return true;
    }

    /** The statements for the array of floats. */
    method SerializeHistory(writer: ByteWriter) returns (ok: bool)
      modifies writer.out
      ensures ok <==> |accelHistory| <= 0xFFFF
      ensures ok ==> writer.out.data == old(writer.out.data) + (BE(2, |accelHistory|) + FloatsBytes(accelHistory))
    {
      if |accelHistory| > 0xFFFF { return false; }
      writer.WriteIntegralBE(U16, |accelHistory|);
      ghost var before := writer.out.data;
      for i := 0 to |accelHistory|
        invariant writer.out.data == before + FloatsBytes(accelHistory[..i])
      {
        writer.WriteIntegralBE(F32, accelHistory[i]);
        assert accelHistory[..i + 1][..i] == accelHistory[..i];
      }
      assert accelHistory[..|accelHistory|] == accelHistory;
      return true;
    }

    /** Whatever the object held before, it holds the decoded value after success. */
    method DeserializeFromReader(reader: ByteReader) returns (ok: bool)
      requires reader.Valid()
      modifies this, reader
      ensures reader.Valid()
      ensures var d := StatusRead(reader.input, old(reader.pos));
              ok == d.Got? && (ok ==> d == Got(Members(), reader.pos))
    {
      ok := DeserializeScalars(reader);
      if !ok { return; }
      ok := DeserializeWheels(reader);
      if !ok { return; }
      ok := DeserializeHistory(reader);
      assert [VStr(vin), VInt(speedKph), VInt(engineRpm), VBool(doorOpen)] + [VArr(WheelValues(wheels))]
             + [VArr(FloatValues(accelHistory))] == Members();
    }

    method DeserializeWheels(reader: ByteReader) returns (ok: bool)
      requires reader.Valid()
      modifies this`wheels, reader
      ensures reader.Valid()
      ensures var d := WheelsRead(reader.input, old(reader.pos));
              ok == d.Got? && (ok ==> d == Got(VArr(WheelValues(wheels)), reader.pos))
    {
      var n;
      ghost var bs := reader.input;
      ok, n := reader.ReadIntegralBE(U8);
      if !ok { return; }
      wheels := [];
      ghost var start := reader.pos;
      for i := 0 to n
        invariant reader.Valid() && |wheels| == i
        invariant WheelsAll(i, bs, start) == Got(WheelValues(wheels), reader.pos)
      {
        var temp;
        ok, temp := WheelInfo.DeserializeFromReader(reader);
        if !ok {
          WheelsFail(i + 1, n, bs, start);
          return;
        }
        WheelAppended(i, bs, start, wheels, temp, reader.pos);
        wheels := wheels + [temp];
      }
    }

    method DeserializeHistory(reader: ByteReader) returns (ok: bool)
      requires reader.Valid()
      modifies this`accelHistory, reader
      ensures reader.Valid()
      ensures var d := HistoryRead(reader.input, old(reader.pos));
              ok == d.Got? && (ok ==> d == Got(VArr(FloatValues(accelHistory)), reader.pos))
    {
      var n;
      ghost var bs := reader.input;
      ok, n := reader.ReadIntegralBE(U16);
      if !ok { return; }
      accelHistory := [];
      ghost var start := reader.pos;
      for i := 0 to n
        invariant reader.Valid() && |accelHistory| == i
        invariant FloatsAll(i, bs, start) == Got(FloatValues(accelHistory), reader.pos)
      {
        var temp;
        ok, temp := reader.ReadIntegralBE(F32);
        if !ok {
          FloatsFail(i + 1, n, bs, start);
          return;
        }
        assert (accelHistory + [temp])[..i] == accelHistory;
        accelHistory := accelHistory + [temp];
      }
    }

    /** The statements for the members before the arrays. */
    method DeserializeScalars(reader: ByteReader) returns (ok: bool)
      requires reader.Valid()
      modifies this`vin, this`speedKph, this`engineRpm, this`doorOpen, reader
      ensures reader.Valid()
      ensures var d := ScalarsRead(reader.input, old(reader.pos));
              ok == d.Got? && (ok ==> d == Got([VStr(vin), VInt(speedKph), VInt(engineRpm), VBool(doorOpen)], reader.pos))
    {
      var v;
      ok, vin := reader.ReadString(L16);
      if !ok { return; }
      ok, v := reader.ReadIntegralBE(U16);
      if !ok { return; }
      speedKph := v;
      ok, v := reader.ReadIntegralBE(U32);
      if !ok { return; }
      engineRpm := v;
      ByteToBool(reader.input, reader.pos);
      ok, v := reader.ReadIntegralBE(U8);
      if !ok { return; }
      doorOpen := v != 0;
      Four(VStr(vin), VInt(speedKph), VInt(engineRpm), VBool(doorOpen));
    }
  }

  lemma Regroup(a: seq<byte>, b: seq<byte>, c: seq<byte>, d: seq<byte>)
    ensures a + b + c + d == a + (b + c + d)
  {
  }

  lemma ByteToBool(bs: seq<byte>, pos: nat)
    ensures var d, n := DecPrim(Bool, bs, pos), DecPrim(U8, bs, pos);
            if n.Got? then n.v.VInt? && d == Got(VBool(n.v.i != 0), n.pos) else d.Fail?
  {
    if pos + 1 <= |bs| {
      var raw := bs[pos..pos + 1];
      assert raw[..0] == [];
      assert FromBE(raw) == raw[0];
    }
  }
}
