/** The schema-directed reference codec: what the generated serializeTo / deserializeFromReader are for. */
module Codec {
  import opened Bytes
  import opened Schema

  /** Outcome of reading at a position: failure, or a result and the position after it. */
  datatype Read<+T> = Fail | Got(v: T, pos: nat)

  // ---- integers

  /** static_cast to the unsigned type of the same width. */
  function ToUnsigned(p: Prim, i: int): (u: nat)
    requires IntInRange(p, i)
  {
    if i < 0 then i + Modulus(p) else i
  }

  /** static_cast back from the unsigned type. */
  function FromUnsigned(p: Prim, u: nat): int {
    if Signed(p) && u >= Modulus(p) / 2 then u - Modulus(p) else u
  }

  function Modulus(p: Prim): (m: nat)
  {
    match Width(p)
    case 1 => 0x100
    case 2 => 0x1_0000
    case 4 => 0x1_0000_0000
    case _ => 0x1_0000_0000_0000_0000
  }

  lemma ModulusIsPow(p: Prim)
    ensures Modulus(p) == Pow256(Width(p))
  {
    Pow256Values();
  }

  /** The two casts undo each other, and reading a full-width word always yields a value of the type. */
  lemma CastRoundTrip(p: Prim, i: int)
    requires IntInRange(p, i)
    ensures ToUnsigned(p, i) < Modulus(p) && FromUnsigned(p, ToUnsigned(p, i)) == i
  {
  }

  lemma CastBack(p: Prim, u: nat)
    requires !p.Bool? && u < Modulus(p)
    ensures IntInRange(p, FromUnsigned(p, u)) && ToUnsigned(p, FromUnsigned(p, u)) == u
  {
  }

  function EncPrim(p: Prim, v: Value): (e: seq<byte>)
    requires PrimTyped(p, v)
    ensures |e| == Width(p)
  {
    if p.Bool? then [if v.b then 1 else 0] else BE(Width(p), ToUnsigned(p, v.i))
  }

  /** The value of a full-width word. */
  function PrimOf(p: Prim, raw: seq<byte>): Value
    requires |raw| == Width(p)
  {
    if p.Bool? then VBool(raw[0] != 0) else VInt(FromUnsigned(p, FromBE(raw)))
  }

  function DecPrim(p: Prim, bs: seq<byte>, pos: nat): (r: Read<Value>)
    ensures r.Got? ==> pos < r.pos <= |bs|
  {
    if pos + Width(p) <= |bs| then Got(PrimOf(p, bs[pos..pos + Width(p)]), pos + Width(p)) else Fail
  }

  function DecLen(lt: LenType, bs: seq<byte>, pos: nat): (r: Read<nat>)
    ensures r.Got? ==> pos < r.pos <= |bs| && r.v <= MaxLen(lt)
  {
    var w := LenWidth(lt);
    if pos + w <= |bs| then
      FromBEBound(bs[pos..pos + w]);
      Pow256Values();
      Got(FromBE(bs[pos..pos + w]), pos + w)
    else Fail
  }

  function DecStr(lt: LenType, bs: seq<byte>, pos: nat): (r: Read<Value>)
    ensures r.Got? ==> pos < r.pos <= |bs|
  {
    var n := DecLen(lt, bs, pos);
    if n.Got? && n.pos + n.v <= |bs| then Got(VStr(bs[n.pos..n.pos + n.v]), n.pos + n.v) else Fail
  }

  // ---- encoder: None when the value does not have the type, or a length does not fit

  function Enc(s: TypeTable, e: Elem, lt: LenType, v: Value): Option<seq<byte>>
    decreases v, 0
  {
    match e
    case EPrim(p) => if PrimTyped(p, v) then Some(EncPrim(p, v)) else None
    case EStr => if v.VStr? && |v.s| <= MaxLen(lt) then Some(BE(LenWidth(lt), |v.s|) + v.s) else None
    case ECustom(t) => if t in s && v.VObj? && |v.ms| == |s[t]| then EncFields(s, s[t], v.ms) else None
  }

  function EncFields(s: TypeTable, fs: seq<Field>, ms: seq<Value>): Option<seq<byte>>
    requires |fs| == |ms|
    decreases ms, 2
  {
    if fs == [] then Some([])
    else Append(EncKind(s, fs[0].kind, ms[0]), EncFields(s, fs[1..], ms[1..]))
  }

  function EncKind(s: TypeTable, kind: Kind, v: Value): Option<seq<byte>>
    decreases v, 1
  {
    match kind
    case One(e, lt) => Enc(s, e, lt, v)
    case Many(e, lt) =>
      if v.VArr? && |v.vs| <= MaxLen(lt) then
        Append(Some(BE(LenWidth(lt), |v.vs|)), EncAll(s, e, lt, v.vs))
      else None
  }

  function EncAll(s: TypeTable, e: Elem, lt: LenType, vs: seq<Value>): Option<seq<byte>>
    decreases vs, 2
  {
    if vs == [] then Some([])
    else Append(Enc(s, e, lt, vs[0]), EncAll(s, e, lt, vs[1..]))
  }

  function Append(a: Option<seq<byte>>, b: Option<seq<byte>>): Option<seq<byte>> {
    if a.Some? && b.Some? then Some(a.value + b.value) else None
  }

  // ---- decoder
  //
  // Terminates on every input: each length prefix consumes a byte before any element is read, and
  // between two consumed bytes only types of smaller containment rank are entered.

  ghost function ElemRank(s: TypeTable, e: Elem): nat
    requires Valid(s)
  {
    if e.ECustom? then 1 + Rank(s, e.t) else 0
  }

  ghost predicate Below(s: TypeTable, kind: Kind, r: nat)
    requires Valid(s)
  {
    ElemClosed(s, kind.e) && (kind.One? ==> ElemRank(s, kind.e) <= r)
  }

  ghost predicate AllBelow(s: TypeTable, fs: seq<Field>, r: nat)
    requires Valid(s)
  {
    forall k {:trigger Below(s, fs[k].kind, r)} :: 0 <= k < |fs| ==> Below(s, fs[k].kind, r)
  }

  lemma FieldsOfTypeBelow(s: TypeTable, t: string)
    requires Valid(s) && t in s
    ensures s[t] != [] && AllBelow(s, s[t], Rank(s, t))
  {
    var order := Order(s);
    assert FieldsBelow(order, s[t], Index(order, t)) && FieldsClosed(s, s[t]);
    forall k | 0 <= k < |s[t]|
      ensures Below(s, s[t][k].kind, Rank(s, t))
    {
      assert KindBelow(order, s[t][k].kind, Index(order, t)) && ElemClosed(s, s[t][k].kind.e);
    }
  }

  function Dec(s: TypeTable, e: Elem, lt: LenType, bs: seq<byte>, pos: nat): (r: Read<Value>)
    requires Valid(s) && ElemClosed(s, e) && pos <= |bs|
    ensures r.Got? ==> pos < r.pos <= |bs|
    decreases |bs| - pos, ElemRank(s, e), 0
  {
    match e
    case EPrim(p) => DecPrim(p, bs, pos)
    case EStr => DecStr(lt, bs, pos)
    case ECustom(t) =>
      FieldsOfTypeBelow(s, t);
      var r := DecFields(s, s[t], Rank(s, t), bs, pos);
      if r.Got? then Got(VObj(r.v), r.pos) else Fail
  }

  function DecFields(s: TypeTable, fs: seq<Field>, ghost r: nat, bs: seq<byte>, pos: nat): (res: Read<seq<Value>>)
    requires Valid(s) && AllBelow(s, fs, r) && pos <= |bs|
    ensures res.Got? ==> pos <= res.pos <= |bs| && |res.v| == |fs| && (fs != [] ==> pos < res.pos)
    decreases |bs| - pos, r, 1 + |fs|
  {
    if fs == [] then Got([], pos)
    else
      assert Below(s, fs[0].kind, r);
      var a := DecKind(s, fs[0].kind, r, bs, pos);
      if a.Fail? then Fail
      else
        var b := DecFields(s, fs[1..], r, bs, a.pos);
        if b.Got? then Got([a.v] + b.v, b.pos) else Fail
  }

  function DecKind(s: TypeTable, kind: Kind, ghost r: nat, bs: seq<byte>, pos: nat): (res: Read<Value>)
    requires Valid(s) && Below(s, kind, r) && pos <= |bs|
    ensures res.Got? ==> pos < res.pos <= |bs|
    decreases |bs| - pos, r, 1
  {
    match kind
    case One(e, lt) => Dec(s, e, lt, bs, pos)
    case Many(e, lt) =>
      var n := DecLen(lt, bs, pos);
      if n.Fail? then Fail
      else
        var a := DecAll(s, e, lt, n.v, bs, n.pos);
        if a.Got? then Got(VArr(a.v), a.pos) else Fail
  }

  /** n elements in a row. Every element takes at least one byte, so n is at most the bytes consumed. */
  function DecAll(s: TypeTable, e: Elem, lt: LenType, n: nat, bs: seq<byte>, pos: nat): (r: Read<seq<Value>>)
    requires Valid(s) && ElemClosed(s, e) && pos <= |bs|
    ensures r.Got? ==> pos <= r.pos <= |bs| && |r.v| == n <= r.pos - pos
    decreases |bs| - pos, ElemRank(s, e), 1 + n
  {
    if n == 0 then Got([], pos)
    else
      var a := Dec(s, e, lt, bs, pos);
      if a.Fail? then Fail
      else
        var b := DecAll(s, e, lt, n - 1, bs, a.pos);
        if b.Got? then Got([a.v] + b.v, b.pos) else Fail
  }

  // ---- whole messages, as SerializableObject::serialize and ::deserialize

  /** The empty vector stands for failure. */
  function Serialize(s: TypeTable, t: string, v: Value): seq<byte> {
    var e := Enc(s, ECustom(t), L32, v);
    if e.Some? then e.value else []
  }

  /** Accepts only if every byte is consumed. */
  function Deserialize(s: TypeTable, t: string, bs: seq<byte>): Option<Value>
    requires Valid(s) && t in s
  {
    var r := Dec(s, ECustom(t), L32, bs, 0);
    if r.Got? && r.pos == |bs| then Some(r.v) else None
  }
}
