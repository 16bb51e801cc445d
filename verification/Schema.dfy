/** The type table of the parameter generator: fields, element types, length prefixes, and the
    values that the generated C++ structs hold. */
module Schema {
  import opened Bytes

  /** Non-string primitives. Floats are their raw bit patterns, which the generated code copies unchanged. */
  datatype Prim = U8 | U16 | U32 | U64 | I8 | I16 | I32 | I64 | F32 | F64 | Bool

  datatype LenType = L8 | L16 | L32

  datatype Elem = EPrim(p: Prim) | EStr | ECustom(t: string)

  /** A field is one element or an array of them. `lt` is the length type of the array, or of the string:
      an array of strings uses the same one for both. */
  datatype Kind = One(e: Elem, lt: LenType) | Many(e: Elem, lt: LenType)

  datatype Field = Field(name: string, kind: Kind)

  /** Type and message definitions by name. */
  type TypeTable = map<string, seq<Field>>

  /** What a field or an element holds. Struct members are listed in declaration order. */
  datatype Value =
    | VInt(i: int)
    | VBool(b: bool)
    | VStr(s: seq<byte>)
    | VArr(vs: seq<Value>)
    | VObj(ms: seq<Value>)

  function Width(p: Prim): (w: nat)
    ensures 1 <= w <= 8
  {
    match p
    case U8 | I8 | Bool => 1
    case U16 | I16 => 2
    case U32 | I32 | F32 => 4
    case U64 | I64 | F64 => 8
  }

  predicate Signed(p: Prim) {
    p.I8? || p.I16? || p.I32? || p.I64?
  }

  function LenPrim(lt: LenType): (p: Prim)
    ensures !p.Bool? && !Signed(p) && !p.F32? && !p.F64?
  {
    match lt
    case L8 => U8
    case L16 => U16
    case L32 => U32
  }

  function LenWidth(lt: LenType): (w: nat)
    ensures 1 <= w <= 4
  {
    Width(LenPrim(lt))
  }

  /** std::numeric_limits<T>::max() of the length type. */
  function MaxLen(lt: LenType): nat {
    match lt
    case L8 => 0xFF
    case L16 => 0xFFFF
    case L32 => 0xFFFF_FFFF
  }

  /** Values a C++ integer of the given primitive can hold. */
  predicate IntInRange(p: Prim, i: int) {
    match p
    case U8 => 0 <= i < 0x100
    case U16 => 0 <= i < 0x1_0000
    case U32 | F32 => 0 <= i < 0x1_0000_0000
    case U64 | F64 => 0 <= i < 0x1_0000_0000_0000_0000
    case I8 => -0x80 <= i < 0x80
    case I16 => -0x8000 <= i < 0x8000
    case I32 => -0x8000_0000 <= i < 0x8000_0000
    case I64 => -0x8000_0000_0000_0000 <= i < 0x8000_0000_0000_0000
    case Bool => false
  }

  predicate PrimTyped(p: Prim, v: Value) {
    if p.Bool? then v.VBool? else v.VInt? && IntInRange(p, v.i)
  }

  // ---- well-formed type tables

  /** Every referenced type is declared, and every type has at least one field. */
  predicate Closed(s: TypeTable) {
    forall t {:trigger FieldsClosed(s, s[t])} :: t in s ==> s[t] != [] && FieldsClosed(s, s[t])
  }

  predicate FieldsClosed(s: TypeTable, fs: seq<Field>) {
    forall k {:trigger ElemClosed(s, fs[k].kind.e)} :: 0 <= k < |fs| ==> ElemClosed(s, fs[k].kind.e)
  }

  predicate ElemClosed(s: TypeTable, e: Elem) {
    e.ECustom? ==> e.t in s
  }

  /** An order in which every type comes after the types it contains by value. That is all the codec needs:
      its arrays may refer to any type, their own included. */
  ghost predicate DefinitionOrder(s: TypeTable, order: seq<string>) {
    && (forall t :: t in s ==> t in order)
    && forall t :: t in s ==> FieldsBelow(order, s[t], Index(order, t))
  }

  ghost predicate FieldsBelow(order: seq<string>, fs: seq<Field>, r: nat) {
    forall k :: 0 <= k < |fs| ==> KindBelow(order, fs[k].kind, r)
  }

  ghost predicate KindBelow(order: seq<string>, kind: Kind, r: nat) {
    kind.One? && kind.e.ECustom? ==> Index(order, kind.e.t) < r
  }

  /** Position of the first occurrence, |order| if there is none. */
  function Index(order: seq<string>, t: string): (r: nat)
    ensures r <= |order|
    ensures t in order ==> r < |order|
  {
    if order == [] || order[0] == t then 0 else 1 + Index(order[1..], t)
  }

  ghost predicate Acyclic(s: TypeTable) {
    exists order: seq<string> :: DefinitionOrder(s, order)
  }

  ghost predicate Valid(s: TypeTable) {
    Closed(s) && Acyclic(s)
  }

  ghost function Order(s: TypeTable): (order: seq<string>)
    requires Valid(s)
    ensures DefinitionOrder(s, order)
  {
    var order: seq<string> :| DefinitionOrder(s, order);
    order
  }

  /** Containment rank: strictly above the rank of every type contained by value. */
  ghost function Rank(s: TypeTable, t: string): nat
    requires Valid(s)
  {
    Index(Order(s), t)
  }

  // ---- well-typed values

  predicate Typed(s: TypeTable, e: Elem, v: Value)
    decreases v, 0
  {
    match e
    case EPrim(p) => PrimTyped(p, v)
    case EStr => v.VStr?
    case ECustom(t) => t in s && v.VObj? && |v.ms| == |s[t]| && TypedFields(s, s[t], v.ms)
  }

  predicate TypedKind(s: TypeTable, kind: Kind, v: Value)
    decreases v, 1
  {
    match kind
    case One(e, _) => Typed(s, e, v)
    case Many(e, _) => v.VArr? && forall j :: 0 <= j < |v.vs| ==> Typed(s, e, v.vs[j])
  }

  predicate TypedFields(s: TypeTable, fs: seq<Field>, ms: seq<Value>)
    requires |fs| == |ms|
    decreases ms, 2
  {
    forall k :: 0 <= k < |fs| ==> TypedKind(s, fs[k].kind, ms[k])
  }

  // ---- every string and array length fits its length type

  predicate Fits(s: TypeTable, e: Elem, lt: LenType, v: Value)
    decreases v, 0
  {
    match e
    case EPrim(_) => true
    case EStr => v.VStr? && |v.s| <= MaxLen(lt)
    case ECustom(t) => t in s && v.VObj? && |v.ms| == |s[t]| && FitsFields(s, s[t], v.ms)
  }

  predicate FitsKind(s: TypeTable, kind: Kind, v: Value)
    decreases v, 1
  {
    match kind
    case One(e, lt) => Fits(s, e, lt, v)
    case Many(e, lt) => v.VArr? && |v.vs| <= MaxLen(lt) && forall j :: 0 <= j < |v.vs| ==> Fits(s, e, lt, v.vs[j])
  }

  predicate FitsFields(s: TypeTable, fs: seq<Field>, ms: seq<Value>)
    requires |fs| == |ms|
    decreases ms, 2
  {
    forall k :: 0 <= k < |fs| ==> FitsKind(s, fs[k].kind, ms[k])
  }
}
