/** The C++ statements that the parameter generator emits, the functions that emit them, and what
    running them does. Names are resolved as C++ scoping resolves them, so a member can be hidden by a
    local that the generator introduced. */
module GeneratedCode {
  import opened Bytes
  import opened Schema
  import opened Codec

  // ---- statements of serializeTo. Each write is `if (!...) return false;`

  datatype WriteStmt =
    | GuardSize(x: string, lt: LenType)               // if (x.size() > max(lt)) return false;
    | WriteSize(x: string, lt: LenType)               // writer.writeIntegralBE<lt>(x.size())
    | InsertBytes(x: string)                          // bytes.insert(bytes.end(), x.begin(), x.end());
    | WriteIntegral(p: Prim, x: string)               // writer.writeIntegralBE<p>(x)
    | WriteFloat32(x: string)
    | WriteFloat64(x: string)
    | WriteBool(x: string)                            // writer.writeIntegralBE<u8>(x ? 1u : 0u)
    | CallSerialize(x: string)                        // x.serializeTo(bytes)
    | ForEach(x: string, body: seq<WriteStmt>)        // for (const auto& elem : x) { body }

  // ---- statements of deserializeFromReader. Each read is `if (!...) return false;`

  datatype ReadStmt =
    | DeclInt(p: Prim, x: string)                     // p x = 0;
    | DeclTemp(e: Elem, x: string)                    // e x;
    | ReadIntegral(p: Prim, x: string)                // reader.readIntegralBE<p>(x)
    | ReadFloat32(x: string)
    | ReadFloat64(x: string)
    | ReadBytes(len: string, x: string)               // reader.readBytes(len, x)
    | AssignNonZero(x: string, from: string)          // x = (from != 0);
    | CallDeserialize(x: string)                      // x.deserializeFromReader(reader)
    | Clear(x: string)                                // x.clear(); x.reserve(...)
    | PushBack(x: string, from: string)               // x.push_back(from);
    | PushNonZero(x: string, from: string)            // x.push_back(from != 0);
    | ForCount(p: Prim, len: string, body: seq<ReadStmt>) // for (p i = 0; i < len; ++i) { body }

  // ---- emission

  function EmitWriteElem(e: Elem, lt: LenType, x: string): seq<WriteStmt> {
    match e
    case EStr => [GuardSize(x, lt), WriteSize(x, lt), InsertBytes(x)]
    case EPrim(F32) => [WriteFloat32(x)]
    case EPrim(F64) => [WriteFloat64(x)]
    case EPrim(Bool) => [WriteBool(x)]
    case EPrim(p) => [WriteIntegral(p, x)]
    case ECustom(_) => [CallSerialize(x)]
  }

  function EmitWrite(f: Field): seq<WriteStmt> {
    match f.kind
    case One(e, lt) => EmitWriteElem(e, lt, f.name)
    case Many(e, lt) =>
      [GuardSize(f.name, lt), WriteSize(f.name, lt), ForEach(f.name, EmitWriteElem(e, lt, "elem"))]
  }

  function EmitWrites(fs: seq<Field>): seq<WriteStmt> {
    if fs == [] then [] else EmitWrite(fs[0]) + EmitWrites(fs[1..])
  }

  function EmitReadOne(e: Elem, lt: LenType, x: string): seq<ReadStmt> {
    match e
    case EStr => [DeclInt(LenPrim(lt), x + "StrLen"), ReadIntegral(LenPrim(lt), x + "StrLen"), ReadBytes(x + "StrLen", x)]
    case EPrim(F32) => [ReadFloat32(x)]
    case EPrim(F64) => [ReadFloat64(x)]
    case EPrim(Bool) => [DeclInt(U8, "b"), ReadIntegral(U8, "b"), AssignNonZero(x, "b")]
    case EPrim(p) => [ReadIntegral(p, x)]
    case ECustom(_) => [CallDeserialize(x)]
  }

  function EmitReadElem(e: Elem, lt: LenType, x: string): seq<ReadStmt> {
    match e
    case EStr =>
      [DeclInt(LenPrim(lt), x + "ElemStrLen"), ReadIntegral(LenPrim(lt), x + "ElemStrLen"),
       DeclTemp(EStr, "temp"), ReadBytes(x + "ElemStrLen", "temp"), PushBack(x, "temp")]
    case EPrim(F32) => [DeclTemp(e, "temp"), ReadFloat32("temp"), PushBack(x, "temp")]
    case EPrim(F64) => [DeclTemp(e, "temp"), ReadFloat64("temp"), PushBack(x, "temp")]
    case EPrim(Bool) => [DeclInt(U8, "b"), ReadIntegral(U8, "b"), PushNonZero(x, "b")]
    case EPrim(p) => [DeclInt(p, "temp"), ReadIntegral(p, "temp"), PushBack(x, "temp")]
    case ECustom(_) => [DeclTemp(e, "temp"), CallDeserialize("temp"), PushBack(x, "temp")]
  }

  function EmitRead(f: Field): seq<ReadStmt> {
    match f.kind
    case One(e, lt) => EmitReadOne(e, lt, f.name)
    case Many(e, lt) =>
      var len := f.name + "Len";
      [DeclInt(LenPrim(lt), len), ReadIntegral(LenPrim(lt), len), Clear(f.name),
       ForCount(LenPrim(lt), len, EmitReadElem(e, lt, f.name))]
  }

  function EmitReads(fs: seq<Field>): seq<ReadStmt> {
    if fs == [] then [] else EmitRead(fs[0]) + EmitReads(fs[1..])
  }

  // ---- the generator's loops, which append to the list of lines

  lemma EmitWritesSnoc(fs: seq<Field>, f: Field)
    ensures EmitWrites(fs + [f]) == EmitWrites(fs) + EmitWrite(f)
  {
    if fs == [] {
      assert [f][1..] == [];
    } else {
      EmitWritesSnoc(fs[1..], f);
      assert (fs + [f])[1..] == fs[1..] + [f];
    }
  }

  lemma EmitReadsSnoc(fs: seq<Field>, f: Field)
    ensures EmitReads(fs + [f]) == EmitReads(fs) + EmitRead(f)
  {
    if fs == [] {
      assert [f][1..] == [];
    } else {
      EmitReadsSnoc(fs[1..], f);
      assert (fs + [f])[1..] == fs[1..] + [f];
    }
  }

  method WriteTypeBodies(fs: seq<Field>) returns (writeStmts: seq<WriteStmt>, readStmts: seq<ReadStmt>)
    ensures writeStmts == EmitWrites(fs) && readStmts == EmitReads(fs)
  {
    writeStmts, readStmts := [], [];
    for k := 0 to |fs|
      invariant writeStmts == EmitWrites(fs[..k])
    {
      writeStmts := writeStmts + EmitWrite(fs[k]);
      EmitWritesSnoc(fs[..k], fs[k]);
      assert fs[..k + 1] == fs[..k] + [fs[k]];
    }
    for k := 0 to |fs|
      invariant readStmts == EmitReads(fs[..k])
    {
      readStmts := readStmts + EmitRead(fs[k]);
      EmitReadsSnoc(fs[..k], fs[k]);
      assert fs[..k + 1] == fs[..k] + [fs[k]];
    }
    assert fs[..|fs|] == fs;
  }

  // ---- names

  function NameIndex(fs: seq<Field>, x: string): (k: nat)
    ensures k <= |fs|
    ensures k < |fs| ==> fs[k].name == x
    ensures k == |fs| ==> forall j :: 0 <= j < |fs| ==> fs[j].name != x
  {
    if fs == [] || fs[0].name == x then 0 else 1 + NameIndex(fs[1..], x)
  }

  predicate DistinctNames(fs: seq<Field>) {
    forall j, k :: 0 <= j < k < |fs| ==> fs[j].name != fs[k].name
  }

  lemma NameIndexUnique(fs: seq<Field>, k: nat)
    requires DistinctNames(fs) && k < |fs|
    ensures NameIndex(fs, fs[k].name) == k
  {
  }

  predicate MemberNamed(fs: seq<Field>, x: string) {
    NameIndex(fs, x) < |fs|
  }

  /** Every struct declares these two methods itself. */
  const METHOD_NAMES: set<string> := {"serializeTo", "deserializeFromReader"}

  /** The names that every struct inherits from its base class. */
  const BASE_NAMES: set<string> := {"SerializableObject", "serialize", "deserialize", "serializeTo", "deserializeFromReader"}

  /** A struct of such a name hides a namespace that its own code needs, or has a method of its own name, or
      its header has the file name of one that is always generated. */
  const RESERVED_TYPES: set<string> :=
    {"std", "someip_generated", "serializeTo", "deserializeFromReader", "someip_codec_support", "generated_someip_params"}

  /** In the scope of struct t the name of the element type means that type: it is no member's name, and not
      one that the base class brings in, unless it is the struct's own. */
  predicate NamesType(t: string, fs: seq<Field>, e: Elem) {
    e.ECustom? ==> !MemberNamed(fs, e.t) && (e.t == t || e.t !in BASE_NAMES)
  }

  /** The declarations of the struct compile. */
  predicate StructOk(t: string, fs: seq<Field>) {
    && DistinctNames(fs)
    && t !in RESERVED_TYPES
    && forall k :: 0 <= k < |fs| ==> fs[k].name !in METHOD_NAMES && NamesType(t, fs, fs[k].kind.e)
  }

  /** An inherited function can be called on an object of struct t: no member and no class name hides it. */
  predicate Callable(t: string, fs: seq<Field>, f: string) {
    t != f && !MemberNamed(fs, f)
  }

  // ---- running serializeTo
  //
  // `Stuck` is code that does not compile or has no defined meaning; `Overflow` is running out of call depth.

  datatype WriteOutcome = Wrote(out: seq<byte>) | WroteFalse(out: seq<byte>) | WriteStuck | WriteOverflow

  datatype Operand = Operand(kind: Kind, val: Value) | NoOperand

  function Lookup(fs: seq<Field>, obj: seq<Value>, elem: Operand, x: string): Operand {
    if x == "elem" && elem.Operand? then elem
    else if x == "bytes" || x == "writer" then NoOperand
    else
      var k := NameIndex(fs, x);
      if k < |fs| && k < |obj| then Operand(fs[k].kind, obj[k]) else NoOperand
  }

  /** x.size() of a string or an array. */
  function SizeOf(o: Operand): Option<nat> {
    if o.Operand? && o.kind.One? && o.kind.e.EStr? && o.val.VStr? then Some(|o.val.s|)
    else if o.Operand? && o.kind.Many? && o.val.VArr? then Some(|o.val.vs|)
    else None
  }

  predicate HoldsPrim(o: Operand, p: Prim) {
    o.Operand? && o.kind.One? && o.kind.e == EPrim(p) && PrimTyped(p, o.val)
  }

  predicate Integral(p: Prim) {
    !p.Bool? && !p.F32? && !p.F64?
  }

  function WritePrim(o: Operand, p: Prim, out: seq<byte>): WriteOutcome {
    if HoldsPrim(o, p) then Wrote(out + EncPrim(p, o.val)) else WriteStuck
  }

  function RunSerialize(s: TypeTable, t: string, obj: seq<Value>, out: seq<byte>, fuel: nat): WriteOutcome
    decreases fuel, 1
  {
    if t !in s || !StructOk(t, s[t]) then WriteStuck
    else ExecWrite(s, s[t], obj, NoOperand, EmitWrites(s[t]), out, fuel)
  }

  function ExecWrite(s: TypeTable, fs: seq<Field>, obj: seq<Value>, elem: Operand, stmts: seq<WriteStmt>, out: seq<byte>, fuel: nat): WriteOutcome
    decreases fuel, 0, stmts, 0
  {
    if stmts == [] then Wrote(out)
    else
      var o := Lookup(fs, obj, elem, stmts[0].x);
      var first :=
        match stmts[0]
        case GuardSize(_, lt) =>
          var n := SizeOf(o);
          if n.None? then WriteStuck else if n.value > MaxLen(lt) then WroteFalse(out) else Wrote(out)
        case WriteSize(_, lt) =>
          var n := SizeOf(o);
          if n.None? then WriteStuck else Wrote(out + BE(LenWidth(lt), n.value))
        case InsertBytes(_) =>
          if o.Operand? && o.kind.One? && o.kind.e.EStr? && o.val.VStr? then Wrote(out + o.val.s) else WriteStuck
        case WriteIntegral(p, _) => if Integral(p) then WritePrim(o, p, out) else WriteStuck
        case WriteFloat32(_) => WritePrim(o, F32, out)
        case WriteFloat64(_) => WritePrim(o, F64, out)
        case WriteBool(_) => WritePrim(o, Bool, out)
        case CallSerialize(_) =>
          if !(o.Operand? && o.kind.One? && o.kind.e.ECustom? && o.val.VObj?) then WriteStuck
          else if fuel == 0 then WriteOverflow
          else RunSerialize(s, o.kind.e.t, o.val.ms, out, fuel - 1)
        case ForEach(_, body) =>
          if o.Operand? && o.kind.Many? && o.val.VArr?
          then ExecEach(s, fs, obj, o.kind, o.val.vs, body, out, fuel)
          else WriteStuck;
      if first.Wrote? then ExecWrite(s, fs, obj, elem, stmts[1..], first.out, fuel) else first
  }

  function ExecEach(s: TypeTable, fs: seq<Field>, obj: seq<Value>, kind: Kind, vs: seq<Value>, body: seq<WriteStmt>, out: seq<byte>, fuel: nat): WriteOutcome
    decreases fuel, 0, body, 1 + |vs|
  {
    if vs == [] then Wrote(out)
    else
      var first := ExecWrite(s, fs, obj, Operand(One(kind.e, kind.lt), vs[0]), body, out, fuel);
      if first.Wrote? then ExecEach(s, fs, obj, kind, vs[1..], body, first.out, fuel) else first
  }

  // ---- running deserializeFromReader

  datatype Local = Local(ty: Elem, val: Value)

  /** Members, function-scope locals, loop-body locals while inside a loop, and the reader's position. */
  datatype Frame = Frame(obj: seq<Value>, outer: map<string, Local>, inner: Option<map<string, Local>>, pos: nat)

  datatype Outcome = Next(fr: Frame) | ReturnFalse(obj: seq<Value>, pos: nat) | Stuck | Overflow

  datatype Place = Inner | Outer | Member(k: nat) | Nowhere

  function Find(fs: seq<Field>, fr: Frame, x: string): (p: Place)
    ensures p.Member? ==> p.k < |fs| && p.k < |fr.obj| && fs[p.k].name == x
  {
    if fr.inner.Some? && x in fr.inner.value then Inner
    else if x in fr.outer then Outer
    else if x == "reader" then Nowhere
    else
      var k := NameIndex(fs, x);
      if k < |fs| && k < |fr.obj| then Member(k) else Nowhere
  }

  /** Type and value of a name. */
  function Load(fs: seq<Field>, fr: Frame, x: string): Operand {
    match Find(fs, fr, x)
    case Inner => Operand(One(fr.inner.value[x].ty, L32), fr.inner.value[x].val)
    case Outer => Operand(One(fr.outer[x].ty, L32), fr.outer[x].val)
    case Member(k) => Operand(fs[k].kind, fr.obj[k])
    case Nowhere => NoOperand
  }

  function Store(fs: seq<Field>, fr: Frame, x: string, v: Value): Frame {
    match Find(fs, fr, x)
    case Inner => fr.(inner := Some(fr.inner.value[x := Local(fr.inner.value[x].ty, v)]))
    case Outer => fr.(outer := fr.outer[x := Local(fr.outer[x].ty, v)])
    case Member(k) => fr.(obj := fr.obj[k := v])
    case Nowhere => fr
  }

  function Declare(fr: Frame, x: string, ty: Elem, v: Value): Outcome {
    if fr.inner.Some? then
      if x in fr.inner.value then Stuck else Next(fr.(inner := Some(fr.inner.value[x := Local(ty, v)])))
    else
      if x in fr.outer then Stuck else Next(fr.(outer := fr.outer[x := Local(ty, v)]))
  }

  /** The name of the element type is not hidden by the parameter or by a local. Members are another
      matter: see `StructOk`. */
  predicate TypeVisible(fr: Frame, e: Elem) {
    e.ECustom? ==> e.t != "reader" && e.t !in fr.outer && (fr.inner.Some? ==> e.t !in fr.inner.value)
  }

  /** Some object of the type. Members of a fresh C++ object are indeterminate; no result depends on them. */
  function Default(s: TypeTable, e: Elem): Value
    requires Valid(s) && ElemClosed(s, e)
    decreases ElemRank(s, e), 0
  {
    match e
    case EPrim(p) => if p.Bool? then VBool(false) else VInt(0)
    case EStr => VStr([])
    case ECustom(t) =>
      FieldsOfTypeBelow(s, t);
      VObj(DefaultFields(s, s[t], Rank(s, t)))
  }

  function DefaultFields(s: TypeTable, fs: seq<Field>, ghost r: nat): (ms: seq<Value>)
    requires Valid(s) && AllBelow(s, fs, r)
    ensures |ms| == |fs|
    decreases r, 1 + |fs|
  {
    if fs == [] then []
    else
      assert Below(s, fs[0].kind, r);
      [if fs[0].kind.Many? then VArr([]) else Default(s, fs[0].kind.e)] + DefaultFields(s, fs[1..], r)
  }

  function HasElem(o: Operand, e: Elem): bool {
    o.Operand? && o.kind.One? && o.kind.e == e
  }

  function ReadPrim(fs: seq<Field>, fr: Frame, p: Prim, x: string, bs: seq<byte>): Outcome {
    if !HasElem(Load(fs, fr, x), EPrim(p)) then Stuck
    else
      var d := DecPrim(p, bs, fr.pos);
      if d.Got? then Next(Store(fs, fr, x, d.v).(pos := d.pos)) else ReturnFalse(fr.obj, fr.pos)
  }

  /** `from != 0` of an integer variable. */
  function NonZero(o: Operand): Option<bool> {
    if o.Operand? && o.kind.One? && o.kind.e.EPrim? && o.val.VInt? then Some(o.val.i != 0) else None
  }

  function Push(fs: seq<Field>, fr: Frame, x: string, e: Elem, v: Value): Outcome {
    var o := Load(fs, fr, x);
    if o.Operand? && o.kind.Many? && o.kind.e == e && o.val.VArr?
    then Next(Store(fs, fr, x, VArr(o.val.vs + [v])))
    else Stuck
  }

  function ReadString(fs: seq<Field>, fr: Frame, n: Operand, x: string, bs: seq<byte>): Outcome {
    if !(HasElem(Load(fs, fr, x), EStr) && n.Operand? && n.val.VInt? && n.val.i >= 0) then Stuck
    else if fr.pos + n.val.i > |bs| then ReturnFalse(fr.obj, fr.pos)
    else Next(Store(fs, fr, x, VStr(bs[fr.pos..fr.pos + n.val.i])).(pos := fr.pos + n.val.i))
  }

  /** Assigning a bool to a bool member, or (converted) to an integer local. */
  function AssignBool(fs: seq<Field>, fr: Frame, x: string, b: Option<bool>): Outcome {
    var o := Load(fs, fr, x);
    if b.None? then Stuck
    else if HasElem(o, EPrim(Bool)) then Next(Store(fs, fr, x, VBool(b.value)))
    else if o.Operand? && o.kind.One? && o.kind.e.EPrim? then Next(Store(fs, fr, x, VInt(if b.value then 1 else 0)))
    else Stuck
  }

  /** Back from a nested call: the nested object keeps what was assigned, also when the call failed. */
  function Returned(fs: seq<Field>, fr: Frame, x: string, r: Outcome): Outcome {
    if r.Next? then Next(Store(fs, fr, x, VObj(r.fr.obj)).(pos := r.fr.pos))
    else if r.ReturnFalse? then ReturnFalse(Store(fs, fr, x, VObj(r.obj)).obj, r.pos)
    else r
  }

  function RunDeserialize(s: TypeTable, t: string, obj: seq<Value>, bs: seq<byte>, pos: nat, fuel: nat): Outcome
    requires Valid(s)
    decreases fuel, 1
  {
    if t !in s || !StructOk(t, s[t]) then Stuck
    else ExecRead(s, s[t], EmitReads(s[t]), Frame(obj, map[], None, pos), bs, fuel)
  }

  function ExecRead(s: TypeTable, fs: seq<Field>, stmts: seq<ReadStmt>, fr: Frame, bs: seq<byte>, fuel: nat): Outcome
    requires Valid(s)
    decreases fuel, 0, stmts, 0
  {
    if stmts == [] then Next(fr)
    else
      var first := ExecStmt(s, fs, stmts[0], fr, bs, fuel);
      if first.Next? then ExecRead(s, fs, stmts[1..], first.fr, bs, fuel) else first
  }

  function ExecStmt(s: TypeTable, fs: seq<Field>, stmt: ReadStmt, fr: Frame, bs: seq<byte>, fuel: nat): Outcome
    requires Valid(s)
    decreases fuel, 0, stmt, 0
  {
    match stmt
    case DeclInt(p, x) => Declare(fr, x, EPrim(p), VInt(0))
    case DeclTemp(e, x) =>
      if ElemClosed(s, e) && TypeVisible(fr, e) then Declare(fr, x, e, Default(s, e)) else Stuck
    case ReadIntegral(p, x) => if Integral(p) then ReadPrim(fs, fr, p, x, bs) else Stuck
    case ReadFloat32(x) => ReadPrim(fs, fr, F32, x, bs)
    case ReadFloat64(x) => ReadPrim(fs, fr, F64, x, bs)
    case ReadBytes(len, x) => ReadString(fs, fr, Load(fs, fr, len), x, bs)
    case AssignNonZero(x, from) => AssignBool(fs, fr, x, NonZero(Load(fs, fr, from)))
    case CallDeserialize(x) =>
      var o := Load(fs, fr, x);
      if !(o.Operand? && o.kind.One? && o.kind.e.ECustom? && o.val.VObj?) then Stuck
      else if fuel == 0 then Overflow
      else Returned(fs, fr, x, RunDeserialize(s, o.kind.e.t, o.val.ms, bs, fr.pos, fuel - 1))
    case Clear(x) =>
      var o := Load(fs, fr, x);
      if o.Operand? && o.kind.Many? then Next(Store(fs, fr, x, VArr([]))) else Stuck
    case PushBack(x, from) =>
      var o := Load(fs, fr, from);
      if o.Operand? && o.kind.One? then Push(fs, fr, x, o.kind.e, o.val) else Stuck
    case PushNonZero(x, from) =>
      var b := NonZero(Load(fs, fr, from));
      if b.Some? then Push(fs, fr, x, EPrim(Bool), VBool(b.value)) else Stuck
    case ForCount(p, len, body) =>
      var n := Load(fs, fr, len);
      if fr.inner.None? && HasElem(n, EPrim(p)) && n.val.VInt?
      then ExecCount(s, fs, p, 0, n.val.i, body, fr, bs, fuel)
      else Stuck
  }

  /** The counting loop; the body never assigns the loop bound. */
  function ExecCount(s: TypeTable, fs: seq<Field>, p: Prim, i: int, n: int, body: seq<ReadStmt>, fr: Frame, bs: seq<byte>, fuel: nat): Outcome
    requires Valid(s)
    decreases fuel, 0, body, 1 + if i < n then n - i else 0
  {
    if i >= n then Next(fr)
    else
      var r := ExecRead(s, fs, body, fr.(inner := Some(map["i" := Local(EPrim(p), VInt(i))])), bs, fuel);
      if r.Next? then ExecCount(s, fs, p, i + 1, n, body, r.fr.(inner := None), bs, fuel) else r
  }

  // ---- whole messages, by the functions inherited from SerializableObject
  //
  // None is a call that does not compile or has no defined meaning, or that runs out of call depth.

  function SerializeCall(s: TypeTable, t: string, obj: seq<Value>, fuel: nat): Option<seq<byte>> {
    if t !in s || !Callable(t, s[t], "serialize") then None
    else
      match RunSerialize(s, t, obj, [], fuel)
      case Wrote(out) => Some(out)
      case WroteFalse(_) => Some([])
      case _ => None
  }

  /** The verdict, and the object afterwards. */
  function DeserializeCall(s: TypeTable, t: string, obj: seq<Value>, bs: seq<byte>, fuel: nat): Option<(bool, seq<Value>)>
    requires Valid(s)
  {
    if t !in s || !Callable(t, s[t], "deserialize") then None
    else
      match RunDeserialize(s, t, obj, bs, 0, fuel)
      case Next(fr) => Some((fr.pos == |bs|, fr.obj))
      case ReturnFalse(obj', _) => Some((false, obj'))
      case _ => None
  }
}
