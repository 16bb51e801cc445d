/** The emitted deserializeFromReader computes the reference decoder when field names are hygienic. */
module GeneratedReader {
  import opened Bytes
  import opened Schema
  import opened Codec
  import opened GeneratedCode

  // ---- hygiene: what the generator's own names require of the field names

  /** The function-scope local that reading a field declares. */
  function LocalOf(f: Field): set<string> {
    match f.kind
    case One(EStr, _) => {f.name + "StrLen"}
    case One(EPrim(Bool), _) => {"b"}
    case One(_, _) => {}
    case Many(_, _) => {f.name + "Len"}
  }

  function LocalNames(fs: seq<Field>, k: nat): set<string>
    requires k <= |fs|
  {
    if k == 0 then {} else LocalNames(fs, k - 1) + LocalOf(fs[k - 1])
  }

  /** Fixed names of the loop that reads an array. */
  function LoopNames(kind: Kind): set<string> {
    if kind.One? then {} else if kind.e == EPrim(Bool) then {"i", "b"} else {"i", "temp"}
  }

  predicate ReadHygienic(fs: seq<Field>, k: nat)
    requires k < |fs|
  {
    && fs[k].name != "reader"
    && LocalOf(fs[k]) !! LocalNames(fs, k)
    && fs[k].name !in LocalNames(fs, k + 1)
    && fs[k].name !in LoopNames(fs[k].kind)
    && TempDeclarable(fs[k].kind, LocalNames(fs, k + 1))
  }

  /** In the loop that reads an array of a declared type, that type's name is not hidden by a local, the
      parameter or the loop counter. */
  predicate TempDeclarable(kind: Kind, locals: set<string>) {
    kind.Many? && kind.e.ECustom? ==> kind.e.t !in locals && kind.e.t != "reader" && kind.e.t != "i"
  }

  // ---- agreement with the reference decoder

  ghost predicate RunMatches(s: TypeTable, t: string, obj: seq<Value>, bs: seq<byte>, pos: nat, fuel: nat)
    requires Valid(s) && t in s && pos <= |bs|
  {
    Agrees(obj, pos, |bs|, RunDeserialize(s, t, obj, bs, pos, fuel), Dec(s, ECustom(t), L32, bs, pos))
  }

  /** Same verdict; on success the decoded object and position; with no input left, the object is untouched. */
  ghost predicate Agrees(obj: seq<Value>, pos: nat, end: nat, out: Outcome, d: Read<Value>) {
    if d.Got? then out.Next? && VObj(out.fr.obj) == d.v && out.fr.pos == d.pos
    else out.ReturnFalse? && (pos == end ==> out == ReturnFalse(obj, pos))
  }

  /** Call depth that always suffices: between two consumed bytes at most one call per type. */
  ghost function Depth(s: TypeTable, t: string, rest: nat): nat
    requires Valid(s)
  {
    rest * |Order(s)| + Rank(s, t)
  }

  ghost predicate NestedOk(s: TypeTable, bs: seq<byte>, fuel: nat)
    requires Valid(s)
  {
    forall t, obj, pos: nat ::
      t in s && pos <= |bs| && Typed(s, ECustom(t), VObj(obj)) && Depth(s, t, |bs| - pos) <= fuel ==>
        RunMatches(s, t, obj, bs, pos, fuel)
  }

  /** The statements of field k did what DecKind does, and left everything else alone. */
  ghost predicate Stepped(fs: seq<Field>, k: nat, fr: Frame, out: Outcome, d: Read<Value>, end: nat)
    requires k < |fs| == |fr.obj|
  {
    if d.Got? then
      && out.Next?
      && out.fr.obj == fr.obj[k := d.v]
      && out.fr.pos == d.pos
      && out.fr.inner.None?
      && out.fr.outer.Keys == fr.outer.Keys + LocalOf(fs[k])
      && (IntLocals(fr.outer) ==> IntLocals(out.fr.outer))
    else out.ReturnFalse? && (fr.pos == end ==> out == ReturnFalse(fr.obj, fr.pos))
  }

  /** Name k of the frame means member k, and stays so. */
  ghost predicate Ready(fs: seq<Field>, k: nat, fr: Frame) {
    && k < |fs| == |fr.obj|
    && DistinctNames(fs)
    && fr.inner.None?
    && fs[k].name != "reader"
    && fs[k].name !in fr.outer
    && fs[k].name !in LocalOf(fs[k])
    && LocalOf(fs[k]) !! fr.outer.Keys
  }

  /** Locals of function scope are unsigned lengths or the byte of a bool. */
  ghost predicate IntLocals(m: map<string, Local>) {
    forall x :: x in m ==> m[x].ty.EPrim? && Integral(m[x].ty.p)
  }

  // ---- short statement lists

  lemma Exec1(s: TypeTable, fs: seq<Field>, a: ReadStmt, fr: Frame, bs: seq<byte>, fuel: nat)
    requires Valid(s)
    ensures ExecRead(s, fs, [a], fr, bs, fuel) == ExecStmt(s, fs, a, fr, bs, fuel)
  {
    var r := ExecStmt(s, fs, a, fr, bs, fuel);
    assert [a][1..] == [];
    if r.Next? {
      assert ExecRead(s, fs, [], r.fr, bs, fuel) == r;
    }
  }

  lemma ExecCons(s: TypeTable, fs: seq<Field>, a: ReadStmt, rest: seq<ReadStmt>, fr: Frame, bs: seq<byte>, fuel: nat)
    requires Valid(s)
    ensures var r := ExecStmt(s, fs, a, fr, bs, fuel);
            ExecRead(s, fs, [a] + rest, fr, bs, fuel) == if r.Next? then ExecRead(s, fs, rest, r.fr, bs, fuel) else r
  {
    assert ([a] + rest)[1..] == rest;
  }

  lemma {:induction false} ExecJoin(s: TypeTable, fs: seq<Field>, a: seq<ReadStmt>, b: seq<ReadStmt>, fr: Frame, bs: seq<byte>, fuel: nat)
    requires Valid(s)
    ensures var r := ExecRead(s, fs, a, fr, bs, fuel);
            ExecRead(s, fs, a + b, fr, bs, fuel) == if r.Next? then ExecRead(s, fs, b, r.fr, bs, fuel) else r
    decreases |a|
  {
    if a == [] {
      assert a + b == b;
    } else {
      var first := ExecStmt(s, fs, a[0], fr, bs, fuel);
      assert (a + b)[1..] == a[1..] + b;
      if first.Next? {
        ExecJoin(s, fs, a[1..], b, first.fr, bs, fuel);
      }
    }
  }

  /** Declaring an integer local of function scope and reading it. */
  lemma DeclRead(s: TypeTable, fs: seq<Field>, p: Prim, x: string, rest: seq<ReadStmt>, fr: Frame, bs: seq<byte>, fuel: nat)
    requires Valid(s) && Integral(p) && fr.inner.None?
    ensures var d := DecPrim(p, bs, fr.pos);
            ExecRead(s, fs, [DeclInt(p, x)] + ([ReadIntegral(p, x)] + rest), fr, bs, fuel) ==
            if x in fr.outer then Stuck
            else if d.Fail? then ReturnFalse(fr.obj, fr.pos)
            else ExecRead(s, fs, rest, fr.(outer := fr.outer[x := Local(EPrim(p), d.v)], pos := d.pos), bs, fuel)
  {
    ExecCons(s, fs, DeclInt(p, x), [ReadIntegral(p, x)] + rest, fr, bs, fuel);
    if x !in fr.outer {
      var fr1 := fr.(outer := fr.outer[x := Local(EPrim(p), VInt(0))]);
      assert ExecStmt(s, fs, DeclInt(p, x), fr, bs, fuel) == Next(fr1);
      ExecCons(s, fs, ReadIntegral(p, x), rest, fr1, bs, fuel);
      assert ExecStmt(s, fs, ReadIntegral(p, x), fr1, bs, fuel) == ReadPrim(fs, fr1, p, x, bs);
      assert forall v :: fr1.outer[x := Local(EPrim(p), v)] == fr.outer[x := Local(EPrim(p), v)];
    }
  }

  /** The same inside a loop body. */
  lemma DeclReadInner(s: TypeTable, fs: seq<Field>, p: Prim, x: string, rest: seq<ReadStmt>, fr: Frame, bs: seq<byte>, fuel: nat)
    requires Valid(s) && Integral(p) && fr.inner.Some? && x !in fr.inner.value
    ensures var d := DecPrim(p, bs, fr.pos);
            ExecRead(s, fs, [DeclInt(p, x)] + ([ReadIntegral(p, x)] + rest), fr, bs, fuel) ==
            if d.Fail? then ReturnFalse(fr.obj, fr.pos)
            else ExecRead(s, fs, rest, fr.(inner := Some(fr.inner.value[x := Local(EPrim(p), d.v)]), pos := d.pos), bs, fuel)
  {
    ExecCons(s, fs, DeclInt(p, x), [ReadIntegral(p, x)] + rest, fr, bs, fuel);
    var fr1 := fr.(inner := Some(fr.inner.value[x := Local(EPrim(p), VInt(0))]));
    assert ExecStmt(s, fs, DeclInt(p, x), fr, bs, fuel) == Next(fr1);
    ExecCons(s, fs, ReadIntegral(p, x), rest, fr1, bs, fuel);
    assert ExecStmt(s, fs, ReadIntegral(p, x), fr1, bs, fuel) == ReadPrim(fs, fr1, p, x, bs);
    assert forall v :: fr1.inner.value[x := Local(EPrim(p), v)] == fr.inner.value[x := Local(EPrim(p), v)];
  }

  // ---- one element

  lemma LenRead(lt: LenType, bs: seq<byte>, pos: nat)
    ensures var d, n := DecPrim(LenPrim(lt), bs, pos), DecLen(lt, bs, pos);
            if n.Got? then d == Got(VInt(n.v), n.pos) else d.Fail?
  {
  }

  lemma FromOneByte(raw: seq<byte>)
    requires |raw| == 1
    ensures FromBE(raw) == raw[0]
  {
    assert raw[..0] == [];
  }

  lemma BoolRead(bs: seq<byte>, pos: nat)
    ensures var d, n := DecPrim(Bool, bs, pos), DecPrim(U8, bs, pos);
            if n.Got? then n.v.VInt? && d == Got(VBool(n.v.i != 0), n.pos) else d.Fail?
  {
    if pos + 1 <= |bs| {
      FromOneByte(bs[pos..pos + 1]);
    }
  }

  lemma StepString(s: TypeTable, fs: seq<Field>, k: nat, fr: Frame, bs: seq<byte>, fuel: nat, lt: LenType)
    requires Valid(s) && Ready(fs, k, fr) && fs[k].kind == One(EStr, lt)
    ensures Stepped(fs, k, fr, ExecRead(s, fs, EmitRead(fs[k]), fr, bs, fuel), DecStr(lt, bs, fr.pos), |bs|)
  {
    var x, len, p := fs[k].name, fs[k].name + "StrLen", LenPrim(lt);
    NameIndexUnique(fs, k);
    LenRead(lt, bs, fr.pos);
    var c := ReadBytes(len, x);
    assert EmitRead(fs[k]) == [DeclInt(p, len)] + ([ReadIntegral(p, len)] + [c]);
    DeclRead(s, fs, p, len, [c], fr, bs, fuel);
    var n := DecLen(lt, bs, fr.pos);
    if n.Got? {
      Exec1(s, fs, c, fr.(outer := fr.outer[len := Local(EPrim(p), VInt(n.v))], pos := n.pos), bs, fuel);
    }
  }

  lemma StepBool(s: TypeTable, fs: seq<Field>, k: nat, fr: Frame, bs: seq<byte>, fuel: nat, lt: LenType)
    requires Valid(s) && Ready(fs, k, fr) && fs[k].kind == One(EPrim(Bool), lt)
    ensures Stepped(fs, k, fr, ExecRead(s, fs, EmitRead(fs[k]), fr, bs, fuel), DecPrim(Bool, bs, fr.pos), |bs|)
  {
    var x := fs[k].name;
    NameIndexUnique(fs, k);
    BoolRead(bs, fr.pos);
    var c := AssignNonZero(x, "b");
    assert EmitRead(fs[k]) == [DeclInt(U8, "b")] + ([ReadIntegral(U8, "b")] + [c]);
    DeclRead(s, fs, U8, "b", [c], fr, bs, fuel);
    var d := DecPrim(U8, bs, fr.pos);
    if d.Got? {
      Exec1(s, fs, c, fr.(outer := fr.outer["b" := Local(EPrim(U8), d.v)], pos := d.pos), bs, fuel);
    }
  }

  lemma StepPrim(s: TypeTable, fs: seq<Field>, k: nat, fr: Frame, bs: seq<byte>, fuel: nat, p: Prim, lt: LenType)
    requires Valid(s) && Ready(fs, k, fr) && fs[k].kind == One(EPrim(p), lt) && !p.Bool?
    ensures Stepped(fs, k, fr, ExecRead(s, fs, EmitRead(fs[k]), fr, bs, fuel), DecPrim(p, bs, fr.pos), |bs|)
  {
    NameIndexUnique(fs, k);
    Exec1(s, fs, EmitRead(fs[k])[0], fr, bs, fuel);
  }

  /** Fuel left for reading a member contained by value. */
  ghost predicate Enough(s: TypeTable, r: nat, rest: nat, fuel: nat)
    requires Valid(s)
  {
    rest * |Order(s)| + r <= fuel
  }

  lemma StepCustom(s: TypeTable, fs: seq<Field>, k: nat, r: nat, fr: Frame, bs: seq<byte>, fuel: nat, t: string, lt: LenType)
    requires Valid(s) && Ready(fs, k, fr) && fs[k].kind == One(ECustom(t), lt) && fr.pos <= |bs|
    requires Below(s, fs[k].kind, r) && Enough(s, r, |bs| - fr.pos, fuel) && (fuel > 0 ==> NestedOk(s, bs, fuel - 1))
    requires Typed(s, ECustom(t), fr.obj[k])
    ensures Stepped(fs, k, fr, ExecRead(s, fs, EmitRead(fs[k]), fr, bs, fuel), Dec(s, ECustom(t), lt, bs, fr.pos), |bs|)
  {
    var rest := |bs| - fr.pos;
    assert ElemRank(s, ECustom(t)) == 1 + Rank(s, t) <= r;
    assert Depth(s, t, rest) <= fuel - 1;
    var ms := fr.obj[k].ms;
    var out := RunDeserialize(s, t, ms, bs, fr.pos, fuel - 1);
    assert Agrees(ms, fr.pos, |bs|, out, Dec(s, ECustom(t), L32, bs, fr.pos)) by {
      assert RunMatches(s, t, ms, bs, fr.pos, fuel - 1);
    }
    CallReturns(s, fs, k, fr, bs, fuel, t, lt);
  }

  lemma CallReturns(s: TypeTable, fs: seq<Field>, k: nat, fr: Frame, bs: seq<byte>, fuel: nat, t: string, lt: LenType)
    requires Valid(s) && Ready(fs, k, fr) && fs[k].kind == One(ECustom(t), lt) && fr.obj[k].VObj? && fuel > 0
    ensures ExecRead(s, fs, EmitRead(fs[k]), fr, bs, fuel) ==
            Returned(fs, fr, fs[k].name, RunDeserialize(s, t, fr.obj[k].ms, bs, fr.pos, fuel - 1))
    ensures Find(fs, fr, fs[k].name) == Member(k)
  {
    NameIndexUnique(fs, k);
    Exec1(s, fs, CallDeserialize(fs[k].name), fr, bs, fuel);
  }

  /** Field k, whatever its kind but an array. */
  lemma StepOne(s: TypeTable, fs: seq<Field>, k: nat, r: nat, fr: Frame, bs: seq<byte>, fuel: nat)
    requires Valid(s) && Ready(fs, k, fr) && fs[k].kind.One? && fr.pos <= |bs|
    requires Below(s, fs[k].kind, r) && Enough(s, r, |bs| - fr.pos, fuel) && (fuel > 0 ==> NestedOk(s, bs, fuel - 1))
    requires TypedKind(s, fs[k].kind, fr.obj[k])
    ensures Stepped(fs, k, fr, ExecRead(s, fs, EmitRead(fs[k]), fr, bs, fuel), DecKind(s, fs[k].kind, r, bs, fr.pos), |bs|)
  {
    var One(e, lt) := fs[k].kind;
    assert DecKind(s, fs[k].kind, r, bs, fr.pos) == Dec(s, e, lt, bs, fr.pos);
    match e
    case EStr =>
      assert Dec(s, e, lt, bs, fr.pos) == DecStr(lt, bs, fr.pos);
      StepString(s, fs, k, fr, bs, fuel, lt);
    case ECustom(t) => StepCustom(s, fs, k, r, fr, bs, fuel, t, lt);
    case EPrim(p) =>
      assert Dec(s, e, lt, bs, fr.pos) == DecPrim(p, bs, fr.pos);
      if p.Bool? {
        StepBool(s, fs, k, fr, bs, fuel, lt);
      } else {
        StepPrim(s, fs, k, fr, bs, fuel, p, lt);
      }
  }

  // ---- arrays

  /** Inside the loop over field k, with the array read so far in the member. */
  ghost predicate InLoop(fs: seq<Field>, k: nat, fr: Frame, acc: seq<Value>) {
    && k < |fs| == |fr.obj|
    && DistinctNames(fs)
    && fs[k].kind.Many?
    && fr.inner.None?
    && fs[k].name != "reader"
    && fs[k].name !in fr.outer
    && fs[k].name !in LoopNames(fs[k].kind)
    && TempDeclarable(fs[k].kind, fr.outer.Keys)
    && fr.obj[k] == VArr(acc)
  }

  ghost predicate Pushed(k: nat, fr: Frame, acc: seq<Value>, out: Outcome, d: Read<Value>)
    requires k < |fr.obj|
  {
    if d.Got? then
      && out.Next?
      && out.fr.obj == fr.obj[k := VArr(acc + [d.v])]
      && out.fr.pos == d.pos
      && out.fr.outer == fr.outer
    else out.ReturnFalse?
  }

  function Entered(fr: Frame, p: Prim, i: int): Frame {
    fr.(inner := Some(map["i" := Local(EPrim(p), VInt(i))]))
  }

  lemma BodyString(s: TypeTable, fs: seq<Field>, k: nat, p: Prim, i: int, fr: Frame, acc: seq<Value>, bs: seq<byte>, fuel: nat)
    requires Valid(s) && InLoop(fs, k, fr, acc) && fs[k].kind.e.EStr?
    ensures var Many(e, lt) := fs[k].kind;
            Pushed(k, fr, acc, ExecRead(s, fs, EmitReadElem(e, lt, fs[k].name), Entered(fr, p, i), bs, fuel), DecStr(lt, bs, fr.pos))
  {
    var Many(e, lt) := fs[k].kind;
    var x, len, lp := fs[k].name, fs[k].name + "ElemStrLen", LenPrim(lt);
    NameIndexUnique(fs, k);
    LenRead(lt, bs, fr.pos);
    var fr0 := Entered(fr, p, i);
    assert len != x && len != "i" && len != "temp" by { assert |len| > |x| && |len| >= 10; }
    var c, d, push := DeclTemp(EStr, "temp"), ReadBytes(len, "temp"), PushBack(x, "temp");
    assert EmitReadElem(e, lt, x) == [DeclInt(lp, len)] + ([ReadIntegral(lp, len)] + ([c] + ([d] + [push])));
    DeclReadInner(s, fs, lp, len, [c] + ([d] + [push]), fr0, bs, fuel);
    var n := DecLen(lt, bs, fr.pos);
    if n.Got? {
      var fr2 := fr0.(inner := Some(fr0.inner.value[len := Local(EPrim(lp), VInt(n.v))]), pos := n.pos);
      StringTail(s, fs, k, len, c, d, push, fr, fr2, acc, n.v, bs, fuel);
    }
  }

  lemma StringTail(s: TypeTable, fs: seq<Field>, k: nat, len: string, c: ReadStmt, d: ReadStmt, push: ReadStmt,
                   fr: Frame, fr2: Frame, acc: seq<Value>, n: nat, bs: seq<byte>, fuel: nat)
    requires Valid(s) && InLoop(fs, k, fr, acc) && fs[k].kind.e.EStr?
    requires c == DeclTemp(EStr, "temp") && d == ReadBytes(len, "temp") && push == PushBack(fs[k].name, "temp")
    requires fr2.obj == fr.obj && fr2.outer == fr.outer && fr2.inner.Some? && len != "temp" && len != fs[k].name
    requires fr2.inner.value.Keys == {"i", len} && fr2.inner.value[len].val == VInt(n)
    ensures var out := ExecRead(s, fs, [c] + ([d] + [push]), fr2, bs, fuel);
            if fr2.pos + n > |bs| then out.ReturnFalse?
            else out.Next? && out.fr.outer == fr.outer && out.fr.pos == fr2.pos + n
                 && out.fr.obj == fr.obj[k := VArr(acc + [VStr(bs[fr2.pos..fr2.pos + n])])]
  {
    NameIndexUnique(fs, k);
    ExecCons(s, fs, c, [d] + [push], fr2, bs, fuel);
    var fr3 := fr2.(inner := Some(fr2.inner.value["temp" := Local(EStr, VStr([]))]));
    assert ExecStmt(s, fs, c, fr2, bs, fuel) == Next(fr3);
    ExecCons(s, fs, d, [push], fr3, bs, fuel);
    var r4 := ExecStmt(s, fs, d, fr3, bs, fuel);
    if r4.Next? {
      Exec1(s, fs, push, r4.fr, bs, fuel);
    }
  }

  lemma BodyBool(s: TypeTable, fs: seq<Field>, k: nat, p: Prim, i: int, fr: Frame, acc: seq<Value>, bs: seq<byte>, fuel: nat)
    requires Valid(s) && InLoop(fs, k, fr, acc) && fs[k].kind.e == EPrim(Bool)
    ensures var Many(e, lt) := fs[k].kind;
            Pushed(k, fr, acc, ExecRead(s, fs, EmitReadElem(e, lt, fs[k].name), Entered(fr, p, i), bs, fuel), DecPrim(Bool, bs, fr.pos))
  {
    var Many(e, lt) := fs[k].kind;
    var x := fs[k].name;
    NameIndexUnique(fs, k);
    BoolRead(bs, fr.pos);
    var fr0 := Entered(fr, p, i);
    var c := PushNonZero(x, "b");
    assert EmitReadElem(e, lt, x) == [DeclInt(U8, "b")] + ([ReadIntegral(U8, "b")] + [c]);
    DeclReadInner(s, fs, U8, "b", [c], fr0, bs, fuel);
    var d := DecPrim(U8, bs, fr.pos);
    if d.Got? {
      Exec1(s, fs, c, fr0.(inner := Some(fr0.inner.value["b" := Local(EPrim(U8), d.v)]), pos := d.pos), bs, fuel);
    }
  }

  lemma BodyPrim(s: TypeTable, fs: seq<Field>, k: nat, p: Prim, i: int, fr: Frame, acc: seq<Value>, bs: seq<byte>, fuel: nat, q: Prim)
    requires Valid(s) && InLoop(fs, k, fr, acc) && fs[k].kind.e == EPrim(q) && !q.Bool?
    ensures var Many(e, lt) := fs[k].kind;
            Pushed(k, fr, acc, ExecRead(s, fs, EmitReadElem(e, lt, fs[k].name), Entered(fr, p, i), bs, fuel), DecPrim(q, bs, fr.pos))
  {
    var Many(e, lt) := fs[k].kind;
    var x := fs[k].name;
    var fr0 := Entered(fr, p, i);
    var body := EmitReadElem(e, lt, x);
    var a, b, c := body[0], body[1], PushBack(x, "temp");
    assert body == [a] + ([b] + [c]);
    ExecCons(s, fs, a, [b] + [c], fr0, bs, fuel);
    var fr1 := fr0.(inner := Some(fr0.inner.value["temp" := Local(e, VInt(0))]));
    assert ExecStmt(s, fs, a, fr0, bs, fuel) == Next(fr1);
    ExecCons(s, fs, b, [c], fr1, bs, fuel);
    var r2 := ExecStmt(s, fs, b, fr1, bs, fuel);
    assert r2 == ReadPrim(fs, fr1, q, "temp", bs);
    if r2.Next? {
      PushTemp(s, fs, k, fr, r2.fr, acc, bs, fuel);
    }
  }

  lemma PushTemp(s: TypeTable, fs: seq<Field>, k: nat, fr: Frame, fr2: Frame, acc: seq<Value>, bs: seq<byte>, fuel: nat)
    requires Valid(s) && InLoop(fs, k, fr, acc) && fr2.obj == fr.obj && fr2.outer == fr.outer
    requires fr2.inner.Some? && fr2.inner.value.Keys == {"i", "temp"} && fr2.inner.value["temp"].ty == fs[k].kind.e
    requires fs[k].kind.e != EPrim(Bool)
    ensures var v := fr2.inner.value["temp"].val;
            ExecRead(s, fs, [PushBack(fs[k].name, "temp")], fr2, bs, fuel) ==
            Next(fr2.(obj := fr.obj[k := VArr(acc + [v])]))
  {
    NameIndexUnique(fs, k);
    Exec1(s, fs, PushBack(fs[k].name, "temp"), fr2, bs, fuel);
  }

  lemma BodyCustom(s: TypeTable, fs: seq<Field>, k: nat, p: Prim, i: int, fr: Frame, acc: seq<Value>, bs: seq<byte>, fuel: nat, t: string)
    requires Valid(s) && InLoop(fs, k, fr, acc) && fs[k].kind.e == ECustom(t) && t in s && fr.pos <= |bs|
    requires Depth(s, t, |bs| - fr.pos) < fuel && NestedOk(s, bs, fuel - 1)
    ensures var Many(e, lt) := fs[k].kind;
            Pushed(k, fr, acc, ExecRead(s, fs, EmitReadElem(e, lt, fs[k].name), Entered(fr, p, i), bs, fuel), Dec(s, e, lt, bs, fr.pos))
  {
    var Many(e, lt) := fs[k].kind;
    DefaultTyped(s, e);
    var ms := Default(s, e).ms;
    var out := RunDeserialize(s, t, ms, bs, fr.pos, fuel - 1);
    assert Agrees(ms, fr.pos, |bs|, out, Dec(s, e, lt, bs, fr.pos)) by {
      assert RunMatches(s, t, ms, bs, fr.pos, fuel - 1);
    }
    CustomTail(s, fs, k, p, i, fr, acc, bs, fuel, t);
  }

  lemma CustomTail(s: TypeTable, fs: seq<Field>, k: nat, p: Prim, i: int, fr: Frame, acc: seq<Value>, bs: seq<byte>, fuel: nat, t: string)
    requires Valid(s) && InLoop(fs, k, fr, acc) && fs[k].kind.e == ECustom(t) && t in s && fuel > 0
    ensures Default(s, ECustom(t)).VObj?
    ensures var Many(e, lt) := fs[k].kind;
            var run := RunDeserialize(s, t, Default(s, e).ms, bs, fr.pos, fuel - 1);
            var out := ExecRead(s, fs, EmitReadElem(e, lt, fs[k].name), Entered(fr, p, i), bs, fuel);
            && (run.Next? ==> out.Next? && out.fr.obj == fr.obj[k := VArr(acc + [VObj(run.fr.obj)])]
                              && out.fr.pos == run.fr.pos && out.fr.outer == fr.outer)
            && (run.ReturnFalse? ==> out.ReturnFalse?)
            && (run.Stuck? ==> out.Stuck?)
  {
    var Many(e, lt) := fs[k].kind;
    var x := fs[k].name;
    NameIndexUnique(fs, k);
    var fr0 := Entered(fr, p, i);
    var a, b, c := DeclTemp(e, "temp"), CallDeserialize("temp"), PushBack(x, "temp");
    assert EmitReadElem(e, lt, x) == [a] + ([b] + [c]);
    ExecCons(s, fs, a, [b] + [c], fr0, bs, fuel);
    var fr1 := fr0.(inner := Some(fr0.inner.value["temp" := Local(e, Default(s, e))]));
    assert ExecStmt(s, fs, a, fr0, bs, fuel) == Next(fr1);
    var run := RunDeserialize(s, t, Default(s, e).ms, bs, fr.pos, fuel - 1);
    CallAndPush(s, fs, fr1, x, e, Default(s, e), bs, fuel);
    assert run.Next? ==> Push(fs, Store(fs, fr1, "temp", VObj(run.fr.obj)).(pos := run.fr.pos), x, e, VObj(run.fr.obj)).Next?;
  }

  /** Reading into the temporary and appending it. */
  lemma CallAndPush(s: TypeTable, fs: seq<Field>, fr: Frame, x: string, e: Elem, v: Value, bs: seq<byte>, fuel: nat)
    requires Valid(s) && e.ECustom? && v.VObj? && fuel > 0 && fr.inner.Some? && "temp" in fr.inner.value && fr.inner.value["temp"] == Local(e, v)
    ensures var run := RunDeserialize(s, e.t, v.ms, bs, fr.pos, fuel - 1);
            var r := Returned(fs, fr, "temp", run);
            ExecRead(s, fs, [CallDeserialize("temp")] + [PushBack(x, "temp")], fr, bs, fuel) ==
            if r.Next? then Push(fs, r.fr, x, e, VObj(run.fr.obj)) else r
  {
    var b, c := CallDeserialize("temp"), PushBack(x, "temp");
    ExecCons(s, fs, b, [c], fr, bs, fuel);
    var run := RunDeserialize(s, e.t, v.ms, bs, fr.pos, fuel - 1);
    var r := Returned(fs, fr, "temp", run);
    assert ExecStmt(s, fs, b, fr, bs, fuel) == r;
    if r.Next? {
      Exec1(s, fs, c, r.fr, bs, fuel);
    }
  }

  lemma {:induction false} DefaultTyped(s: TypeTable, e: Elem)
    requires Valid(s) && ElemClosed(s, e)
    ensures Typed(s, e, Default(s, e))
    decreases ElemRank(s, e), 0
  {
    if e.ECustom? {
      FieldsOfTypeBelow(s, e.t);
      DefaultFieldsTyped(s, s[e.t], Rank(s, e.t));
    }
  }

  lemma {:induction false} DefaultFieldsTyped(s: TypeTable, fs: seq<Field>, r: nat)
    requires Valid(s) && AllBelow(s, fs, r)
    ensures TypedFields(s, fs, DefaultFields(s, fs, r))
    decreases r, 1 + |fs|
  {
    if fs != [] {
      assert Below(s, fs[0].kind, r);
      if fs[0].kind.One? {
        DefaultTyped(s, fs[0].kind.e);
      }
      DefaultFieldsTyped(s, fs[1..], r);
      var ms := DefaultFields(s, fs, r);
      forall k | 0 <= k < |fs|
        ensures TypedKind(s, fs[k].kind, ms[k])
      {
        if k > 0 {
          assert TypedKind(s, fs[1..][k - 1].kind, ms[1..][k - 1]);
        }
      }
    }
  }

  /** Fuel left once a byte of the enclosing type has been consumed: enough for any type. */
  ghost predicate Plenty(s: TypeTable, e: Elem, rest: nat, fuel: nat)
    requires Valid(s)
  {
    e.ECustom? ==> (rest + 1) * |Order(s)| <= fuel
  }

  lemma RankBelowOrder(s: TypeTable, t: string)
    requires Valid(s) && t in s
    ensures Rank(s, t) < |Order(s)|
  {
  }

  lemma LoopStep(s: TypeTable, fs: seq<Field>, k: nat, p: Prim, i: int, fr: Frame, acc: seq<Value>, bs: seq<byte>, fuel: nat)
    requires Valid(s) && InLoop(fs, k, fr, acc) && ElemClosed(s, fs[k].kind.e) && fr.pos <= |bs|
    requires Plenty(s, fs[k].kind.e, |bs| - fr.pos, fuel) && (fuel > 0 ==> NestedOk(s, bs, fuel - 1))
    ensures var Many(e, lt) := fs[k].kind;
            Pushed(k, fr, acc, ExecRead(s, fs, EmitReadElem(e, lt, fs[k].name), Entered(fr, p, i), bs, fuel), Dec(s, e, lt, bs, fr.pos))
  {
    match fs[k].kind.e
    case EStr => BodyString(s, fs, k, p, i, fr, acc, bs, fuel);
    case EPrim(q) =>
      if q.Bool? {
        BodyBool(s, fs, k, p, i, fr, acc, bs, fuel);
      } else {
        BodyPrim(s, fs, k, p, i, fr, acc, bs, fuel, q);
      }
    case ECustom(t) =>
      RankBelowOrder(s, t);
      var rest := |bs| - fr.pos;
      assert (rest + 1) * |Order(s)| == rest * |Order(s)| + |Order(s)|;
      BodyCustom(s, fs, k, p, i, fr, acc, bs, fuel, t);
  }

  /** The counting loop reads what DecAll reads. */
  lemma {:induction false} LoopAll(s: TypeTable, fs: seq<Field>, k: nat, p: Prim, i: nat, n: nat, fr: Frame, acc: seq<Value>, bs: seq<byte>, fuel: nat)
    requires Valid(s) && InLoop(fs, k, fr, acc) && ElemClosed(s, fs[k].kind.e) && fr.pos <= |bs| && i <= n
    requires Plenty(s, fs[k].kind.e, |bs| - fr.pos, fuel) && (fuel > 0 ==> NestedOk(s, bs, fuel - 1))
    ensures var Many(e, lt) := fs[k].kind;
            var out := ExecCount(s, fs, p, i, n, EmitReadElem(e, lt, fs[k].name), fr, bs, fuel);
            var d := DecAll(s, e, lt, n - i, bs, fr.pos);
            if d.Got? then
              out.Next? && out.fr.obj == fr.obj[k := VArr(acc + d.v)] && out.fr.pos == d.pos
              && out.fr.outer == fr.outer && out.fr.inner.None?
            else out.ReturnFalse?
    decreases n - i
  {
    var Many(e, lt) := fs[k].kind;
    if i < n {
      LoopStep(s, fs, k, p, i, fr, acc, bs, fuel);
      var a := Dec(s, e, lt, bs, fr.pos);
      if a.Got? {
        var r := ExecRead(s, fs, EmitReadElem(e, lt, fs[k].name), Entered(fr, p, i), bs, fuel);
        var fr1 := r.fr.(inner := None);
        LessRest(s, e, |bs| - fr.pos, |bs| - fr1.pos, fuel);
        LoopAll(s, fs, k, p, i + 1, n, fr1, acc + [a.v], bs, fuel);
        LoopGlue(fr.obj, k, acc, a.v, DecAll(s, e, lt, n - i - 1, bs, a.pos));
      }
    } else {
      assert fr.obj[k := VArr(acc + [])] == fr.obj by { assert acc + [] == acc; }
    }
  }

  lemma LoopGlue(obj: seq<Value>, k: nat, acc: seq<Value>, v: Value, b: Read<seq<Value>>)
    requires k < |obj|
    ensures b.Got? ==> obj[k := VArr(acc + [v])][k := VArr(acc + [v] + b.v)] == obj[k := VArr(acc + ([v] + b.v))]
  {
    if b.Got? {
      assert acc + [v] + b.v == acc + ([v] + b.v);
    }
  }

  lemma LessRest(s: TypeTable, e: Elem, rest: nat, rest': nat, fuel: nat)
    requires Valid(s) && rest' <= rest && Plenty(s, e, rest, fuel)
    ensures Plenty(s, e, rest', fuel)
  {
    MulMono(rest' + 1, rest + 1, |Order(s)|);
  }

  /** Declaring and reading the length. */
  lemma ArrayHead(s: TypeTable, fs: seq<Field>, k: nat, fr: Frame, bs: seq<byte>, fuel: nat)
    requires Valid(s) && Ready(fs, k, fr) && fs[k].kind.Many?
    ensures var Many(e, lt) := fs[k].kind;
            var x, len, p := fs[k].name, fs[k].name + "Len", LenPrim(lt);
            var out := ExecRead(s, fs, EmitRead(fs[k]), fr, bs, fuel);
            var n := DecLen(lt, bs, fr.pos);
            if n.Got? then
              out == ExecRead(s, fs, [Clear(x)] + [ForCount(p, len, EmitReadElem(e, lt, x))],
                              fr.(outer := fr.outer[len := Local(EPrim(p), VInt(n.v))], pos := n.pos), bs, fuel)
            else out == ReturnFalse(fr.obj, fr.pos)
  {
    var Many(e, lt) := fs[k].kind;
    var x, len, p := fs[k].name, fs[k].name + "Len", LenPrim(lt);
    LenRead(lt, bs, fr.pos);
    var rest := [Clear(x)] + [ForCount(p, len, EmitReadElem(e, lt, x))];
    assert EmitRead(fs[k]) == [DeclInt(p, len)] + ([ReadIntegral(p, len)] + rest);
    DeclRead(s, fs, p, len, rest, fr, bs, fuel);
  }

  lemma StepMany(s: TypeTable, fs: seq<Field>, k: nat, r: nat, fr: Frame, bs: seq<byte>, fuel: nat)
    requires Valid(s) && Ready(fs, k, fr) && fs[k].kind.Many? && fr.pos <= |bs|
    requires fs[k].name !in LoopNames(fs[k].kind) && TempDeclarable(fs[k].kind, fr.outer.Keys + LocalOf(fs[k]))
    requires Below(s, fs[k].kind, r) && Enough(s, r, |bs| - fr.pos, fuel) && (fuel > 0 ==> NestedOk(s, bs, fuel - 1))
    ensures Stepped(fs, k, fr, ExecRead(s, fs, EmitRead(fs[k]), fr, bs, fuel), DecKind(s, fs[k].kind, r, bs, fr.pos), |bs|)
  {
    var Many(e, lt) := fs[k].kind;
    ArrayHead(s, fs, k, fr, bs, fuel);
    var n := DecLen(lt, bs, fr.pos);
    if n.Got? {
      var fr2 := fr.(outer := fr.outer[fs[k].name + "Len" := Local(EPrim(LenPrim(lt)), VInt(n.v))], pos := n.pos);
      AfterPrefix(s, e, r, |bs| - fr.pos, |bs| - n.pos, fuel);
      ArrayRest(s, fs, k, fr2, n.v, bs, fuel);
    }
  }

  lemma AfterPrefix(s: TypeTable, e: Elem, r: nat, rest: nat, rest': nat, fuel: nat)
    requires Valid(s) && rest' < rest && Enough(s, r, rest, fuel)
    ensures Plenty(s, e, rest', fuel)
  {
    MulMono(rest' + 1, rest, |Order(s)|);
  }

  /** What follows the length. */
  lemma ArrayRest(s: TypeTable, fs: seq<Field>, k: nat, fr: Frame, n: nat, bs: seq<byte>, fuel: nat)
    requires Valid(s) && k < |fs| == |fr.obj| && InLoop(fs, k, fr.(obj := fr.obj[k := VArr([])]), [])
    requires ElemClosed(s, fs[k].kind.e) && fr.pos <= |bs|
    requires Plenty(s, fs[k].kind.e, |bs| - fr.pos, fuel) && (fuel > 0 ==> NestedOk(s, bs, fuel - 1))
    requires fs[k].name + "Len" in fr.outer
    requires fr.outer[fs[k].name + "Len"] == Local(EPrim(LenPrim(fs[k].kind.lt)), VInt(n))
    ensures var Many(e, lt) := fs[k].kind;
            var x := fs[k].name;
            var out := ExecRead(s, fs, [Clear(x)] + [ForCount(LenPrim(lt), x + "Len", EmitReadElem(e, lt, x))], fr, bs, fuel);
            var d := DecAll(s, e, lt, n, bs, fr.pos);
            if d.Got? then
              out.Next? && out.fr.obj == fr.obj[k := VArr(d.v)] && out.fr.pos == d.pos
              && out.fr.outer == fr.outer && out.fr.inner.None?
            else out.ReturnFalse?
  {
    var Many(e, lt) := fs[k].kind;
    ArrayTail(s, fs, k, fr, n, bs, fuel);
    var fr1 := fr.(obj := fr.obj[k := VArr([])]);
    LoopAll(s, fs, k, LenPrim(lt), 0, n, fr1, [], bs, fuel);
    var d := DecAll(s, e, lt, n, bs, fr.pos);
    if d.Got? {
      assert fr1.obj[k := VArr([] + d.v)] == fr.obj[k := VArr(d.v)] by {
        assert [] + d.v == d.v;
      }
    }
  }

  /** Clearing the array and entering the loop. */
  lemma ArrayTail(s: TypeTable, fs: seq<Field>, k: nat, fr: Frame, n: nat, bs: seq<byte>, fuel: nat)
    requires Valid(s) && DistinctNames(fs) && k < |fs| == |fr.obj| && fs[k].kind.Many? && fr.inner.None?
    requires fs[k].name != "reader" && fs[k].name !in fr.outer
    requires fs[k].name + "Len" in fr.outer
    requires fr.outer[fs[k].name + "Len"] == Local(EPrim(LenPrim(fs[k].kind.lt)), VInt(n))
    ensures var Many(e, lt) := fs[k].kind;
            var x, p := fs[k].name, LenPrim(lt);
            var body := EmitReadElem(e, lt, x);
            ExecRead(s, fs, [Clear(x)] + [ForCount(p, x + "Len", body)], fr, bs, fuel) ==
            ExecCount(s, fs, p, 0, n, body, fr.(obj := fr.obj[k := VArr([])]), bs, fuel)
  {
    var Many(e, lt) := fs[k].kind;
    var x, p := fs[k].name, LenPrim(lt);
    NameIndexUnique(fs, k);
    var c, loop := Clear(x), ForCount(p, x + "Len", EmitReadElem(e, lt, x));
    ExecCons(s, fs, c, [loop], fr, bs, fuel);
    var fr1 := fr.(obj := fr.obj[k := VArr([])]);
    assert ExecStmt(s, fs, c, fr, bs, fuel) == Next(fr1);
    Exec1(s, fs, loop, fr1, bs, fuel);
  }
}
