/** The generated code is right exactly when field names do not clash with the names the generator
    introduces itself. */
module GeneratorTheorems {
  import opened Bytes
  import opened Schema
  import opened Codec
  import opened GeneratedCode
  import opened GeneratedReader

  // ---- reading a run of fields

  ghost predicate FieldsStart(s: TypeTable, fs: seq<Field>, k: nat, m: nat, r: nat, fr: Frame, bs: seq<byte>, fuel: nat)
    requires Valid(s)
  {
    && k <= m <= |fs| == |fr.obj|
    && DistinctNames(fs)
    && (forall j :: k <= j < m ==> ReadHygienic(fs, j))
    && fr.inner.None?
    && fr.outer.Keys == LocalNames(fs, k)
    && fr.pos <= |bs|
    && AllBelow(s, fs, r)
    && Enough(s, r, |bs| - fr.pos, fuel)
    && (fuel > 0 ==> NestedOk(s, bs, fuel - 1))
    && forall j :: k <= j < m ==> TypedKind(s, fs[j].kind, fr.obj[j])
  }

  ghost predicate FieldsDone(fs: seq<Field>, k: nat, m: nat, fr: Frame, bs: seq<byte>, out: Outcome, d: Read<seq<Value>>)
    requires k <= m <= |fs| == |fr.obj|
  {
    if d.Got? then
      && out.Next?
      && |d.v| == m - k
      && out.fr.obj == fr.obj[..k] + d.v + fr.obj[m..]
      && out.fr.pos == d.pos
      && out.fr.inner.None?
      && out.fr.outer.Keys == LocalNames(fs, m)
      && (IntLocals(fr.outer) ==> IntLocals(out.fr.outer))
    else out.ReturnFalse? && (fr.pos == |bs| ==> out == ReturnFalse(fr.obj, fr.pos))
  }

  lemma AllBelowSlice(s: TypeTable, fs: seq<Field>, r: nat, k: nat, m: nat)
    requires Valid(s) && AllBelow(s, fs, r) && k <= m <= |fs|
    ensures AllBelow(s, fs[k..m], r)
  {
  }

  /** The statements emitted for fields k to m read what the reference decoder reads for them. */
  lemma {:induction false} FieldsRead(s: TypeTable, fs: seq<Field>, k: nat, m: nat, r: nat, fr: Frame, bs: seq<byte>, fuel: nat)
    requires Valid(s) && FieldsStart(s, fs, k, m, r, fr, bs, fuel)
    ensures AllBelow(s, fs[k..m], r)
    ensures FieldsDone(fs, k, m, fr, bs, ExecRead(s, fs, EmitReads(fs[k..m]), fr, bs, fuel), DecFields(s, fs[k..m], r, bs, fr.pos))
    decreases m - k
  {
    AllBelowSlice(s, fs, r, k, m);
    if k == m {
      assert fr.obj == fr.obj[..k] + [] + fr.obj[m..];
    } else {
      ReadsCons(s, fs, k, m, fr, bs, fuel);
      FieldStep(s, fs, k, r, fr, bs, fuel);
      var a := DecKind(s, fs[k].kind, r, bs, fr.pos);
      DecFieldsCons(s, fs, k, m, r, bs, fr.pos);
      if a.Got? {
        var r1 := ExecRead(s, fs, EmitRead(fs[k]), fr, bs, fuel);
        StartNext(s, fs, k, m, r, fr, bs, fuel, r1, a);
        FieldsRead(s, fs, k + 1, m, r, r1.fr, bs, fuel);
        var out := ExecRead(s, fs, EmitReads(fs[k + 1..m]), r1.fr, bs, fuel);
        DoneCons(fs, k, m, fr, bs, r1, a, out, DecFields(s, fs[k + 1..m], r, bs, a.pos), DecFields(s, fs[k..m], r, bs, fr.pos));
      }
    }
  }

  lemma ReadsCons(s: TypeTable, fs: seq<Field>, k: nat, m: nat, fr: Frame, bs: seq<byte>, fuel: nat)
    requires Valid(s) && k < m <= |fs|
    ensures var r1 := ExecRead(s, fs, EmitRead(fs[k]), fr, bs, fuel);
            ExecRead(s, fs, EmitReads(fs[k..m]), fr, bs, fuel) ==
            if r1.Next? then ExecRead(s, fs, EmitReads(fs[k + 1..m]), r1.fr, bs, fuel) else r1
  {
    assert fs[k..m][0] == fs[k] && fs[k..m][1..] == fs[k + 1..m];
    ExecJoin(s, fs, EmitRead(fs[k]), EmitReads(fs[k + 1..m]), fr, bs, fuel);
  }

  lemma DoneCons(fs: seq<Field>, k: nat, m: nat, fr: Frame, bs: seq<byte>, out1: Outcome, a: Read<Value>, out: Outcome,
                 b: Read<seq<Value>>, d: Read<seq<Value>>)
    requires k < m <= |fs| == |fr.obj| && a.Got? && fr.pos < a.pos <= |bs|
    requires Stepped(fs, k, fr, out1, a, |bs|) && FieldsDone(fs, k + 1, m, out1.fr, bs, out, b)
    requires d.Got? == b.Got? && (d.Got? ==> d.v == [a.v] + b.v && d.pos == b.pos)
    ensures FieldsDone(fs, k, m, fr, bs, out, d)
  {
    JoinObj(fr.obj, k, m, a.v, b);
  }

  lemma DecFieldsCons(s: TypeTable, fs: seq<Field>, k: nat, m: nat, r: nat, bs: seq<byte>, pos: nat)
    requires Valid(s) && k < m <= |fs| && AllBelow(s, fs, r) && pos <= |bs|
    ensures AllBelow(s, fs[k..m], r) && AllBelow(s, fs[k + 1..m], r) && Below(s, fs[k].kind, r)
    ensures var a := DecKind(s, fs[k].kind, r, bs, pos);
            DecFields(s, fs[k..m], r, bs, pos) ==
            if a.Fail? then Fail
            else var b := DecFields(s, fs[k + 1..m], r, bs, a.pos); if b.Got? then Got([a.v] + b.v, b.pos) else Fail
  {
    assert fs[k..m][0] == fs[k] && fs[k..m][1..] == fs[k + 1..m];
  }

  lemma StartNext(s: TypeTable, fs: seq<Field>, k: nat, m: nat, r: nat, fr: Frame, bs: seq<byte>, fuel: nat, out: Outcome, a: Read<Value>)
    requires Valid(s) && FieldsStart(s, fs, k, m, r, fr, bs, fuel) && k < m
    requires Stepped(fs, k, fr, out, a, |bs|) && a.Got? && fr.pos <= a.pos <= |bs|
    ensures FieldsStart(s, fs, k + 1, m, r, out.fr, bs, fuel)
  {
    MulMono(|bs| - a.pos, |bs| - fr.pos, |Order(s)|);
    assert LocalNames(fs, k + 1) == LocalNames(fs, k) + LocalOf(fs[k]);
  }

  lemma JoinObj(obj: seq<Value>, k: nat, m: nat, v: Value, b: Read<seq<Value>>)
    requires k < m <= |obj|
    ensures b.Got? ==> obj[k := v][..k + 1] + b.v + obj[k := v][m..] == obj[..k] + ([v] + b.v) + obj[m..]
  {
    if b.Got? {
      assert obj[k := v][..k + 1] == obj[..k] + [v];
      assert obj[k := v][m..] == obj[m..];
    }
  }

  lemma FieldStep(s: TypeTable, fs: seq<Field>, k: nat, r: nat, fr: Frame, bs: seq<byte>, fuel: nat)
    requires Valid(s) && k < |fs| && FieldsStart(s, fs, k, k + 1, r, fr, bs, fuel)
    ensures Below(s, fs[k].kind, r)
    ensures Stepped(fs, k, fr, ExecRead(s, fs, EmitRead(fs[k]), fr, bs, fuel), DecKind(s, fs[k].kind, r, bs, fr.pos), |bs|)
  {
    assert Below(s, fs[k].kind, r) && ReadHygienic(fs, k) && TypedKind(s, fs[k].kind, fr.obj[k]);
    assert LocalNames(fs, k + 1) == LocalNames(fs, k) + LocalOf(fs[k]);
    assert Ready(fs, k, fr);
    if fs[k].kind.One? {
      StepOne(s, fs, k, r, fr, bs, fuel);
    } else {
      StepMany(s, fs, k, r, fr, bs, fuel);
    }
  }

  ghost predicate AllReadHygienic(s: TypeTable) {
    forall t :: t in s ==> TypeReadHygienic(t, s[t])
  }

  ghost predicate TypeReadHygienic(t: string, fs: seq<Field>) {
    StructOk(t, fs) && forall k :: 0 <= k < |fs| ==> ReadHygienic(fs, k)
  }

  /** One type, given that shallower calls are right. */
  lemma TypeRead(s: TypeTable, t: string, obj: seq<Value>, bs: seq<byte>, pos: nat, fuel: nat)
    requires Valid(s) && t in s && TypeReadHygienic(t, s[t]) && pos <= |bs|
    requires Typed(s, ECustom(t), VObj(obj)) && Depth(s, t, |bs| - pos) <= fuel
    requires fuel > 0 ==> NestedOk(s, bs, fuel - 1)
    ensures RunMatches(s, t, obj, bs, pos, fuel)
  {
    FieldsOfTypeBelow(s, t);
    var fs, r, fr := s[t], Rank(s, t), Frame(obj, map[], None, pos);
    assert TypedFields(s, fs, obj);
    assert FieldsStart(s, fs, 0, |fs|, r, fr, bs, fuel);
    FieldsRead(s, fs, 0, |fs|, r, fr, bs, fuel);
    assert fs[0..|fs|] == fs;
    var out, d := ExecRead(s, fs, EmitReads(fs), fr, bs, fuel), DecFields(s, fs, r, bs, pos);
    if d.Got? {
      assert out.fr.obj == d.v by {
        assert obj[..0] + d.v + obj[|fs|..] == d.v;
      }
    }
    assert RunDeserialize(s, t, obj, bs, pos, fuel) == out;
  }

  lemma {:induction false} AllRunsMatch(s: TypeTable, bs: seq<byte>, fuel: nat)
    requires Valid(s) && AllReadHygienic(s)
    ensures NestedOk(s, bs, fuel)
    decreases fuel
  {
    if fuel > 0 {
      AllRunsMatch(s, bs, fuel - 1);
    }
    forall t, obj, pos: nat | t in s && pos <= |bs| && Typed(s, ECustom(t), VObj(obj)) && Depth(s, t, |bs| - pos) <= fuel
      ensures RunMatches(s, t, obj, bs, pos, fuel)
    {
      TypeRead(s, t, obj, bs, pos, fuel);
    }
  }

  // ---- writing

  predicate WriteHygienic(fs: seq<Field>) {
    DistinctNames(fs) && forall k :: 0 <= k < |fs| ==> fs[k].name != "bytes" && fs[k].name != "writer"
  }

  /** Nesting depth of a value. */
  function Height(v: Value): nat
    decreases v, 0
  {
    match v
    case VArr(vs) => HeightAll(vs)
    case VObj(ms) => 1 + HeightAll(ms)
    case _ => 0
  }

  function HeightAll(vs: seq<Value>): nat
    decreases vs, 1
  {
    if vs == [] then 0
    else if Height(vs[0]) > HeightAll(vs[1..]) then Height(vs[0]) else HeightAll(vs[1..])
  }

  lemma {:induction false} HeightOf(vs: seq<Value>, k: nat)
    requires k < |vs|
    ensures Height(vs[k]) <= HeightAll(vs)
    decreases |vs|
  {
    if k > 0 {
      HeightOf(vs[1..], k - 1);
    }
  }

  /** Same verdict as the reference encoder, whose bytes are appended; on failure too, bytes are only appended. */
  ghost predicate WroteAs(w: WriteOutcome, out: seq<byte>, e: Option<seq<byte>>) {
    if e.Some? then w == Wrote(out + e.value) else w.WroteFalse? && out <= w.out
  }

  ghost predicate WriteMatches(s: TypeTable, t: string, obj: seq<Value>, out: seq<byte>, fuel: nat) {
    WroteAs(RunSerialize(s, t, obj, out, fuel), out, Enc(s, ECustom(t), L32, VObj(obj)))
  }

  ghost predicate NestedWriteOk(s: TypeTable, fuel: nat) {
    forall t, obj, out: seq<byte> ::
      t in s && Typed(s, ECustom(t), VObj(obj)) && Height(VObj(obj)) <= fuel + 1 ==> WriteMatches(s, t, obj, out, fuel)
  }

  lemma WriteCons(s: TypeTable, fs: seq<Field>, obj: seq<Value>, elem: Operand, a: WriteStmt, rest: seq<WriteStmt>, out: seq<byte>, fuel: nat)
    ensures var r := ExecWrite(s, fs, obj, elem, [a], out, fuel);
            ExecWrite(s, fs, obj, elem, [a] + rest, out, fuel) ==
            if r.Wrote? then ExecWrite(s, fs, obj, elem, rest, r.out, fuel) else r
  {
    assert ([a] + rest)[1..] == rest && [a][1..] == [];
  }

  lemma {:induction false} WriteJoin(s: TypeTable, fs: seq<Field>, obj: seq<Value>, elem: Operand, a: seq<WriteStmt>, b: seq<WriteStmt>, out: seq<byte>, fuel: nat)
    ensures var r := ExecWrite(s, fs, obj, elem, a, out, fuel);
            ExecWrite(s, fs, obj, elem, a + b, out, fuel) ==
            if r.Wrote? then ExecWrite(s, fs, obj, elem, b, r.out, fuel) else r
    decreases |a|
  {
    if a == [] {
      assert a + b == b;
    } else {
      assert a == [a[0]] + a[1..] && a + b == [a[0]] + (a[1..] + b);
      WriteCons(s, fs, obj, elem, a[0], a[1..], out, fuel);
      WriteCons(s, fs, obj, elem, a[0], a[1..] + b, out, fuel);
      var r := ExecWrite(s, fs, obj, elem, [a[0]], out, fuel);
      if r.Wrote? {
        WriteJoin(s, fs, obj, elem, a[1..], b, r.out, fuel);
      }
    }
  }

  /** One element under the name x, a member or the loop variable. */
  lemma ElemWritten(s: TypeTable, fs: seq<Field>, obj: seq<Value>, elem: Operand, e: Elem, lt: LenType, x: string, v: Value, out: seq<byte>, fuel: nat)
    requires Lookup(fs, obj, elem, x) == Operand(One(e, lt), v)
    requires ElemClosed(s, e) && Typed(s, e, v) && Height(v) <= fuel && (fuel > 0 ==> NestedWriteOk(s, fuel - 1))
    ensures WroteAs(ExecWrite(s, fs, obj, elem, EmitWriteElem(e, lt, x), out, fuel), out, Enc(s, e, lt, v))
  {
    match e
    case EStr => StringWritten(s, fs, obj, elem, lt, x, v, out, fuel);
    case EPrim(p) => PrimWritten(s, fs, obj, elem, p, lt, x, v, out, fuel);
    case ECustom(t) =>
      assert WriteMatches(s, t, v.ms, out, fuel - 1);
      assert [CallSerialize(x)][1..] == [];
  }

  lemma StringWritten(s: TypeTable, fs: seq<Field>, obj: seq<Value>, elem: Operand, lt: LenType, x: string, v: Value, out: seq<byte>, fuel: nat)
    requires Lookup(fs, obj, elem, x) == Operand(One(EStr, lt), v) && v.VStr?
    ensures WroteAs(ExecWrite(s, fs, obj, elem, EmitWriteElem(EStr, lt, x), out, fuel), out, Enc(s, EStr, lt, v))
  {
    var bytes := InsertBytes(x);
    assert EmitWriteElem(EStr, lt, x) == [GuardSize(x, lt)] + ([WriteSize(x, lt)] + [bytes]);
    SizePrefix(s, fs, obj, elem, x, lt, |v.s|, [bytes], out, fuel);
    assert [bytes][1..] == [];
    assert out + (BE(LenWidth(lt), |v.s|) + v.s) == out + BE(LenWidth(lt), |v.s|) + v.s;
  }

  lemma PrimWritten(s: TypeTable, fs: seq<Field>, obj: seq<Value>, elem: Operand, p: Prim, lt: LenType, x: string, v: Value, out: seq<byte>, fuel: nat)
    requires Lookup(fs, obj, elem, x) == Operand(One(EPrim(p), lt), v) && PrimTyped(p, v)
    ensures WroteAs(ExecWrite(s, fs, obj, elem, EmitWriteElem(EPrim(p), lt, x), out, fuel), out, Enc(s, EPrim(p), lt, v))
  {
    assert EmitWriteElem(EPrim(p), lt, x)[1..] == [];
  }

  lemma {:induction false} EachWritten(s: TypeTable, fs: seq<Field>, obj: seq<Value>, e: Elem, lt: LenType, vs: seq<Value>, out: seq<byte>, fuel: nat)
    requires ElemClosed(s, e) && (forall j :: 0 <= j < |vs| ==> Typed(s, e, vs[j]))
    requires HeightAll(vs) <= fuel && (fuel > 0 ==> NestedWriteOk(s, fuel - 1))
    ensures WroteAs(ExecEach(s, fs, obj, Many(e, lt), vs, EmitWriteElem(e, lt, "elem"), out, fuel), out, EncAll(s, e, lt, vs))
    decreases |vs|
  {
    if vs != [] {
      var o := Operand(One(e, lt), vs[0]);
      ElemWritten(s, fs, obj, o, e, lt, "elem", vs[0], out, fuel);
      var first := ExecWrite(s, fs, obj, o, EmitWriteElem(e, lt, "elem"), out, fuel);
      if first.Wrote? {
        EachWritten(s, fs, obj, e, lt, vs[1..], first.out, fuel);
        var a, b := Enc(s, e, lt, vs[0]), EncAll(s, e, lt, vs[1..]);
        if b.Some? {
          assert out + a.value + b.value == out + (a.value + b.value);
        }
      }
    } else {
      assert out + [] == out;
    }
  }

  lemma FieldWritten(s: TypeTable, fs: seq<Field>, obj: seq<Value>, k: nat, out: seq<byte>, fuel: nat)
    requires Closed(s) && FieldsClosed(s, fs) && WriteHygienic(fs) && k < |fs| == |obj|
    requires TypedKind(s, fs[k].kind, obj[k]) && Height(obj[k]) <= fuel && (fuel > 0 ==> NestedWriteOk(s, fuel - 1))
    ensures WroteAs(ExecWrite(s, fs, obj, NoOperand, EmitWrite(fs[k]), out, fuel), out, EncKind(s, fs[k].kind, obj[k]))
  {
    NameIndexUnique(fs, k);
    assert ElemClosed(s, fs[k].kind.e);
    var x, v := fs[k].name, obj[k];
    match fs[k].kind
    case One(e, lt) => ElemWritten(s, fs, obj, NoOperand, e, lt, x, v, out, fuel);
    case Many(e, lt) => ArrayWritten(s, fs, obj, k, e, lt, v.vs, out, fuel);
  }

  lemma ArrayWritten(s: TypeTable, fs: seq<Field>, obj: seq<Value>, k: nat, e: Elem, lt: LenType, vs: seq<Value>, out: seq<byte>, fuel: nat)
    requires k < |fs| == |obj| && fs[k].kind == Many(e, lt) && obj[k] == VArr(vs)
    requires Lookup(fs, obj, NoOperand, fs[k].name) == Operand(Many(e, lt), VArr(vs)) && ElemClosed(s, e)
    requires (forall j :: 0 <= j < |vs| ==> Typed(s, e, vs[j])) && HeightAll(vs) <= fuel && (fuel > 0 ==> NestedWriteOk(s, fuel - 1))
    ensures WroteAs(ExecWrite(s, fs, obj, NoOperand, EmitWrite(fs[k]), out, fuel), out, EncKind(s, fs[k].kind, obj[k]))
  {
    ArrayStatements(s, fs, obj, k, e, lt, vs, out, fuel);
    var head := BE(LenWidth(lt), |vs|);
    EachWritten(s, fs, obj, e, lt, vs, out + head, fuel);
    if |vs| <= MaxLen(lt) {
      WroteThen(out, Some(head), EncAll(s, e, lt, vs), Wrote(out + head),
                ExecEach(s, fs, obj, Many(e, lt), vs, EmitWriteElem(e, lt, "elem"), out + head, fuel));
    }
  }

  lemma ArrayStatements(s: TypeTable, fs: seq<Field>, obj: seq<Value>, k: nat, e: Elem, lt: LenType, vs: seq<Value>, out: seq<byte>, fuel: nat)
    requires k < |fs| && fs[k].kind == Many(e, lt) && Lookup(fs, obj, NoOperand, fs[k].name) == Operand(Many(e, lt), VArr(vs))
    ensures ExecWrite(s, fs, obj, NoOperand, EmitWrite(fs[k]), out, fuel) ==
            if |vs| > MaxLen(lt) then WroteFalse(out)
            else ExecEach(s, fs, obj, Many(e, lt), vs, EmitWriteElem(e, lt, "elem"), out + BE(LenWidth(lt), |vs|), fuel)
  {
    var x := fs[k].name;
    var loop := ForEach(x, EmitWriteElem(e, lt, "elem"));
    assert EmitWrite(fs[k]) == [GuardSize(x, lt)] + ([WriteSize(x, lt)] + [loop]);
    SizePrefix(s, fs, obj, NoOperand, x, lt, |vs|, [loop], out, fuel);
    LoopOnly(s, fs, obj, x, Many(e, lt), vs, EmitWriteElem(e, lt, "elem"), out + BE(LenWidth(lt), |vs|), fuel);
  }

  lemma LoopOnly(s: TypeTable, fs: seq<Field>, obj: seq<Value>, x: string, kind: Kind, vs: seq<Value>, body: seq<WriteStmt>,
                 out: seq<byte>, fuel: nat)
    requires kind.Many? && Lookup(fs, obj, NoOperand, x) == Operand(kind, VArr(vs))
    ensures ExecWrite(s, fs, obj, NoOperand, [ForEach(x, body)], out, fuel) == ExecEach(s, fs, obj, kind, vs, body, out, fuel)
  {
    var r := ExecEach(s, fs, obj, kind, vs, body, out, fuel);
    assert r.Wrote? ==> ExecWrite(s, fs, obj, NoOperand, [], r.out, fuel) == r;
    assert [ForEach(x, body)][1..] == [];
  }

  lemma SizePrefix(s: TypeTable, fs: seq<Field>, obj: seq<Value>, elem: Operand, x: string, lt: LenType, n: nat, rest: seq<WriteStmt>,
                   out: seq<byte>, fuel: nat)
    requires SizeOf(Lookup(fs, obj, elem, x)) == Some(n)
    ensures ExecWrite(s, fs, obj, elem, [GuardSize(x, lt)] + ([WriteSize(x, lt)] + rest), out, fuel) ==
            if n > MaxLen(lt) then WroteFalse(out) else ExecWrite(s, fs, obj, elem, rest, out + BE(LenWidth(lt), n), fuel)
  {
    var guard, size := GuardSize(x, lt), WriteSize(x, lt);
    WriteCons(s, fs, obj, elem, guard, [size] + rest, out, fuel);
    WriteCons(s, fs, obj, elem, size, rest, out, fuel);
    assert [guard][1..] == [] && [size][1..] == [];
  }

  lemma {:induction false} FieldsWritten(s: TypeTable, fs: seq<Field>, obj: seq<Value>, k: nat, out: seq<byte>, fuel: nat)
    requires Closed(s) && FieldsClosed(s, fs) && WriteHygienic(fs) && k <= |fs| == |obj| && TypedFields(s, fs, obj)
    requires HeightAll(obj) <= fuel && (fuel > 0 ==> NestedWriteOk(s, fuel - 1))
    ensures WroteAs(ExecWrite(s, fs, obj, NoOperand, EmitWrites(fs[k..]), out, fuel), out, EncFields(s, fs[k..], obj[k..]))
    decreases |fs| - k
  {
    if k == |fs| {
      assert out + [] == out;
    } else {
      HeightOf(obj, k);
      assert TypedKind(s, fs[k].kind, obj[k]);
      FieldWritten(s, fs, obj, k, out, fuel);
      EncFieldsCons(s, fs, obj, k);
      assert fs[k..][0] == fs[k] && fs[k..][1..] == fs[k + 1..];
      WriteJoin(s, fs, obj, NoOperand, EmitWrite(fs[k]), EmitWrites(fs[k + 1..]), out, fuel);
      var first := ExecWrite(s, fs, obj, NoOperand, EmitWrite(fs[k]), out, fuel);
      if first.Wrote? {
        FieldsWritten(s, fs, obj, k + 1, first.out, fuel);
        WroteThen(out, EncKind(s, fs[k].kind, obj[k]), EncFields(s, fs[k + 1..], obj[k + 1..]), first,
                  ExecWrite(s, fs, obj, NoOperand, EmitWrites(fs[k + 1..]), first.out, fuel));
      }
    }
  }

  lemma EncFieldsCons(s: TypeTable, fs: seq<Field>, obj: seq<Value>, k: nat)
    requires k < |fs| == |obj|
    ensures EncFields(s, fs[k..], obj[k..]) == Append(EncKind(s, fs[k].kind, obj[k]), EncFields(s, fs[k + 1..], obj[k + 1..]))
  {
    assert fs[k..][0] == fs[k] && fs[k..][1..] == fs[k + 1..] && obj[k..][0] == obj[k] && obj[k..][1..] == obj[k + 1..];
  }

  lemma WroteThen(out: seq<byte>, a: Option<seq<byte>>, b: Option<seq<byte>>, w1: WriteOutcome, w2: WriteOutcome)
    requires w1.Wrote? && WroteAs(w1, out, a) && WroteAs(w2, w1.out, b)
    ensures WroteAs(w2, out, Append(a, b))
  {
    if b.Some? {
      assert out + a.value + b.value == out + (a.value + b.value);
    }
  }

  ghost predicate AllWriteHygienic(s: TypeTable) {
    forall t :: t in s ==> StructOk(t, s[t]) && WriteHygienic(s[t])
  }

  lemma {:induction false} AllWritesMatch(s: TypeTable, fuel: nat)
    requires Closed(s) && AllWriteHygienic(s)
    ensures NestedWriteOk(s, fuel)
    decreases fuel
  {
    if fuel > 0 {
      AllWritesMatch(s, fuel - 1);
    }
    forall t, obj, out: seq<byte> | t in s && Typed(s, ECustom(t), VObj(obj)) && Height(VObj(obj)) <= fuel + 1
      ensures WriteMatches(s, t, obj, out, fuel)
    {
      TypeWritten(s, t, obj, out, fuel);
    }
  }

  lemma TypeWritten(s: TypeTable, t: string, obj: seq<Value>, out: seq<byte>, fuel: nat)
    requires Closed(s) && t in s && StructOk(t, s[t]) && WriteHygienic(s[t]) && (fuel > 0 ==> NestedWriteOk(s, fuel - 1))
    requires Typed(s, ECustom(t), VObj(obj)) && Height(VObj(obj)) <= fuel + 1
    ensures WriteMatches(s, t, obj, out, fuel)
  {
    FieldsWritten(s, s[t], obj, 0, out, fuel);
    assert s[t][0..] == s[t] && obj[0..] == obj;
  }
}
