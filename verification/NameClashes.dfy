/** What goes wrong when a field name clashes with a generated name: such code does not compile, or
    leaves the member as it was. */
module NameClashes {
  import opened Bytes
  import opened Schema
  import opened Codec
  import opened GeneratedCode
  import opened GeneratedReader

  /** Control reached field k along hygienic fields or not; only the shape of the frame is known. */
  ghost predicate Reached(fs: seq<Field>, k: nat, fr: Frame, end: nat) {
    && k < |fs| == |fr.obj|
    && DistinctNames(fs)
    && fr.inner.None?
    && fr.outer.Keys == LocalNames(fs, k)
    && IntLocals(fr.outer)
    && fr.pos <= end
  }

  /** If the statements of an unhygienic field get through at all, they change member k at most, and then
      only by clearing an array that turned out to be empty. */
  ghost predicate Harmless(fs: seq<Field>, k: nat, fr: Frame, out: Outcome, bs: seq<byte>)
    requires k < |fs| == |fr.obj|
  {
    out.Next? ==>
      && |out.fr.obj| == |fr.obj|
      && (forall j :: 0 <= j < |fs| && j != k ==> out.fr.obj[j] == fr.obj[j])
      && out.fr.inner.None?
      && out.fr.outer.Keys == LocalNames(fs, k + 1)
      && IntLocals(out.fr.outer)
      && fr.pos <= out.fr.pos <= |bs|
      && match fs[k].kind
         case One(e, _) => e.EPrim? && !e.p.F32? && !e.p.F64? && out.fr.obj == fr.obj
         case Many(e, lt) => DecLen(lt, bs, fr.pos).Got? && DecLen(lt, bs, fr.pos).v == 0
  }

  /** The name of field k does not mean member k when it is to be assigned. */
  ghost predicate Captured(fs: seq<Field>, k: nat)
    requires k < |fs|
  {
    fs[k].name == "reader" || fs[k].name in LocalNames(fs, k + 1) || !(LocalOf(fs[k]) !! LocalNames(fs, k))
  }

  lemma CapturedString(s: TypeTable, fs: seq<Field>, k: nat, fr: Frame, bs: seq<byte>, fuel: nat)
    requires Valid(s) && Reached(fs, k, fr, |bs|) && Captured(fs, k) && fs[k].kind.One? && fs[k].kind.e.EStr?
    ensures !ExecRead(s, fs, EmitRead(fs[k]), fr, bs, fuel).Next?
  {
    var lt := fs[k].kind.lt;
    var x, len, p := fs[k].name, fs[k].name + "StrLen", LenPrim(lt);
    var c := ReadBytes(len, x);
    assert EmitRead(fs[k]) == [DeclInt(p, len)] + ([ReadIntegral(p, len)] + [c]);
    DeclRead(s, fs, p, len, [c], fr, bs, fuel);
    assert LocalOf(fs[k]) == {len} && LocalNames(fs, k + 1) == LocalNames(fs, k) + {len} && |len| > |x|;
    var d := DecPrim(p, bs, fr.pos);
    if len !in fr.outer && d.Got? {
      Exec1(s, fs, c, fr.(outer := fr.outer[len := Local(EPrim(p), d.v)], pos := d.pos), bs, fuel);
    }
  }

  lemma CapturedBool(s: TypeTable, fs: seq<Field>, k: nat, fr: Frame, bs: seq<byte>, fuel: nat)
    requires Valid(s) && Reached(fs, k, fr, |bs|) && Captured(fs, k) && fs[k].kind.One? && fs[k].kind.e == EPrim(Bool)
    ensures Harmless(fs, k, fr, ExecRead(s, fs, EmitRead(fs[k]), fr, bs, fuel), bs)
  {
    var x := fs[k].name;
    var c := AssignNonZero(x, "b");
    assert EmitRead(fs[k]) == [DeclInt(U8, "b")] + ([ReadIntegral(U8, "b")] + [c]);
    DeclRead(s, fs, U8, "b", [c], fr, bs, fuel);
    assert LocalOf(fs[k]) == {"b"} && LocalNames(fs, k + 1) == LocalNames(fs, k) + {"b"};
    var d := DecPrim(U8, bs, fr.pos);
    if "b" !in fr.outer && d.Got? {
      Exec1(s, fs, c, fr.(outer := fr.outer["b" := Local(EPrim(U8), d.v)], pos := d.pos), bs, fuel);
    }
  }

  lemma CapturedPlain(s: TypeTable, fs: seq<Field>, k: nat, fr: Frame, bs: seq<byte>, fuel: nat)
    requires Valid(s) && Reached(fs, k, fr, |bs|) && Captured(fs, k) && fs[k].kind.One?
    requires !fs[k].kind.e.EStr? && fs[k].kind.e != EPrim(Bool)
    ensures Harmless(fs, k, fr, ExecRead(s, fs, EmitRead(fs[k]), fr, bs, fuel), bs)
  {
    var x := fs[k].name;
    var a := EmitRead(fs[k])[0];
    assert EmitRead(fs[k]) == [a];
    Exec1(s, fs, a, fr, bs, fuel);
    assert LocalOf(fs[k]) == {} && LocalNames(fs, k + 1) == LocalNames(fs, k);
    assert !Find(fs, fr, x).Member?;
  }

  lemma CapturedArray(s: TypeTable, fs: seq<Field>, k: nat, fr: Frame, bs: seq<byte>, fuel: nat)
    requires Valid(s) && Reached(fs, k, fr, |bs|) && Captured(fs, k) && fs[k].kind.Many?
    ensures !ExecRead(s, fs, EmitRead(fs[k]), fr, bs, fuel).Next?
  {
    var Many(e, lt) := fs[k].kind;
    var x, len, p := fs[k].name, fs[k].name + "Len", LenPrim(lt);
    var c, loop := Clear(x), ForCount(p, len, EmitReadElem(e, lt, x));
    assert EmitRead(fs[k]) == [DeclInt(p, len)] + ([ReadIntegral(p, len)] + ([c] + [loop]));
    DeclRead(s, fs, p, len, [c] + [loop], fr, bs, fuel);
    assert LocalOf(fs[k]) == {len} && LocalNames(fs, k + 1) == LocalNames(fs, k) + {len} && |len| > |x|;
    var d := DecPrim(p, bs, fr.pos);
    if len !in fr.outer && d.Got? {
      var fr2 := fr.(outer := fr.outer[len := Local(EPrim(p), d.v)], pos := d.pos);
      ClearsNothing(s, fs, x, [loop], fr2, bs, fuel);
    }
  }

  lemma ClearsNothing(s: TypeTable, fs: seq<Field>, x: string, rest: seq<ReadStmt>, fr: Frame, bs: seq<byte>, fuel: nat)
    requires Valid(s) && fr.inner.None? && (x == "reader" || x in fr.outer)
    ensures !ExecRead(s, fs, [Clear(x)] + rest, fr, bs, fuel).Next?
  {
    ExecCons(s, fs, Clear(x), rest, fr, bs, fuel);
    assert !Find(fs, fr, x).Member?;
  }

  // ---- an array named like a name of its own loop

  function Declares(stmt: ReadStmt): set<string> {
    if stmt.DeclInt? || stmt.DeclTemp? then {stmt.x} else {}
  }

  function Declared(stmts: seq<ReadStmt>): set<string> {
    if stmts == [] then {} else Declares(stmts[0]) + Declared(stmts[1..])
  }

  /** Storing under a name adds and removes no local. */
  lemma StoreKeepsNames(fs: seq<Field>, fr: Frame, x: string, v: Value)
    ensures var g := Store(fs, fr, x, v);
            g.inner.Some? == fr.inner.Some? && (fr.inner.Some? ==> g.inner.value.Keys == fr.inner.value.Keys)
  {
  }

  lemma InnerGrowsByOne(s: TypeTable, fs: seq<Field>, stmt: ReadStmt, fr: Frame, bs: seq<byte>, fuel: nat)
    requires Valid(s) && fr.inner.Some?
    ensures var out := ExecStmt(s, fs, stmt, fr, bs, fuel);
            out.Next? ==> out.fr.inner.Some? && fr.inner.value.Keys + Declares(stmt) <= out.fr.inner.value.Keys
  {
    match stmt
    case CallDeserialize(x) =>
      forall v {
        StoreKeepsNames(fs, fr, x, v);
      }
      var o := Load(fs, fr, x);
      if o.Operand? && o.kind.One? && o.kind.e.ECustom? && o.val.VObj? && fuel > 0 {
        var r := RunDeserialize(s, o.kind.e.t, o.val.ms, bs, fr.pos, fuel - 1);
        assert ExecStmt(s, fs, stmt, fr, bs, fuel) == Returned(fs, fr, x, r);
      }
    case ForCount(_, _, _) =>
    case _ =>
      forall v {
        StoreKeepsNames(fs, fr, stmt.x, v);
      }
  }

  lemma {:induction false} InnerGrows(s: TypeTable, fs: seq<Field>, stmts: seq<ReadStmt>, fr: Frame, bs: seq<byte>, fuel: nat)
    requires Valid(s) && fr.inner.Some?
    ensures var out := ExecRead(s, fs, stmts, fr, bs, fuel);
            out.Next? ==> out.fr.inner.Some? && fr.inner.value.Keys + Declared(stmts) <= out.fr.inner.value.Keys
    decreases |stmts|
  {
    if stmts != [] {
      var first := ExecStmt(s, fs, stmts[0], fr, bs, fuel);
      InnerGrowsByOne(s, fs, stmts[0], fr, bs, fuel);
      if first.Next? {
        InnerGrows(s, fs, stmts[1..], first.fr, bs, fuel);
      }
    }
  }

  lemma SelfNamedBody(s: TypeTable, fs: seq<Field>, k: nat, p: Prim, i: int, fr: Frame, bs: seq<byte>, fuel: nat)
    requires Valid(s) && k < |fs| && fs[k].kind.Many? && fs[k].name in LoopNames(fs[k].kind)
    ensures var Many(e, lt) := fs[k].kind;
            !ExecRead(s, fs, EmitReadElem(e, lt, fs[k].name), Entered(fr, p, i), bs, fuel).Next?
  {
    var Many(e, lt) := fs[k].kind;
    var x := fs[k].name;
    var body := EmitReadElem(e, lt, x);
    PushIsLast(e, lt, x);
    DeclaredFront(e, lt, x);
    PushAfter(s, fs, x, body[..|body| - 1], body[|body| - 1], Entered(fr, p, i), bs, fuel);
  }

  lemma PushIsLast(e: Elem, lt: LenType, x: string)
    ensures var body := EmitReadElem(e, lt, x);
            && |body| > 0 && body == body[..|body| - 1] + [body[|body| - 1]]
            && (body[|body| - 1].PushBack? || body[|body| - 1].PushNonZero?) && body[|body| - 1].x == x
  {
  }

  lemma PushAfter(s: TypeTable, fs: seq<Field>, x: string, front: seq<ReadStmt>, last: ReadStmt, fr: Frame, bs: seq<byte>, fuel: nat)
    requires Valid(s) && (last.PushBack? || last.PushNonZero?) && last.x == x
    requires fr.inner.Some? && x in fr.inner.value.Keys + Declared(front)
    ensures !ExecRead(s, fs, front + [last], fr, bs, fuel).Next?
  {
    ExecJoin(s, fs, front, [last], fr, bs, fuel);
    InnerGrows(s, fs, front, fr, bs, fuel);
    var r := ExecRead(s, fs, front, fr, bs, fuel);
    if r.Next? {
      PushOntoLocal(s, fs, x, last, r.fr, bs, fuel);
    }
  }

  lemma PushOntoLocal(s: TypeTable, fs: seq<Field>, x: string, last: ReadStmt, fr: Frame, bs: seq<byte>, fuel: nat)
    requires Valid(s) && (last.PushBack? || last.PushNonZero?) && last.x == x
    requires fr.inner.Some? && x in fr.inner.value
    ensures !ExecRead(s, fs, [last], fr, bs, fuel).Next?
  {
    Exec1(s, fs, last, fr, bs, fuel);
    assert Find(fs, fr, x) == Inner;
  }

  lemma DeclaredFront(e: Elem, lt: LenType, x: string)
    ensures var body := EmitReadElem(e, lt, x);
            |body| > 0 && (if e == EPrim(Bool) then "b" else "temp") in Declared(body[..|body| - 1])
  {
    var body := EmitReadElem(e, lt, x);
    var front := body[..|body| - 1];
    if e.EStr? {
      assert front[2] == DeclTemp(EStr, "temp");
      DeclaredAt(front, 2);
    } else {
      DeclaredAt(front, 0);
    }
  }

  lemma {:induction false} DeclaredAt(stmts: seq<ReadStmt>, k: nat)
    requires k < |stmts| && (stmts[k].DeclInt? || stmts[k].DeclTemp?)
    ensures stmts[k].x in Declared(stmts)
    decreases k
  {
    if k > 0 {
      DeclaredAt(stmts[1..], k - 1);
    }
  }

  lemma SelfNamedArray(s: TypeTable, fs: seq<Field>, k: nat, fr: Frame, bs: seq<byte>, fuel: nat)
    requires Valid(s) && Reached(fs, k, fr, |bs|) && !Captured(fs, k) && fs[k].kind.Many? && fs[k].name in LoopNames(fs[k].kind)
    ensures Harmless(fs, k, fr, ExecRead(s, fs, EmitRead(fs[k]), fr, bs, fuel), bs)
  {
    var Many(e, lt) := fs[k].kind;
    var x, len, p := fs[k].name, fs[k].name + "Len", LenPrim(lt);
    assert LocalOf(fs[k]) == {len} && LocalNames(fs, k + 1) == LocalNames(fs, k) + {len} && |len| > |x|;
    assert Ready(fs, k, fr);
    ArrayHead(s, fs, k, fr, bs, fuel);
    var n := DecLen(lt, bs, fr.pos);
    if n.Got? {
      var fr2 := fr.(outer := fr.outer[len := Local(EPrim(p), VInt(n.v))], pos := n.pos);
      ArrayTail(s, fs, k, fr2, n.v, bs, fuel);
      if n.v > 0 {
        SelfNamedBody(s, fs, k, p, 0, fr2.(obj := fr2.obj[k := VArr([])]), bs, fuel);
      }
    }
  }

  /** An array of a type whose name is hidden where an element is to be declared. */
  lemma HiddenElement(s: TypeTable, fs: seq<Field>, k: nat, fr: Frame, bs: seq<byte>, fuel: nat)
    requires Valid(s) && Reached(fs, k, fr, |bs|) && !Captured(fs, k) && !TempDeclarable(fs[k].kind, LocalNames(fs, k + 1))
    ensures Harmless(fs, k, fr, ExecRead(s, fs, EmitRead(fs[k]), fr, bs, fuel), bs)
  {
    var Many(e, lt) := fs[k].kind;
    var x, len, p := fs[k].name, fs[k].name + "Len", LenPrim(lt);
    assert LocalOf(fs[k]) == {len} && LocalNames(fs, k + 1) == LocalNames(fs, k) + {len} && |len| > |x|;
    assert Ready(fs, k, fr);
    ArrayHead(s, fs, k, fr, bs, fuel);
    var n := DecLen(lt, bs, fr.pos);
    if n.Got? {
      var fr2 := fr.(outer := fr.outer[len := Local(EPrim(p), VInt(n.v))], pos := n.pos);
      ArrayTail(s, fs, k, fr2, n.v, bs, fuel);
      if n.v > 0 {
        HiddenBody(s, fs, x, e, lt, p, 0, fr2.(obj := fr2.obj[k := VArr([])]), bs, fuel);
      }
    }
  }

  lemma HiddenBody(s: TypeTable, fs: seq<Field>, x: string, e: Elem, lt: LenType, p: Prim, i: int, fr: Frame, bs: seq<byte>, fuel: nat)
    requires Valid(s) && !TempDeclarable(Many(e, lt), fr.outer.Keys)
    ensures !ExecRead(s, fs, EmitReadElem(e, lt, x), Entered(fr, p, i), bs, fuel).Next?
  {
    var a := DeclTemp(e, "temp");
    var rest := EmitReadElem(e, lt, x)[1..];
    assert EmitReadElem(e, lt, x) == [a] + rest;
    ExecCons(s, fs, a, rest, Entered(fr, p, i), bs, fuel);
  }

  /** Every way of failing ReadHygienic. */
  lemma Unhygienic(s: TypeTable, fs: seq<Field>, k: nat, fr: Frame, bs: seq<byte>, fuel: nat)
    requires Valid(s) && Reached(fs, k, fr, |bs|) && !ReadHygienic(fs, k)
    ensures Harmless(fs, k, fr, ExecRead(s, fs, EmitRead(fs[k]), fr, bs, fuel), bs)
  {
    if Captured(fs, k) {
      match fs[k].kind
      case Many(_, _) => CapturedArray(s, fs, k, fr, bs, fuel);
      case One(EStr, _) => CapturedString(s, fs, k, fr, bs, fuel);
      case One(EPrim(Bool), _) => CapturedBool(s, fs, k, fr, bs, fuel);
      case One(_, _) => CapturedPlain(s, fs, k, fr, bs, fuel);
    } else if fs[k].name in LoopNames(fs[k].kind) {
      SelfNamedArray(s, fs, k, fr, bs, fuel);
    } else {
      HiddenElement(s, fs, k, fr, bs, fuel);
    }
  }
}
