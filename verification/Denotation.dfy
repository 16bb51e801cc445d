/** Which byte strings denote a value: its encoding, with any non-zero byte in the place of a `true`. The
    decoder is complete and sound for that. */
module Denotation {
  import opened Bytes
  import opened Schema
  import opened Codec

  // ---- which bytes of an encoding are bool bytes

  function Mask(s: TypeTable, e: Elem, lt: LenType, v: Value): (m: seq<bool>)
    requires Enc(s, e, lt, v).Some?
    ensures |m| == |Enc(s, e, lt, v).value|
    decreases v, 0
  {
    match e
    case EPrim(p) => if p.Bool? then [true] else NoBools(Width(p))
    case EStr => NoBools(LenWidth(lt) + |v.s|)
    case ECustom(t) => MaskFields(s, s[t], v.ms)
  }

  function MaskFields(s: TypeTable, fs: seq<Field>, ms: seq<Value>): (m: seq<bool>)
    requires |fs| == |ms| && EncFields(s, fs, ms).Some?
    ensures |m| == |EncFields(s, fs, ms).value|
    decreases ms, 2
  {
    if fs == [] then [] else MaskKind(s, fs[0].kind, ms[0]) + MaskFields(s, fs[1..], ms[1..])
  }

  function MaskKind(s: TypeTable, kind: Kind, v: Value): (m: seq<bool>)
    requires EncKind(s, kind, v).Some?
    ensures |m| == |EncKind(s, kind, v).value|
    decreases v, 1
  {
    match kind
    case One(e, lt) => Mask(s, e, lt, v)
    case Many(e, lt) => NoBools(LenWidth(lt)) + MaskAll(s, e, lt, v.vs)
  }

  function MaskAll(s: TypeTable, e: Elem, lt: LenType, vs: seq<Value>): (m: seq<bool>)
    requires EncAll(s, e, lt, vs).Some?
    ensures |m| == |EncAll(s, e, lt, vs).value|
    decreases vs, 2
  {
    if vs == [] then [] else Mask(s, e, lt, vs[0]) + MaskAll(s, e, lt, vs[1..])
  }

  function NoBools(n: nat): (m: seq<bool>)
    ensures |m| == n && forall i :: 0 <= i < n ==> !m[i]
  {
    seq(n, i => false)
  }

  /** Replace every non-zero bool byte by 1. */
  function Normalise(m: seq<bool>, raw: seq<byte>): (r: seq<byte>)
    requires |m| == |raw|
    ensures |r| == |raw|
  {
    seq(|raw|, i requires 0 <= i < |raw| => if m[i] && raw[i] != 0 then 1 else raw[i])
  }

  lemma NormaliseNone(raw: seq<byte>)
    ensures Normalise(NoBools(|raw|), raw) == raw
  {
  }

  lemma NormaliseJoin(m1: seq<bool>, r1: seq<byte>, m2: seq<bool>, r2: seq<byte>)
    requires |m1| == |r1| && |m2| == |r2|
    ensures Normalise(m1 + m2, r1 + r2) == Normalise(m1, r1) + Normalise(m2, r2)
  {
  }

  lemma NormaliseSplit(m1: seq<bool>, e1: seq<byte>, m2: seq<bool>, e2: seq<byte>, raw: seq<byte>)
    requires |m1| == |e1| && |m2| == |e2| && |raw| == |e1| + |e2| && Normalise(m1 + m2, raw) == e1 + e2
    ensures Normalise(m1, raw[..|e1|]) == e1 && Normalise(m2, raw[|e1|..]) == e2
  {
    assert raw == raw[..|e1|] + raw[|e1|..];
    NormaliseJoin(m1, raw[..|e1|], m2, raw[|e1|..]);
    var a, b := Normalise(m1, raw[..|e1|]), Normalise(m2, raw[|e1|..]);
    assert a == (a + b)[..|e1|] && b == (a + b)[|e1|..];
    assert e1 == (e1 + e2)[..|e1|] && e2 == (e1 + e2)[|e1|..];
  }

  // ---- raw bytes denoting a value

  ghost predicate Denotes(s: TypeTable, e: Elem, lt: LenType, v: Value, raw: seq<byte>) {
    var x := Enc(s, e, lt, v);
    x.Some? && |raw| == |x.value| && x.value == Normalise(Mask(s, e, lt, v), raw)
  }

  ghost predicate DenotesFields(s: TypeTable, fs: seq<Field>, ms: seq<Value>, raw: seq<byte>)
    requires |fs| == |ms|
  {
    var x := EncFields(s, fs, ms);
    x.Some? && |raw| == |x.value| && x.value == Normalise(MaskFields(s, fs, ms), raw)
  }

  ghost predicate DenotesKind(s: TypeTable, kind: Kind, v: Value, raw: seq<byte>) {
    var x := EncKind(s, kind, v);
    x.Some? && |raw| == |x.value| && x.value == Normalise(MaskKind(s, kind, v), raw)
  }

  ghost predicate DenotesAll(s: TypeTable, e: Elem, lt: LenType, vs: seq<Value>, raw: seq<byte>) {
    var x := EncAll(s, e, lt, vs);
    x.Some? && |raw| == |x.value| && x.value == Normalise(MaskAll(s, e, lt, vs), raw)
  }

  // ---- the decoder finds the value that the bytes denote

  lemma {:induction false} DecComplete(s: TypeTable, e: Elem, lt: LenType, v: Value, raw: seq<byte>, bs: seq<byte>, pos: nat)
    requires Valid(s) && ElemClosed(s, e) && Denotes(s, e, lt, v, raw) && At(bs, pos, raw)
    ensures Dec(s, e, lt, bs, pos) == Got(v, pos + |raw|)
    decreases v, 0
  {
    match e
    case EPrim(p) => DecPrimComplete(p, v, raw);
    case EStr => DecStrComplete(s, lt, v, raw, bs, pos);
    case ECustom(t) =>
      FieldsOfTypeBelow(s, t);
      DecFieldsComplete(s, s[t], Rank(s, t), v.ms, raw, bs, pos);
  }

  lemma DecStrComplete(s: TypeTable, lt: LenType, v: Value, raw: seq<byte>, bs: seq<byte>, pos: nat)
    requires Denotes(s, EStr, lt, v, raw) && At(bs, pos, raw)
    ensures DecStr(lt, bs, pos) == Got(v, pos + |raw|)
  {
    NormaliseNone(raw);
    AtSplit(bs, pos, BE(LenWidth(lt), |v.s|), v.s);
    DecLenOfBE(lt, |v.s|, bs, pos);
  }

  lemma DecPrimComplete(p: Prim, v: Value, raw: seq<byte>)
    requires PrimTyped(p, v) && |raw| == Width(p)
    requires EncPrim(p, v) == Normalise(if p.Bool? then [true] else NoBools(Width(p)), raw)
    ensures PrimOf(p, raw) == v
  {
    if p.Bool? {
      assert EncPrim(p, v)[0] == (if raw[0] != 0 then 1 else 0);
    } else {
      NormaliseNone(raw);
      CastRoundTrip(p, v.i);
      ModulusIsPow(p);
      FromBEOfSmallBE(Width(p), ToUnsigned(p, v.i));
    }
  }

  lemma DecLenOfBE(lt: LenType, n: nat, bs: seq<byte>, pos: nat)
    requires n <= MaxLen(lt) && At(bs, pos, BE(LenWidth(lt), n))
    ensures DecLen(lt, bs, pos) == Got(n, pos + LenWidth(lt))
  {
    Pow256Values();
    FromBEOfSmallBE(LenWidth(lt), n);
  }

  lemma DenotesFieldsSplit(s: TypeTable, fs: seq<Field>, ms: seq<Value>, raw: seq<byte>)
    returns (a: seq<byte>, b: seq<byte>)
    requires |fs| == |ms| && fs != [] && DenotesFields(s, fs, ms, raw)
    ensures raw == a + b && DenotesKind(s, fs[0].kind, ms[0], a) && DenotesFields(s, fs[1..], ms[1..], b)
  {
    var e1, e2 := EncKind(s, fs[0].kind, ms[0]).value, EncFields(s, fs[1..], ms[1..]).value;
    NormaliseSplit(MaskKind(s, fs[0].kind, ms[0]), e1, MaskFields(s, fs[1..], ms[1..]), e2, raw);
    a, b := raw[..|e1|], raw[|e1|..];
  }

  lemma DenotesAllSplit(s: TypeTable, e: Elem, lt: LenType, vs: seq<Value>, raw: seq<byte>)
    returns (a: seq<byte>, b: seq<byte>)
    requires vs != [] && DenotesAll(s, e, lt, vs, raw)
    ensures raw == a + b && Denotes(s, e, lt, vs[0], a) && DenotesAll(s, e, lt, vs[1..], b)
  {
    var e1, e2 := Enc(s, e, lt, vs[0]).value, EncAll(s, e, lt, vs[1..]).value;
    NormaliseSplit(Mask(s, e, lt, vs[0]), e1, MaskAll(s, e, lt, vs[1..]), e2, raw);
    a, b := raw[..|e1|], raw[|e1|..];
  }

  lemma BelowSplit(s: TypeTable, fs: seq<Field>, r: nat)
    requires Valid(s) && AllBelow(s, fs, r) && fs != []
    ensures Below(s, fs[0].kind, r) && AllBelow(s, fs[1..], r)
  {
  }

  lemma {:induction false} DecFieldsComplete(s: TypeTable, fs: seq<Field>, r: nat, ms: seq<Value>, raw: seq<byte>, bs: seq<byte>, pos: nat)
    requires Valid(s) && AllBelow(s, fs, r) && |fs| == |ms| && DenotesFields(s, fs, ms, raw) && At(bs, pos, raw)
    ensures DecFields(s, fs, r, bs, pos) == Got(ms, pos + |raw|)
    decreases ms, 2
  {
    if fs != [] {
      var a, b := DenotesFieldsSplit(s, fs, ms, raw);
      AtSplit(bs, pos, a, b);
      BelowSplit(s, fs, r);
      DecKindComplete(s, fs[0].kind, r, ms[0], a, bs, pos);
      DecFieldsComplete(s, fs[1..], r, ms[1..], b, bs, pos + |a|);
      DecFieldsJoin(s, fs, r, ms, bs, pos, pos + |a|);
    }
  }

  lemma DecFieldsJoin(s: TypeTable, fs: seq<Field>, r: nat, ms: seq<Value>, bs: seq<byte>, pos: nat, p: nat)
    requires Valid(s) && fs != [] && |fs| == |ms| && AllBelow(s, fs, r) && AllBelow(s, fs[1..], r) && pos <= p <= |bs|
    requires Below(s, fs[0].kind, r) && DecKind(s, fs[0].kind, r, bs, pos) == Got(ms[0], p)
    requires DecFields(s, fs[1..], r, bs, p).Got? && DecFields(s, fs[1..], r, bs, p).v == ms[1..]
    ensures DecFields(s, fs, r, bs, pos) == Got(ms, DecFields(s, fs[1..], r, bs, p).pos)
  {
    assert [ms[0]] + ms[1..] == ms;
  }

  lemma {:induction false} DecKindComplete(s: TypeTable, kind: Kind, r: nat, v: Value, raw: seq<byte>, bs: seq<byte>, pos: nat)
    requires Valid(s) && Below(s, kind, r) && DenotesKind(s, kind, v, raw) && At(bs, pos, raw)
    ensures DecKind(s, kind, r, bs, pos) == Got(v, pos + |raw|)
    decreases v, 1
  {
    match kind
    case One(e, lt) => DecComplete(s, e, lt, v, raw, bs, pos);
    case Many(e, lt) =>
      var head := BE(LenWidth(lt), |v.vs|);
      var body := EncAll(s, e, lt, v.vs).value;
      NormaliseSplit(NoBools(LenWidth(lt)), head, MaskAll(s, e, lt, v.vs), body, raw);
      var a, b := raw[..|head|], raw[|head|..];
      NormaliseNone(a);
      assert raw == a + b;
      AtSplit(bs, pos, a, b);
      DecLenOfBE(lt, |v.vs|, bs, pos);
      DecAllComplete(s, e, lt, |v.vs|, v.vs, b, bs, pos + |a|);
  }

  /** The bytes of the first element, where they stand, and those of the rest. */
  lemma ElementsPlaced(s: TypeTable, e: Elem, lt: LenType, vs: seq<Value>, raw: seq<byte>, bs: seq<byte>, pos: nat)
    returns (a: seq<byte>, b: seq<byte>)
    requires vs != [] && DenotesAll(s, e, lt, vs, raw) && At(bs, pos, raw)
    ensures Denotes(s, e, lt, vs[0], a) && At(bs, pos, a)
    ensures DenotesAll(s, e, lt, vs[1..], b) && At(bs, pos + |a|, b) && |raw| == |a| + |b|
  {
    a, b := DenotesAllSplit(s, e, lt, vs, raw);
    AtSplit(bs, pos, a, b);
  }

  lemma {:induction false} DecAllComplete(s: TypeTable, e: Elem, lt: LenType, n: nat, vs: seq<Value>, raw: seq<byte>, bs: seq<byte>, pos: nat)
    requires Valid(s) && ElemClosed(s, e) && n == |vs| && DenotesAll(s, e, lt, vs, raw) && At(bs, pos, raw)
    ensures DecAll(s, e, lt, n, bs, pos) == Got(vs, pos + |raw|)
    decreases vs, 2
  {
    if n > 0 {
      var a, b := ElementsPlaced(s, e, lt, vs, raw, bs, pos);
      var p := pos + |a|;
      DecComplete(s, e, lt, vs[0], a, bs, pos);
      DecAllComplete(s, e, lt, n - 1, vs[1..], b, bs, p);
      DecAllCons(s, e, lt, n, vs, bs, pos, p);
    }
  }

  lemma DecAllCons(s: TypeTable, e: Elem, lt: LenType, n: nat, vs: seq<Value>, bs: seq<byte>, pos: nat, p: nat)
    requires Valid(s) && ElemClosed(s, e) && n == |vs| > 0 && pos <= p <= |bs|
    requires Dec(s, e, lt, bs, pos) == Got(vs[0], p)
    requires DecAll(s, e, lt, n - 1, bs, p).Got? && DecAll(s, e, lt, n - 1, bs, p).v == vs[1..]
    ensures DecAll(s, e, lt, n, bs, pos) == Got(vs, DecAll(s, e, lt, n - 1, bs, p).pos)
  {
    assert [vs[0]] + vs[1..] == vs;
  }

  // ---- whatever the decoder returns, the bytes it consumed denote it

  lemma {:induction false} DecSound(s: TypeTable, e: Elem, lt: LenType, bs: seq<byte>, pos: nat)
    requires Valid(s) && ElemClosed(s, e) && pos <= |bs| && Dec(s, e, lt, bs, pos).Got?
    ensures var r := Dec(s, e, lt, bs, pos); Denotes(s, e, lt, r.v, bs[pos..r.pos]) && Typed(s, e, r.v)
    decreases |bs| - pos, ElemRank(s, e), 0
  {
    var r := Dec(s, e, lt, bs, pos);
    match e
    case EPrim(p) => DecPrimSound(p, bs[pos..r.pos]);
    case EStr => DecStrSound(s, lt, bs, pos);
    case ECustom(t) =>
      FieldsOfTypeBelow(s, t);
      DecFieldsSound(s, s[t], Rank(s, t), bs, pos);
  }

  lemma DecStrSound(s: TypeTable, lt: LenType, bs: seq<byte>, pos: nat)
    requires DecStr(lt, bs, pos).Got?
    ensures Denotes(s, EStr, lt, DecStr(lt, bs, pos).v, bs[pos..DecStr(lt, bs, pos).pos])
  {
    var r, n := DecStr(lt, bs, pos), DecLen(lt, bs, pos);
    SliceJoin(bs, pos, n.pos, r.pos);
    BEOfFromBE(bs[pos..n.pos]);
    assert Enc(s, EStr, lt, r.v) == Some(bs[pos..r.pos]);
    StringDenotes(s, lt, r.v.s, bs[pos..r.pos]);
  }

  lemma StringDenotes(s: TypeTable, lt: LenType, x: seq<byte>, raw: seq<byte>)
    requires Enc(s, EStr, lt, VStr(x)) == Some(raw)
    ensures Denotes(s, EStr, lt, VStr(x), raw)
  {
    assert Mask(s, EStr, lt, VStr(x)) == NoBools(|raw|);
    NormaliseNone(raw);
  }

  lemma DecPrimSound(p: Prim, raw: seq<byte>)
    requires |raw| == Width(p)
    ensures PrimTyped(p, PrimOf(p, raw))
    ensures EncPrim(p, PrimOf(p, raw)) == Normalise(if p.Bool? then [true] else NoBools(Width(p)), raw)
  {
    if !p.Bool? {
      NormaliseNone(raw);
      FromBEBound(raw);
      ModulusIsPow(p);
      CastBack(p, FromBE(raw));
      BEOfFromBE(raw);
    }
  }

  lemma {:induction false} DecFieldsSound(s: TypeTable, fs: seq<Field>, r: nat, bs: seq<byte>, pos: nat)
    requires Valid(s) && AllBelow(s, fs, r) && pos <= |bs| && DecFields(s, fs, r, bs, pos).Got?
    ensures var res := DecFields(s, fs, r, bs, pos);
            DenotesFields(s, fs, res.v, bs[pos..res.pos]) && TypedFields(s, fs, res.v)
    decreases |bs| - pos, r, 1 + |fs|
  {
    if fs != [] {
      assert Below(s, fs[0].kind, r);
      var a := DecKind(s, fs[0].kind, r, bs, pos);
      DecKindSound(s, fs[0].kind, r, bs, pos);
      DecFieldsSound(s, fs[1..], r, bs, a.pos);
      var b := DecFields(s, fs[1..], r, bs, a.pos);
      assert bs[pos..b.pos] == bs[pos..a.pos] + bs[a.pos..b.pos];
      var ms := [a.v] + b.v;
      assert ms[0] == a.v && ms[1..] == b.v;
      NormaliseJoin(MaskKind(s, fs[0].kind, a.v), bs[pos..a.pos], MaskFields(s, fs[1..], b.v), bs[a.pos..b.pos]);
      forall k | 0 <= k < |fs|
        ensures TypedKind(s, fs[k].kind, ms[k])
      {
        if k > 0 {
          assert TypedKind(s, fs[1..][k - 1].kind, b.v[k - 1]);
        }
      }
    }
  }

  lemma {:induction false} DecKindSound(s: TypeTable, kind: Kind, r: nat, bs: seq<byte>, pos: nat)
    requires Valid(s) && Below(s, kind, r) && pos <= |bs| && DecKind(s, kind, r, bs, pos).Got?
    ensures var res := DecKind(s, kind, r, bs, pos);
            DenotesKind(s, kind, res.v, bs[pos..res.pos]) && TypedKind(s, kind, res.v)
    decreases |bs| - pos, r, 1
  {
    match kind
    case One(e, lt) => DecSound(s, e, lt, bs, pos);
    case Many(e, lt) =>
      var n := DecLen(lt, bs, pos);
      DecAllSound(s, e, lt, n.v, bs, n.pos);
      var a := DecAll(s, e, lt, n.v, bs, n.pos);
      BEOfFromBE(bs[pos..n.pos]);
      SliceJoin(bs, pos, n.pos, a.pos);
      DenotesArray(s, e, lt, a.v, bs[pos..n.pos], bs[n.pos..a.pos]);
  }

  lemma DenotesArray(s: TypeTable, e: Elem, lt: LenType, vs: seq<Value>, head: seq<byte>, body: seq<byte>)
    requires |vs| <= MaxLen(lt) && head == BE(LenWidth(lt), |vs|) && DenotesAll(s, e, lt, vs, body)
    ensures DenotesKind(s, Many(e, lt), VArr(vs), head + body)
  {
    var m := MaskAll(s, e, lt, vs);
    assert MaskKind(s, Many(e, lt), VArr(vs)) == NoBools(LenWidth(lt)) + m;
    NormaliseNone(head);
    NormaliseJoin(NoBools(LenWidth(lt)), head, m, body);
  }

  lemma DenotesCons(s: TypeTable, e: Elem, lt: LenType, v: Value, vs: seq<Value>, a: seq<byte>, b: seq<byte>)
    requires Denotes(s, e, lt, v, a) && DenotesAll(s, e, lt, vs, b)
    ensures DenotesAll(s, e, lt, [v] + vs, a + b)
  {
    assert ([v] + vs)[0] == v && ([v] + vs)[1..] == vs;
    NormaliseJoin(Mask(s, e, lt, v), a, MaskAll(s, e, lt, vs), b);
  }

  lemma {:induction false} DecAllSound(s: TypeTable, e: Elem, lt: LenType, n: nat, bs: seq<byte>, pos: nat)
    requires Valid(s) && ElemClosed(s, e) && pos <= |bs| && DecAll(s, e, lt, n, bs, pos).Got?
    ensures var r := DecAll(s, e, lt, n, bs, pos);
            DenotesAll(s, e, lt, r.v, bs[pos..r.pos]) && forall j :: 0 <= j < |r.v| ==> Typed(s, e, r.v[j])
    decreases |bs| - pos, ElemRank(s, e), 1 + n
  {
    if n > 0 {
      var a := Dec(s, e, lt, bs, pos);
      DecSound(s, e, lt, bs, pos);
      DecAllSound(s, e, lt, n - 1, bs, a.pos);
      var b := DecAll(s, e, lt, n - 1, bs, a.pos);
      SliceJoin(bs, pos, a.pos, b.pos);
      DenotesCons(s, e, lt, a.v, b.v, bs[pos..a.pos], bs[a.pos..b.pos]);
    }
  }
}
