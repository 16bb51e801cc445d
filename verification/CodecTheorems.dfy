/** What the reference codec guarantees for every type table: the decoder accepts exactly what denotes a
    value. Round trip, prefix-freeness, canonicity and totality of serialisation follow. */
module CodecTheorems {
  import opened Bytes
  import opened Schema
  import opened Codec
  import opened Denotation

  /** The decoder returns v and stops at q exactly when the bytes in between are the encoding of v, read
      with any non-zero byte standing for true. */
  lemma DecoderExact(s: TypeTable, e: Elem, lt: LenType, bs: seq<byte>, pos: nat, v: Value, q: nat)
    requires Valid(s) && ElemClosed(s, e) && pos <= |bs|
    ensures Dec(s, e, lt, bs, pos) == Got(v, q) <==> pos <= q <= |bs| && Denotes(s, e, lt, v, bs[pos..q])
  {
    if Dec(s, e, lt, bs, pos) == Got(v, q) {
      DecSound(s, e, lt, bs, pos);
    }
    if pos <= q <= |bs| && Denotes(s, e, lt, v, bs[pos..q]) {
      DecComplete(s, e, lt, v, bs[pos..q], bs, pos);
    }
  }

  /** Reading an encoding back, behind any prefix and before any suffix, gives the value and stops right after it. */
  lemma RoundTrip(s: TypeTable, e: Elem, lt: LenType, v: Value, before: seq<byte>, after: seq<byte>)
    requires Valid(s) && ElemClosed(s, e) && Enc(s, e, lt, v).Some?
    ensures var enc := Enc(s, e, lt, v).value;
            Dec(s, e, lt, before + enc + after, |before|) == Got(v, |before| + |enc|)
  {
    var enc := Enc(s, e, lt, v).value;
    DenotesOwn(s, e, lt, v);
    DecComplete(s, e, lt, v, enc, before + enc + after, |before|);
  }

  /** The encoder writes 0 or 1 for every bool. */
  lemma {:induction false} DenotesOwn(s: TypeTable, e: Elem, lt: LenType, v: Value)
    requires Enc(s, e, lt, v).Some?
    ensures Denotes(s, e, lt, v, Enc(s, e, lt, v).value)
    decreases v, 0
  {
    if e.ECustom? {
      DenotesOwnFields(s, s[e.t], v.ms);
    } else {
      NormaliseNone(Enc(s, e, lt, v).value);
    }
  }

  lemma {:induction false} DenotesOwnFields(s: TypeTable, fs: seq<Field>, ms: seq<Value>)
    requires |fs| == |ms| && EncFields(s, fs, ms).Some?
    ensures DenotesFields(s, fs, ms, EncFields(s, fs, ms).value)
    decreases ms, 2
  {
    if fs != [] {
      var a, b := EncKind(s, fs[0].kind, ms[0]).value, EncFields(s, fs[1..], ms[1..]).value;
      DenotesOwnKind(s, fs[0].kind, ms[0]);
      DenotesOwnFields(s, fs[1..], ms[1..]);
      NormaliseJoin(MaskKind(s, fs[0].kind, ms[0]), a, MaskFields(s, fs[1..], ms[1..]), b);
    }
  }

  lemma {:induction false} DenotesOwnKind(s: TypeTable, kind: Kind, v: Value)
    requires EncKind(s, kind, v).Some?
    ensures DenotesKind(s, kind, v, EncKind(s, kind, v).value)
    decreases v, 1
  {
    match kind
    case One(e, lt) => DenotesOwn(s, e, lt, v);
    case Many(e, lt) =>
      DenotesOwnAll(s, e, lt, v.vs);
      DenotesArray(s, e, lt, v.vs, BE(LenWidth(lt), |v.vs|), EncAll(s, e, lt, v.vs).value);
  }

  lemma {:induction false} DenotesOwnAll(s: TypeTable, e: Elem, lt: LenType, vs: seq<Value>)
    requires EncAll(s, e, lt, vs).Some?
    ensures DenotesAll(s, e, lt, vs, EncAll(s, e, lt, vs).value)
    decreases vs, 2
  {
    if vs != [] {
      DenotesOwn(s, e, lt, vs[0]);
      DenotesOwnAll(s, e, lt, vs[1..]);
      DenotesCons(s, e, lt, vs[0], vs[1..], Enc(s, e, lt, vs[0]).value, EncAll(s, e, lt, vs[1..]).value);
      assert [vs[0]] + vs[1..] == vs;
    }
  }

  /** Of two accepted messages of a type, neither is a proper prefix of the other: truncating or
      extending an accepted message always yields a rejected one. */
  lemma PrefixFree(s: TypeTable, t: string, a: seq<byte>, b: seq<byte>)
    requires Valid(s) && t in s
    requires Deserialize(s, t, a).Some? && Deserialize(s, t, b).Some? && a <= b
    ensures a == b
  {
    var v := Deserialize(s, t, a).value;
    DecSound(s, ECustom(t), L32, a, 0);
    assert a[0..|a|] == a == b[0..|a|];
    DecComplete(s, ECustom(t), L32, v, a, b, 0);
  }

  /** An accepted message re-serialises to itself with every non-zero bool byte replaced by 1. */
  lemma Canonical(s: TypeTable, t: string, bs: seq<byte>)
    requires Valid(s) && t in s && Deserialize(s, t, bs).Some?
    ensures var v := Deserialize(s, t, bs).value;
            && Typed(s, ECustom(t), v)
            && Enc(s, ECustom(t), L32, v).Some?
            && var mask := Mask(s, ECustom(t), L32, v);
            && |mask| == |bs|
            && Serialize(s, t, v) == Normalise(mask, bs)
            && (Serialize(s, t, v) == bs <==> forall i :: 0 <= i < |bs| && mask[i] ==> bs[i] <= 1)
  {
    DecSound(s, ECustom(t), L32, bs, 0);
    assert bs[0..|bs|] == bs;
  }

  /** For a well-typed value, serialisation succeeds exactly when every string and array length, at every
      depth, fits its length type. */
  lemma {:induction false} SerialisableIff(s: TypeTable, e: Elem, lt: LenType, v: Value)
    requires Typed(s, e, v)
    ensures Enc(s, e, lt, v).Some? <==> Fits(s, e, lt, v)
    decreases v, 0
  {
    if e.ECustom? {
      SerialisableFieldsIff(s, s[e.t], v.ms);
    }
  }

  lemma {:induction false} SerialisableFieldsIff(s: TypeTable, fs: seq<Field>, ms: seq<Value>)
    requires |fs| == |ms| && TypedFields(s, fs, ms)
    ensures EncFields(s, fs, ms).Some? <==> FitsFields(s, fs, ms)
    decreases ms, 2
  {
    if fs != [] {
      assert TypedKind(s, fs[0].kind, ms[0]);
      SerialisableKindIff(s, fs[0].kind, ms[0]);
      forall k | 0 <= k < |fs[1..]|
        ensures TypedKind(s, fs[1..][k].kind, ms[1..][k])
      {
        assert TypedKind(s, fs[k + 1].kind, ms[k + 1]);
      }
      SerialisableFieldsIff(s, fs[1..], ms[1..]);
      assert FitsFields(s, fs, ms) <==> FitsKind(s, fs[0].kind, ms[0]) && FitsFields(s, fs[1..], ms[1..]) by {
        assert forall k :: 1 <= k < |fs| ==> fs[1..][k - 1] == fs[k] && ms[1..][k - 1] == ms[k];
      }
    }
  }

  lemma {:induction false} SerialisableKindIff(s: TypeTable, kind: Kind, v: Value)
    requires TypedKind(s, kind, v)
    ensures EncKind(s, kind, v).Some? <==> FitsKind(s, kind, v)
    decreases v, 1
  {
    match kind
    case One(e, lt) => SerialisableIff(s, e, lt, v);
    case Many(e, lt) => SerialisableAllIff(s, e, lt, v.vs);
  }

  lemma {:induction false} SerialisableAllIff(s: TypeTable, e: Elem, lt: LenType, vs: seq<Value>)
    requires forall j :: 0 <= j < |vs| ==> Typed(s, e, vs[j])
    ensures EncAll(s, e, lt, vs).Some? <==> forall j :: 0 <= j < |vs| ==> Fits(s, e, lt, vs[j])
    decreases vs, 2
  {
    if vs != [] {
      SerialisableIff(s, e, lt, vs[0]);
      SerialisableAllIff(s, e, lt, vs[1..]);
      assert forall j :: 1 <= j < |vs| ==> vs[1..][j - 1] == vs[j];
    }
  }

  // ---- size bound

  /** Array elements held by a value, over all nesting depths. */
  function Elements(v: Value): nat
    decreases v, 0
  {
    match v
    case VArr(vs) => |vs| + ElementsAll(vs)
    case VObj(ms) => ElementsAll(ms)
    case _ => 0
  }

  function ElementsAll(vs: seq<Value>): nat
    decreases vs, 1
  {
    if vs == [] then 0 else Elements(vs[0]) + ElementsAll(vs[1..])
  }

  /** A value never holds as many array elements as its encoding has bytes, so neither does a decoded one:
      a short message cannot blow up into a large object. */
  lemma {:induction false} ElementsBelowBytes(s: TypeTable, e: Elem, lt: LenType, v: Value)
    requires Closed(s) && Enc(s, e, lt, v).Some?
    ensures Elements(v) < |Enc(s, e, lt, v).value|
    decreases v, 0
  {
    if e.ECustom? {
      assert FieldsClosed(s, s[e.t]);
      ElementsFields(s, s[e.t], v.ms);
    }
  }

  lemma {:induction false} ElementsFields(s: TypeTable, fs: seq<Field>, ms: seq<Value>)
    requires Closed(s) && |fs| == |ms| && EncFields(s, fs, ms).Some?
    ensures ElementsAll(ms) + |fs| <= |EncFields(s, fs, ms).value|
    decreases ms, 2
  {
    if fs != [] {
      var kind, v := fs[0].kind, ms[0];
      assert Elements(v) < |EncKind(s, kind, v).value| by {
        if kind.One? {
          ElementsBelowBytes(s, kind.e, kind.lt, v);
        } else {
          ElementsOfArray(s, kind.e, kind.lt, v.vs);
        }
      }
      ElementsFields(s, fs[1..], ms[1..]);
    }
  }

  lemma {:induction false} ElementsOfArray(s: TypeTable, e: Elem, lt: LenType, vs: seq<Value>)
    requires Closed(s) && EncAll(s, e, lt, vs).Some?
    ensures |vs| + ElementsAll(vs) <= |EncAll(s, e, lt, vs).value|
    decreases vs, 2
  {
    if vs != [] {
      ElementsBelowBytes(s, e, lt, vs[0]);
      ElementsOfArray(s, e, lt, vs[1..]);
    }
  }

  /** What decoding yields is bounded by what it consumed. */
  lemma DecodedSizeBound(s: TypeTable, e: Elem, lt: LenType, bs: seq<byte>, pos: nat)
    requires Valid(s) && ElemClosed(s, e) && pos <= |bs| && Dec(s, e, lt, bs, pos).Got?
    ensures var r := Dec(s, e, lt, bs, pos); Elements(r.v) < r.pos - pos <= |bs|
  {
    DecSound(s, e, lt, bs, pos);
    ElementsBelowBytes(s, e, lt, Dec(s, e, lt, bs, pos).v);
  }

  /** serialize() returns the empty vector exactly when serializeTo failed, and the empty vector is never accepted. */
  lemma EmptyMeansFailure(s: TypeTable, t: string, v: Value)
    requires Valid(s) && t in s
    ensures Serialize(s, t, v) == [] <==> Enc(s, ECustom(t), L32, v).None?
    ensures Deserialize(s, t, []).None?
    ensures Deserialize(s, t, Serialize(s, t, v)) ==
            if Enc(s, ECustom(t), L32, v).Some? then Some(v) else None
  {
    var x := Enc(s, ECustom(t), L32, v);
    if x.Some? {
      ElementsBelowBytes(s, ECustom(t), L32, v);
      RoundTrip(s, ECustom(t), L32, v, [], []);
      assert [] + x.value + [] == x.value;
    }
  }
}
