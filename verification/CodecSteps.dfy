/** The reference codec seen from the other end: what one more field or element adds. Generated loops
    and statement sequences work this way. */
module CodecSteps {
  import opened Bytes
  import opened Schema
  import opened Codec

  /** vs read so far, then d. */
  function Snoc(a: Read<seq<Value>>, d: Read<Value>): Read<seq<Value>> {
    if a.Got? && d.Got? then Got(a.v + [d.v], d.pos) else Fail
  }

  lemma SliceBelow(s: TypeTable, fs: seq<Field>, r: nat, j: nat, k: nat)
    requires Valid(s) && AllBelow(s, fs, r) && j <= k <= |fs|
    ensures AllBelow(s, fs[j..k], r)
  {
  }

  lemma DecFieldsUnfold(s: TypeTable, fs: seq<Field>, r: nat, j: nat, m: nat, bs: seq<byte>, pos: nat)
    requires Valid(s) && AllBelow(s, fs, r) && j < m <= |fs| && pos <= |bs|
    ensures Below(s, fs[j].kind, r) && AllBelow(s, fs[j..m], r) && AllBelow(s, fs[j + 1..m], r)
    ensures var a := DecKind(s, fs[j].kind, r, bs, pos);
            DecFields(s, fs[j..m], r, bs, pos) == if a.Fail? then Fail else Cons(a.v, DecFields(s, fs[j + 1..m], r, bs, a.pos))
  {
    assert fs[j..m][0] == fs[j] && fs[j..m][1..] == fs[j + 1..m];
  }

  lemma {:induction false} DecFieldsSnoc(s: TypeTable, fs: seq<Field>, r: nat, j: nat, k: nat, bs: seq<byte>, pos: nat)
    requires Valid(s) && AllBelow(s, fs, r) && j <= k < |fs| && pos <= |bs|
    ensures Below(s, fs[k].kind, r) && AllBelow(s, fs[j..k], r) && AllBelow(s, fs[j..k + 1], r)
    ensures var a := DecFields(s, fs[j..k], r, bs, pos);
            DecFields(s, fs[j..k + 1], r, bs, pos) ==
            Snoc(a, if a.Got? then DecKind(s, fs[k].kind, r, bs, a.pos) else Fail)
    decreases k - j
  {
    SliceBelow(s, fs, r, j, k);
    DecFieldsUnfold(s, fs, r, j, k + 1, bs, pos);
    var a := DecKind(s, fs[j].kind, r, bs, pos);
    if j < k {
      DecFieldsUnfold(s, fs, r, j, k, bs, pos);
      if a.Got? {
        DecFieldsSnoc(s, fs, r, j + 1, k, bs, a.pos);
        var b := DecFields(s, fs[j + 1..k], r, bs, a.pos);
        ConsSnoc(a.v, b, if b.Got? then DecKind(s, fs[k].kind, r, bs, b.pos) else Fail);
      }
    } else if a.Got? {
      SnocOne(a.v, a.pos, pos);
    }
  }

  function Cons(v: Value, b: Read<seq<Value>>): Read<seq<Value>> {
    if b.Got? then Got([v] + b.v, b.pos) else Fail
  }

  lemma ConsSnoc(v: Value, b: Read<seq<Value>>, d: Read<Value>)
    ensures Cons(v, Snoc(b, d)) == Snoc(Cons(v, b), d)
  {
    if b.Got? && d.Got? {
      assert [v] + (b.v + [d.v]) == [v] + b.v + [d.v];
    }
  }

  lemma SnocOne(v: Value, pos: nat, q: nat)
    ensures Snoc(Got([], q), Got(v, pos)) == Cons(v, Got([], pos))
  {
    var none: seq<Value> := [];
    assert none + [v] == [v] + none;
  }

  lemma DecAllUnfold(s: TypeTable, e: Elem, lt: LenType, n: nat, bs: seq<byte>, pos: nat)
    requires Valid(s) && ElemClosed(s, e) && pos <= |bs| && n > 0
    ensures var a := Dec(s, e, lt, bs, pos);
            DecAll(s, e, lt, n, bs, pos) == if a.Fail? then Fail else Cons(a.v, DecAll(s, e, lt, n - 1, bs, a.pos))
  {
  }

  lemma {:induction false} DecAllSnoc(s: TypeTable, e: Elem, lt: LenType, n: nat, bs: seq<byte>, pos: nat)
    requires Valid(s) && ElemClosed(s, e) && pos <= |bs|
    ensures var a := DecAll(s, e, lt, n, bs, pos);
            DecAll(s, e, lt, n + 1, bs, pos) == Snoc(a, if a.Got? then Dec(s, e, lt, bs, a.pos) else Fail)
    decreases n
  {
    var a := Dec(s, e, lt, bs, pos);
    DecAllUnfold(s, e, lt, n + 1, bs, pos);
    if a.Got? {
      if n == 0 {
        SnocOne(a.v, a.pos, pos);
      } else {
        DecAllUnfold(s, e, lt, n, bs, pos);
        DecAllSnoc(s, e, lt, n - 1, bs, a.pos);
        var b := DecAll(s, e, lt, n - 1, bs, a.pos);
        ConsSnoc(a.v, b, if b.Got? then Dec(s, e, lt, bs, b.pos) else Fail);
      }
    }
  }

  lemma {:induction false} EncFieldsSnoc(s: TypeTable, fs: seq<Field>, ms: seq<Value>, j: nat, k: nat)
    requires |fs| == |ms| && j <= k < |fs|
    ensures EncFields(s, fs[j..k + 1], ms[j..k + 1]) ==
            Append(EncFields(s, fs[j..k], ms[j..k]), EncKind(s, fs[k].kind, ms[k]))
    decreases k - j
  {
    var x := EncKind(s, fs[k].kind, ms[k]);
    assert fs[j..k + 1][0] == fs[j] && fs[j..k + 1][1..] == fs[j + 1..k + 1];
    assert ms[j..k + 1][0] == ms[j] && ms[j..k + 1][1..] == ms[j + 1..k + 1];
    if j < k {
      assert fs[j..k][0] == fs[j] && fs[j..k][1..] == fs[j + 1..k] && ms[j..k][0] == ms[j] && ms[j..k][1..] == ms[j + 1..k];
      EncFieldsSnoc(s, fs, ms, j + 1, k);
      AppendAssoc(EncKind(s, fs[j].kind, ms[j]), EncFields(s, fs[j + 1..k], ms[j + 1..k]), x);
    } else {
      assert x.Some? ==> x.value + [] == [] + x.value;
    }
  }

  lemma AppendAssoc(a: Option<seq<byte>>, b: Option<seq<byte>>, c: Option<seq<byte>>)
    ensures Append(a, Append(b, c)) == Append(Append(a, b), c)
  {
    if a.Some? && b.Some? && c.Some? {
      assert a.value + (b.value + c.value) == a.value + b.value + c.value;
    }
  }

  lemma {:induction false} EncAllSnoc(s: TypeTable, e: Elem, lt: LenType, vs: seq<Value>, v: Value)
    ensures EncAll(s, e, lt, vs + [v]) == Append(EncAll(s, e, lt, vs), Enc(s, e, lt, v))
    decreases |vs|
  {
    var x := Enc(s, e, lt, v);
    if vs == [] {
      assert ([] + [v])[1..] == [];
      assert x.Some? ==> x.value + [] == [] + x.value;
    } else {
      EncAllSnoc(s, e, lt, vs[1..], v);
      assert (vs + [v])[1..] == vs[1..] + [v];
      AppendAssoc(Enc(s, e, lt, vs[0]), EncAll(s, e, lt, vs[1..]), x);
    }
  }
}
