/** Main theorem on the parameter generator: over any closed type table, the generated headers compile and
    all generated codecs compute the reference codec if and only if no two types refer to each other in a
    circle and all names are hygienic. */
module GeneratorHygiene {
  import opened Bytes
  import opened Schema
  import opened Codec
  import opened CodecTheorems
  import opened GeneratedCode
  import opened GeneratedReader
  import opened NameClashes
  import opened GeneratorTheorems
  import opened Headers

  /** No clash between the names of the type, of its fields and of their types, those that the generator
      introduces, and those that the base class brings in. Checkable from the IDL alone. */
  predicate Hygienic(t: string, fs: seq<Field>) {
    && StructOk(t, fs) && WriteHygienic(fs)
    && (forall k :: 0 <= k < |fs| ==> ReadHygienic(fs, k))
    && Callable(t, fs, "serialize") && Callable(t, fs, "deserialize")
  }

  /** deserialize() gives the verdict and the object of the reference decoder; on empty input it leaves the
      object alone. */
  ghost predicate CallMatches(s: TypeTable, t: string, obj: seq<Value>, bs: seq<byte>, r: Option<(bool, seq<Value>)>)
    requires Valid(s) && t in s
  {
    && r.Some? && r.value.0 == Deserialize(s, t, bs).Some?
    && (r.value.0 ==> VObj(r.value.1) == Deserialize(s, t, bs).value)
    && (bs == [] ==> r.value == (false, obj))
  }

  /** The generated functions of a type and the inherited ones that call them do what the reference codec
      does, from any object, output prefix and input position, whenever the call depth suffices. */
  ghost predicate GeneratedCorrect(s: TypeTable, t: string)
    requires Valid(s) && t in s
  {
    && (forall obj, bs: seq<byte>, pos: nat, fuel: nat ::
          pos <= |bs| && Typed(s, ECustom(t), VObj(obj)) && Depth(s, t, |bs| - pos) <= fuel ==>
            RunMatches(s, t, obj, bs, pos, fuel))
    && (forall obj, out: seq<byte>, fuel: nat ::
          Typed(s, ECustom(t), VObj(obj)) && Height(VObj(obj)) <= fuel + 1 ==> WriteMatches(s, t, obj, out, fuel))
    && (forall obj, fuel: nat ::
          Typed(s, ECustom(t), VObj(obj)) && Height(VObj(obj)) <= fuel + 1 ==>
            SerializeCall(s, t, obj, fuel) == Some(Serialize(s, t, VObj(obj))))
    && (forall obj, bs: seq<byte>, fuel: nat ::
          Typed(s, ECustom(t), VObj(obj)) && Depth(s, t, |bs|) <= fuel ==>
            CallMatches(s, t, obj, bs, DeserializeCall(s, t, obj, bs, fuel)))
  }

  ghost predicate AllCorrect(s: TypeTable)
    requires Valid(s)
  {
    forall t :: t in s ==> GeneratedCorrect(s, t)
  }

  ghost predicate AllHygienic(s: TypeTable) {
    forall t :: t in s ==> Hygienic(t, s[t])
  }

  lemma HygienicIsCorrect(s: TypeTable)
    requires Valid(s) && AllHygienic(s)
    ensures AllCorrect(s)
  {
    assert AllReadHygienic(s) && AllWriteHygienic(s) by {
      assert forall t :: t in s ==> Hygienic(t, s[t]);
    }
    forall t | t in s
      ensures GeneratedCorrect(s, t)
    {
      forall obj, bs: seq<byte>, pos: nat, fuel: nat
        | pos <= |bs| && Typed(s, ECustom(t), VObj(obj)) && Depth(s, t, |bs| - pos) <= fuel
        ensures RunMatches(s, t, obj, bs, pos, fuel)
      {
        AllRunsMatch(s, bs, fuel);
      }
      forall obj, out: seq<byte>, fuel: nat | Typed(s, ECustom(t), VObj(obj)) && Height(VObj(obj)) <= fuel + 1
        ensures WriteMatches(s, t, obj, out, fuel)
      {
        AllWritesMatch(s, fuel);
      }
      CallsFollow(s, t);
    }
  }

  /** The inherited functions add nothing but their own names. */
  lemma CallsFollow(s: TypeTable, t: string)
    requires Valid(s) && t in s && Hygienic(t, s[t]) && AllReadHygienic(s) && AllWriteHygienic(s)
    ensures forall obj, fuel: nat :: Typed(s, ECustom(t), VObj(obj)) && Height(VObj(obj)) <= fuel + 1 ==>
              SerializeCall(s, t, obj, fuel) == Some(Serialize(s, t, VObj(obj)))
    ensures forall obj, bs: seq<byte>, fuel: nat :: Typed(s, ECustom(t), VObj(obj)) && Depth(s, t, |bs|) <= fuel ==>
              CallMatches(s, t, obj, bs, DeserializeCall(s, t, obj, bs, fuel))
  {
    forall obj, fuel: nat | Typed(s, ECustom(t), VObj(obj)) && Height(VObj(obj)) <= fuel + 1
      ensures SerializeCall(s, t, obj, fuel) == Some(Serialize(s, t, VObj(obj)))
    {
      AllWritesMatch(s, fuel);
      SerializeFollows(s, t, obj, fuel);
    }
    forall obj, bs: seq<byte>, fuel: nat | Typed(s, ECustom(t), VObj(obj)) && Depth(s, t, |bs|) <= fuel
      ensures CallMatches(s, t, obj, bs, DeserializeCall(s, t, obj, bs, fuel))
    {
      AllRunsMatch(s, bs, fuel);
      DeserializeFollows(s, t, obj, bs, fuel);
    }
  }

  lemma SerializeFollows(s: TypeTable, t: string, obj: seq<Value>, fuel: nat)
    requires Valid(s) && t in s && Callable(t, s[t], "serialize") && WriteMatches(s, t, obj, [], fuel)
    ensures SerializeCall(s, t, obj, fuel) == Some(Serialize(s, t, VObj(obj)))
  {
    var e := Enc(s, ECustom(t), L32, VObj(obj));
    assert e.Some? ==> [] + e.value == e.value;
  }

  lemma DeserializeFollows(s: TypeTable, t: string, obj: seq<Value>, bs: seq<byte>, fuel: nat)
    requires Valid(s) && t in s && Callable(t, s[t], "deserialize") && RunMatches(s, t, obj, bs, 0, fuel)
    ensures CallMatches(s, t, obj, bs, DeserializeCall(s, t, obj, bs, fuel))
  {
  }

  // ---- sample objects

  lemma {:induction false} DefaultFits(s: TypeTable, e: Elem, lt: LenType)
    requires Valid(s) && ElemClosed(s, e)
    ensures Fits(s, e, lt, Default(s, e))
    decreases ElemRank(s, e), 0
  {
    if e.ECustom? {
      FieldsOfTypeBelow(s, e.t);
      DefaultFieldsFit(s, s[e.t], Rank(s, e.t));
    }
  }

  lemma {:induction false} DefaultFieldsFit(s: TypeTable, fs: seq<Field>, r: nat)
    requires Valid(s) && AllBelow(s, fs, r)
    ensures FitsFields(s, fs, DefaultFields(s, fs, r))
    decreases r, 1 + |fs|
  {
    if fs != [] {
      assert Below(s, fs[0].kind, r);
      if fs[0].kind.One? {
        DefaultFits(s, fs[0].kind.e, fs[0].kind.lt);
      }
      DefaultFieldsFit(s, fs[1..], r);
      var ms := DefaultFields(s, fs, r);
      forall k | 0 <= k < |fs|
        ensures FitsKind(s, fs[k].kind, ms[k])
      {
        if k > 0 {
          assert FitsKind(s, fs[1..][k - 1].kind, ms[1..][k - 1]);
        }
      }
    }
  }

  /** The object whose encoding is read: one element in array k, defaults elsewhere. */
  function Sample(s: TypeTable, t: string, k: nat): (v: Value)
    requires Valid(s) && t in s && k < |s[t]|
    ensures v.VObj? && |v.ms| == |s[t]|
  {
    FieldsOfTypeBelow(s, t);
    var ms := Default(s, ECustom(t)).ms;
    var kind := s[t][k].kind;
    assert Below(s, kind, Rank(s, t));
    if kind.Many? then VObj(ms[k := VArr([Default(s, kind.e)])]) else VObj(ms)
  }

  /** The object that is overwritten: member k differs from the sample if it is a number or a bool. */
  function Initial(s: TypeTable, t: string, k: nat): (v: Value)
    requires Valid(s) && t in s && k < |s[t]|
    ensures v.VObj? && |v.ms| == |s[t]|
  {
    FieldsOfTypeBelow(s, t);
    var ms := Default(s, ECustom(t)).ms;
    match s[t][k].kind
    case One(EPrim(p), _) => VObj(ms[k := if p.Bool? then VBool(true) else VInt(1)])
    case _ => VObj(ms)
  }

  lemma Samples(s: TypeTable, t: string, k: nat)
    requires Valid(s) && t in s && k < |s[t]|
    ensures Typed(s, ECustom(t), Sample(s, t, k)) && Fits(s, ECustom(t), L32, Sample(s, t, k))
    ensures Typed(s, ECustom(t), Initial(s, t, k))
    ensures s[t][k].kind.One? && s[t][k].kind.e.EPrim? ==> Initial(s, t, k).ms[k] != Sample(s, t, k).ms[k]
    ensures s[t][k].kind.Many? ==> Sample(s, t, k).ms[k].VArr? && |Sample(s, t, k).ms[k].vs| == 1
  {
    var fs, r := s[t], Rank(s, t);
    FieldsOfTypeBelow(s, t);
    assert Below(s, fs[k].kind, r);
    DefaultTyped(s, ECustom(t));
    DefaultFits(s, ECustom(t), L32);
    DefaultTyped(s, fs[k].kind.e);
    DefaultFits(s, fs[k].kind.e, fs[k].kind.lt);
    var ms := Default(s, ECustom(t)).ms;
    assert TypedFields(s, fs, ms) && FitsFields(s, fs, ms);
    DefaultFieldAt(s, fs, r, k);
    forall j | 0 <= j < |fs|
      ensures TypedKind(s, fs[j].kind, Sample(s, t, k).ms[j]) && FitsKind(s, fs[j].kind, Sample(s, t, k).ms[j])
      ensures TypedKind(s, fs[j].kind, Initial(s, t, k).ms[j])
    {
      assert TypedKind(s, fs[j].kind, ms[j]) && FitsKind(s, fs[j].kind, ms[j]);
    }
  }

  lemma {:induction false} DefaultFieldAt(s: TypeTable, fs: seq<Field>, r: nat, k: nat)
    requires Valid(s) && AllBelow(s, fs, r) && k < |fs|
    ensures Below(s, fs[k].kind, r)
    ensures fs[k].kind.One? ==> DefaultFields(s, fs, r)[k] == Default(s, fs[k].kind.e)
    decreases k
  {
    assert Below(s, fs[k].kind, r);
    if k > 0 {
      DefaultFieldAt(s, fs[1..], r, k - 1);
    }
  }

  // ---- a correct writer needs hygienic names

  lemma {:induction false} WroteEach(s: TypeTable, fs: seq<Field>, obj: seq<Value>, j: nat, k: nat, out: seq<byte>, fuel: nat)
    returns (out': seq<byte>)
    requires j <= k < |fs| && ExecWrite(s, fs, obj, NoOperand, EmitWrites(fs[j..]), out, fuel).Wrote?
    ensures ExecWrite(s, fs, obj, NoOperand, EmitWrite(fs[k]), out', fuel).Wrote?
    decreases k - j
  {
    assert fs[j..][0] == fs[j] && fs[j..][1..] == fs[j + 1..];
    WriteJoin(s, fs, obj, NoOperand, EmitWrite(fs[j]), EmitWrites(fs[j + 1..]), out, fuel);
    var first := ExecWrite(s, fs, obj, NoOperand, EmitWrite(fs[j]), out, fuel);
    if j < k {
      out' := WroteEach(s, fs, obj, j + 1, k, first.out, fuel);
    } else {
      out' := out;
    }
  }

  lemma ReservedStuck(s: TypeTable, fs: seq<Field>, obj: seq<Value>, k: nat, out: seq<byte>, fuel: nat)
    requires k < |fs| && fs[k].name in {"bytes", "writer"}
    ensures ExecWrite(s, fs, obj, NoOperand, EmitWrite(fs[k]), out, fuel).WriteStuck?
  {
    var stmts := EmitWrite(fs[k]);
    assert stmts != [] && stmts[0].x == fs[k].name;
    assert Lookup(fs, obj, NoOperand, fs[k].name) == NoOperand;
  }

  lemma CorrectWriterHygienic(s: TypeTable, t: string)
    requires Valid(s) && t in s && GeneratedCorrect(s, t)
    ensures StructOk(t, s[t]) && WriteHygienic(s[t]) && Callable(t, s[t], "serialize") && Callable(t, s[t], "deserialize")
  {
    var fs := s[t];
    var v := Default(s, ECustom(t));
    FieldsOfTypeBelow(s, t);
    DefaultTyped(s, ECustom(t));
    DefaultFits(s, ECustom(t), L32);
    SerialisableIff(s, ECustom(t), L32, v);
    var fuel := Height(v);
    assert WriteMatches(s, t, v.ms, [], fuel);
    assert StructOk(t, fs);
    assert SerializeCall(s, t, v.ms, fuel).Some?;
    assert CallMatches(s, t, v.ms, [], DeserializeCall(s, t, v.ms, [], Depth(s, t, 0)));
    forall k | 0 <= k < |fs|
      ensures fs[k].name != "bytes" && fs[k].name != "writer"
    {
      assert fs[0..] == fs;
      var out' := WroteEach(s, fs, v.ms, 0, k, [], fuel);
      if fs[k].name in {"bytes", "writer"} {
        ReservedStuck(s, fs, v.ms, k, out', fuel);
      }
    }
  }

  // ---- a correct reader needs hygienic names

  ghost predicate Running(s: TypeTable, fs: seq<Field>, k: nat, r: nat, fr: Frame, bs: seq<byte>, fuel: nat)
    requires Valid(s)
  {
    && k <= |fs| == |fr.obj|
    && DistinctNames(fs)
    && fr.inner.None?
    && fr.outer.Keys == LocalNames(fs, k)
    && IntLocals(fr.outer)
    && fr.pos <= |bs|
    && AllBelow(s, fs, r)
    && Enough(s, r, |bs| - fr.pos, fuel)
    && (fuel > 0 ==> NestedOk(s, bs, fuel - 1))
    && forall j :: k <= j < |fs| ==> TypedKind(s, fs[j].kind, fr.obj[j])
  }

  /** One field, hygienic or not, changes no other member. */
  lemma OneStep(s: TypeTable, fs: seq<Field>, k: nat, r: nat, fr: Frame, bs: seq<byte>, fuel: nat)
    requires Valid(s) && k < |fs| && Running(s, fs, k, r, fr, bs, fuel)
    ensures var out := ExecRead(s, fs, EmitRead(fs[k]), fr, bs, fuel);
            out.Next? ==>
              && Running(s, fs, k + 1, r, out.fr, bs, fuel)
              && forall j :: 0 <= j < |fs| && j != k ==> out.fr.obj[j] == fr.obj[j]
  {
    var out := ExecRead(s, fs, EmitRead(fs[k]), fr, bs, fuel);
    if ReadHygienic(fs, k) {
      FieldStep(s, fs, k, r, fr, bs, fuel);
      assert LocalNames(fs, k + 1) == LocalNames(fs, k) + LocalOf(fs[k]);
    } else {
      Unhygienic(s, fs, k, fr, bs, fuel);
    }
    if out.Next? {
      MulMono(|bs| - out.fr.pos, |bs| - fr.pos, |Order(s)|);
    }
  }

  /** Later fields leave earlier members alone. */
  lemma {:induction false} EarlierKept(s: TypeTable, fs: seq<Field>, k: nat, r: nat, fr: Frame, bs: seq<byte>, fuel: nat)
    requires Valid(s) && Running(s, fs, k, r, fr, bs, fuel)
    ensures var out := ExecRead(s, fs, EmitReads(fs[k..]), fr, bs, fuel);
            out.Next? ==> |out.fr.obj| == |fs| && forall j :: 0 <= j < k ==> out.fr.obj[j] == fr.obj[j]
    decreases |fs| - k
  {
    if k < |fs| {
      assert fs[k..][0] == fs[k] && fs[k..][1..] == fs[k + 1..];
      ExecJoin(s, fs, EmitRead(fs[k]), EmitReads(fs[k + 1..]), fr, bs, fuel);
      OneStep(s, fs, k, r, fr, bs, fuel);
      var first := ExecRead(s, fs, EmitRead(fs[k]), fr, bs, fuel);
      if first.Next? {
        EarlierKept(s, fs, k + 1, r, first.fr, bs, fuel);
      }
    }
  }

  lemma Reassociate(a: seq<ReadStmt>, b: seq<ReadStmt>, c: seq<ReadStmt>)
    ensures a + b + c == a + (b + c)
  {
  }

  lemma {:induction false} EmitReadsSplit(fs: seq<Field>, k: nat)
    requires k <= |fs|
    ensures EmitReads(fs) == EmitReads(fs[..k]) + EmitReads(fs[k..])
    decreases k
  {
    if k > 0 {
      EmitReadsSplit(fs[1..], k - 1);
      assert fs[..k][0] == fs[0] && fs[..k][1..] == fs[1..][..k - 1] && fs[1..][k - 1..] == fs[k..];
      Reassociate(EmitRead(fs[0]), EmitReads(fs[1..][..k - 1]), EmitReads(fs[k..]));
    } else {
      assert fs[..0] == [] && fs[0..] == fs;
    }
  }

  /** Where the reference decoder is when it reaches field k, having started at field j. */
  lemma {:induction false} DecReaches(s: TypeTable, fs: seq<Field>, r: nat, bs: seq<byte>, pos: nat, j: nat, k: nat)
    requires Valid(s) && AllBelow(s, fs, r) && pos <= |bs| && j <= k < |fs|
    requires AllBelow(s, fs[j..|fs|], r) && DecFields(s, fs[j..|fs|], r, bs, pos).Got?
    ensures AllBelow(s, fs[j..k], r) && Below(s, fs[k].kind, r)
    ensures var all, d := DecFields(s, fs[j..|fs|], r, bs, pos), DecFields(s, fs[j..k], r, bs, pos);
            && d.Got?
            && DecKind(s, fs[k].kind, r, bs, d.pos).Got?
            && DecKind(s, fs[k].kind, r, bs, d.pos).v == all.v[k - j]
    decreases k - j
  {
    AllBelowSlice(s, fs, r, j, k);
    DecFieldsCons(s, fs, j, |fs|, r, bs, pos);
    var a := DecKind(s, fs[j].kind, r, bs, pos);
    if j < k {
      DecFieldsCons(s, fs, j, k, r, bs, pos);
      DecReaches(s, fs, r, bs, a.pos, j + 1, k);
    }
  }

  lemma {:induction false} FirstUnhygienic(fs: seq<Field>, k: nat) returns (m: nat)
    requires k < |fs| && !ReadHygienic(fs, k)
    ensures m < |fs| && !ReadHygienic(fs, m) && forall j :: 0 <= j < m ==> ReadHygienic(fs, j)
    decreases k
  {
    if j :| 0 <= j < k && !ReadHygienic(fs, j) {
      m := FirstUnhygienic(fs, j);
    } else {
      m := k;
    }
  }

  /** The input on which the reader of a type with a clash at field k is wrong. */
  function BadInput(s: TypeTable, t: string, k: nat): seq<byte>
    requires Valid(s) && t in s && k < |s[t]|
  {
    Serialize(s, t, Sample(s, t, k))
  }

  /** Reading the encoded sample into the initial object goes wrong at the first unhygienic field, even if
      all nested calls are right. */
  lemma UnhygienicIsWrong(s: TypeTable, t: string, k: nat, fuel: nat)
    requires Valid(s) && t in s && StructOk(t, s[t])
    requires k < |s[t]| && !ReadHygienic(s[t], k) && forall j :: 0 <= j < k ==> ReadHygienic(s[t], j)
    requires fuel == Depth(s, t, |BadInput(s, t, k)|)
    requires fuel > 0 ==> NestedOk(s, BadInput(s, t, k), fuel - 1)
    ensures !RunMatches(s, t, Initial(s, t, k).ms, BadInput(s, t, k), 0, fuel)
  {
    var fs, r := s[t], Rank(s, t);
    FieldsOfTypeBelow(s, t);
    Samples(s, t, k);
    var w, init := Sample(s, t, k), Initial(s, t, k).ms;
    SerialisableIff(s, ECustom(t), L32, w);
    var bs := Enc(s, ECustom(t), L32, w).value;
    RoundTrip(s, ECustom(t), L32, w, [], []);
    assert [] + bs + [] == bs == BadInput(s, t, k);
    assert TypedFields(s, fs, init);
    UnhygienicAt(s, fs, k, r, Frame(init, map[], None, 0), bs, fuel, w.ms);
  }

  lemma NestedFromCorrect(s: TypeTable, bs: seq<byte>, fuel: nat)
    requires Valid(s) && AllCorrect(s)
    ensures fuel > 0 ==> NestedOk(s, bs, fuel - 1)
  {
    forall t, obj, pos: nat, f: nat | t in s && pos <= |bs| && Typed(s, ECustom(t), VObj(obj)) && Depth(s, t, |bs| - pos) <= f
      ensures RunMatches(s, t, obj, bs, pos, f)
    {
      assert GeneratedCorrect(s, t);
    }
  }

  lemma UnhygienicAt(s: TypeTable, fs: seq<Field>, k: nat, r: nat, fr: Frame, bs: seq<byte>, fuel: nat, ms: seq<Value>)
    requires Valid(s) && Running(s, fs, 0, r, fr, bs, fuel) && fr.pos == 0
    requires k < |fs| == |ms| && !ReadHygienic(fs, k) && forall j :: 0 <= j < k ==> ReadHygienic(fs, j)
    requires DecFields(s, fs, r, bs, 0).Got? && DecFields(s, fs, r, bs, 0).v == ms
    requires fs[k].kind.One? && fs[k].kind.e.EPrim? ==> fr.obj[k] != ms[k]
    requires fs[k].kind.Many? ==> ms[k].VArr? && |ms[k].vs| == 1
    ensures var out := ExecRead(s, fs, EmitReads(fs), fr, bs, fuel); !(out.Next? && out.fr.obj == ms)
  {
    assert fs[0..|fs|] == fs;
    DecReaches(s, fs, r, bs, 0, 0, k);
    var fr1 := ReachField(s, fs, k, r, fr, bs, fuel);
    assert fs[k..][0] == fs[k] && fs[k..][1..] == fs[k + 1..];
    ExecJoin(s, fs, EmitRead(fs[k]), EmitReads(fs[k + 1..]), fr1, bs, fuel);
    Unhygienic(s, fs, k, fr1, bs, fuel);
    OneStep(s, fs, k, r, fr1, bs, fuel);
    var out2 := ExecRead(s, fs, EmitRead(fs[k]), fr1, bs, fuel);
    assert fs[k].kind.Many? ==> !out2.Next? by {
      assert DecKind(s, fs[k].kind, r, bs, fr1.pos).v == ms[k];
    }
    if out2.Next? {
      EarlierKept(s, fs, k + 1, r, out2.fr, bs, fuel);
    }
  }

  /** Running the hygienic fields before k. */
  lemma ReachField(s: TypeTable, fs: seq<Field>, k: nat, r: nat, fr: Frame, bs: seq<byte>, fuel: nat) returns (fr1: Frame)
    requires Valid(s) && Running(s, fs, 0, r, fr, bs, fuel) && fr.pos == 0
    requires k < |fs| && forall j :: 0 <= j < k ==> ReadHygienic(fs, j)
    requires AllBelow(s, fs[0..k], r) && DecFields(s, fs[0..k], r, bs, 0).Got?
    ensures Running(s, fs, k, r, fr1, bs, fuel) && fr1.obj[k] == fr.obj[k]
    ensures fr1.pos == DecFields(s, fs[0..k], r, bs, 0).pos
    ensures ExecRead(s, fs, EmitReads(fs), fr, bs, fuel) == ExecRead(s, fs, EmitReads(fs[k..]), fr1, bs, fuel)
  {
    assert fs[0..k] == fs[..k];
    assert FieldsStart(s, fs, 0, k, r, fr, bs, fuel);
    FieldsRead(s, fs, 0, k, r, fr, bs, fuel);
    var out1, d := ExecRead(s, fs, EmitReads(fs[..k]), fr, bs, fuel), DecFields(s, fs[0..k], r, bs, 0);
    EmitReadsSplit(fs, k);
    ExecJoin(s, fs, EmitReads(fs[..k]), EmitReads(fs[k..]), fr, bs, fuel);
    fr1 := out1.fr;
    StillRunning(s, fs, k, r, fr, bs, fuel, out1, d);
  }

  lemma StillRunning(s: TypeTable, fs: seq<Field>, k: nat, r: nat, fr: Frame, bs: seq<byte>, fuel: nat, out: Outcome, d: Read<seq<Value>>)
    requires Valid(s) && Running(s, fs, 0, r, fr, bs, fuel) && fr.pos == 0 && k < |fs|
    requires d.Got? && d.pos <= |bs| && FieldsDone(fs, 0, k, fr, bs, out, d)
    ensures Running(s, fs, k, r, out.fr, bs, fuel) && out.fr.obj[k] == fr.obj[k]
  {
    assert forall j :: k <= j < |fs| ==> out.fr.obj[j] == fr.obj[j];
    MulMono(|bs| - out.fr.pos, |bs|, |Order(s)|);
  }

  lemma CorrectIsHygienic(s: TypeTable, t: string)
    requires Valid(s) && t in s && AllCorrect(s)
    ensures Hygienic(t, s[t])
  {
    assert GeneratedCorrect(s, t);
    CorrectWriterHygienic(s, t);
    forall k | 0 <= k < |s[t]|
      ensures ReadHygienic(s[t], k)
    {
      if !ReadHygienic(s[t], k) {
        var m := FirstUnhygienic(s[t], k);
        var bs := BadInput(s, t, m);
        var fuel := Depth(s, t, |bs|);
        NestedFromCorrect(s, bs, fuel);
        Samples(s, t, m);
        assert RunMatches(s, t, Initial(s, t, m).ms, bs, 0, fuel);
        UnhygienicIsWrong(s, t, m, fuel);
      }
    }
  }

  /** What is emitted for the structs of a table is correct exactly when the table is hygienic. (Whether the
      headers around the structs compile is the other half: see below.) */
  lemma CodeCorrectIffHygienic(s: TypeTable)
    requires Valid(s)
    ensures AllCorrect(s) <==> AllHygienic(s)
  {
    if AllHygienic(s) {
      HygienicIsCorrect(s);
    }
    if AllCorrect(s) {
      forall t | t in s
        ensures Hygienic(t, s[t])
      {
        CorrectIsHygienic(s, t);
      }
    }
  }

  /** The headers compile together, and all their code is correct. */
  ghost predicate Works(s: TypeTable, inc: map<string, seq<string>>, all: seq<string>) {
    HeadersCompile(s, inc, all) && Valid(s) && AllCorrect(s)
  }

  /** The generator works for a type table if and only if the table is includable and hygienic. */
  lemma GeneratorCorrectIffHygienic(s: TypeTable, inc: map<string, seq<string>>, all: seq<string>)
    requires Closed(s) && IncludeLines(s, inc) && forall t :: t in all <==> t in s
    ensures Works(s, inc, all) <==> Includable(s) && AllHygienic(s)
  {
    HeadersCompileIff(s, inc, all);
    if Includable(s) {
      IncludableIsAcyclic(s);
      CodeCorrectIffHygienic(s);
    }
  }
}
