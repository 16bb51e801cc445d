/** The generator on what its parser accepts, and on inputs that show why its implicit conditions are needed. */
module ParsedTables {
  import opened Bytes
  import opened Schema
  import opened IdlParser
  import opened IdlTheorems
  import opened GeneratedReader
  import opened GeneratedCode
  import opened GeneratorHygiene
  import opened Headers

  /** For everything the parser accepts: the generated project works exactly when no two types refer to each
      other in a circle, none contains itself, and all names are hygienic. */
  lemma ParsedGeneratorCorrect(files: seq<RawFile>, inc: map<string, seq<string>>, all: seq<string>)
    requires ParseIdl(files).Success?
    requires var s := Table(ParseIdl(files).value.defs); IncludeLines(s, inc) && forall t :: t in all <==> t in s
    ensures var s := Table(ParseIdl(files).value.defs); Works(s, inc, all) <==> Includable(s) && AllHygienic(s)
  {
    ParsedTableIsClosed(files);
    GeneratorCorrectIffHygienic(Table(ParseIdl(files).value.defs), inc, all);
  }

  const SELF_FIELD := RawField(Some("a"), Some("A"), None, None)
  const SELF_TYPE := RawType(Some("A"), Some([SELF_FIELD]))
  const SELF_FILE := RawFile(None, Items([SELF_TYPE]), Absent)

  /** The parser does accept a type that contains itself by value, which no C++ compiler does. */
  lemma ParserAllowsContainmentCycle()
    ensures ParseIdl([SELF_FILE]).Success? && !Acyclic(Table(ParseIdl([SELF_FILE]).value.defs))
  {
    var items := AllItems([SELF_FILE]);
    assert [SELF_FILE][1..] == [];
    assert SectionItems(TypeCategory, SELF_FILE.types) == [Item(TypeCategory, SELF_TYPE)];
    assert items == [Item(TypeCategory, SELF_TYPE)] + [] + AllItems([]);
    assert items[0] == Item(TypeCategory, SELF_TYPE) && ItemName(items[0]) == "A" && "A" in Names(items);
    assert FieldOk(SELF_FIELD, Names(items));
    assert ItemFresh(items[0], {});
    AcceptedIffAcceptable([SELF_FILE]);
    AcceptedMeans([SELF_FILE]);
    ParsedTableIsClosed([SELF_FILE]);
    var defs := ParseIdl([SELF_FILE]).value.defs;
    assert Defines(defs[0], PendingOf(items[0]), FieldParser(Names(items)));
    SelfContained(Table(defs));
  }

  lemma SelfContained(s: TypeTable)
    requires "A" in s && |s["A"]| == 1 && s["A"][0].kind == One(ECustom("A"), L32)
    ensures !Acyclic(s)
  {
    forall order: seq<string>
      ensures !DefinitionOrder(s, order)
    {
      var r := Index(order, "A");
      assert DefinitionOrder(s, order) ==> FieldsBelow(order, s["A"], r);
      assert FieldsBelow(order, s["A"], r) ==> KindBelow(order, s["A"][0].kind, r);
    }
  }

  const ARRAY_OF_A := RawField(Some("as"), Some("array"), Some("A"), None)
  const ARRAY_OF_B := RawField(Some("bs"), Some("array"), Some("B"), None)
  const TYPE_A := RawType(Some("A"), Some([ARRAY_OF_B]))
  const TYPE_B := RawType(Some("B"), Some([ARRAY_OF_A]))
  const MUTUAL_FILE := RawFile(None, Items([TYPE_A, TYPE_B]), Absent)

  /** It also accepts two types that hold arrays of each other. The codec can deal with them, but each of
      the two headers needs the other one's struct first. */
  lemma ParserAllowsMutualArrays()
    ensures ParseIdl([MUTUAL_FILE]).Success? && !Includable(Table(ParseIdl([MUTUAL_FILE]).value.defs))
  {
    var items, a, b := AllItems([MUTUAL_FILE]), Item(TypeCategory, TYPE_A), Item(TypeCategory, TYPE_B);
    assert [MUTUAL_FILE][1..] == [];
    assert SectionItems(TypeCategory, MUTUAL_FILE.types) == [a, b];
    assert items == [a, b] + [] + AllItems([]);
    assert items[0] == a && items[1] == b && ItemName(a) == "A" && ItemName(b) == "B" && {"A", "B"} <= Names(items);
    assert FieldOk(ARRAY_OF_A, Names(items)) && FieldOk(ARRAY_OF_B, Names(items));
    assert ItemFresh(a, {}) && ItemFresh(b, {}) && DifferentNames(a, b);
    AcceptedIffAcceptable([MUTUAL_FILE]);
    AcceptedMeans([MUTUAL_FILE]);
    ParsedTableIsClosed([MUTUAL_FILE]);
    var defs := ParseIdl([MUTUAL_FILE]).value.defs;
    assert Defines(defs[0], PendingOf(a), FieldParser(Names(items))) && Defines(defs[1], PendingOf(b), FieldParser(Names(items)));
    assert defs[0].fields[0].kind.e == ECustom("B") && defs[1].fields[0].kind.e == ECustom("A");
    MutualReference(Table(defs), "A", 0, "B", 0);
  }

  /** An array `x` beside a field `xLen`: the field is read into the array's length variable, so the
      generated code is wrong. */
  lemma LengthFieldBesideArray(s: TypeTable, t: string, x: string, e: Elem, p: Prim, lt: LenType)
    requires Valid(s) && t in s && s[t] == [Field(x, Many(e, lt)), Field(x + "Len", One(EPrim(p), L32))]
    ensures !AllCorrect(s)
  {
    var fs := s[t];
    LocalStays(fs, 0, 2, x + "Len");
    assert !ReadHygienic(fs, 1);
    assert !Hygienic(t, fs);
    CodeCorrectIffHygienic(s);
  }

  /** Two bools in one type: the second declares `b` again. */
  lemma TwoBools(s: TypeTable, t: string, j: nat, k: nat)
    requires Valid(s) && t in s && j < k < |s[t]|
    requires s[t][j].kind.One? && s[t][j].kind.e == EPrim(Bool) && s[t][k].kind.One? && s[t][k].kind.e == EPrim(Bool)
    ensures !AllCorrect(s)
  {
    LocalStays(s[t], j, k, "b");
    assert "b" in LocalOf(s[t][k]);
    assert !ReadHygienic(s[t], k);
    assert !Hygienic(t, s[t]);
    CodeCorrectIffHygienic(s);
  }

  /** An array of a type named like the loop counter: the element cannot be declared. */
  lemma ElementTypeNamedI(s: TypeTable, t: string, k: nat)
    requires Valid(s) && t in s && k < |s[t]| && s[t][k].kind.Many? && s[t][k].kind.e == ECustom("i")
    ensures !AllCorrect(s)
  {
    assert !ReadHygienic(s[t], k);
    assert !Hygienic(t, s[t]);
    CodeCorrectIffHygienic(s);
  }

  /** A field with the name of a type that the struct uses, as in an array `Foo` of `Foo`. */
  lemma FieldNamedLikeElementType(s: TypeTable, t: string, j: nat, k: nat)
    requires Valid(s) && t in s && j < |s[t]| && k < |s[t]| && s[t][k].kind.e == ECustom(s[t][j].name)
    ensures !AllCorrect(s)
  {
    assert MemberNamed(s[t], s[t][j].name);
    assert !NamesType(t, s[t], s[t][k].kind.e);
    assert !Hygienic(t, s[t]);
    CodeCorrectIffHygienic(s);
  }

  /** A field with the name of a method of the struct or of its base class. */
  lemma FieldNamedLikeMethod(s: TypeTable, t: string, j: nat)
    requires Valid(s) && t in s && j < |s[t]| && s[t][j].name in {"serializeTo", "deserializeFromReader", "serialize", "deserialize"}
    ensures !AllCorrect(s)
  {
    assert MemberNamed(s[t], s[t][j].name);
    assert !Hygienic(t, s[t]);
    CodeCorrectIffHygienic(s);
  }

  lemma {:induction false} LocalStays(fs: seq<Field>, j: nat, k: nat, x: string)
    requires j < k <= |fs| && x in LocalOf(fs[j])
    ensures x in LocalNames(fs, k)
  {
    if k > j + 1 {
      LocalStays(fs, j, k - 1, x);
    }
  }
}
