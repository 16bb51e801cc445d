/** What IDL records mean on the wire, by the names that they hold: how long each number is and of which sign,
    which length prefix strings and arrays have, and which records are accepted. Stated without the schema
    that the parser makes of them. */
module IdlWire {
  import opened Bytes
  import opened Schema
  import opened Codec
  import opened IdlParser
  import opened IdlTheorems

  const NUMBERS: set<string> := {"u8", "u16", "u32", "u64", "i8", "i16", "i32", "i64", "f32", "f64"}
  const BUILTINS: set<string> := NUMBERS + {"bool", "string"}

  // ---- names

  /** ASCII letters, digits and underscores (codes 65 to 90, 97 to 122, 48 to 57, and 95), and no digit in
      front. */
  predicate ProperName(name: string) {
    name != "" && !(48 <= name[0] as int <= 57) && forall i :: 0 <= i < |name| ==> NameCode(name[i] as int)
  }

  predicate NameCode(c: int) {
    65 <= c <= 90 || 97 <= c <= 122 || 48 <= c <= 57 || c == 95
  }

  lemma NamesExact(name: string)
    ensures Identifier(name) <==> ProperName(name)
  {
    forall i | 0 <= i < |name|
      ensures NameCode(name[i] as int) <==> name[i] == '_' || Letter(name[i]) || Digit(name[i])
    {
    }
  }

  // ---- numbers, strings and arrays

  /** The digits of the name of a number type. */
  function Bits(t: string): nat
    requires t in NUMBERS
  {
    if t[1..] == "8" then 8 else if t[1..] == "16" then 16 else if t[1..] == "32" then 32 else 64
  }

  /** Names with an `i` hold negative numbers, too. Floats are their bit patterns. */
  predicate Holds(t: string, i: int)
    requires t in NUMBERS
  {
    var m := Pow256(Bits(t) / 8);
    if t[0] == 'i' then -(m / 2) <= i < m / 2 else 0 <= i < m
  }

  /** Two's complement, most significant byte first. */
  function NumberBytes(t: string, i: int): seq<byte>
    requires t in NUMBERS
  {
    var w := Bits(t) / 8;
    seq(w, j requires 0 <= j < w => i % Pow256(w) / Pow256(w - 1 - j) % 256)
  }

  /** How many elements or bytes a length prefix can count. */
  function Limit(lengthType: Option<string>): nat {
    if lengthType == Some("u8") then 0x100 else if lengthType == Some("u16") then 0x1_0000 else 0x1_0000_0000
  }

  /** The prefix: one byte, two, or four; four if the field does not say. */
  function Count(lengthType: Option<string>, n: nat): seq<byte> {
    if lengthType == Some("u8") then [n % 0x100]
    else if lengthType == Some("u16") then [n / 0x100 % 0x100, n % 0x100]
    else [n / 0x100_0000 % 0x100, n / 0x1_0000 % 0x100, n / 0x100 % 0x100, n % 0x100]
  }

  /** One element of the named type. A declared type is its fields: see `RecordOnWire`. */
  function ElementBytes(s: TypeTable, t: string, lengthType: Option<string>, v: Value): Option<seq<byte>> {
    if t in NUMBERS then if v.VInt? && Holds(t, v.i) then Some(NumberBytes(t, v.i)) else None
    else if t == "bool" then if v.VBool? then Some([if v.b then 1 else 0]) else None
    else if t == "string" then if v.VStr? && |v.s| < Limit(lengthType) then Some(Count(lengthType, |v.s|) + v.s) else None
    else Enc(s, ECustom(t), L32, v)
  }

  function ElementsBytes(s: TypeTable, t: string, lengthType: Option<string>, vs: seq<Value>): Option<seq<byte>> {
    if vs == [] then Some([]) else Append(ElementBytes(s, t, lengthType, vs[0]), ElementsBytes(s, t, lengthType, vs[1..]))
  }

  predicate NamesType(raw: RawField) {
    raw.ftype.Some? && (raw.ftype == Some("array") ==> raw.elementType.Some?)
  }

  function FieldBytes(s: TypeTable, raw: RawField, v: Value): Option<seq<byte>>
    requires NamesType(raw)
  {
    if raw.ftype == Some("array") then
      if v.VArr? && |v.vs| < Limit(raw.lengthType)
      then Append(Some(Count(raw.lengthType, |v.vs|)), ElementsBytes(s, raw.elementType.value, raw.lengthType, v.vs))
      else None
    else ElementBytes(s, raw.ftype.value, raw.lengthType, v)
  }

  // ---- what is accepted

  predicate ProperLength(lengthType: Option<string>) {
    lengthType in {None, Some("u8"), Some("u16"), Some("u32")}
  }

  predicate ProperField(raw: RawField, known: set<string>) {
    && raw.name.Some? && ProperName(raw.name.value) && raw.ftype.Some?
    && if raw.ftype.value == "array" then
         raw.elementType.Some? && raw.elementType.value != "" && raw.elementType.value in BUILTINS + known && ProperLength(raw.lengthType)
       else raw.ftype.value in BUILTINS + known && (raw.ftype.value == "string" ==> ProperLength(raw.lengthType))
  }

  lemma BuiltinsExact(t: string)
    ensures Builtin(t).Some? <==> t in BUILTINS
  {
  }

  lemma FieldAcceptedIff(raw: RawField, known: set<string>)
    ensures ParseField(raw, known).Success? <==> ProperField(raw, known)
    ensures ParseField(raw, known).Success? ==> ParseField(raw, known).value.name == raw.name.value
  {
    if raw.name.Some? {
      NamesExact(raw.name.value);
    }
    if raw.ftype.Some? {
      BuiltinsExact(raw.ftype.value);
    }
    if raw.elementType.Some? {
      BuiltinsExact(raw.elementType.value);
    }
  }

  /** What is wrong with a field that is not accepted: the first of the checks that fails. */
  function FieldFault(raw: RawField, known: set<string>): IdlError
    requires !ProperField(raw, known)
  {
    if raw.name == None || raw.ftype == None then MissingKey
    else if !ProperName(raw.name.value) then BadIdentifier(raw.name.value)
    else if raw.ftype.value == "array" && raw.elementType in {None, Some("")} then MissingElementType
    else if raw.ftype.value == "array" && raw.elementType.value !in BUILTINS + known then UnknownElementType(raw.elementType.value)
    else if raw.ftype.value in {"array", "string"} then BadLengthType
    else UnknownType(raw.ftype.value)
  }

  lemma FieldFaultExact(raw: RawField, known: set<string>)
    requires !ProperField(raw, known)
    ensures ParseField(raw, known) == Failure(FieldFault(raw, known))
  {
    if raw.name.Some? {
      NamesExact(raw.name.value);
    }
    if raw.ftype.Some? {
      BuiltinsExact(raw.ftype.value);
    }
    if raw.elementType.Some? {
      BuiltinsExact(raw.elementType.value);
    }
  }

  // ---- what it means

  /** A number type, by its name. */
  lemma NumberNamed(t: string)
    requires t in NUMBERS
    ensures Builtin(t).Some? && Builtin(t).value.EPrim? && !Builtin(t).value.p.Bool?
    ensures var p := Builtin(t).value.p;
            Width(p) == Bits(t) / 8 && Modulus(p) == Pow256(Bits(t) / 8) && forall i :: IntInRange(p, i) <==> Holds(t, i)
  {
    Pow256Values();
  }

  lemma NumberOnWire(s: TypeTable, t: string, lt: LenType, v: Value)
    requires t in NUMBERS && Builtin(t).Some?
    ensures Enc(s, Builtin(t).value, lt, v) == if v.VInt? && Holds(t, v.i) then Some(NumberBytes(t, v.i)) else None
  {
    NumberNamed(t);
    var p := Builtin(t).value.p;
    if v.VInt? && Holds(t, v.i) {
      Reduced(p, v.i);
      DigitsOf(Width(p), v.i % Pow256(Width(p)));
      assert EncPrim(p, v) == NumberBytes(t, v.i);
    }
  }

  lemma DigitsOf(w: nat, u: nat)
    ensures BE(w, u) == seq(w, j requires 0 <= j < w => u / Pow256(w - 1 - j) % 256)
  {
    forall j | 0 <= j < w
      ensures BE(w, u)[j] == u / Pow256(w - 1 - j) % 256
    {
      BEAt(w, u, w - 1 - j);
    }
  }

  lemma Reduced(p: Prim, i: int)
    requires IntInRange(p, i)
    ensures ToUnsigned(p, i) == i % Modulus(p)
  {
    CastRoundTrip(p, i);
  }

  lemma CountWritten(lengthType: Option<string>, n: nat)
    requires ProperLength(lengthType)
    ensures LengthType(lengthType).Some?
    ensures var lt := LengthType(lengthType).value; BE(LenWidth(lt), n) == Count(lengthType, n) && MaxLen(lt) + 1 == Limit(lengthType)
  {
    assert BE(1, n) == [n % 256];
    assert BE(2, n) == BE(1, n / 256) + [n % 256] && BE(1, n / 256) == [n / 256 % 256];
    if lengthType != Some("u8") && lengthType != Some("u16") {
      FourBytes(n);
    }
  }

  lemma FourBytes(n: nat)
    ensures BE(4, n) == [n / 0x100_0000 % 0x100, n / 0x1_0000 % 0x100, n / 0x100 % 0x100, n % 0x100]
  {
    var a, b, c := n / 0x100, n / 0x1_0000, n / 0x100_0000;
    assert a / 0x100 == b && b / 0x100 == c;
    assert BE(1, c) == [c % 0x100];
    assert BE(2, b) == BE(1, c) + [b % 0x100];
    assert BE(3, a) == BE(2, b) + [a % 0x100];
  }

  /** One element. The length type matters to strings only. */
  lemma ElementOnWire(s: TypeTable, t: string, known: set<string>, lengthType: Option<string>, lt: LenType, v: Value)
    requires t in BUILTINS + known && Resolve(t, known).Some?
    requires t == "string" ==> ProperLength(lengthType) && LengthType(lengthType) == Some(lt)
    ensures Enc(s, Resolve(t, known).value, lt, v) == ElementBytes(s, t, lengthType, v)
  {
    BuiltinsExact(t);
    if t in NUMBERS {
      NumberOnWire(s, t, lt, v);
    } else if t == "string" && v.VStr? {
      CountWritten(lengthType, |v.s|);
    } else if t !in BUILTINS {
      DeclaredOnWire(s, t, lt, v);
    }
  }

  lemma DeclaredOnWire(s: TypeTable, t: string, lt: LenType, v: Value)
    ensures Enc(s, ECustom(t), lt, v) == Enc(s, ECustom(t), L32, v)
  {
  }

  lemma {:induction false} ElementsOnWire(s: TypeTable, t: string, known: set<string>, lengthType: Option<string>, lt: LenType, vs: seq<Value>)
    requires t in BUILTINS + known && Resolve(t, known).Some? && ProperLength(lengthType) && LengthType(lengthType) == Some(lt)
    ensures EncAll(s, Resolve(t, known).value, lt, vs) == ElementsBytes(s, t, lengthType, vs)
    decreases |vs|
  {
    if vs != [] {
      ElementOnWire(s, t, known, lengthType, lt, vs[0]);
      ElementsOnWire(s, t, known, lengthType, lt, vs[1..]);
    }
  }

  /** The encoding of an accepted field, whatever its value, is what the names in its record say. */
  lemma FieldOnWire(s: TypeTable, raw: RawField, known: set<string>, v: Value)
    requires ParseField(raw, known).Success?
    ensures ProperField(raw, known) && NamesType(raw) && EncKind(s, ParseField(raw, known).value.kind, v) == FieldBytes(s, raw, v)
  {
    FieldAcceptedIff(raw, known);
    if raw.ftype.value == "array" {
      BuiltinsExact(raw.elementType.value);
      var lt := LengthType(raw.lengthType).value;
      if v.VArr? {
        CountWritten(raw.lengthType, |v.vs|);
        ElementsOnWire(s, raw.elementType.value, known, raw.lengthType, lt, v.vs);
      }
    } else {
      BuiltinsExact(raw.ftype.value);
      ElementOnWire(s, raw.ftype.value, known, raw.lengthType, ParseField(raw, known).value.kind.lt, v);
    }
  }

  // ---- whole records

  ghost predicate AllTyped(raws: seq<RawField>) {
    forall k :: 0 <= k < |raws| ==> NamesType(raws[k])
  }

  ghost function RecordBytes(s: TypeTable, raws: seq<RawField>, ms: seq<Value>): Option<seq<byte>>
    requires |raws| == |ms| && AllTyped(raws)
  {
    if raws == [] then Some([]) else Append(FieldBytes(s, raws[0], ms[0]), RecordBytes(s, raws[1..], ms[1..]))
  }

  lemma {:induction false} FieldsOnWire(s: TypeTable, raws: seq<RawField>, known: set<string>, fs: seq<Field>, ms: seq<Value>)
    requires |raws| == |fs| == |ms|
    requires forall k :: 0 <= k < |raws| ==> ParseField(raws[k], known) == Success(fs[k])
    ensures AllTyped(raws) && EncFields(s, fs, ms) == RecordBytes(s, raws, ms)
    decreases |raws|
  {
    forall k | 0 <= k < |raws|
      ensures NamesType(raws[k])
    {
      FieldAcceptedIff(raws[k], known);
    }
    if raws != [] {
      FieldOnWire(s, raws[0], known, ms[0]);
      FieldsOnWire(s, raws[1..], known, fs[1..], ms[1..]);
    }
  }

  /** For all accepted sources: an object of a declared type or message is encoded as its record says, field
      after field. */
  lemma RecordOnWire(files: seq<RawFile>, i: nat, lt: LenType, ms: seq<Value>)
    requires ParseIdl(files).Success? && i < |AllItems(files)|
    ensures var raw := AllItems(files)[i].raw;
            && raw.name.Some? && raw.fields.Some?
            && (forall k :: 0 <= k < |raw.fields.value| ==> ProperField(raw.fields.value[k], Names(AllItems(files))))
            && AllTyped(raw.fields.value)
            && var s := Table(ParseIdl(files).value.defs);
               Enc(s, ECustom(raw.name.value), lt, VObj(ms)) ==
               if |ms| == |raw.fields.value| then RecordBytes(s, raw.fields.value, ms) else None
  {
    var items, defs := AllItems(files), ParseIdl(files).value.defs;
    AcceptedIffAcceptable(files);
    AcceptedMeans(files);
    ParsedTableIsClosed(files);
    assert ItemFresh(items[i], {});
    var raws, known := items[i].raw.fields.value, Names(items);
    assert Defines(defs[i], PendingOf(items[i]), FieldParser(known));
    forall k | 0 <= k < |raws|
      ensures ParseField(raws[k], known) == Success(defs[i].fields[k]) && ProperField(raws[k], known)
    {
      FieldAcceptedIff(raws[k], known);
    }
    if |ms| == |raws| {
      FieldsOnWire(Table(defs), raws, known, defs[i].fields, ms);
    }
  }

  // ---- whole sources

  predicate ProperItem(it: Item, names: set<string>) {
    && it.raw.name.Some? && ProperName(it.raw.name.value) && it.raw.fields.Some? && it.raw.fields.value != []
    && forall k :: 0 <= k < |it.raw.fields.value| ==> ProperField(it.raw.fields.value[k], names)
  }

  function NamespaceText(f: RawFile): string {
    if f.namespace == None then "someip::generated" else f.namespace.value
  }

  /** One namespace, lists for sections, and records with names of their own and proper fields. */
  ghost predicate ProperSources(files: seq<RawFile>) {
    var items := AllItems(files);
    && files != []
    && (forall i :: 0 <= i < |files| ==> NamespaceText(files[i]) == NamespaceText(files[0]) && !files[i].types.NotAList? && !files[i].messages.NotAList?)
    && (forall i :: 0 <= i < |items| ==> ProperItem(items[i], Names(items)))
    && (forall i, j :: 0 <= i < j < |items| ==> items[i].raw.name != items[j].raw.name)
  }

  lemma RecordFieldsExact(raw: RawType, known: set<string>)
    requires raw.fields.Some? && "" !in known
    ensures FieldsOk(raw, known) <==> forall k :: 0 <= k < |raw.fields.value| ==> ProperField(raw.fields.value[k], known)
  {
    forall k | 0 <= k < |raw.fields.value|
      ensures FieldOk(raw.fields.value[k], known) <==> ProperField(raw.fields.value[k], known)
    {
      FieldAcceptedIff(raw.fields.value[k], known);
      ParseFieldExact(raw.fields.value[k], known);
    }
  }

  lemma ItemExact(it: Item)
    ensures ItemOk(it.raw) <==> it.raw.name.Some? && ProperName(it.raw.name.value) && it.raw.fields.Some? && it.raw.fields.value != []
  {
    if it.raw.name.Some? {
      NamesExact(it.raw.name.value);
    }
  }

  lemma ItemsExact(items: seq<Item>)
    requires Fresh(items, {})
    ensures forall i :: 0 <= i < |items| ==> (FieldsOk(items[i].raw, Names(items)) <==> ProperItem(items[i], Names(items)))
  {
    NoEmptyName(items);
    forall i | 0 <= i < |items|
      ensures FieldsOk(items[i].raw, Names(items)) <==> ProperItem(items[i], Names(items))
    {
      assert ItemFresh(items[i], {});
      ItemExact(items[i]);
      RecordFieldsExact(items[i].raw, Names(items));
    }
  }

  lemma FreshExact(items: seq<Item>)
    ensures Fresh(items, {}) <==>
            (forall i :: 0 <= i < |items| ==> ItemOk(items[i].raw)) && (forall i, j :: 0 <= i < j < |items| ==> items[i].raw.name != items[j].raw.name)
  {
    if Fresh(items, {}) {
      assert forall i :: 0 <= i < |items| ==> ItemFresh(items[i], {});
      assert forall i, j :: 0 <= i < j < |items| ==> DifferentNames(items[i], items[j]);
    }
  }

  /** Sources are accepted exactly when they are proper; the result is in their namespace. */
  lemma AcceptedIffProper(files: seq<RawFile>)
    ensures ParseIdl(files).Success? <==> ProperSources(files)
    ensures ParseIdl(files).Success? ==> ParseIdl(files).value.namespace == NamespaceText(files[0])
  {
    var items := AllItems(files);
    AcceptedIffAcceptable(files);
    FreshExact(items);
    if Fresh(items, {}) {
      ItemsExact(items);
    }
    forall i | 0 <= i < |items|
      ensures ProperItem(items[i], Names(items)) ==> ItemOk(items[i].raw)
    {
      ItemExact(items[i]);
    }
  }

  /** What is wrong with a record in the first pass: the first of the checks that fails. */
  function ItemFault(item: RawType, earlier: set<string>): Option<IdlError> {
    if item.name in {None, Some("")} then Some(MissingName)
    else if !ProperName(item.name.value) then Some(BadIdentifier(item.name.value))
    else if item.name.value in earlier then Some(DuplicateName(item.name.value))
    else if item.fields in {None, Some([])} then Some(BadFields(item.name.value))
    else None
  }

  lemma ItemFaultExact(st: Scan, category: Category, item: RawType)
    ensures ScanItem(st, category, item).Failure? <==> ItemFault(item, st.known).Some?
    ensures ScanItem(st, category, item).Failure? ==> Some(ScanItem(st, category, item).error) == ItemFault(item, st.known)
  {
    if item.name.Some? {
      NamesExact(item.name.value);
    }
  }

  // ---- which fault is reported

  /** Record i is the first one that is faulty, given the names before it. */
  ghost predicate FirstBadItem(items: seq<Item>, i: nat, earlier: set<string>) {
    && i < |items| && ItemFault(items[i].raw, earlier + Names(items[..i])).Some?
    && forall j :: 0 <= j < i ==> ItemFault(items[j].raw, earlier + Names(items[..j])).None?
  }

  lemma {:induction false} ScanFault(st: Scan, items: seq<Item>, i: nat)
    requires FirstBadItem(items, i, st.known)
    ensures ScanAll(st, items) == Failure(ItemFault(items[i].raw, st.known + Names(items[..i])).value)
    decreases |items|
  {
    ItemFaultExact(st, items[0].category, items[0].raw);
    assert items[..0] == [] && st.known + Names([]) == st.known;
    if i > 0 {
      var next := ScanItem(st, items[0].category, items[0].raw).value;
      ScanItemExact(st, items[0]);
      BadInTail(items, i, st.known, next.known);
      ScanFault(next, items[1..], i - 1);
    }
  }

  lemma BadInTail(items: seq<Item>, i: nat, earlier: set<string>, next: set<string>)
    requires FirstBadItem(items, i, earlier) && i > 0 && next == earlier + {ItemName(items[0])}
    ensures FirstBadItem(items[1..], i - 1, next)
    ensures next + Names(items[1..][..i - 1]) == earlier + Names(items[..i])
  {
    forall j | 0 <= j < i
      ensures next + Names(items[1..][..j]) == earlier + Names(items[..j + 1])
    {
      NamesStep(items[..j + 1]);
      assert items[..j + 1][1..] == items[1..][..j] && items[..j + 1][0] == items[0];
    }
    forall j | 0 <= j < i - 1
      ensures ItemFault(items[1..][j].raw, next + Names(items[1..][..j])).None?
    {
      assert items[1..][j] == items[j + 1];
    }
  }

  lemma {:induction false} CompatibleScan(st: Scan, files: seq<RawFile>)
    requires st.namespace.Some? && forall i :: 0 <= i < |files| ==> Compatible(files[i], st.namespace.value)
    ensures ScanFiles(st, files) == ScanAll(st, AllItems(files))
    decreases |files|
  {
    if files != [] {
      var f := files[0];
      var types, messages := SectionItems(TypeCategory, f.types), SectionItems(MessageCategory, f.messages);
      assert st.(namespace := Some(NamespaceOf(f))) == st;
      SectionScans(st, TypeCategory, f.types);
      ScanAllAppend(st, types, messages);
      if ScanAll(st, types).Success? {
        SectionScans(ScanAll(st, types).value, MessageCategory, f.messages);
      }
      ScanAllAppend(st, FileItems(f), AllItems(files[1..]));
      ScanKeepsNamespace(st, FileItems(f));
      if ScanAll(st, FileItems(f)).Success? {
        CompatibleScan(ScanAll(st, FileItems(f)).value, files[1..]);
      }
    }
  }

  /** Among sources of one namespace, with lists for sections: the first faulty record decides the error, if
      there is one... */
  lemma {:induction false} FirstBadItemReported(files: seq<RawFile>, i: nat)
    requires files != [] && forall j :: 0 <= j < |files| ==> Compatible(files[j], NamespaceOf(files[0]))
    requires FirstBadItem(AllItems(files), i, {})
    ensures ParseIdl(files) == Failure(ItemFault(AllItems(files)[i].raw, Names(AllItems(files)[..i])).value)
  {
    var st := NOTHING_SCANNED.(namespace := Some(NamespaceOf(files[0])));
    assert ScanFile(NOTHING_SCANNED, files[0]) == ScanFile(st, files[0]);
    assert ScanFiles(NOTHING_SCANNED, files) == ScanFiles(st, files);
    CompatibleScan(st, files);
    ScanFault(st, AllItems(files), i);
    assert {} + Names(AllItems(files)[..i]) == Names(AllItems(files)[..i]);
  }

  /** Field k of record i is the first one that is not proper. */
  ghost predicate FirstBadField(items: seq<Item>, i: nat, k: nat, known: set<string>) {
    && i < |items| && items[i].raw.fields.Some? && k < |items[i].raw.fields.value| && !ProperField(items[i].raw.fields.value[k], known)
    && (forall j :: 0 <= j < k ==> ProperField(items[i].raw.fields.value[j], known))
    && forall a, j :: 0 <= a < i && items[a].raw.fields.Some? && 0 <= j < |items[a].raw.fields.value| ==> ProperField(items[a].raw.fields.value[j], known)
  }

  lemma {:induction false} FieldsFault(known: set<string>, done: seq<Field>, raws: seq<RawField>, k: nat)
    requires k < |raws| && !ProperField(raws[k], known) && forall j :: 0 <= j < k ==> ProperField(raws[j], known)
    ensures ParseFields(FieldParser(known), done, raws) == Failure(FieldFault(raws[k], known))
    decreases |raws|
  {
    FieldFaultExact(raws[k], known);
    if k > 0 {
      FieldAcceptedIff(raws[0], known);
      FieldsFault(known, done + [ParseField(raws[0], known).value], raws[1..], k - 1);
    }
  }

  lemma {:induction false} DefsFault(known: set<string>, done: seq<TypeDef>, items: seq<Item>, pending: seq<Pending>, i: nat, k: nat)
    requires pending == PendingAll(items) && FirstBadField(items, i, k, known)
    ensures ParseDefs(FieldParser(known), done, pending) == Failure(FieldFault(items[i].raw.fields.value[k], known))
    decreases |items|
  {
    var raws := pending[0].fields;
    if i == 0 {
      FieldsFault(known, [], raws, k);
    } else {
      forall j | 0 <= j < |raws|
        ensures ParseField(raws[j], known).Success?
      {
        FieldAcceptedIff(raws[j], known);
      }
      AllFieldsParsed(known, raws);
      var d := TypeDef(pending[0].name, ParseFields(FieldParser(known), [], raws).value, pending[0].category);
      assert pending[1..] == PendingAll(items[1..]);
      DefsFault(known, done + [d], items[1..], pending[1..], i - 1, k);
    }
  }

  lemma AllFieldsParsed(known: set<string>, raws: seq<RawField>)
    requires forall j :: 0 <= j < |raws| ==> ParseField(raws[j], known).Success?
    ensures ParseFields(FieldParser(known), [], raws).Success?
  {
    FieldsExact(FieldParser(known), [], raws);
  }

  /** ... and otherwise the first field that is not proper, if there is one. */
  lemma {:induction false} FirstBadFieldReported(files: seq<RawFile>, i: nat, k: nat)
    requires files != [] && forall j :: 0 <= j < |files| ==> Compatible(files[j], NamespaceOf(files[0]))
    requires Fresh(AllItems(files), {}) && FirstBadField(AllItems(files), i, k, Names(AllItems(files)))
    ensures ParseIdl(files) == Failure(FieldFault(AllItems(files)[i].raw.fields.value[k], Names(AllItems(files))))
  {
    ScanIsAll(files);
    DefsFault(Names(AllItems(files)), [], AllItems(files), PendingAll(AllItems(files)), i, k);
  }
}
