/** From raw IDL records to a type table: parse_field and parse_idl_sources of
    tools/someip_idl/generate_someip_params.py. Records are what JSON reading yields; keys that may be absent
    are optional. */
module IdlParser {
  import opened Bytes
  import opened Schema

  datatype RawField = RawField(name: Option<string>, ftype: Option<string>, elementType: Option<string>, lengthType: Option<string>)

  /** `fields` is None when the key is absent or does not hold a list. */
  datatype RawType = RawType(name: Option<string>, fields: Option<seq<RawField>>)

  datatype Section = Absent | NotAList | Items(items: seq<RawType>)

  datatype RawFile = RawFile(namespace: Option<string>, types: Section, messages: Section)

  datatype Category = TypeCategory | MessageCategory

  datatype TypeDef = TypeDef(name: string, fields: seq<Field>, category: Category)

  datatype Idl = Idl(namespace: string, defs: seq<TypeDef>)

  datatype IdlError =
    | MissingKey
    | BadIdentifier(name: string)
    | MissingElementType
    | UnknownElementType(t: string)
    | BadLengthType
    | UnknownType(t: string)
    | NamespaceMismatch
    | SectionNotArray
    | MissingName
    | DuplicateName(name: string)
    | BadFields(name: string)
    | NoFiles

  // ---- names

  predicate Letter(c: char) {
    'a' <= c <= 'z' || 'A' <= c <= 'Z'
  }

  predicate Digit(c: char) {
    '0' <= c <= '9'
  }

  predicate Identifier(name: string) {
    && name != []
    && (forall i :: 0 <= i < |name| ==> name[i] == '_' || Letter(name[i]) || Digit(name[i]))
    && !Digit(name[0])
  }

  /** The keys of PRIMITIVE_CPP_TYPES, strings included. */
  function Builtin(t: string): Option<Elem> {
    if t == "u8" then Some(EPrim(U8)) else if t == "u16" then Some(EPrim(U16))
    else if t == "u32" then Some(EPrim(U32)) else if t == "u64" then Some(EPrim(U64))
    else if t == "i8" then Some(EPrim(I8)) else if t == "i16" then Some(EPrim(I16))
    else if t == "i32" then Some(EPrim(I32)) else if t == "i64" then Some(EPrim(I64))
    else if t == "f32" then Some(EPrim(F32)) else if t == "f64" then Some(EPrim(F64))
    else if t == "bool" then Some(EPrim(Bool)) else if t == "string" then Some(EStr)
    else None
  }

  function LengthType(t: Option<string>): Option<LenType> {
    if t == None || t == Some("u32") then Some(L32)
    else if t == Some("u16") then Some(L16)
    else if t == Some("u8") then Some(L8)
    else None
  }

  /** What a type name stands for: builtin names come first, even when a type is declared under one. */
  function Resolve(t: string, known: set<string>): Option<Elem> {
    if Builtin(t).Some? then Builtin(t) else if t in known then Some(ECustom(t)) else None
  }

  // ---- fields

  function ParseField(raw: RawField, known: set<string>): Result<Field, IdlError> {
    if raw.name == None || raw.ftype == None then Failure(MissingKey)
    else if !Identifier(raw.name.value) then Failure(BadIdentifier(raw.name.value))
    else if raw.ftype.value == "array" then
      if raw.elementType == None || raw.elementType.value == "" then Failure(MissingElementType)
      else if Builtin(raw.elementType.value) == None && raw.elementType.value !in known then Failure(UnknownElementType(raw.elementType.value))
      else if LengthType(raw.lengthType) == None then Failure(BadLengthType)
      else Success(Field(raw.name.value, Many(Resolve(raw.elementType.value, known).value, LengthType(raw.lengthType).value)))
    else if Builtin(raw.ftype.value).Some? then
      if raw.ftype.value == "string" && LengthType(raw.lengthType) == None then Failure(BadLengthType)
      else if raw.ftype.value == "string" then Success(Field(raw.name.value, One(EStr, LengthType(raw.lengthType).value)))
      else Success(Field(raw.name.value, One(Builtin(raw.ftype.value).value, L32)))
    else if raw.ftype.value in known then Success(Field(raw.name.value, One(ECustom(raw.ftype.value), L32)))
    else Failure(UnknownType(raw.ftype.value))
  }

  /** The name of the type a field refers to: its element type if it is an array. */
  function Referred(raw: RawField): Option<string> {
    if raw.ftype == Some("array") then raw.elementType else raw.ftype
  }

  /** Only arrays and strings have a length prefix. */
  predicate Prefixed(raw: RawField) {
    raw.ftype == Some("array") || raw.ftype == Some("string")
  }

  predicate FieldOk(raw: RawField, known: set<string>) {
    && raw.name.Some? && Identifier(raw.name.value) && raw.ftype.Some?
    && Referred(raw).Some? && Referred(raw).value != "" && Resolve(Referred(raw).value, known).Some?
    && (Prefixed(raw) ==> LengthType(raw.lengthType).Some?)
  }

  /** A field is accepted exactly when it is named properly, refers to something known and, if it has a
      length prefix, gives that a proper type; it means what it refers to. No known type has an empty name. */
  lemma ParseFieldExact(raw: RawField, known: set<string>)
    requires "" !in known
    ensures ParseField(raw, known).Success? <==> FieldOk(raw, known)
    ensures ParseField(raw, known).Success? ==>
            var f := ParseField(raw, known).value;
            && f.name == raw.name.value
            && f.kind.Many? == (raw.ftype == Some("array"))
            && Some(f.kind.e) == Resolve(Referred(raw).value, known)
            && (Prefixed(raw) ==> Some(f.kind.lt) == LengthType(raw.lengthType))
  {
  }

  // ---- first pass: names

  datatype Pending = Pending(category: Category, name: string, fields: seq<RawField>)

  datatype Scan = Scan(namespace: Option<string>, known: set<string>, pending: seq<Pending>)

  function ScanItem(st: Scan, category: Category, item: RawType): Result<Scan, IdlError> {
    if item.name == None || item.name.value == "" then Failure(MissingName)
    else if !Identifier(item.name.value) then Failure(BadIdentifier(item.name.value))
    else if item.name.value in st.known then Failure(DuplicateName(item.name.value))
    else if item.fields == None || item.fields.value == [] then Failure(BadFields(item.name.value))
    else Success(st.(known := st.known + {item.name.value},
                     pending := st.pending + [Pending(category, item.name.value, item.fields.value)]))
  }

  function ScanItems(st: Scan, category: Category, items: seq<RawType>): Result<Scan, IdlError>
    decreases |items|
  {
    if items == [] then Success(st)
    else
      var next := ScanItem(st, category, items[0]);
      if next.Failure? then next else ScanItems(next.value, category, items[1..])
  }

  function ScanSection(st: Scan, category: Category, section: Section): Result<Scan, IdlError> {
    if section.NotAList? then Failure(SectionNotArray)
    else if section.Absent? then Success(st)
    else ScanItems(st, category, section.items)
  }

  function NamespaceOf(f: RawFile): string {
    if f.namespace.Some? then f.namespace.value else "someip::generated"
  }

  function ScanFile(st: Scan, f: RawFile): Result<Scan, IdlError> {
    if st.namespace.Some? && st.namespace.value != NamespaceOf(f) then Failure(NamespaceMismatch)
    else
      var types := ScanSection(st.(namespace := Some(NamespaceOf(f))), TypeCategory, f.types);
      if types.Failure? then types else ScanSection(types.value, MessageCategory, f.messages)
  }

  function ScanFiles(st: Scan, files: seq<RawFile>): Result<Scan, IdlError>
    decreases |files|
  {
    if files == [] then Success(st)
    else
      var next := ScanFile(st, files[0]);
      if next.Failure? then next else ScanFiles(next.value, files[1..])
  }

  const NOTHING_SCANNED := Scan(None, {}, [])

  // ---- second pass: fields

  function FieldParser(known: set<string>): RawField -> Result<Field, IdlError> {
    raw => ParseField(raw, known)
  }

  function ParseFields(parse: RawField -> Result<Field, IdlError>, done: seq<Field>, raw: seq<RawField>): Result<seq<Field>, IdlError>
    decreases |raw|
  {
    if raw == [] then Success(done)
    else
      var f := parse(raw[0]);
      if f.Failure? then Failure(f.error) else ParseFields(parse, done + [f.value], raw[1..])
  }

  function ParseDefs(parse: RawField -> Result<Field, IdlError>, done: seq<TypeDef>, pending: seq<Pending>): Result<seq<TypeDef>, IdlError>
    decreases |pending|
  {
    if pending == [] then Success(done)
    else
      var p := pending[0];
      var fields := ParseFields(parse, [], p.fields);
      if fields.Failure? then Failure(fields.error)
      else ParseDefs(parse, done + [TypeDef(p.name, fields.value, p.category)], pending[1..])
  }

  function ParseIdl(files: seq<RawFile>): Result<Idl, IdlError> {
    var scan := ScanFiles(NOTHING_SCANNED, files);
    if files == [] then Failure(NoFiles)
    else if scan.Failure? then Failure(scan.error)
    else
      var defs := ParseDefs(FieldParser(scan.value.known), [], scan.value.pending);
      if defs.Failure? then Failure(defs.error) else Success(Idl(NamespaceOf(files[0]), defs.value))
  }

  // ---- the loops

  method ScanItemsLoop(st: Scan, category: Category, items: seq<RawType>) returns (r: Result<Scan, IdlError>)
    ensures r == ScanItems(st, category, items)
  {
    var now := st;
    for i := 0 to |items|
      invariant ScanItems(now, category, items[i..]) == ScanItems(st, category, items)
    {
      var item := items[i];
      assert items[i..][0] == item && items[i..][1..] == items[i + 1..];
      if item.name == None || item.name.value == "" {
        return Failure(MissingName);
      }
      var name := item.name.value;
      if !Identifier(name) {
        return Failure(BadIdentifier(name));
      }
      if name in now.known {
        return Failure(DuplicateName(name));
      }
      if item.fields == None || item.fields.value == [] {
        return Failure(BadFields(name));
      }
      now := now.(known := now.known + {name}, pending := now.pending + [Pending(category, name, item.fields.value)]);
    }
    return Success(now);
  }

  method ScanFilesLoop(files: seq<RawFile>) returns (r: Result<Scan, IdlError>)
    ensures r == ScanFiles(NOTHING_SCANNED, files)
  {
    var now := NOTHING_SCANNED;
    for i := 0 to |files|
      invariant ScanFiles(now, files[i..]) == ScanFiles(NOTHING_SCANNED, files)
    {
      var f := files[i];
      assert files[i..][0] == f && files[i..][1..] == files[i + 1..];
      if now.namespace == None {
        now := now.(namespace := Some(NamespaceOf(f)));
      } else if now.namespace.value != NamespaceOf(f) {
        return Failure(NamespaceMismatch);
      }
      if f.types.NotAList? {
        return Failure(SectionNotArray);
      }
      r := ScanItemsLoop(now, TypeCategory, if f.types.Items? then f.types.items else []);
      if r.Failure? {
        return;
      }
      if f.messages.NotAList? {
        return Failure(SectionNotArray);
      }
      r := ScanItemsLoop(r.value, MessageCategory, if f.messages.Items? then f.messages.items else []);
      if r.Failure? {
        return;
      }
      now := r.value;
    }
    return Success(now);
  }

  method ParseFieldsLoop(raw: seq<RawField>, known: set<string>) returns (r: Result<seq<Field>, IdlError>)
    ensures r == ParseFields(FieldParser(known), [], raw)
  {
    var fields: seq<Field> := [];
    for i := 0 to |raw|
      invariant ParseFields(FieldParser(known), fields, raw[i..]) == ParseFields(FieldParser(known), [], raw)
    {
      assert raw[i..][0] == raw[i] && raw[i..][1..] == raw[i + 1..];
      var f := ParseField(raw[i], known);
      if f.Failure? {
        return Failure(f.error);
      }
      fields := fields + [f.value];
    }
    return Success(fields);
  }

  method ParseIdlSources(files: seq<RawFile>) returns (r: Result<Idl, IdlError>)
    ensures r == ParseIdl(files)
  {
    if files == [] {
      return Failure(NoFiles);
    }
    var scan := ScanFilesLoop(files);
    if scan.Failure? {
      return Failure(scan.error);
    }
    var known, pending := scan.value.known, scan.value.pending;
    var parsed: seq<TypeDef> := [];
    for i := 0 to |pending|
      invariant ParseDefs(FieldParser(known), parsed, pending[i..]) == ParseDefs(FieldParser(known), [], pending)
    {
      assert pending[i..][0] == pending[i] && pending[i..][1..] == pending[i + 1..];
      var fields := ParseFieldsLoop(pending[i].fields, known);
      if fields.Failure? {
        return Failure(fields.error);
      }
      parsed := parsed + [TypeDef(pending[i].name, fields.value, pending[i].category)];
    }
    return Success(Idl(NamespaceOf(files[0]), parsed));
  }
}
