/** Which IDL sources the parser accepts, and what the type table it yields is good for. */
module IdlTheorems {
  import opened Bytes
  import opened Schema
  import opened IdlParser

  /** A type or message record, with the section it stands in. */
  datatype Item = Item(category: Category, raw: RawType)

  function SectionItems(category: Category, s: Section): (r: seq<Item>)
    ensures s.Items? ==> |r| == |s.items| && forall i :: 0 <= i < |r| ==> r[i] == Item(category, s.items[i])
  {
    if s.Items? then seq(|s.items|, i requires 0 <= i < |s.items| => Item(category, s.items[i])) else []
  }

  function FileItems(f: RawFile): seq<Item> {
    SectionItems(TypeCategory, f.types) + SectionItems(MessageCategory, f.messages)
  }

  function AllItems(files: seq<RawFile>): seq<Item>
    decreases |files|
  {
    if files == [] then [] else FileItems(files[0]) + AllItems(files[1..])
  }

  /** Named by an identifier, and not empty. */
  predicate ItemOk(raw: RawType) {
    raw.name.Some? && Identifier(raw.name.value) && raw.fields.Some? && raw.fields.value != []
  }

  predicate ItemFresh(it: Item, known: set<string>) {
    ItemOk(it.raw) && it.raw.name.value !in known
  }

  predicate DifferentNames(a: Item, b: Item) {
    a.raw.name != b.raw.name
  }

  predicate Fresh(items: seq<Item>, known: set<string>) {
    && (forall i :: 0 <= i < |items| ==> ItemFresh(items[i], known))
    && (forall i, j :: 0 <= i < j < |items| ==> DifferentNames(items[i], items[j]))
  }

  function ItemName(it: Item): string {
    if it.raw.name.Some? then it.raw.name.value else ""
  }

  function Names(items: seq<Item>): set<string> {
    set i | 0 <= i < |items| :: ItemName(items[i])
  }

  predicate Compatible(f: RawFile, namespace: string) {
    NamespaceOf(f) == namespace && !f.types.NotAList? && !f.messages.NotAList?
  }

  predicate FieldsOk(raw: RawType, known: set<string>) {
    raw.fields.Some? && forall k :: 0 <= k < |raw.fields.value| ==> FieldOk(raw.fields.value[k], known)
  }

  /** One namespace; names that are identifiers and differ; no empty type; and fields that refer to builtin
      types or to types declared anywhere in the sources, earlier or later. */
  ghost predicate Acceptable(files: seq<RawFile>) {
    var items := AllItems(files);
    && files != []
    && (forall i :: 0 <= i < |files| ==> Compatible(files[i], NamespaceOf(files[0])))
    && Fresh(items, {})
    && (forall i :: 0 <= i < |items| ==> FieldsOk(items[i].raw, Names(items)))
  }

  // ---- first pass

  function ScanAll(st: Scan, items: seq<Item>): Result<Scan, IdlError>
    decreases |items|
  {
    if items == [] then Success(st)
    else
      var next := ScanItem(st, items[0].category, items[0].raw);
      if next.Failure? then next else ScanAll(next.value, items[1..])
  }

  lemma {:induction false} ScanAllAppend(st: Scan, a: seq<Item>, b: seq<Item>)
    ensures ScanAll(st, a + b) == if ScanAll(st, a).Failure? then ScanAll(st, a) else ScanAll(ScanAll(st, a).value, b)
    decreases |a|
  {
    if a == [] {
      assert a + b == b;
    } else {
      assert (a + b)[1..] == a[1..] + b;
      var next := ScanItem(st, a[0].category, a[0].raw);
      if next.Success? {
        ScanAllAppend(next.value, a[1..], b);
      }
    }
  }

  lemma {:induction false} SectionScan(st: Scan, category: Category, items: seq<RawType>)
    ensures ScanItems(st, category, items) == ScanAll(st, SectionItems(category, Items(items)))
    decreases |items|
  {
    if items != [] {
      var next := ScanItem(st, category, items[0]);
      assert SectionItems(category, Items(items))[1..] == SectionItems(category, Items(items[1..]));
      if next.Success? {
        SectionScan(next.value, category, items[1..]);
      }
    }
  }

  lemma {:induction false} ScanKeepsNamespace(st: Scan, items: seq<Item>)
    ensures ScanAll(st, items).Success? ==> ScanAll(st, items).value.namespace == st.namespace
    decreases |items|
  {
    if items != [] {
      var next := ScanItem(st, items[0].category, items[0].raw);
      if next.Success? {
        ScanKeepsNamespace(next.value, items[1..]);
      }
    }
  }

  lemma FileScan(st: Scan, f: RawFile)
    requires st.namespace.Some?
    ensures ScanFile(st, f).Success? <==> Compatible(f, st.namespace.value) && ScanAll(st, FileItems(f)).Success?
    ensures ScanFile(st, f).Success? ==> ScanFile(st, f) == ScanAll(st, FileItems(f))
  {
    var types, messages := SectionItems(TypeCategory, f.types), SectionItems(MessageCategory, f.messages);
    ScanAllAppend(st, types, messages);
    if NamespaceOf(f) == st.namespace.value {
      assert st.(namespace := Some(NamespaceOf(f))) == st;
      SectionScans(st, TypeCategory, f.types);
      var first := ScanAll(st, types);
      if first.Success? {
        SectionScans(first.value, MessageCategory, f.messages);
      }
    }
  }

  lemma SectionScans(st: Scan, category: Category, s: Section)
    ensures ScanSection(st, category, s) == if s.NotAList? then Failure(SectionNotArray) else ScanAll(st, SectionItems(category, s))
  {
    if s.Items? {
      SectionScan(st, category, s.items);
    }
  }

  lemma {:induction false} FilesScan(st: Scan, files: seq<RawFile>)
    requires st.namespace.Some?
    ensures ScanFiles(st, files).Success? <==>
            (forall i :: 0 <= i < |files| ==> Compatible(files[i], st.namespace.value)) && ScanAll(st, AllItems(files)).Success?
    ensures ScanFiles(st, files).Success? ==> ScanFiles(st, files) == ScanAll(st, AllItems(files))
    decreases |files|
  {
    if files != [] {
      FileScan(st, files[0]);
      ScanAllAppend(st, FileItems(files[0]), AllItems(files[1..]));
      var next := ScanFile(st, files[0]);
      if next.Success? {
        ScanKeepsNamespace(st, FileItems(files[0]));
        FilesScan(next.value, files[1..]);
      }
      AllInTail(files, st.namespace.value);
    }
  }

  lemma AllInTail(files: seq<RawFile>, namespace: string)
    requires files != []
    ensures (forall i :: 0 <= i < |files| ==> Compatible(files[i], namespace)) <==>
            Compatible(files[0], namespace) && forall i :: 0 <= i < |files[1..]| ==> Compatible(files[1..][i], namespace)
  {
    if Compatible(files[0], namespace) && forall i :: 0 <= i < |files[1..]| ==> Compatible(files[1..][i], namespace) {
      forall i | 0 <= i < |files|
        ensures Compatible(files[i], namespace)
      {
        assert i > 0 ==> files[i] == files[1..][i - 1];
      }
    }
  }

  lemma FreshStep(items: seq<Item>, known: set<string>)
    requires items != []
    ensures Fresh(items, known) <==>
            ItemFresh(items[0], known) && Fresh(items[1..], known + {ItemName(items[0])})
  {
    var name := ItemName(items[0]);
    if Fresh(items, known) {
      forall i | 0 <= i < |items[1..]|
        ensures ItemFresh(items[1..][i], known + {name})
      {
        assert items[1..][i] == items[i + 1] && DifferentNames(items[0], items[i + 1]);
      }
    }
    if ItemFresh(items[0], known) && Fresh(items[1..], known + {name}) {
      forall i | 0 <= i < |items|
        ensures ItemFresh(items[i], known)
      {
        assert i > 0 ==> ItemFresh(items[1..][i - 1], known + {name});
      }
      forall i, j | 0 <= i < j < |items|
        ensures DifferentNames(items[i], items[j])
      {
        assert ItemFresh(items[1..][j - 1], known + {name});
        assert i > 0 ==> DifferentNames(items[1..][i - 1], items[1..][j - 1]);
      }
    }
  }

  function PendingOf(it: Item): Pending {
    Pending(it.category, ItemName(it), if it.raw.fields.Some? then it.raw.fields.value else [])
  }

  function PendingAll(items: seq<Item>): (r: seq<Pending>)
    ensures |r| == |items| && forall i :: 0 <= i < |r| ==> r[i] == PendingOf(items[i])
  {
    seq(|items|, i requires 0 <= i < |items| => PendingOf(items[i]))
  }

  lemma ScanItemExact(st: Scan, it: Item)
    ensures ScanItem(st, it.category, it.raw).Success? <==> ItemFresh(it, st.known)
    ensures ScanItem(st, it.category, it.raw).Success? ==>
            var r := ScanItem(st, it.category, it.raw).value;
            r.known == st.known + {ItemName(it)} && r.pending == st.pending + [PendingOf(it)]
  {
  }

  lemma {:induction false} ScanExact(st: Scan, items: seq<Item>)
    ensures ScanAll(st, items).Success? <==> Fresh(items, st.known)
    ensures ScanAll(st, items).Success? ==>
            var r := ScanAll(st, items).value;
            r.known == st.known + Names(items) && r.pending == st.pending + PendingAll(items)
    decreases |items|
  {
    if items == [] {
      assert PendingAll(items) == [];
    } else {
      var it := items[0];
      FreshStep(items, st.known);
      ScanItemExact(st, it);
      var next := ScanItem(st, it.category, it.raw);
      if next.Success? {
        ScanExact(next.value, items[1..]);
        NamesStep(items);
        PendingStep(st.pending, items);
      }
    }
  }

  lemma PendingStep(done: seq<Pending>, items: seq<Item>)
    requires items != []
    ensures done + PendingAll(items) == done + [PendingOf(items[0])] + PendingAll(items[1..])
  {
  }

  lemma NamesStep(items: seq<Item>)
    requires items != []
    ensures Names(items) == {ItemName(items[0])} + Names(items[1..])
  {
    forall n | n in Names(items)
      ensures n in {ItemName(items[0])} + Names(items[1..])
    {
      var i :| 0 <= i < |items| && ItemName(items[i]) == n;
      assert i > 0 ==> items[1..][i - 1] == items[i];
    }
    forall n | n in Names(items[1..])
      ensures n in Names(items)
    {
      var i :| 0 <= i < |items[1..]| && ItemName(items[1..][i]) == n;
      assert items[i + 1] == items[1..][i];
    }
  }

  // ---- second pass

  lemma {:induction false} FieldsExact(parse: RawField -> Result<Field, IdlError>, done: seq<Field>, raw: seq<RawField>)
    ensures ParseFields(parse, done, raw).Success? <==> forall k :: 0 <= k < |raw| ==> parse(raw[k]).Success?
    ensures ParseFields(parse, done, raw).Success? ==>
            var fs := ParseFields(parse, done, raw).value;
            && |fs| == |done| + |raw| && fs[..|done|] == done
            && forall k :: 0 <= k < |raw| ==> parse(raw[k]) == Success(fs[|done| + k])
    decreases |raw|
  {
    if raw != [] {
      var f := parse(raw[0]);
      if f.Success? {
        FieldsExact(parse, done + [f.value], raw[1..]);
        assert forall k :: 1 <= k < |raw| ==> raw[k] == raw[1..][k - 1];
        if ParseFields(parse, done, raw).Success? {
          var fs := ParseFields(parse, done, raw).value;
          assert fs[..|done|] == fs[..|done| + 1][..|done|];
          assert fs[|done|] == fs[..|done| + 1][|done|];
        }
      }
    }
  }

  predicate PendingOk(p: Pending, parse: RawField -> Result<Field, IdlError>) {
    forall k :: 0 <= k < |p.fields| ==> parse(p.fields[k]).Success?
  }

  /** A definition has the name and category of its record, and its fields mean what they refer to. */
  predicate Defines(d: TypeDef, p: Pending, parse: RawField -> Result<Field, IdlError>) {
    && d.name == p.name && d.category == p.category && |d.fields| == |p.fields|
    && forall k :: 0 <= k < |p.fields| ==> parse(p.fields[k]) == Success(d.fields[k])
  }

  lemma {:induction false} DefsExact(parse: RawField -> Result<Field, IdlError>, done: seq<TypeDef>, pending: seq<Pending>)
    ensures ParseDefs(parse, done, pending).Success? <==> forall i :: 0 <= i < |pending| ==> PendingOk(pending[i], parse)
    ensures ParseDefs(parse, done, pending).Success? ==>
            var ds := ParseDefs(parse, done, pending).value;
            && |ds| == |done| + |pending| && ds[..|done|] == done
            && forall i :: 0 <= i < |pending| ==> Defines(ds[|done| + i], pending[i], parse)
    decreases |pending|
  {
    if pending != [] {
      var p := pending[0];
      FieldsExact(parse, [], p.fields);
      var fields := ParseFields(parse, [], p.fields);
      if fields.Success? {
        var d := TypeDef(p.name, fields.value, p.category);
        assert Defines(d, p, parse);
        DefsExact(parse, done + [d], pending[1..]);
        assert forall i :: 1 <= i < |pending| ==> pending[i] == pending[1..][i - 1];
        if ParseDefs(parse, done, pending).Success? {
          var ds := ParseDefs(parse, done, pending).value;
          assert ds[..|done|] == ds[..|done| + 1][..|done|];
          assert ds[|done|] == ds[..|done| + 1][|done|];
        }
      }
    }
  }

  // ---- both passes

  lemma ScanIsAll(files: seq<RawFile>)
    requires files != []
    ensures var items, r := AllItems(files), ScanFiles(NOTHING_SCANNED, files);
            && (r.Success? <==> (forall i :: 0 <= i < |files| ==> Compatible(files[i], NamespaceOf(files[0]))) && Fresh(items, {}))
            && (r.Success? ==> r.value.known == Names(items) && r.value.pending == PendingAll(items))
  {
    var st := NOTHING_SCANNED.(namespace := Some(NamespaceOf(files[0])));
    assert ScanFile(NOTHING_SCANNED, files[0]) == ScanFile(st, files[0]);
    FilesScan(st, files);
    ScanExact(st, AllItems(files));
  }

  lemma PendingFieldsOk(it: Item, known: set<string>)
    requires "" !in known && ItemOk(it.raw)
    ensures PendingOk(PendingOf(it), FieldParser(known)) <==> FieldsOk(it.raw, known)
  {
    var raw := it.raw.fields.value;
    forall k | 0 <= k < |raw|
      ensures ParseField(raw[k], known).Success? <==> FieldOk(raw[k], known)
    {
      ParseFieldExact(raw[k], known);
    }
  }

  lemma NoEmptyName(items: seq<Item>)
    requires Fresh(items, {})
    ensures "" !in Names(items)
  {
    forall i | 0 <= i < |items|
      ensures ItemName(items[i]) != ""
    {
      assert ItemFresh(items[i], {});
    }
  }

  /** The parser accepts exactly the acceptable sources. */
  lemma AcceptedIffAcceptable(files: seq<RawFile>)
    ensures ParseIdl(files).Success? <==> Acceptable(files)
  {
    if files != [] {
      var items := AllItems(files);
      ScanIsAll(files);
      if Fresh(items, {}) {
        var names := Names(items);
        NoEmptyName(items);
        DefsExact(FieldParser(names), [], PendingAll(items));
        forall i | 0 <= i < |items|
          ensures PendingOk(PendingAll(items)[i], FieldParser(names)) <==> FieldsOk(items[i].raw, names)
        {
          assert ItemFresh(items[i], {});
          PendingFieldsOk(items[i], names);
        }
      }
    }
  }

  /** The definitions of accepted sources: one for each record, in order, files one after the other and
      types before messages; fields are resolved against the names of all of them. */
  lemma AcceptedMeans(files: seq<RawFile>)
    requires ParseIdl(files).Success?
    ensures var defs, items := ParseIdl(files).value.defs, AllItems(files);
            && |defs| == |items|
            && forall i :: 0 <= i < |items| ==> Defines(defs[i], PendingOf(items[i]), FieldParser(Names(items)))
  {
    var items := AllItems(files);
    ScanIsAll(files);
    DefsMean(FieldParser(Names(items)), items, ParseIdl(files).value.defs);
  }

  lemma DefsMean(parse: RawField -> Result<Field, IdlError>, items: seq<Item>, defs: seq<TypeDef>)
    requires ParseDefs(parse, [], PendingAll(items)) == Success(defs)
    ensures |defs| == |items| && forall i :: 0 <= i < |items| ==> Defines(defs[i], PendingOf(items[i]), parse)
  {
    DefsExact(parse, [], PendingAll(items));
    forall i | 0 <= i < |items|
      ensures Defines(defs[i], PendingOf(items[i]), parse)
    {
      assert Defines(defs[0 + i], PendingAll(items)[i], parse);
    }
  }

  // ---- the type table

  function Table(defs: seq<TypeDef>): TypeTable
    decreases |defs|
  {
    if defs == [] then map[] else Table(defs[..|defs| - 1])[defs[|defs| - 1].name := defs[|defs| - 1].fields]
  }

  lemma {:induction false} TableKeys(defs: seq<TypeDef>, t: string)
    ensures t in Table(defs) <==> exists i :: 0 <= i < |defs| && defs[i].name == t
    ensures t in Table(defs) ==> exists i :: 0 <= i < |defs| && defs[i].name == t && defs[i].fields == Table(defs)[t]
    decreases |defs|
  {
    if defs != [] {
      var n := |defs| - 1;
      TableKeys(defs[..n], t);
      if t in Table(defs[..n]) && t != defs[n].name {
        var i :| 0 <= i < n && defs[..n][i].name == t && defs[..n][i].fields == Table(defs[..n])[t];
        assert defs[i] == defs[..n][i];
      }
      if i :| 0 <= i < |defs| && defs[i].name == t {
        assert i < n ==> defs[..n][i] == defs[i];
      }
    }
  }

  lemma {:induction false} TableAt(defs: seq<TypeDef>, i: nat)
    requires i < |defs| && forall a, b :: 0 <= a < b < |defs| ==> defs[a].name != defs[b].name
    ensures defs[i].name in Table(defs) && Table(defs)[defs[i].name] == defs[i].fields
    decreases |defs|
  {
    var n := |defs| - 1;
    if i < n {
      TableAt(defs[..n], i);
    }
  }

  /** What the parser accepts is a closed type table in which every definition is found under its name:
      what the codec needs, forward and circular references included. */
  lemma ParsedTableIsClosed(files: seq<RawFile>)
    requires ParseIdl(files).Success?
    ensures var defs := ParseIdl(files).value.defs;
            && Closed(Table(defs))
            && forall i :: 0 <= i < |defs| ==> defs[i].name in Table(defs) && Table(defs)[defs[i].name] == defs[i].fields
  {
    var defs, items := ParseIdl(files).value.defs, AllItems(files);
    AcceptedMeans(files);
    AcceptedIffAcceptable(files);
    NoEmptyName(items);
    forall a, b | 0 <= a < b < |defs|
      ensures defs[a].name != defs[b].name
    {
      assert Defines(defs[a], PendingOf(items[a]), FieldParser(Names(items))) && Defines(defs[b], PendingOf(items[b]), FieldParser(Names(items)));
      assert DifferentNames(items[a], items[b]) && ItemFresh(items[a], {}) && ItemFresh(items[b], {});
    }
    forall i | 0 <= i < |defs|
      ensures defs[i].name in Table(defs) && Table(defs)[defs[i].name] == defs[i].fields
    {
      TableAt(defs, i);
    }
    forall t | t in Table(defs)
      ensures Table(defs)[t] != [] && FieldsClosed(Table(defs), Table(defs)[t])
    {
      TableKeys(defs, t);
      var i :| 0 <= i < |defs| && defs[i].name == t && defs[i].fields == Table(defs)[t];
      assert ItemFresh(items[i], {});
      assert Defines(defs[i], PendingOf(items[i]), FieldParser(Names(items)));
      DefClosed(defs, items, i);
    }
  }

  lemma DefClosed(defs: seq<TypeDef>, items: seq<Item>, i: nat)
    requires |defs| == |items| && i < |defs| && "" !in Names(items)
    requires forall j :: 0 <= j < |items| ==> Defines(defs[j], PendingOf(items[j]), FieldParser(Names(items)))
    ensures FieldsClosed(Table(defs), defs[i].fields)
  {
    var raw, parse := PendingOf(items[i]).fields, FieldParser(Names(items));
    assert Defines(defs[i], PendingOf(items[i]), parse);
    forall k | 0 <= k < |defs[i].fields|
      ensures ElemClosed(Table(defs), defs[i].fields[k].kind.e)
    {
      assert parse(raw[k]) == Success(defs[i].fields[k]);
      FieldRefers(raw[k], Names(items), defs[i].fields[k]);
      ReferredDeclared(defs, items, defs[i].fields[k].kind.e, parse);
    }
  }

  lemma FieldRefers(raw: RawField, known: set<string>, f: Field)
    requires "" !in known && ParseField(raw, known) == Success(f)
    ensures f.kind.e.ECustom? ==> f.kind.e.t in known
  {
    ParseFieldExact(raw, known);
  }

  lemma ReferredDeclared(defs: seq<TypeDef>, items: seq<Item>, e: Elem, parse: RawField -> Result<Field, IdlError>)
    requires |defs| == |items| && (e.ECustom? ==> e.t in Names(items))
    requires forall j :: 0 <= j < |items| ==> Defines(defs[j], PendingOf(items[j]), parse)
    ensures ElemClosed(Table(defs), e)
  {
    if e.ECustom? {
      var j :| 0 <= j < |items| && ItemName(items[j]) == e.t;
      assert Defines(defs[j], PendingOf(items[j]), parse);
      TableKeys(defs, e.t);
    }
  }
}
