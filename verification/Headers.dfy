/** The generated headers: each one includes the headers of the other types its struct refers to, once, and
    declares no type in advance. So the structs come in an order that inclusion decides, and they compile
    only if that order suits them. */
module Headers {
  import opened Bytes
  import opened Schema

  /** The types whose headers the header of t includes. */
  function Deps(t: string, fs: seq<Field>): set<string> {
    set k | 0 <= k < |fs| && fs[k].kind.e.ECustom? && fs[k].kind.e.t != t :: fs[k].kind.e.t
  }

  /** The include lines of every header, in whatever order (the generator sorts them). */
  ghost predicate IncludeLines(s: TypeTable, inc: map<string, seq<string>>) {
    forall t :: t in s ==> t in inc && forall d :: d in inc[t] <==> d in Deps(t, s[t])
  }

  // ---- preprocessing

  /** The headers entered so far, each of which is entered only once, and the structs defined, in order. */
  datatype Unit = Unit(once: set<string>, defined: seq<string>)

  const NOTHING_INCLUDED := Unit({}, [])

  /** Includes the header of t: its own include lines first, its struct after them. */
  function Include(s: TypeTable, inc: map<string, seq<string>>, t: string, u: Unit): (v: Unit)
    ensures u.once <= v.once
    decreases s.Keys - u.once, 0
  {
    if t !in s || t !in inc || t in u.once then u
    else
      var v := IncludeAll(s, inc, inc[t], u.(once := u.once + {t}));
      v.(defined := v.defined + [t])
  }

  function IncludeAll(s: TypeTable, inc: map<string, seq<string>>, ts: seq<string>, u: Unit): (v: Unit)
    ensures u.once <= v.once
    decreases s.Keys - u.once, 1 + |ts|
  {
    if ts == [] then u else IncludeAll(s, inc, ts[1..], Include(s, inc, ts[0], u))
  }

  // ---- compiling

  /** The struct compiles after the given ones: other types it refers to are defined before it, and it
      refers to itself in arrays only. */
  predicate Placed(s: TypeTable, t: string, before: seq<string>) {
    t in s && forall k :: 0 <= k < |s[t]| ==> RefOk(t, s[t][k].kind, before)
  }

  predicate RefOk(t: string, kind: Kind, before: seq<string>) {
    kind.e.ECustom? ==> if kind.e.t == t then kind.Many? else kind.e.t in before
  }

  ghost predicate AllPlaced(s: TypeTable, order: seq<string>) {
    forall i :: 0 <= i < |order| ==> Placed(s, order[i], order[..i])
  }

  /** The aggregate header, which includes all types, compiles. */
  ghost predicate HeadersCompile(s: TypeTable, inc: map<string, seq<string>>, all: seq<string>) {
    AllPlaced(s, IncludeAll(s, inc, all, NOTHING_INCLUDED).defined)
  }

  /** An order in which every type comes after all other types it refers to, arrays included. */
  ghost predicate InclusionOrder(s: TypeTable, order: seq<string>) {
    forall t :: t in s ==> t in order && forall k :: 0 <= k < |s[t]| ==> RefBelow(order, t, s[t][k].kind)
  }

  ghost predicate RefBelow(order: seq<string>, t: string, kind: Kind) {
    kind.e.ECustom? ==> if kind.e.t == t then kind.Many? else Index(order, kind.e.t) < Index(order, t)
  }

  /** No type refers back to itself by way of another, or contains itself. Checkable from the IDL alone. */
  ghost predicate Includable(s: TypeTable) {
    exists order: seq<string> :: InclusionOrder(s, order)
  }

  lemma IncludableIsAcyclic(s: TypeTable)
    requires Includable(s)
    ensures Acyclic(s)
  {
    var order: seq<string> :| InclusionOrder(s, order);
    forall t | t in s
      ensures FieldsBelow(order, s[t], Index(order, t))
    {
      assert forall k :: 0 <= k < |s[t]| ==> RefBelow(order, t, s[t][k].kind);
    }
    assert DefinitionOrder(s, order);
  }

  // ---- a header that is entered is finished

  /** Entered, but its struct is still to come. */
  function Open(u: Unit): set<string> {
    u.once - (set x | x in u.defined)
  }

  ghost predicate DefinedOnce(u: Unit) {
    forall x :: x in u.defined ==> x in u.once
  }

  lemma {:induction false} IncludeFinishes(s: TypeTable, inc: map<string, seq<string>>, t: string, u: Unit)
    requires DefinedOnce(u)
    ensures var v := Include(s, inc, t, u);
            && DefinedOnce(v) && Open(v) == Open(u) && u.defined <= v.defined
            && (t in s && t in inc ==> t in v.once)
    decreases s.Keys - u.once, 0
  {
    if t in s && t in inc && t !in u.once {
      var u1 := u.(once := u.once + {t});
      var v := IncludeAll(s, inc, inc[t], u1);
      AllFinish(s, inc, inc[t], u1);
      assert Open(u1) == Open(u) + {t};
      assert Open(v.(defined := v.defined + [t])) == Open(v) - {t};
    }
  }

  lemma {:induction false} AllFinish(s: TypeTable, inc: map<string, seq<string>>, ts: seq<string>, u: Unit)
    requires DefinedOnce(u)
    ensures var v := IncludeAll(s, inc, ts, u);
            && DefinedOnce(v) && Open(v) == Open(u) && u.defined <= v.defined
            && forall t :: t in ts && t in s && t in inc ==> t in v.once
    decreases s.Keys - u.once, 1 + |ts|
  {
    if ts != [] {
      IncludeFinishes(s, inc, ts[0], u);
      AllFinish(s, inc, ts[1..], Include(s, inc, ts[0], u));
    }
  }

  // ---- in an includable table every struct comes after what it refers to

  /** What is still open lies above t. */
  ghost predicate OpenAbove(order: seq<string>, u: Unit, t: string) {
    forall x :: x in Open(u) ==> Index(order, t) < Index(order, x)
  }

  lemma {:induction false} IncludePlaces(s: TypeTable, inc: map<string, seq<string>>, order: seq<string>, t: string, u: Unit)
    requires Closed(s) && IncludeLines(s, inc) && InclusionOrder(s, order) && t in s
    requires DefinedOnce(u) && AllPlaced(s, u.defined) && OpenAbove(order, u, t)
    ensures var v := Include(s, inc, t, u); AllPlaced(s, v.defined) && t in v.defined
    decreases s.Keys - u.once, 0
  {
    IncludeFinishes(s, inc, t, u);
    if t !in u.once {
      var u1 := u.(once := u.once + {t});
      assert Open(u1) == Open(u) + {t};
      forall d | d in inc[t]
        ensures d in s && OpenAbove(order, u1, d)
      {
        DepBelow(s, order, t, d);
      }
      AllPlace(s, inc, order, inc[t], u1);
      var v := IncludeAll(s, inc, inc[t], u1);
      assert AllPlaced(s, v.defined + [t]) by {
        DepsPlaced(s, inc, order, t, v.defined);
        PlacedSnoc(s, v.defined, t);
      }
    }
  }

  lemma DepBelow(s: TypeTable, order: seq<string>, t: string, d: string)
    requires Closed(s) && InclusionOrder(s, order) && t in s && d in Deps(t, s[t])
    ensures d in s && Index(order, d) < Index(order, t)
  {
    var k :| 0 <= k < |s[t]| && s[t][k].kind.e.ECustom? && s[t][k].kind.e.t == d && d != t;
    assert FieldsClosed(s, s[t]) && ElemClosed(s, s[t][k].kind.e) && RefBelow(order, t, s[t][k].kind);
  }

  lemma DepsPlaced(s: TypeTable, inc: map<string, seq<string>>, order: seq<string>, t: string, before: seq<string>)
    requires IncludeLines(s, inc) && InclusionOrder(s, order) && t in s && forall d :: d in inc[t] ==> d in before
    ensures Placed(s, t, before)
  {
    forall k | 0 <= k < |s[t]|
      ensures RefOk(t, s[t][k].kind, before)
    {
      assert RefBelow(order, t, s[t][k].kind);
      if s[t][k].kind.e.ECustom? && s[t][k].kind.e.t != t {
        assert s[t][k].kind.e.t in Deps(t, s[t]);
      }
    }
  }

  lemma PlacedSnoc(s: TypeTable, order: seq<string>, t: string)
    requires AllPlaced(s, order) && Placed(s, t, order)
    ensures AllPlaced(s, order + [t])
  {
    var longer := order + [t];
    forall i | 0 <= i < |longer|
      ensures Placed(s, longer[i], longer[..i])
    {
      assert longer[..i] == order[..i];
      if i == |order| {
        assert order[..i] == order;
      }
    }
  }

  lemma {:induction false} AllPlace(s: TypeTable, inc: map<string, seq<string>>, order: seq<string>, ts: seq<string>, u: Unit)
    requires Closed(s) && IncludeLines(s, inc) && InclusionOrder(s, order)
    requires DefinedOnce(u) && AllPlaced(s, u.defined) && forall t :: t in ts ==> t in s && OpenAbove(order, u, t)
    ensures var v := IncludeAll(s, inc, ts, u); AllPlaced(s, v.defined) && forall t :: t in ts ==> t in v.defined
    decreases s.Keys - u.once, 1 + |ts|
  {
    if ts != [] {
      assert ts[0] in ts;
      IncludePlaces(s, inc, order, ts[0], u);
      IncludeFinishes(s, inc, ts[0], u);
      var v := Include(s, inc, ts[0], u);
      forall t | t in ts[1..]
        ensures t in s && OpenAbove(order, v, t)
      {
        assert t in ts;
      }
      AllPlace(s, inc, order, ts[1..], v);
      AllFinish(s, inc, ts[1..], v);
    }
  }

  // ---- and otherwise some struct does not

  lemma PlacedIsInclusionOrder(s: TypeTable, order: seq<string>)
    requires AllPlaced(s, order) && forall t :: t in s ==> t in order
    ensures InclusionOrder(s, order)
  {
    forall t | t in s
      ensures forall k :: 0 <= k < |s[t]| ==> RefBelow(order, t, s[t][k].kind)
    {
      var i := Index(order, t);
      IndexAt(order, t);
      assert Placed(s, order[i], order[..i]);
      forall k | 0 <= k < |s[t]|
        ensures RefBelow(order, t, s[t][k].kind)
      {
        assert RefOk(t, s[t][k].kind, order[..i]);
        if s[t][k].kind.e.ECustom? && s[t][k].kind.e.t != t {
          IndexBefore(order, s[t][k].kind.e.t, i);
        }
      }
    }
  }

  lemma {:induction false} IndexAt(order: seq<string>, t: string)
    requires t in order
    ensures order[Index(order, t)] == t
    decreases |order|
  {
    if order[0] != t {
      IndexAt(order[1..], t);
    }
  }

  lemma {:induction false} IndexBefore(order: seq<string>, t: string, i: nat)
    requires i <= |order| && t in order[..i]
    ensures Index(order, t) < i
    decreases i
  {
    if order[0] != t {
      assert order[..i] == [order[0]] + order[1..][..i - 1];
      IndexBefore(order[1..], t, i - 1);
    }
  }

  /** The headers of a table compile together exactly when it is includable; and then each compiles alone. */
  lemma HeadersCompileIff(s: TypeTable, inc: map<string, seq<string>>, all: seq<string>)
    requires Closed(s) && IncludeLines(s, inc) && forall t :: t in all <==> t in s
    ensures HeadersCompile(s, inc, all) <==> Includable(s)
    ensures Includable(s) ==> forall t :: t in s ==> AllPlaced(s, Include(s, inc, t, NOTHING_INCLUDED).defined)
  {
    AllFinish(s, inc, all, NOTHING_INCLUDED);
    var v := IncludeAll(s, inc, all, NOTHING_INCLUDED);
    if HeadersCompile(s, inc, all) {
      forall t | t in s
        ensures t in v.defined
      {
        assert t in all && t in v.once && t !in Open(v);
      }
      PlacedIsInclusionOrder(s, v.defined);
    }
    if Includable(s) {
      var order: seq<string> :| InclusionOrder(s, order);
      assert Open(NOTHING_INCLUDED) == {};
      AllPlace(s, inc, order, all, NOTHING_INCLUDED);
      forall t | t in s
        ensures AllPlaced(s, Include(s, inc, t, NOTHING_INCLUDED).defined)
      {
        IncludePlaces(s, inc, order, t, NOTHING_INCLUDED);
      }
    }
  }

  /** Two types that refer to each other, be it in arrays only, are not includable. */
  lemma MutualReference(s: TypeTable, a: string, j: nat, b: string, k: nat)
    requires a in s && b in s && a != b && j < |s[a]| && k < |s[b]|
    requires s[a][j].kind.e == ECustom(b) && s[b][k].kind.e == ECustom(a)
    ensures !Includable(s)
  {
    forall order: seq<string>
      ensures !InclusionOrder(s, order)
    {
      OrderedAt(s, order, a, j);
      OrderedAt(s, order, b, k);
    }
  }

  lemma OrderedAt(s: TypeTable, order: seq<string>, t: string, k: nat)
    requires t in s && k < |s[t]|
    ensures InclusionOrder(s, order) ==> RefBelow(order, t, s[t][k].kind)
  {
  }
}
