/** A radio that is saved and loaded again is the radio that was running
    (src/XmlParser.cpp:398-490, src/RadioRepresentation.cpp:93-258). */
module XmlRadioLaws {
  import opened Wrappers
  import opened RadioTypes
  import opened RadioRepresentation
  import opened RadioLaws
  import opened XmlBase
  import opened XmlTree
  import X = XmlCodec
  import XL = XmlCodecLaws
  import TL = XmlTreeLaws

  /** What the parser hands to buildGraphs. */
  function Start(d: X.Radio): (r: Radio)
  {
    Radio(d.controllers, d.engines, d.links, [], NO_GRAPH, Graph([], []), false)
  }

  /** What writeSoftwareRadio asks a representation for. */
  function Running(n: Radio): (d: X.Radio)
  {
    X.Radio(n.controllers, n.engines, n.links)
  }

  function Bare(e: EngineDescription): (b: EngineDescription)
  {
    e.(engineGraph := NO_GRAPH, links := [])
  }

  /** What the text keeps of it: graphs and links of the engines are not written. */
  function Saved(n: Radio): (d: X.Radio)
  {
    X.Radio(n.controllers, X.Map(Bare, n.engines), n.links)
  }

  lemma GraphsAreNotWritten(n: Radio)
    ensures X.WrittenRadio(Running(n)) == X.WrittenRadio(Saved(n))
  {
    var (a, b) := (X.Map(X.WrittenEngine, n.engines), X.Map(X.WrittenEngine, X.Map(Bare, n.engines)));
    forall j | 0 <= j < |n.engines| ensures a[j] == b[j] {
      assert X.Map(Bare, n.engines)[j] == Bare(n.engines[j]);
    }
    assert a == b;
  }

  /** Names that the graphs can be built from. */
  predicate WellNamed(d: X.Radio)
  {
    EngineNamesDistinct(d.engines) && ComponentNamesDistinct(AllComponents(d.engines))
  }

  lemma NormalIsFresh(d: X.Radio)
    requires XL.Normal(d) && WellNamed(d)
    ensures WellFormed(Start(d).engines) && Fresh(Start(d))
  {
    hide EngineNamesDistinct, ComponentNamesDistinct, AllComponents;
    forall j | 0 <= j < |d.engines|
      ensures Owned(d.engines[j]) && d.engines[j].links == [] && d.engines[j].engineGraph == NO_GRAPH
    {
      assert d.engines[j] in d.engines && XL.NormalEngine(d.engines[j]);
      forall k | 0 <= k < |d.engines[j].components| ensures d.engines[j].components[k].engineName == d.engines[j].name {
        assert d.engines[j].components[k] in d.engines[j].components;
      }
    }
  }

  /** Loading a written radio succeeds exactly when its links name components, and then the three copies
      agree and no link is lost. */
  lemma LoadBuilds(d: X.Radio, rest: string, n: Radio)
    requires XL.Safe(d) && XL.Normal(d) && WellNamed(d)
    ensures var p := ElementAt(Printed(X.WrittenRadio(d)) + rest);
            p.Parsed? && p.rest == rest && p.value.Element? && X.RadioFrom(p.value).Ok? &&
            var s := Start(X.RadioFrom(p.value).value);
            s == Start(d) && WellFormed(s.engines) && Fresh(s) && (Buildable(s) <==> LinksNameComponents(Start(d))) &&
            (LinksNameComponents(Start(d)) && IsBuiltFrom(n, s) ==>
               Agrees(n) && InnerEdges(n.engines) + |n.engineGraph.edges| == |d.links|)
  {
    hide XL.Safe, XL.Normal, WellFormed, Fresh, Buildable, LinksNameComponents, IsBuiltFrom;
    XL.TextRoundTrip(d, rest);
    NormalIsFresh(d);
    BuildSucceedsIff(Start(d));
    if LinksNameComponents(Start(d)) && IsBuiltFrom(n, Start(d)) {
      BuiltAgrees(n, Start(d));
      BuildConservesLinks(n, Start(d));
    }
  }

  /* ------------------------------------------------- reconfigured, saved and loaded again ---- */

  /** Components of the same names. */
  predicate SameNamesIn(vs: seq<ComponentDescription>, ws: seq<ComponentDescription>)
  {
    |vs| == |ws| && forall v :: 0 <= v < |vs| ==> vs[v].name == ws[v].name && vs[v].engineName == ws[v].engineName
  }

  lemma {:induction false} SameFind(name: string, vs: seq<ComponentDescription>, ws: seq<ComponentDescription>, i: nat)
    requires SameNamesIn(vs, ws) && i <= |vs|
    ensures FindComponent(name, vs, i) == FindComponent(name, ws, i)
    decreases |vs| - i
  {
    if i < |vs| { SameFind(name, vs, ws, i + 1); }
  }

  /** The edges depend on names alone. */
  lemma SameEdges(a: Radio, b: Radio)
    requires Fresh(a) && Fresh(b) && a.links == b.links && LinksResolve(a)
    requires SameNamesIn(AllComponents(a.engines), AllComponents(b.engines))
    ensures LinksResolve(b) && BuiltEdges(a) == BuiltEdges(b)
  {
    hide AllComponents;
    var (vs, ws) := (AllComponents(a.engines), AllComponents(b.engines));
    assert RadioVertices(a) == vs && RadioVertices(b) == ws;
    forall k | 0 <= k < |a.links|
      ensures Resolves(a.links[k], vs) && Resolves(a.links[k], ws) && EdgeFor(a.links[k], vs) == EdgeFor(a.links[k], ws)
    {
      SameFind(a.links[k].sourceComponent, vs, ws, 0);
      SameFind(a.links[k].sinkComponent, vs, ws, 0);
    }
    forall k | 0 <= k < |a.links| ensures BuiltEdges(a)[k] == BuiltEdges(b)[k] {
      BuiltEdge(a, k);
      BuiltEdge(b, k);
      SameEnds(a, b, k);
    }
  }

  lemma SameEnds(a: Radio, b: Radio, k: nat)
    requires Fresh(a) && Fresh(b) && LinksResolve(a) && LinksResolve(b) && a.links == b.links && k < |a.links|
    requires EdgeFor(a.links[k], AllComponents(a.engines)) == EdgeFor(b.links[k], AllComponents(b.engines))
    ensures BuiltEdges(a)[k].source == BuiltEdges(b)[k].source && BuiltEdges(a)[k].target == BuiltEdges(b)[k].target
  {
    RawSource(a, k);
    RawSource(b, k);
  }

  lemma RawSource(r: Radio, k: nat)
    requires Fresh(r) && LinksResolve(r) && k < |r.links|
    ensures var (e, raw) := (BuiltEdges(r)[k], EdgeFor(r.links[k], AllComponents(r.engines)));
            e.source == raw.source && e.target == raw.target
  {
    hide AllComponents, FindComponent, Resolves;
    RawEdgesJoin(r);
    assert RadioVertices(r) == AllComponents(r.engines);
    assert RawEdges(r)[k] == EdgeFor(r.links[k], RadioVertices(r));
  }

  lemma {:induction false} SameFindEngine(name: string, vs: seq<EngineDescription>, ws: seq<EngineDescription>, i: nat)
    requires |vs| == |ws| && i <= |vs| && forall j :: 0 <= j < |vs| ==> vs[j].name == ws[j].name
    ensures FindEngine(name, vs, i) == FindEngine(name, ws, i)
    decreases |vs| - i
  {
    if i < |vs| { SameFindEngine(name, vs, ws, i + 1); }
  }

  lemma SameEngineEdges(ls: seq<LinkDescription>, vs: seq<EngineDescription>, ws: seq<EngineDescription>)
    requires |vs| == |ws| && forall j :: 0 <= j < |vs| ==> vs[j].name == ws[j].name
    ensures EngineEdgesFor(ls, vs) == EngineEdgesFor(ls, ws)
  {
    forall k | 0 <= k < |ls| ensures EngineEdgeFor(ls[k], vs) == EngineEdgeFor(ls[k], ws) {
      SameFindEngine(ls[k].sourceEngine, vs, ws, 0);
      SameFindEngine(ls[k].sinkEngine, vs, ws, 0);
    }
  }

  /** Reconfigurations touch the components and nothing else. */
  lemma {:induction false} OthersKept(r: Radio, ps: seq<ParametricReconfig>)
    ensures var n := ReconfiguredAll(r, ps).0;
            n.controllers == r.controllers && n.links == r.links && n.externalLinks == r.externalLinks
    decreases |ps|
  {
    if |ps| > 0 { OthersKept(r, ps[..|ps| - 1]); }
  }

  /* ---------------------------------------------------- radios that differ in values ---- */

  predicate SameButValues(c: ComponentDescription, d: ComponentDescription)
  {
    d == c.(parameters := d.parameters) && |d.parameters| == |c.parameters| &&
    forall q :: 0 <= q < |c.parameters| ==> d.parameters[q].name == c.parameters[q].name
  }

  predicate SameEngineButValues(e: EngineDescription, f: EngineDescription)
  {
    f == e.(components := f.components) && |f.components| == |e.components| &&
    forall k :: 0 <= k < |e.components| ==> SameButValues(e.components[k], f.components[k])
  }

  predicate EnginesSameButValues(es: seq<EngineDescription>, fs: seq<EngineDescription>)
  {
    |es| == |fs| && forall j :: 0 <= j < |es| ==> SameEngineButValues(es[j], fs[j])
  }

  /** The three copies agree, and only parameter values are not those of n. */
  predicate Variant(n: Radio, v: Radio)
  {
    v.controllers == n.controllers && v.links == n.links && v.externalLinks == n.externalLinks &&
    EnginesSameButValues(n.engines, v.engines) &&
    v.radioGraph == Graph(AllComponents(v.engines), n.radioGraph.edges) &&
    v.engineGraph == Graph(v.engines, n.engineGraph.edges)
  }

  lemma {:induction false} VariantsSameNames(es: seq<EngineDescription>, fs: seq<EngineDescription>)
    requires EnginesSameButValues(es, fs)
    ensures SameNamesIn(AllComponents(es), AllComponents(fs))
    decreases |es|
  {
    if |es| > 0 { VariantsSameNames(es[..|es| - 1], fs[..|fs| - 1]); }
  }

  lemma ForEngineIsVariant(e: EngineDescription, p: ParametricReconfig)
    ensures SameEngineButValues(e, ForEngine(e, p))
  {
  }

  lemma SameEngineTransitive(e: EngineDescription, f: EngineDescription, g: EngineDescription)
    requires SameEngineButValues(e, f) && SameEngineButValues(f, g)
    ensures SameEngineButValues(e, g)
  {
  }

  lemma {:induction false} ForEnginesAllIsVariant(es: seq<EngineDescription>, ps: seq<ParametricReconfig>)
    ensures EnginesSameButValues(es, ForEnginesAll(es, ps))
    decreases |ps|
  {
    if |ps| > 0 {
      ForEnginesAllIsVariant(es, ps[..|ps| - 1]);
      var before := ForEnginesAll(es, ps[..|ps| - 1]);
      hide SameEngineButValues, ForEngine;
      forall j | 0 <= j < |es| ensures SameEngineButValues(es[j], ForEngines(before, ps[|ps| - 1])[j]) {
        ForEngineIsVariant(before[j], ps[|ps| - 1]);
        SameEngineTransitive(es[j], before[j], ForEngine(before[j], ps[|ps| - 1]));
      }
    }
  }

  lemma ReconfiguredIsVariant(n: Radio, ps: seq<ParametricReconfig>)
    requires Agrees(n) && AllOwned(n.engines, ps)
    ensures ReconfiguredAll(n, ps).1 == None && Variant(n, ReconfiguredAll(n, ps).0)
  {
    hide AllOwned, ReconfiguredAll, AllComponents, EnginesSameButValues, WellFormed;
    ReconfigurationsAgree(n, ps);
    OthersKept(n, ps);
    ForEnginesAllIsVariant(n.engines, ps);
  }

  /* ------------------------------------------------------------- values in lower case ---- */

  function LowerValue(p: ParameterDescription): (l: ParameterDescription)
  {
    Parameter(p.name, Lower(p.value))
  }

  function LowerValues(c: ComponentDescription): (l: ComponentDescription)
  {
    c.(parameters := X.Map(LowerValue, c.parameters))
  }

  function LowerEngine(e: EngineDescription): (l: EngineDescription)
  {
    e.(components := X.Map(LowerValues, e.components))
  }

  /** The radio with all its parameter values in lower case, in all three copies. */
  function InLowerCase(n: Radio): (l: Radio)
  {
    var es := X.Map(LowerEngine, n.engines);
    n.(engines := es,
       radioGraph := n.radioGraph.(vertices := AllComponents(es)),
       engineGraph := n.engineGraph.(vertices := es))
  }

  predicate ComponentIsLower(c: ComponentDescription)
  {
    forall q :: 0 <= q < |c.parameters| ==> XL.IsLower(c.parameters[q].value)
  }

  predicate EngineIsLower(e: EngineDescription)
  {
    forall k :: 0 <= k < |e.components| ==> ComponentIsLower(e.components[k])
  }

  /** Every parameter value of the radio is in lower case. */
  predicate ValuesAreLower(n: Radio)
  {
    forall j :: 0 <= j < |n.engines| ==> EngineIsLower(n.engines[j])
  }

  lemma LowerTwice(s: string)
    ensures XL.IsLower(Lower(s))
  {
    assert forall i :: 0 <= i < |s| ==> ToLower(ToLower(s[i])) == ToLower(s[i]);
  }

  lemma LowerValuesFixpoint(c: ComponentDescription)
    ensures LowerValues(c) == c <==> ComponentIsLower(c)
    ensures ComponentIsLower(LowerValues(c)) && SameButValues(c, LowerValues(c))
  {
    var ps := X.Map(LowerValue, c.parameters);
    forall q | 0 <= q < |ps| ensures XL.IsLower(ps[q].value) { LowerTwice(c.parameters[q].value); }
    if LowerValues(c) == c { assert forall q :: 0 <= q < |ps| ==> ps[q] == c.parameters[q]; }
  }

  lemma LowerEngineFixpoint(e: EngineDescription)
    ensures LowerEngine(e) == e <==> EngineIsLower(e)
    ensures EngineIsLower(LowerEngine(e)) && SameEngineButValues(e, LowerEngine(e))
  {
    hide ComponentIsLower, LowerValues, SameButValues;
    var cs := X.Map(LowerValues, e.components);
    forall k | 0 <= k < |cs|
      ensures cs[k] == e.components[k] <==> ComponentIsLower(e.components[k])
      ensures ComponentIsLower(cs[k]) && SameButValues(e.components[k], cs[k])
    {
      LowerValuesFixpoint(e.components[k]);
    }
    if LowerEngine(e) == e { assert cs == e.components; }
  }

  lemma InLowerCaseIs(n: Radio, v: Radio)
    requires Variant(n, v)
    ensures Variant(n, InLowerCase(v)) && ValuesAreLower(InLowerCase(v))
    ensures InLowerCase(v) == v <==> ValuesAreLower(v)
    ensures InLowerCase(v).engines == v.engines <==> ValuesAreLower(v)
  {
    hide LowerEngine, SameEngineButValues, EngineIsLower, AllComponents;
    var es := X.Map(LowerEngine, v.engines);
    forall j | 0 <= j < |es|
      ensures es[j] == v.engines[j] <==> EngineIsLower(v.engines[j])
      ensures EngineIsLower(es[j]) && SameEngineButValues(n.engines[j], es[j])
    {
      LowerEngineFixpoint(v.engines[j]);
      SameEngineTransitive(n.engines[j], v.engines[j], es[j]);
    }
    if InLowerCase(v).engines == v.engines { assert forall j :: 0 <= j < |es| ==> es[j] == v.engines[j]; }
  }

  /* ------------------------------------------------------------------- what is read ---- */

  lemma ComponentIsRead(c: ComponentDescription, d: ComponentDescription, owner: string)
    requires XL.NormalComponent(c, owner) && SameButValues(c, d)
    ensures XL.Owned(d, owner) == LowerValues(d) && (ComponentIsLower(d) ==> XL.NormalComponent(d, owner))
  {
    hide XL.IsLower;
    forall q | 0 <= q < |d.parameters| ensures XL.IsLower(d.parameters[q].name) {
      assert c.parameters[q] in c.parameters;
    }
    forall i | 0 <= i < |d.ports| ensures XL.IsLower(d.ports[i].name) && XL.IsLower(d.ports[i].kind) {
      assert d.ports[i] in c.ports;
    }
    NamesAreLower(d, owner);
  }

  lemma NamesAreLower(d: ComponentDescription, owner: string)
    requires d.engineName == owner && XL.IsLower(d.name) && XL.IsLower(d.kind)
    requires forall q :: 0 <= q < |d.parameters| ==> XL.IsLower(d.parameters[q].name)
    requires forall i :: 0 <= i < |d.ports| ==> XL.IsLower(d.ports[i].name) && XL.IsLower(d.ports[i].kind)
    ensures XL.Owned(d, owner) == LowerValues(d)
  {
    assert X.Map(XL.LowerParameter, d.parameters) == X.Map(LowerValue, d.parameters);
    assert X.Map(XL.LowerPort, d.ports) == d.ports;
  }

  lemma EngineIsRead(e: EngineDescription, f: EngineDescription)
    requires XL.NormalEngine(e) && SameEngineButValues(e, f)
    ensures XL.PlainEngine(f) == LowerEngine(f) && (EngineIsLower(f) ==> XL.NormalEngine(f))
  {
    hide XL.NormalComponent, SameButValues, XL.Owned, LowerValues, ComponentIsLower;
    forall k | 0 <= k < |f.components|
      ensures XL.Owned(f.components[k], e.name) == LowerValues(f.components[k])
      ensures ComponentIsLower(f.components[k]) ==> XL.NormalComponent(f.components[k], e.name)
    {
      assert e.components[k] in e.components;
      ComponentIsRead(e.components[k], f.components[k], e.name);
    }
    assert XL.AllOwned(f.components, e.name) == X.Map(LowerValues, f.components);
  }

  /** The same descriptions, the same radio graph, the same edges between the engines; the graphs inside the
      engines may differ. */
  ghost predicate SameRadio(m: Radio, n: Radio)
  {
    m.controllers == n.controllers && m.links == n.links && m.externalLinks == n.externalLinks &&
    m.radioGraph == n.radioGraph && m.engineGraph.edges == n.engineGraph.edges && |m.engines| == |n.engines| &&
    m.engineGraph.vertices == m.engines && n.engineGraph.vertices == n.engines &&
    forall j :: 0 <= j < |m.engines| ==> m.engines[j] == n.engines[j].(engineGraph := m.engines[j].engineGraph)
  }

  lemma BuiltFromBare(d: X.Radio, n: Radio)
    requires XL.Normal(d) && WellNamed(d) && LinksNameComponents(Start(d)) && IsBuiltFrom(n, Start(d))
    ensures WellFormed(Start(d).engines) && Fresh(Start(d)) && Buildable(Start(d)) && Agrees(n)
    ensures n.controllers == d.controllers && n.links == d.links && |n.engines| == |d.engines|
    ensures forall j :: 0 <= j < |n.engines| ==> Bare(n.engines[j]) == d.engines[j]
  {
    hide XL.Normal, WellNamed, LinksNameComponents, IsBuiltFrom, Buildable, WellFormed, Agrees;
    NormalIsFresh(d);
    BuildSucceedsIff(Start(d));
    BuiltAgrees(n, Start(d));
    OnlyGraphsBuilt(d, n);
    hide Fresh;
    forall j | 0 <= j < |n.engines| ensures Bare(n.engines[j]) == d.engines[j] { BareIsRead(d, n, j); }
  }

  lemma OnlyGraphsBuilt(d: X.Radio, n: Radio)
    requires IsBuiltFrom(n, Start(d))
    ensures n.controllers == d.controllers && n.links == d.links && |n.engines| == |d.engines|
  {
  }

  lemma BareIsRead(d: X.Radio, n: Radio, j: nat)
    requires Fresh(Start(d)) && Buildable(Start(d)) && IsBuiltFrom(n, Start(d)) && j < |d.engines|
    ensures |n.engines| == |d.engines| && Bare(n.engines[j]) == d.engines[j]
  {
    BuiltEngineAt(n, Start(d), j);
  }

  /** The engines of a variant as they are written. */
  lemma SavedEngines(d: X.Radio, n: Radio, v: Radio)
    requires Variant(n, v) && |n.engines| == |d.engines|
    requires forall j :: 0 <= j < |n.engines| ==> Bare(n.engines[j]) == d.engines[j]
    ensures EnginesSameButValues(d.engines, Saved(v).engines)
  {
    hide AllComponents, SameButValues;
    forall j | 0 <= j < |n.engines| ensures SameEngineButValues(d.engines[j], Saved(v).engines[j]) {
      assert Saved(v).engines[j] == Bare(v.engines[j]) && SameEngineButValues(n.engines[j], v.engines[j]);
    }
  }

  /** A variant whose values are in lower case is as normal as the radio it varies. */
  lemma LowerIsNormal(d: X.Radio, n: Radio, v: Radio)
    requires XL.Normal(d) && Variant(n, v) && ValuesAreLower(v)
    requires n.controllers == d.controllers && n.links == d.links && |n.engines| == |d.engines|
    requires forall j :: 0 <= j < |n.engines| ==> Bare(n.engines[j]) == d.engines[j]
    ensures XL.Normal(Saved(v))
  {
    SavedEngines(d, n, v);
    hide XL.NormalController, XL.NormalEngine, XL.NormalLink, SameEngineButValues, AllComponents;
    var es := Saved(v).engines;
    forall e | e in es ensures XL.NormalEngine(e) {
      var j :| 0 <= j < |es| && es[j] == e;
      assert d.engines[j] in d.engines && EngineIsLower(v.engines[j]) && es[j] == Bare(v.engines[j]);
      EngineIsRead(d.engines[j], es[j]);
    }
  }

  /** A written variant is read with its values in lower case. */
  lemma VariantIsRead(d: X.Radio, n: Radio, v: Radio)
    requires XL.Normal(d) && Variant(n, v)
    requires n.controllers == d.controllers && n.links == d.links && |n.engines| == |d.engines|
    requires forall j :: 0 <= j < |n.engines| ==> Bare(n.engines[j]) == d.engines[j]
    ensures X.RadioFrom(X.WrittenRadio(Saved(v))) == Ok(Saved(InLowerCase(v)))
  {
    SavedEngines(d, n, v);
    hide XL.NormalController, XL.NormalEngine, XL.NormalLink, SameEngineButValues, AllComponents, X.RadioFrom;
    hide X.EngineFrom;
    var (es, fs) := (Saved(v).engines, Saved(InLowerCase(v)).engines);
    forall j | 0 <= j < |es| ensures X.EngineFrom(X.Map(X.WrittenEngine, es)[j]) == Ok(fs[j]) {
      assert d.engines[j] in d.engines && es[j] == Bare(v.engines[j]) && fs[j] == Bare(LowerEngine(v.engines[j]));
      EngineIsRead(d.engines[j], es[j]);
      XL.EngineReadBack(es[j]);
    }
    XL.AllOk(X.EngineFrom, X.Map(X.WrittenEngine, es), fs);
    XL.GroupsAreRead(Saved(v), fs);
  }

  lemma BareComponents(es: seq<EngineDescription>)
    ensures AllComponents(X.Map(Bare, es)) == AllComponents(es)
  {
    SameComponents(X.Map(Bare, es), es);
  }

  /** What is read back builds to the same edges. */
  lemma VariantBuilds(d: X.Radio, n: Radio, v: Radio)
    requires XL.Normal(d) && WellNamed(d) && LinksNameComponents(Start(d)) && IsBuiltFrom(n, Start(d))
    requires Variant(n, v) && XL.Normal(Saved(v))
    ensures var b := Start(Saved(v));
            Fresh(Start(d)) && LinksResolve(Start(d)) &&
            Fresh(b) && Buildable(b) && LinksResolve(b) && BuiltEdges(b) == BuiltEdges(Start(d))
  {
    BuiltFromBare(d, n);
    assert LinksResolve(Start(d));
    SavedEngines(d, n, v);
    VariantsSameNames(d.engines, Saved(v).engines);
    StillWellNamed(d, Saved(v));
    NormalIsFresh(Saved(v));
    hide XL.Normal, IsBuiltFrom, LinksNameComponents, AllComponents, Buildable, LinksResolve, WellNamed, WellFormed;
    hide Variant;
    hide EnginesSameButValues;
    SameEdges(Start(d), Start(Saved(v)));
    BuildableWhenResolved(Start(Saved(v)));
  }

  lemma StillWellNamed(d: X.Radio, s: X.Radio)
    requires WellNamed(d) && EnginesSameButValues(d.engines, s.engines)
    requires SameNamesIn(AllComponents(d.engines), AllComponents(s.engines))
    ensures WellNamed(s)
  {
    hide AllComponents;
    assert forall j :: 0 <= j < |d.engines| ==> SameEngineButValues(d.engines[j], s.engines[j]);
  }

  lemma BuiltNames(n: Radio, r: Radio)
    requires Fresh(r) && Buildable(r) && IsBuiltFrom(n, r)
    ensures |n.engines| == |r.engines| && forall j :: 0 <= j < |n.engines| ==> n.engines[j].name == r.engines[j].name
  {
    hide IsBuiltFrom, Buildable, Fresh;
    BuiltEngineCount(n, r);
    forall j | 0 <= j < |n.engines| ensures n.engines[j].name == r.engines[j].name { BuiltEngineAt(n, r, j); }
  }

  /** Two builds with the same edges, over engines that differ in parameters, agree in all that is named. */
  lemma EdgesAlike(a: Radio, b: Radio, n: Radio, m: Radio)
    requires Fresh(a) && Fresh(b) && Buildable(a) && Buildable(b) && IsBuiltFrom(n, a) && IsBuiltFrom(m, b)
    requires LinksResolve(a) && LinksResolve(b) && BuiltEdges(a) == BuiltEdges(b)
    requires |a.engines| == |b.engines| && forall j :: 0 <= j < |a.engines| ==> a.engines[j].name == b.engines[j].name
    ensures m.radioGraph == Graph(AllComponents(b.engines), n.radioGraph.edges) && m.externalLinks == n.externalLinks
    ensures m.engineGraph == Graph(m.engines, n.engineGraph.edges) && |m.engines| == |n.engines|
  {
    hide IsBuiltFrom, Buildable, BuiltEdges, AllComponents, BuiltEngines, External, EngineEdgesFor, Fresh, LinksResolve;
    BuiltNames(n, a);
    BuiltNames(m, b);
    SameEngineEdges(n.externalLinks, n.engines, m.engines);
    BuiltState(n, a);
    BuiltState(m, b);
  }

  lemma EngineAlike(a: Radio, b: Radio, n: Radio, m: Radio, j: nat)
    requires Fresh(a) && Fresh(b) && Buildable(a) && Buildable(b) && IsBuiltFrom(n, a) && IsBuiltFrom(m, b)
    requires j < |a.engines| == |b.engines| && a.engines[j].name == b.engines[j].name
    requires LinksResolve(a) && LinksResolve(b) && BuiltEdges(a) == BuiltEdges(b) && n.externalLinks == m.externalLinks
    ensures |m.engines| == |n.engines| == |b.engines|
    ensures m.engines[j].links == n.engines[j].links && m.engines[j].name == b.engines[j].name == n.engines[j].name
    ensures m.engines[j].kind == b.engines[j].kind && m.engines[j].components == b.engines[j].components
  {
    hide IsBuiltFrom, Buildable, BuiltEdges, Fresh, LinksResolve, Internal, Touching, EdgesFor;
    BuiltEngineAt(n, a, j);
    BuiltEngineAt(m, b, j);
  }

  lemma VariantEngine(n: Radio, v: Radio, m: Radio, j: nat)
    requires j < |n.engines| == |v.engines| == |m.engines| && SameEngineButValues(n.engines[j], v.engines[j])
    requires var b := Saved(v).engines[j];
             m.engines[j].links == n.engines[j].links && m.engines[j].name == b.name &&
             m.engines[j].kind == b.kind && m.engines[j].components == b.components
    ensures m.engines[j] == v.engines[j].(engineGraph := m.engines[j].engineGraph)
  {
    assert Saved(v).engines[j] == Bare(v.engines[j]);
  }

  /** A normal variant that is read and built is that variant. */
  lemma LoadedIsVariant(d: X.Radio, n: Radio, v: Radio, m: Radio)
    requires XL.Normal(d) && WellNamed(d) && LinksNameComponents(Start(d)) && IsBuiltFrom(n, Start(d))
    requires Variant(n, v) && XL.Normal(Saved(v)) && IsBuiltFrom(m, Start(Saved(v)))
    ensures SameRadio(m, v)
  {
    hide XL.Normal, IsBuiltFrom, LinksNameComponents, AllComponents, Buildable, BuiltEdges, WellNamed;
    hide Fresh, LinksResolve, WellFormed;
    BuiltFromBare(d, n);
    VariantBuilds(d, n, v);
    OnlyGraphsBuilt(Saved(v), m);
    BareComponents(v.engines);
    SavedEngines(d, n, v);
    forall j | 0 <= j < |d.engines| ensures d.engines[j].name == Saved(v).engines[j].name {
      assert SameEngineButValues(d.engines[j], Saved(v).engines[j]);
    }
    EdgesAlike(Start(d), Start(Saved(v)), n, m);
    forall j | 0 <= j < |v.engines| ensures m.engines[j] == v.engines[j].(engineGraph := m.engines[j].engineGraph) {
      EngineAlike(Start(d), Start(Saved(v)), n, m, j);
      VariantEngine(n, v, m, j);
    }
  }

  /** Being the same radio settles the values. */
  lemma SameRadioSameValues(m: Radio, v: Radio, w: Radio)
    requires SameRadio(m, v) && SameRadio(m, w) && EnginesSameButValues(v.engines, w.engines)
    ensures v.engines == w.engines
  {
    forall j | 0 <= j < |v.engines| ensures v.engines[j] == w.engines[j] {
      assert m.engines[j] == v.engines[j].(engineGraph := m.engines[j].engineGraph);
      assert m.engines[j] == w.engines[j].(engineGraph := m.engines[j].engineGraph);
      assert SameEngineButValues(v.engines[j], w.engines[j]);
    }
  }

  lemma LowerEnginesVary(v: Radio)
    ensures EnginesSameButValues(v.engines, InLowerCase(v).engines)
  {
    hide SameEngineButValues, AllComponents, LowerEngine;
    forall j | 0 <= j < |v.engines| ensures SameEngineButValues(v.engines[j], InLowerCase(v).engines[j]) {
      LowerEngineFixpoint(v.engines[j]);
    }
  }

  /** A running radio that is saved after any reconfigurations of its own components and loaded again is the
      running radio with its parameter values in lower case, apart from the stale copies of the components in
      the graphs inside its engines; so it is the running radio if and only if its values are in lower
      case. */
  lemma SaveAndLoad(d: X.Radio, n: Radio, ps: seq<ParametricReconfig>, m: Radio, rest: string)
    requires XL.Normal(d) && WellNamed(d) && LinksNameComponents(Start(d)) && IsBuiltFrom(n, Start(d))
    requires AllOwned(n.engines, ps) && XL.Safe(Saved(ReconfiguredAll(n, ps).0))
    ensures var n2 := ReconfiguredAll(n, ps).0;
            var p := ElementAt(Printed(X.WrittenRadio(Running(n2))) + rest);
            p.Parsed? && p.rest == rest && p.value.Element? &&
            X.RadioFrom(p.value) == Ok(Saved(InLowerCase(n2))) &&
            var s := Start(Saved(InLowerCase(n2)));
            Fresh(s) && Buildable(s) &&
            (IsBuiltFrom(m, s) ==> SameRadio(m, InLowerCase(n2)) && (SameRadio(m, n2) <==> ValuesAreLower(n2)))
  {
    hide XL.Safe, XL.Normal, WellNamed, LinksNameComponents, IsBuiltFrom, AllOwned, Agrees, Bare, ReconfiguredAll;
    hide Variant;
    hide SameRadio, InLowerCase, ValuesAreLower;
    var n2 := ReconfiguredAll(n, ps).0;
    BuiltFromBare(d, n);
    ReconfiguredIsVariant(n, ps);
    GraphsAreNotWritten(n2);
    XL.RadioWritable(Saved(n2));
    TL.ElementReadBack(X.WrittenRadio(Saved(n2)), rest);
    VariantIsRead(d, n, n2);
    InLowerCaseIs(n, n2);
    LowerIsNormal(d, n, InLowerCase(n2));
    VariantBuilds(d, n, InLowerCase(n2));
    if IsBuiltFrom(m, Start(Saved(InLowerCase(n2)))) {
      LoadedIsVariant(d, n, InLowerCase(n2), m);
      LowerEnginesVary(n2);
      if SameRadio(m, n2) { SameRadioSameValues(m, n2, InLowerCase(n2)); }
    }
  }

  /* ------------------------------------------------------------- a capital letter ---- */

  function One(value: string): (d: X.Radio)
  {
    X.Radio([], [Engine("b", "k", NO_GRAPH, [Part(value)], [])], [])
  }

  function BuiltOne(value: string): (n: Radio)
  {
    var c := Part(value);
    var es := [Engine("b", "k", Graph([c], []), [c], [])];
    Radio([], es, [], [], Graph([c], []), Graph(es, []), true)
  }

  lemma OneComponent(e: EngineDescription)
    ensures AllComponents([e]) == e.components
  {
    assert [e][..0] == [];
  }

  lemma BuiltOneIsBuilt(value: string)
    ensures IsBuiltFrom(BuiltOne(value), Start(One(value))) && LinksNameComponents(Start(One(value)))
  {
    var r := Start(One(value));
    OneComponent(r.engines[0]);
    hide AllComponents, Part;
    assert RawEdges(r) == [] && RadioVertices(r) == [Part(value)];
    assert BuiltEngines(r.engines, [], []) == BuiltOne(value).engines;
  }

  lemma OneLetter(s: string)
    requires |s| == 1 && 'a' <= s[0] <= 'z'
    ensures TL.IsValue(s) && XL.IsLower(s)
  {
  }

  lemma OneIsNormal()
    ensures XL.Normal(One("0")) && WellNamed(One("0"))
  {
    OneLetter("b");
    OneLetter("c");
    OneLetter("k");
    OneLetter("x");
    OneComponent(One("0").engines[0]);
    hide XL.IsLower, AllComponents;
    assert XL.IsLower("0") by { assert Lower("0")[0] == '0'; }
  }

  lemma ToCapital(p: ParametricReconfig)
    requires p == Reconfig("b", "c", "x", "A")
    ensures NewComponent(Part("0"), p) == Part("A")
  {
    assert WithParameter([Parameter("x", "0")], "x", "A") == [Parameter("x", "A")];
  }

  lemma OneEngineOneChange(e: EngineDescription, p: ParametricReconfig)
    ensures ForEnginesAll([e], [p]) == [ForEngine(e, p)]
    ensures e.name == p.engineName && |e.components| == 1 && e.components[0].name == p.componentName ==>
              ForEngine(e, p) == e.(components := [NewComponent(e.components[0], p)]) && AllOwned([e], [p])
  {
    hide NewComponent;
    assert [p][..0] == [] && ForEnginesAll([e], []) == [e] && ForEngines([e], p)[0] == ForEngine(e, p);
    if e.name == p.engineName && |e.components| == 1 && e.components[0].name == p.componentName {
      assert ForComponents(e.components, p)[0] == NewComponent(e.components[0], p);
      assert [e][0].name == p.engineName && FindComponent(p.componentName, [e][0].components) == 0;
    }
  }

  lemma OneIsChanged(p: ParametricReconfig)
    requires p == Reconfig("b", "c", "x", "A")
    ensures AllOwned(BuiltOne("0").engines, [p])
    ensures var (n, e) := ReconfiguredAll(BuiltOne("0"), [p]);
            e == None && n.controllers == [] && n.links == [] &&
            n.engines == [BuiltOne("0").engines[0].(components := [Part("A")])]
  {
    hide Agrees, ReconfiguredAll, AllOwned, AllComponents, IsBuiltFrom, NewComponent, Part;
    OneAgrees();
    OneIsOwned(p);
    ReconfigurationsAgree(BuiltOne("0"), [p]);
    OthersKept(BuiltOne("0"), [p]);
  }

  lemma OneAgrees()
    ensures Agrees(BuiltOne("0"))
  {
    hide XL.Normal, WellNamed, Agrees, AllComponents, IsBuiltFrom, LinksNameComponents, BuiltOne, One, WellFormed;
    hide Fresh;
    hide Buildable, Bare;
    BuiltOneIsBuilt("0");
    OneIsNormal();
    BuiltFromBare(One("0"), BuiltOne("0"));
  }

  lemma OneIsOwned(p: ParametricReconfig)
    requires p == Reconfig("b", "c", "x", "A")
    ensures var e := BuiltOne("0").engines[0];
            AllOwned([e], [p]) && ForEnginesAll([e], [p]) == [e.(components := [Part("A")])]
  {
    hide NewComponent, ForEnginesAll, AllOwned, ForEngine;
    ToCapital(p);
    OneEngineOneChange(BuiltOne("0").engines[0], p);
  }

  lemma CapitalIsSafe()
    ensures XL.Safe(One("A"))
  {
    OneLetter("b");
    OneLetter("c");
    OneLetter("k");
    OneLetter("x");
    hide TL.IsValue;
    assert TL.IsValue("A") by { Capital(); }
  }

  lemma Capital()
    ensures TL.IsValue("A") && Lower("A") == "a" && !XL.IsLower("A")
  {
    assert Lower("A")[0] == 'a';
  }

  /** What is saved and what is read of a radio with that one engine. */
  lemma CapitalIsLowered(n: Radio)
    requires n.controllers == [] && n.links == []
    requires |n.engines| == 1 && Bare(n.engines[0]) == One("A").engines[0]
    ensures Saved(n) == One("A") && Saved(InLowerCase(n)) == One("a") && !ValuesAreLower(n)
  {
    PartIsLowered();
    var (e, l) := (n.engines[0], InLowerCase(n));
    hide AllComponents, Part, LowerValues, ComponentIsLower;
    assert e.components == [Part("A")] && LowerEngine(e).components == [Part("a")];
    assert l.engines[0] == LowerEngine(e) && Saved(l).engines[0] == Bare(l.engines[0]) == One("a").engines[0];
    assert Saved(n).engines[0] == Bare(e) && Saved(n).engines == One("A").engines;
    assert Saved(l).engines == One("a").engines;
    assert !EngineIsLower(e) by { assert !ComponentIsLower(e.components[0]); }
  }

  lemma PartIsLowered()
    ensures LowerValues(Part("A")) == Part("a") && !ComponentIsLower(Part("A"))
  {
    Capital();
    hide Lower, XL.IsLower;
    var (ps, ls) := (Part("A").parameters, X.Map(LowerValue, Part("A").parameters));
    assert |ls| == 1 && ls[0] == Parameter("x", Lower("A"));
    assert !XL.IsLower(ps[0].value);
  }

  /** One reconfiguration to a capital letter: the running radio has it, the loaded one the small letter. */
  lemma CapitalIsLost(rest: string)
    ensures IsBuiltFrom(BuiltOne("0"), Start(One("0"))) && IsBuiltFrom(BuiltOne("a"), Start(One("a")))
    ensures var (n, e) := ReconfiguredAll(BuiltOne("0"), [Reconfig("b", "c", "x", "A")]);
            var p := ElementAt(Printed(X.WrittenRadio(Running(n))) + rest);
            e == None && Saved(n) == One("A") && p.Parsed? && p.value.Element? &&
            X.RadioFrom(p.value) == Ok(One("a")) && !SameRadio(BuiltOne("a"), n)
  {
    var p := Reconfig("b", "c", "x", "A");
    var n := ReconfiguredAll(BuiltOne("0"), [p]).0;
    hide XL.Safe, XL.Normal, WellNamed, IsBuiltFrom, LinksNameComponents, AllOwned, ReconfiguredAll, SameRadio;
    hide InLowerCase;
    hide ValuesAreLower;
    BuiltOneIsBuilt("0");
    BuiltOneIsBuilt("a");
    OneIsNormal();
    OneIsChanged(p);
    CapitalIsSafe();
    CapitalIsLowered(n);
    hide Saved, One, BuiltOne, Start, Running, Part;
    SaveAndLoad(One("0"), BuiltOne("0"), [p], BuiltOne("a"), rest);
  }
}
