/** The graphs hold every link once, and the three copies of the components stay in agreement. */
module RadioLaws {
  import opened Wrappers
  import opened RadioTypes
  import opened RadioRepresentation
  import opened Sequences

  /* ------------------------------------------------------------ well-formed engines ---- */

  predicate EngineNamesDistinct(es: seq<EngineDescription>)
  {
    forall i, j :: 0 <= i < j < |es| ==> es[i].name != es[j].name
  }

  predicate ComponentNamesDistinct(cs: seq<ComponentDescription>)
  {
    forall i, j :: 0 <= i < j < |cs| ==> cs[i].name != cs[j].name
  }

  predicate Owned(e: EngineDescription)
  {
    forall k :: 0 <= k < |e.components| ==> e.components[k].engineName == e.name
  }

  /** What a description read from XML satisfies when its names are distinct. */
  predicate WellFormed(es: seq<EngineDescription>)
  {
    EngineNamesDistinct(es) && ComponentNamesDistinct(AllComponents(es)) && forall j :: 0 <= j < |es| ==> Owned(es[j])
  }

  /** Nothing has been built yet. */
  predicate Fresh(r: Radio)
  {
    r.externalLinks == [] && r.radioGraph == NO_GRAPH && r.engineGraph == Graph([], []) &&
    forall j :: 0 <= j < |r.engines| ==> r.engines[j].links == [] && r.engines[j].engineGraph == NO_GRAPH
  }

  /* ------------------------------------------------- components and their positions ---- */

  /** Where the components of engine j begin in the list of all components. */
  function Offset(es: seq<EngineDescription>, j: nat): nat
    requires j <= |es|
  {
    |AllComponents(es[..j])|
  }

  lemma {:induction false} ComponentAt(es: seq<EngineDescription>, j: nat, k: nat)
    requires j < |es| && k < |es[j].components|
    ensures Offset(es, j) + k < |AllComponents(es)|
    ensures AllComponents(es)[Offset(es, j) + k] == es[j].components[k]
    decreases |es|
  {
    if j + 1 < |es| {
      assert es[..|es| - 1][..j] == es[..j];
      ComponentAt(es[..|es| - 1], j, k);
    }
  }

  lemma {:induction false} ComponentFrom(es: seq<EngineDescription>, v: nat) returns (j: nat, k: nat)
    requires v < |AllComponents(es)|
    ensures j < |es| && k < |es[j].components| && v == Offset(es, j) + k
    ensures AllComponents(es)[v] == es[j].components[k]
    decreases |es|
  {
    var rest := es[..|es| - 1];
    if v < |AllComponents(rest)| {
      j, k := ComponentFrom(rest, v);
      assert rest[..j] == es[..j];
    } else {
      j, k := |es| - 1, v - |AllComponents(rest)|;
    }
  }

  /** Changing one component of one engine changes one entry of the list. */
  lemma {:induction false} UpdateOne(es: seq<EngineDescription>, j: nat, k: nat, comp: ComponentDescription)
    requires j < |es| && k < |es[j].components|
    ensures Offset(es, j) + k < |AllComponents(es)|
    ensures AllComponents(es[j := es[j].(components := es[j].components[k := comp])]) ==
            AllComponents(es)[Offset(es, j) + k := comp]
    decreases |es|
  {
    ComponentAt(es, j, k);
    var n := es[j := es[j].(components := es[j].components[k := comp])];
    var rest := es[..|es| - 1];
    if j + 1 < |es| {
      assert rest[..j] == es[..j];
      UpdateOne(rest, j, k, comp);
      assert n[..|es| - 1] == rest[j := rest[j].(components := rest[j].components[k := comp])];
    } else {
      assert n[..|es| - 1] == rest;
    }
  }

  lemma {:induction false} SameComponents(a: seq<EngineDescription>, b: seq<EngineDescription>)
    requires |a| == |b| && forall j :: 0 <= j < |a| ==> a[j].components == b[j].components
    ensures AllComponents(a) == AllComponents(b)
    decreases |a|
  {
    if |a| > 0 { SameComponents(a[..|a| - 1], b[..|b| - 1]); }
  }

  /** Every component of the list belongs to the engine it names, and to no other. */
  lemma OwnerOf(es: seq<EngineDescription>, v: nat) returns (j: nat, k: nat)
    requires WellFormed(es) && v < |AllComponents(es)|
    ensures j < |es| && k < |es[j].components| && AllComponents(es)[v] == es[j].components[k]
    ensures AllComponents(es)[v].engineName == es[j].name
    ensures forall i :: 0 <= i < |es| && es[i].name == es[j].name ==> i == j
  {
    j, k := ComponentFrom(es, v);
    assert Owned(es[j]);
  }

  /* ------------------------------------------------------------------ what is built ---- */

  lemma {:induction false} InternalMember(es: seq<Edge<LinkDescription>>, engine: string, l: LinkDescription)
    ensures l in Internal(es, engine) <==>
            l.sourceEngine == l.sinkEngine == engine && exists k :: 0 <= k < |es| && es[k].property == l
    decreases |es|
  {
    if |es| > 0 { InternalMember(es[..|es| - 1], engine, l); }
  }

  lemma {:induction false} ExternalMember(es: seq<Edge<LinkDescription>>, l: LinkDescription)
    ensures l in External(es) <==>
            l.sourceEngine != l.sinkEngine && exists k :: 0 <= k < |es| && es[k].property == l
    decreases |es|
  {
    if |es| > 0 { ExternalMember(es[..|es| - 1], l); }
  }

  lemma {:induction false} TouchingMember(ls: seq<LinkDescription>, engine: string, l: LinkDescription)
    ensures l in Touching(ls, engine) <==> l in ls && (engine == l.sourceEngine || engine == l.sinkEngine)
    decreases |ls|
  {
    if |ls| > 0 { TouchingMember(ls[..|ls| - 1], engine, l); }
  }

  /** The edges of the radio graph as buildGraphs leaves them. */
  function BuiltEdges(r: Radio): (es: seq<Edge<LinkDescription>>)
    requires Fresh(r) && LinksResolve(r)
    ensures |es| == |r.links|
  {
    RawEdgesJoin(r);
    Stamped(RawEdges(r), RadioVertices(r))
  }

  /** An edge carries its link, and names the engines of the two components the link names. */
  lemma BuiltEdge(r: Radio, k: nat)
    requires Fresh(r) && LinksResolve(r) && k < |r.links|
    ensures var (e, vs) := (BuiltEdges(r)[k], AllComponents(r.engines));
            e.source < |vs| && e.target < |vs| &&
            vs[e.source].name == r.links[k].sourceComponent && vs[e.target].name == r.links[k].sinkComponent &&
            e.property == r.links[k].(sourceEngine := vs[e.source].engineName, sinkEngine := vs[e.target].engineName)
  {
    hide AllComponents;
    RawEdgesJoin(r);
    assert RadioVertices(r) == AllComponents(r.engines);
    assert RawEdges(r)[k] == EdgeFor(r.links[k], AllComponents(r.engines));
    assert Resolves(r.links[k], AllComponents(r.engines));
  }

  /** The two engines of a link, and the link's components in them. */
  lemma LinkEngines(r: Radio, k: nat) returns (i: nat, j: nat)
    requires WellFormed(r.engines) && Fresh(r) && LinksResolve(r) && k < |r.links|
    ensures i < |r.engines| && j < |r.engines|
    ensures var l := BuiltEdges(r)[k].property;
            l.sourceEngine == r.engines[i].name && l.sinkEngine == r.engines[j].name &&
            FindComponent(l.sourceComponent, r.engines[i].components) < |r.engines[i].components| &&
            FindComponent(l.sinkComponent, r.engines[j].components) < |r.engines[j].components|
  {
    BuiltEdge(r, k);
    hide WellFormed, BuiltEdges, AllComponents;
    var e := BuiltEdges(r)[k];
    var c, d;
    i, c := OwnerOf(r.engines, e.source);
    j, d := OwnerOf(r.engines, e.target);
    assert r.engines[i].components[c].name == e.property.sourceComponent;
    assert r.engines[j].components[d].name == e.property.sinkComponent;
  }

  lemma InternalResolves(r: Radio, j: nat, l: LinkDescription)
    requires WellFormed(r.engines) && Fresh(r) && LinksResolve(r) && j < |r.engines|
    requires l in Internal(BuiltEdges(r), r.engines[j].name)
    ensures Resolves(l, r.engines[j].components)
  {
    InternalMember(BuiltEdges(r), r.engines[j].name, l);
    hide Internal, BuiltEdges, AllComponents;
    var k :| 0 <= k < |BuiltEdges(r)| && BuiltEdges(r)[k].property == l;
    var a, b := LinkEngines(r, k);
    assert a == j && b == j;
  }

  lemma EngineFound(name: string, es: seq<EngineDescription>, j: nat)
    requires j < |es| && es[j].name == name
    ensures FindEngine(name, es) < |es|
  {
  }

  lemma ExternalResolves(r: Radio, n: seq<EngineDescription>, l: LinkDescription)
    requires WellFormed(r.engines) && Fresh(r) && LinksResolve(r) && l in External(BuiltEdges(r))
    requires |n| == |r.engines| && forall j :: 0 <= j < |n| ==> n[j].name == r.engines[j].name
    ensures EnginesResolve(l, n)
  {
    ExternalMember(BuiltEdges(r), l);
    hide External, BuiltEdges, AllComponents;
    var k :| 0 <= k < |BuiltEdges(r)| && BuiltEdges(r)[k].property == l;
    var a, b := LinkEngines(r, k);
    EngineFound(l.sourceEngine, n, a);
    EngineFound(l.sinkEngine, n, b);
  }

  /** Does every link name components that some engine has? */
  ghost predicate LinksNameComponents(r: Radio)
  {
    forall k :: 0 <= k < |r.links| ==>
      Exists(r.engines, r.links[k].sourceComponent) && Exists(r.engines, r.links[k].sinkComponent)
  }

  ghost predicate Exists(es: seq<EngineDescription>, component: string)
  {
    exists j, c :: 0 <= j < |es| && 0 <= c < |es[j].components| && es[j].components[c].name == component
  }

  lemma ExistsIffFound(es: seq<EngineDescription>, component: string)
    ensures Exists(es, component) <==> FindComponent(component, AllComponents(es)) < |AllComponents(es)|
  {
    var v := FindComponent(component, AllComponents(es));
    if v < |AllComponents(es)| {
      var j, k := ComponentFrom(es, v);
      assert es[j].components[k].name == component;
    }
    if Exists(es, component) {
      var j, c :| 0 <= j < |es| && 0 <= c < |es[j].components| && es[j].components[c].name == component;
      ComponentAt(es, j, c);
    }
  }

  lemma EngineResolvesWhenFresh(r: Radio, j: nat)
    requires WellFormed(r.engines) && Fresh(r) && LinksResolve(r) && j < |r.engines|
    ensures EngineResolves(WithInternal(r.engines[j], BuiltEdges(r)))
  {
    hide BuiltEdges, AllComponents, WellFormed, LinksResolve, Internal, Resolves;
    var e := WithInternal(r.engines[j], BuiltEdges(r));
    assert e.links == Internal(BuiltEdges(r), r.engines[j].name);
    assert e.engineGraph.vertices + e.components == r.engines[j].components;
    forall k | 0 <= k < |e.links| ensures Resolves(e.links[k], r.engines[j].components) {
      InternalResolves(r, j, e.links[k]);
    }
  }

  lemma BuildableWhenResolved(r: Radio)
    requires WellFormed(r.engines) && Fresh(r) && LinksResolve(r)
    ensures Buildable(r)
  {
    hide AllComponents, WellFormed, EngineResolves, EnginesResolve, Internal, External;
    var es := BuiltEdges(r);
    forall j | 0 <= j < |r.engines| ensures EngineResolves(WithInternal(r.engines[j], es)) {
      EngineResolvesWhenFresh(r, j);
    }
    var ext := r.externalLinks + External(es);
    assert ext == External(es);
    var n := BuiltEngines(r.engines, es, ext);
    assert r.engineGraph.vertices + n == n;
    forall k | 0 <= k < |ext| ensures EnginesResolve(ext[k], n) {
      ExternalResolves(r, n, ext[k]);
    }
  }

  /** buildGraphs succeeds on a fresh representation exactly when every link names existing components. */
  lemma BuildSucceedsIff(r: Radio)
    requires WellFormed(r.engines) && Fresh(r)
    ensures Buildable(r) <==> LinksNameComponents(r)
  {
    hide AllComponents, WellFormed;
    assert RadioVertices(r) == AllComponents(r.engines);
    forall k | 0 <= k < |r.links|
      ensures Resolves(r.links[k], RadioVertices(r)) <==>
              Exists(r.engines, r.links[k].sourceComponent) && Exists(r.engines, r.links[k].sinkComponent)
    {
      ExistsIffFound(r.engines, r.links[k].sourceComponent);
      ExistsIffFound(r.engines, r.links[k].sinkComponent);
    }
    if LinksResolve(r) { BuildableWhenResolved(r); }
  }

  /** What it throws on a fresh representation names the first component that a link refers to and no engine has. */
  lemma BuildFailureNames(r: Radio, e: RadioError)
    requires WellFormed(r.engines) && Fresh(r) && !Buildable(r) && BuildFails(r, e)
    ensures exists k :: 0 <= k < |r.links| &&
              (forall i :: 0 <= i < k ==>
                 Exists(r.engines, r.links[i].sourceComponent) && Exists(r.engines, r.links[i].sinkComponent)) &&
              e == NoComponent(if Exists(r.engines, r.links[k].sourceComponent) then r.links[k].sinkComponent
                               else r.links[k].sourceComponent) &&
              !(Exists(r.engines, r.links[k].sourceComponent) && Exists(r.engines, r.links[k].sinkComponent))
  {
    hide AllComponents, WellFormed, Exists;
    assert RadioVertices(r) == AllComponents(r.engines);
    if LinksResolve(r) { BuildableWhenResolved(r); }
    forall k | 0 <= k < |r.links|
      ensures Exists(r.engines, r.links[k].sourceComponent) <==>
              FindComponent(r.links[k].sourceComponent, RadioVertices(r)) < |RadioVertices(r)|
      ensures Exists(r.engines, r.links[k].sinkComponent) <==>
              FindComponent(r.links[k].sinkComponent, RadioVertices(r)) < |RadioVertices(r)|
    {
      ExistsIffFound(r.engines, r.links[k].sourceComponent);
      ExistsIffFound(r.engines, r.links[k].sinkComponent);
    }
  }

  /* --------------------------------------------------------- what the graphs then hold ---- */

  lemma BuiltState(n: Radio, r: Radio)
    requires Fresh(r) && Buildable(r) && IsBuiltFrom(n, r)
    ensures LinksResolve(r)
    ensures n.radioGraph == Graph(AllComponents(r.engines), BuiltEdges(r)) && n.externalLinks == External(BuiltEdges(r))
    ensures n.engines == BuiltEngines(r.engines, BuiltEdges(r), n.externalLinks)
    ensures n.engineGraph == Graph(n.engines, EngineEdgesFor(n.externalLinks, n.engines))
  {
    hide AllComponents, BuiltEngines, External, EngineEdgesFor, EngineResolves, WithInternal, EdgesFor, Joins, Resolves;
    hide Stamped;
    assert LinksResolve(r) by { hide LinksResolve, IsBuiltFrom; }
    assert RadioVertices(r) == AllComponents(r.engines);
    RawEdgesJoin(r);
    assert r.externalLinks + External(BuiltEdges(r)) == External(BuiltEdges(r));
    hide Buildable, LinksResolve, RawEdges;
  }

  lemma BuiltEngineAt(n: Radio, r: Radio, j: nat)
    requires Fresh(r) && Buildable(r) && IsBuiltFrom(n, r) && j < |r.engines|
    ensures LinksResolve(r) && |n.engines| == |r.engines|
    ensures var (e, inner) := (n.engines[j], Internal(BuiltEdges(r), r.engines[j].name));
            e.name == r.engines[j].name && e.kind == r.engines[j].kind && e.components == r.engines[j].components &&
            e.links == inner + Touching(n.externalLinks, e.name) &&
            e.engineGraph == Graph(e.components, EdgesFor(inner, e.components))
  {
    BuiltState(n, r);
    hide IsBuiltFrom, Buildable, BuiltEdges, AllComponents, Internal, Touching, WithTouching, WithGraph, WithInternal;
    FreshEngine(r.engines[j], BuiltEdges(r), n.externalLinks);
  }

  /** The three stages for one engine that has no links and no graph yet. */
  lemma FreshEngine(e: EngineDescription, es: seq<Edge<LinkDescription>>, ext: seq<LinkDescription>)
    requires e.links == [] && e.engineGraph == NO_GRAPH
    ensures var (b, inner) := (WithTouching(WithGraph(WithInternal(e, es)), ext), Internal(es, e.name));
            b.name == e.name && b.kind == e.kind && b.components == e.components &&
              b.links == inner + Touching(ext, e.name) &&
            b.engineGraph == Graph(e.components, EdgesFor(inner, e.components))
  {
    hide Internal, Touching, EdgesFor;
    assert e.links + Internal(es, e.name) == Internal(es, e.name);
    assert e.engineGraph.vertices + e.components == e.components;
    assert e.engineGraph.edges + EdgesFor(Internal(es, e.name), e.components) ==
      EdgesFor(Internal(es, e.name), e.components);
  }

  /** Every link becomes one edge of the radio graph. An internal one is listed by its engine and by no
      other, an external one by exactly the two engines it joins. */
  lemma LinkPlacement(n: Radio, r: Radio, k: nat, j: nat)
    requires WellFormed(r.engines) && Fresh(r) && Buildable(r) && IsBuiltFrom(n, r)
    requires k < |r.links| && j < |r.engines|
    ensures |n.radioGraph.edges| == |r.links| && |n.engines| == |r.engines|
    ensures var l := n.radioGraph.edges[k].property;
            (l.sourceEngine != l.sinkEngine <==> l in n.externalLinks) &&
            (l in n.engines[j].links <==> n.engines[j].name == l.sourceEngine || n.engines[j].name == l.sinkEngine)
  {
    hide IsBuiltFrom, Buildable, AllComponents, BuiltEngines, External, Internal, Touching, WellFormed, EngineEdgesFor;
    hide BuiltEdges, EdgesFor;
    BuiltState(n, r);
    BuiltEngineAt(n, r, j);
    var es := BuiltEdges(r);
    var l := es[k].property;
    InternalMember(es, r.engines[j].name, l);
    ExternalMember(es, l);
    TouchingMember(n.externalLinks, n.engines[j].name, l);
  }

  /* ----------------------------------------------------------- what the edges join ---- */

  predicate HasComponent(e: EngineDescription, component: string)
  {
    exists c :: 0 <= c < |e.components| && e.components[c].name == component
  }

  /** The engines that an external link joins. */
  lemma ExternalEngines(n: Radio, r: Radio, l: LinkDescription) returns (i: nat, j: nat)
    requires WellFormed(r.engines) && Fresh(r) && Buildable(r) && IsBuiltFrom(n, r) && l in n.externalLinks
    ensures |n.engines| == |r.engines| && i < |n.engines| && j < |n.engines| && l.sourceEngine != l.sinkEngine
    ensures n.engines[i].name == l.sourceEngine && HasComponent(n.engines[i], l.sourceComponent)
    ensures n.engines[j].name == l.sinkEngine && HasComponent(n.engines[j], l.sinkComponent)
  {
    hide IsBuiltFrom, Buildable, AllComponents, BuiltEngines, External, BuiltEdges, Owned, ComponentNamesDistinct;
    hide Fresh;
    hide WellFormed, HasComponent, FindComponent, Internal, Touching, EdgesFor, EngineEdgesFor;
    BuiltState(n, r);
    ExternalMember(BuiltEdges(r), l);
    var x :| 0 <= x < |BuiltEdges(r)| && BuiltEdges(r)[x].property == l;
    i, j := LinkEngines(r, x);
    BuiltEngineAt(n, r, i);
    BuiltEngineAt(n, r, j);
    FoundIsHad(n.engines[i], l.sourceComponent);
    FoundIsHad(n.engines[j], l.sinkComponent);
  }

  lemma FoundIsHad(e: EngineDescription, component: string)
    requires FindComponent(component, e.components) < |e.components|
    ensures HasComponent(e, component)
  {
    assert e.components[FindComponent(component, e.components)].name == component;
  }

  /** Every external link is one edge of the engine graph, from the engine that has the link's source
      component to the engine that has its sink component. */
  lemma EngineEdgeJoins(n: Radio, r: Radio, k: nat)
    requires WellFormed(r.engines) && Fresh(r) && Buildable(r) && IsBuiltFrom(n, r) && k < |n.externalLinks|
    ensures |n.engineGraph.edges| == |n.externalLinks| && n.engineGraph.edges[k].property == n.externalLinks[k]
    ensures var (e, vs) := (n.engineGraph.edges[k], n.engineGraph.vertices);
            e.source < |vs| && e.target < |vs| && e.source != e.target &&
            vs[e.source].name == e.property.sourceEngine && HasComponent(vs[e.source], e.property.sourceComponent) &&
            vs[e.target].name == e.property.sinkEngine && HasComponent(vs[e.target], e.property.sinkComponent)
  {
    hide IsBuiltFrom, Buildable, AllComponents, BuiltEngines, External, BuiltEdges, Fresh, HasComponent, Owned;
    hide ComponentNamesDistinct;
    BuiltState(n, r);
    var l := n.externalLinks[k];
    var i, j := ExternalEngines(n, r, l);
    BuiltEngineNamed(n, r, i);
    BuiltEngineNamed(n, r, j);
    EngineFound(l.sourceEngine, n.engines, i);
    EngineFound(l.sinkEngine, n.engines, j);
    OnlyEngine(n, r, i, FindEngine(l.sourceEngine, n.engines));
    OnlyEngine(n, r, j, FindEngine(l.sinkEngine, n.engines));
  }

  lemma BuiltEngineNamed(n: Radio, r: Radio, i: nat)
    requires Fresh(r) && Buildable(r) && IsBuiltFrom(n, r) && i < |r.engines|
    ensures |n.engines| == |r.engines| && n.engines[i].name == r.engines[i].name
  {
    hide Fresh, Buildable, IsBuiltFrom;
    BuiltEngineAt(n, r, i);
  }

  /** Engines are known by their names. */
  lemma OnlyEngine(n: Radio, r: Radio, i: nat, j: nat)
    requires EngineNamesDistinct(r.engines) && Fresh(r) && Buildable(r) && IsBuiltFrom(n, r)
    requires i < |r.engines| && j < |n.engines| && n.engines[j].name == r.engines[i].name
    ensures i == j
  {
    hide IsBuiltFrom, Buildable, Fresh;
    BuiltEngineCount(n, r);
    BuiltEngineAt(n, r, j);
  }

  lemma BuiltEngineCount(n: Radio, r: Radio)
    requires IsBuiltFrom(n, r)
    ensures |n.engines| == |r.engines|
  {
  }

  function LinksOf(es: seq<Edge<LinkDescription>>): (ls: seq<LinkDescription>)
    ensures |ls| == |es|
    ensures forall k :: 0 <= k < |es| ==> ls[k] == es[k].property
  {
    seq(|es|, k requires 0 <= k < |es| => es[k].property)
  }

  lemma {:induction false} ExternalIsKept(es: seq<Edge<LinkDescription>>) returns (at: seq<nat>)
    ensures Keeps(LinksOf(es), (l: LinkDescription) => l.sourceEngine != l.sinkEngine, External(es), at)
    decreases |es|
  {
    if |es| == 0 {
      at := [];
    } else {
      var before := es[..|es| - 1];
      at := ExternalIsKept(before);
      var l := es[|es| - 1].property;
      KeepsOneMore(LinksOf(before), (l: LinkDescription) => l.sourceEngine != l.sinkEngine, External(before), at, l);
      assert LinksOf(before) + [l] == LinksOf(es);
      if l.sourceEngine != l.sinkEngine { at := at + [|before|]; }
    }
  }

  lemma {:induction false} InternalIsKept(es: seq<Edge<LinkDescription>>, engine: string) returns (at: seq<nat>)
    ensures Keeps(LinksOf(es), (l: LinkDescription) => l.sourceEngine == l.sinkEngine == engine, Internal(es, engine),
                  at)
    decreases |es|
  {
    if |es| == 0 {
      at := [];
    } else {
      var before := es[..|es| - 1];
      at := InternalIsKept(before, engine);
      var l := es[|es| - 1].property;
      KeepsOneMore(LinksOf(before), (l: LinkDescription) => l.sourceEngine == l.sinkEngine == engine,
                   Internal(before, engine), at, l);
      assert LinksOf(before) + [l] == LinksOf(es);
      if l.sourceEngine == l.sinkEngine == engine { at := at + [|before|]; }
    }
  }

  lemma {:induction false} TouchingIsKept(ls: seq<LinkDescription>, engine: string) returns (at: seq<nat>)
    ensures Keeps(ls, (l: LinkDescription) => l.sourceEngine == engine || l.sinkEngine == engine, Touching(ls, engine),
                  at)
    decreases |ls|
  {
    if |ls| == 0 {
      at := [];
    } else {
      var before := ls[..|ls| - 1];
      at := TouchingIsKept(before, engine);
      var l := ls[|ls| - 1];
      KeepsOneMore(before, (l: LinkDescription) => l.sourceEngine == engine || l.sinkEngine == engine,
                   Touching(before, engine), at, l);
      assert before + [l] == ls;
      if engine == l.sourceEngine || engine == l.sinkEngine { at := at + [|before|]; }
    }
  }

  /** The links of the radio are sorted in their order: those between engines, and for each engine first
      those inside it, then those that begin or end in it. */
  lemma LinksAreSorted(n: Radio, r: Radio, j: nat)
    returns (external: seq<nat>, inner: seq<nat>, touching: seq<nat>, cut: nat)
    requires WellFormed(r.engines) && Fresh(r) && Buildable(r) && IsBuiltFrom(n, r) && j < |r.engines|
    ensures |n.engines| == |r.engines| && cut <= |n.engines[j].links|
    ensures var (all, e) := (LinksOf(n.radioGraph.edges), n.engines[j]);
            Keeps(all, (l: LinkDescription) => l.sourceEngine != l.sinkEngine, n.externalLinks, external) &&
            Keeps(all, (l: LinkDescription) => l.sourceEngine == l.sinkEngine == e.name, e.links[..cut], inner) &&
            Keeps(n.externalLinks, (l: LinkDescription) => l.sourceEngine == e.name || l.sinkEngine == e.name,
                  e.links[cut..], touching)
  {
    hide IsBuiltFrom, Buildable, AllComponents, BuiltEngines, External, Internal, Touching, BuiltEdges, Fresh;
    hide WellFormed;
    hide Keeps;
    BuiltState(n, r);
    BuiltEngineAt(n, r, j);
    var es, e := BuiltEdges(r), n.engines[j];
    external := ExternalIsKept(es);
    inner := InternalIsKept(es, e.name);
    touching := TouchingIsKept(n.externalLinks, e.name);
    cut := |Internal(es, e.name)|;
    assert e.links[..cut] == Internal(es, e.name) && e.links[cut..] == Touching(n.externalLinks, e.name);
  }

  /** The graph inside an engine: its components, and one edge for each link inside it, from the link's
      source component to its sink component. */
  lemma InnerEdgeJoins(n: Radio, r: Radio, j: nat, k: nat)
    requires WellFormed(r.engines) && Fresh(r) && Buildable(r) && IsBuiltFrom(n, r) && j < |r.engines|
    ensures |n.engines| == |r.engines| && n.engines[j].engineGraph.vertices == r.engines[j].components
    ensures |n.engines[j].engineGraph.edges| <= |n.engines[j].links|
    ensures k < |n.engines[j].engineGraph.edges| ==>
              var (e, vs) := (n.engines[j].engineGraph.edges[k], r.engines[j].components);
              e.property == n.engines[j].links[k] && e.source < |vs| && e.target < |vs| &&
              e.property.sourceEngine == e.property.sinkEngine == r.engines[j].name &&
              vs[e.source].name == e.property.sourceComponent && vs[e.target].name == e.property.sinkComponent
  {
    hide IsBuiltFrom, Buildable, AllComponents, BuiltEngines, Internal, BuiltEdges, Fresh, WellFormed;
    BuiltEngineAt(n, r, j);
    var (inner, vs) := (Internal(BuiltEdges(r), r.engines[j].name), r.engines[j].components);
    if k < |inner| {
      var l := inner[k];
      assert l in inner && n.engines[j].engineGraph.edges[k] == EdgeFor(l, vs);
      InternalMember(BuiltEdges(r), r.engines[j].name, l);
      InternalResolves(r, j, l);
    }
  }

  /** Edges of all engine graphs together. */
  function InnerEdges(es: seq<EngineDescription>): (total: nat)
    decreases |es|
  {
    if |es| == 0 then 0 else InnerEdges(es[..|es| - 1]) + |es[|es| - 1].engineGraph.edges|
  }

  function InnerLinks(engines: seq<EngineDescription>, es: seq<Edge<LinkDescription>>): (total: nat)
    decreases |engines|
  {
    if |engines| == 0 then 0
    else InnerLinks(engines[..|engines| - 1], es) + |Internal(es, engines[|engines| - 1].name)|
  }

  lemma {:induction false} InnerLinksOfNone(engines: seq<EngineDescription>)
    ensures InnerLinks(engines, []) == 0
    decreases |engines|
  {
    if |engines| > 0 { InnerLinksOfNone(engines[..|engines| - 1]); }
  }

  /** One more internal edge counts once, in the one engine it names. */
  lemma {:induction false} InnerLinksOfOneMore(engines: seq<EngineDescription>, es: seq<Edge<LinkDescription>>,
        owner: int)
    requires EngineNamesDistinct(engines) && |es| > 0
    requires var l := es[|es| - 1].property;
             if l.sourceEngine == l.sinkEngine then
               (0 <= owner < |engines| ==> engines[owner].name == l.sourceEngine) &&
               (!(0 <= owner < |engines|) ==> forall j :: 0 <= j < |engines| ==> engines[j].name != l.sourceEngine)
             else owner == -1
    ensures InnerLinks(engines, es) == InnerLinks(engines, es[..|es| - 1]) + if 0 <= owner < |engines| then 1 else 0
    decreases |engines|
  {
    if |engines| > 0 {
      InnerLinksOfOneMore(engines[..|engines| - 1], es, owner);
    }
  }

  /** Every edge of the list is external or internal to an engine of the list. */
  ghost predicate Placed(engines: seq<EngineDescription>, es: seq<Edge<LinkDescription>>)
  {
    forall k :: 0 <= k < |es| && es[k].property.sourceEngine == es[k].property.sinkEngine ==>
      exists j :: 0 <= j < |engines| && engines[j].name == es[k].property.sourceEngine
  }

  lemma {:induction false} LinksAreConserved(engines: seq<EngineDescription>, es: seq<Edge<LinkDescription>>)
    requires EngineNamesDistinct(engines) && Placed(engines, es)
    ensures InnerLinks(engines, es) + |External(es)| == |es|
    decreases |es|
  {
    if |es| == 0 {
      InnerLinksOfNone(engines);
    } else {
      assert Placed(engines, es[..|es| - 1]);
      LinksAreConserved(engines, es[..|es| - 1]);
      var l := es[|es| - 1].property;
      if l.sourceEngine == l.sinkEngine {
        assert es[|es| - 1].property == l;
        var owner :| 0 <= owner < |engines| && engines[owner].name == l.sourceEngine;
        InnerLinksOfOneMore(engines, es, owner);
      } else {
        InnerLinksOfOneMore(engines, es, -1);
      }
    }
  }

  lemma {:induction false} InnerEdgesAreInnerLinks(n: seq<EngineDescription>, engines: seq<EngineDescription>,
                                                  es: seq<Edge<LinkDescription>>)
    requires |n| == |engines|
    requires forall j :: 0 <= j < |n| ==> |n[j].engineGraph.edges| == |Internal(es, engines[j].name)|
    ensures InnerEdges(n) == InnerLinks(engines, es)
    decreases |n|
  {
    if |n| > 0 { InnerEdgesAreInnerLinks(n[..|n| - 1], engines[..|engines| - 1], es); }
  }

  /** No link is lost and none is counted twice: the edges inside the engines and the edges between them
      are together as many as the links. */
  lemma BuildConservesLinks(n: Radio, r: Radio)
    requires WellFormed(r.engines) && Fresh(r) && Buildable(r) && IsBuiltFrom(n, r)
    ensures InnerEdges(n.engines) + |n.engineGraph.edges| == |n.radioGraph.edges| == |r.links|
    ensures |n.engineGraph.edges| == |n.externalLinks|
  {
    hide IsBuiltFrom, Buildable, Fresh, AllComponents, BuiltEngines, External, Internal, EngineEdgesFor, BuiltEdges;
    hide Owned;
    hide FindComponent, InnerEdges, InnerLinks, EdgesFor;
    BuiltState(n, r);
    var es := BuiltEdges(r);
    forall k | 0 <= k < |es|
      ensures exists j :: 0 <= j < |r.engines| && r.engines[j].name == es[k].property.sourceEngine
    {
      var i, j := LinkEngines(r, k);
    }
    LinksAreConserved(r.engines, es);
    forall j | 0 <= j < |n.engines| ensures |n.engines[j].engineGraph.edges| == |Internal(es, r.engines[j].name)| {
      BuiltEngineAt(n, r, j);
    }
    InnerEdgesAreInnerLinks(n.engines, r.engines, es);
  }

  /* ---------------------------------------------------------------- the three copies ---- */

  /** The components of the engine descriptions, of the radio graph and of the engine graph are the same. */
  predicate Agrees(r: Radio)
  {
    WellFormed(r.engines) && r.radioGraph.vertices == AllComponents(r.engines) && r.engineGraph.vertices == r.engines
  }

  lemma SameNames(n: seq<EngineDescription>, es: seq<EngineDescription>)
    requires WellFormed(es) && |n| == |es|
    requires forall j :: 0 <= j < |n| ==> n[j].name == es[j].name && n[j].components == es[j].components
    ensures WellFormed(n)
  {
    SameComponents(n, es);
    hide AllComponents, ComponentNamesDistinct;
    forall j | 0 <= j < |n| ensures Owned(n[j]) { assert Owned(es[j]); }
  }

  lemma BuiltAgrees(n: Radio, r: Radio)
    requires WellFormed(r.engines) && Fresh(r) && Buildable(r) && IsBuiltFrom(n, r)
    ensures Agrees(n)
  {
    hide IsBuiltFrom, Buildable, Fresh, AllComponents, BuiltEngines, External, Internal, EngineEdgesFor, BuiltEdges;
    BuiltState(n, r);
    forall j | 0 <= j < |n.engines|
      ensures n.engines[j].name == r.engines[j].name && n.engines[j].components == r.engines[j].components
    {
      BuiltEngineAt(n, r, j);
    }
    SameComponents(n.engines, r.engines);
    SameNames(n.engines, r.engines);
  }

  /* ---------------------------------------------------------------- reconfigurations ---- */

  /** The engine of that name has a component of that name. */
  ghost predicate Owns(es: seq<EngineDescription>, engine: string, component: string)
  {
    exists j :: 0 <= j < |es| && es[j].name == engine && FindComponent(component, es[j].components) < |es[j].components|
  }

  /** What a reconfiguration means for one component, one engine and all engines. */
  function ForComponent(c: ComponentDescription, p: ParametricReconfig): (n: ComponentDescription)
  {
    if c.name == p.componentName then NewComponent(c, p) else c
  }

  function ForComponents(cs: seq<ComponentDescription>, p: ParametricReconfig): (n: seq<ComponentDescription>)
    ensures |n| == |cs|
    ensures forall k :: 0 <= k < |cs| ==> n[k] == ForComponent(cs[k], p)
    decreases |cs|
  {
    if |cs| == 0 then [] else ForComponents(cs[..|cs| - 1], p) + [ForComponent(cs[|cs| - 1], p)]
  }

  function ForEngine(e: EngineDescription, p: ParametricReconfig): (n: EngineDescription)
  {
    if e.name == p.engineName then e.(components := ForComponents(e.components, p)) else e
  }

  function ForEngines(es: seq<EngineDescription>, p: ParametricReconfig): (n: seq<EngineDescription>)
    ensures |n| == |es|
    ensures forall j :: 0 <= j < |es| ==> n[j] == ForEngine(es[j], p)
    decreases |es|
  {
    if |es| == 0 then [] else ForEngines(es[..|es| - 1], p) + [ForEngine(es[|es| - 1], p)]
  }

  /** A component found by name in an engine is the one found by name in the whole list. */
  lemma FoundInAll(es: seq<EngineDescription>, j: nat, name: string)
    requires WellFormed(es) && j < |es| && FindComponent(name, es[j].components) < |es[j].components|
    ensures FindComponent(name, AllComponents(es)) == Offset(es, j) + FindComponent(name, es[j].components)
    ensures FindComponent(name, AllComponents(es)) < |AllComponents(es)|
    ensures AllComponents(es)[FindComponent(name, AllComponents(es))] ==
            es[j].components[FindComponent(name, es[j].components)]
  {
    hide AllComponents;
    ComponentAt(es, j, FindComponent(name, es[j].components));
  }

  lemma {:induction false} LastOwnerIs(es: seq<EngineDescription>, n: nat, j: nat, engine: string, component: string)
    requires EngineNamesDistinct(es) && j < n <= |es| && es[j].name == engine
    requires FindComponent(component, es[j].components) < |es[j].components|
    ensures LastOwner(es, n, engine, component) == es[j]
    decreases n
  {
    if j + 1 < n { LastOwnerIs(es, n - 1, j, engine, component); }
  }

  lemma {:induction false} NoLastOwner(es: seq<EngineDescription>, n: nat, engine: string, component: string)
    requires n <= |es| && !Owns(es, engine, component)
    ensures LastOwner(es, n, engine, component) == BLANK_ENGINE
    decreases n
  {
    if n > 0 { NoLastOwner(es, n - 1, engine, component); }
  }

  /** Within one well-formed engine, replacing the component is reconfiguring it. */
  lemma ReplacedIsReconfigured(e: EngineDescription, p: ParametricReconfig)
    requires ComponentNamesDistinct(e.components) && e.name == p.engineName
    requires FindComponent(p.componentName, e.components) < |e.components|
    ensures var k := FindComponent(p.componentName, e.components);
            WithComponent(e, NewComponent(e.components[k], p), p.componentName) == ForEngine(e, p) &&
            ForEngine(e, p).components == e.components[k := NewComponent(e.components[k], p)]
  {
    hide NewComponent;
    var k := FindComponent(p.componentName, e.components);
    assert ForComponents(e.components, p) == e.components[k := NewComponent(e.components[k], p)];
  }

  lemma EngineComponentsDistinct(es: seq<EngineDescription>, j: nat)
    requires WellFormed(es) && j < |es|
    ensures ComponentNamesDistinct(es[j].components)
  {
    hide AllComponents;
    forall a, b | 0 <= a < b < |es[j].components| ensures es[j].components[a].name != es[j].components[b].name {
      ComponentAt(es, j, a);
      ComponentAt(es, j, b);
    }
  }

  /** The engines after a reconfiguration that names the component's own engine. */
  lemma OneEngineChanges(es: seq<EngineDescription>, p: ParametricReconfig, j: nat)
    requires WellFormed(es) && j < |es| && es[j].name == p.engineName
    requires FindComponent(p.componentName, es[j].components) < |es[j].components|
    ensures var k := FindComponent(p.componentName, es[j].components);
            var comp := NewComponent(es[j].components[k], p);
            ForEngines(es, p) == es[j := es[j].(components := es[j].components[k := comp])] &&
            WithComponentIn(es, comp, p.engineName, p.componentName) == ForEngines(es, p) &&
            WithComponent(es[j], comp, p.componentName) == ForEngines(es, p)[j]
  {
    EngineComponentsDistinct(es, j);
    ReplacedIsReconfigured(es[j], p);
    hide AllComponents, NewComponent, WithComponent, ForEngine;
    var n := ForEngines(es, p);
    forall i | 0 <= i < |es| && i != j ensures n[i] == es[i] { OtherEngineStays(es[i], p); }
    var k := FindComponent(p.componentName, es[j].components);
    assert n[j] == es[j].(components := es[j].components[k := NewComponent(es[j].components[k], p)]) by {
      EngineKept(es[j], p);
    }
    assert n == es[j := n[j]];
  }

  lemma OtherEngineStays(e: EngineDescription, p: ParametricReconfig)
    requires e.name != p.engineName
    ensures ForEngine(e, p) == e
  {
  }

  /** Only parameters change. */
  lemma EngineKept(e: EngineDescription, p: ParametricReconfig)
    ensures ForEngine(e, p) == e.(components := ForEngine(e, p).components)
    ensures |ForEngine(e, p).components| == |e.components|
    ensures forall k :: 0 <= k < |e.components| ==>
              ForEngine(e, p).components[k] == e.components[k].(parameters := ForEngine(e, p).components[k].parameters)
  {
  }

  lemma ForEnginesWellFormed(es: seq<EngineDescription>, p: ParametricReconfig)
    requires WellFormed(es)
    ensures WellFormed(ForEngines(es, p))
  {
    hide ForEngine;
    var n := ForEngines(es, p);
    forall j | 0 <= j < |es| ensures n[j].name == es[j].name && Owned(n[j]) {
      EngineKept(es[j], p);
      assert Owned(es[j]);
    }
    forall a, b | 0 <= a < b < |AllComponents(n)| ensures AllComponents(n)[a].name != AllComponents(n)[b].name {
      SameNameAt(es, p, a);
      SameNameAt(es, p, b);
    }
  }

  lemma {:induction false} SameOffsets(es: seq<EngineDescription>, p: ParametricReconfig, j: nat)
    requires j <= |es|
    ensures Offset(ForEngines(es, p), j) == Offset(es, j)
    decreases j
  {
    if j > 0 {
      SameOffsets(es, p, j - 1);
      var n := ForEngines(es, p);
      EngineKept(es[j - 1], p);
      assert es[..j][..j - 1] == es[..j - 1] && n[..j][..j - 1] == n[..j - 1];
    }
  }

  lemma SameNameAt(es: seq<EngineDescription>, p: ParametricReconfig, v: nat)
    requires v < |AllComponents(ForEngines(es, p))|
    ensures v < |AllComponents(es)| && AllComponents(ForEngines(es, p))[v].name == AllComponents(es)[v].name
  {
    hide AllComponents, ForEngine;
    var j, k := ComponentFrom(ForEngines(es, p), v);
    EngineKept(es[j], p);
    SameOffsets(es, p, j);
    ComponentAt(es, j, k);
  }

  /** A reconfiguration of a component in its own engine changes all three copies alike. */
  lemma OwnReconfigurationAgrees(r: Radio, p: ParametricReconfig)
    requires Agrees(r) && Owns(r.engines, p.engineName, p.componentName)
    ensures var n := Reconfigured(r, p);
            n.1 == None && Agrees(n.0) && n.0.engines == ForEngines(r.engines, p) &&
            n.0.radioGraph.edges == r.radioGraph.edges && n.0.engineGraph.edges == r.engineGraph.edges
  {
    hide AllComponents, WellFormed, Reconfigured, ForEngines;
    var j :| 0 <= j < |r.engines| && r.engines[j].name == p.engineName &&
             FindComponent(p.componentName, r.engines[j].components) < |r.engines[j].components|;
    OwnReconfigurationAt(r, p, j);
    ForEnginesWellFormed(r.engines, p);
  }

  lemma OwnReconfigurationAt(r: Radio, p: ParametricReconfig, j: nat)
    requires Agrees(r) && j < |r.engines| && r.engines[j].name == p.engineName
    requires FindComponent(p.componentName, r.engines[j].components) < |r.engines[j].components|
    ensures var n := Reconfigured(r, p);
            n.1 == None && n.0.engines == ForEngines(r.engines, p) && n.0.engineGraph.vertices == n.0.engines &&
            n.0.radioGraph.vertices == AllComponents(n.0.engines) &&
            n.0.radioGraph.edges == r.radioGraph.edges && n.0.engineGraph.edges == r.engineGraph.edges
  {
    hide AllComponents, ForEngines, WithComponent, WithComponentIn, NewComponent, LastOwner, ComponentNamesDistinct;
    hide Owned;
    var es := r.engines;
    var k := FindComponent(p.componentName, es[j].components);
    FoundInAll(es, j, p.componentName);
    OneEngineChanges(es, p, j);
    UpdateOne(es, j, k, NewComponent(es[j].components[k], p));
    LastOwnerIs(es, |es|, j, p.engineName, p.componentName);
    assert FindEngine(p.engineName, es) == j;
  }

  /** A reconfiguration whose engine does not have the component leaves the engine descriptions alone. The
      radio graph takes the new value; the engine graph gets a blank engine, or the engine is missed. */
  lemma ForeignReconfiguration(r: Radio, p: ParametricReconfig)
    requires Agrees(r) && !Owns(r.engines, p.engineName, p.componentName)
    ensures var (n, e) := Reconfigured(r, p);
            var (vs, es) := (r.radioGraph.vertices, r.engines);
            var (v, w) := (FindComponent(p.componentName, vs), FindEngine(p.engineName, es));
            if v == |vs| then n == r && e == Some(NoComponent(p.componentName))
            else
              var changed := r.(radioGraph := r.radioGraph.(vertices := vs[v := NewComponent(vs[v], p)]));
              if w == |es| then n == changed && e == Some(NoEngine(p.engineName))
              else n == changed.(engineGraph := r.engineGraph.(vertices := es[w := BLANK_ENGINE])) && e == None
  {
    hide AllComponents, WellFormed, NewComponent;
    NoLastOwner(r.engines, |r.engines|, p.engineName, p.componentName);
    forall comp: ComponentDescription
      ensures WithComponentIn(r.engines, comp, p.engineName, p.componentName) == r.engines
    {
      NobodyChanges(r.engines, comp, p.engineName, p.componentName);
    }
  }

  lemma NobodyChanges(es: seq<EngineDescription>, comp: ComponentDescription, engine: string, component: string)
    requires !Owns(es, engine, component)
    ensures WithComponentIn(es, comp, engine, component) == es
  {
    assert forall j :: 0 <= j < |es| && es[j].name == engine ==> WithComponent(es[j], comp, component) == es[j];
  }

  /** Naming no engine throws, and at most the radio graph has changed by then. */
  lemma UnknownEngineThrows(r: Radio, p: ParametricReconfig)
    requires Agrees(r) && forall j :: 0 <= j < |r.engines| ==> r.engines[j].name != p.engineName
    ensures var (n, e) := Reconfigured(r, p);
            e.Some? && n.engines == r.engines && n.engineGraph == r.engineGraph &&
            (n.radioGraph == r.radioGraph <==>
               var v := FindComponent(p.componentName, r.radioGraph.vertices);
               v == |r.radioGraph.vertices| || NewComponent(r.radioGraph.vertices[v], p) == r.radioGraph.vertices[v])
  {
    hide AllComponents, WellFormed, NewComponent, Reconfigured;
    ForeignReconfiguration(r, p);
    var (vs, v) := (r.radioGraph.vertices, FindComponent(p.componentName, r.radioGraph.vertices));
    if v < |vs| { assert vs[v := NewComponent(vs[v], p)][v] == NewComponent(vs[v], p); }
  }

  /** The engine that is named is blank already, and the component has the value already. */
  predicate Unnoticed(r: Radio, p: ParametricReconfig)
  {
    var (v, w) := (FindComponent(p.componentName, r.radioGraph.vertices), FindEngine(p.engineName, r.engines));
    v < |r.radioGraph.vertices| && w < |r.engines| &&
    NewComponent(r.radioGraph.vertices[v], p) == r.radioGraph.vertices[v] && r.engines[w] == BLANK_ENGINE
  }

  /** A reconfiguration that names another engine fails or leaves the copies in disagreement, unless it
      changes nothing at all. */
  lemma ForeignReconfigurationDisagrees(r: Radio, p: ParametricReconfig)
    requires Agrees(r) && !Owns(r.engines, p.engineName, p.componentName)
    ensures var (n, e) := Reconfigured(r, p); e == None && Agrees(n) <==> Unnoticed(r, p)
  {
    ForeignReconfiguration(r, p);
    hide AllComponents, WellFormed, NewComponent, Reconfigured, Owns;
    var (vs, es) := (r.radioGraph.vertices, r.engines);
    var (v, w) := (FindComponent(p.componentName, vs), FindEngine(p.engineName, es));
    if v < |vs| && w < |es| {
      assert vs[v := NewComponent(vs[v], p)][v] == NewComponent(vs[v], p) && es[w := BLANK_ENGINE][w] == BLANK_ENGINE;
    }
  }

  /** The copies stay in agreement exactly when the reconfiguration names the component's own engine, or
      when nothing changes. */
  lemma ReconfigureAgreesIff(r: Radio, p: ParametricReconfig)
    requires Agrees(r)
    ensures Reconfigured(r, p).1 == None && Agrees(Reconfigured(r, p).0) <==>
            Owns(r.engines, p.engineName, p.componentName) || Unnoticed(r, p)
    ensures BLANK_ENGINE !in r.engines ==> !Unnoticed(r, p)
  {
    if Owns(r.engines, p.engineName, p.componentName) {
      OwnReconfigurationAgrees(r, p);
    } else {
      ForeignReconfigurationDisagrees(r, p);
    }
  }

  function Part(value: string): (c: ComponentDescription)
  {
    Component("c", "k", "b", [Parameter("x", value)], [])
  }

  /** Two engines, the first of which has a component. */
  function TwoEngines(value: string): (r: Radio)
    ensures Agrees(r)
  {
    var c := Part(value);
    var es := [Engine("b", "k", NO_GRAPH, [c], []), Engine("a", "k", NO_GRAPH, [], [])];
    assert AllComponents(es[..1]) == [] + [c] && AllComponents(es) == AllComponents(es[..1]) + [];
    Radio([], es, [], [], Graph([c], []), Graph(es, []), true)
  }

  /** Naming the engine that does not have it: no exception, and three copies that tell three things. */
  lemma ForeignReconfigurationExample()
    ensures var (n, e) := Reconfigured(TwoEngines("0"), Reconfig("a", "c", "x", "1"));
            e == None && n.engines == TwoEngines("0").engines &&
            n.radioGraph.vertices == TwoEngines("1").radioGraph.vertices &&
            n.engineGraph.vertices == [TwoEngines("0").engines[0], BLANK_ENGINE] && !Agrees(n)
  {
    hide WithParameter;
    var (r, p) := (TwoEngines("0"), Reconfig("a", "c", "x", "1"));
    assert !Owns(r.engines, "a", "c") by { assert r.engines[0].name != "a" && r.engines[1].components == []; }
    ForeignReconfiguration(r, p);
    assert WithParameter([Parameter("x", "0")], "x", "1") == [Parameter("x", "1")];
    assert !Unnoticed(r, p);
    ForeignReconfigurationDisagrees(r, p);
  }

  function ForEnginesAll(es: seq<EngineDescription>, ps: seq<ParametricReconfig>): (n: seq<EngineDescription>)
    ensures |n| == |es|
    decreases |ps|
  {
    if |ps| == 0 then es else ForEngines(ForEnginesAll(es, ps[..|ps| - 1]), ps[|ps| - 1])
  }

  ghost predicate AllOwned(es: seq<EngineDescription>, ps: seq<ParametricReconfig>)
  {
    forall i :: 0 <= i < |ps| ==> Owns(es, ps[i].engineName, ps[i].componentName)
  }

  lemma ForEnginesOwns(es: seq<EngineDescription>, p: ParametricReconfig, engine: string, component: string)
    requires Owns(es, engine, component)
    ensures Owns(ForEngines(es, p), engine, component)
  {
    var j :| 0 <= j < |es| && es[j].name == engine && FindComponent(component, es[j].components) < |es[j].components|;
    var k := FindComponent(component, es[j].components);
    var n := ForEngines(es, p);
    EngineKept(es[j], p);
    assert n[j].components[k].name == component;
    assert FindComponent(component, n[j].components) < |n[j].components|;
  }

  lemma {:induction false} ForEnginesAllOwns(es: seq<EngineDescription>, ps: seq<ParametricReconfig>,
        engine: string, component: string)
    requires Owns(es, engine, component)
    ensures Owns(ForEnginesAll(es, ps), engine, component)
    decreases |ps|
  {
    if |ps| > 0 {
      ForEnginesAllOwns(es, ps[..|ps| - 1], engine, component);
      ForEnginesOwns(ForEnginesAll(es, ps[..|ps| - 1]), ps[|ps| - 1], engine, component);
    }
  }

  /** Any sequence of reconfigurations of components in their own engines keeps the copies in agreement. */
  lemma {:induction false} ReconfigurationsAgree(r: Radio, ps: seq<ParametricReconfig>)
    requires Agrees(r) && AllOwned(r.engines, ps)
    ensures var n := ReconfiguredAll(r, ps);
            n.1 == None && Agrees(n.0) && n.0.engines == ForEnginesAll(r.engines, ps) &&
            n.0.radioGraph.edges == r.radioGraph.edges && n.0.engineGraph.edges == r.engineGraph.edges
    decreases |ps|
  {
    hide Agrees, Owns, ForEngines, Reconfigured;
    if |ps| > 0 {
      var before := ps[..|ps| - 1];
      forall i | 0 <= i < |before| ensures Owns(r.engines, before[i].engineName, before[i].componentName) {
        assert before[i] == ps[i];
      }
      ReconfigurationsAgree(r, before);
      var p := ps[|ps| - 1];
      assert Owns(r.engines, p.engineName, p.componentName);
      ForEnginesAllOwns(r.engines, before, p.engineName, p.componentName);
      OwnReconfigurationAgrees(ReconfiguredAll(r, before).0, p);
    }
  }

  function ValueOf(c: ComponentDescription, parameter: string): string
  {
    var k := FindParameter(parameter, c.parameters);
    if k == |c.parameters| then "" else c.parameters[k].value
  }

  /** getParameterValue, which looks at the radio graph, answers what getEngines shows. */
  lemma ValueIsTheEngines(r: Radio, parameter: string, j: nat, k: nat)
    requires Agrees(r) && j < |r.engines| && k < |r.engines[j].components|
    ensures ParameterValue(r, parameter, r.engines[j].components[k].name) ==
            ValueOf(r.engines[j].components[k], parameter)
  {
    var name := r.engines[j].components[k].name;
    EngineComponentsDistinct(r.engines, j);
    assert FindComponent(name, r.engines[j].components) == k;
    FoundInAll(r.engines, j, name);
    hide AllComponents, WellFormed;
  }

  /** What no engine has has no value: the answer is the empty string. */
  lemma UnknownHasNoValue(r: Radio, parameter: string, component: string)
    requires Agrees(r)
    requires forall j, k :: 0 <= j < |r.engines| && 0 <= k < |r.engines[j].components| ==>
               r.engines[j].components[k].name != component || !HasParameter(r.engines[j].components[k], parameter)
    ensures ParameterValue(r, parameter, component) == ""
  {
    var v := FindComponent(component, r.radioGraph.vertices);
    if v < |r.radioGraph.vertices| {
      var j, k := ComponentFrom(r.engines, v);
    }
  }

  /** After a reconfiguration the parameter has its value, if there is one of that name, and every other
      parameter of every component is as before. */
  lemma ReconfigureSets(r: Radio, p: ParametricReconfig, j: nat, k: nat, parameter: string)
    requires Agrees(r) && Owns(r.engines, p.engineName, p.componentName)
    requires j < |r.engines| && k < |r.engines[j].components|
    ensures var (n, c) := (Reconfigured(r, p).0, r.engines[j].components[k]);
            ParameterValue(n, parameter, c.name) ==
            if c.name == p.componentName && parameter == p.parameterName && HasParameter(c, parameter)
            then p.parameterValue else ParameterValue(r, parameter, c.name)
  {
    OwnReconfigurationAgrees(r, p);
    ValueIsTheEngines(r, parameter, j, k);
    EngineKept(r.engines[j], p);
    var n := Reconfigured(r, p).0;
    ValueIsTheEngines(n, parameter, j, k);
    if r.engines[j].components[k].name == p.componentName { OwnerIsUnique(r, p, j, k); }
    hide Agrees, Reconfigured, Owns, ForEngines;
    ForComponentValue(r.engines[j].components[k], p, parameter);
  }

  predicate HasParameter(c: ComponentDescription, parameter: string)
  {
    FindParameter(parameter, c.parameters) < |c.parameters|
  }

  lemma OwnerIsUnique(r: Radio, p: ParametricReconfig, j: nat, k: nat)
    requires Agrees(r) && Owns(r.engines, p.engineName, p.componentName)
    requires j < |r.engines| && k < |r.engines[j].components| && r.engines[j].components[k].name == p.componentName
    ensures r.engines[j].name == p.engineName
  {
    var i :| 0 <= i < |r.engines| && r.engines[i].name == p.engineName &&
             FindComponent(p.componentName, r.engines[i].components) < |r.engines[i].components|;
    var c := FindComponent(p.componentName, r.engines[i].components);
    hide AllComponents;
    ComponentAt(r.engines, i, c);
    ComponentAt(r.engines, j, k);
    assert Owned(r.engines[i]) && Owned(r.engines[j]);
  }

  lemma ForComponentValue(c: ComponentDescription, p: ParametricReconfig, parameter: string)
    ensures ValueOf(ForComponent(c, p), parameter) ==
            if c.name == p.componentName && parameter == p.parameterName && HasParameter(c, parameter)
            then p.parameterValue else ValueOf(c, parameter)
  {
    var n := ForComponent(c, p);
    assert FindParameter(parameter, n.parameters) == FindParameter(parameter, c.parameters);
  }
}
