/** The description of a running radio and the graphs built from it (src/RadioRepresentation.cpp:48-324).
    It keeps the components three times over: in the engine descriptions, in the radio graph and in the
    copies of the engine descriptions on the engine graph. */
module RadioRepresentation {
  import opened Wrappers
  import opened RadioTypes

  datatype Radio = Radio(
    controllers: seq<ControllerDescription>,
    engines: seq<EngineDescription>,
    links: seq<LinkDescription>,
    externalLinks: seq<LinkDescription>,
    radioGraph: RadioGraph,
    engineGraph: EngineGraph,
    isBuilt: bool)

  datatype RadioError =
    | NoComponent(name: string)
    | NoEngine(name: string)

  /* ---------------------------------------------------------------------- look-ups ---- */

  /** The first component of that name from position i on; the length if there is none. */
  function FindComponent(name: string, vs: seq<ComponentDescription>, i: nat := 0): (k: nat)
    requires i <= |vs|
    ensures i <= k <= |vs|
    ensures forall j :: i <= j < k ==> vs[j].name != name
    ensures k < |vs| ==> vs[k].name == name
    decreases |vs| - i
  {
    if i == |vs| || vs[i].name == name then i else FindComponent(name, vs, i + 1)
  }

  function FindEngine(name: string, vs: seq<EngineDescription>, i: nat := 0): (k: nat)
    requires i <= |vs|
    ensures i <= k <= |vs|
    ensures forall j :: i <= j < k ==> vs[j].name != name
    ensures k < |vs| ==> vs[k].name == name
    decreases |vs| - i
  {
    if i == |vs| || vs[i].name == name then i else FindEngine(name, vs, i + 1)
  }

  function FindParameter(name: string, ps: seq<ParameterDescription>, i: nat := 0): (k: nat)
    requires i <= |ps|
    ensures i <= k <= |ps|
    ensures forall j :: i <= j < k ==> ps[j].name != name
    ensures k < |ps| ==> ps[k].name == name
    decreases |ps| - i
  {
    if i == |ps| || ps[i].name == name then i else FindParameter(name, ps, i + 1)
  }

  method LookUpComponent(name: string, graph: RadioGraph) returns (v: nat)
    ensures v == FindComponent(name, graph.vertices)
  {
    v := 0;
    while v < |graph.vertices| && graph.vertices[v].name != name
      invariant v <= |graph.vertices|
      invariant FindComponent(name, graph.vertices) == FindComponent(name, graph.vertices, v)
    {
      v := v + 1;
    }
  }

  method LookUpEngine(name: string, graph: EngineGraph) returns (v: nat)
    ensures v == FindEngine(name, graph.vertices)
  {
    v := 0;
    while v < |graph.vertices| && graph.vertices[v].name != name
      invariant v <= |graph.vertices|
      invariant FindEngine(name, graph.vertices) == FindEngine(name, graph.vertices, v)
    {
      v := v + 1;
    }
  }

  /* --------------------------------------------------------------- what is built ---- */

  /** The components of all engines, engine by engine. */
  function AllComponents(engines: seq<EngineDescription>): (cs: seq<ComponentDescription>)
    decreases |engines|
  {
    if |engines| == 0 then []
    else AllComponents(engines[..|engines| - 1]) + engines[|engines| - 1].components
  }

  predicate Resolves(link: LinkDescription, vs: seq<ComponentDescription>)
  {
    FindComponent(link.sourceComponent, vs) < |vs| && FindComponent(link.sinkComponent, vs) < |vs|
  }

  function EdgeFor(link: LinkDescription, vs: seq<ComponentDescription>): (e: Edge<LinkDescription>)
  {
    Edge(FindComponent(link.sourceComponent, vs), FindComponent(link.sinkComponent, vs), link)
  }

  /** One edge per link, in order. */
  function EdgesFor(links: seq<LinkDescription>, vs: seq<ComponentDescription>): (es: seq<Edge<LinkDescription>>)
    ensures |es| == |links|
    ensures forall k :: 0 <= k < |links| ==> es[k] == EdgeFor(links[k], vs)
    decreases |links|
  {
    if |links| == 0 then []
    else EdgesFor(links[..|links| - 1], vs) + [EdgeFor(links[|links| - 1], vs)]
  }

  lemma OneMoreEdge(es: seq<Edge<LinkDescription>>, links: seq<LinkDescription>, i: nat, vs: seq<ComponentDescription>)
    requires i < |links|
    ensures es + EdgesFor(links[..i + 1], vs) == es + EdgesFor(links[..i], vs) + [EdgeFor(links[i], vs)]
  {
    assert links[..i + 1][..i] == links[..i];
  }

  lemma NoEdges(es: seq<Edge<LinkDescription>>, links: seq<LinkDescription>, vs: seq<ComponentDescription>)
    ensures es + EdgesFor(links[..0], vs) == es
  {
  }

  predicate Joins(e: Edge<LinkDescription>, vs: seq<ComponentDescription>)
  {
    e.source < |vs| && e.target < |vs|
  }

  /** An edge whose link names the engines of its components. */
  function Stamp(e: Edge<LinkDescription>, vs: seq<ComponentDescription>): (s: Edge<LinkDescription>)
    requires Joins(e, vs)
  {
    e.(property := e.property.(sourceEngine := vs[e.source].engineName, sinkEngine := vs[e.target].engineName))
  }

  function Stamped(es: seq<Edge<LinkDescription>>, vs: seq<ComponentDescription>): (s: seq<Edge<LinkDescription>>)
    requires forall k :: 0 <= k < |es| ==> Joins(es[k], vs)
    ensures |s| == |es|
    ensures forall k :: 0 <= k < |es| ==> s[k] == Stamp(es[k], vs)
    decreases |es|
  {
    if |es| == 0 then [] else Stamped(es[..|es| - 1], vs) + [Stamp(es[|es| - 1], vs)]
  }

  /** The links between different engines, in the order of the edges. */
  function External(es: seq<Edge<LinkDescription>>): (ls: seq<LinkDescription>)
    decreases |es|
  {
    if |es| == 0 then []
    else
      var before, l := External(es[..|es| - 1]), es[|es| - 1].property;
      if l.sourceEngine != l.sinkEngine then before + [l] else before
  }

  /** The links inside one engine, in the order of the edges. */
  function Internal(es: seq<Edge<LinkDescription>>, engine: string): (ls: seq<LinkDescription>)
    decreases |es|
  {
    if |es| == 0 then []
    else
      var before, l := Internal(es[..|es| - 1], engine), es[|es| - 1].property;
      if l.sourceEngine == l.sinkEngine == engine then before + [l] else before
  }

  /** The links that begin or end in one engine. */
  function Touching(ls: seq<LinkDescription>, engine: string): (t: seq<LinkDescription>)
    decreases |ls|
  {
    if |ls| == 0 then []
    else
      var before, l := Touching(ls[..|ls| - 1], engine), ls[|ls| - 1];
      if engine == l.sourceEngine || engine == l.sinkEngine then before + [l] else before
  }

  /** What one edge adds to the external links, and to the links of an engine. */
  function MoreExternal(ls: seq<LinkDescription>, l: LinkDescription): seq<LinkDescription>
  {
    if l.sourceEngine != l.sinkEngine then ls + [l] else ls
  }

  function MoreInternal(eng: EngineDescription, l: LinkDescription): EngineDescription
  {
    if l.sourceEngine == l.sinkEngine == eng.name then eng.(links := eng.links + [l]) else eng
  }

  lemma OneMoreExternal(ls: seq<LinkDescription>, es: seq<Edge<LinkDescription>>, i: nat)
    requires i < |es|
    ensures ls + External(es[..i + 1]) == MoreExternal(ls + External(es[..i]), es[i].property)
  {
    assert es[..i + 1][..i] == es[..i];
  }

  lemma OneMoreInternal(engines: seq<EngineDescription>, es: seq<Edge<LinkDescription>>, i: nat)
    requires i < |es|
    ensures forall j :: 0 <= j < |engines| ==>
              WithInternal(engines[j], es[..i + 1]) == MoreInternal(WithInternal(engines[j], es[..i]), es[i].property)
  {
    forall j | 0 <= j < |engines|
      ensures WithInternal(engines[j], es[..i + 1]) == MoreInternal(WithInternal(engines[j], es[..i]), es[i].property)
    {
      OneMoreInternalFor(engines[j], es, i);
    }
  }

  lemma OneMoreInternalFor(eng: EngineDescription, es: seq<Edge<LinkDescription>>, i: nat)
    requires i < |es|
    ensures WithInternal(eng, es[..i + 1]) == MoreInternal(WithInternal(eng, es[..i]), es[i].property)
  {
    assert es[..i + 1][..i] == es[..i];
    assert Internal(es[..i + 1], eng.name) ==
           if es[i].property.sourceEngine == es[i].property.sinkEngine == eng.name
           then Internal(es[..i], eng.name) + [es[i].property] else Internal(es[..i], eng.name);
  }

  lemma NothingSorted(engines: seq<EngineDescription>)
    ensures External([]) == [] && forall j :: 0 <= j < |engines| ==> WithInternal(engines[j], []) == engines[j]
  {
  }

  function MoreTouching(eng: EngineDescription, l: LinkDescription): EngineDescription
  {
    if eng.name == l.sourceEngine || eng.name == l.sinkEngine then eng.(links := eng.links + [l]) else eng
  }

  lemma OneMoreTouching(engines: seq<EngineDescription>, ls: seq<LinkDescription>, i: nat)
    requires i < |ls|
    ensures forall j :: 0 <= j < |engines| ==>
              WithTouching(engines[j], ls[..i + 1]) == MoreTouching(WithTouching(engines[j], ls[..i]), ls[i])
  {
    assert ls[..i + 1][..i] == ls[..i];
    forall j | 0 <= j < |engines|
      ensures WithTouching(engines[j], ls[..i + 1]) == MoreTouching(WithTouching(engines[j], ls[..i]), ls[i])
    {
      assert Touching(ls[..i + 1], engines[j].name) ==
             if engines[j].name == ls[i].sourceEngine || engines[j].name == ls[i].sinkEngine
             then Touching(ls[..i], engines[j].name) + [ls[i]] else Touching(ls[..i], engines[j].name);
    }
  }

  lemma NothingTouches(engines: seq<EngineDescription>)
    ensures forall j :: 0 <= j < |engines| ==> WithTouching(engines[j], []) == engines[j]
  {
  }

  lemma OneMoreEngineEdge(es: seq<Edge<LinkDescription>>, ls: seq<LinkDescription>, i: nat, vs: seq<EngineDescription>)
    requires i < |ls|
    ensures es + EngineEdgesFor(ls[..i + 1], vs) == es + EngineEdgesFor(ls[..i], vs) + [EngineEdgeFor(ls[i], vs)]
  {
    assert ls[..i + 1][..i] == ls[..i];
  }

  lemma NoEngineEdges(es: seq<Edge<LinkDescription>>, ls: seq<LinkDescription>, vs: seq<EngineDescription>)
    ensures es + EngineEdgesFor(ls[..0], vs) == es
  {
  }

  /** What buildEngineDescriptionGraph makes of an engine: its graph of components and links. */
  function WithGraph(eng: EngineDescription): (e: EngineDescription)
  {
    var vs := eng.engineGraph.vertices + eng.components;
    eng.(engineGraph := Graph(vs, eng.engineGraph.edges + EdgesFor(eng.links, vs)))
  }

  predicate EngineResolves(eng: EngineDescription)
  {
    forall k :: 0 <= k < |eng.links| ==> Resolves(eng.links[k], eng.engineGraph.vertices + eng.components)
  }

  function WithInternal(eng: EngineDescription, es: seq<Edge<LinkDescription>>): (e: EngineDescription)
  {
    eng.(links := eng.links + Internal(es, eng.name))
  }

  function WithTouching(eng: EngineDescription, ls: seq<LinkDescription>): (e: EngineDescription)
  {
    eng.(links := eng.links + Touching(ls, eng.name))
  }

  function EngineEdgeFor(l: LinkDescription, vs: seq<EngineDescription>): (e: Edge<LinkDescription>)
  {
    Edge(FindEngine(l.sourceEngine, vs), FindEngine(l.sinkEngine, vs), l)
  }

  predicate EnginesResolve(l: LinkDescription, vs: seq<EngineDescription>)
  {
    FindEngine(l.sourceEngine, vs) < |vs| && FindEngine(l.sinkEngine, vs) < |vs|
  }

  function EngineEdgesFor(ls: seq<LinkDescription>, vs: seq<EngineDescription>): (es: seq<Edge<LinkDescription>>)
    ensures |es| == |ls|
    ensures forall k :: 0 <= k < |ls| ==> es[k] == EngineEdgeFor(ls[k], vs)
    decreases |ls|
  {
    if |ls| == 0 then []
    else EngineEdgesFor(ls[..|ls| - 1], vs) + [EngineEdgeFor(ls[|ls| - 1], vs)]
  }

  /* ------------------------------------------------- what a reconfiguration changes ---- */

  /** Every parameter of that name gets the value. */
  function WithParameter(ps: seq<ParameterDescription>, name: string, value: string): (r: seq<ParameterDescription>)
    ensures |r| == |ps|
    ensures forall k :: 0 <= k < |ps| ==> r[k] == if ps[k].name == name then Parameter(name, value) else ps[k]
    decreases |ps|
  {
    if |ps| == 0 then []
    else
      var p := ps[|ps| - 1];
      WithParameter(ps[..|ps| - 1], name, value) + [if p.name == name then Parameter(name, value) else p]
  }

  /** The engine with its first component of that name replaced. */
  function WithComponent(eng: EngineDescription, comp: ComponentDescription, name: string): (e: EngineDescription)
  {
    var k := FindComponent(name, eng.components);
    if k < |eng.components| then eng.(components := eng.components[k := comp]) else eng
  }

  const BLANK_ENGINE: EngineDescription := Engine("", "", NO_GRAPH, [], [])

  /** The last engine of that name which has the component, among the first n. */
  function LastOwner(engines: seq<EngineDescription>, n: nat, engine: string, component: string): (e: EngineDescription)
    requires n <= |engines|
  {
    if n == 0 then BLANK_ENGINE
    else if engines[n - 1].name == engine &&
      FindComponent(component, engines[n - 1].components) < |engines[n - 1].components|
    then engines[n - 1]
    else LastOwner(engines, n - 1, engine, component)
  }

  function WithComponentIn(engines: seq<EngineDescription>, comp: ComponentDescription, engine: string, name: string):
    (es: seq<EngineDescription>)
    ensures |es| == |engines|
    ensures forall j :: 0 <= j < |engines| ==>
              es[j] == if engines[j].name == engine then WithComponent(engines[j], comp, name) else engines[j]
    decreases |engines|
  {
    if |engines| == 0 then []
    else
      var e := engines[|engines| - 1];
      WithComponentIn(engines[..|engines| - 1], comp, engine, name)
      + [if e.name == engine then WithComponent(e, comp, name) else e]
  }

  /** The component with the reconfigured parameter. */
  function NewComponent(comp: ComponentDescription, p: ParametricReconfig): (c: ComponentDescription)
  {
    comp.(parameters := WithParameter(comp.parameters, p.parameterName, p.parameterValue))
  }

  /** reconfigureParameter: the representation afterwards, and what was thrown. */
  function Reconfigured(r: Radio, p: ParametricReconfig): (n: (Radio, Option<RadioError>))
  {
    var v := FindComponent(p.componentName, r.radioGraph.vertices);
    if v == |r.radioGraph.vertices| then (r, Some(NoComponent(p.componentName)))
    else
      var comp := NewComponent(r.radioGraph.vertices[v], p);
      var engines := WithComponentIn(r.engines, comp, p.engineName, p.componentName);
      var changed := r.(radioGraph := r.radioGraph.(vertices := r.radioGraph.vertices[v := comp]), engines := engines);
      var ver := FindEngine(p.engineName, r.engineGraph.vertices);
      if ver == |r.engineGraph.vertices| then (changed, Some(NoEngine(p.engineName)))
      else
        var engine := ReplacedOwner(r, comp, p);
        (changed.(engineGraph := r.engineGraph.(vertices := r.engineGraph.vertices[ver := engine])), None)
  }

  /** The engine description that goes onto the engine graph: a blank one if the component is not found in
      an engine of that name. */
  function ReplacedOwner(r: Radio, comp: ComponentDescription, p: ParametricReconfig): (e: EngineDescription)
  {
    ReplacedAmong(r.engines, |r.engines|, comp, p)
  }

  function ReplacedAmong(engines: seq<EngineDescription>, n: nat, comp: ComponentDescription, p: ParametricReconfig):
    (e: EngineDescription)
    requires n <= |engines|
  {
    var owner := LastOwner(engines, n, p.engineName, p.componentName);
    if FindComponent(p.componentName, owner.components) < |owner.components|
    then WithComponent(owner, comp, p.componentName) else owner
  }

  /** reconfigureRepresentation: one after the other, up to the first exception. */
  function ReconfiguredAll(r: Radio, ps: seq<ParametricReconfig>): (n: (Radio, Option<RadioError>))
    decreases |ps|
  {
    if |ps| == 0 then (r, None)
    else
      var before := ReconfiguredAll(r, ps[..|ps| - 1]);
      if before.1.Some? then before else Reconfigured(before.0, ps[|ps| - 1])
  }

  /** Nothing is applied after an exception. */
  lemma {:induction false} ReconfiguredStops(r: Radio, ps: seq<ParametricReconfig>, i: nat)
    requires i <= |ps| && ReconfiguredAll(r, ps[..i]).1.Some?
    ensures ReconfiguredAll(r, ps) == ReconfiguredAll(r, ps[..i])
    decreases |ps|
  {
    if i < |ps| {
      assert ps[..|ps| - 1][..i] == ps[..i];
      ReconfiguredStops(r, ps[..|ps| - 1], i);
    } else {
      assert ps[..i] == ps;
    }
  }

  /** getParameterValue on the radio graph; the empty string if there is no such parameter. */
  function ParameterValue(r: Radio, parameter: string, component: string): (value: string)
  {
    var v := FindComponent(component, r.radioGraph.vertices);
    if v == |r.radioGraph.vertices| then ""
    else
      var ps := r.radioGraph.vertices[v].parameters;
      var k := FindParameter(parameter, ps);
      if k == |ps| then "" else ps[k].value
  }

  /** The engine descriptions with their inner links, their graphs, and the links that cross their border. */
  function BuiltEngines(engines: seq<EngineDescription>, es: seq<Edge<LinkDescription>>, ext: seq<LinkDescription>):
    (n: seq<EngineDescription>)
    ensures |n| == |engines|
    ensures forall j :: 0 <= j < |engines| ==>
              n[j] == WithTouching(WithGraph(WithInternal(engines[j], es)), ext)
    decreases |engines|
  {
    if |engines| == 0 then []
    else
      BuiltEngines(engines[..|engines| - 1], es, ext)
      + [WithTouching(WithGraph(WithInternal(engines[|engines| - 1], es)), ext)]
  }

  /** The edges of the radio graph before their links name engines. */
  function RawEdges(r: Radio): (es: seq<Edge<LinkDescription>>)
  {
    r.radioGraph.edges + EdgesFor(r.links, RadioVertices(r))
  }

  function RadioVertices(r: Radio): (vs: seq<ComponentDescription>)
  {
    r.radioGraph.vertices + AllComponents(r.engines)
  }

  predicate LinksResolve(r: Radio)
  {
    forall k :: 0 <= k < |r.links| ==> Resolves(r.links[k], RadioVertices(r))
  }

  lemma RawEdgesJoin(r: Radio)
    requires forall k :: 0 <= k < |r.radioGraph.edges| ==> Joins(r.radioGraph.edges[k], r.radioGraph.vertices)
    requires LinksResolve(r)
    ensures forall k :: 0 <= k < |RawEdges(r)| ==> Joins(RawEdges(r)[k], RadioVertices(r))
  {
    hide AllComponents;
    forall k | 0 <= k < |RawEdges(r)| ensures Joins(RawEdges(r)[k], RadioVertices(r)) {
      var old_ := |r.radioGraph.edges|;
      assert RawEdges(r)[k] ==
        if k < old_ then r.radioGraph.edges[k] else EdgeFor(r.links[k - old_], RadioVertices(r));
      assert k >= old_ ==> Resolves(r.links[k - old_], RadioVertices(r));
    }
  }

  /** Every link finds its components, in the radio and in its engine, and every external one its engines. */
  predicate Buildable(r: Radio)
    requires forall k :: 0 <= k < |r.radioGraph.edges| ==> Joins(r.radioGraph.edges[k], r.radioGraph.vertices)
  {
    LinksResolve(r) &&
    var es := (RawEdgesJoin(r); Stamped(RawEdges(r), RadioVertices(r)));
    (forall j :: 0 <= j < |r.engines| ==> EngineResolves(WithInternal(r.engines[j], es))) &&
    var ext := r.externalLinks + External(es);
    forall k :: 0 <= k < |ext| ==> EnginesResolve(ext[k], r.engineGraph.vertices + BuiltEngines(r.engines, es, ext))
  }

  /** The first link that names an unknown component, and which of its ends is reported: the source if that is
      unknown, else the sink. */
  ghost predicate NamesUnknown(links: seq<LinkDescription>, vs: seq<ComponentDescription>, e: RadioError)
  {
    exists k :: 0 <= k < |links| && !Resolves(links[k], vs) && (forall i :: 0 <= i < k ==> Resolves(links[i], vs)) &&
      e == NoComponent(if FindComponent(links[k].sourceComponent, vs) == |vs| then links[k].sourceComponent
                       else links[k].sinkComponent)
  }

  /** The same within an engine, where the source is reported for either end. */
  ghost predicate EngineNamesUnknown(eng: EngineDescription, e: RadioError)
  {
    var vs := eng.engineGraph.vertices + eng.components;
    exists k :: 0 <= k < |eng.links| && !Resolves(eng.links[k], vs) &&
      (forall i :: 0 <= i < k ==> Resolves(eng.links[i], vs)) && e == NoComponent(eng.links[k].sourceComponent)
  }

  ghost predicate NamesUnknownEngine(ls: seq<LinkDescription>, vs: seq<EngineDescription>, e: RadioError)
  {
    exists k :: 0 <= k < |ls| && !EnginesResolve(ls[k], vs) && (forall i :: 0 <= i < k ==> EnginesResolve(ls[i], vs)) &&
      e == NoEngine(if FindEngine(ls[k].sourceEngine, vs) == |vs| then ls[k].sourceEngine else ls[k].sinkEngine)
  }

  /** What buildGraphs throws: the first stage that fails tells. */
  ghost predicate BuildFails(r: Radio, e: RadioError)
    requires forall k :: 0 <= k < |r.radioGraph.edges| ==> Joins(r.radioGraph.edges[k], r.radioGraph.vertices)
  {
    if !LinksResolve(r) then NamesUnknown(r.links, RadioVertices(r), e)
    else
      var es := (RawEdgesJoin(r); Stamped(RawEdges(r), RadioVertices(r)));
      var ext := r.externalLinks + External(es);
      if forall j :: 0 <= j < |r.engines| ==> EngineResolves(WithInternal(r.engines[j], es)) then
        NamesUnknownEngine(ext, r.engineGraph.vertices + BuiltEngines(r.engines, es, ext), e)
      else
        exists j :: 0 <= j < |r.engines| && EngineNamesUnknown(WithInternal(r.engines[j], es), e) &&
          forall i :: 0 <= i < j ==> EngineResolves(WithInternal(r.engines[i], es))
  }

  /** What buildGraphs makes of a representation, when it succeeds. */
  predicate IsBuiltFrom(n: Radio, r: Radio)
  {
    var vs := RadioVertices(r);
    (forall k :: 0 <= k < |RawEdges(r)| ==> Joins(RawEdges(r)[k], vs)) &&
    var es := Stamped(RawEdges(r), vs);
    var ext := r.externalLinks + External(es);
    n.radioGraph == Graph(vs, es) && n.externalLinks == ext && n.links == r.links && n.controllers == r.controllers &&
    n.engines == BuiltEngines(r.engines, es, ext) &&
    n.engineGraph.vertices == r.engineGraph.vertices + n.engines &&
    n.engineGraph.edges == r.engineGraph.edges + EngineEdgesFor(ext, n.engineGraph.vertices) &&
    n.isBuilt
  }

  /* ------------------------------------------------------------------- the object ---- */

  class RadioRepresentation {
    var controllers: seq<ControllerDescription>
    var engines: seq<EngineDescription>
    var links: seq<LinkDescription>
    var externalLinks: seq<LinkDescription>
    var radioGraph: RadioGraph
    var engineGraph: EngineGraph
    var isBuilt: bool

    function State(): Radio
      reads this
    {
      Radio(controllers, engines, links, externalLinks, radioGraph, engineGraph, isBuilt)
    }

    constructor ()
      ensures State() == Radio([], [], [], [], NO_GRAPH, Graph([], []), false)
    {
      controllers, engines, links, externalLinks := [], [], [], [];
      radioGraph, engineGraph := NO_GRAPH, Graph([], []);
      isBuilt := false;
    }

    /* The stages of buildGraphs, in their order. */

    method AddComponents()
      modifies this`radioGraph
      ensures radioGraph == old(radioGraph).(vertices := old(radioGraph).vertices + AllComponents(engines))
    {
      for i := 0 to |engines|
        invariant radioGraph.edges == old(radioGraph).edges
        invariant radioGraph.vertices == old(radioGraph).vertices + AllComponents(engines[..i])
      {
        ghost var before := radioGraph.vertices;
        for c := 0 to |engines[i].components|
          invariant radioGraph.edges == old(radioGraph).edges
          invariant radioGraph.vertices == before + engines[i].components[..c]
        {
          radioGraph := radioGraph.(vertices := radioGraph.vertices + [engines[i].components[c]]);
        }
        assert engines[..i + 1][..i] == engines[..i];
      }
      assert engines[..|engines|] == engines;
    }

    method AddLinks() returns (e: Option<RadioError>)
      modifies this`radioGraph
      ensures e == None <==> forall k :: 0 <= k < |links| ==> Resolves(links[k], radioGraph.vertices)
      ensures e.Some? ==> NamesUnknown(links, radioGraph.vertices, e.value)
      ensures radioGraph.vertices == old(radioGraph).vertices
      ensures e == None ==> radioGraph.edges == old(radioGraph).edges + EdgesFor(links, radioGraph.vertices)
    {
      for i := 0 to |links|
        invariant radioGraph.vertices == old(radioGraph).vertices
        invariant forall k :: 0 <= k < i ==> Resolves(links[k], radioGraph.vertices)
        invariant radioGraph.edges == old(radioGraph).edges + EdgesFor(links[..i], radioGraph.vertices)
      {
        var src := LookUpComponent(links[i].sourceComponent, radioGraph);
        if src == |radioGraph.vertices| {
          return Some(NoComponent(links[i].sourceComponent));
        }
        var snk := LookUpComponent(links[i].sinkComponent, radioGraph);
        if snk == |radioGraph.vertices| {
          return Some(NoComponent(links[i].sinkComponent));
        }
        radioGraph := radioGraph.(edges := radioGraph.edges + [Edge(src, snk, links[i])]);
        OneMoreEdge(old(radioGraph).edges, links, i, radioGraph.vertices);
      }
      assert links[..|links|] == links;
      e := None;
    }

    /** Names the engines on the edges and sorts the links into internal and external ones. */
    method ClassifyLinks()
      requires forall k :: 0 <= k < |radioGraph.edges| ==> Joins(radioGraph.edges[k], radioGraph.vertices)
      modifies this`radioGraph, this`externalLinks, this`engines
      ensures radioGraph == old(radioGraph).(edges := Stamped(old(radioGraph).edges, old(radioGraph).vertices))
      ensures externalLinks == old(externalLinks) + External(radioGraph.edges)
      ensures |engines| == |old(engines)|
      ensures forall j :: 0 <= j < |engines| ==> engines[j] == WithInternal(old(engines)[j], radioGraph.edges)
    {
      hide External, WithInternal;
      ghost var es := Stamped(radioGraph.edges, radioGraph.vertices);
      NothingSorted(engines);
      for i := 0 to |radioGraph.edges|
        invariant radioGraph.vertices == old(radioGraph).vertices && |radioGraph.edges| == |old(radioGraph).edges|
        invariant forall k :: 0 <= k < i ==> radioGraph.edges[k] == es[k]
        invariant forall k :: i <= k < |radioGraph.edges| ==> radioGraph.edges[k] == old(radioGraph).edges[k]
        invariant externalLinks == old(externalLinks) + External(es[..i])
        invariant |engines| == |old(engines)|
        invariant forall j :: 0 <= j < |engines| ==> engines[j] == WithInternal(old(engines)[j], es[..i])
      {
        ClassifyLink(i);
        OneMoreExternal(old(externalLinks), es, i);
        OneMoreInternal(old(engines), es, i);
      }
      assert radioGraph.edges == es && es[..|es|] == es;
    }

    /** The body of the loop over the edges. */
    method ClassifyLink(i: nat)
      requires i < |radioGraph.edges| && Joins(radioGraph.edges[i], radioGraph.vertices)
      modifies this`radioGraph, this`externalLinks, this`engines
      ensures radioGraph ==
              var g := old(radioGraph); g.(edges := g.edges[i := Stamp(g.edges[i], g.vertices)])
      ensures externalLinks == MoreExternal(old(externalLinks), radioGraph.edges[i].property)
      ensures |engines| == |old(engines)|
      ensures forall j :: 0 <= j < |engines| ==>
              engines[j] == MoreInternal(old(engines)[j], radioGraph.edges[i].property)
    {
      var e := radioGraph.edges[i];
      var srcEng, snkEng := radioGraph.vertices[e.source].engineName, radioGraph.vertices[e.target].engineName;
      var link := e.property.(sourceEngine := srcEng, sinkEngine := snkEng);
      radioGraph := radioGraph.(edges := radioGraph.edges[i := e.(property := link)]);
      if srcEng != snkEng {
        externalLinks := externalLinks + [link];
      } else {
        AddToEngine(link, srcEng);
      }
    }

    /** The inner loop: the link goes to every engine of that name. */
    method AddToEngine(link: LinkDescription, name: string)
      modifies this`engines
      ensures |engines| == |old(engines)|
      ensures forall j :: 0 <= j < |engines| ==>
                engines[j] == if old(engines)[j].name == name
                  then old(engines)[j].(links := old(engines)[j].links + [link])
                              else old(engines)[j]
    {
      for k := 0 to |engines|
        invariant |engines| == |old(engines)|
        invariant forall j :: k <= j < |engines| ==> engines[j] == old(engines)[j]
        invariant forall j :: 0 <= j < k ==>
                    engines[j] == if old(engines)[j].name == name
                      then old(engines)[j].(links := old(engines)[j].links + [link])
                                  else old(engines)[j]
      {
        if engines[k].name == name {
          engines := engines[k := engines[k].(links := engines[k].links + [link])];
        }
      }
    }

    method BuildEngineDescriptionGraph(eng: EngineDescription) returns (r: Result<EngineDescription, RadioError>)
      ensures r.Ok? <==> EngineResolves(eng)
      ensures r.Err? ==> EngineNamesUnknown(eng, r.error)
      ensures r.Ok? ==> r.value == WithGraph(eng)
    {
      hide EdgesFor;
      var graph := eng.engineGraph;
      for c := 0 to |eng.components|
        invariant graph == eng.engineGraph.(vertices := eng.engineGraph.vertices + eng.components[..c])
      {
        graph := graph.(vertices := graph.vertices + [eng.components[c]]);
      }
      assert eng.components[..|eng.components|] == eng.components;
      ghost var vs := eng.engineGraph.vertices + eng.components;
      NoEdges(eng.engineGraph.edges, eng.links, vs);
      for i := 0 to |eng.links|
        invariant graph.vertices == vs
        invariant forall k :: 0 <= k < i ==> Resolves(eng.links[k], vs)
        invariant graph.edges == eng.engineGraph.edges + EdgesFor(eng.links[..i], vs)
      {
        var src := LookUpComponent(eng.links[i].sourceComponent, graph);
        if src == |graph.vertices| {
          return Err(NoComponent(eng.links[i].sourceComponent));
        }
        var snk := LookUpComponent(eng.links[i].sinkComponent, graph);
        if snk == |graph.vertices| {
          return Err(NoComponent(eng.links[i].sourceComponent));
        }
        graph := graph.(edges := graph.edges + [Edge(src, snk, eng.links[i])]);
        OneMoreEdge(eng.engineGraph.edges, eng.links, i, vs);
      }
      assert eng.links[..|eng.links|] == eng.links;
      r := Ok(eng.(engineGraph := graph));
    }

    method BuildEngineGraphs() returns (e: Option<RadioError>)
      modifies this`engines
      ensures e == None <==> forall j :: 0 <= j < |old(engines)| ==> EngineResolves(old(engines)[j])
      ensures e.Some? ==>
                exists j :: 0 <= j < |old(engines)| && EngineNamesUnknown(old(engines)[j], e.value) &&
                  forall i :: 0 <= i < j ==> EngineResolves(old(engines)[i])
      ensures e == None ==>
                |engines| == |old(engines)| &&
                forall j :: 0 <= j < |engines| ==> engines[j] == WithGraph(old(engines)[j])
    {
      hide WithGraph, EngineResolves;
      for i := 0 to |engines|
        invariant |engines| == |old(engines)|
        invariant forall j :: 0 <= j < i ==> EngineResolves(old(engines)[j]) && engines[j] == WithGraph(old(engines)[j])
        invariant forall j :: i <= j < |engines| ==> engines[j] == old(engines)[j]
      {
        var r := BuildEngineDescriptionGraph(engines[i]);
        if r.Err? {
          return Some(r.error);
        }
        engines := engines[i := r.value];
      }
      e := None;
    }

    /** External links go to the engines at both their ends. */
    method AddExternalLinks()
      modifies this`engines
      ensures |engines| == |old(engines)|
      ensures forall j :: 0 <= j < |engines| ==> engines[j] == WithTouching(old(engines)[j], externalLinks)
    {
      hide WithTouching;
      NothingTouches(engines);
      for i := 0 to |externalLinks|
        invariant |engines| == |old(engines)|
        invariant forall j :: 0 <= j < |engines| ==> engines[j] == WithTouching(old(engines)[j], externalLinks[..i])
      {
        AddExternalLink(externalLinks[i]);
        OneMoreTouching(old(engines), externalLinks, i);
      }
      assert externalLinks[..|externalLinks|] == externalLinks;
    }

    method AddExternalLink(link: LinkDescription)
      modifies this`engines
      ensures |engines| == |old(engines)|
      ensures forall j :: 0 <= j < |engines| ==> engines[j] == MoreTouching(old(engines)[j], link)
    {
      for k := 0 to |engines|
        invariant |engines| == |old(engines)|
        invariant forall j :: 0 <= j < k ==> engines[j] == MoreTouching(old(engines)[j], link)
        invariant forall j :: k <= j < |engines| ==> engines[j] == old(engines)[j]
      {
        if engines[k].name == link.sourceEngine || engines[k].name == link.sinkEngine {
          engines := engines[k := engines[k].(links := engines[k].links + [link])];
        }
      }
    }

    method BuildEngineGraph() returns (e: Option<RadioError>)
      modifies this`engineGraph
      ensures engineGraph.vertices == old(engineGraph).vertices + engines
      ensures e == None <==> forall k :: 0 <= k < |externalLinks| ==>
              EnginesResolve(externalLinks[k], engineGraph.vertices)
      ensures e.Some? ==> NamesUnknownEngine(externalLinks, engineGraph.vertices, e.value)
      ensures e == None ==>
                engineGraph.edges == old(engineGraph).edges + EngineEdgesFor(externalLinks, engineGraph.vertices)
    {
      hide EngineEdgesFor, FindEngine;
      for i := 0 to |engines|
        invariant engineGraph == old(engineGraph).(vertices := old(engineGraph).vertices + engines[..i])
      {
        engineGraph := engineGraph.(vertices := engineGraph.vertices + [engines[i]]);
      }
      assert engines[..|engines|] == engines;
      NoEngineEdges(old(engineGraph).edges, externalLinks, engineGraph.vertices);
      for i := 0 to |externalLinks|
        invariant engineGraph.vertices == old(engineGraph).vertices + engines
        invariant forall k :: 0 <= k < i ==> EnginesResolve(externalLinks[k], engineGraph.vertices)
        invariant engineGraph.edges == old(engineGraph).edges + EngineEdgesFor(externalLinks[..i], engineGraph.vertices)
      {
        var el := externalLinks[i];
        var engSrc := LookUpEngine(el.sourceEngine, engineGraph);
        if engSrc == |engineGraph.vertices| {
          return Some(NoEngine(el.sourceEngine));
        }
        var engSnk := LookUpEngine(el.sinkEngine, engineGraph);
        if engSnk == |engineGraph.vertices| {
          return Some(NoEngine(el.sinkEngine));
        }
        engineGraph := engineGraph.(edges := engineGraph.edges + [Edge(engSrc, engSnk, el)]);
        OneMoreEngineEdge(old(engineGraph).edges, externalLinks, i, engineGraph.vertices);
      }
      assert externalLinks[..|externalLinks|] == externalLinks;
      e := None;
    }

    /** When it throws, the graphs are left half built; the controllers, the links and `isBuilt` are not
        touched. */
    method BuildGraphs() returns (e: Option<RadioError>)
      requires forall k :: 0 <= k < |radioGraph.edges| ==> Joins(radioGraph.edges[k], radioGraph.vertices)
      modifies this
      ensures e == None <==> Buildable(old(State()))
      ensures e == None ==> IsBuiltFrom(State(), old(State()))
      ensures e.Some? ==> BuildFails(old(State()), e.value)
      ensures e.Some? ==> controllers == old(controllers) && links == old(links) && isBuilt == old(isBuilt)
    {
      hide AllComponents, EngineResolves, WithGraph, WithInternal, WithTouching, EdgesFor, Stamped, External, Joins;
      hide Resolves, EnginesResolve, EngineEdgesFor, BuiltEngines;
      ghost var was := State();
      AddComponents();
      e := AddLinks();
      if e.Some? {
        return;
      }
      assert radioGraph == Graph(RadioVertices(was), RawEdges(was));
      RawEdgesJoin(was);
      ClassifyLinks();
      ghost var es := Stamped(RawEdges(was), RadioVertices(was));
      assert radioGraph.edges == es && externalLinks == was.externalLinks + External(es);
      ghost var sorted := engines;
      e := BuildEngineGraphs();
      if e.Some? {
        assert exists j :: 0 <= j < |sorted| && !EngineResolves(sorted[j]);
        return;
      }
      assert forall j :: 0 <= j < |was.engines| ==> EngineResolves(WithInternal(was.engines[j], es)) by {
        assert forall j :: 0 <= j < |sorted| ==> EngineResolves(sorted[j]);
      }
      AddExternalLinks();
      assert engines == BuiltEngines(was.engines, es, externalLinks);
      e := BuildEngineGraph();
      if e.Some? {
        return;
      }
      isBuilt := true;
    }

    /** The three copies, one after the other; an exception leaves the earlier ones changed. */
    method ReconfigureParameter(reconfig: ParametricReconfig) returns (e: Option<RadioError>)
      modifies this
      ensures (State(), e) == Reconfigured(old(State()), reconfig)
    {
      var v := LookUpComponent(reconfig.componentName, radioGraph);
      if v == |radioGraph.vertices| {
        return Some(NoComponent(reconfig.componentName));
      }
      var ps := SetParameters(radioGraph.vertices[v].parameters, reconfig.parameterName, reconfig.parameterValue);
      radioGraph := radioGraph.(vertices := radioGraph.vertices[v := radioGraph.vertices[v].(parameters := ps)]);
      var newComp := radioGraph.vertices[v];
      var engD := SetComponents(newComp, reconfig);
      var ver := LookUpEngine(reconfig.engineName, engineGraph);
      if ver == |engineGraph.vertices| {
        return Some(NoEngine(reconfig.engineName));
      }
      engineGraph := engineGraph.(vertices := engineGraph.vertices[ver := engD]);
      e := None;
    }

    method SetParameters(params: seq<ParameterDescription>, name: string, value: string)
      returns (ps: seq<ParameterDescription>)
      ensures ps == WithParameter(params, name, value)
    {
      ps := params;
      for i := 0 to |ps|
        invariant |ps| == |params|
        invariant forall k :: 0 <= k < i ==>
                  ps[k] == if params[k].name == name then Parameter(name, value) else params[k]
        invariant forall k :: i <= k < |ps| ==> ps[k] == params[k]
      {
        if ps[i].name == name {
          ps := ps[i := ps[i].(value := value)];
        }
      }
    }

    /** Replaces the component in every engine of the name and returns the last such engine. */
    method SetComponents(newComp: ComponentDescription, reconfig: ParametricReconfig) returns (engD: EngineDescription)
      modifies this`engines
      ensures engines == WithComponentIn(old(engines), newComp, reconfig.engineName, reconfig.componentName)
      ensures engD == ReplacedOwner(old(State()), newComp, reconfig)
    {
      hide WithComponent;
      engD := BLANK_ENGINE;
      for i := 0 to |engines|
        invariant |engines| == |old(engines)|
        invariant forall j :: 0 <= j < i ==>
                    engines[j] == if old(engines)[j].name == reconfig.engineName
                                  then WithComponent(old(engines)[j], newComp, reconfig.componentName)
                                    else old(engines)[j]
        invariant forall j :: i <= j < |engines| ==> engines[j] == old(engines)[j]
        invariant engD == ReplacedAmong(old(engines), i, newComp, reconfig)
      {
        if engines[i].name == reconfig.engineName {
          var found, eng := SetComponent(engines[i], newComp, reconfig.componentName);
          engines := engines[i := eng];
          if found {
            engD := eng;
          }
        }
      }
    }

    /** The inner loop, up to its break. */
    method SetComponent(engine: EngineDescription, newComp: ComponentDescription, name: string)
      returns (found: bool, eng: EngineDescription)
      ensures eng == WithComponent(engine, newComp, name)
      ensures found <==> FindComponent(name, engine.components) < |engine.components|
    {
      var c := 0;
      while c < |engine.components| && engine.components[c].name != name
        invariant c <= |engine.components|
        invariant FindComponent(name, engine.components) == FindComponent(name, engine.components, c)
      {
        c := c + 1;
      }
      found := c < |engine.components|;
      eng := if found then engine.(components := engine.components[c := newComp]) else engine;
    }

    method ReconfigureRepresentation(reconfigs: seq<ParametricReconfig>) returns (e: Option<RadioError>)
      modifies this
      ensures (State(), e) == ReconfiguredAll(old(State()), reconfigs)
    {
      e := None;
      for i := 0 to |reconfigs|
        invariant (State(), e) == ReconfiguredAll(old(State()), reconfigs[..i]) && e == None
      {
        e := ReconfigureParameter(reconfigs[i]);
        assert reconfigs[..i + 1][..i] == reconfigs[..i];
        if e.Some? {
          ReconfiguredStops(old(State()), reconfigs, i + 1);
          return;
        }
      }
      assert reconfigs[..|reconfigs|] == reconfigs;
    }

    method GetParameterValue(paramName: string, componentName: string) returns (value: string)
      ensures value == ParameterValue(State(), paramName, componentName)
    {
      var v := LookUpComponent(componentName, radioGraph);
      if v == |radioGraph.vertices| {
        return "";
      }
      var ps := radioGraph.vertices[v].parameters;
      var k := 0;
      while k < |ps|
        invariant k <= |ps|
        invariant FindParameter(paramName, ps) == FindParameter(paramName, ps, k)
      {
        if ps[k].name == paramName {
          return ps[k].value;
        }
        k := k + 1;
      }
      value := "";
    }
  }
}
