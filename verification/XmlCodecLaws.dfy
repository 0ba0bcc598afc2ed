/** Which radios survive being written and read, as trees and as text. */
module XmlCodecLaws {
  import opened Wrappers
  import opened XmlBase
  import opened XmlText
  import opened XmlSpellingLaws
  import opened XmlTree
  import opened XmlLayoutLaws
  import opened XmlTreeLaws
  import opened RadioTypes
  import opened XmlCodec

  /* ------------------------------------------------- what writing and reading does ---- */

  function LowerParameter(p: ParameterDescription): ParameterDescription
  {
    Parameter(Lower(p.name), Lower(p.value))
  }

  function LowerPort(p: PortDescription): PortDescription
  {
    Port(Lower(p.name), Lower(p.kind))
  }

  /** A component of an engine called `owner`. */
  function Owned(c: ComponentDescription, owner: string): ComponentDescription
  {
    Component(Lower(c.name), Lower(c.kind), owner, Map(LowerParameter, c.parameters), Map(LowerPort, c.ports))
  }

  function AllOwned(cs: seq<ComponentDescription>, owner: string): (r: seq<ComponentDescription>)
    ensures |r| == |cs|
    ensures forall i :: 0 <= i < |cs| ==> r[i] == Owned(cs[i], owner)
  {
    if cs == [] then [] else AllOwned(cs[..|cs| - 1], owner) + [Owned(cs[|cs| - 1], owner)]
  }

  lemma {:induction false} NamedAppend(a: seq<Node>, b: seq<Node>, name: string)
    ensures Named(a + b, name) == Named(a, name) + Named(b, name)
    decreases b
  {
    if b == [] {
      assert a + b == a;
    } else {
      assert (a + b)[..|a + b| - 1] == a + b[..|b| - 1];
      NamedAppend(a, b[..|b| - 1], name);
    }
  }

  lemma {:induction false} NamedUniform(nodes: seq<Node>, own: string, name: string)
    requires forall n :: n in nodes ==> n.Element? && n.name == own
    ensures Named(nodes, name) == if own == name then nodes else []
  {
    if nodes != [] {
      assert forall n :: n in nodes[..|nodes| - 1] ==> n in nodes;
      NamedUniform(nodes[..|nodes| - 1], own, name);
      assert nodes == nodes[..|nodes| - 1] + [nodes[|nodes| - 1]];
    }
  }

  /** Two groups of differently named children: each group is found again under its own name. */
  lemma NamedGroups(a: seq<Node>, b: seq<Node>, nameA: string, nameB: string)
    requires nameA != nameB
    requires forall n :: n in a ==> n.Element? && n.name == nameA
    requires forall n :: n in b ==> n.Element? && n.name == nameB
    ensures Named(a + b, nameA) == a && Named(a + b, nameB) == b
  {
    NamedAppend(a, b, nameA);
    NamedAppend(a, b, nameB);
    NamedUniform(a, nameA, nameA);
    NamedUniform(a, nameA, nameB);
    NamedUniform(b, nameB, nameA);
    NamedUniform(b, nameB, nameB);
  }

  lemma {:induction false} NothingIllegal(nodes: seq<Node>, level: Level)
    requires forall i :: 0 <= i < |nodes| ==> nodes[i].Element? && MayContain(level, nodes[i].name)
    ensures Illegal(nodes, level) == None
  {
    if nodes != [] { NothingIllegal(nodes[1..], level); }
  }

  lemma TwoValues(k1: string, v1: string, k2: string, v2: string)
    requires k1 != k2
    ensures ValueOf([Attribute(k1, v1), Attribute(k2, v2)], k1) == v1
    ensures ValueOf([Attribute(k1, v1), Attribute(k2, v2)], k2) == v2
  {
    assert [Attribute(k1, v1), Attribute(k2, v2)][1..] == [Attribute(k2, v2)];
  }

  lemma ParameterReadBack(p: ParameterDescription)
    ensures ParameterFrom(WrittenParameter(p)) == LowerParameter(p)
  {
    TwoValues("name", p.name, "value", p.value);
  }

  lemma PortReadBack(p: PortDescription)
    ensures PortFrom(WrittenPort(p)) == LowerPort(p)
  {
    TwoValues("name", p.name, "class", p.kind);
  }

  lemma ParametersReadBack(ps: seq<ParameterDescription>)
    ensures Map(ParameterFrom, Map(WrittenParameter, ps)) == Map(LowerParameter, ps)
  {
    forall p ensures ParameterFrom(WrittenParameter(p)) == LowerParameter(p) { ParameterReadBack(p); }
  }

  lemma PortsReadBack(ps: seq<PortDescription>)
    ensures Map(PortFrom, Map(WrittenPort, ps)) == Map(LowerPort, ps)
  {
    forall p ensures PortFrom(WrittenPort(p)) == LowerPort(p) { PortReadBack(p); }
  }

  lemma ComponentReadBack(c: ComponentDescription)
    ensures ComponentFrom(WrittenComponent(c)) == Ok(Owned(c, ""))
  {
    var params, ports := Map(WrittenParameter, c.parameters), Map(WrittenPort, c.ports);
    TwoValues("name", c.name, "class", c.kind);
    NamedGroups(params, ports, "parameter", "port");
    NothingIllegal(params + ports, InComponent);
    ParametersReadBack(c.parameters);
    PortsReadBack(c.ports);
  }

  /** What an engine becomes: lower case, without graph and links, its components marked as its own. */
  function PlainEngine(e: EngineDescription): EngineDescription
  {
    Engine(Lower(e.name), Lower(e.kind), NO_GRAPH,
           AllOwned(e.components, Lower(e.name)), [])
  }

  lemma ComponentNodes(cs: seq<ComponentDescription>)
    ensures forall n :: n in Map(WrittenComponent, cs) ==> n.Element? && n.name == "component"
  {
  }

  lemma EngineReadBack(e: EngineDescription)
    ensures EngineFrom(WrittenEngine(e)) == Ok(PlainEngine(e))
  {
    hide ComponentFrom, Owned, AllOwned, Adopted, WrittenComponent, Named, Illegal, MapOk;
    var nodes, name := Map(WrittenComponent, e.components), Lower(e.name);
    TwoValues("name", e.name, "class", e.kind);
    ComponentNodes(e.components);
    NamedUniform(nodes, "component", "component");
    NothingIllegal(nodes, InEngine);
    ComponentsReadBack(e.components, name);
  }

  lemma {:induction false} AllOk<A, B, E>(f: A -> Result<B, E>, xs: seq<A>, ys: seq<B>)
    requires |xs| == |ys| && forall i :: 0 <= i < |xs| ==> f(xs[i]) == Ok(ys[i])
    ensures MapOk(f, xs) == Ok(ys)
  {
    if xs != [] {
      AllOk(f, xs[..|xs| - 1], ys[..|ys| - 1]);
      assert ys == ys[..|ys| - 1] + [ys[|ys| - 1]];
    }
  }

  lemma ComponentsReadBack(cs: seq<ComponentDescription>, owner: string)
    ensures var r := MapOk(ComponentFrom, Map(WrittenComponent, cs));
            r.Ok? &&
            Adopted(r.value, owner) == AllOwned(cs, owner)
  {
    var nodes := Map(WrittenComponent, cs);
    forall i | 0 <= i < |cs| ensures ComponentFrom(nodes[i]) == Ok(AllOwned(cs, "")[i]) {
      ComponentReadBack(cs[i]);
    }
    AllOk(ComponentFrom, nodes, AllOwned(cs, ""));
  }

  /** A controller takes its class for a name. */
  function PlainController(c: ControllerDescription): ControllerDescription
  {
    Controller(Lower(c.kind), Lower(c.kind), Map(LowerParameter, c.parameters))
  }

  lemma ControllerReadBack(c: ControllerDescription)
    ensures ControllerFrom(WrittenController(c)) == Ok(PlainController(c))
  {
    var params := Map(WrittenParameter, c.parameters);
    assert ValueOf([Attribute("class", c.kind)], "name") == ValueOf([], "name") by {
      assert [Attribute("class", c.kind)][1..] == [];
    }
    assert Lower("") == "";
    NamedUniform(params, "parameter", "parameter");
    NothingIllegal(params, InController);
    ParametersReadBack(c.parameters);
  }

  /* ------------------------------------------------------------------------- links ---- */

  /** A name that survives the dotted notation of link ends. */
  predicate IsEndName(s: string)
  {
    s != "" && '.' !in s
  }

  lemma {:induction false} TokenLengthOf(s: string, rest: string)
    requires '.' !in s && (rest == "" || rest[0] == '.')
    ensures TokenLength(s + rest) == |s|
  {
    if s == "" {
      assert s + rest == rest;
    } else {
      assert (s + rest)[1..] == s[1..] + rest;
      TokenLengthOf(s[1..], rest);
    }
  }

  lemma OneToken(s: string, rest: string)
    requires IsEndName(s) && (rest == "" || rest[0] == '.')
    ensures Tokens(s + rest) == [s] + Tokens(rest)
  {
    TokenLengthOf(s, rest);
    assert (s + rest)[..|s|] == s && (s + rest)[|s|..] == rest && (s + rest)[0] == s[0];
  }

  /** `component.port` is taken apart again exactly when neither part is empty or has a dot in it. */
  lemma EndReadBack(component: string, port: string)
    ensures (var ts := Tokens(component + "." + port); |ts| >= 2 && ts[0] == component && ts[1] == port) <==>
            IsEndName(component) && IsEndName(port)
  {
    var ts := Tokens(component + "." + port);
    if IsEndName(component) && IsEndName(port) {
      assert component + "." + port == component + ("." + port);
      OneToken(component, "." + port);
      assert ("." + port)[1..] == port == port + "";
      OneToken(port, "");
    } else if |ts| >= 2 {
      assert ts[0] in ts && ts[1] in ts;
    }
  }

  predicate IsLower(s: string)
  {
    Lower(s) == s
  }

  predicate NormalLink(l: LinkDescription)
  {
    l.sourceEngine == "" && l.sinkEngine == "" &&
    IsEndName(l.sourceComponent) && IsEndName(l.sourcePort) && IsEndName(l.sinkComponent) && IsEndName(l.sinkPort) &&
    IsLower(l.sourceComponent) && IsLower(l.sourcePort) && IsLower(l.sinkComponent) && IsLower(l.sinkPort)
  }

  lemma LowerKeepsDots(s: string)
    ensures '.' in Lower(s) <==> '.' in s
    ensures Lower(s) == "" <==> s == ""
  {
    if '.' in s {
      var i :| 0 <= i < |s| && s[i] == '.';
      assert Lower(s)[i] == '.';
    }
    if '.' in Lower(s) {
      var i :| 0 <= i < |s| && Lower(s)[i] == '.';
      assert s[i] == '.';
    }
  }

  lemma LinkReadBack(l: LinkDescription)
    ensures LinkOf(WrittenLink(l)) == Ok(l) <==> NormalLink(l)
  {
    var source, sink := l.sourceComponent + "." + l.sourcePort, l.sinkComponent + "." + l.sinkPort;
    var e := WrittenLink(l);
    assert e.attributes[0].name == "source" && e.attributes[1].name == "sink";
    TwoValues("source", source, "sink", sink);
    EndReadBack(l.sourceComponent, l.sourcePort);
    EndReadBack(l.sinkComponent, l.sinkPort);
    EndOfLowerTokens(source, l.sourceComponent, l.sourcePort);
    EndOfLowerTokens(sink, l.sinkComponent, l.sinkPort);
  }

  /** If the lowered tokens are the two names, the names are legal, so the tokens are the names. */
  lemma EndOfLowerTokens(s: string, component: string, port: string)
    requires s == component + "." + port
    ensures (var ts := Tokens(s); |ts| >= 2 && Lower(ts[0]) == component && Lower(ts[1]) == port) ==>
            IsEndName(component) && IsEndName(port)
  {
    var ts := Tokens(s);
    if |ts| >= 2 {
      assert ts[0] in ts && ts[1] in ts;
      LowerKeepsDots(ts[0]);
      LowerKeepsDots(ts[1]);
    }
  }

  /* -------------------------------------------------------------------- whole radios ---- */

  predicate NormalParameters(ps: seq<ParameterDescription>)
  {
    forall p :: p in ps ==> IsLower(p.name) && IsLower(p.value)
  }

  predicate NormalController(c: ControllerDescription)
  {
    c.name == c.kind && IsLower(c.kind) && NormalParameters(c.parameters)
  }

  predicate NormalComponent(c: ComponentDescription, owner: string)
  {
    c.engineName == owner && IsLower(c.name) && IsLower(c.kind) && NormalParameters(c.parameters) &&
    forall p :: p in c.ports ==> IsLower(p.name) && IsLower(p.kind)
  }

  predicate NormalEngine(e: EngineDescription)
  {
    IsLower(e.name) && IsLower(e.kind) && e.engineGraph == NO_GRAPH && e.links == [] &&
    forall c :: c in e.components ==> NormalComponent(c, e.name)
  }

  /** Radios whose strings are in lower case, whose controllers are named after their class, whose
      components name their engine, whose engines have not been built yet and whose links have
      four non-empty names without dots. */
  predicate Normal(r: Radio)
  {
    (forall c :: c in r.controllers ==> NormalController(c)) &&
    (forall e :: e in r.engines ==> NormalEngine(e)) &&
    forall l :: l in r.links ==> NormalLink(l)
  }

  lemma ParametersFixpoint(ps: seq<ParameterDescription>)
    ensures Map(LowerParameter, ps) == ps <==> NormalParameters(ps)
  {
    if Map(LowerParameter, ps) == ps {
      forall p | p in ps ensures IsLower(p.name) && IsLower(p.value) {
        var i :| 0 <= i < |ps| && ps[i] == p;
        assert LowerParameter(p) == p;
      }
    }
  }

  lemma PortsFixpoint(ps: seq<PortDescription>)
    ensures Map(LowerPort, ps) == ps <==> forall p :: p in ps ==> IsLower(p.name) && IsLower(p.kind)
  {
    if Map(LowerPort, ps) == ps {
      forall p | p in ps ensures IsLower(p.name) && IsLower(p.kind) {
        var i :| 0 <= i < |ps| && ps[i] == p;
        assert LowerPort(p) == p;
      }
    }
  }

  lemma ComponentFixpoint(c: ComponentDescription, owner: string)
    ensures Owned(c, owner) == c <==> NormalComponent(c, owner)
  {
    ParametersFixpoint(c.parameters);
    PortsFixpoint(c.ports);
  }

  lemma EngineFixpoint(e: EngineDescription)
    ensures PlainEngine(e) == e <==> NormalEngine(e)
  {
    var owned := AllOwned(e.components, Lower(e.name));
    if PlainEngine(e) == e {
      forall c | c in e.components ensures NormalComponent(c, e.name) {
        var i :| 0 <= i < |e.components| && e.components[i] == c;
        assert owned[i] == Owned(c, e.name);
        ComponentFixpoint(c, e.name);
      }
    }
    if NormalEngine(e) {
      forall i | 0 <= i < |e.components| ensures owned[i] == e.components[i] {
        ComponentFixpoint(e.components[i], e.name);
      }
    }
  }

  lemma ControllerFixpoint(c: ControllerDescription)
    ensures PlainController(c) == c <==> NormalController(c)
  {
    ParametersFixpoint(c.parameters);
  }

  /** The children of a written radio fall apart into its three groups again. */
  lemma GroupsReadBack(a: seq<Node>, b: seq<Node>, c: seq<Node>)
    requires forall n :: n in a ==> n.Element? && n.name == "controller"
    requires forall n :: n in b ==> n.Element? && n.name == "engine"
    requires forall n :: n in c ==> n.Element? && n.name == "link"
    ensures var all := a + b + c;
            Named(all, "controller") == a && Named(all, "engine") == b && Named(all, "link") == c
  {
    hide Named;
    NamedAppend(a + b, c, "controller");
    NamedAppend(a + b, c, "engine");
    NamedAppend(a + b, c, "link");
    NamedGroups(a, b, "controller", "engine");
    NamedAppend(a, b, "link");
    NamedUniform(a, "controller", "link");
    NamedUniform(b, "engine", "link");
    NamedUniform(c, "link", "controller");
    NamedUniform(c, "link", "engine");
    NamedUniform(c, "link", "link");
  }

  lemma GroupsLegal(a: seq<Node>, b: seq<Node>, c: seq<Node>)
    requires forall n :: n in a ==> n.Element? && n.name == "controller"
    requires forall n :: n in b ==> n.Element? && n.name == "engine"
    requires forall n :: n in c ==> n.Element? && n.name == "link"
    ensures Illegal(a + b + c, InRadio) == None
  {
    hide Illegal;
    var all := a + b + c;
    forall i | 0 <= i < |all| ensures all[i].Element? && MayContain(InRadio, all[i].name) {
      assert all[i] in a || all[i] in b || all[i] in c;
    }
    NothingIllegal(all, InRadio);
  }

  lemma {:induction false} MapOkFixpoint<A, B, E>(f: A -> Result<B, E>, xs: seq<A>, ys: seq<B>)
    requires |xs| == |ys|
    ensures MapOk(f, xs) == Ok(ys) <==> forall i :: 0 <= i < |xs| ==> f(xs[i]) == Ok(ys[i])
  {
    if xs != [] {
      var n := |xs| - 1;
      MapOkFixpoint(f, xs[..n], ys[..n]);
      assert ys == ys[..n] + [ys[n]];
      if MapOk(f, xs) == Ok(ys) {
        assert (MapOk(f, xs[..n]).value + [ys[n]])[..n] == MapOk(f, xs[..n]).value;
      }
    }
  }

  lemma RadioFromGroups(head: Node, r: Radio)
    requires head.Element? && Illegal(head.children, InRadio) == None
    ensures RadioFrom(head) == Ok(r) <==>
            MapOk(ControllerFrom, Named(head.children, "controller")) == Ok(r.controllers) &&
            MapOk(EngineFrom, Named(head.children, "engine")) == Ok(r.engines) &&
            MapOk(LinkOf, Named(head.children, "link")) == Ok(r.links)
  {
  }

  /** A written radio is read group by group. */
  lemma GroupsAreRead(r: Radio, engines: seq<EngineDescription>)
    requires forall c :: c in r.controllers ==> NormalController(c)
    requires forall l :: l in r.links ==> NormalLink(l)
    requires MapOk(EngineFrom, Map(WrittenEngine, r.engines)) == Ok(engines)
    ensures RadioFrom(WrittenRadio(r)) == Ok(r.(engines := engines))
  {
    hide NormalController, NormalLink, ControllerFrom, EngineFrom, LinkOf, RadioFrom, MapOk;
    var a, b, c := Map(WrittenController, r.controllers), Map(WrittenEngine, r.engines), Map(WrittenLink, r.links);
    GroupsReadBack(a, b, c);
    GroupsLegal(a, b, c);
    RadioFromGroups(WrittenRadio(r), r.(engines := engines));
    ControllersFixpoint(r.controllers);
    LinksFixpoint(r.links);
  }

  /** Reading a written radio gives the same radio, in the same order, exactly for normal radios. */
  lemma RadioReadBack(r: Radio)
    ensures RadioFrom(WrittenRadio(r)) == Ok(r) <==> Normal(r)
  {
    hide NormalController, NormalEngine, NormalLink, ControllerFrom, EngineFrom, LinkOf, RadioFrom, MapOk;
    var a, b, c := Map(WrittenController, r.controllers), Map(WrittenEngine, r.engines), Map(WrittenLink, r.links);
    GroupsReadBack(a, b, c);
    GroupsLegal(a, b, c);
    RadioFromGroups(WrittenRadio(r), r);
    ControllersFixpoint(r.controllers);
    EnginesFixpoint(r.engines);
    LinksFixpoint(r.links);
  }

  lemma ControllersFixpoint(cs: seq<ControllerDescription>)
    ensures MapOk(ControllerFrom, Map(WrittenController, cs)) == Ok(cs) <==>
            (forall c :: c in cs ==> NormalController(c))
  {
    MapOkFixpoint(ControllerFrom, Map(WrittenController, cs), cs);
    forall c ensures ControllerFrom(WrittenController(c)) == Ok(c) <==> NormalController(c) {
      ControllerReadBack(c);
      ControllerFixpoint(c);
    }
    forall i | 0 <= i < |cs|
      ensures ControllerFrom(Map(WrittenController, cs)[i]) == Ok(cs[i]) <==> NormalController(cs[i])
    {
    }
  }

  lemma EnginesFixpoint(es: seq<EngineDescription>)
    ensures MapOk(EngineFrom, Map(WrittenEngine, es)) == Ok(es) <==>
            (forall e :: e in es ==> NormalEngine(e))
  {
    MapOkFixpoint(EngineFrom, Map(WrittenEngine, es), es);
    forall i | 0 <= i < |es|
      ensures EngineFrom(Map(WrittenEngine, es)[i]) == Ok(es[i]) <==> NormalEngine(es[i])
    {
      EngineReadBack(es[i]);
      EngineFixpoint(es[i]);
    }
  }

  lemma LinksFixpoint(ls: seq<LinkDescription>)
    ensures MapOk(LinkOf, Map(WrittenLink, ls)) == Ok(ls) <==>
            (forall l :: l in ls ==> NormalLink(l))
  {
    MapOkFixpoint(LinkOf, Map(WrittenLink, ls), ls);
    forall i | 0 <= i < |ls|
      ensures LinkOf(Map(WrittenLink, ls)[i]) == Ok(ls[i]) <==> NormalLink(ls[i])
    {
      LinkReadBack(ls[i]);
    }
  }

  /* ------------------------------------------------------------------ through the text ---- */

  predicate SafeParameters(ps: seq<ParameterDescription>)
  {
    forall p :: p in ps ==> IsValue(p.name) && IsValue(p.value)
  }

  predicate SafeComponent(c: ComponentDescription)
  {
    IsValue(c.name) && IsValue(c.kind) && SafeParameters(c.parameters) &&
    forall p :: p in c.ports ==> IsValue(p.name) && IsValue(p.kind)
  }

  predicate SafeEngine(e: EngineDescription)
  {
    IsValue(e.name) && IsValue(e.kind) && forall c :: c in e.components ==> SafeComponent(c)
  }

  predicate SafeLink(l: LinkDescription)
  {
    IsValue(l.sourceComponent) && IsValue(l.sourcePort) && IsValue(l.sinkComponent) && IsValue(l.sinkPort)
  }

  /** Every string of the radio that is written is an attribute value that text preserves. */
  predicate Safe(r: Radio)
  {
    (forall c :: c in r.controllers ==> IsValue(c.kind) && SafeParameters(c.parameters)) &&
    (forall e :: e in r.engines ==> SafeEngine(e)) &&
    forall l :: l in r.links ==> SafeLink(l)
  }

  predicate WritableElement(n: Node)
  {
    n.Element? && Writable(n)
  }

  /** An element whose children are all writable elements. */
  lemma ElementWritable(n: Node)
    requires n.Element? && IsPlainName(n.name) && DistinctNames(n.attributes)
    requires forall a :: a in n.attributes ==> IsPlainName(a.name) && IsValue(a.value)
    requires forall i :: 0 <= i < |n.children| ==> WritableElement(n.children[i])
    ensures WritableElement(n)
  {
    hide IsPlainName, IsValue;
    assert PlainAll(n.children) && AllDistinctIn(n.children);
  }

  lemma PlainNames()
    ensures IsPlainName("name") && IsPlainName("value") && IsPlainName("class")
    ensures IsPlainName("source") && IsPlainName("sink") && IsPlainName("link")
    ensures IsPlainName("parameter") && IsPlainName("port") && IsPlainName("component")
    ensures IsPlainName("engine") && IsPlainName("controller") && IsPlainName("softwareradio")
  {
    hide IsPlainName;
    Letters("name");
    Letters("value");
    Letters("class");
    Letters("source");
    Letters("sink");
    Letters("link");
    Letters("parameter");
    Letters("port");
    Letters("component");
    Letters("engine");
    Letters("controller");
    Letters("softwareradio");
  }

  lemma Letters(s: string)
    requires s != "" && forall i :: 0 <= i < |s| ==> 'a' <= s[i] <= 'z'
    ensures IsPlainName(s)
  {
  }

  lemma LeafWritable(name: string, k1: string, v1: string, k2: string, v2: string)
    requires IsPlainName(name) && IsPlainName(k1) && IsPlainName(k2) && k1 != k2 && IsValue(v1) && IsValue(v2)
    ensures WritableElement(Element(name, [Attribute(k1, v1), Attribute(k2, v2)], []))
  {
    hide IsPlainName, IsValue;
    assert PlainAll([]) && AllDistinctIn([]);
  }

  lemma ParametersWritable(ps: seq<ParameterDescription>)
    requires SafeParameters(ps)
    ensures forall i :: 0 <= i < |ps| ==> WritableElement(Map(WrittenParameter, ps)[i])
  {
    hide IsPlainName, IsValue;
    PlainNames();
    forall i | 0 <= i < |ps| ensures WritableElement(Map(WrittenParameter, ps)[i]) {
      LeafWritable("parameter", "name", ps[i].name, "value", ps[i].value);
    }
  }

  lemma ComponentWritable(c: ComponentDescription)
    requires SafeComponent(c)
    ensures WritableElement(WrittenComponent(c))
  {
    hide IsPlainName, IsValue;
    PlainNames();
    ParametersWritable(c.parameters);
    forall i | 0 <= i < |c.ports| ensures WritableElement(Map(WrittenPort, c.ports)[i]) {
      LeafWritable("port", "name", c.ports[i].name, "class", c.ports[i].kind);
    }
    ElementWritable(WrittenComponent(c));
  }

  lemma EngineWritable(e: EngineDescription)
    requires SafeEngine(e)
    ensures WritableElement(WrittenEngine(e))
  {
    hide IsPlainName, IsValue;
    PlainNames();
    forall i | 0 <= i < |e.components| ensures WritableElement(Map(WrittenComponent, e.components)[i]) {
      ComponentWritable(e.components[i]);
    }
    ElementWritable(WrittenEngine(e));
  }

  lemma ControllerWritable(c: ControllerDescription)
    requires IsValue(c.kind) && SafeParameters(c.parameters)
    ensures WritableElement(WrittenController(c))
  {
    hide IsPlainName, IsValue;
    PlainNames();
    ParametersWritable(c.parameters);
    ElementWritable(WrittenController(c));
  }

  /** Joining two safe names with a dot cannot open a reference. */
  lemma DottedIsValue(a: string, b: string)
    requires IsValue(a) && IsValue(b)
    ensures IsValue(a + "." + b)
  {
    var s := a + "." + b;
    forall i | 0 <= i < |s| ensures !StartsHexReference(s[i..]) {
      if i < |a| {
        assert forall k :: 0 <= k < 3 && i + k < |a| ==> s[i..][k] == a[i..][k];
        assert forall k :: 0 <= k < 3 && i + k == |a| ==> s[i..][k] == '.';
      } else if i > |a| {
        assert s[i..] == b[i - |a| - 1..];
      }
    }
  }

  lemma LinkWritable(l: LinkDescription)
    requires SafeLink(l)
    ensures WritableElement(WrittenLink(l))
  {
    hide IsPlainName, IsValue;
    PlainNames();
    DottedIsValue(l.sourceComponent, l.sourcePort);
    DottedIsValue(l.sinkComponent, l.sinkPort);
    LeafWritable("link", "source", l.sourceComponent + "." + l.sourcePort, "sink", l.sinkComponent + "." + l.sinkPort);
  }

  lemma RadioWritable(r: Radio)
    requires Safe(r)
    ensures WritableElement(WrittenRadio(r))
  {
    hide IsPlainName, IsValue;
    PlainNames();
    forall i | 0 <= i < |r.controllers| ensures WritableElement(Map(WrittenController, r.controllers)[i]) {
      ControllerWritable(r.controllers[i]);
    }
    forall i | 0 <= i < |r.engines| ensures WritableElement(Map(WrittenEngine, r.engines)[i]) {
      EngineWritable(r.engines[i]);
    }
    forall i | 0 <= i < |r.links| ensures WritableElement(Map(WrittenLink, r.links)[i]) {
      LinkWritable(r.links[i]);
    }
    ElementWritable(WrittenRadio(r));
  }

  /** The whole way: a safe radio that is written, printed, parsed and read again comes back unchanged
      if and only if it is normal. */
  lemma TextRoundTrip(r: Radio, rest: string)
    requires Safe(r)
    ensures var p := ElementAt(Printed(WrittenRadio(r)) + rest);
            p.Parsed? && p.rest == rest && p.value.Element? && (RadioFrom(p.value) == Ok(r) <==> Normal(r))
  {
    RadioWritable(r);
    ElementReadBack(WrittenRadio(r), rest);
    RadioReadBack(r);
  }
}
