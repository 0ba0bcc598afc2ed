/** Radio descriptions to element trees and back (src/XmlParser.cpp:54-392). */
module XmlCodec {
  import opened Wrappers
  import opened XmlBase
  import opened XmlTree
  import opened RadioTypes

  /** What a radio file describes. */
  datatype Radio = Radio(
    controllers: seq<ControllerDescription>,
    engines: seq<EngineDescription>,
    links: seq<LinkDescription>)

  /** The reasons for an XmlParsingException, and the link attribute with fewer than two tokens, where
      the original dereferences the end of its token range. */
  datatype CodecError = IllegalElement(name: string) | MissingToken

  function Map<A, B>(f: A -> B, xs: seq<A>): (ys: seq<B>)
    ensures |ys| == |xs|
    ensures forall i :: 0 <= i < |xs| ==> ys[i] == f(xs[i])
  {
    if xs == [] then [] else Map(f, xs[..|xs| - 1]) + [f(xs[|xs| - 1])]
  }

  /** Converts every element of xs in order; the first failure wins. */
  function MapOk<A, B, E>(f: A -> Result<B, E>, xs: seq<A>): (r: Result<seq<B>, E>)
    ensures r.Ok? ==> |r.value| == |xs|
  {
    if xs == [] then Ok([])
    else
      match MapOk(f, xs[..|xs| - 1])
      case Err(e) => Err(e)
      case Ok(ys) =>
        match f(xs[|xs| - 1])
        case Err(e) => Err(e)
        case Ok(y) => Ok(ys + [y])
  }

  /* ---------------------------------------------------------------------- writing ---- */

  function WrittenParameter(p: ParameterDescription): Node
  {
    Element("parameter", [Attribute("name", p.name), Attribute("value", p.value)], [])
  }

  function WrittenPort(p: PortDescription): Node
  {
    Element("port", [Attribute("name", p.name), Attribute("class", p.kind)], [])
  }

  function WrittenComponent(c: ComponentDescription): Node
  {
    Element("component", [Attribute("name", c.name), Attribute("class", c.kind)],
            Map(WrittenParameter, c.parameters) + Map(WrittenPort, c.ports))
  }

  function WrittenEngine(e: EngineDescription): Node
  {
    Element("engine", [Attribute("name", e.name), Attribute("class", e.kind)], Map(WrittenComponent, e.components))
  }

  /** The name of a controller is not written. */
  function WrittenController(c: ControllerDescription): Node
  {
    Element("controller", [Attribute("class", c.kind)], Map(WrittenParameter, c.parameters))
  }

  function WrittenLink(l: LinkDescription): Node
  {
    Element("link", [Attribute("source", l.sourceComponent + "." + l.sourcePort),
                     Attribute("sink", l.sinkComponent + "." + l.sinkPort)], [])
  }

  function WrittenRadio(r: Radio): Node
  {
    Element("softwareradio", [],
            Map(WrittenController, r.controllers) + Map(WrittenEngine, r.engines) + Map(WrittenLink, r.links))
  }

  /** The loops of writeComponent and writeController over the parameters. */
  method WriteParameters(params: seq<ParameterDescription>, e: Node) returns (r: Node)
    requires e.Element?
    ensures r == e.(children := e.children + Map(WrittenParameter, params))
  {
    r := e;
    var i := 0;
    while i < |params|
      invariant 0 <= i <= |params|
      invariant r == e.(children := e.children + Map(WrittenParameter, params[..i]))
    {
      assert params[..i + 1][..i] == params[..i];
      r := r.(children := r.children + [WrittenParameter(params[i])]);
      i := i + 1;
    }
    assert params[..|params|] == params;
  }

  method WriteComponent(compDesc: ComponentDescription) returns (e: Node)
    ensures e == WrittenComponent(compDesc)
  {
    e := Element("component", [Attribute("name", compDesc.name), Attribute("class", compDesc.kind)], []);
    e := WriteParameters(compDesc.parameters, e);
    e := WritePorts(compDesc.ports, e);
  }

  method WritePorts(ports: seq<PortDescription>, e: Node) returns (r: Node)
    requires e.Element?
    ensures r == e.(children := e.children + Map(WrittenPort, ports))
  {
    r := e;
    var i := 0;
    while i < |ports|
      invariant 0 <= i <= |ports|
      invariant r == e.(children := e.children + Map(WrittenPort, ports[..i]))
    {
      assert ports[..i + 1][..i] == ports[..i];
      r := r.(children := r.children + [WrittenPort(ports[i])]);
      i := i + 1;
    }
    assert ports[..|ports|] == ports;
  }

  method WriteEngine(engDesc: EngineDescription) returns (e: Node)
    ensures e == WrittenEngine(engDesc)
  {
    e := Element("engine", [Attribute("name", engDesc.name), Attribute("class", engDesc.kind)], []);
    var components, i := engDesc.components, 0;
    while i < |components|
      invariant 0 <= i <= |components|
      invariant e == WrittenEngine(engDesc.(components := components[..i]))
    {
      assert components[..i + 1][..i] == components[..i];
      var currentComp := WriteComponent(components[i]);
      e := e.(children := e.children + [currentComp]);
      i := i + 1;
    }
    assert components[..|components|] == components;
  }

  method WriteController(conDesc: ControllerDescription) returns (e: Node)
    ensures e == WrittenController(conDesc)
  {
    e := WriteParameters(conDesc.parameters, Element("controller", [Attribute("class", conDesc.kind)], []));
  }

  method WriteLink(linkDesc: LinkDescription) returns (e: Node)
    ensures e == WrittenLink(linkDesc)
  {
    e := Element("link", [], []);
    e := e.(attributes := e.attributes + [Attribute("source", linkDesc.sourceComponent + "." + linkDesc.sourcePort)]);
    e := e.(attributes := e.attributes + [Attribute("sink", linkDesc.sinkComponent + "." + linkDesc.sinkPort)]);
  }

  method WriteSoftwareRadio(swrDesc: Radio) returns (e: Node)
    ensures e == WrittenRadio(swrDesc)
  {
    hide WrittenController, WrittenEngine, WrittenLink;
    e := Element("softwareradio", [], []);
    var controllers, i := swrDesc.controllers, 0;
    while i < |controllers|
      invariant 0 <= i <= |controllers|
      invariant e == Element("softwareradio", [], Map(WrittenController, controllers[..i]))
    {
      assert controllers[..i + 1][..i] == controllers[..i];
      var currentController := WriteController(controllers[i]);
      e := e.(children := e.children + [currentController]);
      i := i + 1;
    }
    assert controllers[..|controllers|] == controllers;
    e := WriteEngines(swrDesc.engines, e);
    e := WriteLinks(swrDesc.links, e);
  }

  method WriteEngines(engines: seq<EngineDescription>, start: Node) returns (e: Node)
    requires start.Element?
    ensures e == start.(children := start.children + Map(WrittenEngine, engines))
  {
    hide WrittenEngine;
    e := start;
    var i := 0;
    while i < |engines|
      invariant 0 <= i <= |engines|
      invariant e == start.(children := start.children + Map(WrittenEngine, engines[..i]))
    {
      var currentEngine := WriteEngine(engines[i]);
      OneMoreChild(start.children, WrittenEngine, engines, i);
      e := e.(children := e.children + [currentEngine]);
      i := i + 1;
    }
    assert engines[..|engines|] == engines;
  }

  lemma OneMoreChild<A>(start: seq<Node>, f: A -> Node, xs: seq<A>, i: nat)
    requires i < |xs|
    ensures start + Map(f, xs[..i + 1]) == start + Map(f, xs[..i]) + [f(xs[i])]
  {
    assert xs[..i + 1][..i] == xs[..i];
  }

  method WriteLinks(links: seq<LinkDescription>, start: Node) returns (e: Node)
    requires start.Element?
    ensures e == start.(children := start.children + Map(WrittenLink, links))
  {
    e := start;
    var i := 0;
    while i < |links|
      invariant 0 <= i <= |links|
      invariant e == start.(children := start.children + Map(WrittenLink, links[..i]))
    {
      var currentLink := WriteLink(links[i]);
      OneMoreChild(start.children, WrittenLink, links, i);
      e := e.(children := e.children + [currentLink]);
      i := i + 1;
    }
    assert links[..|links|] == links;
  }

  /* ---------------------------------------------------------------------- reading ---- */

  /** GetAttribute: the value of the attribute, or the empty string when there is none. */
  function ValueOf(attributes: seq<Attribute>, name: string): string
  {
    if attributes == [] then ""
    else if attributes[0].name == name then attributes[0].value
    else ValueOf(attributes[1..], name)
  }

  datatype Level = InLink | InController | InComponent | InEngine | InRadio

  /** The elements that are legal inside another. */
  predicate MayContain(level: Level, name: string)
  {
    match level
    case InLink => false
    case InController => name == "parameter"
    case InComponent => name == "port" || name == "parameter"
    case InEngine => name == "component"
    case InRadio => name == "controller" || name == "engine" || name == "link"
  }

  /** The first child element that is not allowed here. */
  function Illegal(children: seq<Node>, level: Level): (r: Option<string>)
  {
    if children == [] then None
    else if children[0].Element? && !MayContain(level, children[0].name) then Some(children[0].name)
    else Illegal(children[1..], level)
  }

  /** The child elements of the given name, in order. */
  function Named(children: seq<Node>, name: string): (r: seq<Node>)
    ensures forall c :: c in r ==> c.Element?
  {
    if children == [] then []
    else
      var init := Named(children[..|children| - 1], name);
      var last := children[|children| - 1];
      if last.Element? && last.name == name then init + [last] else init
  }

  function Attr(e: Node, name: string): string
  {
    if e.Element? then Lower(ValueOf(e.attributes, name)) else ""
  }

  function ParameterFrom(e: Node): ParameterDescription
  {
    Parameter(Attr(e, "name"), Attr(e, "value"))
  }

  function PortFrom(e: Node): PortDescription
  {
    Port(Attr(e, "name"), Attr(e, "class"))
  }

  function ComponentFrom(e: Node): Result<ComponentDescription, CodecError>
  {
    var children := if e.Element? then e.children else [];
    match Illegal(children, InComponent)
    case Some(s) => Err(IllegalElement(s))
    case None =>
      Ok(Component(Attr(e, "name"), Attr(e, "class"), "", Map(ParameterFrom, Named(children, "parameter")),
                   Map(PortFrom, Named(children, "port"))))
  }

  /** `comp.engineName = theEngine.name` for every component read. */
  function Adopted(cs: seq<ComponentDescription>, owner: string): (r: seq<ComponentDescription>)
    ensures |r| == |cs|
    ensures forall i :: 0 <= i < |cs| ==> r[i] == cs[i].(engineName := owner)
  {
    if cs == [] then [] else Adopted(cs[..|cs| - 1], owner) + [cs[|cs| - 1].(engineName := owner)]
  }

  function EngineFrom(e: Node): Result<EngineDescription, CodecError>
  {
    var children := if e.Element? then e.children else [];
    match Illegal(children, InEngine)
    case Some(s) => Err(IllegalElement(s))
    case None =>
      match MapOk(ComponentFrom, Named(children, "component"))
      case Err(s) => Err(s)
      case Ok(cs) =>
        var name := Attr(e, "name");
        Ok(Engine(name, Attr(e, "class"), NO_GRAPH, Adopted(cs, name), []))
  }

  function ControllerFrom(e: Node): Result<ControllerDescription, CodecError>
  {
    var children := if e.Element? then e.children else [];
    match Illegal(children, InController)
    case Some(s) => Err(IllegalElement(s))
    case None =>
      var kind := Attr(e, "class");
      var name := if Attr(e, "name") == "" then kind else Attr(e, "name");
      Ok(Controller(name, kind, Map(ParameterFrom, Named(children, "parameter"))))
  }

  /** The length of the prefix of s without a dot. */
  function TokenLength(s: string): (n: nat)
    ensures n <= |s| && '.' !in s[..n]
    ensures n < |s| ==> s[n] == '.'
  {
    if s == "" || s[0] == '.' then 0
    else
      assert s[..1 + TokenLength(s[1..])] == [s[0]] + s[1..][..TokenLength(s[1..])];
      1 + TokenLength(s[1..])
  }

  /** boost::tokenizer with the separator ".": the non-empty runs between the dots. */
  function Tokens(s: string): (ts: seq<string>)
    ensures forall t :: t in ts ==> t != "" && '.' !in t
  {
    if s == "" then []
    else if s[0] == '.' then Tokens(s[1..])
    else [s[..TokenLength(s)]] + Tokens(s[TokenLength(s)..])
  }

  function AttributeOr(e: Node, name: string, otherwise: string): string
    requires e.Element?
  {
    if HasAttribute(e.attributes, name) then ValueOf(e.attributes, name) else ValueOf(e.attributes, otherwise)
  }

  /** A link may name its ends `source`/`sink` or `above`/`below`; the first two tokens of each end are
      its component and its port. */
  function LinkFrom(e: Node): Result<LinkDescription, CodecError>
    requires e.Element?
  {
    match Illegal(e.children, InLink)
    case Some(s) => Err(IllegalElement(s))
    case None =>
      var sink := Tokens(AttributeOr(e, "sink", "below"));
      var source := Tokens(AttributeOr(e, "source", "above"));
      if |source| < 2 || |sink| < 2 then Err(MissingToken)
      else Ok(Link("", "", Lower(source[0]), Lower(sink[0]), Lower(source[1]), Lower(sink[1])))
  }

  function RadioFrom(head: Node): Result<Radio, CodecError>
    requires head.Element?
  {
    var children := head.children;
    match Illegal(children, InRadio)
    case Some(s) => Err(IllegalElement(s))
    case None =>
      match MapOk(ControllerFrom, Named(children, "controller"))
      case Err(s) => Err(s)
      case Ok(controllers) =>
        match MapOk(EngineFrom, Named(children, "engine"))
        case Err(s) => Err(s)
        case Ok(engines) =>
          match MapOk(LinkOf, Named(children, "link"))
          case Err(s) => Err(s)
          case Ok(links) => Ok(Radio(controllers, engines, links))
  }

  function LinkOf(e: Node): Result<LinkDescription, CodecError>
  {
    if e.Element? then LinkFrom(e) else Err(MissingToken)
  }

  /** The checks for illegal nodes at the head of every read function. */
  method CheckChildren(children: seq<Node>, level: Level) returns (illegal: Option<string>)
    ensures illegal == Illegal(children, level)
  {
    var i := 0;
    assert children[0..] == children;
    while i < |children|
      invariant 0 <= i <= |children|
      invariant Illegal(children[i..], level) == Illegal(children, level)
    {
      assert children[i..][1..] == children[i + 1..];
      if children[i].Element? && !MayContain(level, children[i].name) {
        return Some(children[i].name);
      }
      i := i + 1;
    }
    illegal := None;
  }

  /** The loops over the "parameter" children. */
  method ReadParameters(children: seq<Node>) returns (parameters: seq<ParameterDescription>)
    ensures parameters == Map(ParameterFrom, Named(children, "parameter"))
  {
    parameters := [];
    var i := 0;
    while i < |children|
      invariant 0 <= i <= |children|
      invariant parameters == Map(ParameterFrom, Named(children[..i], "parameter"))
    {
      assert children[..i + 1][..i] == children[..i];
      if children[i].Element? && children[i].name == "parameter" {
        MapAppend(ParameterFrom, Named(children[..i], "parameter"), children[i]);
        parameters := parameters + [ParameterFrom(children[i])];
      }
      i := i + 1;
    }
    assert children[..|children|] == children;
  }

  method ReadPorts(children: seq<Node>) returns (ports: seq<PortDescription>)
    ensures ports == Map(PortFrom, Named(children, "port"))
  {
    ports := [];
    var i := 0;
    while i < |children|
      invariant 0 <= i <= |children|
      invariant ports == Map(PortFrom, Named(children[..i], "port"))
    {
      assert children[..i + 1][..i] == children[..i];
      if children[i].Element? && children[i].name == "port" {
        MapAppend(PortFrom, Named(children[..i], "port"), children[i]);
        ports := ports + [PortFrom(children[i])];
      }
      i := i + 1;
    }
    assert children[..|children|] == children;
  }

  lemma MapAppend<A, B>(f: A -> B, xs: seq<A>, x: A)
    ensures Map(f, xs + [x]) == Map(f, xs) + [f(x)]
  {
    assert (xs + [x])[..|xs|] == xs;
  }

  method ReadComponent(e: Node) returns (r: Result<ComponentDescription, CodecError>)
    requires e.Element?
    ensures r == ComponentFrom(e)
  {
    var illegal := CheckChildren(e.children, InComponent);
    if illegal.Some? {
      return Err(IllegalElement(illegal.value));
    }
    var parameters := ReadParameters(e.children);
    var ports := ReadPorts(e.children);
    r := Ok(Component(Attr(e, "name"), Attr(e, "class"), "", parameters, ports));
  }

  method ReadController(e: Node) returns (r: Result<ControllerDescription, CodecError>)
    requires e.Element?
    ensures r == ControllerFrom(e)
  {
    var illegal := CheckChildren(e.children, InController);
    if illegal.Some? {
      return Err(IllegalElement(illegal.value));
    }
    var name, kind := Attr(e, "name"), Attr(e, "class");
    if name == "" {
      name := kind;
    }
    var parameters := ReadParameters(e.children);
    r := Ok(Controller(name, kind, parameters));
  }

  method ReadEngine(e: Node) returns (r: Result<EngineDescription, CodecError>)
    requires e.Element?
    ensures r == EngineFrom(e)
  {
    hide ComponentFrom;
    var illegal := CheckChildren(e.children, InEngine);
    if illegal.Some? {
      return Err(IllegalElement(illegal.value));
    }
    var name := Attr(e, "name");
    var children, i := Named(e.children, "component"), 0;
    var components: seq<ComponentDescription> := [];
    ghost var read: seq<ComponentDescription> := [];
    while i < |children|
      invariant 0 <= i <= |children|
      invariant MapOk(ComponentFrom, children[..i]) == Ok(read)
      invariant components == Adopted(read, name)
    {
      assert children[..i + 1] == children[..i] + [children[i]];
      var comp := ReadComponent(children[i]);
      if comp.Err? {
        FirstFailure(ComponentFrom, children, i);
        return Err(comp.error);
      }
      MapOkAppend(ComponentFrom, children[..i], read, children[i], comp.value);
      components := components + [comp.value.(engineName := name)];
      read := read + [comp.value];
      i := i + 1;
    }
    assert children[..|children|] == children;
    r := Ok(Engine(name, Attr(e, "class"), NO_GRAPH, components, []));
  }

  lemma MapOkAppend<A, B, E>(f: A -> Result<B, E>, xs: seq<A>, ys: seq<B>, x: A, y: B)
    requires MapOk(f, xs) == Ok(ys) && f(x) == Ok(y)
    ensures MapOk(f, xs + [x]) == Ok(ys + [y])
  {
    assert (xs + [x])[..|xs|] == xs;
  }

  lemma {:induction false} FirstFailure<A, B, E>(f: A -> Result<B, E>, xs: seq<A>, i: nat)
    requires i < |xs| && f(xs[i]).Err? && MapOk(f, xs[..i]).Ok?
    ensures MapOk(f, xs) == Err(f(xs[i]).error)
  {
    if i == |xs| - 1 {
    } else {
      assert xs[..|xs| - 1][..i] == xs[..i];
      FirstFailure(f, xs[..|xs| - 1], i);
    }
  }

  method ReadLink(e: Node) returns (r: Result<LinkDescription, CodecError>)
    requires e.Element?
    ensures r == LinkFrom(e)
  {
    var illegal := CheckChildren(e.children, InLink);
    if illegal.Some? {
      return Err(IllegalElement(illegal.value));
    }
    var sink, source: string;
    if HasAttribute(e.attributes, "sink") {
      sink := ValueOf(e.attributes, "sink");
    } else {
      sink := ValueOf(e.attributes, "below");
    }
    if HasAttribute(e.attributes, "source") {
      source := ValueOf(e.attributes, "source");
    } else {
      source := ValueOf(e.attributes, "above");
    }
    var sourceTokens, sinkTokens := Tokens(source), Tokens(sink);
    if |sourceTokens| < 2 || |sinkTokens| < 2 {
      return Err(MissingToken);
    }
    r := Ok(Link("", "", Lower(sourceTokens[0]), Lower(sinkTokens[0]), Lower(sourceTokens[1]), Lower(sinkTokens[1])));
  }

  method ReadControllers(children: seq<Node>) returns (r: Result<seq<ControllerDescription>, CodecError>)
    ensures r == MapOk(ControllerFrom, Named(children, "controller"))
  {
    hide ControllerFrom;
    var elements, i := Named(children, "controller"), 0;
    var acc: seq<ControllerDescription> := [];
    while i < |elements|
      invariant 0 <= i <= |elements|
      invariant MapOk(ControllerFrom, elements[..i]) == Ok(acc)
    {
      assert elements[..i + 1] == elements[..i] + [elements[i]];
      var next := ReadController(elements[i]);
      if next.Err? {
        FirstFailure(ControllerFrom, elements, i);
        return Err(next.error);
      }
      MapOkAppend(ControllerFrom, elements[..i], acc, elements[i], next.value);
      acc := acc + [next.value];
      i := i + 1;
    }
    assert elements[..|elements|] == elements;
    r := Ok(acc);
  }

  method ReadEngines(children: seq<Node>) returns (r: Result<seq<EngineDescription>, CodecError>)
    ensures r == MapOk(EngineFrom, Named(children, "engine"))
  {
    hide EngineFrom;
    var elements, i := Named(children, "engine"), 0;
    var acc: seq<EngineDescription> := [];
    while i < |elements|
      invariant 0 <= i <= |elements|
      invariant MapOk(EngineFrom, elements[..i]) == Ok(acc)
    {
      assert elements[..i + 1] == elements[..i] + [elements[i]];
      var next := ReadEngine(elements[i]);
      if next.Err? {
        FirstFailure(EngineFrom, elements, i);
        return Err(next.error);
      }
      MapOkAppend(EngineFrom, elements[..i], acc, elements[i], next.value);
      acc := acc + [next.value];
      i := i + 1;
    }
    assert elements[..|elements|] == elements;
    r := Ok(acc);
  }

  method ReadLinks(children: seq<Node>) returns (r: Result<seq<LinkDescription>, CodecError>)
    ensures r == MapOk(LinkOf, Named(children, "link"))
  {
    hide LinkFrom;
    var elements, i := Named(children, "link"), 0;
    var acc: seq<LinkDescription> := [];
    while i < |elements|
      invariant 0 <= i <= |elements|
      invariant MapOk(LinkOf, elements[..i]) == Ok(acc)
    {
      assert elements[..i + 1] == elements[..i] + [elements[i]];
      var next := ReadLink(elements[i]);
      if next.Err? {
        FirstFailure(LinkOf, elements, i);
        return Err(next.error);
      }
      MapOkAppend(LinkOf, elements[..i], acc, elements[i], next.value);
      acc := acc + [next.value];
      i := i + 1;
    }
    assert elements[..|elements|] == elements;
    r := Ok(acc);
  }

  method ReadSoftwareRadio(head: Node) returns (r: Result<Radio, CodecError>)
    requires head.Element?
    ensures r == RadioFrom(head)
  {
    var illegal := CheckChildren(head.children, InRadio);
    if illegal.Some? {
      return Err(IllegalElement(illegal.value));
    }
    var controllers := ReadControllers(head.children);
    if controllers.Err? {
      return Err(controllers.error);
    }
    var engines := ReadEngines(head.children);
    if engines.Err? {
      return Err(engines.error);
    }
    var links := ReadLinks(head.children);
    if links.Err? {
      return Err(links.error);
    }
    r := Ok(Radio(controllers.value, engines.value, links.value));
  }
}
