/** What a radio file says and what is read from it, by the names of its elements and attributes. */
module XmlReadingLaws {
  import opened Sequences
  import opened Wrappers
  import opened XmlBase
  import opened XmlTree
  import opened XmlLayoutLaws
  import opened RadioTypes
  import opened XmlCodec
  import XL = XmlCodecLaws

  /* ------------------------------------------------------------------ what a file says ---- */

  /** The text of the first attribute of this name, empty when there is none. */
  ghost predicate Carries(attributes: seq<Attribute>, name: string, text: string)
  {
    (text == "" && forall i :: 0 <= i < |attributes| ==> attributes[i].name != name) ||
    exists i :: 0 <= i < |attributes| && attributes[i] == Attribute(name, text) &&
      forall j :: 0 <= j < i ==> attributes[j].name != name
  }

  /** The attribute says this in lower case. */
  ghost predicate Says(e: Node, name: string, value: string)
    requires e.Element?
  {
    exists text :: Carries(e.attributes, name, text) && value == Lower(text)
  }

  function Called(name: string): Node -> bool
  {
    (n: Node) => n.Element? && n.name == name
  }

  /** The child elements of this name, in their order. */
  ghost predicate Children(e: Node, name: string, es: seq<Node>)
    requires e.Element?
  {
    (forall i :: 0 <= i < |es| ==> es[i].Element?) &&
    exists at :: Keeps(e.children, Called(name), es, at)
  }

  /** The element has no child elements but those of these names. */
  predicate Legal(e: Node, names: seq<string>)
    requires e.Element?
  {
    forall i :: 0 <= i < |e.children| && e.children[i].Element? ==> e.children[i].name in names
  }

  ghost predicate IsParameter(e: Node, p: ParameterDescription)
    requires e.Element?
  {
    Says(e, "name", p.name) && Says(e, "value", p.value)
  }

  ghost predicate IsPort(e: Node, p: PortDescription)
    requires e.Element?
  {
    Says(e, "name", p.name) && Says(e, "class", p.kind)
  }

  ghost predicate HasParameters(e: Node, ps: seq<ParameterDescription>)
    requires e.Element?
  {
    exists es :: Children(e, "parameter", es) && |es| == |ps| && forall i :: 0 <= i < |es| ==> IsParameter(es[i], ps[i])
  }

  ghost predicate HasPorts(e: Node, ps: seq<PortDescription>)
    requires e.Element?
  {
    exists es :: Children(e, "port", es) && |es| == |ps| && forall i :: 0 <= i < |es| ==> IsPort(es[i], ps[i])
  }

  ghost predicate IsComponent(e: Node, c: ComponentDescription)
    requires e.Element?
  {
    Legal(e, ["port", "parameter"]) && Says(e, "name", c.name) && Says(e, "class", c.kind) &&
    HasParameters(e, c.parameters) && HasPorts(e, c.ports)
  }

  ghost predicate IsEngine(e: Node, d: EngineDescription)
    requires e.Element?
  {
    Legal(e, ["component"]) && Says(e, "name", d.name) && Says(e, "class", d.kind) &&
    d.engineGraph == NO_GRAPH && d.links == [] &&
    exists es :: Children(e, "component", es) && |es| == |d.components| &&
      forall i :: 0 <= i < |es| ==> IsComponent(es[i], d.components[i]) && d.components[i].engineName == d.name
  }

  /** A controller without a name is called after its class. */
  ghost predicate IsController(e: Node, c: ControllerDescription)
    requires e.Element?
  {
    Legal(e, ["parameter"]) && Says(e, "class", c.kind) && HasParameters(e, c.parameters) &&
    if Says(e, "name", "") then c.name == c.kind else Says(e, "name", c.name)
  }

  predicate Dots(s: string)
  {
    forall i :: 0 <= i < |s| ==> s[i] == '.'
  }

  /** The first two names between the dots. */
  ghost predicate Names(text: string, component: string, port: string)
  {
    exists a, b, c, rest :: Dots(a) && Dots(b) && b != "" && (rest == "" || rest[0] == '.') &&
      XL.IsEndName(component) && XL.IsEndName(port) && c == b + (port + rest) && text == a + (component + c)
  }

  /** One end of a link: the attribute of the first name, or if there is none, that of the second. */
  ghost predicate End(e: Node, name: string, otherwise: string, component: string, port: string)
    requires e.Element?
  {
    exists text, c, p :: Names(text, c, p) && component == Lower(c) && port == Lower(p) &&
      if exists i :: 0 <= i < |e.attributes| && e.attributes[i].name == name then Carries(e.attributes, name, text)
      else Carries(e.attributes, otherwise, text)
  }

  ghost predicate IsLink(e: Node, l: LinkDescription)
    requires e.Element?
  {
    Legal(e, []) && l.sourceEngine == "" && l.sinkEngine == "" &&
    End(e, "source", "above", l.sourceComponent, l.sourcePort) && End(e, "sink", "below", l.sinkComponent, l.sinkPort)
  }

  ghost predicate IsRadio(head: Node, r: Radio)
    requires head.Element?
  {
    Legal(head, ["controller", "engine", "link"]) &&
    (exists es :: Children(head, "controller", es) && |es| == |r.controllers| &&
       forall i :: 0 <= i < |es| ==> IsController(es[i], r.controllers[i])) &&
    (exists es :: Children(head, "engine", es) && |es| == |r.engines| &&
       forall i :: 0 <= i < |es| ==> IsEngine(es[i], r.engines[i])) &&
    exists es :: Children(head, "link", es) && |es| == |r.links| &&
      forall i :: 0 <= i < |es| ==> IsLink(es[i], r.links[i])
  }

  /* --------------------------------------------------------------------------- attributes ---- */

  lemma {:induction false} ValueIsCarried(attributes: seq<Attribute>, name: string)
    ensures Carries(attributes, name, ValueOf(attributes, name))
  {
    if attributes == [] {
    } else if attributes[0].name == name {
      assert attributes[0] == Attribute(name, ValueOf(attributes, name));
    } else {
      ValueIsCarried(attributes[1..], name);
      var v := ValueOf(attributes, name);
      if i :| 0 <= i < |attributes[1..]| && attributes[1..][i] == Attribute(name, v) &&
              forall j :: 0 <= j < i ==> attributes[1..][j].name != name {
        assert attributes[i + 1] == Attribute(name, v);
        assert forall j :: 1 <= j < i + 1 ==> attributes[j] == attributes[1..][j - 1];
      } else {
        assert forall j :: 1 <= j < |attributes| ==> attributes[j] == attributes[1..][j - 1];
      }
    }
  }

  lemma AttributeSays(e: Node, name: string)
    requires e.Element?
    ensures Says(e, name, Attr(e, name))
  {
    ValueIsCarried(e.attributes, name);
  }

  /** A file says only one thing. */
  lemma SaysOnce(e: Node, name: string, a: string, b: string)
    requires e.Element? && Says(e, name, a) && Says(e, name, b)
    ensures a == b
  {
    var s, t :| Carries(e.attributes, name, s) && a == Lower(s) && Carries(e.attributes, name, t) && b == Lower(t);
  }

  /** Letters are lowered, one by one, and nothing else changes. */
  lemma LowerIs(c: char)
    ensures forall i: nat :: i < 26 ==> ToLower("ABCDEFGHIJKLMNOPQRSTUVWXYZ"[i]) == "abcdefghijklmnopqrstuvwxyz"[i]
    ensures c !in "ABCDEFGHIJKLMNOPQRSTUVWXYZ" ==> ToLower(c) == c
  {
    CapitalsAre();
    SmallsAre();
    if 'A' <= c <= 'Z' { assert "ABCDEFGHIJKLMNOPQRSTUVWXYZ"[c as int - 'A' as int] == c; }
  }

  lemma CapitalsAre()
    ensures forall i: nat :: i < 26 ==> "ABCDEFGHIJKLMNOPQRSTUVWXYZ"[i] as int == 'A' as int + i
  {
  }

  lemma SmallsAre()
    ensures forall i: nat :: i < 26 ==> "abcdefghijklmnopqrstuvwxyz"[i] as int == 'a' as int + i
  {
  }

  /* ----------------------------------------------------------------------------- children ---- */

  lemma {:induction false} NamedIsKept(children: seq<Node>, name: string) returns (at: seq<nat>)
    ensures Keeps(children, Called(name), Named(children, name), at)
    decreases |children|
  {
    if children == [] {
      at := [];
    } else {
      var init, last := children[..|children| - 1], children[|children| - 1];
      at := NamedIsKept(init, name);
      KeepsOneMore(init, Called(name), Named(init, name), at, last);
      assert init + [last] == children;
      if last.Element? && last.name == name { at := at + [|init|]; }
    }
  }

  lemma NamedAreChildren(e: Node, name: string)
    requires e.Element?
    ensures Children(e, name, Named(e.children, name))
  {
    var at := NamedIsKept(e.children, name);
  }

  /** The first child element that may not be here. */
  lemma {:induction false} IllegalIsFirst(children: seq<Node>, level: Level)
    ensures Illegal(children, level) == None <==>
            forall i :: 0 <= i < |children| && children[i].Element? ==> MayContain(level, children[i].name)
    ensures Illegal(children, level).Some? ==>
              exists i :: 0 <= i < |children| && children[i].Element? &&
                children[i].name == Illegal(children, level).value && !MayContain(level, children[i].name) &&
                forall j :: 0 <= j < i && children[j].Element? ==> MayContain(level, children[j].name)
  {
    if children != [] {
      IllegalIsFirst(children[1..], level);
      assert forall i :: 1 <= i < |children| ==> children[i] == children[1..][i - 1];
      if children[0].Element? && !MayContain(level, children[0].name) {
      } else if Illegal(children[1..], level).Some? {
        var i :| 0 <= i < |children[1..]| && children[1..][i].Element? &&
          children[1..][i].name == Illegal(children, level).value && !MayContain(level, children[1..][i].name) &&
          forall j :: 0 <= j < i && children[1..][j].Element? ==> MayContain(level, children[1..][j].name);
        assert children[i + 1] == children[1..][i];
      }
    }
  }

  /** An illegal child element is reported by its name: the first. */
  ghost predicate HasIllegal(e: Node, names: seq<string>, error: CodecError)
    requires e.Element?
  {
    exists i :: 0 <= i < |e.children| && e.children[i].Element? && e.children[i].name !in names &&
      error == IllegalElement(e.children[i].name) &&
      forall j :: 0 <= j < i && e.children[j].Element? ==> e.children[j].name in names
  }

  lemma IllegalIsReported(e: Node, level: Level, names: seq<string>)
    requires e.Element? && forall s :: MayContain(level, s) <==> s in names
    ensures Illegal(e.children, level).Some? ==> HasIllegal(e, names, IllegalElement(Illegal(e.children, level).value))
    ensures Illegal(e.children, level) == None <==> Legal(e, names)
  {
    hide Illegal, MayContain;
    IllegalIsFirst(e.children, level);
  }

  lemma Levels()
    ensures forall s :: MayContain(InLink, s) <==> s in []
    ensures forall s :: MayContain(InController, s) <==> s in ["parameter"]
    ensures forall s :: MayContain(InComponent, s) <==> s in ["port", "parameter"]
    ensures forall s :: MayContain(InEngine, s) <==> s in ["component"]
    ensures forall s :: MayContain(InRadio, s) <==> s in ["controller", "engine", "link"]
  {
  }

  /* ------------------------------------------------------------------------------ parts ---- */

  lemma ParameterIsRead(e: Node)
    requires e.Element?
    ensures IsParameter(e, ParameterFrom(e))
  {
    AttributeSays(e, "name");
    AttributeSays(e, "value");
  }

  lemma PortIsRead(e: Node)
    requires e.Element?
    ensures IsPort(e, PortFrom(e))
  {
    AttributeSays(e, "name");
    AttributeSays(e, "class");
  }

  lemma ParametersAreRead(e: Node)
    requires e.Element?
    ensures HasParameters(e, Map(ParameterFrom, Named(e.children, "parameter")))
  {
    var es := Named(e.children, "parameter");
    NamedAreChildren(e, "parameter");
    forall i | 0 <= i < |es| ensures IsParameter(es[i], Map(ParameterFrom, es)[i]) { ParameterIsRead(es[i]); }
  }

  lemma PortsAreRead(e: Node)
    requires e.Element?
    ensures HasPorts(e, Map(PortFrom, Named(e.children, "port")))
  {
    var es := Named(e.children, "port");
    NamedAreChildren(e, "port");
    forall i | 0 <= i < |es| ensures IsPort(es[i], Map(PortFrom, es)[i]) { PortIsRead(es[i]); }
  }

  /** A component is what its element says, or an element in it is out of place. */
  lemma ComponentIsRead(e: Node)
    requires e.Element?
    ensures var r := ComponentFrom(e);
            if r.Ok? then IsComponent(e, r.value) && r.value.engineName == ""
            else HasIllegal(e, ["port", "parameter"], r.error)
  {
    hide Illegal, Named, IsParameter, HasParameters, HasPorts, Says;
    Levels();
    IllegalIsReported(e, InComponent, ["port", "parameter"]);
    AttributeSays(e, "name");
    AttributeSays(e, "class");
    ParametersAreRead(e);
    PortsAreRead(e);
  }

  lemma ControllerIsRead(e: Node)
    requires e.Element?
    ensures var r := ControllerFrom(e);
            if r.Ok? then IsController(e, r.value) else HasIllegal(e, ["parameter"], r.error)
  {
    hide Illegal, Named, IsParameter, HasParameters, Says;
    Levels();
    IllegalIsReported(e, InController, ["parameter"]);
    AttributeSays(e, "name");
    AttributeSays(e, "class");
    ParametersAreRead(e);
    if Says(e, "name", "") { SaysOnce(e, "name", "", Attr(e, "name")); }
  }

  /** Each is converted, in order, or the first that cannot be tells why. */
  lemma {:induction false} EachIsConverted<A, B, E>(f: A -> Result<B, E>, xs: seq<A>)
    ensures var r := MapOk(f, xs);
            if r.Ok? then |r.value| == |xs| && forall i :: 0 <= i < |xs| ==> f(xs[i]) == Ok(r.value[i])
            else exists i :: 0 <= i < |xs| && f(xs[i]) == Err(r.error) && forall j :: 0 <= j < i ==> f(xs[j]).Ok?
  {
    if xs != [] {
      var n := |xs| - 1;
      EachIsConverted(f, xs[..n]);
      assert forall i :: 0 <= i < n ==> xs[..n][i] == xs[i];
      if MapOk(f, xs[..n]).Ok? { assert f(xs[n]) == f(xs[n]); }
    }
  }

  ghost predicate EngineFault(e: Node, error: CodecError)
    requires e.Element?
  {
    HasIllegal(e, ["component"], error) ||
    exists i :: 0 <= i < |e.children| && e.children[i].Element? && e.children[i].name == "component" &&
      HasIllegal(e.children[i], ["port", "parameter"], error)
  }

  lemma EngineIsRead(e: Node)
    requires e.Element?
    ensures var r := EngineFrom(e); if r.Ok? then IsEngine(e, r.value) else EngineFault(e, r.error)
  {
    hide Illegal, Named, ComponentFrom, Says, HasIllegal, HasParameters, HasPorts, Legal, Children, MayContain, MapOk;
    hide IsComponent;
    Levels();
    IllegalIsReported(e, InEngine, ["component"]);
    AttributeSays(e, "name");
    AttributeSays(e, "class");
    ComponentsAreRead(e);
  }

  lemma ComponentsAreRead(e: Node)
    requires e.Element?
    ensures var es := Named(e.children, "component");
            var r := MapOk(ComponentFrom, es);
            Children(e, "component", es) &&
            if r.Ok? then
              |r.value| == |es| && forall i, owner :: 0 <= i < |es| ==>
                IsComponent(es[i], r.value[i].(engineName := owner))
            else
              exists i :: 0 <= i < |e.children| && e.children[i].Element? && e.children[i].name == "component" &&
                HasIllegal(e.children[i], ["port", "parameter"], r.error)
  {
    hide Named, ComponentFrom, HasIllegal, IsComponent, Children, MapOk;
    var es := Named(e.children, "component");
    var r := MapOk(ComponentFrom, es);
    NamedAreChildren(e, "component");
    AreAmong(e, "component", es);
    EachIsConverted(ComponentFrom, es);
    forall i | 0 <= i < |es|
      ensures if ComponentFrom(es[i]).Ok? then IsComponent(es[i], ComponentFrom(es[i]).value)
              else HasIllegal(es[i], ["port", "parameter"], ComponentFrom(es[i]).error)
    {
      ComponentIsRead(es[i]);
    }
    if r.Ok? {
      forall i, owner | 0 <= i < |es| ensures IsComponent(es[i], r.value[i].(engineName := owner)) {
        OwnerDoesNotMatter(es[i], r.value[i], owner);
      }
    } else {
      var i :| 0 <= i < |es| && ComponentFrom(es[i]) == Err(r.error);
      assert es[i] in e.children;
    }
  }

  lemma OwnerDoesNotMatter(e: Node, c: ComponentDescription, owner: string)
    requires e.Element? && IsComponent(e, c)
    ensures IsComponent(e, c.(engineName := owner))
  {
  }

  lemma AreAmong(e: Node, name: string, es: seq<Node>)
    requires e.Element? && Children(e, name, es)
    ensures forall i :: 0 <= i < |es| ==> es[i] in e.children && es[i].name == name
  {
    var at :| Keeps(e.children, Called(name), es, at);
    forall i | 0 <= i < |es| ensures es[i] in e.children && es[i].name == name {
      assert at[i] in at && Called(name)(e.children[at[i]]);
    }
  }

  /* ------------------------------------------------------------------------------ links ---- */

  lemma {:induction false} DotsSkipped(s: string)
    requires Tokens(s) != []
    ensures exists a, t, rest :: Dots(a) && XL.IsEndName(t) && (rest == "" || rest[0] == '.') && s == a + (t + rest) &&
              Tokens(s) == [t] + Tokens(rest)
    decreases |s|
  {
    if s[0] == '.' {
      DotsSkipped(s[1..]);
      var a, t, rest :| Dots(a) && XL.IsEndName(t) && (rest == "" || rest[0] == '.') && s[1..] == a + (t + rest) &&
        Tokens(s[1..]) == [t] + Tokens(rest);
      assert s == ("." + a) + (t + rest) && Dots("." + a);
    } else {
      var n := TokenLength(s);
      assert "" + (s[..n] + s[n..]) == s;
      assert Dots("") && XL.IsEndName(s[..n]);
    }
  }

  lemma NoDotsBefore(b: string, u: string, last: string)
    requires u != ""
    ensures b == "" ==> (b + (u + last))[0] == u[0]
  {
  }

  /** Two tokens are the first two names between the dots. */
  lemma TokensAreNames(s: string)
    ensures |Tokens(s)| >= 2 ==> Names(s, Tokens(s)[0], Tokens(s)[1])
  {
    if |Tokens(s)| >= 2 {
      DotsSkipped(s);
      var a, t, rest :| Dots(a) && XL.IsEndName(t) && (rest == "" || rest[0] == '.') && s == a + (t + rest) &&
        Tokens(s) == [t] + Tokens(rest);
      assert Tokens(rest) == Tokens(s)[1..];
      DotsSkipped(rest);
      var b, u, last :| Dots(b) && XL.IsEndName(u) && (last == "" || last[0] == '.') && rest == b + (u + last) &&
        Tokens(rest) == [u] + Tokens(last);
      NoDotsBefore(b, u, last);
      assert Dots(a) && Dots(b) && b != "" && rest == b + (u + last) && s == a + (t + rest);
    }
  }

  lemma {:induction false} TokensBehindDots(a: string, rest: string)
    requires Dots(a)
    ensures Tokens(a + rest) == Tokens(rest)
    decreases |a|
  {
    if a == "" {
      assert a + rest == rest;
    } else {
      assert (a + rest)[1..] == a[1..] + rest;
      TokensBehindDots(a[1..], rest);
    }
  }

  lemma NamesAreTokens(s: string, component: string, port: string)
    requires Names(s, component, port)
    ensures var ts := Tokens(s); |ts| >= 2 && ts[0] == component && ts[1] == port
  {
    var a, b, c, rest :| Dots(a) && Dots(b) && b != "" && (rest == "" || rest[0] == '.') &&
      XL.IsEndName(component) && XL.IsEndName(port) && c == b + (port + rest) && s == a + (component + c);
    hide Tokens;
    TokensBehindDots(a, component + c);
    assert c[0] == b[0] == '.';
    XL.OneToken(component, c);
    TokensBehindDots(b, port + rest);
    XL.OneToken(port, rest);
  }

  /** The end that an attribute names. */
  lemma EndIsRead(e: Node, name: string, otherwise: string)
    requires e.Element?
    ensures var ts := Tokens(AttributeOr(e, name, otherwise));
            if |ts| >= 2 then End(e, name, otherwise, Lower(ts[0]), Lower(ts[1]))
            else forall c, p :: !End(e, name, otherwise, c, p)
  {
    var text := AttributeOr(e, name, otherwise);
    ValueIsCarried(e.attributes, name);
    ValueIsCarried(e.attributes, otherwise);
    hide ValueOf, Tokens, Names;
    TokensAreNames(text);
    if |Tokens(text)| < 2 {
      forall c, p ensures !End(e, name, otherwise, c, p) {
        if End(e, name, otherwise, c, p) { NoSuchEnd(e, name, otherwise, c, p); }
      }
    }
  }

  lemma NoSuchEnd(e: Node, name: string, otherwise: string, c: string, p: string)
    requires e.Element? && End(e, name, otherwise, c, p)
    ensures |Tokens(AttributeOr(e, name, otherwise))| >= 2
  {
    var text, a, b :| Names(text, a, b) && c == Lower(a) && p == Lower(b) &&
      if exists i :: 0 <= i < |e.attributes| && e.attributes[i].name == name then Carries(e.attributes, name, text)
      else Carries(e.attributes, otherwise, text);
    ValueIsCarried(e.attributes, name);
    ValueIsCarried(e.attributes, otherwise);
    hide ValueOf, Tokens, Names;
    NamesAreTokens(text, a, b);
  }

  ghost predicate LinkFault(e: Node, error: CodecError)
    requires e.Element?
  {
    HasIllegal(e, [], error) ||
    (error == MissingToken &&
     ((forall c, p :: !End(e, "source", "above", c, p)) || forall c, p :: !End(e, "sink", "below", c, p)))
  }

  lemma LinkIsRead(e: Node)
    requires e.Element?
    ensures var r := LinkFrom(e); if r.Ok? then IsLink(e, r.value) else LinkFault(e, r.error)
  {
    hide Illegal, AttributeOr, End, HasIllegal;
    Levels();
    IllegalIsReported(e, InLink, []);
    EndIsRead(e, "source", "above");
    EndIsRead(e, "sink", "below");
  }

  /* ------------------------------------------------------------------------------ radios ---- */

  ghost predicate RadioFault(head: Node, error: CodecError)
    requires head.Element?
  {
    HasIllegal(head, ["controller", "engine", "link"], error) ||
    exists i :: 0 <= i < |head.children| && head.children[i].Element? &&
      var e := head.children[i];
      (e.name == "controller" && HasIllegal(e, ["parameter"], error)) ||
      (e.name == "engine" && EngineFault(e, error)) ||
      (e.name == "link" && LinkFault(e, error))
  }

  /** The children of one name, each read by f, when what f yields fits and what it reports is a fault. */
  lemma GroupIsRead<B>(head: Node, name: string, f: Node -> Result<B, CodecError>) returns (es: seq<Node>)
    requires head.Element?
    ensures es == Named(head.children, name) && Children(head, name, es)
    ensures var r := MapOk(f, es);
            if r.Ok? then |r.value| == |es| && forall i :: 0 <= i < |es| ==> f(es[i]) == Ok(r.value[i])
            else exists i :: 0 <= i < |head.children| && head.children[i].Element? && head.children[i].name == name &&
                   f(head.children[i]) == Err(r.error)
  {
    hide Named, MapOk;
    es := Named(head.children, name);
    NamedAreChildren(head, name);
    AreAmong(head, name, es);
    EachIsConverted(f, es);
    if MapOk(f, es).Err? {
      var i :| 0 <= i < |es| && f(es[i]) == Err(MapOk(f, es).error);
      assert es[i] in head.children;
    }
  }

  lemma ControllersAreRead(head: Node) returns (es: seq<Node>)
    requires head.Element?
    ensures Children(head, "controller", es)
    ensures var r := MapOk(ControllerFrom, Named(head.children, "controller"));
            if r.Ok? then |r.value| == |es| && forall i :: 0 <= i < |es| ==> IsController(es[i], r.value[i])
            else RadioFault(head, r.error)
  {
    hide Named, MapOk, ControllerFrom, Children, IsController, HasIllegal, EngineFault, LinkFault;
    es := GroupIsRead(head, "controller", ControllerFrom);
    forall e: Node | e.Element?
      ensures var c := ControllerFrom(e);
              if c.Ok? then IsController(e, c.value) else HasIllegal(e, ["parameter"], c.error)
    {
      ControllerIsRead(e);
    }
  }

  lemma EnginesAreRead(head: Node) returns (es: seq<Node>)
    requires head.Element?
    ensures Children(head, "engine", es)
    ensures var r := MapOk(EngineFrom, Named(head.children, "engine"));
            if r.Ok? then |r.value| == |es| && forall i :: 0 <= i < |es| ==> IsEngine(es[i], r.value[i])
            else RadioFault(head, r.error)
  {
    hide Named, MapOk, EngineFrom, Children, IsEngine, HasIllegal, EngineFault, LinkFault;
    es := GroupIsRead(head, "engine", EngineFrom);
    forall e: Node | e.Element?
      ensures var d := EngineFrom(e); if d.Ok? then IsEngine(e, d.value) else EngineFault(e, d.error)
    {
      EngineIsRead(e);
    }
  }

  lemma LinksAreRead(head: Node) returns (es: seq<Node>)
    requires head.Element?
    ensures Children(head, "link", es)
    ensures var r := MapOk(LinkOf, Named(head.children, "link"));
            if r.Ok? then |r.value| == |es| && forall i :: 0 <= i < |es| ==> IsLink(es[i], r.value[i])
            else RadioFault(head, r.error)
  {
    hide Named, MapOk, LinkFrom, Children, IsLink, HasIllegal, EngineFault, LinkFault;
    es := GroupIsRead(head, "link", LinkOf);
    forall e: Node | e.Element?
      ensures var l := LinkOf(e); if l.Ok? then IsLink(e, l.value) else LinkFault(e, l.error)
    {
      LinkIsRead(e);
    }
  }

  /** A radio file is read as what it says, element by element and attribute by attribute, or it has a fault,
      which the error names. */
  lemma RadioIsRead(head: Node)
    requires head.Element?
    ensures var r := RadioFrom(head); if r.Ok? then IsRadio(head, r.value) else RadioFault(head, r.error)
  {
    hide Illegal, Named, MapOk, Children, HasIllegal, EngineFault, LinkFault, IsController, IsEngine, IsLink;
    hide ControllerFrom, EngineFrom, LinkOf, MayContain;
    Levels();
    IllegalIsReported(head, InRadio, ["controller", "engine", "link"]);
    var cs := ControllersAreRead(head);
    var es := EnginesAreRead(head);
    var ls := LinksAreRead(head);
  }

  /** The whole way from the text of a radio file in any layout to the radio. */
  lemma FileIsRead(file: Laid, rest: string)
    requires file.LaidElement? && IsLaid(file) && LaidDistinct(file)
    ensures ElementAt(LaidOut(file, rest)) == Parsed(TreeOf(file), rest)
    ensures var r := RadioFrom(TreeOf(file));
            if r.Ok? then IsRadio(TreeOf(file), r.value) else RadioFault(TreeOf(file), r.error)
  {
    hide LaidOut, IsLaid, ElementAt, RadioFrom, IsRadio, RadioFault;
    LayoutRead(file, rest);
    RadioIsRead(TreeOf(file));
  }
}
