/** What a list of reconfigurations leaves, entry for entry, when entries may name components of other
    engines; when it throws; and when its order matters (src/RadioRepresentation.cpp:198-258,
    src/EngineManager.cpp:157-188). */
module ReconfigurationOrder {
  import opened Wrappers
  import opened RadioTypes
  import opened RadioRepresentation
  import opened RadioLaws
  import opened ReconfigurationLaws
  import EM = EngineManager

  /* --------------------------------------------------------------- what a list leaves ---- */

  /** A component on the radio graph takes every entry for it, whichever engine is named. */
  function OnGraph(ps: seq<ParametricReconfig>, c: ComponentDescription): (n: ComponentDescription)
    ensures n == c.(parameters := n.parameters) && |n.parameters| == |c.parameters|
    decreases |ps|
  {
    if |ps| == 0 then c else ForComponent(OnGraph(ps[..|ps| - 1], c), ps[|ps| - 1])
  }

  /** A component in its engine is taken over from the radio graph by the entries that name the engine. */
  function InEngine(ps: seq<ParametricReconfig>, engine: string, c: ComponentDescription): (n: ComponentDescription)
    ensures n == c.(parameters := n.parameters) && |n.parameters| == |c.parameters|
    decreases |ps|
  {
    if |ps| == 0 then c
    else if ps[|ps| - 1].engineName == engine && ps[|ps| - 1].componentName == c.name then OnGraph(ps, c)
    else InEngine(ps[..|ps| - 1], engine, c)
  }

  function EngineAfter(ps: seq<ParametricReconfig>, e: EngineDescription): (n: EngineDescription)
    ensures n == e.(components := n.components) && |n.components| == |e.components|
    ensures forall k :: 0 <= k < |e.components| ==> n.components[k] == InEngine(ps, e.name, e.components[k])
  {
    e.(components := seq(|e.components|, k requires 0 <= k < |e.components| => InEngine(ps, e.name, e.components[k])))
  }

  /** The entry names the engine, which does not have the component. */
  predicate Foreign(e: EngineDescription, p: ParametricReconfig)
  {
    p.engineName == e.name && FindComponent(p.componentName, e.components) == |e.components|
  }

  predicate Blanked(ps: seq<ParametricReconfig>, e: EngineDescription)
    decreases |ps|
  {
    |ps| > 0 && (Foreign(e, ps[|ps| - 1]) || Blanked(ps[..|ps| - 1], e))
  }

  /** The entry names an engine and a component of the radio, and the engine has not been blanked. */
  predicate Applies(es: seq<EngineDescription>, before: seq<ParametricReconfig>, p: ParametricReconfig)
  {
    FindComponent(p.componentName, AllComponents(es)) < |AllComponents(es)| &&
    FindEngine(p.engineName, es) < |es| && !Blanked(before, es[FindEngine(p.engineName, es)])
  }

  /** Engines and components are those of the radio, and only the last entry for an engine may name a
      component of another. */
  predicate AllApply(es: seq<EngineDescription>, ps: seq<ParametricReconfig>)
    decreases |ps|
  {
    |ps| == 0 || (AllApply(es, ps[..|ps| - 1]) && Applies(es, ps[..|ps| - 1], ps[|ps| - 1]))
  }

  /** Names are not empty; the name of a blank engine is. */
  predicate EnginesNamed(ps: seq<ParametricReconfig>)
  {
    forall i :: 0 <= i < |ps| ==> ps[i].engineName != ""
  }

  predicate VerticesAfter(vs: seq<ComponentDescription>, ps: seq<ParametricReconfig>, n: seq<ComponentDescription>)
  {
    |n| == |vs| && forall v :: 0 <= v < |vs| ==> n[v] == OnGraph(ps, vs[v])
  }

  predicate EnginesAfter(es: seq<EngineDescription>, ps: seq<ParametricReconfig>, n: seq<EngineDescription>)
  {
    |n| == |es| && forall j :: 0 <= j < |es| ==> n[j] == EngineAfter(ps, es[j])
  }

  /** The engine graph shows the engines, and blanks where an entry was foreign. */
  predicate GraphAfter(es: seq<EngineDescription>, ps: seq<ParametricReconfig>, n: seq<EngineDescription>)
  {
    |n| == |es| && forall j :: 0 <= j < |es| ==>
      n[j] == if Blanked(ps, es[j]) then BLANK_ENGINE else EngineAfter(ps, es[j])
  }

  predicate Leaves(r: Radio, ps: seq<ParametricReconfig>, n: Radio)
  {
    VerticesAfter(r.radioGraph.vertices, ps, n.radioGraph.vertices) && EnginesAfter(r.engines, ps, n.engines) &&
    GraphAfter(r.engines, ps, n.engineGraph.vertices) &&
    n.radioGraph.edges == r.radioGraph.edges && n.engineGraph.edges == r.engineGraph.edges
  }

  /* ---------------------------------------------------------------------- one entry more ---- */

  lemma {:induction false} SameFound(name: string, vs: seq<ComponentDescription>, ws: seq<ComponentDescription>, i: nat)
    requires i <= |vs| == |ws| && forall v :: 0 <= v < |vs| ==> vs[v].name == ws[v].name
    ensures FindComponent(name, vs, i) == FindComponent(name, ws, i)
    decreases |vs| - i
  {
    if i < |vs| { SameFound(name, vs, ws, i + 1); }
  }

  lemma OneMore(ps: seq<ParametricReconfig>, p: ParametricReconfig)
    ensures forall c :: OnGraph(ps + [p], c) == ForComponent(OnGraph(ps, c), p)
    ensures forall engine, c ::
              InEngine(ps + [p], engine, c) ==
              if p.engineName == engine && p.componentName == c.name then OnGraph(ps + [p], c)
              else InEngine(ps, engine, c)
    ensures forall e :: Blanked(ps + [p], e) <==> Foreign(e, p) || Blanked(ps, e)
  {
    assert (ps + [p])[..|ps + [p]| - 1] == ps && (ps + [p])[|ps + [p]| - 1] == p;
  }

  /** The radio graph after one entry more. */
  lemma GraphStep(vs: seq<ComponentDescription>, ps: seq<ParametricReconfig>, n: seq<ComponentDescription>,
        p: ParametricReconfig)
    requires VerticesAfter(vs, ps, n) && ComponentNamesDistinct(vs)
    ensures FindComponent(p.componentName, n) == FindComponent(p.componentName, vs)
    ensures var v := FindComponent(p.componentName, vs);
            v < |vs| ==>
              NewComponent(n[v], p) == OnGraph(ps + [p], vs[v]) &&
                VerticesAfter(vs, ps + [p], n[v := NewComponent(n[v], p)])
  {
    hide OnGraph, NewComponent;
    SameFound(p.componentName, n, vs, 0);
    OneMore(ps, p);
    hide InEngine, Blanked;
  }

  /** An engine after one entry more. */
  lemma EngineStep(e: EngineDescription, ps: seq<ParametricReconfig>, p: ParametricReconfig, comp: ComponentDescription)
    requires ComponentNamesDistinct(e.components)
    requires forall k :: 0 <= k < |e.components| && e.components[k].name == p.componentName ==>
               comp == OnGraph(ps + [p], e.components[k])
    ensures EngineAfter(ps + [p], e) ==
            if e.name == p.engineName then WithComponent(EngineAfter(ps, e), comp, p.componentName)
              else EngineAfter(ps, e)
    ensures FindComponent(p.componentName, EngineAfter(ps, e).components) ==
            FindComponent(p.componentName, e.components)
  {
    hide OnGraph, InEngine, Blanked;
    OneMore(ps, p);
    SameFound(p.componentName, EngineAfter(ps, e).components, e.components, 0);
    var (b, n) := (EngineAfter(ps, e), EngineAfter(ps + [p], e));
    hide EngineAfter;
    if e.name != p.engineName {
      assert n.components == b.components;
    } else {
      assert n.components == WithComponent(b, comp, p.componentName).components;
    }
  }

  /** The engine of that name on the engine graph, which holds blanks. */
  lemma {:induction false} FoundAmongBlanks(es: seq<EngineDescription>, ps: seq<ParametricReconfig>,
        n: seq<EngineDescription>, name: string, i: nat)
    requires GraphAfter(es, ps, n) && EngineNamesDistinct(es) && i <= |es| && name != ""
    ensures FindEngine(name, n, i) ==
            var w := FindEngine(name, es, i); if w < |es| && Blanked(ps, es[w]) then |es| else w
    decreases |es| - i
  {
    if i < |es| {
      FoundAmongBlanks(es, ps, n, name, i + 1);
      assert n[i] == if Blanked(ps, es[i]) then BLANK_ENGINE else EngineAfter(ps, es[i]);
      hide Blanked, EngineAfter;
      if es[i].name == name { assert FindEngine(name, es, i + 1) == |es|; }
    }
  }

  lemma OwnersAfter(es: seq<EngineDescription>, ps: seq<ParametricReconfig>, n: seq<EngineDescription>,
        p: ParametricReconfig, w: nat)
    requires EnginesAfter(es, ps, n) && EngineNamesDistinct(es) && w < |es| && es[w].name == p.engineName
    ensures LastOwner(n, |n|, p.engineName, p.componentName) == if Foreign(es[w], p) then BLANK_ENGINE else n[w]
    ensures FindComponent(p.componentName, n[w].components) == FindComponent(p.componentName, es[w].components)
  {
    hide InEngine;
    SameFound(p.componentName, n[w].components, es[w].components, 0);
    assert EngineNamesDistinct(n) by { assert forall j :: 0 <= j < |n| ==> n[j].name == es[j].name; }
    hide EngineAfter, FindComponent;
    if Foreign(es[w], p) {
      assert !Owns(n, p.engineName, p.componentName) by {
        assert forall j :: 0 <= j < |n| && n[j].name == p.engineName ==> j == w;
      }
      NoLastOwner(n, |n|, p.engineName, p.componentName);
    } else {
      LastOwnerIs(n, |n|, w, p.engineName, p.componentName);
    }
  }

  /** One entry more, when it applies. */
  lemma EntryApplies(r: Radio, ps: seq<ParametricReconfig>, n: Radio, p: ParametricReconfig)
    requires Agrees(r) && Leaves(r, ps, n) && Applies(r.engines, ps, p) && p.engineName != ""
    ensures var after := Reconfigured(n, p); after.1 == None && Leaves(r, ps + [p], after.0)
  {
    var (es, vs) := (r.engines, r.radioGraph.vertices);
    var (v, w) := (FindComponent(p.componentName, vs), FindEngine(p.engineName, es));
    var comp := NewComponent(n.radioGraph.vertices[v], p);
    GraphStep(vs, ps, n.radioGraph.vertices, p);
    forall j | 0 <= j < |es| ensures StepsAlike(es, ps, p, comp, j) { EngineSteps(es, ps, p, comp, j); }
    FoundAmongBlanks(es, ps, n.engineGraph.vertices, p.engineName, 0);
    OwnersAfter(es, ps, n.engines, p, w);
    OneMore(ps, p);
    hide Agrees, WellFormed, AllComponents, NewComponent, OnGraph, InEngine, EngineAfter, VerticesAfter;
    EnginesStep(es, ps, n.engines, p, comp);
    GraphOfEnginesStep(r, ps, n, p, comp);
  }

  /** Replacing the component in the engine that is named takes the engine one entry on. */
  predicate StepsAlike(es: seq<EngineDescription>, ps: seq<ParametricReconfig>, p: ParametricReconfig,
        comp: ComponentDescription, j: nat)
    requires j < |es|
  {
    EngineAfter(ps + [p], es[j]) ==
    if es[j].name == p.engineName then WithComponent(EngineAfter(ps, es[j]), comp, p.componentName)
    else EngineAfter(ps, es[j])
  }

  lemma EngineSteps(es: seq<EngineDescription>, ps: seq<ParametricReconfig>, p: ParametricReconfig,
        comp: ComponentDescription, j: nat)
    requires WellFormed(es) && j < |es|
    requires var (vs, v) := (AllComponents(es), FindComponent(p.componentName, AllComponents(es)));
             v < |vs| && comp == OnGraph(ps + [p], vs[v])
    ensures StepsAlike(es, ps, p, comp, j)
  {
    hide OnGraph, InEngine, EngineAfter, WithComponent;
    EngineComponentsDistinct(es, j);
    forall k | 0 <= k < |es[j].components| && es[j].components[k].name == p.componentName
      ensures comp == OnGraph(ps + [p], es[j].components[k])
    {
      assert FindComponent(p.componentName, es[j].components) == k;
      FoundInAll(es, j, p.componentName);
    }
    EngineStep(es[j], ps, p, comp);
  }

  lemma EnginesStep(es: seq<EngineDescription>, ps: seq<ParametricReconfig>, n: seq<EngineDescription>,
        p: ParametricReconfig, comp: ComponentDescription)
    requires EnginesAfter(es, ps, n) && forall j :: 0 <= j < |es| ==> StepsAlike(es, ps, p, comp, j)
    ensures EnginesAfter(es, ps + [p], WithComponentIn(n, comp, p.engineName, p.componentName))
  {
    hide EngineAfter, WithComponent;
    assert forall j :: 0 <= j < |es| ==> n[j].name == es[j].name && StepsAlike(es, ps, p, comp, j);
  }

  lemma GraphOfEnginesStep(r: Radio, ps: seq<ParametricReconfig>, n: Radio, p: ParametricReconfig,
        comp: ComponentDescription)
    requires GraphAfter(r.engines, ps, n.engineGraph.vertices) && EnginesAfter(r.engines, ps, n.engines)
    requires EngineNamesDistinct(r.engines)
    requires forall j :: 0 <= j < |r.engines| ==> StepsAlike(r.engines, ps, p, comp, j)
    requires forall e :: Blanked(ps + [p], e) <==> Foreign(e, p) || Blanked(ps, e)
    requires var w := FindEngine(p.engineName, r.engines);
             w < |r.engines| && !Blanked(ps, r.engines[w]) &&
             LastOwner(n.engines, |n.engines|, p.engineName, p.componentName) ==
               (if Foreign(r.engines[w], p) then BLANK_ENGINE else n.engines[w]) &&
             FindComponent(p.componentName, n.engines[w].components) ==
             FindComponent(p.componentName, r.engines[w].components)
    ensures var w := FindEngine(p.engineName, r.engines);
            GraphAfter(r.engines, ps + [p], n.engineGraph.vertices[w := ReplacedOwner(n, comp, p)])
  {
    hide Blanked, EngineAfter, WithComponent, LastOwner;
    var (es, w) := (r.engines, FindEngine(p.engineName, r.engines));
    var g := n.engineGraph.vertices[w := ReplacedOwner(n, comp, p)];
    forall j | 0 <= j < |es|
      ensures g[j] == if Blanked(ps + [p], es[j]) then BLANK_ENGINE else EngineAfter(ps + [p], es[j])
    {
      assert StepsAlike(es, ps, p, comp, j);
      if j != w { assert es[j].name != p.engineName; }
    }
  }

  /** One entry more, when it does not apply. */
  lemma EntryThrows(r: Radio, ps: seq<ParametricReconfig>, n: Radio, p: ParametricReconfig)
    requires Agrees(r) && Leaves(r, ps, n) && !Applies(r.engines, ps, p) && p.engineName != ""
    ensures Reconfigured(n, p).1.Some?
  {
    GraphStep(r.radioGraph.vertices, ps, n.radioGraph.vertices, p);
    FoundAmongBlanks(r.engines, ps, n.engineGraph.vertices, p.engineName, 0);
    hide WellFormed, AllComponents, NewComponent, OnGraph, EngineAfter, Blanked, WithComponentIn;
  }

  lemma NothingLeaves(r: Radio)
    requires Agrees(r)
    ensures Leaves(r, [], r)
  {
    forall j | 0 <= j < |r.engines| ensures EngineAfter([], r.engines[j]) == r.engines[j] {
      assert EngineAfter([], r.engines[j]).components == r.engines[j].components;
    }
  }

  /** A list of reconfigurations is applied without an exception if and only if its entries name engines and
      components of the radio and only the last entry for an engine names a component of another; then this
      is what it leaves. */
  lemma {:induction false} ListLeaves(r: Radio, ps: seq<ParametricReconfig>)
    requires Agrees(r) && EnginesNamed(ps)
    ensures var (n, e) := ReconfiguredAll(r, ps);
            (e == None <==> AllApply(r.engines, ps)) && (e == None ==> Leaves(r, ps, n))
    decreases |ps|
  {
    hide Agrees, Leaves, Applies, Reconfigured;
    if |ps| == 0 {
      NothingLeaves(r);
      assert ps == [];
    } else {
      var (before, p) := (ps[..|ps| - 1], ps[|ps| - 1]);
      ListLeaves(r, before);
      var n := ReconfiguredAll(r, before);
      assert before + [p] == ps;
      if n.1 == None {
        if Applies(r.engines, before, p) { EntryApplies(r, before, n.0, p); } else { EntryThrows(r, before, n.0, p); }
      }
    }
  }

  /* --------------------------------------------------------------------- splitting a list ---- */

  /** Blanking an engine is a matter of the entries that name it. */
  lemma {:induction false} BlankedByOwn(ps: seq<ParametricReconfig>, e: EngineDescription)
    ensures Blanked(ps, e) == Blanked(EM.ParamsFor(ps, e.name), e)
    decreases |ps|
  {
    if |ps| > 0 {
      BlankedByOwn(ps[..|ps| - 1], e);
      var own := EM.ParamsFor(ps[..|ps| - 1], e.name);
      assert (own + [ps[|ps| - 1]])[..|own|] == own;
    }
  }

  lemma {:induction false} ParamsForTwice(ps: seq<ParametricReconfig>, a: string, b: string)
    ensures EM.ParamsFor(EM.ParamsFor(ps, a), b) == if a == b then EM.ParamsFor(ps, a) else []
    decreases |ps|
  {
    if |ps| > 0 {
      ParamsForTwice(ps[..|ps| - 1], a, b);
      var own := EM.ParamsFor(ps[..|ps| - 1], a);
      assert (own + [ps[|ps| - 1]])[..|own|] == own;
    }
  }

  /** Grouping keeps every engine's own entries. */
  lemma {:induction false} GroupedFor(names: seq<string>, ps: seq<ParametricReconfig>, name: string)
    requires forall i, j :: 0 <= i < j < |names| ==> names[i] != names[j]
    ensures EM.ParamsFor(Grouped(names, ps), name) == if name in names then EM.ParamsFor(ps, name) else []
    decreases |names|
  {
    if |names| > 0 {
      var (before, last) := (names[..|names| - 1], names[|names| - 1]);
      GroupedFor(before, ps, name);
      OrderIsKept(Grouped(before, ps), EM.ParamsFor(ps, last), name);
      ParamsForTwice(ps, last, name);
      assert name in names <==> name in before || name == last;
    }
  }

  /** Entries that apply in their order apply in their group, after groups of other engines. */
  lemma {:induction false} GroupApplies(es: seq<EngineDescription>, a: seq<ParametricReconfig>,
        ps: seq<ParametricReconfig>, name: string)
    requires AllApply(es, a) && AllApply(es, ps) && EM.ParamsFor(a, name) == []
    ensures AllApply(es, a + EM.ParamsFor(ps, name))
    decreases |ps|
  {
    hide Applies;
    if |ps| == 0 {
      assert a + EM.ParamsFor(ps, name) == a;
    } else {
      var (before, p) := (ps[..|ps| - 1], ps[|ps| - 1]);
      GroupApplies(es, a, before, name);
      if p.engineName == name {
        var own := EM.ParamsFor(before, name);
        AppliesInGroup(es, a, before, p);
        var all := (a + own) + [p];
        assert a + EM.ParamsFor(ps, name) == all && all[..|all| - 1] == a + own && all[|all| - 1] == p;
      }
    }
  }

  lemma AppliesInGroup(es: seq<EngineDescription>, a: seq<ParametricReconfig>, before: seq<ParametricReconfig>,
        p: ParametricReconfig)
    requires Applies(es, before, p) && EM.ParamsFor(a, p.engineName) == []
    ensures Applies(es, a + EM.ParamsFor(before, p.engineName), p)
  {
    hide Blanked, AllComponents;
    var (name, e) := (p.engineName, es[FindEngine(p.engineName, es)]);
    var own := EM.ParamsFor(before, name);
    hide EM.ParamsFor;
    BlankedByOwn(before, e);
    BlankedByOwn(a + own, e);
    OrderIsKept(a, own, name);
    ParamsForTwice(before, name, name);
    assert [] + own == own;
  }

  lemma {:induction false} GroupedApplies(es: seq<EngineDescription>, names: seq<string>, ps: seq<ParametricReconfig>)
    requires AllApply(es, ps) && forall i, j :: 0 <= i < j < |names| ==> names[i] != names[j]
    ensures AllApply(es, Grouped(names, ps))
    decreases |names|
  {
    if |names| > 0 {
      var (before, last) := (names[..|names| - 1], names[|names| - 1]);
      GroupedApplies(es, before, ps);
      GroupedFor(before, ps, last);
      GroupApplies(es, Grouped(before, ps), ps, last);
    }
  }

  lemma {:induction false} GroupedNamed(names: seq<string>, ps: seq<ParametricReconfig>)
    requires EnginesNamed(ps)
    ensures EnginesNamed(Grouped(names, ps))
    decreases |names|
  {
    if |names| > 0 {
      GroupedNamed(names[..|names| - 1], ps);
      ParamsForNamed(ps, names[|names| - 1]);
    }
  }

  lemma {:induction false} ParamsForNamed(ps: seq<ParametricReconfig>, name: string)
    requires EnginesNamed(ps)
    ensures EnginesNamed(EM.ParamsFor(ps, name))
    decreases |ps|
  {
    if |ps| > 0 { ParamsForNamed(ps[..|ps| - 1], name); }
  }

  /* ------------------------------------------------------------------------ when it matters ---- */

  /** The last value given to a parameter of a component, whichever engine is named. */
  function LastGiven(ps: seq<ParametricReconfig>, component: string, parameter: string, old_: string): (value: string)
    decreases |ps|
  {
    if |ps| == 0 then old_
    else if ps[|ps| - 1].componentName == component && ps[|ps| - 1].parameterName == parameter
    then ps[|ps| - 1].parameterValue
    else LastGiven(ps[..|ps| - 1], component, parameter, old_)
  }

  /** The last value given by the time of the last entry that names the component in the engine. */
  function LastTaken(ps: seq<ParametricReconfig>, engine: string, component: string, parameter: string, old_: string):
    (value: string)
    decreases |ps|
  {
    if |ps| == 0 then old_
    else if ps[|ps| - 1].engineName == engine && ps[|ps| - 1].componentName == component
    then LastGiven(ps, component, parameter, old_)
    else LastTaken(ps[..|ps| - 1], engine, component, parameter, old_)
  }

  lemma {:induction false} OnGraphValue(ps: seq<ParametricReconfig>, c: ComponentDescription, q: nat)
    requires q < |c.parameters|
    ensures var p := c.parameters[q];
            OnGraph(ps, c).parameters[q] == Parameter(p.name, LastGiven(ps, c.name, p.name, p.value))
    decreases |ps|
  {
    if |ps| > 0 { OnGraphValue(ps[..|ps| - 1], c, q); }
  }

  lemma {:induction false} InEngineValue(ps: seq<ParametricReconfig>, engine: string, c: ComponentDescription, q: nat)
    requires q < |c.parameters|
    ensures var p := c.parameters[q];
            InEngine(ps, engine, c).parameters[q] == Parameter(p.name, LastTaken(ps, engine, c.name, p.name, p.value))
    decreases |ps|
  {
    if |ps| > 0 {
      OnGraphValue(ps, c, q);
      InEngineValue(ps[..|ps| - 1], engine, c, q);
    }
  }

  /** The two lists give and take over the same last values. */
  predicate SameValues(e: string, c: ComponentDescription, a: seq<ParametricReconfig>, b: seq<ParametricReconfig>)
  {
    forall q :: 0 <= q < |c.parameters| ==>
      var (x, v) := (c.parameters[q].name, c.parameters[q].value);
      LastGiven(a, c.name, x, v) == LastGiven(b, c.name, x, v) &&
      LastTaken(a, e, c.name, x, v) == LastTaken(b, e, c.name, x, v)
  }

  predicate SameEngineValues(e: EngineDescription, a: seq<ParametricReconfig>, b: seq<ParametricReconfig>)
  {
    forall k :: 0 <= k < |e.components| ==> SameValues(e.name, e.components[k], a, b)
  }

  lemma SameComponentIff(a: seq<ParametricReconfig>, b: seq<ParametricReconfig>, engine: string,
        c: ComponentDescription)
    ensures SameValues(engine, c, a, b) <==>
            OnGraph(a, c) == OnGraph(b, c) && InEngine(a, engine, c) == InEngine(b, engine, c)
  {
    hide OnGraph, InEngine, LastGiven, LastTaken;
    forall q | 0 <= q < |c.parameters|
      ensures var (x, v) := (c.parameters[q].name, c.parameters[q].value);
              OnGraph(a, c).parameters[q] == Parameter(x, LastGiven(a, c.name, x, v)) &&
              OnGraph(b, c).parameters[q] == Parameter(x, LastGiven(b, c.name, x, v)) &&
              InEngine(a, engine, c).parameters[q] == Parameter(x, LastTaken(a, engine, c.name, x, v)) &&
              InEngine(b, engine, c).parameters[q] == Parameter(x, LastTaken(b, engine, c.name, x, v))
    {
      OnGraphValue(a, c, q);
      OnGraphValue(b, c, q);
      InEngineValue(a, engine, c, q);
      InEngineValue(b, engine, c, q);
    }
    if SameValues(engine, c, a, b) {
      assert OnGraph(a, c).parameters == OnGraph(b, c).parameters;
      assert InEngine(a, engine, c).parameters == InEngine(b, engine, c).parameters;
    }
  }

  predicate SameOnGraph(cs: seq<ComponentDescription>, a: seq<ParametricReconfig>, b: seq<ParametricReconfig>)
  {
    forall k :: 0 <= k < |cs| ==> OnGraph(a, cs[k]) == OnGraph(b, cs[k])
  }

  lemma SameEngineIff(a: seq<ParametricReconfig>, b: seq<ParametricReconfig>, e: EngineDescription)
    ensures SameEngineValues(e, a, b) <==> EngineAfter(a, e) == EngineAfter(b, e) && SameOnGraph(e.components, a, b)
  {
    hide OnGraph, InEngine, SameValues;
    var (m, n) := (EngineAfter(a, e), EngineAfter(b, e));
    hide EngineAfter;
    forall k | 0 <= k < |e.components|
      ensures SameValues(e.name, e.components[k], a, b) <==>
              OnGraph(a, e.components[k]) == OnGraph(b, e.components[k]) && m.components[k] == n.components[k]
    {
      SameComponentIff(a, b, e.name, e.components[k]);
    }
    if SameEngineValues(e, a, b) { assert m.components == n.components; }
  }

  predicate SameLists(es: seq<EngineDescription>, a: seq<ParametricReconfig>, b: seq<ParametricReconfig>)
  {
    forall j :: 0 <= j < |es| ==> SameEngineValues(es[j], a, b)
  }

  lemma {:induction false} SameOnGraphIff(es: seq<EngineDescription>, a: seq<ParametricReconfig>,
        b: seq<ParametricReconfig>)
    ensures SameOnGraph(AllComponents(es), a, b) <==>
            forall j :: 0 <= j < |es| ==> SameOnGraph(es[j].components, a, b)
    decreases |es|
  {
    hide OnGraph;
    if |es| > 0 {
      var (rest, last) := (es[..|es| - 1], es[|es| - 1]);
      SameOnGraphIff(rest, a, b);
      SameOnGraphAppend(AllComponents(rest), last.components, a, b);
      hide SameOnGraph;
      assert forall j :: 0 <= j < |rest| ==> rest[j] == es[j];
    }
  }

  lemma SameOnGraphAppend(cs: seq<ComponentDescription>, ds: seq<ComponentDescription>, a: seq<ParametricReconfig>,
        b: seq<ParametricReconfig>)
    ensures SameOnGraph(cs + ds, a, b) <==> SameOnGraph(cs, a, b) && SameOnGraph(ds, a, b)
  {
    hide OnGraph;
    assert forall k :: 0 <= k < |cs| ==> (cs + ds)[k] == cs[k];
    assert forall k :: 0 <= k < |ds| ==> (cs + ds)[|cs| + k] == ds[k];
  }

  predicate SameEnginesAfter(es: seq<EngineDescription>, a: seq<ParametricReconfig>, b: seq<ParametricReconfig>)
  {
    forall j :: 0 <= j < |es| ==> EngineAfter(a, es[j]) == EngineAfter(b, es[j])
  }

  lemma SameEnginesIff(es: seq<EngineDescription>, a: seq<ParametricReconfig>, b: seq<ParametricReconfig>)
    ensures SameLists(es, a, b) <==> SameEnginesAfter(es, a, b) && SameOnGraph(AllComponents(es), a, b)
  {
    hide EngineAfter, SameEngineValues, SameOnGraph;
    forall j | 0 <= j < |es|
      ensures SameEngineValues(es[j], a, b) <==>
              EngineAfter(a, es[j]) == EngineAfter(b, es[j]) && SameOnGraph(es[j].components, a, b)
    {
      SameEngineIff(a, b, es[j]);
    }
    SameOnGraphIff(es, a, b);
  }

  lemma EnginesEqualIff(es: seq<EngineDescription>, a: seq<ParametricReconfig>, b: seq<ParametricReconfig>,
        m: seq<EngineDescription>, n: seq<EngineDescription>)
    requires EnginesAfter(es, a, m) && EnginesAfter(es, b, n)
    ensures m == n <==> SameEnginesAfter(es, a, b)
  {
    hide EngineAfter;
    if m == n {
      forall j | 0 <= j < |es| ensures EngineAfter(a, es[j]) == EngineAfter(b, es[j]) { assert m[j] == n[j]; }
    }
  }

  lemma VerticesEqualIff(vs: seq<ComponentDescription>, a: seq<ParametricReconfig>, b: seq<ParametricReconfig>,
        m: seq<ComponentDescription>, n: seq<ComponentDescription>)
    requires VerticesAfter(vs, a, m) && VerticesAfter(vs, b, n)
    ensures m == n <==> SameOnGraph(vs, a, b)
  {
    hide OnGraph;
    if m == n {
      forall v | 0 <= v < |vs| ensures OnGraph(a, vs[v]) == OnGraph(b, vs[v]) { assert m[v] == n[v]; }
    }
  }

  lemma GraphsEqual(es: seq<EngineDescription>, a: seq<ParametricReconfig>, b: seq<ParametricReconfig>,
        m: seq<EngineDescription>, n: seq<EngineDescription>)
    requires GraphAfter(es, a, m) && GraphAfter(es, b, n) && SameEnginesAfter(es, a, b)
    requires forall j :: 0 <= j < |es| ==> Blanked(a, es[j]) == Blanked(b, es[j])
    ensures m == n
  {
    hide EngineAfter, Blanked;
  }

  lemma LeavesSameIff(r: Radio, a: seq<ParametricReconfig>, b: seq<ParametricReconfig>, m: Radio, n: Radio)
    requires Agrees(r) && Leaves(r, a, m) && Leaves(r, b, n)
    requires forall j :: 0 <= j < |r.engines| ==> Blanked(a, r.engines[j]) == Blanked(b, r.engines[j])
    ensures m.engines == n.engines && m.radioGraph == n.radioGraph && m.engineGraph == n.engineGraph <==>
            SameLists(r.engines, a, b)
  {
    hide SameLists, AllComponents, Blanked, WellFormed, EnginesAfter, VerticesAfter, GraphAfter, SameOnGraph;
    hide SameEnginesAfter;
    SameEnginesIff(r.engines, a, b);
    EnginesEqualIff(r.engines, a, b, m.engines, n.engines);
    VerticesEqualIff(r.radioGraph.vertices, a, b, m.radioGraph.vertices, n.radioGraph.vertices);
    if SameEnginesAfter(r.engines, a, b) {
      GraphsEqual(r.engines, a, b, m.engineGraph.vertices, n.engineGraph.vertices);
    }
  }

  /** Whatever engines the entries name, as long as the list applies without an exception, so does the split;
      and they end alike if and only if the grouped list gives every parameter the same last value, and lets
      every engine take over the same last value, as the list in its own order. */
  lemma OrderMattersIff(r: Radio, names: seq<string>, set_: EM.ReconfigSet)
    requires Agrees(r) && EnginesNamed(set_.paramReconfigs) && ReconfiguredAll(r, set_.paramReconfigs).1 == None
    requires |names| == |r.engines| && forall j :: 0 <= j < |names| ==> names[j] == r.engines[j].name
    ensures var (a, ps) := (EM.SplitApplied(r, names, set_), set_.paramReconfigs);
            a.1 == None &&
            (SameOutcome(a, ReconfiguredAll(r, ps)) <==> SameLists(r.engines, ps, Grouped(names, ps)))
  {
    var (es, ps) := (r.engines, set_.paramReconfigs);
    var g := Grouped(names, ps);
    assert EngineNamesDistinct(es);
    hide Agrees, AllApply, Leaves, ReconfiguredAll, Grouped, EM.SplitApplied, SameLists, EnginesNamed, Blanked;
    SplitIsGrouped(r, names, set_);
    ListLeaves(r, ps);
    GroupedNamed(names, ps);
    GroupedApplies(es, names, ps);
    ListLeaves(r, g);
    forall j | 0 <= j < |es| ensures Blanked(g, es[j]) == Blanked(ps, es[j]) {
      GroupedFor(names, ps, es[j].name);
      assert names[j] in names;
      BlankedByOwn(ps, es[j]);
      BlankedByOwn(g, es[j]);
    }
    LeavesSameIff(r, g, ps, EM.SplitApplied(r, names, set_).0, ReconfiguredAll(r, ps).0);
    SameListsSymmetric(es, g, ps);
  }

  lemma SameListsSymmetric(es: seq<EngineDescription>, a: seq<ParametricReconfig>, b: seq<ParametricReconfig>)
    ensures SameLists(es, a, b) <==> SameLists(es, b, a)
  {
    hide LastGiven, LastTaken;
    forall x, y | SameLists(es, x, y) ensures SameLists(es, y, x) {
      forall j | 0 <= j < |es| ensures SameEngineValues(es[j], y, x) {
        assert SameEngineValues(es[j], x, y);
        forall k | 0 <= k < |es[j].components| ensures SameValues(es[j].name, es[j].components[k], y, x) {
          assert SameValues(es[j].name, es[j].components[k], x, y);
        }
      }
    }
  }

  /* ----------------------------------------------------------- one name for each component ---- */

  /** The entries for a component, in order. */
  function EntriesFor(ps: seq<ParametricReconfig>, component: string): (r: seq<ParametricReconfig>)
    decreases |ps|
  {
    if |ps| == 0 then []
    else
      var (before, p) := (EntriesFor(ps[..|ps| - 1], component), ps[|ps| - 1]);
      if p.componentName == component then before + [p] else before
  }

  lemma {:induction false} EntriesGive(ps: seq<ParametricReconfig>, component: string, parameter: string, old_: string)
    ensures LastGiven(ps, component, parameter, old_) ==
            LastGiven(EntriesFor(ps, component), component, parameter, old_)
    decreases |ps|
  {
    if |ps| > 0 {
      var before := EntriesFor(ps[..|ps| - 1], component);
      EntriesGive(ps[..|ps| - 1], component, parameter, old_);
      assert (before + [ps[|ps| - 1]])[..|before|] == before;
    }
  }

  lemma {:induction false} EntriesTake(ps: seq<ParametricReconfig>, engine: string, component: string,
        parameter: string, old_: string)
    ensures LastTaken(ps, engine, component, parameter, old_) ==
            LastTaken(EntriesFor(ps, component), engine, component, parameter, old_)
    decreases |ps|
  {
    if |ps| > 0 {
      var before := EntriesFor(ps[..|ps| - 1], component);
      EntriesTake(ps[..|ps| - 1], engine, component, parameter, old_);
      EntriesGive(ps, component, parameter, old_);
      assert (before + [ps[|ps| - 1]])[..|before|] == before;
    }
  }

  lemma {:induction false} EntriesAppend(a: seq<ParametricReconfig>, b: seq<ParametricReconfig>, component: string)
    ensures EntriesFor(a + b, component) == EntriesFor(a, component) + EntriesFor(b, component)
    decreases |b|
  {
    if |b| == 0 {
      assert a + b == a;
    } else {
      assert (a + b)[..|a + b| - 1] == a + b[..|b| - 1];
      EntriesAppend(a, b[..|b| - 1], component);
    }
  }

  /** All entries for the component name this engine. */
  predicate NamedUnder(ps: seq<ParametricReconfig>, component: string, engine: string)
  {
    forall i :: 0 <= i < |ps| && ps[i].componentName == component ==> ps[i].engineName == engine
  }

  lemma {:induction false} EntriesOfGroup(ps: seq<ParametricReconfig>, component: string, engine: string, name: string)
    requires NamedUnder(ps, component, engine)
    ensures EntriesFor(EM.ParamsFor(ps, name), component) == if name == engine then EntriesFor(ps, component) else []
    decreases |ps|
  {
    if |ps| > 0 {
      assert forall i :: 0 <= i < |ps| - 1 ==> ps[..|ps| - 1][i] == ps[i];
      EntriesOfGroup(ps[..|ps| - 1], component, engine, name);
      var own := EM.ParamsFor(ps[..|ps| - 1], name);
      assert (own + [ps[|ps| - 1]])[..|own|] == own;
    }
  }

  lemma {:induction false} EntriesGrouped(names: seq<string>, ps: seq<ParametricReconfig>, component: string,
        engine: string)
    requires NamedUnder(ps, component, engine)
    requires forall i, j :: 0 <= i < j < |names| ==> names[i] != names[j]
    ensures EntriesFor(Grouped(names, ps), component) == if engine in names then EntriesFor(ps, component) else []
    decreases |names|
  {
    if |names| > 0 {
      var (before, last) := (names[..|names| - 1], names[|names| - 1]);
      EntriesGrouped(before, ps, component, engine);
      EntriesAppend(Grouped(before, ps), EM.ParamsFor(ps, last), component);
      EntriesOfGroup(ps, component, engine, last);
      assert engine in names <==> engine in before || engine == last;
    }
  }

  /** When every component is named under one engine of the radio only, its own or another, the order of the
      list does not matter. */
  lemma OneNameSuffices(es: seq<EngineDescription>, names: seq<string>, ps: seq<ParametricReconfig>)
    requires forall i, j :: 0 <= i < j < |names| ==> names[i] != names[j]
    requires forall i :: 0 <= i < |ps| ==>
               ps[i].engineName in names && NamedUnder(ps, ps[i].componentName, ps[i].engineName)
    ensures SameLists(es, ps, Grouped(names, ps))
  {
    var g := Grouped(names, ps);
    hide Grouped, LastGiven, LastTaken, EntriesFor, SameValues, NamedUnder;
    forall j | 0 <= j < |es| ensures SameEngineValues(es[j], ps, g) {
      forall k | 0 <= k < |es[j].components| ensures SameValues(es[j].name, es[j].components[k], ps, g) {
        SameEntries(names, ps, es[j].components[k].name);
        EntriesDecide(es[j].name, es[j].components[k], ps, g);
      }
    }
  }

  lemma EntriesDecide(engine: string, c: ComponentDescription, a: seq<ParametricReconfig>, b: seq<ParametricReconfig>)
    requires EntriesFor(a, c.name) == EntriesFor(b, c.name)
    ensures SameValues(engine, c, a, b)
  {
    hide LastGiven, LastTaken, EntriesFor;
    forall q | 0 <= q < |c.parameters|
      ensures var (x, v) := (c.parameters[q].name, c.parameters[q].value);
              LastGiven(a, c.name, x, v) == LastGiven(b, c.name, x, v) &&
              LastTaken(a, engine, c.name, x, v) == LastTaken(b, engine, c.name, x, v)
    {
      var (x, v) := (c.parameters[q].name, c.parameters[q].value);
      EntriesGive(a, c.name, x, v);
      EntriesGive(b, c.name, x, v);
      EntriesTake(a, engine, c.name, x, v);
      EntriesTake(b, engine, c.name, x, v);
    }
  }

  lemma SameEntries(names: seq<string>, ps: seq<ParametricReconfig>, component: string)
    requires forall i, j :: 0 <= i < j < |names| ==> names[i] != names[j]
    requires forall i :: 0 <= i < |ps| ==>
               ps[i].engineName in names && NamedUnder(ps, ps[i].componentName, ps[i].engineName)
    ensures EntriesFor(Grouped(names, ps), component) == EntriesFor(ps, component)
  {
    if i :| 0 <= i < |ps| && ps[i].componentName == component {
      EntriesGrouped(names, ps, component, ps[i].engineName);
    } else {
      NoEntries(ps, component);
      EntriesGrouped(names, ps, component, "");
    }
  }

  lemma {:induction false} NoEntries(ps: seq<ParametricReconfig>, component: string)
    requires forall i :: 0 <= i < |ps| ==> ps[i].componentName != component
    ensures EntriesFor(ps, component) == []
    decreases |ps|
  {
    if |ps| > 0 { NoEntries(ps[..|ps| - 1], component); }
  }

  /* ------------------------------------------------------------------------ a lost engine ---- */

  /** After one entry that names an engine for a component of another, every further reconfiguration that
      names the engine throws, its own included. */
  lemma ForeignEntryLosesEngine(r: Radio, p: ParametricReconfig, q: ParametricReconfig)
    requires Agrees(r) && EnginesNamed([p, q]) && q.engineName == p.engineName
    requires !Owns(r.engines, p.engineName, p.componentName)
    ensures ReconfiguredAll(r, [p, q]).1.Some?
  {
    ListLeaves(r, [p, q]);
    assert [p, q][..1] == [p] && [p][..0] == [];
    var (es, w) := (r.engines, FindEngine(p.engineName, r.engines));
    assert w < |es| ==> Foreign(es[w], p) && Blanked([p], es[w]);
  }
}
