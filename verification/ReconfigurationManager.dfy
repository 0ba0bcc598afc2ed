/** What has to be reconfigured to get from one radio to another (src/ReconfigurationManager.cpp:45-111):
    engines are matched by name and kind, components by name, kind and engine, parameters by name, and values
    that differ are listed. */
module ReconfigurationManager {
  import opened RadioTypes

  /** The equality of the descriptions: their parameters and their links do not count. */
  predicate SameEngine(a: EngineDescription, b: EngineDescription)
  {
    a.name == b.name && a.kind == b.kind
  }

  predicate SameComponent(a: ComponentDescription, b: ComponentDescription)
  {
    a.name == b.name && a.kind == b.kind && a.engineName == b.engineName
  }

  /** The first matching engine from position i on; the length if there is none. */
  function MatchEngine(e: EngineDescription, es: seq<EngineDescription>, i: nat := 0): (m: nat)
    requires i <= |es|
    ensures i <= m <= |es|
    ensures m < |es| ==> SameEngine(e, es[m])
    ensures forall j :: i <= j < m ==> !SameEngine(e, es[j])
    decreases |es| - i
  {
    if i == |es| || SameEngine(e, es[i]) then i else MatchEngine(e, es, i + 1)
  }

  function MatchComponent(c: ComponentDescription, cs: seq<ComponentDescription>, i: nat := 0): (m: nat)
    requires i <= |cs|
    ensures i <= m <= |cs|
    ensures m < |cs| ==> SameComponent(c, cs[m])
    ensures forall j :: i <= j < m ==> !SameComponent(c, cs[j])
    decreases |cs| - i
  {
    if i == |cs| || SameComponent(c, cs[i]) then i else MatchComponent(c, cs, i + 1)
  }

  predicate Differ(p: ParameterDescription, q: ParameterDescription)
  {
    p.name == q.name && p.value != q.value
  }

  function Change(c: ComponentDescription, p: ParameterDescription, q: ParameterDescription): (r: ParametricReconfig)
  {
    Reconfig(c.engineName, c.name, p.name, q.value)
  }

  /** One parameter against a list of parameters. */
  function DiffParameter(c: ComponentDescription, p: ParameterDescription, qs: seq<ParameterDescription>):
    (d: seq<ParametricReconfig>)
    decreases |qs|
  {
    if |qs| == 0 then []
    else
      var before, q := DiffParameter(c, p, qs[..|qs| - 1]), qs[|qs| - 1];
      if Differ(p, q) then before + [Change(c, p, q)] else before
  }

  function DiffParameters(c: ComponentDescription, ps: seq<ParameterDescription>, qs: seq<ParameterDescription>):
    (d: seq<ParametricReconfig>)
    decreases |ps|
  {
    if |ps| == 0 then [] else DiffParameters(c, ps[..|ps| - 1], qs) + DiffParameter(c, ps[|ps| - 1], qs)
  }

  function DiffComponent(c: ComponentDescription, ds: seq<ComponentDescription>): (d: seq<ParametricReconfig>)
  {
    var m := MatchComponent(c, ds);
    if m == |ds| then [] else DiffParameters(c, c.parameters, ds[m].parameters)
  }

  function DiffComponents(cs: seq<ComponentDescription>, ds: seq<ComponentDescription>): (d: seq<ParametricReconfig>)
    decreases |cs|
  {
    if |cs| == 0 then [] else DiffComponents(cs[..|cs| - 1], ds) + DiffComponent(cs[|cs| - 1], ds)
  }

  function DiffEngine(e: EngineDescription, fs: seq<EngineDescription>): (d: seq<ParametricReconfig>)
  {
    var m := MatchEngine(e, fs);
    if m == |fs| then [] else DiffComponents(e.components, fs[m].components)
  }

  function DiffEngines(es: seq<EngineDescription>, fs: seq<EngineDescription>): (d: seq<ParametricReconfig>)
    decreases |es|
  {
    if |es| == 0 then [] else DiffEngines(es[..|es| - 1], fs) + DiffEngine(es[|es| - 1], fs)
  }

  /* The nested loops of the three checkParameters; each appends to the set it is given. */

  method CompareRadios(current: seq<EngineDescription>, new_: seq<EngineDescription>)
    returns (theReconfigs: seq<ParametricReconfig>)
    ensures theReconfigs == DiffEngines(current, new_)
  {
    theReconfigs := [];
    for i := 0 to |current|
      invariant theReconfigs == DiffEngines(current[..i], new_)
    {
      var m := 0;
      while m < |new_| && !SameEngine(current[i], new_[m])
        invariant m <= |new_| && MatchEngine(current[i], new_) == MatchEngine(current[i], new_, m)
      {
        m := m + 1;
      }
      if m < |new_| {
        theReconfigs := CheckEngine(current[i], new_[m], theReconfigs);
      }
      assert current[..i + 1][..i] == current[..i];
    }
    assert current[..|current|] == current;
  }

  method CheckEngine(first: EngineDescription, second: EngineDescription, reconfigs: seq<ParametricReconfig>)
    returns (more: seq<ParametricReconfig>)
    ensures more == reconfigs + DiffComponents(first.components, second.components)
  {
    more := reconfigs;
    for i := 0 to |first.components|
      invariant more == reconfigs + DiffComponents(first.components[..i], second.components)
    {
      var c := first.components[i];
      var m := 0;
      while m < |second.components| && !SameComponent(c, second.components[m])
        invariant m <= |second.components| &&
                  MatchComponent(c, second.components) == MatchComponent(c, second.components, m)
      {
        m := m + 1;
      }
      if m < |second.components| {
        more := CheckComponent(c, second.components[m], more);
      }
      assert first.components[..i + 1][..i] == first.components[..i];
    }
    assert first.components[..|first.components|] == first.components;
  }

  method CheckComponent(first: ComponentDescription, second: ComponentDescription, reconfigs: seq<ParametricReconfig>)
    returns (more: seq<ParametricReconfig>)
    ensures more == reconfigs + DiffParameters(first, first.parameters, second.parameters)
  {
    more := reconfigs;
    for i := 0 to |first.parameters|
      invariant more == reconfigs + DiffParameters(first, first.parameters[..i], second.parameters)
    {
      more := CheckParameter(first, first.parameters[i], second.parameters, more);
      assert first.parameters[..i + 1][..i] == first.parameters[..i];
    }
    assert first.parameters[..|first.parameters|] == first.parameters;
  }

  method CheckParameter(first: ComponentDescription, p: ParameterDescription, qs: seq<ParameterDescription>,
                        reconfigs: seq<ParametricReconfig>) returns (more: seq<ParametricReconfig>)
    ensures more == reconfigs + DiffParameter(first, p, qs)
  {
    more := reconfigs;
    for i := 0 to |qs|
      invariant more == reconfigs + DiffParameter(first, p, qs[..i])
    {
      if p.name == qs[i].name {
        if p.value != qs[i].value {
          more := more + [Reconfig(first.engineName, first.name, p.name, qs[i].value)];
        }
      }
      assert qs[..i + 1][..i] == qs[..i];
    }
    assert qs[..|qs|] == qs;
  }
}
