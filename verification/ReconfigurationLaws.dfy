/** Comparing and then reconfiguring converges, and splitting a set by engine changes nothing. */
module ReconfigurationLaws {
  import opened Wrappers
  import opened RadioTypes
  import opened RadioRepresentation
  import opened RadioLaws
  import opened ReconfigurationManager
  import EM = EngineManager
  import opened Sequences

  /* ------------------------------------------------------------ what the diff contains ---- */

  /** A parameter of a component and a parameter of its counterpart. */
  datatype Pair = Pair(j: nat, k: nat, q: nat, m: nat, n: nat, o: nat)

  /** The first engine of the other radio with the name and the kind. */
  predicate FirstEngine(e: EngineDescription, fs: seq<EngineDescription>, m: nat)
  {
    m < |fs| && fs[m].name == e.name && fs[m].kind == e.kind &&
    forall j :: 0 <= j < m ==> fs[j].name != e.name || fs[j].kind != e.kind
  }

  /** The first component of the other engine with the name, the kind and the engine. */
  predicate FirstComponent(c: ComponentDescription, ds: seq<ComponentDescription>, n: nat)
  {
    n < |ds| && ds[n].name == c.name && ds[n].kind == c.kind && ds[n].engineName == c.engineName &&
    forall j :: 0 <= j < n ==>
      ds[j].name != c.name || ds[j].kind != c.kind || ds[j].engineName != c.engineName
  }

  lemma FirstIsMatched(e: EngineDescription, fs: seq<EngineDescription>, m: nat)
    ensures FirstEngine(e, fs, m) <==> m < |fs| && m == MatchEngine(e, fs)
  {
    var k := MatchEngine(e, fs);
    assert k < |fs| ==> SameEngine(e, fs[k]);
  }

  lemma FirstIsMatchedComponent(c: ComponentDescription, ds: seq<ComponentDescription>, n: nat)
    ensures FirstComponent(c, ds, n) <==> n < |ds| && n == MatchComponent(c, ds)
  {
    var k := MatchComponent(c, ds);
    assert k < |ds| ==> SameComponent(c, ds[k]);
  }

  /** Parameter q of component k of engine j of the one radio has the same name as parameter o of component n
      of engine m of the other, and engine and component are the first that have the same name and kind. */
  predicate Matched(es: seq<EngineDescription>, fs: seq<EngineDescription>, i: Pair)
  {
    i.j < |es| && i.k < |es[i.j].components| && i.q < |es[i.j].components[i.k].parameters| &&
    i.m < |fs| && i.n < |fs[i.m].components| && i.o < |fs[i.m].components[i.n].parameters| &&
    FirstEngine(es[i.j], fs, i.m) && FirstComponent(es[i.j].components[i.k], fs[i.m].components, i.n) &&
    es[i.j].components[i.k].parameters[i.q].name == fs[i.m].components[i.n].parameters[i.o].name
  }

  function Have(es: seq<EngineDescription>, fs: seq<EngineDescription>, i: Pair): ParameterDescription
    requires Matched(es, fs, i)
  {
    es[i.j].components[i.k].parameters[i.q]
  }

  function Want(es: seq<EngineDescription>, fs: seq<EngineDescription>, i: Pair): ParameterDescription
    requires Matched(es, fs, i)
  {
    fs[i.m].components[i.n].parameters[i.o]
  }

  lemma {:induction false} DiffParameterHas(c: ComponentDescription, p: ParameterDescription,
        qs: seq<ParameterDescription>, o: nat)
    requires o < |qs| && Differ(p, qs[o])
    ensures Change(c, p, qs[o]) in DiffParameter(c, p, qs)
    decreases |qs|
  {
    if o + 1 < |qs| { DiffParameterHas(c, p, qs[..|qs| - 1], o); }
  }

  lemma {:induction false} DiffParameterFrom(c: ComponentDescription, p: ParameterDescription,
        qs: seq<ParameterDescription>,
                                             r: ParametricReconfig) returns (o: nat)
    requires r in DiffParameter(c, p, qs)
    ensures o < |qs| && Differ(p, qs[o]) && r == Change(c, p, qs[o])
    decreases |qs|
  {
    o := |qs| - 1;
    if !(Differ(p, qs[o]) && r == Change(c, p, qs[o])) { o := DiffParameterFrom(c, p, qs[..|qs| - 1], r); }
  }

  lemma {:induction false} DiffParametersHas(c: ComponentDescription, ps: seq<ParameterDescription>,
        qs: seq<ParameterDescription>,
                                             q: nat, o: nat)
    requires q < |ps| && o < |qs| && Differ(ps[q], qs[o])
    ensures Change(c, ps[q], qs[o]) in DiffParameters(c, ps, qs)
    decreases |ps|
  {
    if q + 1 < |ps| { DiffParametersHas(c, ps[..|ps| - 1], qs, q, o); } else { DiffParameterHas(c, ps[q], qs, o); }
  }

  lemma {:induction false} DiffParametersFrom(c: ComponentDescription, ps: seq<ParameterDescription>,
        qs: seq<ParameterDescription>,
                                              r: ParametricReconfig) returns (q: nat, o: nat)
    requires r in DiffParameters(c, ps, qs)
    ensures q < |ps| && o < |qs| && Differ(ps[q], qs[o]) && r == Change(c, ps[q], qs[o])
    decreases |ps|
  {
    if r in DiffParameters(c, ps[..|ps| - 1], qs) {
      q, o := DiffParametersFrom(c, ps[..|ps| - 1], qs, r);
    } else {
      q := |ps| - 1;
      o := DiffParameterFrom(c, ps[q], qs, r);
    }
  }

  lemma {:induction false} DiffComponentsHas(cs: seq<ComponentDescription>, ds: seq<ComponentDescription>, k: nat,
        r: ParametricReconfig)
    requires k < |cs| && r in DiffComponent(cs[k], ds)
    ensures r in DiffComponents(cs, ds)
    decreases |cs|
  {
    if k + 1 < |cs| { DiffComponentsHas(cs[..|cs| - 1], ds, k, r); }
  }

  lemma {:induction false} DiffComponentsFrom(cs: seq<ComponentDescription>, ds: seq<ComponentDescription>,
        r: ParametricReconfig)
    returns (k: nat)
    requires r in DiffComponents(cs, ds)
    ensures k < |cs| && r in DiffComponent(cs[k], ds)
    decreases |cs|
  {
    k := |cs| - 1;
    if r !in DiffComponent(cs[k], ds) { k := DiffComponentsFrom(cs[..|cs| - 1], ds, r); }
  }

  lemma {:induction false} DiffEnginesHas(es: seq<EngineDescription>, fs: seq<EngineDescription>, j: nat,
        r: ParametricReconfig)
    requires j < |es| && r in DiffEngine(es[j], fs)
    ensures r in DiffEngines(es, fs)
    decreases |es|
  {
    if j + 1 < |es| { DiffEnginesHas(es[..|es| - 1], fs, j, r); }
  }

  lemma {:induction false} DiffEnginesFrom(es: seq<EngineDescription>, fs: seq<EngineDescription>,
        r: ParametricReconfig)
    returns (j: nat)
    requires r in DiffEngines(es, fs)
    ensures j < |es| && r in DiffEngine(es[j], fs)
    decreases |es|
  {
    j := |es| - 1;
    if r !in DiffEngine(es[j], fs) { j := DiffEnginesFrom(es[..|es| - 1], fs, r); }
  }

  /** Every matched parameter with another value is in the diff. */
  lemma DiffHas(es: seq<EngineDescription>, fs: seq<EngineDescription>, i: Pair)
    requires Matched(es, fs, i) && Have(es, fs, i).value != Want(es, fs, i).value
    ensures Change(es[i.j].components[i.k], Have(es, fs, i), Want(es, fs, i)) in DiffEngines(es, fs)
  {
    var c := es[i.j].components[i.k];
    var r := Change(c, Have(es, fs, i), Want(es, fs, i));
    FirstIsMatched(es[i.j], fs, i.m);
    FirstIsMatchedComponent(c, fs[i.m].components, i.n);
    hide FirstEngine, FirstComponent;
    DiffParametersHas(c, c.parameters, fs[i.m].components[i.n].parameters, i.q, i.o);
    assert r in DiffComponent(c, fs[i.m].components);
    DiffComponentsHas(es[i.j].components, fs[i.m].components, i.k, r);
    DiffEnginesHas(es, fs, i.j, r);
  }

  /** Everything in the diff comes from a matched parameter with another value. */
  lemma DiffFrom(es: seq<EngineDescription>, fs: seq<EngineDescription>, r: ParametricReconfig) returns (i: Pair)
    requires r in DiffEngines(es, fs)
    ensures Matched(es, fs, i) && Have(es, fs, i).value != Want(es, fs, i).value
    ensures r == Change(es[i.j].components[i.k], Have(es, fs, i), Want(es, fs, i))
  {
    var j := DiffEnginesFrom(es, fs, r);
    var m := MatchEngine(es[j], fs);
    FirstIsMatched(es[j], fs, m);
    var k := DiffComponentsFrom(es[j].components, fs[m].components, r);
    var c := es[j].components[k];
    var n := MatchComponent(c, fs[m].components);
    FirstIsMatchedComponent(c, fs[m].components, n);
    hide FirstEngine, FirstComponent;
    var q, o := DiffParametersFrom(c, c.parameters, fs[m].components[n].parameters, r);
    i := Pair(j, k, q, m, n, o);
  }

  /* --------------------------------------------------------------- in which order ---- */

  predicate Earlier(a: Pair, b: Pair)
  {
    a.j < b.j || (a.j == b.j && (a.k < b.k || (a.k == b.k && (a.q < b.q || (a.q == b.q && a.o < b.o)))))
  }

  /** The pair is matched and its values differ. */
  predicate Changed(es: seq<EngineDescription>, fs: seq<EngineDescription>, i: Pair)
  {
    Matched(es, fs, i) && Have(es, fs, i).value != Want(es, fs, i).value
  }

  function ChangeAt(es: seq<EngineDescription>, fs: seq<EngineDescription>, i: Pair): (r: ParametricReconfig)
    requires Matched(es, fs, i)
  {
    Reconfig(es[i.j].components[i.k].engineName, es[i.j].components[i.k].name, Have(es, fs, i).name,
      Want(es, fs, i).value)
  }

  /** The list has one entry for each of these pairs, in order. */
  predicate Lists(es: seq<EngineDescription>, fs: seq<EngineDescription>, d: seq<ParametricReconfig>, at: seq<Pair>)
  {
    |d| == |at| && (forall x, y :: 0 <= x < y < |at| ==> Earlier(at[x], at[y])) &&
    forall x :: 0 <= x < |at| ==> Changed(es, fs, at[x]) && d[x] == ChangeAt(es, fs, at[x])
  }

  lemma ListsAppend(es: seq<EngineDescription>, fs: seq<EngineDescription>, d: seq<ParametricReconfig>, at: seq<Pair>,
        e: seq<ParametricReconfig>, bt: seq<Pair>)
    requires Lists(es, fs, d, at) && Lists(es, fs, e, bt)
    requires forall x, y :: 0 <= x < |at| && 0 <= y < |bt| ==> Earlier(at[x], bt[y])
    ensures Lists(es, fs, d + e, at + bt)
  {
    hide Changed, ChangeAt, Earlier;
  }

  /** One parameter against the first parameters of its counterpart's component. */
  lemma {:induction false} ParameterListed(es: seq<EngineDescription>, fs: seq<EngineDescription>, i: Pair, o: nat)
    returns (at: seq<Pair>)
    requires i.j < |es| && i.k < |es[i.j].components| && i.q < |es[i.j].components[i.k].parameters|
    requires FirstEngine(es[i.j], fs, i.m) && FirstComponent(es[i.j].components[i.k], fs[i.m].components, i.n)
    requires o <= |fs[i.m].components[i.n].parameters|
    ensures var c := es[i.j].components[i.k];
            Lists(es, fs, DiffParameter(c, c.parameters[i.q], fs[i.m].components[i.n].parameters[..o]), at)
    ensures forall x :: 0 <= x < |at| ==> at[x] == i.(o := at[x].o) && at[x].o < o
    ensures forall f: nat :: f < o && Changed(es, fs, i.(o := f)) ==> i.(o := f) in at
    decreases o
  {
    if o == 0 {
      at := [];
    } else {
      var c, qs := es[i.j].components[i.k], fs[i.m].components[i.n].parameters;
      assert qs[..o][..o - 1] == qs[..o - 1];
      at := ParameterListed(es, fs, i, o - 1);
      var f := i.(o := o - 1);
      hide FirstEngine, FirstComponent;
      if Differ(c.parameters[i.q], qs[o - 1]) {
        assert Changed(es, fs, f);
        ListsAppend(es, fs, DiffParameter(c, c.parameters[i.q], qs[..o - 1]), at, [ChangeAt(es, fs, f)], [f]);
        at := at + [f];
      }
    }
  }

  lemma {:induction false} ParametersListed(es: seq<EngineDescription>, fs: seq<EngineDescription>, i: Pair, q: nat)
    returns (at: seq<Pair>)
    requires i.j < |es| && i.k < |es[i.j].components| && q <= |es[i.j].components[i.k].parameters|
    requires FirstEngine(es[i.j], fs, i.m) && FirstComponent(es[i.j].components[i.k], fs[i.m].components, i.n)
    ensures var c := es[i.j].components[i.k];
            Lists(es, fs, DiffParameters(c, c.parameters[..q], fs[i.m].components[i.n].parameters), at)
    ensures forall x :: 0 <= x < |at| ==> at[x] == i.(q := at[x].q, o := at[x].o) && at[x].q < q
    ensures forall f: Pair :: f == i.(q := f.q, o := f.o) && f.q < q && Changed(es, fs, f) ==> f in at
    decreases q
  {
    if q == 0 {
      at := [];
    } else {
      var c, qs := es[i.j].components[i.k], fs[i.m].components[i.n].parameters;
      assert c.parameters[..q][..q - 1] == c.parameters[..q - 1] && qs[..|qs|] == qs;
      at := ParametersListed(es, fs, i, q - 1);
      var bt := ParameterListed(es, fs, i.(q := q - 1), |qs|);
      hide FirstEngine, FirstComponent, Lists, DiffParameter;
      ListsAppend(es, fs, DiffParameters(c, c.parameters[..q - 1], qs), at, DiffParameter(c, c.parameters[q - 1], qs),
        bt);
      forall f: Pair | f == i.(q := f.q, o := f.o) && f.q < q && Changed(es, fs, f) ensures f in at + bt {
        assert f.q == q - 1 ==> f == i.(q := q - 1).(o := f.o) && f.o < |qs|;
      }
      at := at + bt;
    }
  }

  lemma {:induction false} ComponentsListed(es: seq<EngineDescription>, fs: seq<EngineDescription>, j: nat, m: nat,
        k: nat) returns (at: seq<Pair>)
    requires j < |es| && k <= |es[j].components| && FirstEngine(es[j], fs, m)
    ensures Lists(es, fs, DiffComponents(es[j].components[..k], fs[m].components), at)
    ensures forall x :: 0 <= x < |at| ==> at[x].j == j && at[x].k < k
    ensures forall f: Pair :: f.j == j && f.k < k && Changed(es, fs, f) ==> f in at
    decreases k
  {
    if k == 0 {
      at := [];
    } else {
      var cs, ds := es[j].components, fs[m].components;
      var c := cs[k - 1];
      assert cs[..k][..k - 1] == cs[..k - 1] && c.parameters[..|c.parameters|] == c.parameters;
      at := ComponentsListed(es, fs, j, m, k - 1);
      var n := MatchComponent(c, ds);
      var bt: seq<Pair> := [];
      FirstIsMatchedComponent(c, ds, n);
      if n < |ds| { bt := ParametersListed(es, fs, Pair(j, k - 1, 0, m, n, 0), |c.parameters|); }
      ListsAppend(es, fs, DiffComponents(cs[..k - 1], ds), at, DiffComponent(c, ds), bt);
      forall f: Pair | f.j == j && f.k == k - 1 && Changed(es, fs, f) ensures f in bt {
        FirstIsMatched(es[j], fs, m);
        FirstIsMatched(es[j], fs, f.m);
        FirstIsMatchedComponent(c, ds, f.n);
        assert f == Pair(j, k - 1, 0, m, n, 0).(q := f.q, o := f.o);
      }
      at := at + bt;
    }
  }

  /** The diff has exactly one entry for every matched parameter with another value, and nothing else, in the
      order of the engines, their components, their parameters and the parameters of the counterpart. */
  lemma {:induction false} DiffIsListed(es: seq<EngineDescription>, fs: seq<EngineDescription>, j: nat)
    returns (at: seq<Pair>)
    requires j <= |es|
    ensures Lists(es, fs, DiffEngines(es[..j], fs), at)
    ensures forall i :: i in at <==> i.j < j && Changed(es, fs, i)
    decreases j
  {
    if j == 0 {
      at := [];
    } else {
      var e := es[j - 1];
      assert es[..j][..j - 1] == es[..j - 1] && e.components[..|e.components|] == e.components;
      at := DiffIsListed(es, fs, j - 1);
      var m := MatchEngine(e, fs);
      var bt: seq<Pair> := [];
      FirstIsMatched(e, fs, m);
      if m < |fs| { bt := ComponentsListed(es, fs, j - 1, m, |e.components|); }
      ListsAppend(es, fs, DiffEngines(es[..j - 1], fs), at, DiffEngine(e, fs), bt);
      forall i: Pair | i.j == j - 1 && Changed(es, fs, i) ensures i in bt { FirstIsMatched(e, fs, i.m); }
      at := at + bt;
    }
  }

  lemma DiffIsEmptyIff(es: seq<EngineDescription>, fs: seq<EngineDescription>)
    ensures DiffEngines(es, fs) == [] <==>
            forall i :: Matched(es, fs, i) ==> Have(es, fs, i).value == Want(es, fs, i).value
  {
    hide Matched;
    forall i | Matched(es, fs, i) && Have(es, fs, i).value != Want(es, fs, i).value
      ensures DiffEngines(es, fs) != []
    {
      DiffHas(es, fs, i);
    }
    if DiffEngines(es, fs) != [] {
      var i := DiffFrom(es, fs, DiffEngines(es, fs)[0]);
    }
  }

  /* ------------------------------------------------------ what a list of changes leaves ---- */

  predicate Hits(r: ParametricReconfig, engine: string, component: string, parameter: string)
  {
    r.engineName == engine && r.componentName == component && r.parameterName == parameter
  }

  /** The last value a list of reconfigurations gives to a parameter. */
  function LastValue(rs: seq<ParametricReconfig>, engine: string, component: string, parameter: string, old_: string):
    (value: string)
    decreases |rs|
  {
    if |rs| == 0 then old_
    else if Hits(rs[|rs| - 1], engine, component, parameter) then rs[|rs| - 1].parameterValue
    else LastValue(rs[..|rs| - 1], engine, component, parameter, old_)
  }

  /** The value is the old one, or the value of some reconfiguration that hits. */
  lemma {:induction false} LastValueIs(rs: seq<ParametricReconfig>, engine: string, component: string,
        parameter: string,
                                       old_: string)
    ensures (forall r :: r in rs ==> !Hits(r, engine, component, parameter)) ==>
              LastValue(rs, engine, component, parameter, old_) == old_
    ensures (exists r :: r in rs && Hits(r, engine, component, parameter)) ==>
              exists r :: r in rs && Hits(r, engine, component, parameter) &&
                          LastValue(rs, engine, component, parameter, old_) == r.parameterValue
    decreases |rs|
  {
    if |rs| > 0 {
      LastValueIs(rs[..|rs| - 1], engine, component, parameter, old_);
      assert rs == rs[..|rs| - 1] + [rs[|rs| - 1]];
      assert rs[|rs| - 1] in rs;
    }
  }

  /** Engines that differ in parameter values only. */
  predicate SameShape(es: seq<EngineDescription>, fs: seq<EngineDescription>)
  {
    |es| == |fs| && forall j :: 0 <= j < |es| ==> SameEngineShape(es[j], fs[j])
  }

  predicate SameEngineShape(e: EngineDescription, f: EngineDescription)
  {
    e.name == f.name && e.kind == f.kind && |e.components| == |f.components| &&
    forall k :: 0 <= k < |e.components| ==> SameComponentShape(e.components[k], f.components[k])
  }

  predicate SameComponentShape(c: ComponentDescription, d: ComponentDescription)
  {
    SameComponent(c, d) && |c.parameters| == |d.parameters| &&
    forall q :: 0 <= q < |c.parameters| ==> c.parameters[q].name == d.parameters[q].name
  }

  lemma ForEngineShape(e: EngineDescription, p: ParametricReconfig)
    ensures SameEngineShape(e, ForEngine(e, p))
  {
  }

  lemma {:induction false} ForEnginesAllShape(es: seq<EngineDescription>, ps: seq<ParametricReconfig>)
    ensures SameShape(es, ForEnginesAll(es, ps))
    decreases |ps|
  {
    if |ps| > 0 {
      var before := ForEnginesAll(es, ps[..|ps| - 1]);
      ForEnginesAllShape(es, ps[..|ps| - 1]);
      hide ForEngine;
      forall j | 0 <= j < |es| ensures SameEngineShape(es[j], ForEngines(before, ps[|ps| - 1])[j]) {
        ForEngineShape(before[j], ps[|ps| - 1]);
      }
    }
  }

  predicate IsParameter(es: seq<EngineDescription>, j: nat, k: nat, q: nat)
  {
    j < |es| && k < |es[j].components| && q < |es[j].components[k].parameters|
  }

  lemma ForEngineValue(e: EngineDescription, p: ParametricReconfig, k: nat, q: nat)
    requires k < |e.components| && q < |e.components[k].parameters|
    ensures SameEngineShape(e, ForEngine(e, p))
    ensures ForEngine(e, p).components[k].parameters[q].value ==
            if Hits(p, e.name, e.components[k].name, e.components[k].parameters[q].name) then p.parameterValue
            else e.components[k].parameters[q].value
  {
  }

  lemma {:induction false} FinalValue(es: seq<EngineDescription>, ps: seq<ParametricReconfig>, j: nat, k: nat, q: nat)
    requires IsParameter(es, j, k, q)
    ensures var n := ForEnginesAll(es, ps);
            IsParameter(n, j, k, q) && SameShape(es, n) &&
            n[j].components[k].parameters[q].value ==
            LastValue(ps, es[j].name, es[j].components[k].name, es[j].components[k].parameters[q].name,
                      es[j].components[k].parameters[q].value)
    decreases |ps|
  {
    ForEnginesAllShape(es, ps);
    if |ps| > 0 {
      FinalValue(es, ps[..|ps| - 1], j, k, q);
      hide ForEngine;
      ForEngineValue(ForEnginesAll(es, ps[..|ps| - 1])[j], ps[|ps| - 1], k, q);
    }
  }

  /* --------------------------------------------------------------------- convergence ---- */

  /** The counterpart of a component does not give one parameter two values. */
  predicate SaysOnce(es: seq<EngineDescription>, fs: seq<EngineDescription>, i: Pair)
    requires Matched(es, fs, i)
  {
    var qs := fs[i.m].components[i.n].parameters;
    forall o :: 0 <= o < |qs| && qs[o].name == Want(es, fs, i).name ==> qs[o].value == Want(es, fs, i).value
  }

  ghost predicate Consistent(es: seq<EngineDescription>, fs: seq<EngineDescription>)
  {
    forall i :: Matched(es, fs, i) ==> SaysOnce(es, fs, i)
  }

  /** A component is known by its name alone. */
  lemma SamePlace(es: seq<EngineDescription>, j: nat, k: nat, a: nat, b: nat)
    requires WellFormed(es) && j < |es| && k < |es[j].components| && a < |es| && b < |es[a].components|
    requires es[j].components[k].name == es[a].components[b].name
    ensures j == a && k == b
  {
    hide AllComponents;
    ComponentAt(es, j, k);
    ComponentAt(es, a, b);
    assert Owned(es[j]) && Owned(es[a]);
  }

  lemma HitsOnlyItself(es: seq<EngineDescription>, fs: seq<EngineDescription>, j: nat, k: nat, q: nat,
        r: ParametricReconfig)
    returns (i: Pair)
    requires WellFormed(es) && IsParameter(es, j, k, q) && r in DiffEngines(es, fs)
    requires Hits(r, es[j].name, es[j].components[k].name, es[j].components[k].parameters[q].name)
    ensures i.j == j && i.k == k && i.q == q && Matched(es, fs, i) && r.parameterValue == Want(es, fs, i).value
  {
    hide WellFormed;
    var f := DiffFrom(es, fs, r);
    SamePlace(es, j, k, f.j, f.k);
    i := f.(q := q);
  }

  /** Two counterparts of one parameter are parameters of one component. */
  lemma OneCounterpart(es: seq<EngineDescription>, fs: seq<EngineDescription>, i: Pair, f: Pair)
    requires Matched(es, fs, i) && Matched(es, fs, f) && f.j == i.j && f.k == i.k && f.q == i.q
    ensures f.m == i.m && f.n == i.n && Want(es, fs, f).name == Want(es, fs, i).name
  {
    FirstIsMatched(es[i.j], fs, i.m);
    FirstIsMatched(es[i.j], fs, f.m);
    FirstIsMatchedComponent(es[i.j].components[i.k], fs[i.m].components, i.n);
    FirstIsMatchedComponent(es[i.j].components[i.k], fs[i.m].components, f.n);
  }

  /** A matched parameter ends up with the value of its counterpart. */
  lemma MatchedGetsNewValue(es: seq<EngineDescription>, fs: seq<EngineDescription>, i: Pair)
    requires WellFormed(es) && Matched(es, fs, i) && SaysOnce(es, fs, i)
    ensures var n := ForEnginesAll(es, DiffEngines(es, fs));
            IsParameter(n, i.j, i.k, i.q) && n[i.j].components[i.k].parameters[i.q].value == Want(es, fs, i).value
  {
    hide FirstEngine, FirstComponent;
    var d, p := DiffEngines(es, fs), Have(es, fs, i);
    var engine, component := es[i.j].name, es[i.j].components[i.k].name;
    FinalValue(es, d, i.j, i.k, i.q);
    LastValueIs(d, engine, component, p.name, p.value);
    forall r | r in d && Hits(r, engine, component, p.name) ensures r.parameterValue == Want(es, fs, i).value {
      var f := HitsOnlyItself(es, fs, i.j, i.k, i.q, r);
      OneCounterpart(es, fs, i, f);
    }
    if p.value != Want(es, fs, i).value {
      DiffHas(es, fs, i);
      assert Owned(es[i.j]);
      assert Hits(Change(es[i.j].components[i.k], p, Want(es, fs, i)), engine, component, p.name);
    }
  }

  /** A parameter without a counterpart keeps its value. */
  lemma UnmatchedStays(es: seq<EngineDescription>, fs: seq<EngineDescription>, j: nat, k: nat, q: nat)
    requires WellFormed(es) && IsParameter(es, j, k, q) && Unmatched(es, fs, j, k, q)
    ensures var n := ForEnginesAll(es, DiffEngines(es, fs));
            IsParameter(n, j, k, q) &&
            n[j].components[k].parameters[q].value == es[j].components[k].parameters[q].value
  {
    var d, p := DiffEngines(es, fs), es[j].components[k].parameters[q];
    FinalValue(es, d, j, k, q);
    LastValueIs(d, es[j].name, es[j].components[k].name, p.name, p.value);
    forall r | r in d ensures !Hits(r, es[j].name, es[j].components[k].name, p.name) {
      if Hits(r, es[j].name, es[j].components[k].name, p.name) {
        var f := HitsOnlyItself(es, fs, j, k, q, r);
      }
    }
  }

  lemma MatchedSame(es: seq<EngineDescription>, n: seq<EngineDescription>, fs: seq<EngineDescription>, i: Pair)
    requires SameShape(es, n)
    ensures Matched(es, fs, i) <==> Matched(n, fs, i)
  {
    if i.j < |es| { assert SameEngineShape(es[i.j], n[i.j]); }
  }

  lemma ConsistentConverges(es: seq<EngineDescription>, fs: seq<EngineDescription>)
    requires WellFormed(es) && Consistent(es, fs)
    ensures DiffEngines(ForEnginesAll(es, DiffEngines(es, fs)), fs) == []
  {
    hide WellFormed, Matched, SameShape;
    var n := ForEnginesAll(es, DiffEngines(es, fs));
    ForEnginesAllShape(es, DiffEngines(es, fs));
    DiffIsEmptyIff(n, fs);
    forall i | Matched(n, fs, i) ensures Have(n, fs, i).value == Want(n, fs, i).value {
      MatchedSame(es, n, fs, i);
      MatchedGetsNewValue(es, fs, i);
    }
  }

  lemma InconsistentRemains(es: seq<EngineDescription>, n: seq<EngineDescription>, fs: seq<EngineDescription>)
    requires SameShape(es, n) && !Consistent(es, fs)
    ensures DiffEngines(n, fs) != []
  {
    hide SameShape;
    DiffIsEmptyIff(n, fs);
    var i :| Matched(es, fs, i) && !SaysOnce(es, fs, i);
    var qs := fs[i.m].components[i.n].parameters;
    var o :| 0 <= o < |qs| && qs[o].name == Want(es, fs, i).name && qs[o].value != Want(es, fs, i).value;
    MatchedSame(es, n, fs, i);
    MatchedSame(es, n, fs, i.(o := o));
    assert Have(n, fs, i) == Have(n, fs, i.(o := o));
  }

  /** Comparing again after applying the differences finds nothing exactly when no parameter that has a
      counterpart is given two values. */
  lemma DiffConvergesIff(es: seq<EngineDescription>, fs: seq<EngineDescription>)
    requires WellFormed(es)
    ensures DiffEngines(ForEnginesAll(es, DiffEngines(es, fs)), fs) == [] <==> Consistent(es, fs)
  {
    hide WellFormed, SameShape, Consistent;
    if Consistent(es, fs) {
      ConsistentConverges(es, fs);
    } else {
      ForEnginesAllShape(es, DiffEngines(es, fs));
      InconsistentRemains(es, ForEnginesAll(es, DiffEngines(es, fs)), fs);
    }
  }

  lemma DiffIsOwned(es: seq<EngineDescription>, fs: seq<EngineDescription>)
    requires WellFormed(es)
    ensures AllOwned(es, DiffEngines(es, fs))
  {
    var d := DiffEngines(es, fs);
    hide Matched, AllComponents;
    forall x | 0 <= x < |d| ensures Owns(es, d[x].engineName, d[x].componentName) {
      var i := DiffFrom(es, fs, d[x]);
      DiffEntryIsOwned(es, fs, i);
    }
  }

  lemma DiffEntryIsOwned(es: seq<EngineDescription>, fs: seq<EngineDescription>, i: Pair)
    requires WellFormed(es) && Matched(es, fs, i)
    ensures Owns(es, es[i.j].components[i.k].engineName, es[i.j].components[i.k].name)
  {
    assert Owned(es[i.j]);
    assert FindComponent(es[i.j].components[i.k].name, es[i.j].components) < |es[i.j].components|;
  }

  /** The same for radios: the differences apply without an exception, the three copies still agree, every
      parameter with a counterpart that says it once has its value, every parameter without one is as before,
      and a second comparison is empty exactly when the new radio says everything once. */
  lemma CompareThenReconfigureConverges(cur: Radio, new_: Radio)
    requires Agrees(cur)
    ensures var (n, e) := ReconfiguredAll(cur, DiffEngines(cur.engines, new_.engines));
            e == None && Agrees(n) && SameShape(cur.engines, n.engines) &&
            n.engines == ForEnginesAll(cur.engines, DiffEngines(cur.engines, new_.engines)) &&
            TakenOver(cur.engines, n.engines, new_.engines) && Kept(cur.engines, n.engines, new_.engines) &&
            (DiffEngines(n.engines, new_.engines) == [] <==> Consistent(cur.engines, new_.engines))
  {
    DiffIsOwned(cur.engines, new_.engines);
    ReconfigurationsAgree(cur, DiffEngines(cur.engines, new_.engines));
    ForEnginesAllShape(cur.engines, DiffEngines(cur.engines, new_.engines));
    DiffConvergesIff(cur.engines, new_.engines);
    ValuesTakenOver(cur.engines, new_.engines);
    ValuesKept(cur.engines, new_.engines);
  }

  /** Matched parameters have the values of their counterparts. */
  ghost predicate TakenOver(es: seq<EngineDescription>, n: seq<EngineDescription>, fs: seq<EngineDescription>)
  {
    forall i :: Matched(es, fs, i) && SaysOnce(es, fs, i) ==>
      IsParameter(n, i.j, i.k, i.q) && n[i.j].components[i.k].parameters[i.q].value == Want(es, fs, i).value
  }

  /** Parameters without a counterpart have the values they had. */
  ghost predicate Kept(es: seq<EngineDescription>, n: seq<EngineDescription>, fs: seq<EngineDescription>)
  {
    forall j: nat, k: nat, q: nat :: IsParameter(es, j, k, q) && Unmatched(es, fs, j, k, q) ==>
      IsParameter(n, j, k, q) && n[j].components[k].parameters[q].value == es[j].components[k].parameters[q].value
  }

  ghost predicate Unmatched(es: seq<EngineDescription>, fs: seq<EngineDescription>, j: nat, k: nat, q: nat)
  {
    forall i: Pair :: i.j == j && i.k == k && i.q == q ==> !Matched(es, fs, i)
  }

  lemma ValuesTakenOver(es: seq<EngineDescription>, fs: seq<EngineDescription>)
    requires WellFormed(es)
    ensures TakenOver(es, ForEnginesAll(es, DiffEngines(es, fs)), fs)
  {
    hide WellFormed, Matched, SaysOnce;
    forall i | Matched(es, fs, i) && SaysOnce(es, fs, i)
      ensures var n := ForEnginesAll(es, DiffEngines(es, fs));
              IsParameter(n, i.j, i.k, i.q) && n[i.j].components[i.k].parameters[i.q].value == Want(es, fs, i).value
    {
      MatchedGetsNewValue(es, fs, i);
    }
  }

  lemma ValuesKept(es: seq<EngineDescription>, fs: seq<EngineDescription>)
    requires WellFormed(es)
    ensures Kept(es, ForEnginesAll(es, DiffEngines(es, fs)), fs)
  {
    hide WellFormed, Matched, Unmatched;
    forall j: nat, k: nat, q: nat | IsParameter(es, j, k, q) && Unmatched(es, fs, j, k, q)
      ensures var n := ForEnginesAll(es, DiffEngines(es, fs));
              IsParameter(n, j, k, q) &&
              n[j].components[k].parameters[q].value == es[j].components[k].parameters[q].value
    {
      UnmatchedStays(es, fs, j, k, q);
    }
  }

  /* -------------------------------------------------------------- splitting by engine ---- */

  /** What a list of reconfigurations does to one engine. */
  function ForEngineAll(e: EngineDescription, ps: seq<ParametricReconfig>): (n: EngineDescription)
    ensures n.name == e.name
    decreases |ps|
  {
    if |ps| == 0 then e else ForEngine(ForEngineAll(e, ps[..|ps| - 1]), ps[|ps| - 1])
  }

  lemma {:induction false} EngineByEngine(es: seq<EngineDescription>, ps: seq<ParametricReconfig>, j: nat)
    requires j < |es|
    ensures ForEnginesAll(es, ps)[j] == ForEngineAll(es[j], ps)
    decreases |ps|
  {
    if |ps| > 0 { EngineByEngine(es, ps[..|ps| - 1], j); }
  }

  /** Only the engine's own reconfigurations matter to it. */
  lemma {:induction false} OnlyItsOwn(e: EngineDescription, ps: seq<ParametricReconfig>)
    ensures ForEngineAll(e, ps) == ForEngineAll(e, EM.ParamsFor(ps, e.name))
    decreases |ps|
  {
    if |ps| > 0 {
      OnlyItsOwn(e, ps[..|ps| - 1]);
      var own := EM.ParamsFor(ps[..|ps| - 1], e.name);
      assert (own + [ps[|ps| - 1]])[..|own|] == own;
    }
  }

  /** Reconfigurations of other engines do not matter. */
  lemma {:induction false} OthersDoNothing(e: EngineDescription, ps: seq<ParametricReconfig>, name: string)
    requires name != e.name
    ensures ForEngineAll(e, EM.ParamsFor(ps, name)) == e
    decreases |ps|
  {
    if |ps| > 0 {
      OthersDoNothing(e, ps[..|ps| - 1], name);
      var own := EM.ParamsFor(ps[..|ps| - 1], name);
      assert (own + [ps[|ps| - 1]])[..|own|] == own;
    }
  }

  function SplitEngine(e: EngineDescription, names: seq<string>, ps: seq<ParametricReconfig>): (n: EngineDescription)
    ensures n.name == e.name
    decreases |names|
  {
    if |names| == 0 then e
    else ForEngineAll(SplitEngine(e, names[..|names| - 1], ps), EM.ParamsFor(ps, names[|names| - 1]))
  }

  /** Going through distinct names, an engine is changed once, when its name comes. */
  lemma {:induction false} SplitEngineOnce(e: EngineDescription, names: seq<string>, ps: seq<ParametricReconfig>)
    requires forall i, j :: 0 <= i < j < |names| ==> names[i] != names[j]
    ensures SplitEngine(e, names, ps) == if e.name in names then ForEngineAll(e, ps) else e
    decreases |names|
  {
    if |names| > 0 {
      var before, last := names[..|names| - 1], names[|names| - 1];
      SplitEngineOnce(e, before, ps);
      assert e.name in names <==> e.name in before || e.name == last;
      if e.name == last {
        OnlyItsOwn(e, ps);
      } else {
        OthersDoNothing(SplitEngine(e, before, ps), ps, last);
      }
    }
  }

  lemma {:induction false} ParamsForOwned(es: seq<EngineDescription>, ps: seq<ParametricReconfig>, name: string)
    requires AllOwned(es, ps)
    ensures AllOwned(es, EM.ParamsFor(ps, name))
    decreases |ps|
  {
    if |ps| > 0 {
      var before := ps[..|ps| - 1];
      forall i | 0 <= i < |before| ensures Owns(es, before[i].engineName, before[i].componentName) {
        assert before[i] == ps[i];
      }
      ParamsForOwned(es, before, name);
    }
  }

  lemma AllOwnedKept(es: seq<EngineDescription>, rs: seq<ParametricReconfig>, ps: seq<ParametricReconfig>)
    requires AllOwned(es, ps)
    ensures AllOwned(ForEnginesAll(es, rs), ps)
  {
    forall i | 0 <= i < |ps| ensures Owns(ForEnginesAll(es, rs), ps[i].engineName, ps[i].componentName) {
      ForEnginesAllOwns(es, rs, ps[i].engineName, ps[i].componentName);
    }
  }

  /** The groups apply without exception, and each engine sees only its own. */
  lemma {:induction false} SplitApplies(r: Radio, names: seq<string>, set_: EM.ReconfigSet)
    requires Agrees(r) && AllOwned(r.engines, set_.paramReconfigs)
    ensures var n := EM.SplitApplied(r, names, set_);
            n.1 == None && Agrees(n.0) && AllOwned(n.0.engines, set_.paramReconfigs) && |n.0.engines| == |r.engines| &&
            n.0.radioGraph.edges == r.radioGraph.edges && n.0.engineGraph.edges == r.engineGraph.edges &&
            forall j :: 0 <= j < |r.engines| ==>
              n.0.engines[j] == SplitEngine(r.engines[j], names, set_.paramReconfigs)
    decreases |names|
  {
    hide Agrees, AllOwned, ReconfiguredAll;
    if |names| > 0 {
      SplitApplies(r, names[..|names| - 1], set_);
      var before := EM.SplitApplied(r, names[..|names| - 1], set_).0;
      var own := EM.ParamsFor(set_.paramReconfigs, names[|names| - 1]);
      ParamsForOwned(before.engines, set_.paramReconfigs, names[|names| - 1]);
      ReconfigurationsAgree(before, own);
      AllOwnedKept(before.engines, own, set_.paramReconfigs);
      forall j | 0 <= j < |r.engines|
        ensures ForEnginesAll(before.engines, own)[j] == SplitEngine(r.engines[j], names, set_.paramReconfigs)
      {
        EngineByEngine(before.engines, own, j);
      }
    }
  }

  /** Handing out a set engine by engine leaves the representation exactly as applying it in its own order
      would. */
  lemma SplitIsInOrder(r: Radio, names: seq<string>, set_: EM.ReconfigSet)
    requires Agrees(r) && AllOwned(r.engines, set_.paramReconfigs)
    requires |names| == |r.engines| && forall j :: 0 <= j < |names| ==> names[j] == r.engines[j].name
    ensures var (a, b) := (EM.SplitApplied(r, names, set_), ReconfiguredAll(r, set_.paramReconfigs));
            a.1 == None && b.1 == None && a.0.engines == b.0.engines &&
            a.0.radioGraph == b.0.radioGraph && a.0.engineGraph == b.0.engineGraph
  {
    var ps := set_.paramReconfigs;
    SplitApplies(r, names, set_);
    ReconfigurationsAgree(r, ps);
    hide AllOwned, ReconfiguredAll, AllComponents;
    var (a, b) := (EM.SplitApplied(r, names, set_).0, ReconfiguredAll(r, ps).0);
    forall j | 0 <= j < |r.engines| ensures a.engines[j] == b.engines[j] {
      assert names[j] in names;
      SplitEngineOnce(r.engines[j], names, ps);
      EngineByEngine(r.engines, ps, j);
    }
    assert a.engines == b.engines;
  }

  /** The list in the order in which the split goes through it: group by group. */
  function Grouped(names: seq<string>, ps: seq<ParametricReconfig>): (g: seq<ParametricReconfig>)
    decreases |names|
  {
    if |names| == 0 then []
    else Grouped(names[..|names| - 1], ps) + EM.ParamsFor(ps, names[|names| - 1])
  }

  lemma {:induction false} ReconfiguredAppend(r: Radio, a: seq<ParametricReconfig>, b: seq<ParametricReconfig>)
    ensures ReconfiguredAll(r, a + b) ==
            if ReconfiguredAll(r, a).1.Some? then ReconfiguredAll(r, a) else ReconfiguredAll(ReconfiguredAll(r, a).0, b)
    decreases |b|
  {
    hide Reconfigured;
    if |b| == 0 {
      assert a + b == a;
    } else {
      assert (a + b)[..|a + b| - 1] == a + b[..|b| - 1];
      ReconfiguredAppend(r, a, b[..|b| - 1]);
    }
  }

  /** Whatever the list and the engines, splitting is applying the list group by group, up to the first
      exception. */
  lemma {:induction false} SplitIsGrouped(r: Radio, names: seq<string>, set_: EM.ReconfigSet)
    ensures EM.SplitApplied(r, names, set_) == ReconfiguredAll(r, Grouped(names, set_.paramReconfigs))
    decreases |names|
  {
    if |names| > 0 {
      var before := names[..|names| - 1];
      SplitIsGrouped(r, before, set_);
      ReconfiguredAppend(r, Grouped(before, set_.paramReconfigs),
        EM.ParamsFor(set_.paramReconfigs, names[|names| - 1]));
    }
  }

  predicate Known(es: seq<EngineDescription>, engine: string)
  {
    FindEngine(engine, es) < |es|
  }

  /** The entries that name an engine of the radio, in order. */
  function KnownOnly(es: seq<EngineDescription>, ps: seq<ParametricReconfig>): (k: seq<ParametricReconfig>)
    decreases |ps|
  {
    if |ps| == 0 then []
    else
      var (before, p) := (KnownOnly(es, ps[..|ps| - 1]), ps[|ps| - 1]);
      if Known(es, p.engineName) then before + [p] else before
  }

  /** Every entry names the engine of its component, or no engine at all. */
  ghost predicate OwnedOrUnknown(es: seq<EngineDescription>, ps: seq<ParametricReconfig>)
  {
    forall i :: 0 <= i < |ps| ==> Owns(es, ps[i].engineName, ps[i].componentName) || !Known(es, ps[i].engineName)
  }

  lemma {:induction false} KnownOnlyFor(es: seq<EngineDescription>, ps: seq<ParametricReconfig>, engine: string)
    requires Known(es, engine)
    ensures EM.ParamsFor(KnownOnly(es, ps), engine) == EM.ParamsFor(ps, engine)
    decreases |ps|
  {
    if |ps| > 0 {
      KnownOnlyFor(es, ps[..|ps| - 1], engine);
      var known := KnownOnly(es, ps[..|ps| - 1]);
      assert (known + [ps[|ps| - 1]])[..|known|] == known;
    }
  }

  lemma {:induction false} KnownOnlyOwned(es: seq<EngineDescription>, ps: seq<ParametricReconfig>)
    requires OwnedOrUnknown(es, ps)
    ensures AllOwned(es, KnownOnly(es, ps))
    decreases |ps|
  {
    hide Owns, Known;
    if |ps| > 0 {
      var before := ps[..|ps| - 1];
      forall i | 0 <= i < |before|
        ensures Owns(es, before[i].engineName, before[i].componentName) || !Known(es, before[i].engineName)
      {
        assert before[i] == ps[i];
      }
      KnownOnlyOwned(es, before);
    }
  }

  /** The split never sees an entry that names no engine. */
  lemma {:induction false} SplitSkipsUnknown(r: Radio, names: seq<string>, set_: EM.ReconfigSet,
        es: seq<EngineDescription>)
    requires forall j :: 0 <= j < |names| ==> Known(es, names[j])
    ensures EM.SplitApplied(r, names, set_) ==
            EM.SplitApplied(r, names, set_.(paramReconfigs := KnownOnly(es, set_.paramReconfigs)))
    decreases |names|
  {
    hide Known, ReconfiguredAll;
    if |names| > 0 {
      SplitSkipsUnknown(r, names[..|names| - 1], set_, es);
      KnownOnlyFor(es, set_.paramReconfigs, names[|names| - 1]);
    }
  }

  lemma UnknownIsNobody(es: seq<EngineDescription>, engine: string, j: nat)
    requires !Known(es, engine) && j < |es|
    ensures es[j].name != engine
  {
  }

  /** In its own order, the list ends in an exception as soon as an entry names no engine. */
  lemma {:induction false} UnknownEntryThrows(r: Radio, ps: seq<ParametricReconfig>)
    requires Agrees(r) && OwnedOrUnknown(r.engines, ps) && !AllOwned(r.engines, ps)
    ensures ReconfiguredAll(r, ps).1.Some?
    decreases |ps|
  {
    hide Owns, WellFormed, AllComponents, Reconfigured, Known;
    var (before, p) := (ps[..|ps| - 1], ps[|ps| - 1]);
    assert forall i :: 0 <= i < |before| ==> before[i] == ps[i];
    if AllOwned(r.engines, before) {
      ReconfigurationsAgree(r, before);
      assert !Known(r.engines, p.engineName);
      var n := ReconfiguredAll(r, before).0;
      forall j | 0 <= j < |n.engines| ensures n.engines[j].name != p.engineName {
        EngineByEngine(r.engines, before, j);
        UnknownIsNobody(r.engines, p.engineName, j);
      }
      UnknownEngineThrows(n, p);
    } else {
      UnknownEntryThrows(r, before);
    }
  }

  /** The two ways of applying a set end alike. */
  predicate SameOutcome(a: (Radio, Option<RadioError>), b: (Radio, Option<RadioError>))
  {
    a.1 == b.1 && a.0.engines == b.0.engines && a.0.radioGraph == b.0.radioGraph && a.0.engineGraph == b.0.engineGraph
  }

  /** With entries that name no engine the split throws nothing and does what the other entries do in their
      order. The whole list in its own order comes to the same exactly when there are no such entries. */
  lemma SplitIsInOrderIff(r: Radio, names: seq<string>, set_: EM.ReconfigSet)
    requires Agrees(r) && OwnedOrUnknown(r.engines, set_.paramReconfigs)
    requires |names| == |r.engines| && forall j :: 0 <= j < |names| ==> names[j] == r.engines[j].name
    ensures var (a, ps) := (EM.SplitApplied(r, names, set_), set_.paramReconfigs);
            a.1 == None && SameOutcome(a, ReconfiguredAll(r, KnownOnly(r.engines, ps))) &&
            (SameOutcome(a, ReconfiguredAll(r, ps)) <==> AllOwned(r.engines, ps))
  {
    var ps := set_.paramReconfigs;
    var known := set_.(paramReconfigs := KnownOnly(r.engines, ps));
    KnownOnlyOwned(r.engines, ps);
    SplitSkipsUnknown(r, names, set_, r.engines);
    hide AllOwned, Agrees, OwnedOrUnknown, ReconfiguredAll, EM.SplitApplied, KnownOnly, Known;
    SplitIsInOrder(r, names, known);
    if AllOwned(r.engines, ps) {
      SplitIsInOrder(r, names, set_);
    } else {
      UnknownEntryThrows(r, ps);
    }
  }

  lemma GroupsOfTwo(p: ParametricReconfig, q: ParametricReconfig)
    requires p.engineName == "a" && q.engineName == "b"
    ensures Grouped(["b", "a"], [p, q]) == [q, p]
  {
    var (names, ps) := (["b", "a"], [p, q]);
    assert names[..1] == ["b"] && ["b"][..0] == [] && ps[..1] == [p] && [p][..0] == [];
    assert EM.ParamsFor([p], "a") == [p] && EM.ParamsFor([p], "b") == [];
    assert Grouped(["b"], ps) == [] + EM.ParamsFor(ps, "b");
  }

  lemma AppliedTwo(r: Radio, p: ParametricReconfig, q: ParametricReconfig)
    requires Reconfigured(r, p).1 == None
    ensures ReconfiguredAll(r, [p, q]) == Reconfigured(Reconfigured(r, p).0, q)
  {
    hide Reconfigured;
    assert [p, q][..1] == [p];
    AppliedOne(r, p);
  }

  /** An entry for a component of another engine makes the order matter, although nothing is thrown: its
      value sits on the radio graph until the next entry for the component takes it into the engine. */
  lemma ForeignEntryMatters()
    ensures var (r, ps) := (TwoEngines("0"), [Reconfig("a", "c", "x", "1"), Reconfig("b", "c", "z", "2")]);
            var (a, b) := (EM.SplitApplied(r, ["b", "a"], EM.ReconfigSet(ps, [])), ReconfiguredAll(r, ps));
            a.1 == None && a.0.engines == TwoEngines("0").engines &&
            b.1 == None && b.0.engines == TwoEngines("1").engines && !SameOutcome(a, b)
  {
    var (r, p, q) := (TwoEngines("0"), Reconfig("a", "c", "x", "1"), Reconfig("b", "c", "z", "2"));
    SplitIsGrouped(r, ["b", "a"], EM.ReconfigSet([p, q], []));
    GroupsOfTwo(p, q);
    ForeignThenOwn();
    OwnThenForeign();
    AppliedTwo(r, p, q);
    AppliedTwo(r, q, p);
    hide Reconfigured, ReconfiguredAll, EM.SplitApplied, Grouped;
    assert TwoEngines("0").engines[0].components[0].parameters[0].value == "0";
  }

  lemma ForeignThenOwn()
    ensures var (n, e) := Reconfigured(TwoEngines("0"), Reconfig("a", "c", "x", "1"));
            e == None && Reconfigured(n, Reconfig("b", "c", "z", "2")).1 == None &&
            Reconfigured(n, Reconfig("b", "c", "z", "2")).0.engines == TwoEngines("1").engines
  {
    ForeignReconfigurationExample();
    hide Reconfigured, Agrees, AllComponents;
    ThenOwn(Reconfigured(TwoEngines("0"), Reconfig("a", "c", "x", "1")).0);
  }

  lemma ThenOwn(n: Radio)
    requires n.engines == TwoEngines("0").engines && n.radioGraph.vertices == TwoEngines("1").radioGraph.vertices
    requires n.engineGraph.vertices == [TwoEngines("0").engines[0], BLANK_ENGINE]
    ensures var after := Reconfigured(n, Reconfig("b", "c", "z", "2"));
            after.1 == None && after.0.engines == TwoEngines("1").engines
  {
    var (c, q) := (Part("1"), Reconfig("b", "c", "z", "2"));
    NothingToSet(c, q);
    hide Agrees, WellFormed, AllComponents, NewComponent, Reconfigured, Part;
    PartIsNamed("0");
    PartIsNamed("1");
    OwnerTakesCopy(n, c, q);
  }

  lemma PartIsNamed(value: string)
    ensures Part(value).name == "c"
  {
  }

  /** What reaches the engine is the component as it is on the radio graph. */
  lemma OwnerTakesCopy(n: Radio, c: ComponentDescription, q: ParametricReconfig)
    requires |n.engines| == 2 && n.engines[0].name == q.engineName != n.engines[1].name
    requires |n.engines[0].components| == 1 && n.engines[0].components[0].name == q.componentName
    requires n.radioGraph.vertices == [c] && c.name == q.componentName && NewComponent(c, q) == c
    requires |n.engineGraph.vertices| == 2 && n.engineGraph.vertices[0].name == q.engineName
    ensures Reconfigured(n, q).1 == None
    ensures Reconfigured(n, q).0.engines == [n.engines[0].(components := [c]), n.engines[1]]
  {
    hide NewComponent, ReplacedOwner;
    assert FindComponent(q.componentName, [c]) == 0 && FindEngine(q.engineName, n.engineGraph.vertices) == 0;
    assert FindComponent(q.componentName, n.engines[0].components) == 0;
    assert n.engines[0].components[0 := c] == [c];
  }

  lemma NobodyIsSet(es: seq<EngineDescription>, c: ComponentDescription, q: ParametricReconfig)
    requires |es| == 2 && es[0].components == [c] && es[1].components == [] && NewComponent(c, q) == c
    ensures ForEngines(es, q) == es
  {
    hide NewComponent;
    assert ForComponents([c], q) == [c];
  }

  lemma NothingToSet(c: ComponentDescription, q: ParametricReconfig)
    requires forall i :: 0 <= i < |c.parameters| ==> c.parameters[i].name != q.parameterName
    ensures NewComponent(c, q) == c
  {
    assert WithParameter(c.parameters, q.parameterName, q.parameterValue) == c.parameters;
  }

  lemma OwnThenForeign()
    ensures var (n, e) := Reconfigured(TwoEngines("0"), Reconfig("b", "c", "z", "2"));
            e == None && Reconfigured(n, Reconfig("a", "c", "x", "1")).1 == None &&
            Reconfigured(n, Reconfig("a", "c", "x", "1")).0.engines == TwoEngines("0").engines
  {
    var (r, q, p) := (TwoEngines("0"), Reconfig("b", "c", "z", "2"), Reconfig("a", "c", "x", "1"));
    var (es, c) := (r.engines, r.engines[0].components[0]);
    assert Owns(es, "b", "c") by { assert es[0].name == "b" && FindComponent("c", es[0].components) == 0; }
    assert !Owns(es, "a", "c") by { assert es[0].name != "a" && es[1].components == []; }
    OwnReconfigurationAgrees(r, q);
    NothingToSet(c, q);
    NobodyIsSet(es, c, q);
    hide NewComponent, Reconfigured, WellFormed, Owns, AllComponents, ForEngines;
    ForeignReconfiguration(Reconfigured(r, q).0, p);
  }

  /** An entry for an engine that is not there: nothing happens when split; in order it throws, with the new
      value on the radio graph. */
  lemma UnknownEntryExample()
    ensures var (r, ps) := (TwoEngines("0"), [Reconfig("z", "c", "x", "1")]);
            EM.SplitApplied(r, ["b", "a"], EM.ReconfigSet(ps, [])) == (r, None) &&
            ReconfiguredAll(r, ps).1 == Some(NoEngine("z")) &&
            ReconfiguredAll(r, ps).0 == r.(radioGraph := TwoEngines("1").radioGraph)
  {
    UnknownIsDropped(TwoEngines("0"), Reconfig("z", "c", "x", "1"));
    UnknownInOrder(Reconfig("z", "c", "x", "1"));
  }

  lemma UnknownIsDropped(r: Radio, p: ParametricReconfig)
    requires p.engineName != "a" && p.engineName != "b"
    ensures EM.SplitApplied(r, ["b", "a"], EM.ReconfigSet([p], [])) == (r, None)
  {
    hide Reconfigured, Grouped, EM.SplitApplied;
    SplitIsGrouped(r, ["b", "a"], EM.ReconfigSet([p], []));
    InNoGroup(p);
    AppliedOne(r, p);
  }

  lemma UnknownInOrder(p: ParametricReconfig)
    requires p == Reconfig("z", "c", "x", "1")
    ensures ReconfiguredAll(TwoEngines("0"), [p]).1 == Some(NoEngine("z"))
    ensures ReconfiguredAll(TwoEngines("0"), [p]).0 == TwoEngines("0").(radioGraph := TwoEngines("1").radioGraph)
  {
    var r := TwoEngines("0");
    hide Reconfigured, ReconfiguredAll, AllComponents, Agrees, NewComponent, Part;
    assert !Owns(r.engines, "z", "c") by { assert r.engines[0].name != "z" && r.engines[1].name != "z"; }
    hide Owns;
    PartIsNamed("0");
    PartChanges(p);
    AppliedOne(r, p);
    ForeignReconfiguration(r, p);
    assert r.radioGraph.vertices == [Part("0")] && [Part("0")][0 := Part("1")] == [Part("1")];
  }

  lemma PartChanges(p: ParametricReconfig)
    requires p.parameterName == "x" && p.parameterValue == "1"
    ensures NewComponent(Part("0"), p) == Part("1")
  {
    assert WithParameter([Parameter("x", "0")], "x", "1") == [Parameter("x", "1")];
  }

  lemma InNoGroup(p: ParametricReconfig)
    requires p.engineName != "a" && p.engineName != "b"
    ensures Grouped(["b", "a"], [p]) == []
  {
    assert ["b", "a"][..1] == ["b"] && ["b"][..0] == [];
    NotFor(p, "a");
    NotFor(p, "b");
    assert Grouped(["b"], [p]) == [];
  }

  lemma NotFor(p: ParametricReconfig, engine: string)
    requires p.engineName != engine
    ensures EM.ParamsFor([p], engine) == []
  {
    assert [p][..0] == [];
  }

  lemma AppliedOne(r: Radio, p: ParametricReconfig)
    ensures ReconfiguredAll(r, [p]) == Reconfigured(r, p) && ReconfiguredAll(r, []) == (r, None)
  {
    hide Reconfigured;
    assert [p][..0] == [];
    assert ReconfiguredAll(r, []) == (r, None);
  }

  /** How often a reconfiguration occurs in a list. */
  function Count(ps: seq<ParametricReconfig>, p: ParametricReconfig): (n: nat)
    decreases |ps|
  {
    if |ps| == 0 then 0 else Count(ps[..|ps| - 1], p) + if ps[|ps| - 1] == p then 1 else 0
  }

  lemma CountAppend(ps: seq<ParametricReconfig>, x: ParametricReconfig, p: ParametricReconfig)
    ensures Count(ps + [x], p) == Count(ps, p) + if x == p then 1 else 0
  {
    assert (ps + [x])[..|ps|] == ps;
  }

  /** An engine receives exactly the entries that name it: as often as they are listed, and in the order in
      which they are listed. */
  lemma {:induction false} EachReachesOneEngine(ps: seq<ParametricReconfig>, engine: string, p: ParametricReconfig)
    ensures Count(EM.ParamsFor(ps, engine), p) == if p.engineName == engine then Count(ps, p) else 0
    decreases |ps|
  {
    if |ps| > 0 {
      var before, last := ps[..|ps| - 1], ps[|ps| - 1];
      EachReachesOneEngine(before, engine, p);
      assert ps == before + [last];
      CountAppend(before, last, p);
      CountAppend(EM.ParamsFor(before, engine), last, p);
      assert EM.ParamsFor(ps, engine) ==
        if last.engineName == engine then EM.ParamsFor(before, engine) + [last] else EM.ParamsFor(before, engine);
    }
  }

  lemma {:induction false} OrderIsKept(a: seq<ParametricReconfig>, b: seq<ParametricReconfig>, engine: string)
    ensures EM.ParamsFor(a + b, engine) == EM.ParamsFor(a, engine) + EM.ParamsFor(b, engine)
    decreases |b|
  {
    if |b| == 0 {
      assert a + b == a;
    } else {
      assert (a + b)[..|a + b| - 1] == a + b[..|b| - 1];
      OrderIsKept(a, b[..|b| - 1], engine);
    }
  }

  /* ------------------------------------------------------------------ what an engine is sent ---- */

  /** The entries for an engine are those that name it, in the order of the list. */
  lemma {:induction false} ParamsAreKept(ps: seq<ParametricReconfig>, engine: string) returns (at: seq<nat>)
    ensures Keeps(ps, (p: ParametricReconfig) => p.engineName == engine, EM.ParamsFor(ps, engine), at)
    decreases |ps|
  {
    var f := (p: ParametricReconfig) => p.engineName == engine;
    if |ps| == 0 {
      at := [];
    } else {
      var (before, p) := (ps[..|ps| - 1], ps[|ps| - 1]);
      at := ParamsAreKept(before, engine);
      KeepsOneMore(before, f, EM.ParamsFor(before, engine), at, p);
      assert before + [p] == ps;
      if p.engineName == engine { at := at + [|before|]; }
    }
  }

  lemma {:induction false} StructsAreKept(ss: seq<EM.StructuralReconfig>, engine: string) returns (at: seq<nat>)
    ensures Keeps(ss, (s: EM.StructuralReconfig) => s.engineName == engine, EM.StructsFor(ss, engine), at)
    decreases |ss|
  {
    var f := (s: EM.StructuralReconfig) => s.engineName == engine;
    if |ss| == 0 {
      at := [];
    } else {
      var (before, s) := (ss[..|ss| - 1], ss[|ss| - 1]);
      at := StructsAreKept(before, engine);
      KeepsOneMore(before, f, EM.StructsFor(before, engine), at, s);
      assert before + [s] == ss;
      if s.engineName == engine { at := at + [|before|]; }
    }
  }

  /** An engine is sent nothing if and only if no entry of either kind names it; otherwise one set, which
      holds exactly the entries that name it, of both kinds and in the order of their lists. */
  lemma SentIsWhatNamesIt(set_: EM.ReconfigSet, engine: string) returns (ps: seq<nat>, ss: seq<nat>)
    ensures EM.Sent(set_, engine) == [] <==>
            (forall i :: 0 <= i < |set_.paramReconfigs| ==> set_.paramReconfigs[i].engineName != engine) &&
            forall i :: 0 <= i < |set_.structReconfigs| ==> set_.structReconfigs[i].engineName != engine
    ensures var sent := EM.Sent(set_, engine);
            sent != [] ==>
              |sent| == 1 &&
              Keeps(set_.paramReconfigs, (p: ParametricReconfig) => p.engineName == engine, sent[0].paramReconfigs,
                    ps) &&
              Keeps(set_.structReconfigs, (s: EM.StructuralReconfig) => s.engineName == engine,
                    sent[0].structReconfigs, ss)
  {
    ps := ParamsAreKept(set_.paramReconfigs, engine);
    ss := StructsAreKept(set_.structReconfigs, engine);
    hide EM.ParamsFor, EM.StructsFor;
    NothingKept(set_.paramReconfigs, (p: ParametricReconfig) => p.engineName == engine,
                EM.ParamsFor(set_.paramReconfigs, engine), ps);
    NothingKept(set_.structReconfigs, (s: EM.StructuralReconfig) => s.engineName == engine,
                EM.StructsFor(set_.structReconfigs, engine), ss);
  }
}
