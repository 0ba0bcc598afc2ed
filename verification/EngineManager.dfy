/** Hands a set of reconfigurations to the engines it concerns and to the radio representation
    (src/EngineManager.cpp:157-188). */
module EngineManager {
  import opened Wrappers
  import opened RadioTypes
  import opened RadioRepresentation

  datatype AlteredLink = AlteredLink(oldLink: LinkDescription, newLink: LinkDescription)

  datatype StructuralReconfig = StructuralReconfig(
    engineName: string,
    removedComponents: seq<string>,
    removedLinks: seq<LinkDescription>,
    newLinks: seq<LinkDescription>,
    alteredLinks: seq<AlteredLink>)

  datatype ReconfigSet = ReconfigSet(paramReconfigs: seq<ParametricReconfig>, structReconfigs: seq<StructuralReconfig>)

  /** The parametric reconfigurations for one engine, in order. */
  function ParamsFor(ps: seq<ParametricReconfig>, engine: string): (r: seq<ParametricReconfig>)
    decreases |ps|
  {
    if |ps| == 0 then []
    else
      var before, p := ParamsFor(ps[..|ps| - 1], engine), ps[|ps| - 1];
      if p.engineName == engine then before + [p] else before
  }

  function StructsFor(ps: seq<StructuralReconfig>, engine: string): (r: seq<StructuralReconfig>)
    decreases |ps|
  {
    if |ps| == 0 then []
    else
      var before, p := StructsFor(ps[..|ps| - 1], engine), ps[|ps| - 1];
      if p.engineName == engine then before + [p] else before
  }

  function SetFor(set_: ReconfigSet, engine: string): (r: ReconfigSet)
  {
    ReconfigSet(ParamsFor(set_.paramReconfigs, engine), StructsFor(set_.structReconfigs, engine))
  }

  predicate IsEmpty(set_: ReconfigSet)
  {
    set_.paramReconfigs == [] && set_.structReconfigs == []
  }

  /** What one engine is sent. */
  function Sent(set_: ReconfigSet, engine: string): (sets: seq<ReconfigSet>)
  {
    if IsEmpty(SetFor(set_, engine)) then [] else [SetFor(set_, engine)]
  }

  /** The representation after the groups of the first n engines, and the exception that ended it. */
  function SplitApplied(r: Radio, names: seq<string>, set_: ReconfigSet): (n: (Radio, Option<RadioError>))
    decreases |names|
  {
    if |names| == 0 then (r, None)
    else
      var before := SplitApplied(r, names[..|names| - 1], set_);
      if before.1.Some? then before
      else ReconfiguredAll(before.0, ParamsFor(set_.paramReconfigs, names[|names| - 1]))
  }

  lemma {:induction false} SplitStops(r: Radio, names: seq<string>, set_: ReconfigSet, i: nat)
    requires i <= |names| && SplitApplied(r, names[..i], set_).1.Some?
    ensures SplitApplied(r, names, set_) == SplitApplied(r, names[..i], set_)
    decreases |names|
  {
    if i < |names| {
      assert names[..|names| - 1][..i] == names[..i];
      SplitStops(r, names[..|names| - 1], set_, i);
    } else {
      assert names[..i] == names;
    }
  }

  /** `names` are the running engines and `queues` the reconfigurations they have been sent. */
  class EngineManager {
    var names: seq<string>
    var queues: seq<seq<ReconfigSet>>
    const radioRep: RadioRepresentation

    constructor (names: seq<string>, radioRep: RadioRepresentation)
      ensures this.names == names && |queues| == |names| && this.radioRep == radioRep
      ensures forall j :: 0 <= j < |queues| ==> queues[j] == []
    {
      this.names := names;
      queues := seq(|names|, _ => []);
      this.radioRep := radioRep;
    }

    /** An exception ends the loop at the engine whose group has thrown; that engine has been sent its set. */
    method ReconfigureRadio(reconfigs: ReconfigSet) returns (e: Option<RadioError>, ghost reached: nat)
      requires |queues| == |names|
      modifies this`queues, radioRep
      ensures |queues| == |names| && names == old(names)
      ensures (radioRep.State(), e) == SplitApplied(old(radioRep.State()), names, reconfigs)
      ensures reached <= |names| && (e == None ==> reached == |names|)
      ensures e.Some? ==>
                reached > 0 && SplitApplied(old(radioRep.State()), names[..reached], reconfigs).1.Some? &&
                SplitApplied(old(radioRep.State()), names[..reached - 1], reconfigs).1 == None
      ensures forall j :: 0 <= j < |names| ==>
                queues[j] == if j < reached then old(queues)[j] + Sent(reconfigs, names[j]) else old(queues)[j]
    {
      e, reached := None, |names|;
      for i := 0 to |names|
        invariant |queues| == |names| && names == old(names) && e == None
        invariant (radioRep.State(), e) == SplitApplied(old(radioRep.State()), names[..i], reconfigs)
        invariant forall j :: 0 <= j < i ==> queues[j] == old(queues)[j] + Sent(reconfigs, names[j])
        invariant forall j :: i <= j < |names| ==> queues[j] == old(queues)[j]
      {
        var currentReconfigs := Separate(reconfigs, names[i]);
        if !IsEmpty(currentReconfigs) {
          queues := queues[i := queues[i] + [currentReconfigs]];
        }
        e := radioRep.ReconfigureRepresentation(currentReconfigs.paramReconfigs);
        assert names[..i + 1][..i] == names[..i];
        if e.Some? {
          SplitStops(old(radioRep.State()), names, reconfigs, i + 1);
          reached := i + 1;
          return;
        }
      }
      assert names[..|names|] == names;
    }

    /** The two inner loops: what concerns the current engine. */
    method Separate(reconfigs: ReconfigSet, current: string) returns (s: ReconfigSet)
      ensures s == SetFor(reconfigs, current)
    {
      var ps, ss := reconfigs.paramReconfigs, reconfigs.structReconfigs;
      s := ReconfigSet([], []);
      for i := 0 to |ps|
        invariant s == ReconfigSet(ParamsFor(ps[..i], current), [])
      {
        if ps[i].engineName == current {
          s := s.(paramReconfigs := s.paramReconfigs + [ps[i]]);
        }
        assert ps[..i + 1][..i] == ps[..i];
      }
      assert ps[..|ps|] == ps;
      for i := 0 to |ss|
        invariant s == ReconfigSet(ParamsFor(ps, current), StructsFor(ss[..i], current))
      {
        if ss[i].engineName == current {
          s := s.(structReconfigs := s.structReconfigs + [ss[i]]);
        }
        assert ss[..i + 1][..i] == ss[..i];
      }
      assert ss[..|ss|] == ss;
    }
  }
}
