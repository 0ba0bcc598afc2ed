/** Loading the engines of a radio and handing each the buffers of the engines before it
    (src/EngineManager.cpp:83-112, 236-241).

    An engine is a black box that is given the buffers of its incoming links and returns new buffers, each
    described by the component and port it belongs to. */
module EngineLoading {
  import opened Wrappers
  import opened RadioTypes

  type BufferId = nat

  /** A new buffer and its description. */
  datatype Output = Output(buffer: BufferId, link: LinkDescription)

  /** What loadEngine returns for an engine and its input buffers. */
  type Load = (nat, seq<Option<BufferId>>) -> seq<Output>

  /** The buffer of each edge of the engine graph, the description of each buffer, and what each engine
      was given when it was loaded. */
  datatype Loading = Loading(
    buffers: seq<Option<BufferId>>,
    descriptions: map<BufferId, LinkDescription>,
    given: map<nat, seq<Option<BufferId>>>)

  /** EngineManager::sameLink compares the source ends only. */
  predicate SameLink(a: LinkDescription, b: LinkDescription)
  {
    a.sourceComponent == b.sourceComponent && a.sourcePort == b.sourcePort
  }

  /** The buffers of the incoming edges of engine v, in order, among the first n edges. */
  function Inputs(buffers: seq<Option<BufferId>>, edges: seq<Edge<LinkDescription>>, v: nat,
        n: nat): (r: seq<Option<BufferId>>)
    requires n <= |edges| == |buffers|
  {
    if n == 0 then []
    else if edges[n - 1].target == v then Inputs(buffers, edges, v, n - 1) + [buffers[n - 1]]
    else Inputs(buffers, edges, v, n - 1)
  }

  function Described(descriptions: map<BufferId, LinkDescription>,
        outs: seq<Output>): (d: map<BufferId, LinkDescription>)
    ensures forall i :: 0 <= i < |outs| ==> outs[i].buffer in d
    ensures d.Keys == descriptions.Keys + set i | 0 <= i < |outs| :: outs[i].buffer
    decreases |outs|
  {
    if |outs| == 0 then descriptions
    else
      var o := outs[|outs| - 1];
      Described(descriptions, outs[..|outs| - 1])[o.buffer := o.link]
  }

  predicate Known(s: Loading, outs: seq<Output>)
  {
    forall i :: 0 <= i < |outs| ==> outs[i].buffer in s.descriptions
  }

  /** The innermost loop, over the first k new buffers: each that matches the edge becomes its buffer and
      takes over its description. */
  function Matched(s: Loading, edges: seq<Edge<LinkDescription>>, e: nat, outs: seq<Output>, k: nat): (n: Loading)
    requires e < |edges| == |s.buffers| && k <= |outs| && Known(s, outs)
    ensures |n.buffers| == |s.buffers| && Known(n, outs) && n.given == s.given
  {
    if k == 0 then s
    else
      var b, o := Matched(s, edges, e, outs, k - 1), outs[k - 1].buffer;
      if SameLink(b.descriptions[o], edges[e].property) then
        b.(buffers := b.buffers[e := Some(o)], descriptions := b.descriptions[o := edges[e].property])
      else b
  }

  /** The loop over the outgoing edges of engine v among the first n edges. */
  function Connected(s: Loading, edges: seq<Edge<LinkDescription>>, v: nat, outs: seq<Output>, n: nat): (r: Loading)
    requires n <= |edges| == |s.buffers| && Known(s, outs)
    ensures |r.buffers| == |s.buffers| && Known(r, outs) && r.given == s.given
  {
    if n == 0 then s
    else
      var b := Connected(s, edges, v, outs, n - 1);
      if edges[n - 1].source == v then Matched(b, edges, n - 1, outs, |outs|) else b
  }

  /** One engine: collect its inputs, load it, connect its outputs. */
  function LoadedOne(s: Loading, edges: seq<Edge<LinkDescription>>, load: Load, v: nat): (r: Loading)
    requires |edges| == |s.buffers|
    ensures |r.buffers| == |s.buffers|
  {
    var inputs := Inputs(s.buffers, edges, v, |edges|);
    var outs := load(v, inputs);
    Connected(s.(descriptions := Described(s.descriptions, outs), given := s.given[v := inputs]), edges, v, outs,
      |edges|)
  }

  function Loaded(s: Loading, edges: seq<Edge<LinkDescription>>, load: Load, order: seq<nat>, n: nat): (r: Loading)
    requires |edges| == |s.buffers| && n <= |order|
    ensures |r.buffers| == |s.buffers|
  {
    if n == 0 then s else LoadedOne(Loaded(s, edges, load, order, n - 1), edges, load, order[n - 1])
  }

  /** Before the first engine is loaded. */
  function Unloaded(edges: seq<Edge<LinkDescription>>): (s: Loading)
    ensures |s.buffers| == |edges| && forall e :: 0 <= e < |edges| ==> s.buffers[e] == None
  {
    Loading(seq(|edges|, _ => None), map[], map[])
  }

  /** The loop over the engines in topological order. */
  method LoadRadio(edges: seq<Edge<LinkDescription>>, load: Load, order: seq<nat>) returns (s: Loading)
    ensures s == Loaded(Unloaded(edges), edges, load, order, |order|)
  {
    s := Unloaded(edges);
    for i := 0 to |order|
      invariant |s.buffers| == |edges| && s == Loaded(Unloaded(edges), edges, load, order, i)
    {
      ghost var was := s;
      var v := order[i];
      var inputBuffers: seq<Option<BufferId>> := [];
      for e := 0 to |edges|
        invariant inputBuffers == Inputs(s.buffers, edges, v, e)
      {
        if edges[e].target == v {
          inputBuffers := inputBuffers + [s.buffers[e]];
        }
      }
      var outputBuffers := load(v, inputBuffers);
      s := s.(descriptions := Described(s.descriptions, outputBuffers), given := s.given[v := inputBuffers]);
      ghost var before := s;
      for e := 0 to |edges|
        invariant |s.buffers| == |edges| && Known(before, outputBuffers) && |before.buffers| == |edges|
        invariant s == Connected(before, edges, v, outputBuffers, e)
      {
        if edges[e].source == v {
          s := Connect(s, edges, e, outputBuffers);
        }
      }
      assert s == LoadedOne(was, edges, load, v);
    }
  }

  method Connect(start: Loading, edges: seq<Edge<LinkDescription>>, e: nat, outs: seq<Output>) returns (s: Loading)
    requires e < |edges| == |start.buffers| && Known(start, outs)
    ensures s == Matched(start, edges, e, outs, |outs|)
  {
    s := start;
    for k := 0 to |outs|
      invariant |s.buffers| == |edges| && Known(s, outs) && s == Matched(start, edges, e, outs, k)
    {
      if SameLink(s.descriptions[outs[k].buffer], edges[e].property) {
        s := s.(buffers := s.buffers[e := Some(outs[k].buffer)],
                descriptions := s.descriptions[outs[k].buffer := edges[e].property]);
      }
    }
  }
}
