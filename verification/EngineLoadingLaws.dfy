/** Every engine is given all its input buffers; two links share a buffer exactly when they leave the same
    port. */
module EngineLoadingLaws {
  import opened Wrappers
  import opened RadioTypes
  import opened EngineLoading

  /* ------------------------------------------------------------------ side conditions ---- */

  /** The buffers an engine returns are new: none is returned twice, or by two engines. */
  ghost predicate New(load: Load)
  {
    forall v, x, w, y, i, j ::
      0 <= i < |load(v, x)| && 0 <= j < |load(w, y)| && load(v, x)[i].buffer == load(w, y)[j].buffer ==>
        v == w && (x == y ==> i == j)
  }

  /** An engine returns a buffer for every link that leaves it. */
  ghost predicate Provides(load: Load, edges: seq<Edge<LinkDescription>>)
  {
    forall e, x :: 0 <= e < |edges| ==>
      LastMatch(load(edges[e].source, x), edges[e].property, |load(edges[e].source, x)|) >= 0
  }

  /** The order is topological and lists every engine at most once. */
  ghost predicate Topological(order: seq<nat>, edges: seq<Edge<LinkDescription>>)
  {
    (forall i, j :: 0 <= i < j < |order| ==> order[i] != order[j]) &&
    forall e :: 0 <= e < |edges| ==> Precedes(order, edges[e].source, edges[e].target)
  }

  ghost predicate Precedes(order: seq<nat>, a: nat, b: nat)
  {
    exists i, j :: 0 <= i < j < |order| && order[i] == a && order[j] == b
  }

  /** Components belong to one engine. */
  predicate OwnComponents(edges: seq<Edge<LinkDescription>>)
  {
    forall e, f :: 0 <= e < |edges| && 0 <= f < |edges| ==>
      edges[e].property.sourceComponent == edges[f].property.sourceComponent ==> edges[e].source == edges[f].source
  }

  /* ------------------------------------------------------------------- one engine ---- */

  /** The last of the first k new buffers that matches a link; -1 if there is none. */
  function LastMatch(outs: seq<Output>, l: LinkDescription, k: nat): (i: int)
    requires k <= |outs|
    ensures -1 <= i < k
    ensures i >= 0 ==> SameLink(outs[i].link, l)
    ensures forall j :: 0 <= j < k && SameLink(outs[j].link, l) ==> j <= i
  {
    if k == 0 then -1 else if SameLink(outs[k - 1].link, l) then k - 1 else LastMatch(outs, l, k - 1)
  }

  /** The last of the first n edges that leaves engine v by the source end of a link; -1 if there is none. */
  function LastEdge(edges: seq<Edge<LinkDescription>>, v: nat, l: LinkDescription, n: nat): (e: int)
    requires n <= |edges|
    ensures -1 <= e < n
    ensures e >= 0 ==> edges[e].source == v && SameLink(l, edges[e].property)
    ensures forall f :: 0 <= f < n && edges[f].source == v && SameLink(l, edges[f].property) ==> f <= e
  {
    if n == 0 then -1
    else if edges[n - 1].source == v && SameLink(l, edges[n - 1].property) then n - 1
    else LastEdge(edges, v, l, n - 1)
  }

  predicate DistinctBuffers(outs: seq<Output>)
  {
    forall i, j :: 0 <= i < j < |outs| ==> outs[i].buffer != outs[j].buffer
  }

  /** The descriptions of the new buffers when the first n edges have been connected. */
  predicate DescribedBy(s: Loading, edges: seq<Edge<LinkDescription>>, v: nat, outs: seq<Output>, n: nat)
    requires n <= |edges| && Known(s, outs)
  {
    forall i :: 0 <= i < |outs| ==>
      s.descriptions[outs[i].buffer] ==
      if LastEdge(edges, v, outs[i].link, n) >= 0 then edges[LastEdge(edges, v, outs[i].link, n)].property
        else outs[i].link
  }

  /** No description of another buffer changes. */
  predicate OthersStay(s: Loading, n: Loading, outs: seq<Output>)
  {
    forall b :: b in s.descriptions && (forall i :: 0 <= i < |outs| ==> outs[i].buffer != b) ==>
      b in n.descriptions && n.descriptions[b] == s.descriptions[b]
  }

  /** The descriptions still tell the source ends of the buffers. */
  predicate EndsKept(s: Loading, outs: seq<Output>)
    requires Known(s, outs)
  {
    forall i :: 0 <= i < |outs| ==> SameLink(s.descriptions[outs[i].buffer], outs[i].link)
  }

  /** The first k new buffers that match a link are described by it, the others as before. */
  predicate MatchesDescribed(s: Loading, n: Loading, l: LinkDescription, outs: seq<Output>, k: nat)
    requires Known(s, outs) && Known(n, outs)
  {
    forall i :: 0 <= i < |outs| ==>
      n.descriptions[outs[i].buffer] ==
      if i < k && SameLink(outs[i].link, l) then l else s.descriptions[outs[i].buffer]
  }

  /** One new buffer in the innermost loop. */
  lemma OneMatch(s: Loading, b: Loading, n: Loading, l: LinkDescription, outs: seq<Output>, k: nat)
    requires k < |outs| && Known(s, outs) && Known(b, outs) && DistinctBuffers(outs) && EndsKept(b, outs)
    requires MatchesDescribed(s, b, l, outs, k)
    requires n.descriptions == if SameLink(b.descriptions[outs[k].buffer], l) then b.descriptions[outs[k].buffer := l]
                               else b.descriptions
    ensures Known(n, outs) && MatchesDescribed(s, n, l, outs, k + 1) && EndsKept(n, outs) && OthersStay(b, n, outs)
  {
  }

  lemma OthersStayStill(s: Loading, b: Loading, n: Loading, outs: seq<Output>)
    requires OthersStay(s, b, outs) && OthersStay(b, n, outs)
    ensures OthersStay(s, n, outs)
  {
  }

  /** The innermost loop: all matches are described by the edge. */
  lemma {:induction false} MatchedDescriptions(s: Loading, edges: seq<Edge<LinkDescription>>, e: nat,
        outs: seq<Output>, k: nat)
    requires e < |edges| == |s.buffers| && k <= |outs| && Known(s, outs) && DistinctBuffers(outs) && EndsKept(s, outs)
    ensures var n := Matched(s, edges, e, outs, k);
            OthersStay(s, n, outs) && EndsKept(n, outs) && MatchesDescribed(s, n, edges[e].property, outs, k)
  {
    hide OthersStay, DistinctBuffers, EndsKept, MatchesDescribed;
    if k == 0 {
      NothingMatched(s, edges[e].property, outs);
    } else {
      MatchedDescriptions(s, edges, e, outs, k - 1);
      var (b, n) := (Matched(s, edges, e, outs, k - 1), Matched(s, edges, e, outs, k));
      OneMatch(s, b, n, edges[e].property, outs, k - 1);
      OthersStayStill(s, b, n, outs);
    }
  }

  lemma NothingMatched(s: Loading, l: LinkDescription, outs: seq<Output>)
    requires Known(s, outs)
    ensures OthersStay(s, s, outs) && MatchesDescribed(s, s, l, outs, 0)
  {
  }

  /** The last match becomes the edge's buffer. */
  lemma {:induction false} MatchedBuffers(s: Loading, edges: seq<Edge<LinkDescription>>, e: nat, outs: seq<Output>,
        k: nat)
    requires e < |edges| == |s.buffers| && k <= |outs| && Known(s, outs) && DistinctBuffers(outs) && EndsKept(s, outs)
    ensures var n, m := Matched(s, edges, e, outs, k), LastMatch(outs, edges[e].property, k);
            n.buffers == if m >= 0 then s.buffers[e := Some(outs[m].buffer)] else s.buffers
  {
    hide OthersStay, DistinctBuffers;
    if k > 0 {
      MatchedBuffers(s, edges, e, outs, k - 1);
      MatchedDescriptions(s, edges, e, outs, k - 1);
    }
  }

  lemma {:induction false} ConnectedDescriptions(s: Loading, edges: seq<Edge<LinkDescription>>, v: nat,
        outs: seq<Output>, n: nat)
    requires n <= |edges| == |s.buffers| && Known(s, outs) && DistinctBuffers(outs) && DescribedBy(s, edges, v, outs, 0)
    ensures var r := Connected(s, edges, v, outs, n);
            OthersStay(s, r, outs) && DescribedBy(r, edges, v, outs, n) && EndsKept(r, outs)
  {
    hide DistinctBuffers, Matched;
    if n > 0 {
      ConnectedDescriptions(s, edges, v, outs, n - 1);
      var b := Connected(s, edges, v, outs, n - 1);
      if edges[n - 1].source == v { MatchedDescriptions(b, edges, n - 1, outs, |outs|); }
    }
  }

  /** The buffer of each edge after the loop over the edges: the last match, for the engine's own. */
  lemma {:induction false} ConnectedBuffers(s: Loading, edges: seq<Edge<LinkDescription>>, v: nat,
        outs: seq<Output>, n: nat)
    requires n <= |edges| == |s.buffers| && Known(s, outs) && DistinctBuffers(outs) && DescribedBy(s, edges, v, outs, 0)
    ensures forall e :: 0 <= e < |edges| ==>
              Connected(s, edges, v, outs, n).buffers[e] ==
              if e < n && edges[e].source == v && LastMatch(outs, edges[e].property, |outs|) >= 0
              then Some(outs[LastMatch(outs, edges[e].property, |outs|)].buffer) else s.buffers[e]
  {
    hide DistinctBuffers, Matched, DescribedBy, EndsKept, OthersStay;
    if n > 0 {
      ConnectedBuffers(s, edges, v, outs, n - 1);
      ConnectedDescriptions(s, edges, v, outs, n - 1);
      var b := Connected(s, edges, v, outs, n - 1);
      if edges[n - 1].source == v { MatchedBuffers(b, edges, n - 1, outs, |outs|); }
    }
  }

  /* --------------------------------------------------------------------- all engines ---- */

  lemma {:induction false} DescribedIs(d: map<BufferId, LinkDescription>, outs: seq<Output>)
    requires DistinctBuffers(outs)
    ensures forall i :: 0 <= i < |outs| ==> Described(d, outs)[outs[i].buffer] == outs[i].link
    ensures forall b :: b in d && (forall i :: 0 <= i < |outs| ==> outs[i].buffer != b) ==>
              b in Described(d, outs) && Described(d, outs)[b] == d[b]
    decreases |outs|
  {
    if |outs| > 0 {
      var rest, last := outs[..|outs| - 1], outs[|outs| - 1];
      DescribedIs(d, rest);
      assert Described(d, outs) == Described(d, rest)[last.buffer := last.link];
      assert forall i :: 0 <= i < |rest| ==> rest[i] == outs[i];
      hide Described;
    }
  }

  ghost predicate Done(order: seq<nat>, n: nat, v: nat)
    requires n <= |order|
  {
    exists i :: 0 <= i < n && order[i] == v
  }

  /** What a loaded engine was given and has returned. */
  ghost predicate EngineFits(s: Loading, edges: seq<Edge<LinkDescription>>, load: Load, v: nat)
  {
    v in s.given && (forall x :: x in s.given[v] ==> x.Some?) &&
    Known(s, load(v, s.given[v])) && DescribedBy(s, edges, v, load(v, s.given[v]), |edges|)
  }

  /** The buffer of an edge: none yet, or the last match its source has returned. */
  ghost predicate EdgeFits(s: Loading, edges: seq<Edge<LinkDescription>>, load: Load, order: seq<nat>, n: nat, e: nat)
    requires n <= |order| && e < |edges| == |s.buffers|
  {
    var v := edges[e].source;
    if Done(order, n, v) then
      v in s.given &&
      var outs := load(v, s.given[v]);
      var m := LastMatch(outs, edges[e].property, |outs|);
      m >= 0 && s.buffers[e] == Some(outs[m].buffer)
    else s.buffers[e] == None
  }

  ghost predicate Inv(s: Loading, edges: seq<Edge<LinkDescription>>, load: Load, order: seq<nat>, n: nat)
  {
    n <= |order| && |s.buffers| == |edges| &&
    (forall v :: Done(order, n, v) ==> EngineFits(s, edges, load, v)) &&
    forall e :: 0 <= e < |edges| ==> EdgeFits(s, edges, load, order, n, e)
  }

  lemma {:induction false} InputsAreSet(s: Loading, edges: seq<Edge<LinkDescription>>, load: Load, order: seq<nat>,
        n: nat, k: nat)
    requires Inv(s, edges, load, order, n) && Topological(order, edges) && n < |order| && k <= |edges|
    ensures forall x :: x in Inputs(s.buffers, edges, order[n], k) ==> x.Some?
    decreases k
  {
    if k > 0 {
      InputsAreSet(s, edges, load, order, n, k - 1);
      if edges[k - 1].target == order[n] {
        SourceIsDone(order, edges, n, k - 1);
        assert EdgeFits(s, edges, load, order, n, k - 1);
      }
    }
  }

  lemma SourceIsDone(order: seq<nat>, edges: seq<Edge<LinkDescription>>, n: nat, e: nat)
    requires Topological(order, edges) && n < |order| && e < |edges| && edges[e].target == order[n]
    ensures Done(order, n, edges[e].source)
  {
    assert Precedes(order, edges[e].source, edges[e].target);
  }

  lemma NewOutputs(load: Load, v: nat, x: seq<Option<BufferId>>)
    requires New(load)
    ensures DistinctBuffers(load(v, x))
    ensures forall w, y, i, j :: w != v && 0 <= i < |load(v, x)| && 0 <= j < |load(w, y)| ==>
              load(v, x)[i].buffer != load(w, y)[j].buffer
  {
  }

  /** The engine that is loaded now. */
  lemma NewEngineFits(s: Loading, edges: seq<Edge<LinkDescription>>, load: Load, order: seq<nat>, n: nat)
    requires Inv(s, edges, load, order, n) && Topological(order, edges) && New(load) && n < |order|
    ensures EngineFits(LoadedOne(s, edges, load, order[n]), edges, load, order[n])
  {
    hide New, Topological, Connected, Inputs;
    var v := order[n];
    var inputs := Inputs(s.buffers, edges, v, |edges|);
    var outs := load(v, inputs);
    InputsAreSet(s, edges, load, order, n, |edges|);
    NewOutputs(load, v, inputs);
    DescribedIs(s.descriptions, outs);
    ConnectedDescriptions(s.(descriptions := Described(s.descriptions, outs), given := s.given[v := inputs]), edges,
      v, outs, |edges|);
  }

  /** The engines that were loaded before. */
  lemma OldEngineFits(s: Loading, edges: seq<Edge<LinkDescription>>, load: Load, order: seq<nat>, n: nat, w: nat)
    requires Inv(s, edges, load, order, n) && New(load) && n < |order| && w != order[n] && EngineFits(s, edges, load, w)
    ensures EngineFits(LoadedOne(s, edges, load, order[n]), edges, load, w)
  {
    hide New, Connected, Inputs;
    var v := order[n];
    var inputs := Inputs(s.buffers, edges, v, |edges|);
    var outs := load(v, inputs);
    NewOutputs(load, v, inputs);
    DescribedIs(s.descriptions, outs);
    ConnectedDescriptions(s.(descriptions := Described(s.descriptions, outs), given := s.given[v := inputs]), edges,
      v, outs, |edges|);
  }

  lemma EdgeFitsNext(s: Loading, edges: seq<Edge<LinkDescription>>, load: Load, order: seq<nat>, n: nat, e: nat)
    requires Inv(s, edges, load, order, n) && Topological(order, edges) && New(load) && Provides(load, edges)
    requires n < |order| && e < |edges|
    ensures EdgeFits(LoadedOne(s, edges, load, order[n]), edges, load, order, n + 1, e)
  {
    hide New, Topological, Connected, Inputs;
    var v := order[n];
    var inputs := Inputs(s.buffers, edges, v, |edges|);
    var outs := load(v, inputs);
    NewOutputs(load, v, inputs);
    DescribedIs(s.descriptions, outs);
    ConnectedBuffers(s.(descriptions := Described(s.descriptions, outs), given := s.given[v := inputs]), edges, v,
      outs, |edges|);
    assert EdgeFits(s, edges, load, order, n, e);
    assert Done(order, n + 1, edges[e].source) <==> Done(order, n, edges[e].source) || edges[e].source == v by {
      assert order[n] == v;
    }
    NotYetDone(order, edges, n);
  }

  lemma NotYetDone(order: seq<nat>, edges: seq<Edge<LinkDescription>>, n: nat)
    requires Topological(order, edges) && n < |order|
    ensures !Done(order, n, order[n])
  {
  }

  lemma {:induction false} LoadedInv(edges: seq<Edge<LinkDescription>>, load: Load, order: seq<nat>, n: nat)
    requires Topological(order, edges) && New(load) && Provides(load, edges) && n <= |order|
    ensures Inv(Loaded(Unloaded(edges), edges, load, order, n), edges, load, order, n)
  {
    hide New, Topological, Provides, EngineFits, EdgeFits, LoadedOne;
    if n == 0 {
      NothingLoaded(edges, load, order);
    } else {
      LoadedInv(edges, load, order, n - 1);
      var s := Loaded(Unloaded(edges), edges, load, order, n - 1);
      var t := LoadedOne(s, edges, load, order[n - 1]);
      forall w | Done(order, n, w) ensures EngineFits(t, edges, load, w) {
        if w == order[n - 1] {
          NewEngineFits(s, edges, load, order, n - 1);
        } else {
          assert Done(order, n - 1, w);
          OldEngineFits(s, edges, load, order, n - 1, w);
        }
      }
      forall e | 0 <= e < |edges| ensures EdgeFits(t, edges, load, order, n, e) {
        EdgeFitsNext(s, edges, load, order, n - 1, e);
      }
    }
  }

  lemma NothingLoaded(edges: seq<Edge<LinkDescription>>, load: Load, order: seq<nat>)
    ensures Inv(Unloaded(edges), edges, load, order, 0)
  {
  }

  /* ------------------------------------------------------------------ what follows ---- */

  /** Connecting an engine's outputs leaves the buffers of all other edges alone. */
  lemma {:induction false} MatchedOthers(s: Loading, edges: seq<Edge<LinkDescription>>, e: nat, outs: seq<Output>,
        k: nat)
    requires e < |edges| == |s.buffers| && k <= |outs| && Known(s, outs)
    ensures forall f :: 0 <= f < |edges| && f != e ==> Matched(s, edges, e, outs, k).buffers[f] == s.buffers[f]
  {
    if k > 0 { MatchedOthers(s, edges, e, outs, k - 1); }
  }

  lemma {:induction false} ConnectedOthers(s: Loading, edges: seq<Edge<LinkDescription>>, v: nat, outs: seq<Output>,
        n: nat)
    requires n <= |edges| == |s.buffers| && Known(s, outs)
    ensures forall f :: 0 <= f < |edges| && edges[f].source != v ==>
              Connected(s, edges, v, outs, n).buffers[f] == s.buffers[f]
  {
    hide Matched;
    if n > 0 {
      ConnectedOthers(s, edges, v, outs, n - 1);
      if edges[n - 1].source == v { MatchedOthers(Connected(s, edges, v, outs, n - 1), edges, n - 1, outs, |outs|); }
    }
  }

  lemma {:induction false} SameInputs(a: seq<Option<BufferId>>, b: seq<Option<BufferId>>,
        edges: seq<Edge<LinkDescription>>, v: nat, n: nat)
    requires n <= |edges| == |a| == |b| && forall e :: 0 <= e < n && edges[e].target == v ==> a[e] == b[e]
    ensures Inputs(a, edges, v, n) == Inputs(b, edges, v, n)
  {
    if n > 0 { SameInputs(a, b, edges, v, n - 1); }
  }

  /** No edge leads from the engine that is loaded now to itself or to one that was loaded before. */
  lemma NoWayBack(order: seq<nat>, edges: seq<Edge<LinkDescription>>, n: nat, w: nat, e: nat)
    requires Topological(order, edges) && n < |order| && Done(order, n + 1, w)
    requires e < |edges| && edges[e].target == w
    ensures edges[e].source != order[n]
  {
    assert Precedes(order, edges[e].source, edges[e].target);
    var k :| 0 <= k < n + 1 && order[k] == w;
  }

  /** What every loaded engine was given is what its incoming edges hold. */
  ghost predicate GivenFits(s: Loading, edges: seq<Edge<LinkDescription>>, order: seq<nat>, n: nat)
    requires n <= |order| && |s.buffers| == |edges|
  {
    forall v :: Done(order, n, v) ==> v in s.given && s.given[v] == Inputs(s.buffers, edges, v, |edges|)
  }

  lemma GivenStays(s: Loading, edges: seq<Edge<LinkDescription>>, load: Load, order: seq<nat>, n: nat, w: nat)
    requires n < |order| && |s.buffers| == |edges| && Topological(order, edges) && GivenFits(s, edges, order, n)
    requires Done(order, n + 1, w)
    ensures var t := LoadedOne(s, edges, load, order[n]);
            w in t.given && t.given[w] == Inputs(t.buffers, edges, w, |edges|)
  {
    hide Connected, Described;
    var (v, t) := (order[n], LoadedOne(s, edges, load, order[n]));
    var inputs := Inputs(s.buffers, edges, v, |edges|);
    var outs := load(v, inputs);
    ConnectedOthers(s.(descriptions := Described(s.descriptions, outs), given := s.given[v := inputs]), edges, v, outs,
                    |edges|);
    forall e | 0 <= e < |edges| && edges[e].target == w ensures t.buffers[e] == s.buffers[e] {
      NoWayBack(order, edges, n, w, e);
    }
    SameInputs(s.buffers, t.buffers, edges, w, |edges|);
    assert w != v ==> Done(order, n, w);
  }

  lemma {:induction false} LoadedGiven(edges: seq<Edge<LinkDescription>>, load: Load, order: seq<nat>, n: nat)
    requires Topological(order, edges) && n <= |order|
    ensures GivenFits(Loaded(Unloaded(edges), edges, load, order, n), edges, order, n)
  {
    hide Topological, LoadedOne, Inputs, Done;
    if n == 0 {
      NothingGiven(edges, order);
    } else {
      LoadedGiven(edges, load, order, n - 1);
      var s := Loaded(Unloaded(edges), edges, load, order, n - 1);
      forall w | Done(order, n, w)
        ensures var t := LoadedOne(s, edges, load, order[n - 1]);
                w in t.given && t.given[w] == Inputs(t.buffers, edges, w, |edges|)
      {
        GivenStays(s, edges, load, order, n - 1, w);
      }
    }
  }

  lemma NothingGiven(edges: seq<Edge<LinkDescription>>, order: seq<nat>)
    ensures GivenFits(Unloaded(edges), edges, order, 0)
  {
  }

  /** The positions of the incoming edges of engine v among the first n edges. */
  ghost predicate Incoming(edges: seq<Edge<LinkDescription>>, v: nat, n: nat, at: seq<nat>)
    requires n <= |edges|
  {
    (forall i, j :: 0 <= i < j < |at| ==> at[i] < at[j]) &&
    (forall i :: 0 <= i < |at| ==> at[i] < n && edges[at[i]].target == v) &&
    forall e :: 0 <= e < n && edges[e].target == v ==> e in at
  }

  lemma {:induction false} InputsByPosition(buffers: seq<Option<BufferId>>, edges: seq<Edge<LinkDescription>>, v: nat,
        n: nat)
    returns (at: seq<nat>)
    requires n <= |edges| == |buffers|
    ensures Incoming(edges, v, n, at)
    ensures var given := Inputs(buffers, edges, v, n);
            |given| == |at| && forall i :: 0 <= i < |at| ==> given[i] == buffers[at[i]]
  {
    hide Incoming;
    if n == 0 {
      at := [];
      NoneIncoming(edges, v);
    } else {
      at := InputsByPosition(buffers, edges, v, n - 1);
      OneMoreEdge(edges, v, n - 1, at);
      if edges[n - 1].target == v { at := at + [n - 1]; }
    }
  }

  lemma NoneIncoming(edges: seq<Edge<LinkDescription>>, v: nat)
    ensures Incoming(edges, v, 0, [])
  {
  }

  lemma OneMoreEdge(edges: seq<Edge<LinkDescription>>, v: nat, n: nat, at: seq<nat>)
    requires n < |edges| && Incoming(edges, v, n, at)
    ensures Incoming(edges, v, n + 1, if edges[n].target == v then at + [n] else at)
  {
    var more := at + [n];
    assert more[|at|] == n;
    assert forall e :: e in more <==> e in at || e == n;
  }

  /** Every engine is given one buffer for each of its incoming edges, in the order of the edges: the one that the
      edge has in the end. None is missing when the engines return what their links need. */
  lemma EveryInputIsGiven(edges: seq<Edge<LinkDescription>>, load: Load, order: seq<nat>, i: nat)
    returns (at: seq<nat>)
    requires Topological(order, edges) && i < |order|
    ensures Incoming(edges, order[i], |edges|, at)
    ensures var s := Loaded(Unloaded(edges), edges, load, order, |order|);
            order[i] in s.given &&
            var given := s.given[order[i]];
            |given| == |at| && (forall k :: 0 <= k < |at| ==> given[k] == s.buffers[at[k]]) &&
            (New(load) && Provides(load, edges) ==> forall x :: x in given ==> x.Some?)
  {
    hide Topological, New, Provides, Inputs, Incoming;
    var s := Loaded(Unloaded(edges), edges, load, order, |order|);
    LoadedGiven(edges, load, order, |order|);
    assert Done(order, |order|, order[i]);
    at := InputsByPosition(s.buffers, edges, order[i], |edges|);
    if New(load) && Provides(load, edges) { LoadedInv(edges, load, order, |order|); }
  }

  lemma {:induction false} SameMatch(outs: seq<Output>, a: LinkDescription, b: LinkDescription, k: nat)
    requires SameLink(a, b) && k <= |outs|
    ensures LastMatch(outs, a, k) == LastMatch(outs, b, k)
  {
    if k > 0 { SameMatch(outs, a, b, k - 1); }
  }

  /** Two edges share a buffer if and only if their links leave the same port of the same component; so
      every buffer has one reader exactly when no port has two external links. */
  lemma SharedIffSamePort(edges: seq<Edge<LinkDescription>>, load: Load, order: seq<nat>, e: nat, f: nat)
    requires Topological(order, edges) && New(load) && Provides(load, edges) && OwnComponents(edges)
    requires e < |edges| && f < |edges|
    ensures var s := Loaded(Unloaded(edges), edges, load, order, |order|);
            s.buffers[e].Some? &&
            (s.buffers[e] == s.buffers[f] <==>
             edges[e].property.sourceComponent == edges[f].property.sourceComponent &&
             edges[e].property.sourcePort == edges[f].property.sourcePort)
  {
    LoadedInv(edges, load, order, |order|);
    var s := Loaded(Unloaded(edges), edges, load, order, |order|);
    AllDone(order, edges, e);
    AllDone(order, edges, f);
    hide Topological, Provides, Loaded, EngineFits, Done;
    assert EdgeFits(s, edges, load, order, |order|, e) && EdgeFits(s, edges, load, order, |order|, f);
    if SameLink(edges[e].property, edges[f].property) {
      var outs := load(edges[e].source, s.given[edges[e].source]);
      SameMatch(outs, edges[e].property, edges[f].property, |outs|);
    }
  }

  lemma AllDone(order: seq<nat>, edges: seq<Edge<LinkDescription>>, e: nat)
    requires Topological(order, edges) && e < |edges|
    ensures Done(order, |order|, edges[e].source)
  {
    assert Precedes(order, edges[e].source, edges[e].target);
  }

  lemma {:induction false} SameLastEdge(edges: seq<Edge<LinkDescription>>, v: nat, a: LinkDescription,
        b: LinkDescription, n: nat)
    requires SameLink(a, b) && n <= |edges|
    ensures LastEdge(edges, v, a, n) == LastEdge(edges, v, b, n)
  {
    if n > 0 { SameLastEdge(edges, v, a, b, n - 1); }
  }

  /** The buffer of an edge is described by the last edge that leaves the same port, which is how the engine
      at its other end looks for it: every engine finds the buffer of a link by the link if no port has
      two. */
  lemma FoundByItsLink(edges: seq<Edge<LinkDescription>>, load: Load, order: seq<nat>, e: nat)
    requires Topological(order, edges) && New(load) && Provides(load, edges) && e < |edges|
    ensures var s, last := Loaded(Unloaded(edges), edges, load, order, |order|),
                           LastEdge(edges, edges[e].source, edges[e].property, |edges|);
            last >= e && s.buffers[e].Some? && s.buffers[e].value in s.descriptions &&
            s.descriptions[s.buffers[e].value] == edges[last].property
  {
    LoadedInv(edges, load, order, |order|);
    var s := Loaded(Unloaded(edges), edges, load, order, |order|);
    AllDone(order, edges, e);
    hide Topological, Provides, Loaded, Done, New;
    assert EdgeFits(s, edges, load, order, |order|, e) && EngineFits(s, edges, load, edges[e].source);
    var outs := load(edges[e].source, s.given[edges[e].source]);
    var m := LastMatch(outs, edges[e].property, |outs|);
    SameLastEdge(edges, edges[e].source, outs[m].link, edges[e].property, |edges|);
  }
}
