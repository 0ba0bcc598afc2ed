/** A turn of the engine's loop empties every internal buffer and processes what was written, once and in
    order. */
module PhyEngineLaws {
  import opened Wrappers
  import opened DataBuffer
  import opened PhyDataBuffer
  import PL = PhyDataBufferLaws
  import opened PhyEngine

  /** The order is topological: it lists no component twice, and each wire's source before its target. */
  ghost predicate Topological(order: seq<nat>, wires: seq<Wire>)
  {
    (forall i, j :: 0 <= i < j < |order| ==> order[i] != order[j]) &&
    forall e :: 0 <= e < |wires| ==> Precedes(order, wires[e].source, wires[e].target)
  }

  ghost predicate Precedes(order: seq<nat>, a: nat, b: nat)
  {
    exists i, j :: 0 <= i < j < |order| && order[i] == a && order[j] == b
  }

  /** The rule of the engine: no component has two internal inputs. */
  predicate OneInput(wires: seq<Wire>)
  {
    forall e, f :: 0 <= e < f < |wires| ==> wires[e].target != wires[f].target
  }

  /** The buffer on a wire is what the recorded writes have made of it. */
  ghost predicate Faithful<S, T>(r: Ring<T>, s: Engine<S, T>, e: nat)
    requires Sound(r) && e < |s.rings| && e < |s.written|
  {
    s.rings[e] == PL.WrittenAll(r, s.written[e])
  }

  /* -------------------------------------------------------------------- single steps ---- */

  lemma {:induction false} WrittenAllAppend<T>(r: Ring<T>, batch: seq<DataSet<T>>, x: DataSet<T>)
    requires Sound(r)
    ensures PL.WrittenAll(r, batch + [x]) == Written(PL.WrittenAll(r, batch), x)
  {
    PL.WrittenAllSplits(r, batch, [x]);
    var n := PL.WrittenAll(r, batch);
    assert PL.WrittenAll(n, [x]) == PL.WrittenAll(Written(n, x), [x][1..]);
  }

  lemma {:induction false} PutIsFaithful<S, T>(s: Engine<S, T>, ws: seq<Write<T>>, wires: seq<Wire>, r: Ring<T>, e: nat)
    requires Fits(s, wires) && forall k :: 0 <= k < |ws| ==> ws[k].wire < |wires|
    requires Sound(r) && e < |wires| && Faithful(r, s, e)
    ensures Faithful(r, Put(s, ws, wires), e)
    decreases |ws|
  {
    if |ws| > 0 {
      PutIsFaithful(s, ws[..|ws| - 1], wires, r, e);
      var b := Put(s, ws[..|ws| - 1], wires);
      WrittenAllAppend(r, b.written[e], ws[|ws| - 1].set_);
    }
  }

  /** One call of process: it reads its set and otherwise only writes to its own outgoing wires. */
  lemma DoneStep<S(!new), T(!new)>(s: Engine<S, T>, process: Process<S, T>, v: nat, input: Option<nat>,
        wires: seq<Wire>,
                                   r: Ring<T>, f: nat)
    requires Runs(s, process, wires) && v < |s.locals| && (input.Some? ==> input.value < |wires|)
    requires Sound(r) && f < |wires| && input != Some(f)
    ensures var n := Done(s, process, v, input, wires);
            (Faithful(r, s, f) ==> Faithful(r, n, f)) &&
            (wires[f].source != v ==> n.rings[f] == s.rings[f] && n.written[f] == s.written[f])
  {
    hide Put, PL.WrittenAll, ReadOne;
    var (d, t) := Taken(s, v, input, wires);
    var (l, ws) := process(v, s.locals[v], d);
    var u := t.(locals := t.locals[v := l]);
    if Faithful(r, s, f) { PutIsFaithful(u, ws, wires, r, f); }
  }

  lemma DoneProcessed<S(!new), T(!new)>(s: Engine<S, T>, process: Process<S, T>, v: nat, input: Option<nat>,
        wires: seq<Wire>)
    requires Runs(s, process, wires) && v < |s.locals| && (input.Some? ==> input.value < |wires|)
    ensures Done(s, process, v, input, wires).processed ==
            if input == None then s.processed
            else s.processed[v := s.processed[v] + [s.rings[input.value].slots[s.rings[input.value].readIndex]]]
  {
  }

  /* ------------------------------------------------------------------------- draining ---- */

  lemma {:induction false} DrainOther<S(!new), T(!new)>(s: Engine<S, T>, process: Process<S, T>, e: nat,
        wires: seq<Wire>,
                                                       r: Ring<T>, f: nat)
    requires Runs(s, process, wires) && e < |wires| && wires[e].source != wires[e].target
    requires Sound(r) && f < |wires| && f != e
    ensures var n := Drain(s, process, e, wires);
            (Faithful(r, s, f) ==> Faithful(r, n, f)) &&
            (wires[f].source != wires[e].target ==> n.rings[f] == s.rings[f] && n.written[f] == s.written[f])
    decreases Left(s.rings[e])
  {
    hide Done, Faithful;
    if s.rings[e].notEmpty {
      OneLess(s, process, e, wires);
      DoneStep(s, process, wires[e].target, Some(e), wires, r, f);
      DrainOther(Done(s, process, wires[e].target, Some(e), wires), process, e, wires, r, f);
    }
  }

  /** Draining a wire reads its buffer to the end into its target. */
  lemma {:induction false} DrainReads<S(!new), T(!new)>(s: Engine<S, T>, process: Process<S, T>, e: nat,
        wires: seq<Wire>)
    requires Runs(s, process, wires) && e < |wires| && wires[e].source != wires[e].target
    ensures var (n, v) := (Drain(s, process, e, wires), wires[e].target);
            n.rings[e] == AfterDrain(s.rings[e]) && n.written[e] == s.written[e] &&
            n.processed == s.processed[v := s.processed[v] + Drained(s.rings[e])]
    decreases Left(s.rings[e])
  {
    hide Done;
    var v := wires[e].target;
    if s.rings[e].notEmpty {
      OneLess(s, process, e, wires);
      DoneProcessed(s, process, v, Some(e), wires);
      DrainReads(Done(s, process, v, Some(e), wires), process, e, wires);
      Shift(s.processed[v], s.rings[e].slots[s.rings[e].readIndex], Drained(ReadOne(s.rings[e])));
    } else {
      assert s.processed[v] + [] == s.processed[v];
    }
  }

  /* ------------------------------------------------------------------------- the turn ---- */

  ghost predicate Turned(order: seq<nat>, n: nat, v: nat)
    requires n <= |order|
  {
    exists i :: 0 <= i < n && order[i] == v
  }

  /** Where a wire stands when the first n components have had their turn. */
  ghost predicate WireFits<S, T>(start: Engine<S, T>, s: Engine<S, T>, order: seq<nat>, n: nat, wires: seq<Wire>,
        e: nat)
    requires Fits(start, wires) && Fits(s, wires) && |s.locals| == |start.locals| && n <= |order| && e < |wires|
  {
    var written := PL.WrittenAll(start.rings[e], s.written[e]);
    if Turned(order, n, wires[e].target) then
      s.rings[e] == AfterDrain(written) && s.processed[wires[e].target] == Drained(written)
    else s.rings[e] == written && s.processed[wires[e].target] == []
  }

  ghost predicate AllWiresFit<S, T>(start: Engine<S, T>, s: Engine<S, T>, order: seq<nat>, n: nat, wires: seq<Wire>)
    requires Fits(start, wires) && Fits(s, wires) && |s.locals| == |start.locals| && n <= |order|
  {
    forall e :: 0 <= e < |wires| ==> WireFits(start, s, order, n, wires, e)
  }

  /** Nothing is recorded yet. */
  ghost predicate Clean<S, T>(s: Engine<S, T>)
  {
    (forall v :: 0 <= v < |s.processed| ==> s.processed[v] == []) &&
    forall e :: 0 <= e < |s.written| ==> s.written[e] == []
  }

  lemma StartFits<S, T>(s: Engine<S, T>, order: seq<nat>, wires: seq<Wire>)
    requires Fits(s, wires) && Clean(s)
    ensures AllWiresFit(s, s, order, 0, wires)
  {
  }

  /** A wire whose target has had its turn has a source that had its turn, and the next component is neither. */
  lemma DoneWireIsDone(order: seq<nat>, n: nat, wires: seq<Wire>, e: nat)
    requires Topological(order, wires) && n < |order| && e < |wires|
    ensures wires[e].source != wires[e].target
    ensures Turned(order, n, wires[e].target) ==> wires[e].source != order[n] && wires[e].target != order[n]
    ensures Turned(order, n + 1, wires[e].target) <==> Turned(order, n, wires[e].target) || wires[e].target == order[n]
    ensures n == 0 ==> wires[e].target != order[0]
  {
    assert Precedes(order, wires[e].source, wires[e].target);
    var i, j :| 0 <= i < j < |order| && order[i] == wires[e].source && order[j] == wires[e].target;
    if Turned(order, n, wires[e].target) {
      var k :| 0 <= k < n && order[k] == wires[e].target;
      assert k == j;
    }
    assert order[n] == order[n];
  }

  lemma FirstTurn<S(!new), T(!new)>(start: Engine<S, T>, process: Process<S, T>, order: seq<nat>, wires: seq<Wire>,
        e: nat)
    requires Runs(start, process, wires) && Topological(order, wires) && Clean(start)
    requires |order| > 0 && order[0] < |start.locals| && e < |wires|
    ensures WireFits(start, Done(start, process, order[0], None, wires), order, 1, wires, e)
  {
    hide Done, Topological;
    DoneWireIsDone(order, 0, wires, e);
    DoneStep(start, process, order[0], None, wires, start.rings[e], e);
    DoneProcessed(start, process, order[0], None, wires);
    assert !Turned(order, 0, wires[e].target);
  }

  /** The turn of a component brings its own input, if it has one, to the drained state. */
  lemma DrainOneFits<S(!new), T(!new)>(start: Engine<S, T>, s: Engine<S, T>, process: Process<S, T>,
        order: seq<nat>, n: nat,
                                       wires: seq<Wire>, e: nat, f: nat)
    requires Fits(start, wires) && Runs(s, process, wires) && |s.locals| == |start.locals| && n < |order|
    requires Topological(order, wires) && OneInput(wires)
    requires e < |wires| && f < |wires| && wires[e].target == order[n]
    requires WireFits(start, s, order, n, wires, e) && WireFits(start, s, order, n, wires, f)
    ensures wires[e].source != wires[e].target
    ensures WireFits(start, Drain(s, process, e, wires), order, n + 1, wires, f)
  {
    hide Topological, Drain, AfterDrain, Drained;
    DoneWireIsDone(order, n, wires, e);
    DoneWireIsDone(order, n, wires, f);
    DrainReads(s, process, e, wires);
    if f == e {
      assert !Turned(order, n, wires[e].target);
      assert [] + Drained(s.rings[e]) == Drained(s.rings[e]);
    } else {
      DrainOther(s, process, e, wires, start.rings[f], f);
    }
  }

  lemma {:induction false} NoInputs<S(!new), T(!new)>(s: Engine<S, T>, process: Process<S, T>, v: nat,
        wires: seq<Wire>, e: nat)
    requires Runs(s, process, wires) && NoLoops(wires) && e <= |wires|
    requires forall g :: e <= g < |wires| ==> wires[g].target != v
    ensures DrainInputs(s, process, v, wires, e) == s
    decreases |wires| - e
  {
    if e < |wires| { NoInputs(s, process, v, wires, e + 1); }
  }

  /** With one input the loop over the incoming wires drains that one. */
  lemma {:induction false} OneInputDrained<S(!new), T(!new)>(s: Engine<S, T>, process: Process<S, T>,
        wires: seq<Wire>, e: nat, own: nat)
    requires Runs(s, process, wires) && NoLoops(wires) && OneInput(wires) && e <= own < |wires|
    ensures DrainInputs(s, process, wires[own].target, wires, e) == Drain(s, process, own, wires)
    decreases |wires| - e
  {
    if e < own {
      OneInputDrained(s, process, wires, e + 1, own);
    } else {
      NoInputs(Drain(s, process, own, wires), process, wires[own].target, wires, own + 1);
    }
  }

  lemma TurnOfOne<S(!new), T(!new)>(start: Engine<S, T>, s: Engine<S, T>, process: Process<S, T>, order: seq<nat>,
        n: nat,
                                    wires: seq<Wire>, f: nat)
    requires Fits(start, wires) && Runs(s, process, wires) && |s.locals| == |start.locals| && 0 < n < |order|
    requires Topological(order, wires) && OneInput(wires) && NoLoops(wires) && f < |wires|
    requires AllWiresFit(start, s, order, n, wires)
    ensures WireFits(start, DrainInputs(s, process, order[n], wires), order, n + 1, wires, f)
  {
    hide Topological, Drain, DrainInputs, WireFits;
    if own :| 0 <= own < |wires| && wires[own].target == order[n] {
      OneInputDrained(s, process, wires, 0, own);
      DrainOneFits(start, s, process, order, n, wires, own, f);
    } else {
      NoInputs(s, process, order[n], wires, 0);
      SameWhenUntouched(start, s, order, n, wires, f);
    }
  }

  lemma SameWhenUntouched<S, T>(start: Engine<S, T>, s: Engine<S, T>, order: seq<nat>, n: nat, wires: seq<Wire>, f: nat)
    requires Fits(start, wires) && Fits(s, wires) && |s.locals| == |start.locals| && n < |order| && f < |wires|
    requires Topological(order, wires) && wires[f].target != order[n] && WireFits(start, s, order, n, wires, f)
    ensures WireFits(start, s, order, n + 1, wires, f)
  {
    hide Topological;
    DoneWireIsDone(order, n, wires, f);
  }

  lemma {:induction false} TurnFits<S(!new), T(!new)>(start: Engine<S, T>, process: Process<S, T>, order: seq<nat>,
        n: nat,
                                                     wires: seq<Wire>)
    requires Runs(start, process, wires) && Topological(order, wires) && OneInput(wires) && NoLoops(wires) &&
             Clean(start)
    requires n <= |order| && forall i :: 0 <= i < |order| ==> order[i] < |start.locals|
    ensures AllWiresFit(start, Turn(start, process, order, n, wires), order, n, wires)
    decreases n
  {
    hide Topological, WireFits, Drain, DrainInputs, Done, Obeys, Fits;
    if n == 0 {
      StartFits(start, order, wires);
    } else {
      TurnFits(start, process, order, n - 1, wires);
      var b := Turn(start, process, order, n - 1, wires);
      forall f | 0 <= f < |wires| ensures WireFits(start, Turn(start, process, order, n, wires), order, n, wires, f) {
        if n == 1 {
          FirstTurn(start, process, order, wires, f);
        } else {
          TurnOfOne(start, b, process, order, n - 1, wires, f);
        }
      }
    }
  }

  /** All internal buffers are empty, and in order. */
  predicate AllEmpty<S, T>(s: Engine<S, T>)
  {
    forall e :: 0 <= e < |s.rings| ==> FlagsFit(s.rings[e]) && !s.rings[e].notEmpty
  }

  /** A turn that starts with empty buffers ends with empty buffers; and what a component has processed is
      exactly what was written to its buffer in this turn, in order, if and only if that fitted into the
      buffer or the buffer's read index was 0. */
  lemma TurnDrainsEverything<S(!new), T(!new)>(start: Engine<S, T>, process: Process<S, T>, order: seq<nat>,
        wires: seq<Wire>,
                                               e: nat)
    requires Runs(start, process, wires) && Topological(order, wires) && OneInput(wires) && NoLoops(wires)
    requires Clean(start) && AllEmpty(start) && e < |wires|
    requires forall i :: 0 <= i < |order| ==> order[i] < |start.locals|
    ensures var n := Turn(start, process, order, |order|, wires);
            FlagsFit(n.rings[e]) && !n.rings[e].notEmpty &&
            (n.processed[wires[e].target] == n.written[e] <==>
             |n.written[e]| <= |start.rings[e].slots| || start.rings[e].readIndex == 0)
  {
    hide Turn, Obeys, AfterDrain, Drained;
    TurnFits(start, process, order, |order|, wires);
    var n := Turn(start, process, order, |order|, wires);
    assert Precedes(order, wires[e].source, wires[e].target);
    assert Turned(order, |order|, wires[e].target);
    assert WireFits(start, n, order, |order|, wires, e);
    PL.RoundReadsBack(start.rings[e], n.written[e]);
  }

  /* ----------------------------------------------------------------- what a turn computes ---- */

  /** The state of component v after it was called with these sets one after the other. */
  function StateAfter<S, T>(process: Process<S, T>, v: nat, s: S, inputs: seq<Option<DataSet<T>>>): S
    decreases |inputs|
  {
    if |inputs| == 0 then s
    else process(v, StateAfter(process, v, s, inputs[..|inputs| - 1]), inputs[|inputs| - 1]).0
  }

  /** What goes to wire e of a list of writes. */
  function To<T>(ws: seq<Write<T>>, e: nat): seq<DataSet<T>>
    decreases |ws|
  {
    if |ws| == 0 then []
    else To(ws[..|ws| - 1], e) + if ws[|ws| - 1].wire == e then [ws[|ws| - 1].set_] else []
  }

  /** What these calls of component v write to wire e, call by call. */
  function WrittenBy<S, T>(process: Process<S, T>, v: nat, s: S, inputs: seq<Option<DataSet<T>>>, e: nat):
    seq<DataSet<T>>
    decreases |inputs|
  {
    if |inputs| == 0 then []
    else
      WrittenBy(process, v, s, inputs[..|inputs| - 1], e) +
      To(process(v, StateAfter(process, v, s, inputs[..|inputs| - 1]), inputs[|inputs| - 1]).1, e)
  }

  /** The calls of a component: one for each set it reads, and the first component is called once without. */
  function Calls<T>(first: bool, sets: seq<DataSet<T>>): seq<Option<DataSet<T>>> {
    (if first then [None] else []) + Somes(sets)
  }

  function Somes<T>(sets: seq<DataSet<T>>): (r: seq<Option<DataSet<T>>>)
    ensures |r| == |sets|
    ensures forall i :: 0 <= i < |r| ==> r[i] == Some(sets[i])
  {
    seq(|sets|, i requires 0 <= i < |sets| => Some(sets[i]))
  }

  /** The state of component v and what is on its outgoing wires come from exactly these calls. */
  ghost predicate Explained<S, T>(start: Engine<S, T>, s: Engine<S, T>, process: Process<S, T>, wires: seq<Wire>,
        v: nat, calls: seq<Option<DataSet<T>>>)
    requires Fits(start, wires) && Fits(s, wires) && |s.locals| == |start.locals| && v < |s.locals|
  {
    s.locals[v] == StateAfter(process, v, start.locals[v], calls) &&
    forall e :: 0 <= e < |wires| && wires[e].source == v ==>
      s.written[e] == WrittenBy(process, v, start.locals[v], calls, e)
  }

  lemma {:induction false} PutWrites<S, T>(s: Engine<S, T>, ws: seq<Write<T>>, wires: seq<Wire>, e: nat)
    requires Fits(s, wires) && (forall k :: 0 <= k < |ws| ==> ws[k].wire < |wires|) && e < |wires|
    ensures Put(s, ws, wires).written[e] == s.written[e] + To(ws, e)
    decreases |ws|
  {
    hide Written;
    if |ws| > 0 { PutWrites(s, ws[..|ws| - 1], wires, e); }
  }

  lemma CallsGrow<T>(first: bool, sets: seq<DataSet<T>>, d: DataSet<T>)
    ensures Calls(first, sets + [d]) == Calls(first, sets) + [Some(d)]
  {
  }

  /** One more call of component u explains component u with that call and leaves the others explained. */
  lemma DoneExplains<S(!new), T(!new)>(start: Engine<S, T>, s: Engine<S, T>, process: Process<S, T>, u: nat,
        input: Option<nat>, wires: seq<Wire>, v: nat, calls: seq<Option<DataSet<T>>>)
    requires Fits(start, wires) && Runs(s, process, wires) && |s.locals| == |start.locals|
    requires u < |s.locals| && v < |s.locals| && (input.Some? ==> input.value < |wires|)
    requires Explained(start, s, process, wires, v, calls)
    ensures Explained(start, Done(s, process, u, input, wires), process, wires, v,
                      if u == v then calls + [Taken(s, u, input, wires).0] else calls)
  {
    hide Put, ReadOne, Sound;
    var (d, t) := Taken(s, u, input, wires);
    var (l, ws) := process(u, s.locals[u], d);
    var m := t.(locals := t.locals[u := l]);
    var more := calls + [d];
    assert more[..|more| - 1] == calls;
    forall e | 0 <= e < |wires| && wires[e].source == v
      ensures u == v ==> Put(m, ws, wires).written[e] == WrittenBy(process, v, start.locals[v], more, e)
      ensures u != v ==> Put(m, ws, wires).written[e] == s.written[e]
    {
      if u == v { PutWrites(m, ws, wires, e); }
    }
  }

  lemma {:induction false} DrainExplains<S(!new), T(!new)>(start: Engine<S, T>, s: Engine<S, T>,
        process: Process<S, T>, e: nat, wires: seq<Wire>, v: nat, first: bool)
    requires Fits(start, wires) && Runs(s, process, wires) && |s.locals| == |start.locals| && v < |s.locals|
    requires e < |wires| && wires[e].source != wires[e].target
    requires Explained(start, s, process, wires, v, Calls(first, s.processed[v]))
    ensures var n := Drain(s, process, e, wires); Explained(start, n, process, wires, v, Calls(first, n.processed[v]))
    ensures v != wires[e].target ==> Drain(s, process, e, wires).processed[v] == s.processed[v]
    decreases Left(s.rings[e])
  {
    hide Done, Explained, Calls;
    if s.rings[e].notEmpty {
      var u := wires[e].target;
      OneLess(s, process, e, wires);
      DoneProcessed(s, process, u, Some(e), wires);
      DoneExplains(start, s, process, u, Some(e), wires, v, Calls(first, s.processed[v]));
      if u == v { CallsGrow(first, s.processed[v], s.rings[e].slots[s.rings[e].readIndex]); }
      DrainExplains(start, Done(s, process, u, Some(e), wires), process, e, wires, v, first);
    }
  }

  lemma {:induction false} InputsExplain<S(!new), T(!new)>(start: Engine<S, T>, s: Engine<S, T>,
        process: Process<S, T>, u: nat, wires: seq<Wire>, e: nat, v: nat, first: bool)
    requires Fits(start, wires) && Runs(s, process, wires) && |s.locals| == |start.locals| && v < |s.locals|
    requires NoLoops(wires) && e <= |wires|
    requires Explained(start, s, process, wires, v, Calls(first, s.processed[v]))
    ensures var n := DrainInputs(s, process, u, wires, e);
            Explained(start, n, process, wires, v, Calls(first, n.processed[v]))
    ensures (forall f :: 0 <= f < |wires| ==> wires[f].target != v) ==>
              DrainInputs(s, process, u, wires, e).processed[v] == s.processed[v]
    decreases |wires| - e
  {
    hide Drain, Explained, Calls;
    if e < |wires| {
      if wires[e].target == u {
        DrainExplains(start, s, process, e, wires, v, first);
        InputsExplain(start, Drain(s, process, e, wires), process, u, wires, e + 1, v, first);
      } else {
        InputsExplain(start, s, process, u, wires, e + 1, v, first);
      }
    }
  }

  lemma {:induction false} TurnExplains<S(!new), T(!new)>(start: Engine<S, T>, process: Process<S, T>,
        order: seq<nat>, n: nat, wires: seq<Wire>, v: nat)
    requires Runs(start, process, wires) && NoLoops(wires) && Clean(start) && v < |start.locals|
    requires n <= |order| && forall i :: 0 <= i < |order| ==> order[i] < |start.locals|
    ensures var t := Turn(start, process, order, n, wires);
            Explained(start, t, process, wires, v, Calls(n > 0 && v == order[0], t.processed[v])) &&
            ((forall f :: 0 <= f < |wires| ==> wires[f].target != v) ==> t.processed[v] == [])
    decreases n
  {
    hide Done, Drain, DrainInputs;
    if n > 0 {
      TurnExplains(start, process, order, n - 1, wires, v);
      var b := Turn(start, process, order, n - 1, wires);
      if n == 1 {
        DoneExplains(start, b, process, order[0], None, wires, v, []);
        DoneProcessed(start, process, order[0], None, wires);
        assert [] + [None] == Calls<T>(true, []);
      } else {
        hide Explained, Calls;
        InputsExplain(start, b, process, order[n - 1], wires, 0, v, v == order[0]);
      }
    }
  }

  /** What a turn from b to n computes. The first component has been called once, without input; every other
      once for each set it has read, in order, each call in the state the one before it has left. A buffer was
      given exactly what these calls of the component before it write to it, in order. */
  ghost predicate Computes<S, T>(b: Engine<S, T>, n: Engine<S, T>, process: Process<S, T>, order: seq<nat>,
        wires: seq<Wire>)
    requires Fits(b, wires) && Fits(n, wires) && |n.locals| == |b.locals|
    requires |order| > 0 && order[0] < |b.locals|
  {
    var first := order[0];
    n.locals[first] == process(first, b.locals[first], None).0 &&
    (forall v :: 0 <= v < |n.locals| && v != first ==>
       n.locals[v] == StateAfter(process, v, b.locals[v], Somes(n.processed[v]))) &&
    forall e :: 0 <= e < |wires| ==>
      var v := wires[e].source;
      n.written[e] == if v == first then To(process(first, b.locals[first], None).1, e)
                      else WrittenBy(process, v, b.locals[v], Somes(n.processed[v]), e)
  }

  /** The calls of component v in a turn that ends in n. */
  ghost function CallsIn<S, T>(order: seq<nat>, n: Engine<S, T>, v: nat): seq<Option<DataSet<T>>>
    requires |order| > 0 && v < |n.processed|
  {
    if v == order[0] then [None] else Somes(n.processed[v])
  }

  lemma FirstHasNoInput(order: seq<nat>, wires: seq<Wire>)
    requires Topological(order, wires) && |order| > 0
    ensures forall f :: 0 <= f < |wires| ==> wires[f].target != order[0]
  {
    hide Topological;
    forall f | 0 <= f < |wires| ensures wires[f].target != order[0] { DoneWireIsDone(order, 0, wires, f); }
  }

  /** One call without input: its state and what it writes. */
  lemma OneCall<S, T>(process: Process<S, T>, v: nat, s: S, e: nat)
    ensures StateAfter(process, v, s, [None]) == process(v, s, None).0
    ensures WrittenBy(process, v, s, [None], e) == To(process(v, s, None).1, e)
  {
    var calls: seq<Option<DataSet<T>>> := [None];
    assert calls[..|calls| - 1] == [];
    assert StateAfter(process, v, s, calls[..|calls| - 1]) == s;
    assert WrittenBy(process, v, s, calls[..|calls| - 1], e) == [];
  }

  lemma CallsOfOne<T>(first: bool, sets: seq<DataSet<T>>)
    requires first ==> sets == []
    ensures Calls(first, sets) == if first then [None] else Somes(sets)
  {
    assert !first ==> [] + Somes(sets) == Somes(sets);
    assert first ==> [None] + Somes(sets) == [None];
  }

  lemma TurnCalls<S(!new), T(!new)>(start: Engine<S, T>, process: Process<S, T>, order: seq<nat>,
        wires: seq<Wire>, v: nat)
    requires Runs(start, process, wires) && Topological(order, wires) && NoLoops(wires) && Clean(start)
    requires |order| > 0 && forall i :: 0 <= i < |order| ==> order[i] < |start.locals|
    requires v < |start.locals|
    ensures var n := Turn(start, process, order, |order|, wires);
            Explained(start, n, process, wires, v, CallsIn(order, n, v))
  {
    hide Turn, Topological, Obeys, Explained, Calls, Somes, Sound;
    FirstHasNoInput(order, wires);
    TurnExplains(start, process, order, |order|, wires, v);
    CallsOfOne(v == order[0], Turn(start, process, order, |order|, wires).processed[v]);
  }

  lemma CallsCompute<S, T>(b: Engine<S, T>, n: Engine<S, T>, process: Process<S, T>, order: seq<nat>,
        wires: seq<Wire>)
    requires Fits(b, wires) && Fits(n, wires) && |n.locals| == |b.locals|
    requires |order| > 0 && order[0] < |b.locals|
    requires forall v: nat :: v < |n.locals| ==>
               Explained(b, n, process, wires, v, CallsIn(order, n, v))
    ensures Computes(b, n, process, order, wires)
  {
    hide To, StateAfter, WrittenBy, Somes, Explained, Sound;
    var first := order[0];
    forall v: nat | v < |n.locals|
      ensures n.locals[v] == if v == first then process(first, b.locals[first], None).0
                             else StateAfter(process, v, b.locals[v], Somes(n.processed[v]))
    {
      ExplainedState(b, n, process, wires, v, CallsIn(order, n, v));
      OneCall(process, first, b.locals[first], 0);
    }
    forall e | 0 <= e < |wires|
      ensures var v := wires[e].source;
              n.written[e] == if v == first then To(process(first, b.locals[first], None).1, e)
                              else WrittenBy(process, v, b.locals[v], Somes(n.processed[v]), e)
    {
      var v := wires[e].source;
      ExplainedWire(b, n, process, wires, v, CallsIn(order, n, v), e);
      OneCall(process, first, b.locals[first], e);
    }
  }

  lemma ExplainedState<S, T>(b: Engine<S, T>, n: Engine<S, T>, process: Process<S, T>, wires: seq<Wire>, v: nat,
        calls: seq<Option<DataSet<T>>>)
    requires Fits(b, wires) && Fits(n, wires) && |n.locals| == |b.locals| && v < |n.locals|
    requires Explained(b, n, process, wires, v, calls)
    ensures n.locals[v] == StateAfter(process, v, b.locals[v], calls)
  {
  }

  lemma ExplainedWire<S, T>(b: Engine<S, T>, n: Engine<S, T>, process: Process<S, T>, wires: seq<Wire>, v: nat,
        calls: seq<Option<DataSet<T>>>, e: nat)
    requires Fits(b, wires) && Fits(n, wires) && |n.locals| == |b.locals| && v < |n.locals|
    requires Explained(b, n, process, wires, v, calls) && e < |wires| && wires[e].source == v
    ensures n.written[e] == WrittenBy(process, v, b.locals[v], calls, e)
  {
  }

  /** A turn calls every component, with what it reads and in the state it is in, and passes on what it
      writes. */
  lemma TurnComputes<S(!new), T(!new)>(start: Engine<S, T>, process: Process<S, T>, order: seq<nat>,
        wires: seq<Wire>)
    requires Runs(start, process, wires) && Topological(order, wires) && NoLoops(wires) && Clean(start)
    requires |order| > 0 && forall i :: 0 <= i < |order| ==> order[i] < |start.locals|
    ensures Computes(start, Turn(start, process, order, |order|, wires), process, order, wires)
  {
    var n := Turn(start, process, order, |order|, wires);
    hide Turn, Topological, Obeys, Explained, To, StateAfter, WrittenBy, Calls, Somes, Clean;
    forall v: nat | v < |start.locals|
      ensures Explained(start, n, process, wires, v, CallsIn(order, n, v))
    {
      TurnCalls(start, process, order, wires, v);
    }
    CallsCompute(start, n, process, order, wires);
  }

  /** The records of a turn are put away before the next. */
  function Cleared<S, T>(s: Engine<S, T>): (n: Engine<S, T>)
    ensures |n.processed| == |s.processed| && |n.written| == |s.written|
  {
    s.(processed := seq(|s.processed|, _ => []), written := seq(|s.written|, _ => []))
  }

  function Turns<S(!new), T(!new)>(s: Engine<S, T>, process: Process<S, T>, order: seq<nat>, k: nat, wires: seq<Wire>):
    (n: Engine<S, T>)
    requires Runs(s, process, wires) && NoLoops(wires)
    requires forall i :: 0 <= i < |order| ==> order[i] < |s.locals|
    ensures Fits(n, wires) && |n.locals| == |s.locals|
    decreases k
  {
    if k == 0 then s else Turn(Cleared(Turns(s, process, order, k - 1, wires)), process, order, |order|, wires)
  }

  /** In every turn, however many went before it, every component is called as it should be. */
  lemma EveryTurnComputes<S(!new), T(!new)>(start: Engine<S, T>, process: Process<S, T>, order: seq<nat>, k: nat,
        wires: seq<Wire>)
    requires Runs(start, process, wires) && Topological(order, wires) && NoLoops(wires)
    requires |order| > 0 && k > 0 && forall i :: 0 <= i < |order| ==> order[i] < |start.locals|
    ensures Computes(Turns(start, process, order, k - 1, wires), Turns(start, process, order, k, wires), process,
                     order, wires)
  {
    hide Turn, Topological, Obeys, To, StateAfter, WrittenBy, Sound;
    TurnComputes(Cleared(Turns(start, process, order, k - 1, wires)), process, order, wires);
  }

  /** However often the engine's loop goes round, it never leaves anything in a buffer, and in every turn a
      component processes exactly what the turn wrote to its buffer, if and only if that fitted or the read
      index was 0 when the turn began. */
  lemma {:induction false} EveryTurnDrains<S(!new), T(!new)>(start: Engine<S, T>, process: Process<S, T>,
        order: seq<nat>, k: nat, wires: seq<Wire>)
    requires Runs(start, process, wires) && Topological(order, wires) && OneInput(wires) && NoLoops(wires) &&
             AllEmpty(start)
    requires forall i :: 0 <= i < |order| ==> order[i] < |start.locals|
    ensures AllEmpty(Turns(start, process, order, k, wires))
    ensures k > 0 ==>
              ReadsBack(Turns(start, process, order, k - 1, wires), Turns(start, process, order, k, wires), wires)
    decreases k
  {
    hide Topological, Turn, Obeys;
    if k > 0 {
      EveryTurnDrains(start, process, order, k - 1, wires);
      var b := Cleared(Turns(start, process, order, k - 1, wires));
      var n := Turn(b, process, order, |order|, wires);
      forall e | 0 <= e < |wires|
        ensures FlagsFit(n.rings[e]) && !n.rings[e].notEmpty
        ensures n.processed[wires[e].target] == n.written[e] <==>
                |n.written[e]| <= |b.rings[e].slots| || b.rings[e].readIndex == 0
      {
        TurnDrainsEverything(b, process, order, wires, e);
      }
    }
  }

  /** In a turn from b to n, what was processed behind each wire is what was written to it, if and only if
      it could be. */
  predicate ReadsBack<S, T(==)>(b: Engine<S, T>, n: Engine<S, T>, wires: seq<Wire>)
    requires Fits(b, wires) && Fits(n, wires)
  {
    forall e :: 0 <= e < |wires| ==>
      (n.processed[wires[e].target] == n.written[e] <==>
       |n.written[e]| <= |b.rings[e].slots| || b.rings[e].readIndex == 0)
  }
}
