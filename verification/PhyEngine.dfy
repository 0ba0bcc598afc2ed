/** One turn of the main loop of a PHY engine (src/engines/phyengine/PhyEngine.cpp:155-174): the first
    component of the topological order is processed once, every other as long as its input buffer has data.

    The components are black boxes: a call of process is a function of the component's own state and of the
    set it reads, and yields the new state and the sets it writes. */
module PhyEngine {
  import opened Wrappers
  import opened DataBuffer
  import opened PhyDataBuffer

  /** An internal link from one component to another. */
  datatype Wire = Wire(source: nat, target: nat)

  datatype Write<T> = Write(wire: nat, set_: DataSet<T>)

  type Process<!S, !T> = (nat, S, Option<DataSet<T>>) -> (S, seq<Write<T>>)

  /** The states of the components and of the buffers on the wires. `processed` records what each component
      has read, `written` what has been written to each buffer. */
  datatype Engine<S, T> = Engine(
    locals: seq<S>,
    rings: seq<Ring<T>>,
    processed: seq<seq<DataSet<T>>>,
    written: seq<seq<DataSet<T>>>)

  predicate Sound<T>(r: Ring<T>)
  {
    r.readIndex < |r.slots| && r.writeIndex < |r.slots|
  }

  predicate Fits<S, T>(s: Engine<S, T>, wires: seq<Wire>)
  {
    |s.rings| == |s.written| == |wires| && |s.processed| == |s.locals| &&
    (forall e :: 0 <= e < |s.rings| ==> Sound(s.rings[e])) &&
    forall e :: 0 <= e < |wires| ==> wires[e].source < |s.locals| && wires[e].target < |s.locals|
  }

  /** A component writes only to the buffers it has been given: those on its outgoing wires. */
  ghost predicate Obeys<S(!new), T(!new)>(process: Process<S, T>, wires: seq<Wire>)
  {
    forall v, s, d, k :: 0 <= k < |process(v, s, d).1| ==>
      process(v, s, d).1[k].wire < |wires| && wires[process(v, s, d).1[k].wire].source == v
  }

  /** The engine after some writes. */
  function Put<S, T>(s: Engine<S, T>, ws: seq<Write<T>>, wires: seq<Wire>): (n: Engine<S, T>)
    requires Fits(s, wires) && forall k :: 0 <= k < |ws| ==> ws[k].wire < |wires|
    ensures Fits(n, wires) && n.locals == s.locals && n.processed == s.processed
    ensures forall e :: 0 <= e < |wires| && (forall k :: 0 <= k < |ws| ==> ws[k].wire != e) ==>
              n.rings[e] == s.rings[e] && n.written[e] == s.written[e]
    decreases |ws|
  {
    if |ws| == 0 then s
    else
      var b, w := Put(s, ws[..|ws| - 1], wires), ws[|ws| - 1];
      b.(rings := b.rings[w.wire := Written(b.rings[w.wire], w.set_)],
         written := b.written[w.wire := b.written[w.wire] + [w.set_]])
  }

  /** The read a component begins with; the first component has no internal input. */
  function Taken<S, T>(s: Engine<S, T>, v: nat, input: Option<nat>, wires: seq<Wire>):
    (p: (Option<DataSet<T>>, Engine<S, T>))
    requires Fits(s, wires) && v < |s.locals| && (input.Some? ==> input.value < |wires|)
    ensures Fits(p.1, wires) && p.1.locals == s.locals && p.1.written == s.written
  {
    match input
    case None => (None, s)
    case Some(e) =>
      var d := s.rings[e].slots[s.rings[e].readIndex];
      (Some(d), s.(rings := s.rings[e := ReadOne(s.rings[e])], processed := s.processed[v := s.processed[v] + [d]]))
  }

  ghost predicate Runs<S(!new), T(!new)>(s: Engine<S, T>, process: Process<S, T>, wires: seq<Wire>)
  {
    Fits(s, wires) && Obeys(process, wires)
  }

  /** One doProcess of component v. */
  function Done<S(!new), T(!new)>(s: Engine<S, T>, process: Process<S, T>, v: nat, input: Option<nat>,
        wires: seq<Wire>):
    (n: Engine<S, T>)
    requires Runs(s, process, wires) && v < |s.locals| && (input.Some? ==> input.value < |wires|)
    ensures Fits(n, wires) && |n.locals| == |s.locals|
  {
    var (d, t) := Taken(s, v, input, wires);
    var (l, ws) := process(v, s.locals[v], d);
    Put(t.(locals := t.locals[v := l]), ws, wires)
  }

  /** What is left to read in a ring. */
  function Left<T>(r: Ring<T>): nat
    requires Sound(r)
  {
    if r.notEmpty then ToRead(r) else 0
  }

  lemma OneLess<S(!new), T(!new)>(s: Engine<S, T>, process: Process<S, T>, e: nat, wires: seq<Wire>)
    requires Runs(s, process, wires) && e < |wires| && wires[e].source != wires[e].target && s.rings[e].notEmpty
    ensures var n := Done(s, process, wires[e].target, Some(e), wires);
            n.rings[e] == ReadOne(s.rings[e]) && n.written[e] == s.written[e] && Left(n.rings[e]) < Left(s.rings[e])
  {
  }

  /** The inner loop: as long as the buffer on wire e has data. */
  function Drain<S(!new), T(!new)>(s: Engine<S, T>, process: Process<S, T>, e: nat, wires: seq<Wire>): (n: Engine<S, T>)
    requires Runs(s, process, wires) && e < |wires| && wires[e].source != wires[e].target
    ensures Fits(n, wires) && |n.locals| == |s.locals|
    decreases Left(s.rings[e])
  {
    if !s.rings[e].notEmpty then s
    else
      OneLess(s, process, e, wires);
      Drain(Done(s, process, wires[e].target, Some(e), wires), process, e, wires)
  }

  predicate NoLoops(wires: seq<Wire>)
  {
    forall e :: 0 <= e < |wires| ==> wires[e].source != wires[e].target
  }

  /** The incoming wires of component v, from wire e on. */
  function DrainInputs<S(!new), T(!new)>(s: Engine<S, T>, process: Process<S, T>, v: nat, wires: seq<Wire>,
        e: nat := 0):
    (n: Engine<S, T>)
    requires Runs(s, process, wires) && NoLoops(wires) && e <= |wires|
    ensures Fits(n, wires) && |n.locals| == |s.locals|
    decreases |wires| - e
  {
    if e == |wires| then s
    else if wires[e].target == v then DrainInputs(Drain(s, process, e, wires), process, v, wires, e + 1)
    else DrainInputs(s, process, v, wires, e + 1)
  }

  /** One turn of the main loop over the components in topological order, the first n of them. */
  function Turn<S(!new), T(!new)>(s: Engine<S, T>, process: Process<S, T>, order: seq<nat>, n: nat, wires: seq<Wire>):
    (t: Engine<S, T>)
    requires Runs(s, process, wires) && NoLoops(wires) && n <= |order|
    requires forall i :: 0 <= i < |order| ==> order[i] < |s.locals|
    ensures Fits(t, wires) && |t.locals| == |s.locals|
    decreases n
  {
    if n == 0 then s
    else
      var b := Turn(s, process, order, n - 1, wires);
      if n == 1 then Done(b, process, order[0], None, wires)
      else DrainInputs(b, process, order[n - 1], wires)
  }

  class PhyEngine<S(!new), T(!new)> {
    const process: Process<S, T>
    const wires: seq<Wire>
    var engine: Engine<S, T>

    constructor (process: Process<S, T>, wires: seq<Wire>, engine: Engine<S, T>)
      ensures this.process == process && this.wires == wires && this.engine == engine
    {
      this.process, this.wires, this.engine := process, wires, engine;
    }

    method DoProcess(v: nat, input: Option<nat>)
      requires Runs(engine, process, wires) && v < |engine.locals| && (input.Some? ==> input.value < |wires|)
      modifies this
      ensures engine == Done(old(engine), process, v, input, wires)
    {
      var (d, t) := Taken(engine, v, input, wires);
      var (l, ws) := process(v, engine.locals[v], d);
      ghost var read := t.(locals := t.locals[v := l]);
      engine := t.(locals := t.locals[v := l]);
      for i := 0 to |ws|
        invariant engine == Put(read, ws[..i], wires)
      {
        var r := engine.rings[ws[i].wire];
        engine := engine.(rings := engine.rings[ws[i].wire := Written(r, ws[i].set_)],
                          written := engine.written[ws[i].wire := engine.written[ws[i].wire] + [ws[i].set_]]);
        assert ws[..i + 1][..i] == ws[..i];
      }
      assert ws[..|ws|] == ws;
    }

    /** The body of `while(true)` after the reconfigurations. */
    method OneTurn(order: seq<nat>)
      requires Runs(engine, process, wires) && NoLoops(wires)
      requires forall i :: 0 <= i < |order| ==> order[i] < |engine.locals|
      modifies this
      ensures engine == Turn(old(engine), process, order, |order|, wires)
    {
      for i := 0 to |order|
        invariant Runs(engine, process, wires) && |engine.locals| == |old(engine).locals|
        invariant engine == Turn(old(engine), process, order, i, wires)
      {
        if i == 0 {
          DoProcess(order[0], None);
        } else {
          ghost var before := engine;
          for e := 0 to |wires|
            invariant Runs(engine, process, wires) && |engine.locals| == |old(engine).locals|
            invariant DrainInputs(before, process, order[i], wires) == DrainInputs(engine, process, order[i], wires, e)
          {
            if wires[e].target == order[i] {
              ghost var full := engine;
              while engine.rings[e].notEmpty
                invariant Runs(engine, process, wires) && |engine.locals| == |old(engine).locals|
                invariant Drain(full, process, e, wires) == Drain(engine, process, e, wires)
                decreases Left(engine.rings[e])
              {
                OneLess(engine, process, e, wires);
                DoProcess(order[i], Some(e));
              }
            }
          }
        }
      }
    }
  }
}
