/** The path of a data set from one stack engine to another: a queue filled by components, the out
    translator, the ring between the engines, the in translator and the queue of the component above
    (src/engines/stackengine/StackOutTranslator.cpp:72-94, StackInTranslator.cpp:72-104 and
    StackEngine.cpp:256-308). The three buffers keep their own steps; the translators join them. */
module TranslatorChain {
  import opened Wrappers
  import S = StackDataBuffer
  import D = DataBuffer

  newtype Byte = b: int | 0 <= b < 256

  datatype Source = ABOVE | BELOW

  datatype StackDataSet = StackDataSet(
    source: Source,
    sourcePortName: string,
    destPortName: string,
    data: seq<Byte>,
    timeStamp: real,
    lastComponent: string)

  /** Where the out translator stands; `p` is the set it has popped. */
  datatype OutPhase =
    | Fetching
    | Writing(p: StackDataSet)
    | Copied(p: StackDataSet)
    | Stamped(p: StackDataSet)
    | Filled(p: StackDataSet)

  datatype InPhase = Reading | Sending(set_: StackDataSet) | Sent

  /** The out translator is thread 0 of `below`, the in translator thread 0 of `above`. `fromBelow` tells
      for every push to `above` whether the in translator made it. */
  datatype Chain = Chain(
    below: S.State<StackDataSet>,
    outPhase: OutPhase,
    ring: D.State<Byte>,
    inPhase: InPhase,
    above: S.State<StackDataSet>,
    fromBelow: seq<bool>)

  datatype Action =
    | Below(s: S.Action<StackDataSet>)
    | Ring(d: D.Action<Byte>)
    | Take
    | Above(s: S.Action<StackDataSet>)

  /** What the out translator puts into a ring slot for a popped set. */
  function Lowered(p: StackDataSet): (d: D.DataSet<Byte>)
    ensures d.data == p.data && d.timeStamp == p.timeStamp
  {
    D.DataSet(p.data, p.timeStamp, 0.0)
  }

  /** What the in translator makes of a ring slot. */
  function Lifted(d: D.DataSet<Byte>): (p: StackDataSet)
    ensures p.data == d.data && p.timeStamp == d.timeStamp
  {
    StackDataSet(BELOW, "", "", d.data, d.timeStamp, "")
  }

  function Slot(c: Chain): D.DataSet<Byte>
    requires c.ring.ring.writeIndex < |c.ring.ring.slots|
  {
    c.ring.ring.slots[c.ring.ring.writeIndex]
  }

  /** The slot after the next of the out translator's three assignments to it. */
  function Assigned(out: OutPhase, slot: D.DataSet<Byte>): D.DataSet<Byte>
    requires out.Writing? ==> |out.p.data| <= |slot.data|
  {
    match out
    case Writing(p) => slot.(data := p.data + slot.data[|p.data|..])
    case Copied(p) => slot.(timeStamp := p.timeStamp)
    case Stamped(p) => slot.(sampleRate := 0.0)
    case _ => slot
  }

  /** The steps of the buffers, held to the programs of the two translators. Only the out translator pops
      from `below`; threads other than the in translator do as they like with `above`. */
  predicate Enabled(c: Chain, a: Action)
    requires D.FlagsFit(c.ring.ring)
  {
    match a
    case Below(s) =>
      S.Enabled(c.below, s) && (s.Call? ==> if s.t == 0 then c.outPhase.Fetching? && s.op.Pop? else s.op.Push?)
    case Ring(d) =>
      D.Enabled(c.ring, d) &&
      (match d
       case Get(side, size) =>
         if side == D.Writer then c.outPhase.Writing? && size == |c.outPhase.p.data| else c.inPhase.Reading?
       case Fill(slot) =>
         (c.outPhase.Writing? ==> |c.outPhase.p.data| <= |Slot(c).data|) &&
         !c.outPhase.Fetching? && !c.outPhase.Filled? && slot == Assigned(c.outPhase, Slot(c))
       case Release(side) => if side == D.Writer then c.outPhase.Filled? else c.inPhase.Sent?
       case _ => true)
    case Take => c.inPhase.Reading? && c.ring.reader == D.Holding
    case Above(s) =>
      S.Enabled(c.above, s) && (s.Call? && s.t == 0 ==> c.inPhase.Sending? && s.op == S.Push(c.inPhase.set_))
  }

  function Next(c: Chain, a: Action): Chain
    requires D.FlagsFit(c.ring.ring) && Enabled(c, a)
  {
    match a
    case Below(s) =>
      c.(below := S.Next(c.below, s), outPhase := OutAfterPop(c, s))
    case Ring(d) =>
      c.(ring := D.Next(c.ring, d), outPhase := OutAfterRing(c.outPhase, d), inPhase := InAfterRing(c.inPhase, d))
    case Take => c.(inPhase := Sending(Lifted(c.ring.ring.slots[c.ring.ring.readIndex])))
    case Above(s) =>
      var n := S.Next(c.above, s);
      c.(above := n,
         inPhase := if s.Notify? && s.t == 0 then Sent else c.inPhase,
         fromBelow := if |n.pushed| > |c.above.pushed| then c.fromBelow + [s.t == 0] else c.fromBelow)
  }

  /** popDataSet returns to the out translator when its notification is done. */
  function OutAfterPop(c: Chain, s: S.Action<StackDataSet>): OutPhase
    requires S.Enabled(c.below, s)
  {
    if s.Notify? && s.t == 0 && c.below.threads[0].op.Popped? then Writing(c.below.threads[0].op.got)
    else c.outPhase
  }

  function OutAfterRing(out: OutPhase, d: D.Action<Byte>): OutPhase
  {
    if d.Fill? then
      match out
      case Writing(p) => Copied(p)
      case Copied(p) => Stamped(p)
      case Stamped(p) => Filled(p)
      case _ => out
    else if d == D.Unlock(D.Writer) then Fetching
    else out
  }

  function InAfterRing(inPhase: InPhase, d: D.Action<Byte>): InPhase
  {
    if d == D.Unlock(D.Reader) then Reading else inPhase
  }

  /** The elements that are marked. */
  function Picked<T>(s: seq<T>, marks: seq<bool>): (p: seq<T>)
    requires |s| == |marks|
    decreases |s|
  {
    if |s| == 0 then []
    else
      var before := Picked(s[..|s| - 1], marks[..|s| - 1]);
      if marks[|s| - 1] then before + [s[|s| - 1]] else before
  }

  /** What the in translator has pushed upward, in order. */
  function SentUp(c: Chain): seq<StackDataSet>
    requires |c.above.pushed| == |c.fromBelow|
  {
    Picked(c.above.pushed, c.fromBelow)
  }

  ghost predicate Initial(c: Chain)
  {
    S.Initial(c.below) && D.Initial(c.ring) && S.Initial(c.above) &&
    0 in c.below.threads && 0 in c.above.threads &&
    c.outPhase == Fetching && c.inPhase == Reading && c.fromBelow == []
  }

  ghost predicate IsRun(c: Chain, run: seq<Action>)
    decreases run
  {
    D.FlagsFit(c.ring.ring) && (run == [] || (Enabled(c, run[0]) && IsRun(Next(c, run[0]), run[1..])))
  }

  ghost function After(c: Chain, run: seq<Action>): Chain
    requires IsRun(c, run)
    decreases run
  {
    if run == [] then c else After(Next(c, run[0]), run[1..])
  }
}
