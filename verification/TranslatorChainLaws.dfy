/** Nothing is lost, altered or reordered between the two stack engines, and nothing stalls. */
module TranslatorChainLaws {
  import opened Wrappers
  import S = StackDataBuffer
  import SL = StackDataBufferLaws
  import D = DataBuffer
  import DL = DataBufferLaws
  import opened TranslatorChain

  /* ---------------------------------------------------- where a popped set can be ---- */

  /** The set the out translator has taken from the queue and not yet returned with. */
  function Got(below: S.State<StackDataSet>): Option<StackDataSet>
  {
    if 0 in below.threads && below.threads[0].Inside? && below.threads[0].op.Popped?
    then Some(below.threads[0].op.got) else None
  }

  /** The set the out translator carries between the queue and the ring. */
  function Carried(out: OutPhase, writer: D.Stage): Option<StackDataSet>
  {
    if out.Fetching? || (out.Filled? && !DL.Owns(writer)) then None else Some(out.p)
  }

  function Held(c: Chain): Option<StackDataSet>
  {
    if Got(c.below).Some? then Got(c.below) else Carried(c.outPhase, c.ring.writer)
  }

  /** Has the in translator pushed the slot it still holds? */
  predicate PushedNotReleased(c: Chain)
  {
    if c.inPhase.Sent? then DL.Owns(c.ring.reader) else Moved(c.above)
  }

  predicate Moved(above: S.State<StackDataSet>)
  {
    0 in above.threads && above.threads[0].Inside? &&
    (above.threads[0].stage == S.Unlocking || above.threads[0].stage == S.Notifying)
  }

  predicate OnlyConsumer(below: S.State<StackDataSet>)
  {
    0 in below.threads && (below.threads[0].Inside? ==> S.IsConsumer(below.threads[0])) &&
    forall t :: t in below.threads && t != 0 ==> !S.IsConsumer(below.threads[t])
  }

  predicate Getting(stage: D.Stage)
  {
    stage == D.Entry || stage == D.Check || stage == D.Asleep || stage == D.Woken || stage == D.Recheck
  }

  predicate Releasing(stage: D.Stage)
  {
    stage == D.Holding || stage == D.ReleaseEntry || stage == D.Releasing || stage == D.Notifying ||
      stage == D.Unlocking
  }

  /** The out translator's place in its loop, its place inside the ring, and its slot agree. */
  predicate OutFits(out: OutPhase, ring: D.State<Byte>)
    requires D.FlagsFit(ring.ring)
  {
    var slot := ring.ring.slots[ring.ring.writeIndex];
    match out
    case Fetching => ring.writer == D.Idle
    case Writing(p) =>
      ring.writer == D.Idle || (Getting(ring.writer) && ring.size == |p.data|) ||
      ((ring.writer == D.Granted || ring.writer == D.Holding) && |slot.data| == |p.data|)
    case Copied(p) => ring.writer == D.Holding && slot.data == p.data
    case Stamped(p) => ring.writer == D.Holding && slot.data == p.data && slot.timeStamp == p.timeStamp
    case Filled(p) => Releasing(ring.writer) && (DL.Owns(ring.writer) ==> slot == Lowered(p))
  }

  predicate InFits(inPhase: InPhase, ring: D.State<Byte>)
    requires D.FlagsFit(ring.ring)
  {
    match inPhase
    case Reading => ring.reader == D.Idle || Getting(ring.reader) || ring.reader == D.Granted ||
      ring.reader == D.Holding
    case Sending(x) => ring.reader == D.Holding && x == Lifted(ring.ring.slots[ring.ring.readIndex])
    case Sent => Releasing(ring.reader)
  }

  predicate InPusher(inPhase: InPhase, above: S.State<StackDataSet>)
  {
    0 in above.threads &&
    (above.threads[0].Inside? ==> inPhase.Sending? && above.threads[0].op == S.Push(inPhase.set_))
  }

  /** The sets popped are the sets written, followed by the one on its way. */
  ghost predicate WrittenFits(popped: seq<StackDataSet>, written: seq<D.DataSet<Byte>>, held: Option<StackDataSet>)
  {
    |popped| == |written| + (if held.Some? then 1 else 0) &&
    (held.Some? ==> popped[|written|] == held.value) &&
    forall k :: 0 <= k < |written| ==> written[k] == Lowered(popped[k])
  }

  /** The sets sent up are the sets delivered by the ring, and the one in hand if it has been pushed. */
  ghost predicate SentFits(ring: D.State<Byte>, sent: seq<StackDataSet>, inHand: bool)
  {
    |sent| == |ring.delivered| + (if inHand then 1 else 0) && |sent| <= |ring.written| &&
    forall k :: 0 <= k < |sent| ==> sent[k] == Lifted(ring.written[k])
  }

  ghost predicate BuffersFit(c: Chain)
  {
    SL.Inv(c.below) && DL.Inv(c.ring) && SL.Inv(c.above) && |c.above.pushed| == |c.fromBelow|
  }

  ghost predicate OutSide(c: Chain)
    requires D.FlagsFit(c.ring.ring)
  {
    OnlyConsumer(c.below) && (c.below.threads[0].Inside? ==> c.outPhase.Fetching?) &&
    OutFits(c.outPhase, c.ring) && WrittenFits(c.below.popped, c.ring.written, Held(c))
  }

  ghost predicate InSide(c: Chain)
    requires D.FlagsFit(c.ring.ring) && |c.above.pushed| == |c.fromBelow|
  {
    InFits(c.inPhase, c.ring) && InPusher(c.inPhase, c.above) && SentFits(c.ring, SentUp(c), PushedNotReleased(c))
  }

  ghost predicate Inv(c: Chain)
  {
    BuffersFit(c) && OutSide(c) && InSide(c)
  }

  lemma InitialInv(c: Chain)
    requires Initial(c)
    ensures Inv(c)
  {
    SL.InitialInv(c.below);
    SL.InitialInv(c.above);
    DL.InitialInv(c.ring);
  }

  /* ----------------------------------------------------- steps of the lower queue ---- */

  lemma BelowKeepsConsumer(s: S.State<StackDataSet>, a: S.Action<StackDataSet>)
    requires OnlyConsumer(s) && S.Enabled(s, a)
    requires a.Call? ==> if a.t == 0 then a.op.Pop? else a.op.Push?
    ensures OnlyConsumer(S.Next(s, a))
  {
  }

  /** Only the out translator's successful test takes a set, and its notification returns with it. */
  lemma BelowTakes(s: S.State<StackDataSet>, a: S.Action<StackDataSet>)
    requires SL.Inv(s) && OnlyConsumer(s) && S.Enabled(s, a)
    requires a.Call? ==> if a.t == 0 then a.op.Pop? else a.op.Push?
    ensures var n := S.Next(s, a);
            if a == S.Test(0) && s.queue != [] then
              Got(s) == None && Got(n).Some? && n.popped == s.popped + [Got(n).value]
            else n.popped == s.popped && Got(n) == if a.t == 0 && a.Notify? then None else Got(s)
  {
    hide SL.NoLostWakeUp;
  }

  lemma BelowKeepsOutSide(c: Chain, a: S.Action<StackDataSet>)
    requires Inv(c) && Enabled(c, Below(a))
    ensures OutSide(Next(c, Below(a)))
  {
    BelowKeepsConsumer(c.below, a);
    BelowTakes(c.below, a);
    hide SL.NoLostWakeUp, SL.MutexHeldOnce, DL.SideFits, D.Contents, InSide;
  }

  lemma BelowKeepsInv(c: Chain, a: S.Action<StackDataSet>)
    requires Inv(c) && Enabled(c, Below(a))
    ensures Inv(Next(c, Below(a)))
  {
    SL.StepKeepsInv(c.below, a);
    BelowKeepsOutSide(c, a);
  }

  /* --------------------------------------------------------------- steps of the ring ---- */

  lemma WriterKeepsOutFits(c: Chain, d: D.Action<Byte>)
    requires Inv(c) && Enabled(c, Ring(d)) && (d.Fill? || d.side == D.Writer)
    ensures D.FlagsFit(D.Next(c.ring, d).ring)
    ensures OutFits(OutAfterRing(c.outPhase, d), D.Next(c.ring, d))
  {
    hide InSide, SL.Inv, D.Contents, WrittenFits, OnlyConsumer, Got;
    DL.StepKeepsInv(c.ring, d);
  }

  lemma ReaderKeepsOutFits(c: Chain, d: D.Action<Byte>)
    requires Inv(c) && Enabled(c, Ring(d)) && !d.Fill? && d.side == D.Reader
    ensures D.FlagsFit(D.Next(c.ring, d).ring)
    ensures OutFits(OutAfterRing(c.outPhase, d), D.Next(c.ring, d))
    ensures Carried(OutAfterRing(c.outPhase, d), D.Next(c.ring, d).writer) == Carried(c.outPhase, c.ring.writer)
  {
    hide InSide, SL.Inv, D.Contents, WrittenFits, OnlyConsumer, Got;
    DL.StepKeepsInv(c.ring, d);
  }

  /** The ring's record of written sets grows by the slot the out translator has filled. */
  lemma RingWrites(c: Chain, d: D.Action<Byte>)
    requires Inv(c) && Enabled(c, Ring(d))
    ensures var n := D.Next(c.ring, d);
            var before, after := Carried(c.outPhase, c.ring.writer), Carried(OutAfterRing(c.outPhase, d), n.writer);
            if d == D.Update(D.Writer) then before.Some? && after == None &&
              n.written == c.ring.written + [Lowered(before.value)]
            else n.written == c.ring.written && after == before
  {
    hide InSide, SL.Inv, D.Contents, WrittenFits, OnlyConsumer, Got;
  }

  lemma RingKeepsOutSide(c: Chain, d: D.Action<Byte>)
    requires Inv(c) && Enabled(c, Ring(d))
    ensures D.FlagsFit(D.Next(c.ring, d).ring) && OutSide(Next(c, Ring(d)))
  {
    hide InSide, SL.Inv, D.Contents, D.Next, DL.Inv;
    RingWrites(c, d);
    if d.Fill? || d.side == D.Writer { WriterKeepsOutFits(c, d); } else { ReaderKeepsOutFits(c, d); }
  }

  lemma RingKeepsInFits(c: Chain, d: D.Action<Byte>)
    requires Inv(c) && Enabled(c, Ring(d))
    ensures D.FlagsFit(D.Next(c.ring, d).ring)
    ensures InFits(InAfterRing(c.inPhase, d), D.Next(c.ring, d))
  {
    hide OutSide, SentFits, SL.Inv, D.Contents, D.WriteGranted;
    DL.StepKeepsInv(c.ring, d);
    if DL.Owns(c.ring.reader) { DL.ReaderSeesTheOldest(c.ring, d); }
  }

  /** The ring's record of delivered sets grows when the in translator gives its slot back. */
  lemma RingDelivers(c: Chain, d: D.Action<Byte>)
    requires Inv(c) && Enabled(c, Ring(d))
    ensures var n := Next(c, Ring(d));
            |n.ring.delivered| == |c.ring.delivered| + (if d == D.Update(D.Reader) then 1 else 0) &&
            c.ring.written <= n.ring.written &&
            (d == D.Update(D.Reader) ==> PushedNotReleased(c) && !PushedNotReleased(n)) &&
            (d != D.Update(D.Reader) ==> PushedNotReleased(c) == PushedNotReleased(n))
  {
    hide OutSide, SentFits, SL.Inv, D.Contents, SL.NoLostWakeUp;
  }

  lemma RingKeepsInSide(c: Chain, d: D.Action<Byte>)
    requires Inv(c) && Enabled(c, Ring(d))
    ensures D.FlagsFit(D.Next(c.ring, d).ring) && InSide(Next(c, Ring(d)))
  {
    RingDelivers(c, d);
    RingKeepsInFits(c, d);
  }

  lemma RingKeepsInv(c: Chain, d: D.Action<Byte>)
    requires Inv(c) && Enabled(c, Ring(d))
    ensures Inv(Next(c, Ring(d)))
  {
    DL.StepKeepsInv(c.ring, d);
    RingKeepsOutSide(c, d);
    RingKeepsInSide(c, d);
  }

  lemma TakeKeepsInv(c: Chain)
    requires Inv(c) && Enabled(c, Take)
    ensures Inv(Next(c, Take))
  {
  }

  /* ----------------------------------------------------- steps of the upper queue ---- */

  lemma PickedAppend<T>(s: seq<T>, marks: seq<bool>, x: T, mark: bool)
    requires |s| == |marks|
    ensures Picked(s + [x], marks + [mark]) == if mark then Picked(s, marks) + [x] else Picked(s, marks)
  {
    assert (s + [x])[..|s|] == s && (marks + [mark])[..|s|] == marks;
  }

  /** A push by the in translator is a successful test of thread 0, and nothing else. */
  lemma AbovePushes(c: Chain, a: S.Action<StackDataSet>)
    requires Inv(c) && Enabled(c, Above(a))
    ensures var s, n := c.above, S.Next(c.above, a);
            n.pushed == s.pushed ||
            (a.Test? && n.pushed == s.pushed + [s.threads[a.t].op.set_] && s.threads[a.t].op.Push?)
    ensures var s, n := c.above, S.Next(c.above, a);
            (Moved(n) <==> (Moved(s) && !(a.Notify? && a.t == 0)) || (a.t == 0 && n.pushed != s.pushed)) &&
            (a.t == 0 && n.pushed != s.pushed ==> !Moved(s))
  {
    hide OutSide, SentFits, DL.Inv, SL.NoLostWakeUp, DL.RingFits, InFits;
  }

  lemma AboveKeepsPusher(c: Chain, a: S.Action<StackDataSet>)
    requires Inv(c) && Enabled(c, Above(a))
    ensures var n := Next(c, Above(a)); InPusher(n.inPhase, n.above) && InFits(n.inPhase, n.ring)
  {
    hide OutSide, SentFits, SL.NoLostWakeUp, DL.RingFits, DL.SideFits;
  }

  lemma AboveKeepsSent(c: Chain, a: S.Action<StackDataSet>)
    requires Inv(c) && Enabled(c, Above(a))
    ensures var n := Next(c, Above(a));
            |n.above.pushed| == |n.fromBelow| && SentFits(n.ring, SentUp(n), PushedNotReleased(n))
  {
    AbovePushes(c, a);
    if S.Next(c.above, a).pushed == c.above.pushed { NothingPushed(c, a); } else { OnePushed(c, a); }
  }

  lemma NothingPushed(c: Chain, a: S.Action<StackDataSet>)
    requires Inv(c) && Enabled(c, Above(a)) && S.Next(c.above, a).pushed == c.above.pushed
    ensures var n := Next(c, Above(a)); SentUp(n) == SentUp(c) && SentFits(n.ring, SentUp(n), PushedNotReleased(n))
  {
    AbovePushes(c, a);
    hide SL.Inv, SentFits, Picked, S.Next;
  }

  lemma HeldIsOldest(ring: D.State<Byte>)
    requires DL.Inv(ring) && DL.Owns(ring.reader)
    ensures |ring.delivered| < |ring.written|
    ensures ring.written[|ring.delivered|] == ring.ring.slots[ring.ring.readIndex]
  {
    DL.SlotsAreExclusive(ring);
  }

  /** What the in translator sends is the set it holds. */
  lemma SentGrows(ring: D.State<Byte>, sent: seq<StackDataSet>, x: StackDataSet)
    requires DL.Inv(ring) && DL.Owns(ring.reader) && SentFits(ring, sent, false)
    requires x == Lifted(ring.ring.slots[ring.ring.readIndex])
    ensures SentFits(ring, sent + [x], true)
  {
    HeldIsOldest(ring);
  }

  lemma InPushes(c: Chain, a: S.Action<StackDataSet>)
    requires Inv(c) && Enabled(c, Above(a)) && S.Next(c.above, a).pushed != c.above.pushed && a.t == 0
    ensures DL.Owns(c.ring.reader) && !PushedNotReleased(c) && PushedNotReleased(Next(c, Above(a)))
    ensures c.above.threads[0].op == S.Push(Lifted(c.ring.ring.slots[c.ring.ring.readIndex]))
  {
    AbovePushes(c, a);
    hide SL.Inv, OutSide, SentFits, Picked, S.Next, D.Contents;
  }

  lemma OtherPushes(c: Chain, a: S.Action<StackDataSet>)
    requires Inv(c) && Enabled(c, Above(a)) && S.Next(c.above, a).pushed != c.above.pushed && a.t != 0
    ensures PushedNotReleased(Next(c, Above(a))) == PushedNotReleased(c)
  {
    AbovePushes(c, a);
    hide SL.Inv, DL.Inv, OutSide, SentFits, Picked, S.Next;
  }

  lemma OnePushed(c: Chain, a: S.Action<StackDataSet>)
    requires Inv(c) && Enabled(c, Above(a)) && S.Next(c.above, a).pushed != c.above.pushed
    ensures var n := Next(c, Above(a));
            |n.above.pushed| == |n.fromBelow| && SentFits(n.ring, SentUp(n), PushedNotReleased(n))
  {
    AbovePushes(c, a);
    var x := c.above.threads[a.t].op.set_;
    PickedAppend(c.above.pushed, c.fromBelow, x, a.t == 0);
    if a.t == 0 { InPushes(c, a); } else { OtherPushes(c, a); }
    hide SL.Inv, OutSide, SentFits, Picked, S.Next, S.Enabled, PushedNotReleased, DL.SideFits, D.Contents;
    if a.t == 0 { SentGrows(c.ring, SentUp(c), x); }
  }

  lemma AboveKeepsInv(c: Chain, a: S.Action<StackDataSet>)
    requires Inv(c) && Enabled(c, Above(a))
    ensures Inv(Next(c, Above(a)))
  {
    SL.StepKeepsInv(c.above, a);
    AboveKeepsPusher(c, a);
    AboveKeepsSent(c, a);
  }

  predicate SameSizes(c: Chain, n: Chain)
  {
    n.below.maxSize == c.below.maxSize && n.above.maxSize == c.above.maxSize &&
    |n.ring.ring.slots| == |c.ring.ring.slots|
  }

  lemma SizesStay(c: Chain, a: Action)
    requires Inv(c) && Enabled(c, a)
    ensures SameSizes(c, Next(c, a))
  {
    hide SL.Inv, DL.Inv, OutSide, InSide;
    match a
    case Below(s) => SL.StepKeepsInv(c.below, s);
    case Ring(d) => DL.StepKeepsInv(c.ring, d);
    case Take =>
    case Above(s) => SL.StepKeepsInv(c.above, s);
  }

  lemma StepKeepsInv(c: Chain, a: Action)
    requires Inv(c) && Enabled(c, a)
    ensures Inv(Next(c, a)) && SameSizes(c, Next(c, a))
  {
    SizesStay(c, a);
    hide Inv, Next, SameSizes;
    match a
    case Below(s) => BelowKeepsInv(c, s);
    case Ring(d) => RingKeepsInv(c, d);
    case Take => TakeKeepsInv(c);
    case Above(s) => AboveKeepsInv(c, s);
  }

  /** In every interleaving of all the threads, every reachable state keeps the invariant. */
  lemma {:induction false} RunKeepsInv(c: Chain, run: seq<Action>)
    requires Inv(c) && IsRun(c, run)
    ensures Inv(After(c, run)) && SameSizes(c, After(c, run))
    decreases run
  {
    hide Inv, Next;
    if run != [] {
      StepKeepsInv(c, run[0]);
      RunKeepsInv(Next(c, run[0]), run[1..]);
    }
  }

  /* ------------------------------------------------------------------ what follows ---- */

  /** What a data set becomes on its way: the payload and the time stamp stay. */
  function Passed(p: StackDataSet): (q: StackDataSet)
    ensures q.data == p.data && q.timeStamp == p.timeStamp && q.source == BELOW
  {
    Lifted(Lowered(p))
  }

  lemma SentIsPrefix(c: Chain)
    requires Inv(c)
    ensures |SentUp(c)| <= |c.below.pushed|
    ensures forall k :: 0 <= k < |SentUp(c)| ==> SentUp(c)[k] == Passed(c.below.pushed[k])
  {
    hide SL.NoLostWakeUp, SentUp, D.Contents;
  }

  /** Sets between the two queues' ends: waiting below, carried, or unread in the ring. */
  lemma UndeliveredIsBounded(c: Chain)
    requires Inv(c)
    ensures |c.below.pushed| - |SentUp(c)| <=
            |c.below.queue| + (if Held(c).Some? then 1 else 0) + |D.Contents(c.ring.ring)|
    ensures |c.below.pushed| <= |SentUp(c)| + c.below.maxSize + 1 + |c.ring.ring.slots|
  {
    hide SentUp;
  }

  /** From the beginning on, whatever the threads do: what has been sent up is, in order and set by set,
      what was accepted first, and no more is under way than the buffers and one pair of hands hold. */
  lemma DeliveredInOrder(start: Chain, run: seq<Action>)
    requires Initial(start) && IsRun(start, run)
    ensures var c := After(start, run);
            |c.above.pushed| == |c.fromBelow| &&
            |SentUp(c)| <= |c.below.pushed| <= |SentUp(c)| + start.below.maxSize + 1 + |start.ring.ring.slots| &&
            forall k :: 0 <= k < |SentUp(c)| ==> SentUp(c)[k] == Passed(c.below.pushed[k])
  {
    InitialInv(start);
    RunKeepsInv(start, run);
    var c := After(start, run);
    SentIsPrefix(c);
    UndeliveredIsBounded(c);
  }

  /** Steps by which work that is under way proceeds: not the calls of other threads and not the
      spurious wake-ups. */
  predicate Progresses(c: Chain, a: Action)
    requires D.FlagsFit(c.ring.ring)
  {
    Enabled(c, a) &&
    match a
    case Below(s) => !s.SpuriousWake? && (s.Call? ==> s.t == 0)
    case Ring(d) => !d.SpuriousWake?
    case Take => true
    case Above(s) => !s.SpuriousWake? && (s.Call? ==> s.t == 0)
  }

  /** The in translator can proceed, or somebody on whom it waits can, unless it waits on an empty ring. */
  lemma InProgresses(c: Chain) returns (a: Action)
    requires Inv(c) && |c.above.queue| < c.above.maxSize
    requires !(c.ring.reader == D.Asleep && !c.ring.ring.notEmpty)
    ensures Progresses(c, a)
  {
    if c.above.threads[0].Inside? {
      if c.above.threads[0].stage == S.Asleep {
        var s := SL.SleeperIsRemembered(c.above, 0, false);
        a := Above(s);
      } else {
        var s := SL.AwakeProgresses(c.above, 0);
        a := Above(s);
      }
    } else if c.inPhase.Sending? {
      a := Above(S.Call(0, S.Push(c.inPhase.set_)));
    } else if c.inPhase.Reading? && c.ring.reader == D.Idle {
      a := Ring(D.Get(D.Reader, 0));
    } else if c.inPhase.Reading? && c.ring.reader == D.Holding {
      a := Take;
    } else {
      var d := DL.SideProgresses(c.ring, D.Reader);
      a := Ring(d);
    }
  }

  /** The out translator can proceed, or somebody on whom it waits can, unless it waits on an empty queue
      or on a full ring. */
  lemma OutProgresses(c: Chain) returns (a: Action)
    requires Inv(c) && c.ring.ring.notFull
    requires !(S.Sleeps(c.below.threads[0], true) && c.below.queue == [])
    ensures Progresses(c, a)
  {
    if c.below.threads[0].Inside? {
      if c.below.threads[0].stage == S.Asleep {
        var s := SL.SleeperIsRemembered(c.below, 0, true);
        a := Below(s);
      } else {
        var s := SL.AwakeProgresses(c.below, 0);
        a := Below(s);
      }
    } else if c.outPhase.Fetching? {
      a := Below(S.Call(0, S.Pop));
    } else if c.ring.writer == D.Idle {
      a := Ring(D.Get(D.Writer, |c.outPhase.p.data|));
    } else if c.ring.writer == D.Holding && !c.outPhase.Filled? {
      a := Ring(D.Fill(Assigned(c.outPhase, Slot(c))));
    } else {
      var d := DL.SideProgresses(c.ring, D.Writer);
      a := Ring(d);
    }
  }

  /** The chain never stalls: while an accepted set has not been sent up and there is room above, some
      step that carries work forward is enabled. */
  lemma NeverStalls(c: Chain) returns (a: Action)
    requires Inv(c) && |c.above.queue| < c.above.maxSize && |SentUp(c)| < |c.below.pushed|
    ensures Progresses(c, a)
  {
    if c.ring.reader == D.Asleep && !c.ring.ring.notEmpty {
      UndeliveredIsBounded(c);
      a := OutProgresses(c);
    } else {
      a := InProgresses(c);
    }
  }
}
