/** A measure that every step of work under way decreases: left alone, the chain comes to rest, and it
    rests only when everything accepted has been sent up or the queue above is full. */
module TranslatorChainProgress {
  import opened Wrappers
  import S = StackDataBuffer
  import SL = StackDataBufferLaws
  import D = DataBuffer
  import DL = DataBufferLaws
  import opened TranslatorChain
  import opened TranslatorChainLaws

  /* ---------------------------------------------------------------- cost of a queue ---- */

  /** Steps that a thread inside a call can still take on its own, with two to spare for each waking. */
  function StageCost(stage: S.Stage): (n: nat)
  {
    match stage
    case Entry => 6
    case Check => 5
    case Asleep => 4
    case Woken => 6
    case Recheck => 5
    case Unlocking => 4
    case Notifying => 3
  }

  /** What an element of the lower queue still costs on its way through the translators. */
  const LOAD := 47

  /** A thread that is still to push carries the load of its element. */
  function ThreadCost<T>(th: S.Thread<T>, loaded: bool): (n: nat)
  {
    match th
    case Idle => 0
    case Inside(op, stage) =>
      StageCost(stage) +
      if loaded && op.Push? && stage != S.Unlocking && stage != S.Notifying then LOAD else 0
  }

  /** The threads with numbers below n together. */
  function ThreadsCost<T>(threads: map<S.ThreadId, S.Thread<T>>, loaded: bool, n: nat): (total: nat)
  {
    if n == 0 then 0
    else ThreadsCost(threads, loaded, n - 1) + if n - 1 in threads then ThreadCost(threads[n - 1], loaded) else 0
  }

  function QueueCost<T>(s: S.State<T>, loaded: bool, n: nat): (total: nat)
  {
    ThreadsCost(s.threads, loaded, n) + if loaded then LOAD * |s.queue| else 0
  }

  lemma {:induction false} OneThread<T>(threads: map<S.ThreadId, S.Thread<T>>, loaded: bool, n: nat,
        t: S.ThreadId, th: S.Thread<T>)
    requires t in threads
    ensures ThreadsCost(threads[t := th], loaded, n) ==
            ThreadsCost(threads, loaded, n) +
            if t < n then ThreadCost(th, loaded) - ThreadCost(threads[t], loaded) else 0
  {
    if n > 0 { OneThread(threads, loaded, n - 1, t, th); }
  }

  ghost predicate Numbered<T>(s: S.State<T>, n: nat)
  {
    forall t :: t in s.threads ==> t < n
  }

  /** What a step does to the cost: calls and spurious wake-ups raise it, everything else lowers it, and
      taking an element out takes its load out. */
  function CostChange<T>(s: S.State<T>, a: S.Action<T>, loaded: bool): (d: int)
  {
    if a.Call? then 6 + if loaded && a.op.Push? then LOAD else 0
    else if a.SpuriousWake? then 2
    else if a.Test? && a.t in s.threads && S.IsConsumer(s.threads[a.t]) && s.queue != [] && loaded then -1 - LOAD
    else -1
  }

  lemma QueueStepCost<T>(s: S.State<T>, a: S.Action<T>, loaded: bool, n: nat)
    requires S.Enabled(s, a) && Numbered(s, n)
    ensures Numbered(S.Next(s, a), n)
    ensures QueueCost(S.Next(s, a), loaded, n) <= QueueCost(s, loaded, n) + CostChange(s, a, loaded)
  {
    hide ThreadsCost;
    var th := s.threads[a.t];
    match a
    case Call(t, op) => OneThread(s.threads, loaded, n, t, S.Inside(op, S.Entry));
    case Lock(t) => OneThread(s.threads, loaded, n, t, S.Next(s, a).threads[t]);
    case Test(t) => OneThread(s.threads, loaded, n, t, S.Next(s, a).threads[t]);
    case SpuriousWake(t) => OneThread(s.threads, loaded, n, t, S.Next(s, a).threads[t]);
    case Unlock(t) => OneThread(s.threads, loaded, n, t, S.Next(s, a).threads[t]);
    case Notify(t, woken) =>
      OneThread(s.threads, loaded, n, t, S.Idle);
      if woken.Some? {
        OneThread(s.threads[t := S.Idle], loaded, n, woken.value, S.Next(s, a).threads[woken.value]);
      }
  }

  /* ----------------------------------------------------------------- cost of the ring ---- */

  function SideCost(stage: D.Stage): (n: nat)
  {
    match stage
    case Idle => 0
    case Entry => 13
    case Check => 12
    case Asleep => 11
    case Woken => 13
    case Recheck => 12
    case Granted => 11
    case Holding => 10
    case ReleaseEntry => 6
    case Releasing => 5
    case Notifying => 4
    case Unlocking => 1
    case Thrown => 0
  }

  /** What a set in the ring still costs. */
  const RING_LOAD := 23

  function RingCost<T>(s: D.State<T>): (total: int)
  {
    SideCost(s.writer) + SideCost(s.reader) + RING_LOAD * (|s.written| - |s.delivered|)
  }

  function RingChange<T>(d: D.Action<T>): (n: int)
  {
    match d
    case Get(_, _) => 13
    case SpuriousWake(_) => 2
    case Fill(_) => 0
    case Update(side) => if side == D.Writer then RING_LOAD - 1 else -RING_LOAD - 1
    case _ => -1
  }

  lemma RingStepCost<T>(s: D.State<T>, d: D.Action<T>)
    requires DL.Inv(s) && D.Enabled(s, d)
    ensures RingCost(D.Next(s, d)) <= RingCost(s) + RingChange(d)
  {
    hide D.Contents, D.WriteGranted, D.ReadGranted, D.WriteReleased, D.ReadReleased;
    if d.Fill? || d.side == D.Writer { WriterStepCost(s, d); } else { ReaderStepCost(s, d); }
  }

  lemma WriterStepCost<T>(s: D.State<T>, d: D.Action<T>)
    requires DL.Inv(s) && D.Enabled(s, d) && (d.Fill? || d.side == D.Writer)
    ensures RingCost(D.Next(s, d)) <= RingCost(s) + RingChange(d)
  {
    hide D.Contents, D.WriteGranted, D.ReadGranted, D.WriteReleased, D.ReadReleased;
  }

  lemma ReaderStepCost<T>(s: D.State<T>, d: D.Action<T>)
    requires DL.Inv(s) && D.Enabled(s, d) && !d.Fill? && d.side == D.Reader
    ensures RingCost(D.Next(s, d)) <= RingCost(s) + RingChange(d)
  {
    hide D.Contents, D.WriteGranted, D.ReadGranted, D.WriteReleased, D.ReadReleased;
  }

  /* --------------------------------------------------------- cost of the translators ---- */

  /** What the out translator still has to do for the set in its hands, and for its next call. */
  function OutCost(c: Chain): (n: nat)
  {
    match c.outPhase
    case Fetching =>
      if Got(c.below).Some? then LOAD
      else if 0 in c.below.threads && c.below.threads[0].Inside? then 0
      else 7
    case Writing(_) => if c.ring.writer == D.Idle then LOAD else RING_LOAD + 10
    case Copied(_) => RING_LOAD + 9
    case Stamped(_) => RING_LOAD + 8
    case Filled(_) => if DL.Owns(c.ring.writer) then RING_LOAD + 7 else 7
  }

  function InCost(c: Chain): (n: nat)
  {
    match c.inPhase
    case Reading => if c.ring.reader == D.Idle then RING_LOAD else 9
    case Sending(_) => if 0 in c.above.threads && c.above.threads[0].Inside? then 1 else 8
    case Sent => if DL.Owns(c.ring.reader) then 0 else RING_LOAD
  }

  /** At most what a call of another thread or a spurious wake-up adds. */
  const OUTSIDE := LOAD + 6

  function Cost(c: Chain, n: nat): (total: int)
  {
    QueueCost(c.below, true, n) + QueueCost(c.above, false, n) + RingCost(c.ring) + OutCost(c) + InCost(c)
  }

  ghost predicate AllNumbered(c: Chain, n: nat)
  {
    Numbered(c.below, n) && Numbered(c.above, n)
  }

  /** The call of the out translator is paid for beforehand; the set it takes brings its load along. */
  lemma BelowMovesOut(c: Chain, a: S.Action<StackDataSet>)
    requires Inv(c) && Enabled(c, Below(a))
    ensures OutCost(Next(c, Below(a))) ==
            OutCost(c) + if a.Call? && a.t == 0 then -7 else if a == S.Test(0) && c.below.queue != [] then LOAD else 0
    ensures a.Test? && S.IsConsumer(c.below.threads[a.t]) ==> a.t == 0
  {
    hide SL.NoLostWakeUp, SL.MutexHeldOnce, DL.Inv, InSide, WrittenFits;
    BelowTakes(c.below, a);
  }

  lemma BelowStepCost(c: Chain, a: S.Action<StackDataSet>, n: nat)
    requires Inv(c) && Enabled(c, Below(a)) && AllNumbered(c, n)
    ensures AllNumbered(Next(c, Below(a)), n)
    ensures Cost(Next(c, Below(a)), n) <= Cost(c, n) + if Progresses(c, Below(a)) then -1 else OUTSIDE
  {
    assert D.FlagsFit(c.ring.ring);
    hide QueueCost, SL.Inv, DL.Inv, InSide, OutSide, RingCost, InCost, OutCost;
    BelowMovesOut(c, a);
    QueueStepCost(c.below, a, true, n);
    InCostOf(c, Next(c, Below(a)));
  }

  lemma InCostOf(c: Chain, n: Chain)
    requires n.inPhase == c.inPhase && n.ring == c.ring && n.above == c.above
    ensures InCost(n) == InCost(c)
  {
  }

  lemma OutCostOf(c: Chain, n: Chain)
    requires n.outPhase == c.outPhase && n.ring == c.ring && n.below == c.below
    ensures OutCost(n) == OutCost(c)
  {
  }

  /** Which part of the cost of a ring step falls to the out translator, and which to the in translator. */
  function OutShare(d: D.Action<Byte>): (n: int)
  {
    if d.Fill? then -1 else if d.side == D.Reader then 0 else if d.Get? then -14 else if d.Update? then -RING_LOAD
      else 0
  }

  function InShare(d: D.Action<Byte>): (n: int)
  {
    if d.Fill? || d.side == D.Writer then 0 else if d.Get? then -14 else if d.Update? then RING_LOAD else 0
  }

  lemma RingMovesOut(c: Chain, d: D.Action<Byte>)
    requires Inv(c) && Enabled(c, Ring(d))
    ensures OutCost(Next(c, Ring(d))) == OutCost(c) + OutShare(d)
  {
    if d.Fill? || d.side == D.Writer { WriterMovesOut(c, d); } else { ReaderMovesOut(c, d); }
  }

  lemma WriterMovesOut(c: Chain, d: D.Action<Byte>)
    requires Inv(c) && Enabled(c, Ring(d)) && (d.Fill? || d.side == D.Writer)
    ensures OutCost(Next(c, Ring(d))) == OutCost(c) + OutShare(d)
  {
    hide SL.Inv, InSide, WrittenFits, D.Contents, D.WriteGranted, D.ReadGranted, D.WriteReleased, D.ReadReleased;
  }

  lemma ReaderMovesOut(c: Chain, d: D.Action<Byte>)
    requires Inv(c) && Enabled(c, Ring(d)) && !d.Fill? && d.side == D.Reader
    ensures OutCost(Next(c, Ring(d))) == OutCost(c) + OutShare(d)
  {
    hide SL.Inv, InSide, WrittenFits, D.Contents, D.WriteGranted, D.ReadGranted, D.WriteReleased, D.ReadReleased;
  }

  lemma RingMovesIn(c: Chain, d: D.Action<Byte>)
    requires Inv(c) && Enabled(c, Ring(d))
    ensures InCost(Next(c, Ring(d))) == InCost(c) + InShare(d)
  {
    if d.Fill? || d.side == D.Writer { WriterMovesIn(c, d); } else { ReaderMovesIn(c, d); }
  }

  lemma WriterMovesIn(c: Chain, d: D.Action<Byte>)
    requires Inv(c) && Enabled(c, Ring(d)) && (d.Fill? || d.side == D.Writer)
    ensures InCost(Next(c, Ring(d))) == InCost(c) + InShare(d)
  {
    hide SL.Inv, OutSide, SentFits, D.Contents, D.WriteGranted, D.ReadGranted, D.WriteReleased, D.ReadReleased;
  }

  lemma ReaderMovesIn(c: Chain, d: D.Action<Byte>)
    requires Inv(c) && Enabled(c, Ring(d)) && !d.Fill? && d.side == D.Reader
    ensures InCost(Next(c, Ring(d))) == InCost(c) + InShare(d)
  {
    hide SL.Inv, OutSide, SentFits, D.Contents, D.WriteGranted, D.ReadGranted, D.WriteReleased, D.ReadReleased;
  }

  lemma RingStepOfChain(c: Chain, d: D.Action<Byte>, n: nat)
    requires Inv(c) && Enabled(c, Ring(d)) && AllNumbered(c, n)
    ensures AllNumbered(Next(c, Ring(d)), n)
    ensures Cost(Next(c, Ring(d)), n) <= Cost(c, n) + if Progresses(c, Ring(d)) then -1 else OUTSIDE
  {
    RingMovesOut(c, d);
    RingMovesIn(c, d);
    RingStepCost(c.ring, d);
    hide QueueCost, SL.Inv, InSide, OutSide, RingCost, InCost, OutCost, DL.Inv, D.Next;
  }

  lemma TakeCost(c: Chain, n: nat)
    requires Inv(c) && Enabled(c, Take) && AllNumbered(c, n)
    ensures AllNumbered(Next(c, Take), n) && Cost(Next(c, Take), n) <= Cost(c, n) - 1
  {
    hide QueueCost, SL.Inv, DL.Inv, WrittenFits, SentFits, RingCost, OutSide;
  }

  /** The in translator's push is paid for beforehand as well. */
  lemma AboveMovesIn(c: Chain, a: S.Action<StackDataSet>)
    requires Inv(c) && Enabled(c, Above(a))
    ensures InCost(Next(c, Above(a))) <= InCost(c) + if a.Call? && a.t == 0 then -7 else 0
  {
    hide SL.NoLostWakeUp, SL.MutexHeldOnce, OutSide, SentFits, D.Contents;
  }

  lemma AboveStepCost(c: Chain, a: S.Action<StackDataSet>, n: nat)
    requires Inv(c) && Enabled(c, Above(a)) && AllNumbered(c, n)
    ensures AllNumbered(Next(c, Above(a)), n)
    ensures Cost(Next(c, Above(a)), n) <= Cost(c, n) + if Progresses(c, Above(a)) then -1 else OUTSIDE
  {
    assert D.FlagsFit(c.ring.ring);
    hide QueueCost, SL.Inv, DL.Inv, OutSide, InSide, RingCost, OutCost, InCost;
    AboveMovesIn(c, a);
    QueueStepCost(c.above, a, false, n);
    OutCostOf(c, Next(c, Above(a)));
  }

  /** Every step of work under way makes the cost smaller; a call of another thread and a spurious wake-up
      make it larger by a bounded amount. */
  lemma StepCost(c: Chain, a: Action, n: nat)
    requires Inv(c) && Enabled(c, a) && AllNumbered(c, n)
    ensures AllNumbered(Next(c, a), n)
    ensures Cost(Next(c, a), n) <= Cost(c, n) + if Progresses(c, a) then -1 else OUTSIDE
  {
    hide Inv, Cost, Next, AllNumbered;
    match a
    case Below(s) => BelowStepCost(c, s, n);
    case Ring(d) => RingStepOfChain(c, d, n);
    case Take => TakeCost(c, n);
    case Above(s) => AboveStepCost(c, s, n);
  }

  lemma CostIsNatural(c: Chain, n: nat)
    requires Inv(c)
    ensures Cost(c, n) >= 0
  {
    hide SL.Inv, InSide, OutSide, QueueCost, OutCost, InCost;
  }

  /** The steps of a run that carry work forward. */
  ghost function Progressing(c: Chain, run: seq<Action>): (k: nat)
    requires IsRun(c, run)
    ensures k <= |run|
    decreases run
  {
    if run == [] then 0
    else (if Progresses(c, run[0]) then 1 else 0) + Progressing(Next(c, run[0]), run[1..])
  }

  /** In any run, however long and however interleaved, only boundedly many steps carry work forward unless
      other threads keep calling or waiting threads keep waking for nothing. */
  lemma {:induction false} ProgressIsBounded(c: Chain, run: seq<Action>, n: nat)
    requires Inv(c) && IsRun(c, run) && AllNumbered(c, n)
    ensures Inv(After(c, run)) && AllNumbered(After(c, run), n)
    ensures Progressing(c, run) + Cost(After(c, run), n) <= Cost(c, n) + OUTSIDE * (|run| - Progressing(c, run))
    ensures Progressing(c, run) <= Cost(c, n) + OUTSIDE * (|run| - Progressing(c, run))
    decreases run
  {
    hide Inv, Cost, Next, Progresses, AllNumbered;
    if run != [] {
      StepKeepsInv(c, run[0]);
      StepCost(c, run[0], n);
      ProgressIsBounded(Next(c, run[0]), run[1..], n);
    }
    CostIsNatural(After(c, run), n);
  }

  /** Nothing is left to do for the threads that are under way. */
  ghost predicate AtRest(c: Chain)
    requires D.FlagsFit(c.ring.ring)
  {
    forall a :: !Progresses(c, a)
  }

  /** When the chain rests, everything accepted has been sent up, unless there is no room above. */
  lemma RestIsDelivery(c: Chain)
    requires Inv(c) && AtRest(c) && |c.above.queue| < c.above.maxSize
    ensures |SentUp(c)| == |c.below.pushed|
    ensures forall k :: 0 <= k < |c.below.pushed| ==> SentUp(c)[k] == Passed(c.below.pushed[k])
  {
    SentIsPrefix(c);
    hide SentUp, Progresses;
    if |SentUp(c)| < |c.below.pushed| { var a := NeverStalls(c); }
  }

  lemma ProgressIsStep(c: Chain, a: Action)
    requires D.FlagsFit(c.ring.ring) && Progresses(c, a)
    ensures Enabled(c, a)
  {
  }

  /** Left alone, the chain comes to rest within its cost: there is a run to a state of rest, and its length
      is bounded by what is under way. */
  lemma {:induction false} ComesToRest(c: Chain, n: nat) returns (run: seq<Action>)
    requires Inv(c) && AllNumbered(c, n)
    ensures IsRun(c, run) && Progressing(c, run) == |run| && |run| <= Cost(c, n)
    ensures Inv(After(c, run)) && AtRest(After(c, run))
    decreases Cost(c, n)
  {
    hide Cost, Next, Progresses, SL.Inv, DL.SideFits, OutSide, InSide, AllNumbered;
    CostIsNatural(c, n);
    if a :| Progresses(c, a) {
      ProgressIsStep(c, a);
      StepKeepsInv(c, a);
      StepCost(c, a, n);
      CostIsNatural(Next(c, a), n);
      var rest := ComesToRest(Next(c, a), n);
      run := [a] + rest;
      assert run[1..] == rest;
    } else {
      run := [];
    }
  }

  /** From the beginning: after any run whatsoever, once the other threads stay away, every way of going on
      ends within the cost of what is under way, and at its end everything accepted has been sent up, in
      order, or the queue above is full. */
  lemma DeliveredInTheEnd(start: Chain, run: seq<Action>, more: seq<Action>, n: nat)
    requires Initial(start) && IsRun(start, run) && AllNumbered(start, n)
    requires IsRun(After(start, run), more) && Progressing(After(start, run), more) == |more|
    ensures |more| <= Cost(After(start, run), n)
    ensures var c := After(After(start, run), more);
            Inv(c) &&
            (AtRest(c) && |c.above.queue| < c.above.maxSize ==>
               |SentUp(c)| == |c.below.pushed| &&
               forall k :: 0 <= k < |c.below.pushed| ==> SentUp(c)[k] == Passed(c.below.pushed[k]))
  {
    hide SL.Inv, DL.SideFits, OutSide, InSide, Cost, AtRest, SentUp, AllNumbered, Initial, Progressing, Next, Enabled;
    InitialInv(start);
    ProgressIsBounded(start, run, n);
    ProgressIsBounded(After(start, run), more, n);
    var c := After(After(start, run), more);
    if AtRest(c) && |c.above.queue| < c.above.maxSize { RestIsDelivery(c); }
  }
}
