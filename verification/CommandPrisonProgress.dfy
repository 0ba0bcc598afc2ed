/** A measure that every step of work under way decreases: releases come to an end, and every thread they
    have freed returns with their command. */
module CommandPrisonProgress {
  import opened Wrappers
  import opened CommandPrison
  import opened CommandPrisonLaws

  /* ------------------------------------------------------------------------- the cost ---- */

  /** What a filed cage that is not yet opened still costs the release that will open it. */
  const LOAD := 6

  function TrapCost(at: TrapStage): (n: nat)
  {
    match at
    case Entry => 14
    case Filing => 13
    case Filed => 6
    case Shutting => 5
    case Closed => 4
    case Testing => 3
    case Asleep => 2
    case Woken => 4
    case Leaving => 1
  }

  function ReleaseCost(stage: ReleaseStage): (n: nat)
  {
    match stage
    case Calling => 5
    case Finding => 4
    case Picking => 3
    case Opening => 2
    case Opened => 7
    case Notifying => 6
    case Erased => 1
  }

  function ThreadCost(th: Thread): (n: nat)
  {
    match th
    case Idle => 0
    case Trap(_, at, _) => TrapCost(at)
    case Release(_, stage, _) => ReleaseCost(stage)
  }

  /** The threads with numbers below n together. */
  function ThreadsCost(threads: map<ThreadId, Thread>, n: nat): (total: nat)
  {
    if n == 0 then 0 else ThreadsCost(threads, n - 1) + if n - 1 in threads then ThreadCost(threads[n - 1]) else 0
  }

  /** The filed cages that no command has opened. */
  function Unopened(ids: seq<CageId>, cages: map<CageId, Cage>): (total: nat)
    decreases |ids|
  {
    if ids == [] then 0
    else Unopened(ids[1..], cages) + if ids[0] in cages && cages[ids[0]].command == None then 1 else 0
  }

  function Cost(s: State, n: nat): (total: nat)
  {
    ThreadsCost(s.threads, n) + LOAD * Unopened(s.registered, s.cages)
  }

  ghost predicate Numbered(s: State, n: nat)
  {
    forall t :: t in s.threads ==> t < n
  }

  lemma {:induction false} OneThread(threads: map<ThreadId, Thread>, n: nat, t: ThreadId, th: Thread)
    requires t in threads
    ensures ThreadsCost(threads[t := th], n) ==
            ThreadsCost(threads, n) + if t < n then ThreadCost(th) - ThreadCost(threads[t]) else 0
  {
    if n > 0 { OneThread(threads, n - 1, t, th); }
  }

  /* ------------------------------------------------------------------ the filed cages ---- */

  lemma {:induction false} UnopenedSame(ids: seq<CageId>, a: map<CageId, Cage>, b: map<CageId, Cage>)
    requires forall id :: id in ids ==> (id in a && a[id].command == None <==> id in b && b[id].command == None)
    ensures Unopened(ids, a) == Unopened(ids, b)
    decreases |ids|
  {
    if ids != [] { UnopenedSame(ids[1..], a, b); }
  }

  lemma {:induction false} UnopenedMore(ids: seq<CageId>, id: CageId, cages: map<CageId, Cage>)
    ensures Unopened(ids + [id], cages) <= Unopened(ids, cages) + 1
    decreases |ids|
  {
    if ids == [] {
      assert ids + [id] == [id];
    } else {
      assert (ids + [id])[1..] == ids[1..] + [id];
      UnopenedMore(ids[1..], id, cages);
    }
  }

  lemma {:induction false} UnopenedLess(ids: seq<CageId>, id: CageId, cages: map<CageId, Cage>, cage: Cage)
    requires Distinct(ids) && id in ids && id in cages && cages[id].command == None && cage.command.Some?
    ensures Unopened(ids, cages[id := cage]) == Unopened(ids, cages) - 1
    decreases |ids|
  {
    assert Distinct(ids[1..]);
    if ids[0] == id {
      UnopenedSame(ids[1..], cages, cages[id := cage]);
    } else {
      UnopenedLess(ids[1..], id, cages, cage);
    }
  }

  lemma {:induction false} UnopenedRange(ids: seq<CageId>, cages: map<CageId, Cage>, name: string, under: bool)
    ensures Unopened(Range(ids, cages, name, under), cages) <= Unopened(ids, cages)
    decreases |ids|
  {
    if ids != [] {
      UnopenedRange(ids[1..], cages, name, under);
      var rest := Range(ids[1..], cages, name, under);
      assert ([ids[0]] + rest)[1..] == rest;
    }
  }

  /* ------------------------------------------------------------------------ every step ---- */

  /** What a step does to the number of unopened cages. */
  function UnopenedChange(a: Action): (d: int)
  {
    if a.File? then 1 else if a.Open? then -1 else 0
  }

  lemma UnopenedStep(s: State, a: Action)
    requires Inv(s) && Enabled(s, a)
    ensures Unopened(Next(s, a).registered, Next(s, a).cages) <= Unopened(s.registered, s.cages) + UnopenedChange(a)
  {
    hide Range, Unopened;
    if a.File? {
      FiledOne(s, a);
    } else if a.Open? {
      OpenedOne(s, a);
    } else if a.Erase? {
      UnopenedRange(s.registered, s.cages, s.threads[a.t].c.commandName, false);
    } else {
      CommandsStay(s, a);
      UnopenedSame(s.registered, s.cages, Next(s, a).cages);
    }
  }

  lemma FiledOne(s: State, a: Action)
    requires Inv(s) && Enabled(s, a) && a.File?
    ensures Unopened(Next(s, a).registered, Next(s, a).cages) <= Unopened(s.registered, s.cages) + 1
  {
    hide Range, Unopened;
    assert forall id :: id in s.registered ==> id != a.cage by {
      forall id | id in s.registered ensures id != a.cage { assert EntryFits(s, id); }
    }
    UnopenedSame(s.registered, s.cages, Next(s, a).cages);
    UnopenedMore(s.registered, a.cage, Next(s, a).cages);
  }

  lemma OpenedOne(s: State, a: Action)
    requires Inv(s) && Enabled(s, a) && a.Open?
    ensures Unopened(Next(s, a).registered, Next(s, a).cages) == Unopened(s.registered, s.cages) - 1
  {
    hide Range, Unopened;
    var th := s.threads[a.t];
    assert ReleaserFits(s, th) && Pending(th, th.todo[0]) && th.todo[0] in th.todo;
    UnopenedLess(s.registered, th.todo[0], s.cages, Next(s, a).cages[th.todo[0]]);
  }

  lemma CommandsStay(s: State, a: Action)
    requires Enabled(s, a) && !a.File? && !a.Open? && !a.Erase?
    ensures Next(s, a).registered == s.registered && Next(s, a).cages.Keys == s.cages.Keys
    ensures forall id :: id in s.cages ==> Next(s, a).cages[id].command == s.cages[id].command
  {
    hide Range;
  }

  function ThreadsChange(a: Action): (d: int)
  {
    if a.CallTrap? then 14
    else if a.CallRelease? then 5
    else if a.SpuriousWake? then 2
    else if a.File? then -7
    else if a.Open? then 5
    else -1
  }

  lemma ThreadsStep(s: State, a: Action, n: nat)
    requires Enabled(s, a) && Numbered(s, n)
    ensures Numbered(Next(s, a), n)
    ensures ThreadsCost(Next(s, a).threads, n) <= ThreadsCost(s.threads, n) + ThreadsChange(a)
  {
    hide ThreadsCost, Range;
    if a.Notify? && a.woken.Some? {
      var th := s.threads[a.t];
      var after := th.(stage := Picking, todo := th.todo[1..]);
      OneThread(s.threads, n, a.t, after);
      OneThread(s.threads[a.t := after], n, a.woken.value, s.threads[a.woken.value].(at := Woken));
    } else {
      OnlyActorMoves(s, a);
      OneThread(s.threads, n, a.t, Next(s, a).threads[a.t]);
    }
  }

  lemma OnlyActorMoves(s: State, a: Action)
    requires Enabled(s, a) && !(a.Notify? && a.woken.Some?)
    ensures a.t in Next(s, a).threads && Next(s, a).threads == s.threads[a.t := Next(s, a).threads[a.t]]
    ensures ThreadCost(Next(s, a).threads[a.t]) <= ThreadCost(s.threads[a.t]) + ThreadsChange(a)
  {
    hide Range;
  }

  /** At most what a call or a spurious wake-up adds. */
  const OUTSIDE := 14

  /** Every step of work under way makes the cost smaller; calls and spurious wake-ups make it larger by a
      bounded amount. */
  lemma StepCost(s: State, a: Action, n: nat)
    requires Inv(s) && Enabled(s, a) && Numbered(s, n)
    ensures Numbered(Next(s, a), n)
    ensures Cost(Next(s, a), n) <= Cost(s, n) + if Progresses(s, a) then -1 else OUTSIDE
  {
    UnopenedStep(s, a);
    ThreadsStep(s, a, n);
    hide Next, Inv, Numbered, Unopened, ThreadsCost;
  }

  /* --------------------------------------------------------------------------- whole runs ---- */

  /** The steps of a run that carry work forward. */
  function Progressing(s: State, run: seq<Action>): (k: nat)
    requires IsRun(s, run)
    ensures k <= |run|
    decreases run
  {
    if run == [] then 0
    else (if Progresses(s, run[0]) then 1 else 0) + Progressing(Next(s, run[0]), run[1..])
  }

  /** However the threads interleave, only boundedly many steps carry work forward for each call and each
      spurious wake-up. */
  lemma {:induction false} ProgressIsBounded(s: State, run: seq<Action>, n: nat)
    requires Inv(s) && IsRun(s, run) && Numbered(s, n)
    ensures Inv(After(s, run)) && Numbered(After(s, run), n)
    ensures Progressing(s, run) + Cost(After(s, run), n) <= Cost(s, n) + OUTSIDE * (|run| - Progressing(s, run))
    decreases run
  {
    hide Inv, Cost, Next, Progresses, Numbered;
    if run != [] {
      StepKeepsInv(s, run[0]);
      StepCost(s, run[0], n);
      ProgressIsBounded(Next(s, run[0]), run[1..], n);
    }
  }

  ghost predicate AtRest(s: State)
  {
    forall a :: !Progresses(s, a)
  }

  /** At rest no release is under way, and whoever is still in trap sleeps in a cage that is filed, locked
      and without a command. */
  lemma RestIsWaiting(s: State, t: ThreadId)
    requires Inv(s) && AtRest(s) && t in s.threads && !s.threads[t].Idle?
    ensures s.threads[t].Trap? && s.threads[t].at == Asleep && s.threads[t].cage in s.registered
    ensures s.threads[t].cage in s.cages && Waits(s.cages[s.threads[t].cage])
  {
    var th := s.threads[t];
    if !(th.Trap? && th.at == Asleep && th.cage in s.cages && s.cages[th.cage].locked) {
      hide AtRest, Inv, Progresses;
      var a := NobodyIsStuck(s, t);
      assert false by { RestHasNoStep(s, a); }
    } else {
      hide AtRest, CagesHeldOnce, AllEntriesFit, AllReleasersFit, NoneForgotten;
      assert TrappedFits(s, t);
    }
  }

  lemma RestHasNoStep(s: State, a: Action)
    requires AtRest(s)
    ensures !Progresses(s, a)
  {
  }

  /** A thread that is still in its cage with a command, or has returned with it. */
  predicate Served(s: State, t: ThreadId, name: string, cage: CageId, c: Command)
  {
    Outcome(t, name, c) in s.outcomes ||
    (t in s.threads && HasCage(s.threads[t]) && s.threads[t].cage == cage && s.threads[t].name == name &&
     cage in s.cages && s.cages[cage].command == Some(c))
  }

  /** A command, once given, is not taken back or replaced before it is returned. */
  lemma ServedStays(s: State, a: Action, t: ThreadId, name: string, cage: CageId, c: Command)
    requires Inv(s) && Enabled(s, a) && Served(s, t, name, cage, c)
    ensures Served(Next(s, a), t, name, cage, c)
  {
    OutcomesGrow(s, a);
    if Outcome(t, name, c) !in s.outcomes {
      CommandStays(s, a, cage);
      if t != a.t { OtherTrappedStays(s, a, t); } else { OwnerStaysOrReturns(s, a); }
    }
  }

  lemma OutcomesGrow(s: State, a: Action)
    requires Enabled(s, a)
    ensures s.outcomes <= Next(s, a).outcomes
  {
    hide Range;
  }

  lemma CommandStays(s: State, a: Action, cage: CageId)
    requires Inv(s) && Enabled(s, a) && cage in s.cages && s.cages[cage].command.Some?
    ensures cage in Next(s, a).cages && Next(s, a).cages[cage].command == s.cages[cage].command
  {
    hide Range, AllTrappedFit, AllEntriesFit, NoneForgotten, OutcomesFit, PrisonHeldOnce, CagesHeldOnce;
    if a.Open? {
      var th := s.threads[a.t];
      assert ReleaserFits(s, th) && Pending(th, th.todo[0]) && th.todo[0] in th.todo;
    }
  }

  lemma OwnerStaysOrReturns(s: State, a: Action)
    requires Enabled(s, a) && HasCage(s.threads[a.t])
    ensures var (th, n) := (s.threads[a.t], Next(s, a).threads[a.t]);
            if a.Return? then
              th.cage in s.cages && s.cages[th.cage].command.Some? &&
              Next(s, a).outcomes == s.outcomes + [Outcome(a.t, th.name, s.cages[th.cage].command.value)]
            else HasCage(n) && n.cage == th.cage && n.name == th.name
  {
    hide Range;
  }

  lemma {:induction false} ServedInRun(s: State, run: seq<Action>, t: ThreadId, name: string, cage: CageId, c: Command)
    requires Inv(s) && IsRun(s, run) && Served(s, t, name, cage, c)
    ensures Served(After(s, run), t, name, cage, c)
    decreases run
  {
    hide Inv, Next, Served;
    if run != [] {
      StepKeepsInv(s, run[0]);
      ServedStays(s, run[0], t, name, cage, c);
      ServedInRun(Next(s, run[0]), run[1..], t, name, cage, c);
    }
  }

  /** Once a release has opened the cage of a thread, the thread returns with its command: by the time the
      system rests, and left alone it comes to rest within its cost. */
  lemma FreedReturns(s: State, run: seq<Action>, n: nat, t: ThreadId)
    requires Inv(s) && Numbered(s, n) && IsRun(s, run) && Progressing(s, run) == |run|
    requires t in s.threads && HasCage(s.threads[t]) && s.threads[t].cage in s.cages
    requires s.cages[s.threads[t].cage].command.Some?
    ensures |run| <= Cost(s, n)
    ensures AtRest(After(s, run)) ==>
              Outcome(t, s.threads[t].name, s.cages[s.threads[t].cage].command.value) in After(s, run).outcomes
  {
    ProgressIsBounded(s, run, n);
    var (name, cage) := (s.threads[t].name, s.threads[t].cage);
    var c := s.cages[cage].command.value;
    assert Served(s, t, name, cage, c);
    ServedInRun(s, run, t, name, cage, c);
    var e := After(s, run);
    hide AtRest, Inv, Progressing;
    if AtRest(e) && Outcome(t, name, c) !in e.outcomes { RestIsWaiting(e, t); }
  }

  /** There is such a way to rest from every state. */
  lemma {:induction false} ComesToRest(s: State, n: nat) returns (run: seq<Action>)
    requires Inv(s) && Numbered(s, n)
    ensures IsRun(s, run) && Progressing(s, run) == |run| && |run| <= Cost(s, n)
    ensures Inv(After(s, run)) && AtRest(After(s, run))
    decreases Cost(s, n)
  {
    hide Cost, Next, Inv, Numbered;
    if a :| Progresses(s, a) {
      StepKeepsInv(s, a);
      StepCost(s, a, n);
      var rest := ComesToRest(Next(s, a), n);
      run := [a] + rest;
      assert run[1..] == rest;
    } else {
      run := [];
    }
  }

  /** From the beginning: after any run, every way of going on without new calls ends within the cost, and
      where it ends, only threads that no release has freed are still in trap. */
  lemma WaitersRemain(start: State, run: seq<Action>, more: seq<Action>, n: nat, t: ThreadId)
    requires Initial(start) && IsRun(start, run) && Numbered(start, n)
    requires IsRun(After(start, run), more) && Progressing(After(start, run), more) == |more|
    ensures |more| <= Cost(After(start, run), n)
    ensures var s := After(After(start, run), more);
            AtRest(s) && t in s.threads && !s.threads[t].Idle? ==>
              s.threads[t].Trap? && s.threads[t].at == Asleep && s.threads[t].cage in s.registered &&
              s.threads[t].cage in s.cages && Waits(s.cages[s.threads[t].cage])
  {
    hide Inv, Cost, AtRest, Numbered, Initial, Progressing, Next;
    InitialInv(start);
    ProgressIsBounded(start, run, n);
    ProgressIsBounded(After(start, run), more, n);
    var s := After(After(start, run), more);
    if AtRest(s) && t in s.threads && !s.threads[t].Idle? { RestIsWaiting(s, t); }
  }
}
