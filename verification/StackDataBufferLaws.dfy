/** The queue never loses a wake-up, an element or the order, whatever the threads do. */
module StackDataBufferLaws {
  import opened Wrappers
  import opened StackDataBuffer

  /* ----------------------------------------------------------------- the invariant ---- */

  /** Threads that will still look at the queue, or will still wake somebody who does, on behalf of the
      sleeping consumers (or producers): those of the same side that have been woken and have not yet
      rechecked, and those of the other side between their move and their notification. */
  predicate InFlight<T>(th: Thread<T>, consumers: bool)
  {
    th.Inside? &&
    if IsConsumer(th) == consumers then th.stage == Woken || th.stage == Recheck
    else th.stage == Unlocking || th.stage == Notifying
  }

  ghost function WakeUps<T>(threads: map<ThreadId, Thread<T>>, consumers: bool): set<ThreadId>
  {
    set t | t in threads && InFlight(threads[t], consumers)
  }

  /** What the consumers (or the producers) wait for. */
  function Supply<T>(s: State<T>, consumers: bool): int
  {
    if consumers then |s.queue| else s.maxSize - |s.queue|
  }

  /** While somebody of one side sleeps, the supply is covered by wake-ups in flight. */
  ghost predicate NoLostWakeUp<T>(s: State<T>, consumers: bool)
  {
    (exists t :: t in s.threads && Sleeps(s.threads[t], consumers)) ==>
      Supply(s, consumers) <= |WakeUps(s.threads, consumers)|
  }

  predicate MutexHeldOnce<T>(s: State<T>)
  {
    (s.mutex.Some? ==> s.mutex.value in s.threads) &&
    forall t :: t in s.threads ==> (HoldsMutex(s.threads[t]) <==> s.mutex == Some(t))
  }

  predicate StagesFit<T>(s: State<T>)
  {
    forall t :: t in s.threads && s.threads[t].Inside? && !s.threads[t].op.Push? ==>
      (s.threads[t].op.Popped? <==> s.threads[t].stage == Unlocking || s.threads[t].stage == Notifying)
  }

  ghost predicate Inv<T>(s: State<T>)
  {
    |s.queue| <= s.maxSize && s.pushed == s.popped + s.queue &&
    MutexHeldOnce(s) && StagesFit(s) && NoLostWakeUp(s, true) && NoLostWakeUp(s, false)
  }

  lemma InitialInv<T>(s: State<T>)
    requires Initial(s)
    ensures Inv(s)
  {
  }

  lemma WakeUpsUpdate<T>(threads: map<ThreadId, Thread<T>>, t: ThreadId, th: Thread<T>, consumers: bool)
    requires t in threads
    ensures WakeUps(threads[t := th], consumers) ==
            if InFlight(th, consumers) then WakeUps(threads, consumers) + {t} else WakeUps(threads, consumers) - {t}
    ensures |WakeUps(threads[t := th], consumers)| ==
            |WakeUps(threads, consumers)|
            + (if InFlight(th, consumers) then 1 else 0) - (if InFlight(threads[t], consumers) then 1 else 0)
  {
    var before, after := WakeUps(threads, consumers), WakeUps(threads[t := th], consumers);
    assert after - {t} == before - {t};
    assert InFlight(th, consumers) <==> t in after;
    assert InFlight(threads[t], consumers) <==> t in before;
    if t in after { assert after == (after - {t}) + {t}; } else { assert after == after - {t}; }
    if t in before { assert before == (before - {t}) + {t}; } else { assert before == before - {t}; }
  }

  lemma StepKeepsQueue<T>(s: State<T>, a: Action<T>)
    requires Inv(s) && Enabled(s, a)
    ensures var n := Next(s, a); |n.queue| <= n.maxSize && n.pushed == n.popped + n.queue
  {
  }

  lemma StepKeepsMutex<T>(s: State<T>, a: Action<T>)
    requires MutexHeldOnce(s) && Enabled(s, a)
    ensures MutexHeldOnce(Next(s, a))
  {
  }

  lemma StepKeepsStages<T>(s: State<T>, a: Action<T>)
    requires StagesFit(s) && Enabled(s, a)
    ensures StagesFit(Next(s, a))
  {
  }

  /** A step of one thread keeps the balance if the wake-ups in flight grow with the supply. */
  lemma OneThreadMoves<T>(s: State<T>, n: State<T>, t: ThreadId, consumers: bool)
    requires t in s.threads && t in n.threads && n.threads == s.threads[t := n.threads[t]]
    requires NoLostWakeUp(s, consumers)
    requires Sleeps(n.threads[t], consumers) ==> Supply(n, consumers) <= 0
    requires Supply(n, consumers) <= 0 ||
             Supply(n, consumers) + (if InFlight(s.threads[t], consumers) then 1 else 0) <=
             Supply(s, consumers) + (if InFlight(n.threads[t], consumers) then 1 else 0)
    ensures NoLostWakeUp(n, consumers)
  {
    hide InFlight;
    WakeUpsUpdate(s.threads, t, n.threads[t], consumers);
    if w :| w in n.threads && Sleeps(n.threads[w], consumers) && w != t {
      assert Sleeps(s.threads[w], consumers);
    }
  }

  /** Who is in flight among those a notification concerns. */
  lemma NotifierCounts<T>(s: State<T>, a: Action<T>, consumers: bool)
    requires a.Notify? && Enabled(s, a)
    ensures !InFlight<T>(Idle, consumers)
    ensures InFlight(s.threads[a.t], consumers) ==> IsConsumer(s.threads[a.t]) != consumers
    ensures a.woken.Some? ==>
              !InFlight(s.threads[a.woken.value], consumers) &&
              (InFlight(s.threads[a.woken.value].(stage := Woken), consumers) <==>
               IsConsumer(s.threads[a.woken.value]) == consumers)
  {
  }

  /** notify_one: the notifier's own wake-up is spent, and passed on if anybody sleeps. */
  lemma NotifyKeepsWakeUps<T>(s: State<T>, a: Action<T>, consumers: bool)
    requires NoLostWakeUp(s, consumers) && a.Notify? && Enabled(s, a)
    ensures NoLostWakeUp(Next(s, a), consumers)
  {
    hide WakeUps, InFlight;
    var n := Next(s, a);
    var between := s.threads[a.t := Idle];
    WakeUpsUpdate(s.threads, a.t, Idle, consumers);
    if a.woken.Some? { WakeUpsUpdate(between, a.woken.value, n.threads[a.woken.value], consumers); }
    NotifierCounts(s, a, consumers);
    if w :| w in n.threads && Sleeps(n.threads[w], consumers) {
      assert Sleeps(s.threads[w], consumers);
    }
  }

  /** Every step keeps the balance between what the sleepers wait for and the wake-ups in flight. */
  lemma StepKeepsWakeUps<T>(s: State<T>, a: Action<T>, consumers: bool)
    requires Inv(s) && Enabled(s, a)
    ensures NoLostWakeUp(Next(s, a), consumers)
  {
    hide WakeUps;
    if a.Notify? {
      NotifyKeepsWakeUps(s, a, consumers);
    } else {
      OneThreadMoves(s, Next(s, a), a.t, consumers);
    }
  }

  lemma StepKeepsInv<T>(s: State<T>, a: Action<T>)
    requires Inv(s) && Enabled(s, a)
    ensures Inv(Next(s, a)) && Next(s, a).threads.Keys == s.threads.Keys && Next(s, a).maxSize == s.maxSize
  {
    StepKeepsQueue(s, a);
    StepKeepsMutex(s, a);
    StepKeepsStages(s, a);
    StepKeepsWakeUps(s, a, true);
    StepKeepsWakeUps(s, a, false);
  }

  /** The invariant holds in every reachable state: for any set of threads, any interleaving, any
      spurious wake-ups. */
  lemma {:induction false} RunKeepsInv<T>(s: State<T>, run: seq<Action<T>>)
    requires Inv(s) && IsRun(s, run)
    ensures Inv(After(s, run)) && After(s, run).maxSize == s.maxSize
    decreases run
  {
    if run != [] {
      StepKeepsInv(s, run[0]);
      RunKeepsInv(Next(s, run[0]), run[1..]);
    }
  }

  /* ---------------------------------------------------------------- what follows ---- */

  /** With room for one element, a producer and a consumer are never both asleep unless somebody is on
      the way to wake one of them. */
  lemma NoMutualSleep<T>(start: State<T>, run: seq<Action<T>>, c: ThreadId, p: ThreadId)
    requires Initial(start) && IsRun(start, run) && start.maxSize >= 1
    requires var s := After(start, run);
             c in s.threads && Sleeps(s.threads[c], true) && p in s.threads && Sleeps(s.threads[p], false)
    ensures var s := After(start, run); WakeUps(s.threads, true) != {} || WakeUps(s.threads, false) != {}
  {
    InitialInv(start);
    RunKeepsInv(start, run);
  }

  /** Without room the guarantee is void: one consumer and one producer are enough. */
  lemma NoRoomDeadlocks<T>(x: T) returns (start: State<T>, run: seq<Action<T>>)
    ensures Initial(start) && start.maxSize == 0 && IsRun(start, run)
    ensures var s := After(start, run);
            0 in s.threads && Sleeps(s.threads[0], true) && 1 in s.threads && Sleeps(s.threads[1], false) &&
            WakeUps(s.threads, true) == {} && WakeUps(s.threads, false) == {}
  {
    hide IsRun, After;
    start := State([], 0, None, map[0 := Idle, 1 := Idle], [], []);
    run := [];
    EmptyRun(start);
    run := Extended(start, run, Call(0, Pop));
    run := Extended(start, run, Lock(0));
    run := Extended(start, run, Test(0));
    run := Extended(start, run, Call(1, Push(x)));
    run := Extended(start, run, Lock(1));
    run := Extended(start, run, Test(1));
  }

  lemma EmptyRun<T>(s: State<T>)
    ensures IsRun(s, []) && After(s, []) == s
  {
  }

  lemma Extended<T>(s: State<T>, run: seq<Action<T>>, a: Action<T>) returns (longer: seq<Action<T>>)
    requires IsRun(s, run) && Enabled(After(s, run), a)
    ensures IsRun(s, longer) && After(s, longer) == Next(After(s, run), a)
  {
    longer := run + [a];
    RunExtends(s, run, a);
  }

  /** A run can be continued by any action that is enabled at its end. */
  lemma {:induction false} RunExtends<T>(s: State<T>, run: seq<Action<T>>, a: Action<T>)
    requires IsRun(s, run) && Enabled(After(s, run), a)
    ensures IsRun(s, run + [a]) && After(s, run + [a]) == Next(After(s, run), a)
    decreases run
  {
    if run == [] {
      assert [] + [a] == [a];
    } else {
      assert (run + [a])[1..] == run[1..] + [a];
      RunExtends(Next(s, run[0]), run[1..], a);
    }
  }

  /** An action by which an operation that is under way proceeds; calls and spurious wake-ups are not. */
  predicate Progresses<T>(s: State<T>, a: Action<T>)
  {
    Enabled(s, a) && !a.Call? && !a.SpuriousWake?
  }

  lemma HolderProgresses<T>(s: State<T>, t: ThreadId) returns (a: Action<T>)
    requires Inv(s) && t in s.threads && HoldsMutex(s.threads[t])
    ensures Progresses(s, a)
  {
    a := if s.threads[t].stage == Unlocking then Unlock(t) else Test(t);
  }

  /** Whenever some thread is inside an operation and not asleep, some operation can proceed. */
  lemma AwakeProgresses<T>(s: State<T>, t: ThreadId) returns (a: Action<T>)
    requires Inv(s) && t in s.threads && s.threads[t].Inside? && s.threads[t].stage != Asleep
    ensures Progresses(s, a)
  {
    if HoldsMutex(s.threads[t]) {
      a := HolderProgresses(s, t);
    } else if s.threads[t].stage == Notifying {
      if w :| w in s.threads && Sleeps(s.threads[w], !IsConsumer(s.threads[t])) {
        a := Notify(t, Some(w));
      } else {
        a := Notify(t, None);
      }
    } else if s.mutex.Some? {
      a := HolderProgresses(s, s.mutex.value);
    } else {
      a := Lock(t);
    }
  }

  /** A thread is never left asleep when what it waits for is there: some operation can proceed. */
  lemma SleeperIsRemembered<T>(s: State<T>, t: ThreadId, consumers: bool) returns (a: Action<T>)
    requires Inv(s) && t in s.threads && Sleeps(s.threads[t], consumers) && Supply(s, consumers) > 0
    ensures Progresses(s, a)
  {
    assert WakeUps(s.threads, consumers) != {};
    var w :| w in WakeUps(s.threads, consumers);
    a := AwakeProgresses(s, w);
  }

  /** The only way for everything to stand still is honest waiting: all threads inside an operation
      sleep on the same side, the consumers on an empty queue or the producers on a full one. */
  lemma StandstillIsHonest<T>(s: State<T>)
    requires Inv(s) && s.maxSize >= 1 && forall a :: !Progresses(s, a)
    ensures forall t :: t in s.threads && s.threads[t].Inside? ==>
              if s.queue == [] then Sleeps(s.threads[t], true)
              else |s.queue| == s.maxSize && Sleeps(s.threads[t], false)
  {
    forall t | t in s.threads && s.threads[t].Inside?
      ensures s.threads[t].stage == Asleep && Supply(s, IsConsumer(s.threads[t])) <= 0
    {
      if s.threads[t].stage != Asleep {
        var a := AwakeProgresses(s, t);
      } else if Supply(s, IsConsumer(s.threads[t])) > 0 {
        var a := SleeperIsRemembered(s, t, IsConsumer(s.threads[t]));
      }
    }
  }

  /** The queue is a queue: a step leaves it alone, appends one element where there is room, or takes the
      oldest one, which is the earliest pushed element not popped before. */
  lemma StepRefinesQueue<T>(s: State<T>, a: Action<T>)
    requires Inv(s) && Enabled(s, a)
    ensures var n := Next(s, a);
            (n.queue == s.queue && n.pushed == s.pushed && n.popped == s.popped) ||
            (exists x :: |s.queue| < s.maxSize && n.queue == s.queue + [x] && n.pushed == s.pushed + [x] &&
              n.popped == s.popped) ||
            (s.queue != [] && n.queue == s.queue[1..] && n.pushed == s.pushed && n.popped == s.pushed[..|s.popped| + 1])
  {
  }
}
