/** No thread slips past a release, none is freed by the wrong one, and none is forgotten. */
module CommandPrisonLaws {
  import opened Wrappers
  import opened CommandPrison

  predicate HoldsPrison(th: Thread)
  {
    (th.Trap? && (th.at == Filing || th.at == Filed || th.at == Shutting || th.at == Closed)) ||
    (th.Release? && th.stage != Calling)
  }

  predicate HoldsCage(th: Thread)
  {
    (th.Trap? && (th.at == Shutting || th.at == Closed || th.at == Testing || th.at == Leaving)) ||
    (th.Release? && (th.stage == Opening || th.stage == Opened))
  }

  /** The releaser has looked up its range and not yet removed it. */
  predicate Ranging(th: Thread)
  {
    th.Release? && th.stage != Calling && th.stage != Finding && th.stage != Erased
  }

  /** The cages of the range that are still to be opened. */
  predicate Pending(th: Thread, id: CageId)
  {
    th.Release? && id in th.todo && !(id == th.todo[0] && (th.stage == Opened || th.stage == Notifying))
  }

  predicate Distinct(ids: seq<CageId>)
  {
    forall i, j :: 0 <= i < j < |ids| ==> ids[i] != ids[j]
  }

  predicate PrisonHeldOnce(s: State)
  {
    (s.mutex.Some? ==> s.mutex.value in s.threads) &&
    forall t :: t in s.threads ==> (HoldsPrison(s.threads[t]) <==> s.mutex == Some(t))
  }

  /** A thread that holds a cage's mutex is recorded there. */
  predicate HolderFits(s: State, t: ThreadId)
    requires t in s.threads
  {
    HoldsCage(s.threads[t]) ==>
      var id := CageOf(s.threads[t]); id.Some? && id.value in s.cages && s.cages[id.value].mutex == Some(t)
  }

  /** A recorded holder of a cage's mutex holds it. */
  predicate MutexFits(s: State, id: CageId)
    requires id in s.cages
  {
    s.cages[id].mutex.Some? ==>
      var t := s.cages[id].mutex.value;
      t in s.threads && HoldsCage(s.threads[t]) && CageOf(s.threads[t]) == Some(id)
  }

  predicate CagesHeldOnce(s: State)
  {
    (forall t :: t in s.threads ==> HolderFits(s, t)) && (forall id :: id in s.cages ==> MutexFits(s, id))
  }

  /** Is the cage still shut and filed, or opened by a command of its own name? */
  predicate Waits(cage: Cage)
  {
    cage.locked && cage.command == None
  }

  predicate Freed(cage: Cage)
  {
    !cage.locked && cage.command.Some? && cage.command.value.commandName == cage.key
  }

  predicate TrappedFits(s: State, t: ThreadId)
    requires t in s.threads && HasCage(s.threads[t])
  {
    var th := s.threads[t];
    th.cage in s.cages &&
    var cage := s.cages[th.cage];
    cage.owner == t && cage.key == th.name &&
    (cage.command == None ==> th.cage in s.registered) &&
    if th.at == Filed || th.at == Shutting then !cage.locked && cage.command == None
    else if th.at == Closed then Waits(cage)
    else if th.at == Leaving then Freed(cage)
    else Waits(cage) || Freed(cage)
  }

  predicate AllTrappedFit(s: State)
  {
    forall t :: t in s.threads && HasCage(s.threads[t]) ==> TrappedFits(s, t)
  }

  /** Has the thread that holds the prison's mutex just opened this cage? */
  predicate OpenedByHolder(s: State, id: CageId)
  {
    s.mutex.Some? && s.mutex.value in s.threads && id in s.cages &&
    var th := s.threads[s.mutex.value];
    Ranging(th) && s.cages[id].key == th.c.commandName && s.cages[id].command == Some(th.c) && !Pending(th, id)
  }

  predicate EntryFits(s: State, id: CageId)
  {
    id in s.cages &&
    if s.cages[id].command == None then
      s.cages[id].owner in s.threads && HasCage(s.threads[s.cages[id].owner]) && s.threads[s.cages[id].owner].cage == id
    else OpenedByHolder(s, id)
  }

  predicate AllEntriesFit(s: State)
  {
    Distinct(s.registered) && forall id :: id in s.registered ==> EntryFits(s, id)
  }

  /** What a releaser still has to open is filed under its name and unopened; it has opened the rest. */
  predicate ReleaserFits(s: State, th: Thread)
    requires th.Release?
  {
    Distinct(th.todo) &&
    (th.stage == Opening || th.stage == Opened || th.stage == Notifying ==> th.todo != []) &&
    (!Ranging(th) ==> th.todo == []) &&
    (forall id :: id in th.todo ==> id in s.registered && id in s.cages && s.cages[id].key == th.c.commandName) &&
    (forall id :: id in th.todo && Pending(th, id) ==> s.cages[id].command == None) &&
    (Ranging(th) ==>
       forall id :: id in s.registered && id in s.cages && s.cages[id].key == th.c.commandName && !Pending(th, id) ==>
         s.cages[id].command == Some(th.c) && !s.cages[id].locked)
  }

  predicate AllReleasersFit(s: State)
  {
    forall t :: t in s.threads && s.threads[t].Release? ==> ReleaserFits(s, s.threads[t])
  }

  /** The notification for an opened cage is still to come. */
  predicate NotifyPending(s: State, id: CageId)
  {
    s.mutex.Some? && s.mutex.value in s.threads &&
    var th := s.threads[s.mutex.value];
    th.Release? && (th.stage == Opened || th.stage == Notifying) && th.todo != [] && th.todo[0] == id
  }

  predicate SleeperFits(s: State, t: ThreadId)
    requires t in s.threads
  {
    s.threads[t].Trap? && s.threads[t].at == Asleep && s.threads[t].cage in s.cages ==>
      s.cages[s.threads[t].cage].locked || NotifyPending(s, s.threads[t].cage)
  }

  predicate NoneForgotten(s: State)
  {
    forall t :: t in s.threads ==> SleeperFits(s, t)
  }

  predicate OutcomesFit(s: State)
  {
    forall k :: 0 <= k < |s.outcomes| ==> s.outcomes[k].command.commandName == s.outcomes[k].name
  }

  ghost predicate Inv(s: State)
  {
    PrisonHeldOnce(s) && CagesHeldOnce(s) && AllTrappedFit(s) && AllEntriesFit(s) && AllReleasersFit(s) &&
    NoneForgotten(s) && OutcomesFit(s)
  }

  lemma InitialInv(s: State)
    requires Initial(s)
    ensures Inv(s)
  {
  }

  lemma StepKeepsPrison(s: State, a: Action)
    requires PrisonHeldOnce(s) && Enabled(s, a)
    ensures PrisonHeldOnce(Next(s, a))
  {
    hide Range;
  }

  /** What a thread's own place tells about the cage it is concerned with. */
  predicate ThreadFits(s: State, t: ThreadId)
    requires t in s.threads
  {
    var th := s.threads[t];
    HolderFits(s, t) && (HasCage(th) ==> TrappedFits(s, t)) && (th.Release? ==> ReleaserFits(s, th))
  }

  lemma StepKeepsHolder(s: State, a: Action, t: ThreadId)
    requires Enabled(s, a) && t in s.threads && HolderFits(s, t) && HolderFits(s, a.t)
    requires s.threads[a.t].Release? && !Ranging(s.threads[a.t]) ==> s.threads[a.t].todo == []
    ensures HolderFits(Next(s, a), t)
  {
    hide Range;
  }

  lemma StepKeepsMutex(s: State, a: Action, id: CageId)
    requires Enabled(s, a) && HolderFits(s, a.t) && id in Next(s, a).cages
    requires id in s.cages ==> MutexFits(s, id)
    ensures MutexFits(Next(s, a), id)
  {
    hide Range;
  }

  lemma StepKeepsCages(s: State, a: Action)
    requires Inv(s) && Enabled(s, a)
    ensures CagesHeldOnce(Next(s, a))
  {
    hide Next, AllTrappedFit, AllEntriesFit, NoneForgotten, HolderFits, MutexFits;
    assert Next(s, a).threads.Keys == s.threads.Keys by { StepKeepsThreads(s, a); }
    forall t | t in Next(s, a).threads ensures HolderFits(Next(s, a), t) { StepKeepsHolder(s, a, t); }
    forall id | id in Next(s, a).cages ensures MutexFits(Next(s, a), id) { StepKeepsMutex(s, a, id); }
  }

  lemma StepKeepsThreads(s: State, a: Action)
    requires Enabled(s, a)
    ensures Next(s, a).threads.Keys == s.threads.Keys
  {
    hide Range;
  }

  /* ------------------------------------------------------------------------ ranges ---- */

  lemma {:induction false} RangeMembers(ids: seq<CageId>, cages: map<CageId, Cage>, name: string, under: bool)
    requires Distinct(ids)
    ensures Distinct(Range(ids, cages, name, under))
    ensures forall id :: id in Range(ids, cages, name, under) <==>
              id in ids && (id in cages && cages[id].key == name) == under
    decreases |ids|
  {
    if ids != [] {
      assert Distinct(ids[1..]);
      RangeMembers(ids[1..], cages, name, under);
      assert ids[0] !in ids[1..];
    }
  }

  /* --------------------------------------------------------- every step, point by point ---- */

  lemma ActorKeepsTrapped(s: State, a: Action)
    requires Enabled(s, a) && HasCage(Next(s, a).threads[a.t])
    requires HasCage(s.threads[a.t]) ==> TrappedFits(s, a.t)
    ensures TrappedFits(Next(s, a), a.t)
  {
    hide Range;
  }

  /** Another thread's cage keeps its key and its owner, and changes otherwise only by its holder or by the
      release that opens it. */
  lemma OtherCageStays(s: State, a: Action, id: CageId)
    requires Enabled(s, a) && id in s.cages
    requires HasCage(s.threads[a.t]) ==> s.threads[a.t].cage != id
    ensures id in Next(s, a).cages
    ensures var (c, d) := (s.cages[id], Next(s, a).cages[id]);
            d.key == c.key && d.owner == c.owner &&
            if a.Open? && s.threads[a.t].todo[0] == id then !d.locked && d.command == Some(s.threads[a.t].c)
            else d.locked == c.locked && d.command == c.command
    ensures a.Erase? || s.registered <= Next(s, a).registered
  {
    hide Range;
  }

  lemma OtherTrappedStays(s: State, a: Action, t: ThreadId)
    requires Enabled(s, a) && t in s.threads && t != a.t && HasCage(s.threads[t])
    ensures var (th, n) := (s.threads[t], Next(s, a).threads[t]);
            HasCage(n) && n.cage == th.cage && n.name == th.name &&
              (n.at == th.at || (th.at == Asleep && n.at == Woken))
  {
    hide Range;
  }

  lemma OtherKeepsTrapped(s: State, a: Action, t: ThreadId)
    requires Enabled(s, a) && !a.Erase? && t in s.threads && t != a.t && HasCage(s.threads[t]) && TrappedFits(s, t)
    requires HasCage(s.threads[a.t]) ==> TrappedFits(s, a.t)
    requires s.threads[a.t].Release? ==> ReleaserFits(s, s.threads[a.t])
    requires !(HoldsPrison(s.threads[a.t]) && HoldsPrison(s.threads[t]))
    ensures HasCage(Next(s, a).threads[t]) && TrappedFits(Next(s, a), t)
  {
    OtherTrappedStays(s, a, t);
    OtherCageStays(s, a, s.threads[t].cage);
    hide Range, Next;
  }

  lemma EraseKeepsTrapped(s: State, a: Action, t: ThreadId)
    requires Enabled(s, a) && a.Erase? && t in s.threads && HasCage(s.threads[t]) && TrappedFits(s, t)
    requires ReleaserFits(s, s.threads[a.t]) && Distinct(s.registered)
    ensures TrappedFits(Next(s, a), t)
  {
    hide Range;
    RangeMembers(s.registered, s.cages, s.threads[a.t].c.commandName, false);
  }

  lemma StepKeepsTrapped(s: State, a: Action, t: ThreadId)
    requires Enabled(s, a) && t in s.threads && ThreadFits(s, t) && ThreadFits(s, a.t) && PrisonHeldOnce(s)
    requires Distinct(s.registered)
    requires HasCage(Next(s, a).threads[t])
    ensures TrappedFits(Next(s, a), t)
  {
    hide Range, TrappedFits, ReleaserFits, HolderFits;
    if t == a.t {
      ActorKeepsTrapped(s, a);
    } else if a.Erase? {
      EraseKeepsTrapped(s, a, t);
    } else {
      OtherKeepsTrapped(s, a, t);
    }
  }

  lemma TrapKeepsEntry(s: State, a: Action, id: CageId)
    requires Enabled(s, a) && !a.File? && EntryFits(s, id) && !s.threads[a.t].Release?
    requires HoldsPrison(s.threads[a.t]) <==> s.mutex == Some(a.t)
    requires HasCage(s.threads[a.t]) ==> TrappedFits(s, a.t)
    ensures EntryFits(Next(s, a), id)
  {
    hide Range;
  }

  lemma ReleaserKeepsEntry(s: State, a: Action, id: CageId)
    requires Enabled(s, a) && !a.Erase? && EntryFits(s, id)
    requires HoldsPrison(s.threads[a.t]) <==> s.mutex == Some(a.t)
    requires s.threads[a.t].Release? && ReleaserFits(s, s.threads[a.t])
    ensures EntryFits(Next(s, a), id)
  {
    hide Range;
  }

  lemma FileKeepsEntry(s: State, a: Action, id: CageId)
    requires Enabled(s, a) && a.File? && PrisonHeldOnce(s)
    requires id == a.cage || EntryFits(s, id)
    ensures EntryFits(Next(s, a), id)
  {
    hide Range;
  }

  lemma EraseKeepsEntry(s: State, a: Action, id: CageId)
    requires Enabled(s, a) && a.Erase? && PrisonHeldOnce(s) && AllEntriesFit(s)
    requires id in Next(s, a).registered
    ensures EntryFits(Next(s, a), id)
  {
    RangeMembers(s.registered, s.cages, s.threads[a.t].c.commandName, false);
  }

  lemma StepKeepsEntry(s: State, a: Action, id: CageId)
    requires Enabled(s, a) && ThreadFits(s, a.t) && PrisonHeldOnce(s) && AllEntriesFit(s)
    requires id in Next(s, a).registered
    ensures EntryFits(Next(s, a), id)
  {
    hide EntryFits, HolderFits, TrappedFits, ReleaserFits, Range;
    if a.Erase? {
      EraseKeepsEntry(s, a, id);
    } else if a.File? {
      FileKeepsEntry(s, a, id);
    } else if s.threads[a.t].Release? {
      ReleaserKeepsEntry(s, a, id);
    } else {
      TrapKeepsEntry(s, a, id);
    }
  }

  lemma StepKeepsDistinct(s: State, a: Action)
    requires Enabled(s, a) && AllEntriesFit(s)
    ensures Distinct(Next(s, a).registered)
  {
    hide Range;
    assert a.File? ==> a.cage !in s.registered;
    if a.Erase? { RangeMembers(s.registered, s.cages, s.threads[a.t].c.commandName, false); }
  }

  lemma FindFits(s: State, t: ThreadId)
    requires Enabled(s, Find(t)) && PrisonHeldOnce(s) && AllEntriesFit(s)
    ensures ReleaserFits(Next(s, Find(t)), Next(s, Find(t)).threads[t])
  {
    hide Range, HasCage;
    RangeMembers(s.registered, s.cages, s.threads[t].c.commandName, true);
  }

  lemma EraseFits(s: State, t: ThreadId)
    requires Enabled(s, Erase(t))
    ensures ReleaserFits(Next(s, Erase(t)), Next(s, Erase(t)).threads[t])
  {
    hide Range;
  }

  lemma NotifyFits(s: State, a: Action)
    requires Enabled(s, a) && a.Notify? && ReleaserFits(s, s.threads[a.t])
    ensures Next(s, a).threads[a.t].Release? && ReleaserFits(Next(s, a), Next(s, a).threads[a.t])
  {
    hide Range, HasCage;
  }

  lemma ActorKeepsReleaser(s: State, a: Action)
    requires Enabled(s, a) && !a.Find? && !a.Erase? && !a.Notify?
    requires s.threads[a.t].Release? && ReleaserFits(s, s.threads[a.t]) && Next(s, a).threads[a.t].Release?
    ensures ReleaserFits(Next(s, a), Next(s, a).threads[a.t])
  {
    hide Range, HasCage;
  }

  /** Without the prison's mutex nothing is filed, taken out, shut or opened. */
  lemma OnlyHolderOpens(s: State, a: Action)
    requires Enabled(s, a) && !HoldsPrison(s.threads[a.t])
    ensures Next(s, a).registered == s.registered && Next(s, a).cages.Keys == s.cages.Keys
    ensures forall id :: id in s.cages ==>
              var (c, d) := (s.cages[id], Next(s, a).cages[id]);
              d.key == c.key && d.command == c.command && d.locked == c.locked
  {
    hide Range;
  }

  lemma OtherReleaserStays(s: State, a: Action, t: ThreadId)
    requires Enabled(s, a) && t in s.threads && t != a.t && s.threads[t].Release?
    ensures t in Next(s, a).threads && Next(s, a).threads[t] == s.threads[t]
  {
    hide Range;
  }

  lemma OtherKeepsReleaser(s: State, a: Action, t: ThreadId)
    requires Enabled(s, a) && t in s.threads && t != a.t && PrisonHeldOnce(s)
    requires s.threads[t].Release? && ReleaserFits(s, s.threads[t])
    ensures Next(s, a).threads[t] == s.threads[t] && ReleaserFits(Next(s, a), s.threads[t])
  {
    assert a.t in s.threads;
    hide Range, Next, Enabled;
    OtherReleaserStays(s, a, t);
    if Ranging(s.threads[t]) { OnlyHolderOpens(s, a); }
  }

  lemma StepKeepsReleaser(s: State, a: Action, t: ThreadId)
    requires Enabled(s, a) && t in s.threads && ThreadFits(s, t) && PrisonHeldOnce(s)
    requires AllEntriesFit(s) && Next(s, a).threads[t].Release?
    ensures ReleaserFits(Next(s, a), Next(s, a).threads[t])
  {
    hide Range, ReleaserFits, HolderFits, TrappedFits, AllEntriesFit;
    if t != a.t {
      if s.threads[t].Release? { OtherKeepsReleaser(s, a, t); }
    } else if a.Find? {
      FindFits(s, t);
    } else if a.Erase? {
      EraseFits(s, t);
    } else if a.Notify? {
      NotifyFits(s, a);
    } else if s.threads[t].Release? {
      ActorKeepsReleaser(s, a);
    } else {
      CallFits(s, a);
    }
  }

  lemma CallFits(s: State, a: Action)
    requires Enabled(s, a) && !s.threads[a.t].Release? && Next(s, a).threads[a.t].Release?
    ensures ReleaserFits(Next(s, a), Next(s, a).threads[a.t])
  {
    hide Range;
  }

  lemma StepKeepsSleeper(s: State, a: Action, t: ThreadId)
    requires Enabled(s, a) && t in s.threads && SleeperFits(s, t) && AllTrappedFit(s) && PrisonHeldOnce(s)
    ensures t in Next(s, a).threads && SleeperFits(Next(s, a), t)
  {
    hide Range;
  }

  lemma StepKeepsOutcomes(s: State, a: Action)
    requires Enabled(s, a) && OutcomesFit(s) && ThreadFits(s, a.t)
    ensures OutcomesFit(Next(s, a))
  {
    hide Range;
  }

  lemma ThreadFitsIn(s: State, t: ThreadId)
    requires Inv(s) && t in s.threads
    ensures ThreadFits(s, t)
  {
    hide HolderFits, TrappedFits, ReleaserFits, AllEntriesFit, NoneForgotten, OutcomesFit;
  }

  lemma StepKeepsInv(s: State, a: Action)
    requires Inv(s) && Enabled(s, a)
    ensures Inv(Next(s, a))
  {
    hide Next, PrisonHeldOnce, CagesHeldOnce, TrappedFits, EntryFits, ReleaserFits, SleeperFits, OutcomesFit;
    hide ThreadFits;
    var n := Next(s, a);
    StepKeepsThreads(s, a);
    ThreadFitsIn(s, a.t);
    StepKeepsPrison(s, a);
    StepKeepsCages(s, a);
    StepKeepsDistinct(s, a);
    StepKeepsOutcomes(s, a);
    forall t | t in n.threads && HasCage(n.threads[t]) ensures TrappedFits(n, t) {
      ThreadFitsIn(s, t);
      StepKeepsTrapped(s, a, t);
    }
    forall id | id in n.registered ensures EntryFits(n, id) { StepKeepsEntry(s, a, id); }
    forall t | t in n.threads && n.threads[t].Release? ensures ReleaserFits(n, n.threads[t]) {
      ThreadFitsIn(s, t);
      StepKeepsReleaser(s, a, t);
    }
    forall t | t in n.threads ensures SleeperFits(n, t) { StepKeepsSleeper(s, a, t); }
  }

  /** The invariant holds in every reachable state, for any set of threads and any interleaving. */
  lemma {:induction false} RunKeepsInv(s: State, run: seq<Action>)
    requires Inv(s) && IsRun(s, run)
    ensures Inv(After(s, run))
    decreases run
  {
    if run != [] {
      hide Inv, Next;
      StepKeepsInv(s, run[0]);
      RunKeepsInv(Next(s, run[0]), run[1..]);
    }
  }

  /* ------------------------------------------------------------------ what follows ---- */

  /** A thread that waits in its cage is still filed there with the cage locked, or has been freed by a
      command of exactly the name it waits for; and no call of trap ever returns another command. */
  lemma TrappedOrFreed(start: State, run: seq<Action>, t: ThreadId)
    requires Initial(start) && IsRun(start, run)
    requires var s := After(start, run);
             t in s.threads && s.threads[t].Trap? && s.threads[t].at in {Testing, Asleep, Woken, Leaving}
    ensures var s := After(start, run);
            var th := s.threads[t];
            th.cage in s.cages && s.cages[th.cage].key == th.name &&
            ((th.cage in s.registered && Waits(s.cages[th.cage])) || Freed(s.cages[th.cage]))
    ensures OutcomesFit(After(start, run))
  {
    InitialInv(start);
    RunKeepsInv(start, run);
  }

  /** When a release is about to remove its range, it has freed, with its own command, every thread filed
      under that name, and no other: the others are still shut in or on their way to be. */
  lemma ReleaseIsExact(s: State, r: ThreadId, id: CageId)
    requires Inv(s) && Enabled(s, Erase(r)) && id in s.registered
    ensures id in s.cages
    ensures var c := s.threads[r].c;
            if s.cages[id].key == c.commandName then !s.cages[id].locked && s.cages[id].command == Some(c)
            else s.cages[id].command == None
    ensures id in Next(s, Erase(r)).registered <==> s.cages[id].key != s.threads[r].c.commandName
  {
    hide Range;
    RangeMembers(s.registered, s.cages, s.threads[r].c.commandName, false);
  }

  /** From the look-up to the removal nothing is filed and nothing is taken out. */
  lemma RangeStays(s: State, r: ThreadId, a: Action)
    requires Inv(s) && r in s.threads && Ranging(s.threads[r]) && Enabled(s, a) && a != Erase(r)
    ensures Next(s, a).registered == s.registered && r in Next(s, a).threads
    ensures Ranging(Next(s, a).threads[r]) && Next(s, a).threads[r].c == s.threads[r].c
  {
    hide Range, AllTrappedFit, AllEntriesFit, NoneForgotten, OutcomesFit, CagesHeldOnce;
  }

  /** However the threads interleave with a release, what it frees in the end is what was filed under its
      name when it looked. */
  lemma {:induction false} ReleaseFreesWhatItFound(s: State, r: ThreadId, run: seq<Action>)
    requires Inv(s) && r in s.threads && Ranging(s.threads[r]) && IsRun(s, run)
    requires Erase(r) !in run && Enabled(After(s, run), Erase(r))
    ensures var n := After(s, run);
            n.registered == s.registered &&
            forall id :: id in s.registered ==>
              id in n.cages &&
              if n.cages[id].key == s.threads[r].c.commandName then
                !n.cages[id].locked && n.cages[id].command == Some(s.threads[r].c)
              else n.cages[id].command == None
    decreases run
  {
    hide Next, Inv, Ranging;
    if run == [] {
      forall id | id in s.registered ensures id in s.cages { ReleaseIsExact(s, r, id); }
      forall id | id in s.registered
        ensures if s.cages[id].key == s.threads[r].c.commandName then
                  !s.cages[id].locked && s.cages[id].command == Some(s.threads[r].c)
                else s.cages[id].command == None
      {
        ReleaseIsExact(s, r, id);
      }
    } else {
      StepKeepsInv(s, run[0]);
      RangeStays(s, r, run[0]);
      ReleaseFreesWhatItFound(Next(s, run[0]), r, run[1..]);
    }
  }

  /** Steps by which a call that is under way proceeds. */
  predicate Progresses(s: State, a: Action)
  {
    Enabled(s, a) && !a.CallTrap? && !a.CallRelease? && !a.SpuriousWake?
  }

  lemma CageHolderProgresses(s: State, t: ThreadId) returns (a: Action)
    requires Inv(s) && t in s.threads && HoldsCage(s.threads[t])
    ensures Progresses(s, a)
  {
    hide NoneForgotten, AllEntriesFit;
    var th := s.threads[t];
    if th.Trap? {
      a := if th.at == Shutting then Shut(t) else if th.at == Closed then UnlockPrison(t)
           else if th.at == Testing then Test(t) else Return(t);
    } else {
      a := if th.stage == Opening then Open(t) else UnlockCage(t);
    }
  }

  lemma CageWanterProgresses(s: State, t: ThreadId) returns (a: Action)
    requires Inv(s) && t in s.threads && WantsCage(s.threads[t])
    ensures Progresses(s, a)
  {
    hide NoneForgotten, AllEntriesFit;
    var id := CageOf(s.threads[t]).value;
    if s.cages[id].mutex.Some? {
      a := CageHolderProgresses(s, s.cages[id].mutex.value);
    } else {
      a := LockCage(t);
    }
  }

  lemma NotifierProgresses(s: State, t: ThreadId) returns (a: Action)
    requires Inv(s) && t in s.threads && s.threads[t].Release? && s.threads[t].stage == Notifying
    ensures Progresses(s, a)
  {
    hide CagesHeldOnce, NoneForgotten, AllEntriesFit;
    if w :| w in s.threads && SleepsIn(s.threads[w], s.threads[t].todo[0]) {
      a := Notify(t, Some(w));
    } else {
      a := Notify(t, None);
    }
  }

  lemma FreshCage(cages: set<CageId>) returns (id: CageId)
    ensures id !in cages
  {
    id := 0;
    var left := cages;
    while id in left
      invariant forall k :: k in cages && id <= k ==> k in left
      decreases left
    {
      left := left - {id};
      id := id + 1;
    }
  }

  lemma PrisonHolderProgresses(s: State, t: ThreadId) returns (a: Action)
    requires Inv(s) && t in s.threads && HoldsPrison(s.threads[t])
    ensures Progresses(s, a)
  {
    hide NoneForgotten, AllEntriesFit, Inv;
    var th := s.threads[t];
    if HoldsCage(th) {
      a := CageHolderProgresses(s, t);
    } else if WantsCage(th) {
      a := CageWanterProgresses(s, t);
    } else if th.Trap? {
      var id := FreshCage(s.cages.Keys);
      a := File(t, id);
    } else if th.stage == Notifying {
      a := NotifierProgresses(s, t);
    } else {
      a := if th.stage == Finding then Find(t) else if th.stage == Picking then Erase(t) else UnlockPrison(t);
    }
  }

  /** No deadlock: a thread inside trap or release proceeds, or the one that keeps a mutex from it does,
      or the one that owes it a notification; only a thread asleep in a locked cage may wait. */
  lemma NobodyIsStuck(s: State, t: ThreadId) returns (a: Action)
    requires Inv(s) && t in s.threads && !s.threads[t].Idle?
    requires s.threads[t].Trap? && s.threads[t].at == Asleep ==>
               s.threads[t].cage in s.cages ==> !s.cages[s.threads[t].cage].locked
    ensures Progresses(s, a)
  {
    hide CagesHeldOnce, AllEntriesFit, AllReleasersFit;
    var th := s.threads[t];
    if HoldsPrison(th) {
      a := PrisonHolderProgresses(s, t);
    } else if HoldsCage(th) {
      a := CageHolderProgresses(s, t);
    } else if WantsCage(th) {
      a := CageWanterProgresses(s, t);
    } else if s.mutex.Some? {
      a := PrisonHolderProgresses(s, s.mutex.value);
    } else {
      a := LockPrison(t);
    }
  }
}
