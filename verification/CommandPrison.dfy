/** Threads that wait for a named command (irisapi/CommandPrison.h:44-149). A thread is trapped under the
    prison's mutex and its own cage's; a release takes the prison's mutex, opens every cage filed under
    the command's name and then removes them.

    Every step a thread takes on a mutex, a condition variable or the shared fields is a step of the
    system; waits may end without a notification. */
module CommandPrison {
  import opened Wrappers

  type ThreadId = nat
  type CageId = nat

  /** The values of type boost::any that a command carries are represented by numbers. */
  datatype Command = Command(
    data: seq<int>, typeId: int, commandName: string, componentName: string, engineName: string)

  /** `key` is the name under which the cage is filed, `owner` the thread that made it; `command` is None
      until a release assigns it. */
  datatype Cage = Cage(key: string, owner: ThreadId, locked: bool, command: Option<Command>, mutex: Option<ThreadId>)

  datatype TrapStage =
    | Entry      // called trap, wants the prison's mutex
    | Filing     // holds it, about to make and insert a cage
    | Filed      // wants the cage's mutex
    | Shutting   // holds both, about to lock the cage
    | Closed     // holds both, about to release the prison's mutex
    | Testing    // holds the cage's mutex, at the loop condition
    | Asleep     // waits on the cage's condition variable
    | Woken      // has left the wait and wants the cage's mutex back
    | Leaving    // holds the cage's mutex, about to return the command

  datatype ReleaseStage =
    | Calling    // called release, wants the prison's mutex
    | Finding    // holds it, about to look up the range of cages
    | Picking    // at the head of the loop over the range
    | Opening    // holds the mutex of the first cage of `todo`, about to unlock the cage
    | Opened     // has assigned the cage's fields, about to release its mutex
    | Notifying  // about to notify the cage's condition variable
    | Erased     // has removed the range, about to release the prison's mutex

  datatype Thread =
    | Idle
    | Trap(name: string, at: TrapStage, cage: CageId)
    | Release(c: Command, stage: ReleaseStage, todo: seq<CageId>)

  datatype Outcome = Outcome(t: ThreadId, name: string, command: Command)

  /** `registered` is the multimap in the order of the insertions; `outcomes` records what the calls of
      trap have returned. */
  datatype State = State(
    cages: map<CageId, Cage>,
    registered: seq<CageId>,
    mutex: Option<ThreadId>,
    threads: map<ThreadId, Thread>,
    outcomes: seq<Outcome>)

  datatype Action =
    | CallTrap(t: ThreadId, name: string)
    | CallRelease(t: ThreadId, c: Command)
    | LockPrison(t: ThreadId)
    | File(t: ThreadId, cage: CageId)
    | LockCage(t: ThreadId)
    | Shut(t: ThreadId)
    | UnlockPrison(t: ThreadId)
    | Test(t: ThreadId)
    | SpuriousWake(t: ThreadId)
    | Return(t: ThreadId)
    | Find(t: ThreadId)
    | Open(t: ThreadId)
    | UnlockCage(t: ThreadId)
    | Notify(t: ThreadId, woken: Option<ThreadId>)
    | Erase(t: ThreadId)

  predicate HasCage(th: Thread)
  {
    th.Trap? && th.at != Entry && th.at != Filing
  }

  /** The cage a thread is concerned with. */
  function CageOf(th: Thread): Option<CageId>
  {
    if HasCage(th) then Some(th.cage)
    else if th.Release? && th.todo != [] then Some(th.todo[0])
    else None
  }

  predicate WantsCage(th: Thread)
  {
    (th.Trap? && (th.at == Filed || th.at == Woken)) || (th.Release? && th.stage == Picking && th.todo != [])
  }

  predicate SleepsIn(th: Thread, cage: CageId)
  {
    th.Trap? && th.at == Asleep && th.cage == cage
  }

  /** The cages filed under a name (or the others), in the order of the multimap. */
  function Range(ids: seq<CageId>, cages: map<CageId, Cage>, name: string, under: bool): (r: seq<CageId>)
    decreases |ids|
  {
    if ids == [] then []
    else
      var rest := Range(ids[1..], cages, name, under);
      if (ids[0] in cages && cages[ids[0]].key == name) == under then [ids[0]] + rest else rest
  }

  predicate Enabled(s: State, a: Action)
  {
    a.t in s.threads &&
    var th := s.threads[a.t];
    match a
    case CallTrap(_, _) => th.Idle?
    case CallRelease(_, _) => th.Idle?
    case LockPrison(_) => s.mutex == None && ((th.Trap? && th.at == Entry) || (th.Release? && th.stage == Calling))
    case File(_, cage) => th.Trap? && th.at == Filing && cage !in s.cages
    case LockCage(_) => WantsCage(th) && CageOf(th).value in s.cages && s.cages[CageOf(th).value].mutex == None
    case Shut(_) => th.Trap? && th.at == Shutting && th.cage in s.cages
    case UnlockPrison(_) => (th.Trap? && th.at == Closed) || (th.Release? && th.stage == Erased)
    case Test(_) => th.Trap? && th.at == Testing && th.cage in s.cages
    case SpuriousWake(_) => th.Trap? && th.at == Asleep
    case Return(_) => th.Trap? && th.at == Leaving && th.cage in s.cages && s.cages[th.cage].command.Some?
    case Find(_) => th.Release? && th.stage == Finding
    case Open(_) => th.Release? && th.stage == Opening && th.todo != [] && th.todo[0] in s.cages
    case UnlockCage(_) => th.Release? && th.stage == Opened && th.todo != [] && th.todo[0] in s.cages
    case Notify(_, woken) =>
      th.Release? && th.stage == Notifying && th.todo != [] &&
      (match woken
       case Some(w) => w in s.threads && SleepsIn(s.threads[w], th.todo[0])
       case None => forall w :: w in s.threads ==> !SleepsIn(s.threads[w], th.todo[0]))
    case Erase(_) => th.Release? && th.stage == Picking && th.todo == []
  }

  function At(s: State, t: ThreadId, th: Thread): State
  {
    s.(threads := s.threads[t := th])
  }

  function Next(s: State, a: Action): State
    requires Enabled(s, a)
  {
    var th := s.threads[a.t];
    match a
    case CallTrap(t, name) => At(s, t, Trap(name, Entry, 0))
    case CallRelease(t, c) => At(s, t, Release(c, Calling, []))
    case LockPrison(t) =>
      At(s, t, if th.Trap? then th.(at := Filing) else th.(stage := Finding)).(mutex := Some(t))
    case File(t, cage) =>
      At(s, t, th.(at := Filed, cage := cage))
        .(cages := s.cages[cage := Cage(th.name, t, false, None, None)], registered := s.registered + [cage])
    case LockCage(t) =>
      var id := CageOf(th).value;
      At(s, t, if th.Trap? then th.(at := if th.at == Filed then Shutting else Testing) else th.(stage := Opening))
        .(cages := s.cages[id := s.cages[id].(mutex := Some(t))])
    case Shut(t) =>
      At(s, t, th.(at := Closed)).(cages := s.cages[th.cage := s.cages[th.cage].(locked := true)])
    case UnlockPrison(t) => At(s, t, if th.Trap? then th.(at := Testing) else Idle).(mutex := None)
    case Test(t) =>
      if s.cages[th.cage].locked then
        At(s, t, th.(at := Asleep)).(cages := s.cages[th.cage := s.cages[th.cage].(mutex := None)])
      else At(s, t, th.(at := Leaving))
    case SpuriousWake(t) => At(s, t, th.(at := Woken))
    case Return(t) =>
      At(s, t, Idle)
        .(cages := s.cages[th.cage := s.cages[th.cage].(mutex := None)],
          outcomes := s.outcomes + [Outcome(t, th.name, s.cages[th.cage].command.value)])
    case Find(t) => At(s, t, th.(stage := Picking, todo := Range(s.registered, s.cages, th.c.commandName, true)))
    case Open(t) =>
      At(s, t, th.(stage := Opened))
        .(cages := s.cages[th.todo[0] := s.cages[th.todo[0]].(locked := false, command := Some(th.c))])
    case UnlockCage(t) =>
      At(s, t, th.(stage := Notifying)).(cages := s.cages[th.todo[0] := s.cages[th.todo[0]].(mutex := None)])
    case Notify(t, woken) =>
      var n := At(s, t, th.(stage := Picking, todo := th.todo[1..]));
      (match woken
       case None => n
       case Some(w) => n.(threads := n.threads[w := s.threads[w].(at := Woken)]))
    case Erase(t) =>
      At(s, t, th.(stage := Erased)).(registered := Range(s.registered, s.cages, th.c.commandName, false))
  }

  ghost predicate Initial(s: State)
  {
    s.cages == map[] && s.registered == [] && s.mutex == None && s.outcomes == [] &&
    forall t :: t in s.threads ==> s.threads[t] == Idle
  }

  predicate IsRun(s: State, run: seq<Action>)
    decreases run
  {
    run == [] || (Enabled(s, run[0]) && IsRun(Next(s, run[0]), run[1..]))
  }

  function After(s: State, run: seq<Action>): State
    requires IsRun(s, run)
    decreases run
  {
    if run == [] then s else After(Next(s, run[0]), run[1..])
  }
}
