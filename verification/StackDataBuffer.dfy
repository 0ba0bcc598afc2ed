/** The bounded queue between stack components (irisapi/StackDataBuffer.h:83-168), shared by any number
    of producer and consumer threads.

    The threads run the step system below: taking the mutex, evaluating the loop condition, going to
    sleep, waking (also without a reason), moving an element, unlocking and notifying are separate steps,
    and notify_one comes after unlock. */
module StackDataBuffer {
  import opened Wrappers

  /* ------------------------------------------------------------- the buffer itself ---- */

  /** What popDataSet does once it has the mutex; None when it has to wait. */
  function Taken<T>(queue: seq<T>): (r: Option<(T, seq<T>)>)
  {
    if queue == [] then None else Some((queue[0], queue[1..]))
  }

  /** What pushDataSet does once it has the mutex; None when it has to wait. */
  function Put<T>(queue: seq<T>, maxSize: nat, x: T): (r: Option<seq<T>>)
  {
    if |queue| >= maxSize then None else Some(queue + [x])
  }

  class StackDataBuffer<T> {
    var buffer: seq<T>
    const maxBufferSize: nat

    constructor (maxSize: nat)
      ensures buffer == [] && maxBufferSize == maxSize
    {
      buffer, maxBufferSize := [], maxSize;
    }

    /** One evaluation of the loop condition of popDataSet and what follows it. */
    method PopDataSet() returns (p: Option<T>)
      modifies this
      ensures match Taken(old(buffer))
              case None => p == None && buffer == old(buffer)
              case Some(r) => p == Some(r.0) && buffer == r.1
    {
      if |buffer| == 0 {
        return None;
      }
      p := Some(buffer[0]);
      buffer := buffer[1..];
    }

    /** One evaluation of the loop condition of pushDataSet and what follows it. */
    method PushDataSet(set_: T) returns (done: bool)
      modifies this
      ensures match Put(old(buffer), maxBufferSize, set_)
              case None => !done && buffer == old(buffer)
              case Some(r) => done && buffer == r
    {
      if |buffer| >= maxBufferSize {
        return false;
      }
      buffer := buffer + [set_];
      done := true;
    }

    /** Documented as "is there any data in this buffer"; the code answers whether it is empty. */
    method HasData() returns (b: bool)
      ensures b <==> buffer == []
    {
      b := |buffer| == 0;
    }

    method IsFull() returns (b: bool)
      ensures b <==> |buffer| >= maxBufferSize
    {
      b := |buffer| >= maxBufferSize;
    }
  }

  /* -------------------------------------------------------------- threads and steps ---- */

  type ThreadId = nat

  /** Where a thread stands inside popDataSet or pushDataSet. */
  datatype Stage =
    | Entry      // wants the mutex for the first time
    | Check      // holds it and is about to evaluate the loop condition for the first time
    | Asleep     // waits on its condition variable
    | Woken      // has left the wait and wants the mutex back
    | Recheck    // holds it and is back at the loop condition
    | Unlocking  // has moved its element and still holds the mutex
    | Notifying  // has released the mutex and is about to notify

  datatype Op<T> = Pop | Popped(got: T) | Push(set_: T)

  datatype Thread<T> = Idle | Inside(op: Op<T>, stage: Stage)

  /** `pushed` and `popped` record what has gone through the queue, in the order of the moves. */
  datatype State<T> = State(
    queue: seq<T>,
    maxSize: nat,
    mutex: Option<ThreadId>,
    threads: map<ThreadId, Thread<T>>,
    pushed: seq<T>,
    popped: seq<T>)

  datatype Action<T> =
    | Call(t: ThreadId, op: Op<T>)
    | Lock(t: ThreadId)
    | Test(t: ThreadId)
    | SpuriousWake(t: ThreadId)
    | Unlock(t: ThreadId)
    | Notify(t: ThreadId, woken: Option<ThreadId>)

  predicate IsConsumer<T>(th: Thread<T>)
  {
    th.Inside? && !th.op.Push?
  }

  predicate At<T>(s: State<T>, t: ThreadId, stages: set<Stage>)
  {
    t in s.threads && s.threads[t].Inside? && s.threads[t].stage in stages
  }

  predicate HoldsMutex<T>(th: Thread<T>)
  {
    th.Inside? && (th.stage == Check || th.stage == Recheck || th.stage == Unlocking)
  }

  /** Is the thread asleep on the condition variable of the consumers (or of the producers)? */
  predicate Sleeps<T>(th: Thread<T>, consumers: bool)
  {
    th.Inside? && th.stage == Asleep && IsConsumer(th) == consumers
  }

  predicate Enabled<T>(s: State<T>, a: Action<T>)
  {
    a.t in s.threads &&
    var th := s.threads[a.t];
    match a
    case Call(_, op) => th.Idle? && !op.Popped?
    case Lock(_) => th.Inside? && (th.stage == Entry || th.stage == Woken) && s.mutex == None
    case Test(_) => th.Inside? && (th.stage == Check || th.stage == Recheck)
    case SpuriousWake(_) => th.Inside? && th.stage == Asleep
    case Unlock(_) => th.Inside? && th.stage == Unlocking
    case Notify(_, woken) =>
      th.Inside? && th.stage == Notifying &&
      match woken
      case Some(w) => w in s.threads && Sleeps(s.threads[w], !IsConsumer(th))
      case None => forall w :: w in s.threads ==> !Sleeps(s.threads[w], !IsConsumer(th))
  }

  function Next<T>(s: State<T>, a: Action<T>): State<T>
    requires Enabled(s, a)
  {
    var th := s.threads[a.t];
    match a
    case Call(t, op) => s.(threads := s.threads[t := Inside(op, Entry)])
    case Lock(t) =>
      s.(mutex := Some(t), threads := s.threads[t := th.(stage := if th.stage == Entry then Check else Recheck)])
    case Test(t) => Tested(s, t)
    case SpuriousWake(t) => s.(threads := s.threads[t := th.(stage := Woken)])
    case Unlock(t) => s.(mutex := None, threads := s.threads[t := th.(stage := Notifying)])
    case Notify(t, woken) =>
      match woken
      case None => s.(threads := s.threads[t := Idle])
      case Some(w) => s.(threads := s.threads[t := Idle][w := s.threads[w].(stage := Woken)])
  }

  /** The loop condition: either the thread goes to sleep, releasing the mutex in the same step, or it
      moves its element. */
  function Tested<T>(s: State<T>, t: ThreadId): State<T>
    requires t in s.threads && s.threads[t].Inside?
  {
    var th := s.threads[t];
    var asleep := s.(mutex := None, threads := s.threads[t := th.(stage := Asleep)]);
    if th.op.Push? then
      match Put(s.queue, s.maxSize, th.op.set_)
      case None => asleep
      case Some(queue) =>
        s.(queue := queue, pushed := s.pushed + [th.op.set_], threads := s.threads[t := th.(stage := Unlocking)])
    else
      match Taken(s.queue)
      case None => asleep
      case Some(r) =>
        s.(queue := r.1, popped := s.popped + [r.0], threads := s.threads[t := Inside(Popped(r.0), Unlocking)])
  }

  ghost predicate Initial<T>(s: State<T>)
  {
    s.queue == [] && s.mutex == None && s.pushed == [] && s.popped == [] &&
    forall t :: t in s.threads ==> s.threads[t] == Idle
  }

  /** A run, from the first action to the last. */
  predicate IsRun<T>(s: State<T>, run: seq<Action<T>>)
    decreases run
  {
    |run| == 0 || (Enabled(s, run[0]) && IsRun(Next(s, run[0]), run[1..]))
  }

  function After<T>(s: State<T>, run: seq<Action<T>>): State<T>
    requires IsRun(s, run)
    decreases run
  {
    if |run| == 0 then s else After(Next(s, run[0]), run[1..])
  }
}
