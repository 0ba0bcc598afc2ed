/** The ring between two engines (iris/DataBuffer.h:62-205): one writer and one reader fill and drain a
    fixed number of slots in place, blocking on full and on empty. */
module DataBuffer {
  import opened Wrappers

  datatype DataSet<T> = DataSet(data: seq<T>, timeStamp: real, sampleRate: real)

  /* ----------------------------------------------------------------- the ring itself ---- */

  datatype Ring<T> = Ring(
    slots: seq<DataSet<T>>,
    isReadLocked: bool,
    isWriteLocked: bool,
    readIndex: nat,
    writeIndex: nat,
    notEmpty: bool,
    notFull: bool)

  /** The indices are slots, the ring is not both empty and full, and the indices meet exactly when it is
      one of them. */
  predicate FlagsFit<T>(r: Ring<T>)
  {
    r.readIndex < |r.slots| && r.writeIndex < |r.slots| && (r.notEmpty || r.notFull) &&
    (r.readIndex == r.writeIndex <==> !r.notEmpty || !r.notFull)
  }

  /** The unread slots, oldest first. */
  function Contents<T>(r: Ring<T>): (c: seq<DataSet<T>>)
    requires FlagsFit(r)
    ensures |c| <= |r.slots|
    ensures |c| == 0 <==> !r.notEmpty
    ensures |c| == |r.slots| <==> !r.notFull
  {
    if !r.notEmpty then []
    else if r.readIndex < r.writeIndex then r.slots[r.readIndex..r.writeIndex]
    else r.slots[r.readIndex..] + r.slots[..r.writeIndex]
  }

  /** Where the k-th unread set lies. */
  function UnreadSlot<T>(r: Ring<T>, k: nat): (slot: nat)
    requires r.readIndex < |r.slots| && k < |r.slots|
    ensures slot < |r.slots|
  {
    if r.readIndex + k < |r.slots| then r.readIndex + k else r.readIndex + k - |r.slots|
  }

  function Advanced(i: nat, size: nat): (k: nat)
    requires i < size
    ensures k < size
  {
    if i + 1 == size then 0 else i + 1
  }

  /** std::vector::resize. */
  function Resized<T>(data: seq<T>, size: nat, zero: T): (d: seq<T>)
    ensures |d| == size
    ensures forall i :: 0 <= i < size && i < |data| ==> d[i] == data[i]
    ensures forall i :: |data| <= i < size ==> d[i] == zero
  {
    if size <= |data| then data[..size] else data + seq(size - |data|, _ => zero)
  }

  /** getWriteData, once it is let through: the slot is locked, resized and its time stamp cleared. */
  function WriteGranted<T>(r: Ring<T>, size: nat, zero: T): (n: Ring<T>)
    requires r.writeIndex < |r.slots|
  {
    var slot := r.slots[r.writeIndex];
    r.(isWriteLocked := true,
       slots := r.slots[r.writeIndex := DataSet(Resized(slot.data, size, zero), 0.0, slot.sampleRate)])
  }

  function ReadGranted<T>(r: Ring<T>): (n: Ring<T>)
  {
    r.(isReadLocked := true)
  }

  /** releaseReadData up to the notification. */
  function ReadReleased<T>(r: Ring<T>): (n: Ring<T>)
    requires r.readIndex < |r.slots|
  {
    var i := Advanced(r.readIndex, |r.slots|);
    r.(readIndex := i, notEmpty := if i == r.writeIndex then false else r.notEmpty, notFull := true)
  }

  /** releaseWriteData up to the notification. */
  function WriteReleased<T>(r: Ring<T>): (n: Ring<T>)
    requires r.writeIndex < |r.slots|
  {
    var i := Advanced(r.writeIndex, |r.slots|);
    r.(writeIndex := i, notFull := if r.readIndex == i then false else r.notFull, notEmpty := true)
  }

  /** What one of the two get calls meets when it holds the mutex. */
  datatype Access = Throws | Waits | Passes(slot: nat)

  class DataBuffer<T> {
    const buffer: array<DataSet<T>>
    const zero: T
    var isReadLocked: bool
    var isWriteLocked: bool
    var readIndex: nat
    var writeIndex: nat
    var notEmpty: bool
    var notFull: bool

    function State(): (r: Ring<T>)
      reads this, buffer
    {
      Ring(buffer[..], isReadLocked, isWriteLocked, readIndex, writeIndex, notEmpty, notFull)
    }

    constructor (dataBufferLength: nat, zero: T)
      requires dataBufferLength >= 1
      ensures fresh(buffer) && buffer.Length == dataBufferLength && this.zero == zero
      ensures FlagsFit(State()) && Contents(State()) == [] && !isReadLocked && !isWriteLocked
    {
      buffer := new DataSet<T>[dataBufferLength](_ => DataSet([], 0.0, 0.0));
      this.zero := zero;
      isReadLocked, isWriteLocked := false, false;
      readIndex, writeIndex := 0, 0;
      notEmpty, notFull := false, true;
    }

    method HasData() returns (b: bool)
      requires FlagsFit(State())
      ensures b <==> Contents(State()) != []
    {
      b := notEmpty;
    }

    /** One pass through getReadData with the mutex held; `Waits` leaves the caller in the condition's
        wait, from where it evaluates the predicate again. */
    method GetReadData() returns (a: Access)
      modifies this`isReadLocked
      ensures a == if old(isReadLocked) then Throws else if !notEmpty then Waits else Passes(readIndex)
      ensures State() == if a.Passes? then ReadGranted(old(State())) else old(State())
    {
      if isReadLocked {
        return Throws;
      }
      if !notEmpty {
        return Waits;
      }
      isReadLocked := true;
      a := Passes(readIndex);
    }

    method GetWriteData(size: nat) returns (a: Access)
      requires FlagsFit(State())
      modifies this`isWriteLocked, buffer
      ensures a == if old(isWriteLocked) then Throws else if !notFull then Waits else Passes(writeIndex)
      ensures State() == if a.Passes? then WriteGranted(old(State()), size, zero) else old(State())
    {
      if isWriteLocked {
        return Throws;
      }
      if !notFull {
        return Waits;
      }
      isWriteLocked := true;
      if |buffer[writeIndex].data| != size {
        buffer[writeIndex] := buffer[writeIndex].(data := Resized(buffer[writeIndex].data, size, zero));
      }
      assert buffer[writeIndex].data == Resized(old(buffer[writeIndex].data), size, zero);
      buffer[writeIndex] := buffer[writeIndex].(timeStamp := 0.0);
      a := Passes(writeIndex);
    }

    method ReleaseReadData()
      requires FlagsFit(State())
      modifies this
      ensures State() == ReadReleased(old(State())).(isReadLocked := false)
    {
      readIndex := readIndex + 1;
      if readIndex == buffer.Length {
        readIndex := 0;
      }
      if readIndex == writeIndex {
        notEmpty := false;
      }
      notFull := true;
      isReadLocked := false;
    }

    method ReleaseWriteData()
      requires FlagsFit(State())
      modifies this
      ensures State() == WriteReleased(old(State())).(isWriteLocked := false)
    {
      writeIndex := writeIndex + 1;
      if writeIndex == buffer.Length {
        writeIndex := 0;
      }
      if readIndex == writeIndex {
        notFull := false;
      }
      notEmpty := true;
      isWriteLocked := false;
    }
  }

  /* --------------------------------------------------------------- the two threads ---- */

  datatype Side = Writer | Reader

  datatype Stage =
    | Idle
    | Entry         // called get, wants the mutex
    | Check         // holds it: is the previous slot released, and does the predicate hold
    | Asleep        // waits on its condition
    | Woken         // has left the wait and wants the mutex back
    | Recheck       // holds it: does the predicate hold now
    | Granted       // has its slot and still holds the mutex
    | Holding       // works on its slot without the mutex
    | ReleaseEntry  // called release, wants the mutex
    | Releasing     // holds it, about to move the index and the flags
    | Notifying     // holds it, about to notify the other side
    | Unlocking     // holds it, about to clear its lock flag and leave
    | Thrown        // DataBufferReleaseException

  /** `written` and `delivered` are the slots as they were when they were released by the writer and by
      the reader. */
  datatype State<T> = State(
    ring: Ring<T>,
    mutex: Option<Side>,
    writer: Stage,
    reader: Stage,
    size: nat,
    zero: T,
    written: seq<DataSet<T>>,
    delivered: seq<DataSet<T>>)

  datatype Action<T> =
    | Get(side: Side, size: nat)
    | Lock(side: Side)
    | Test(side: Side)
    | SpuriousWake(side: Side)
    | Leave(side: Side)
    | Fill(slot: DataSet<T>)
    | Release(side: Side)
    | Update(side: Side)
    | Notify(side: Side)
    | Unlock(side: Side)

  function StageOf<T>(s: State<T>, side: Side): Stage
  {
    if side == Writer then s.writer else s.reader
  }

  function Other(side: Side): Side
  {
    if side == Writer then Reader else Writer
  }

  function At<T>(s: State<T>, side: Side, stage: Stage): State<T>
  {
    if side == Writer then s.(writer := stage) else s.(reader := stage)
  }

  predicate LockFlag<T>(r: Ring<T>, side: Side)
  {
    if side == Writer then r.isWriteLocked else r.isReadLocked
  }

  predicate MayPass<T>(r: Ring<T>, side: Side)
  {
    if side == Writer then r.notFull else r.notEmpty
  }

  predicate HoldsMutex(stage: Stage)
  {
    stage == Check || stage == Recheck || stage == Granted || stage == Releasing || stage == Notifying ||
      stage == Unlocking
  }

  predicate Enabled<T>(s: State<T>, a: Action<T>)
  {
    match a
    case Get(side, _) => StageOf(s, side) == Idle
    case Lock(side) =>
      s.mutex == None &&
      (StageOf(s, side) == Entry || StageOf(s, side) == Woken || StageOf(s, side) == ReleaseEntry)
    case Test(side) => StageOf(s, side) == Check || StageOf(s, side) == Recheck
    case SpuriousWake(side) => StageOf(s, side) == Asleep
    case Leave(side) => StageOf(s, side) == Granted
    case Fill(_) => s.writer == Holding
    case Release(side) => StageOf(s, side) == Holding
    case Update(side) => StageOf(s, side) == Releasing
    case Notify(side) => StageOf(s, side) == Notifying
    case Unlock(side) => StageOf(s, side) == Unlocking
  }

  function Next<T>(s: State<T>, a: Action<T>): State<T>
    requires FlagsFit(s.ring) && Enabled(s, a)
  {
    match a
    case Get(side, size) => if side == Writer then At(s, side, Entry).(size := size) else At(s, side, Entry)
    case Lock(side) =>
      var stage := StageOf(s, side);
      At(s, side, if stage == Entry then Check else if stage == Woken then Recheck else Releasing).(mutex := Some(side))
    case Test(side) =>
      if StageOf(s, side) == Check && LockFlag(s.ring, side) then At(s, side, Thrown).(mutex := None)
      else if !MayPass(s.ring, side) then At(s, side, Asleep).(mutex := None)
      else
        At(s, side, Granted)
          .(ring := if side == Writer then WriteGranted(s.ring, s.size, s.zero) else ReadGranted(s.ring))
    case SpuriousWake(side) => At(s, side, Woken)
    case Leave(side) => At(s, side, Holding).(mutex := None)
    case Fill(slot) => s.(ring := s.ring.(slots := s.ring.slots[s.ring.writeIndex := slot]))
    case Release(side) => At(s, side, ReleaseEntry)
    case Update(side) =>
      if side == Writer then
        At(s, side, Notifying).(ring := WriteReleased(s.ring), written := s.written + [s.ring.slots[s.ring.writeIndex]])
      else
        At(s, side, Notifying)
          .(ring := ReadReleased(s.ring), delivered := s.delivered + [s.ring.slots[s.ring.readIndex]])
    case Notify(side) =>
      var n := At(s, side, Unlocking);
      if StageOf(s, Other(side)) == Asleep then At(n, Other(side), Woken) else n
    case Unlock(side) =>
      var n := At(s, side, Idle).(mutex := None);
      if side == Writer then n.(ring := n.ring.(isWriteLocked := false))
      else n.(ring := n.ring.(isReadLocked := false))
  }

  ghost predicate Initial<T>(s: State<T>)
  {
    FlagsFit(s.ring) && Contents(s.ring) == [] && !s.ring.isReadLocked && !s.ring.isWriteLocked &&
    s.mutex == None && s.writer == Idle && s.reader == Idle && s.written == [] && s.delivered == []
  }

  ghost predicate IsRun<T>(s: State<T>, run: seq<Action<T>>)
    decreases run
  {
    FlagsFit(s.ring) && (run == [] || (Enabled(s, run[0]) && IsRun(Next(s, run[0]), run[1..])))
  }

  ghost function After<T>(s: State<T>, run: seq<Action<T>>): State<T>
    requires IsRun(s, run)
    decreases run
  {
    if run == [] then s else After(Next(s, run[0]), run[1..])
  }
}
