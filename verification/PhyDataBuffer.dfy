/** The ring between two components of one engine (src/engines/phyengine/PhyDataBuffer.h:54-190): it
    never blocks, and a write to a full ring appends a slot at the end of the vector. */
module PhyDataBuffer {
  import opened DataBuffer

  /** The room getWriteData makes before it hands out a slot. */
  function WithRoom<T>(r: Ring<T>): (n: Ring<T>)
  {
    if r.notFull then r else r.(slots := r.slots + [DataSet([], 0.0, 0.0)], writeIndex := |r.slots|)
  }

  /** A whole write: get a slot, fill it with `x`, release it. */
  function Written<T>(r: Ring<T>, x: DataSet<T>): (n: Ring<T>)
    requires r.writeIndex < |r.slots|
  {
    var room := WithRoom(r);
    WriteReleased(room.(slots := room.slots[room.writeIndex := x])).(isWriteLocked := false)
  }

  class PhyDataBuffer<T> {
    const zero: T
    var buffer: seq<DataSet<T>>
    var isReadLocked: bool
    var isWriteLocked: bool
    var readIndex: nat
    var writeIndex: nat
    var notEmpty: bool
    var notFull: bool

    function State(): (r: Ring<T>)
      reads this
    {
      Ring(buffer, isReadLocked, isWriteLocked, readIndex, writeIndex, notEmpty, notFull)
    }

    constructor (dataBufferLength: nat, zero: T)
      requires dataBufferLength >= 1
      ensures FlagsFit(State()) && Contents(State()) == [] && readIndex == 0 && |buffer| == dataBufferLength
      ensures !isReadLocked && !isWriteLocked && this.zero == zero
    {
      buffer := seq(dataBufferLength, _ => DataSet([], 0.0, 0.0));
      this.zero := zero;
      isReadLocked, isWriteLocked := false, false;
      readIndex, writeIndex := 0, 0;
      notEmpty, notFull := false, true;
    }

    method HasData() returns (b: bool)
      ensures b == State().notEmpty
    {
      b := notEmpty;
    }

    /** Whether there is anything to read is for the caller to ask. */
    method GetReadData() returns (a: Access)
      modifies this`isReadLocked
      ensures a == if old(isReadLocked) then Throws else Passes(readIndex)
      ensures State() == if a.Passes? then ReadGranted(old(State())) else old(State())
    {
      if isReadLocked {
        return Throws;
      }
      isReadLocked := true;
      a := Passes(readIndex);
    }

    method GetWriteData(size: nat) returns (a: Access)
      requires writeIndex < |buffer|
      modifies this
      ensures a == if old(isWriteLocked) then Throws else Passes(WithRoom(old(State())).writeIndex)
      ensures State() == if a.Passes? then WriteGranted(WithRoom(old(State())), size, zero) else old(State())
    {
      if isWriteLocked {
        return Throws;
      }
      if !notFull {
        buffer := buffer + [DataSet([], 0.0, 0.0)];
        writeIndex := |buffer| - 1;
      }
      isWriteLocked := true;
      ghost var slot := buffer[writeIndex];
      if |buffer[writeIndex].data| != size {
        buffer := buffer[writeIndex := buffer[writeIndex].(data := Resized(buffer[writeIndex].data, size, zero))];
      }
      assert buffer[writeIndex].data == Resized(slot.data, size, zero);
      buffer := buffer[writeIndex := buffer[writeIndex].(timeStamp := 0.0)];
      a := Passes(writeIndex);
    }

    /** What a component does with the slot it has been given. */
    method Fill(x: DataSet<T>)
      requires writeIndex < |buffer|
      modifies this`buffer
      ensures buffer == old(buffer)[writeIndex := x]
    {
      buffer := buffer[writeIndex := x];
    }

    method ReleaseReadData()
      requires readIndex < |buffer|
      modifies this
      ensures State() == ReadReleased(old(State())).(isReadLocked := false)
    {
      readIndex := readIndex + 1;
      if readIndex == |buffer| {
        readIndex := 0;
      }
      if readIndex == writeIndex {
        notEmpty := false;
      }
      notFull := true;
      isReadLocked := false;
    }

    method ReleaseWriteData()
      requires writeIndex < |buffer|
      modifies this
      ensures State() == WriteReleased(old(State())).(isWriteLocked := false)
    {
      writeIndex := writeIndex + 1;
      if writeIndex == |buffer| {
        writeIndex := 0;
      }
      if readIndex == writeIndex {
        notFull := false;
      }
      notEmpty := true;
      isWriteLocked := false;
    }

    /** A component's write from the get to the release. */
    method Write(x: DataSet<T>)
      requires writeIndex < |buffer| && !isWriteLocked
      modifies this
      ensures State() == Written(old(State()), x)
    {
      var a := GetWriteData(|x.data|);
      Fill(x);
      ReleaseWriteData();
    }

    /** The consumer's loop while there is data (PhyEngine.cpp:167-171): what it reads, in order. */
    method Drain() returns (got: seq<DataSet<T>>)
      requires readIndex < |buffer| && writeIndex < |buffer| && !isReadLocked
      modifies this
      ensures got == Drained(old(State()))
      ensures State() == AfterDrain(old(State()))
    {
      got := [];
      while notEmpty
        invariant readIndex < |buffer| && writeIndex < |buffer| && !isReadLocked
        invariant Drained(old(State())) == got + Drained(State())
        invariant AfterDrain(old(State())) == AfterDrain(State())
        decreases if notEmpty then ToRead(State()) else 0
      {
        ghost var before, had := State(), got;
        var a := GetReadData();
        got := got + [buffer[readIndex]];
        ReleaseReadData();
        assert State() == ReadOne(before);
        Shift(had, before.slots[before.readIndex], Drained(State()));
      }
    }
  }

  /** How many slots lie between the read index and the write index; a whole turn if they meet. */
  function ToRead<T>(r: Ring<T>): (n: nat)
    requires r.readIndex < |r.slots| && r.writeIndex < |r.slots|
    ensures n >= 1
  {
    if r.readIndex < r.writeIndex then r.writeIndex - r.readIndex else |r.slots| - r.readIndex + r.writeIndex
  }

  lemma Shift<S>(a: seq<S>, x: S, b: seq<S>)
    ensures a + ([x] + b) == a + [x] + b
  {
  }

  function ReadOne<T>(r: Ring<T>): (n: Ring<T>)
    requires r.readIndex < |r.slots|
  {
    ReadReleased(r).(isReadLocked := false)
  }

  /** What reading until the ring says it is empty returns, and the ring afterwards. */
  function Drained<T>(r: Ring<T>): (got: seq<DataSet<T>>)
    requires r.readIndex < |r.slots| && r.writeIndex < |r.slots|
    decreases if r.notEmpty then ToRead(r) else 0
  {
    if !r.notEmpty then [] else [r.slots[r.readIndex]] + Drained(ReadOne(r))
  }

  function AfterDrain<T>(r: Ring<T>): (n: Ring<T>)
    requires r.readIndex < |r.slots| && r.writeIndex < |r.slots|
    decreases if r.notEmpty then ToRead(r) else 0
  {
    if !r.notEmpty then r else AfterDrain(ReadOne(r))
  }
}
