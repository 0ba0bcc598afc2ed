/** The growing ring is a queue exactly as long as it grows only when its read index is 0. */
module PhyDataBufferLaws {
  import opened Arithmetic
  import opened DataBuffer
  import opened PhyDataBuffer
  import DL = DataBufferLaws

  /* --------------------------------------------------------------------- reading ---- */

  /** Reading until the ring is empty gives its contents in order, and leaves the indices together. */
  lemma {:induction false} DrainedIsContents<T>(r: Ring<T>)
    requires FlagsFit(r)
    ensures Drained(r) == Contents(r)
    ensures var n := AfterDrain(r);
            FlagsFit(n) && !n.notEmpty && n.slots == r.slots &&
            n.readIndex == (if r.notEmpty then r.writeIndex else r.readIndex)
    decreases if r.notEmpty then ToRead(r) else 0
  {
    if r.notEmpty {
      DL.ReleaseReadRemoves(r);
      DL.LocksAreNotContents(ReadReleased(r), ReadOne(r));
      DrainedIsContents(ReadOne(r));
    }
  }

  /** With the write index at the front, reading goes on to the end of the vector and stops. */
  lemma {:induction false} DrainedToTheEnd<T>(r: Ring<T>)
    requires r.readIndex < |r.slots| && r.writeIndex == 0 && r.notEmpty
    ensures Drained(r) == r.slots[r.readIndex..]
    ensures AfterDrain(r).slots == r.slots && AfterDrain(r).readIndex == 0 && AfterDrain(r).writeIndex == 0
    ensures !AfterDrain(r).notEmpty && AfterDrain(r).notFull
    decreases |r.slots| - r.readIndex
  {
    var n := ReadOne(r);
    if r.readIndex + 1 == |r.slots| {
      assert r.slots[r.readIndex..] == [r.slots[r.readIndex]];
    } else {
      DrainedToTheEnd(n);
      assert r.slots[r.readIndex..] == [r.slots[r.readIndex]] + r.slots[r.readIndex + 1..];
    }
  }

  /* --------------------------------------------------------------------- writing ---- */

  /** A write to a ring that is not full appends to the queue. */
  lemma WriteAppends<T>(r: Ring<T>, x: DataSet<T>)
    requires FlagsFit(r) && r.notFull
    ensures var n := Written(r, x);
            FlagsFit(n) && Contents(n) == Contents(r) + [x] && |n.slots| == |r.slots| && n.readIndex == r.readIndex
  {
    var filled := r.(slots := r.slots[r.writeIndex := x]);
    DL.WriteSlotIsFree(r, x, filled);
    DL.ReleaseWriteAppends(filled);
    DL.LocksAreNotContents(WriteReleased(filled), Written(r, x));
  }

  /** The ring has been written to while it was full: the next set to write goes at the end. */
  predicate Overrun<T>(r: Ring<T>)
  {
    r.readIndex < |r.slots| && r.writeIndex == 0 && r.notEmpty && !r.notFull
  }

  lemma WriteToFull<T>(r: Ring<T>, x: DataSet<T>)
    requires r.readIndex < |r.slots| && r.writeIndex < |r.slots| && !r.notFull
    ensures var n := Written(r, x); Overrun(n) && n.slots == r.slots + [x] && n.readIndex == r.readIndex
  {
  }

  lemma EndOnly<S>(s: seq<S>, i: nat, x: S)
    requires i <= |s|
    ensures (s + [x])[i..] == s[i..] + [x]
    ensures s[i..] + [x] == s[i..] + s[..i] + [x] <==> i == 0
  {
    assert |s[i..] + [x]| == |s| - i + 1 && |s[i..] + s[..i] + [x]| == |s| + 1;
    assert i == 0 ==> s[i..] + s[..i] == s[i..];
  }

  /** The exact condition under which one write is seen as one more set at the end of the queue. */
  lemma WriteIsFifo<T>(r: Ring<T>, x: DataSet<T>)
    requires FlagsFit(r)
    ensures var n := Written(r, x); n.readIndex < |n.slots| && n.writeIndex < |n.slots|
    ensures Drained(Written(r, x)) == Drained(r) + [x] <==> r.notFull || r.readIndex == 0
    ensures !r.notFull ==> Drained(Written(r, x)) == r.slots[r.readIndex..] + [x]
    ensures |Drained(r)| + 1 - |Drained(Written(r, x))| == if r.notFull then 0 else r.readIndex
  {
    hide Drained;
    DrainedIsContents(r);
    if r.notFull {
      WriteAppends(r, x);
      DrainedIsContents(Written(r, x));
    } else {
      WriteToFull(r, x);
      DrainedToTheEnd(Written(r, x));
      EndOnly(r.slots, r.readIndex, x);
    }
  }

  /* ------------------------------------------------------------------------ runs ---- */

  datatype Op<T> = Write(x: DataSet<T>) | Read

  /** The ring after a run of whole operations, and what the reads returned. */
  function Ran<T>(r: Ring<T>, ops: seq<Op<T>>): (p: (Ring<T>, seq<DataSet<T>>))
    requires r.readIndex < |r.slots| && r.writeIndex < |r.slots|
    decreases |ops|
  {
    if |ops| == 0 then (r, [])
    else match ops[0]
      case Write(x) => Ran(Written(r, x), ops[1..])
      case Read =>
        var rest := Ran(ReadOne(r), ops[1..]);
        (rest.0, [r.slots[r.readIndex]] + rest.1)
  }

  /** The operations that find what they need: a read finds data, and a write to a full ring finds the
      read index at 0. */
  predicate GrowsAtFront<T>(r: Ring<T>, ops: seq<Op<T>>)
    requires r.readIndex < |r.slots| && r.writeIndex < |r.slots|
    decreases |ops|
  {
    |ops| == 0 ||
    match ops[0]
    case Write(x) => (r.notFull || r.readIndex == 0) && GrowsAtFront(Written(r, x), ops[1..])
    case Read => r.notEmpty && GrowsAtFront(ReadOne(r), ops[1..])
  }

  function Writes<T>(ops: seq<Op<T>>): (w: seq<DataSet<T>>)
    decreases |ops|
  {
    if |ops| == 0 then [] else if ops[0].Write? then [ops[0].x] + Writes(ops[1..]) else Writes(ops[1..])
  }

  lemma WriteKeepsFit<T>(r: Ring<T>, x: DataSet<T>)
    requires FlagsFit(r) && (r.notFull || r.readIndex == 0)
    ensures FlagsFit(Written(r, x)) && Contents(Written(r, x)) == Contents(r) + [x]
  {
    if r.notFull {
      WriteAppends(r, x);
    } else {
      WriteToFull(r, x);
      assert Contents(r) == r.slots[0..] + r.slots[..0];
    }
  }

  /** Along every run that grows only at the front the ring is an unbounded queue: what was there, followed
      by what was written, is what was read, followed by what is there. */
  lemma {:induction false} RunIsFifo<T>(r: Ring<T>, ops: seq<Op<T>>)
    requires FlagsFit(r) && GrowsAtFront(r, ops)
    ensures var p := Ran(r, ops); FlagsFit(p.0) && Contents(r) + Writes(ops) == p.1 + Contents(p.0)
    decreases |ops|
  {
    if |ops| == 0 {
    } else if ops[0].Write? {
      WriteKeepsFit(r, ops[0].x);
      RunIsFifo(Written(r, ops[0].x), ops[1..]);
      Shift(Contents(r), ops[0].x, Writes(ops[1..]));
    } else {
      DL.ReleaseReadRemoves(r);
      DL.LocksAreNotContents(ReadReleased(r), ReadOne(r));
      RunIsFifo(ReadOne(r), ops[1..]);
      ReadFirst(r.slots[r.readIndex], Contents(ReadOne(r)), Writes(ops[1..]), Ran(ReadOne(r), ops[1..]).1,
                Contents(Ran(ReadOne(r), ops[1..]).0));
    }
  }

  lemma ReadFirst<T>(x: T, before: seq<T>, writes: seq<T>, taken: seq<T>, after: seq<T>)
    requires before + writes == taken + after
    ensures ([x] + before) + writes == ([x] + taken) + after
  {
    assert ([x] + before) + writes == [x] + (before + writes);
  }

  /* ---------------------------------------------------------------------- rounds ---- */

  function WrittenAll<T>(r: Ring<T>, batch: seq<DataSet<T>>): (n: Ring<T>)
    requires r.readIndex < |r.slots| && r.writeIndex < |r.slots|
    ensures n.readIndex < |n.slots| && n.writeIndex < |n.slots|
    decreases |batch|
  {
    if |batch| == 0 then r else WrittenAll(Written(r, batch[0]), batch[1..])
  }

  lemma {:induction false} BatchFits<T>(r: Ring<T>, batch: seq<DataSet<T>>)
    requires FlagsFit(r) && |Contents(r)| + |batch| <= |r.slots|
    ensures var n := WrittenAll(r, batch);
            FlagsFit(n) && Contents(n) == Contents(r) + batch && |n.slots| == |r.slots| && n.readIndex == r.readIndex
    decreases |batch|
  {
    if |batch| > 0 {
      WriteAppends(r, batch[0]);
      BatchFits(Written(r, batch[0]), batch[1..]);
      Shift(Contents(r), batch[0], batch[1..]);
      assert batch == [batch[0]] + batch[1..];
    }
  }

  lemma {:induction false} BatchOverruns<T>(r: Ring<T>, batch: seq<DataSet<T>>)
    requires r.readIndex < |r.slots| && r.writeIndex < |r.slots| && !r.notFull && |batch| > 0
    ensures var n := WrittenAll(r, batch); Overrun(n) && n.slots == r.slots + batch && n.readIndex == r.readIndex
    decreases |batch|
  {
    WriteToFull(r, batch[0]);
    if |batch| > 1 {
      BatchOverruns(Written(r, batch[0]), batch[1..]);
      Shift(r.slots, batch[0], batch[1..]);
      assert batch == [batch[0]] + batch[1..];
    } else {
      assert batch == [batch[0]] && WrittenAll(Written(r, batch[0]), batch[1..]) == Written(r, batch[0]);
    }
  }

  lemma {:induction false} WrittenAllSplits<T>(r: Ring<T>, a: seq<DataSet<T>>, b: seq<DataSet<T>>)
    requires r.readIndex < |r.slots| && r.writeIndex < |r.slots|
    ensures WrittenAll(r, a + b) == WrittenAll(WrittenAll(r, a), b)
    decreases |a|
  {
    if |a| == 0 {
      assert a + b == b;
    } else {
      assert (a + b)[1..] == a[1..] + b;
      WrittenAllSplits(Written(r, a[0]), a[1..], b);
    }
  }

  /** A batch larger than the ring, from an empty ring with read index i: the first i sets are lost. */
  lemma LargeBatch<T>(r: Ring<T>, batch: seq<DataSet<T>>)
    requires FlagsFit(r) && !r.notEmpty && |batch| > |r.slots|
    ensures var n := WrittenAll(r, batch);
            |Drained(n)| == |batch| - r.readIndex && (r.readIndex == 0 ==> Drained(n) == batch) &&
            |AfterDrain(n).slots| == |batch| && FlagsFit(AfterDrain(n)) && !AfterDrain(n).notEmpty &&
            AfterDrain(n).readIndex == 0
  {
    var size := |r.slots|;
    var full := WrittenAll(r, batch[..size]);
    assert batch == batch[..size] + batch[size..];
    BatchFits(r, batch[..size]);
    assert Contents(full) == batch[..size];
    WrittenAllSplits(r, batch[..size], batch[size..]);
    BatchOverruns(full, batch[size..]);
    DrainedToTheEnd(WrittenAll(r, batch));
    assert r.readIndex == 0 ==> full.slots[0..] + full.slots[..0] == full.slots;
  }

  /** Write a batch into an empty ring and drain it: the batch comes back exactly when it fits in the ring
      or the read index was 0; the ring then holds at least the batch. */
  lemma RoundReadsBack<T>(r: Ring<T>, batch: seq<DataSet<T>>)
    requires FlagsFit(r) && !r.notEmpty
    ensures var n := WrittenAll(r, batch);
            (Drained(n) == batch <==> |batch| <= |r.slots| || r.readIndex == 0) &&
            FlagsFit(AfterDrain(n)) && !AfterDrain(n).notEmpty &&
            |AfterDrain(n).slots| == (if |batch| <= |r.slots| then |r.slots| else |batch|)
  {
    if |batch| <= |r.slots| {
      BatchFits(r, batch);
      DrainedIsContents(WrittenAll(r, batch));
    } else {
      LargeBatch(r, batch);
    }
  }

  /** Rounds of writing a batch and draining it: the last ring, and what each round read. */
  function Rounds<T>(r: Ring<T>, batches: seq<seq<DataSet<T>>>): (p: (Ring<T>, seq<seq<DataSet<T>>>))
    requires FlagsFit(r) && !r.notEmpty
    ensures |p.1| == |batches|
    decreases |batches|
  {
    if |batches| == 0 then (r, [])
    else
      var n := WrittenAll(r, batches[0]);
      RoundReadsBack(r, batches[0]);
      var rest := Rounds(AfterDrain(n), batches[1..]);
      (rest.0, [Drained(n)] + rest.1)
  }

  /** From a new ring any number of rounds of k sets each read back what was written, and the ring settles
      at max(its length, k) slots. */
  lemma {:induction false} EqualRoundsReadBack<T>(r: Ring<T>, batches: seq<seq<DataSet<T>>>, k: nat)
    requires FlagsFit(r) && !r.notEmpty && (k <= |r.slots| || r.readIndex == 0)
    requires forall b :: b in batches ==> |b| == k
    ensures Rounds(r, batches).1 == batches
    ensures |Rounds(r, batches).0.slots| == if k <= |r.slots| || batches == [] then |r.slots| else k
    decreases |batches|
  {
    hide WrittenAll, Drained, AfterDrain, Contents;
    if |batches| > 0 {
      RoundReadsBack(r, batches[0]);
      EqualRoundsReadBack(AfterDrain(WrittenAll(r, batches[0])), batches[1..], k);
      assert batches == [batches[0]] + batches[1..];
    }
  }

  /** One write moves the write index on by one, around the ring. */
  lemma {:induction false} BatchAdvances<T>(r: Ring<T>, batch: seq<DataSet<T>>)
    requires FlagsFit(r) && |Contents(r)| + |batch| <= |r.slots|
    ensures WrittenAll(r, batch).writeIndex == (r.writeIndex + |batch|) % |r.slots|
    decreases |batch|
  {
    hide Contents;
    if |batch| == 0 {
      RemainderUnique(r.writeIndex, |r.slots|, 0, r.writeIndex);
    } else {
      WriteAppends(r, batch[0]);
      var n := Written(r, batch[0]);
      assert n.writeIndex == Advanced(r.writeIndex, |r.slots|);
      BatchAdvances(n, batch[1..]);
      if r.writeIndex + 1 == |r.slots| { AddMultiple(|batch| - 1, 1, |r.slots|); }
    }
  }

  /** A round that fits moves the read index on by the size of the batch, around the ring. */
  lemma RoundAdvances<T>(r: Ring<T>, batch: seq<DataSet<T>>)
    requires FlagsFit(r) && !r.notEmpty && |batch| <= |r.slots|
    ensures AfterDrain(WrittenAll(r, batch)).readIndex == (r.readIndex + |batch|) % |r.slots|
  {
    hide Drained, AfterDrain;
    BatchFits(r, batch);
    BatchAdvances(r, batch);
    DrainedIsContents(WrittenAll(r, batch));
    if |batch| == 0 { RemainderUnique(r.readIndex, |r.slots|, 0, r.readIndex); }
  }

  /** A condition on the sizes of the batches alone: whenever one is larger than the ring, the sets written
      since the ring last grew are a multiple of its capacity. */
  predicate GrowsOnMultiples(capacity: nat, since: nat, sizes: seq<nat>)
    requires capacity > 0
    decreases |sizes|
  {
    |sizes| == 0 ||
    if sizes[0] <= capacity then GrowsOnMultiples(capacity, since + sizes[0], sizes[1..])
    else since % capacity == 0 && GrowsOnMultiples(sizes[0], 0, sizes[1..])
  }

  function Sizes<T>(batches: seq<seq<T>>): (s: seq<nat>)
    ensures |s| == |batches|
    ensures forall k :: 0 <= k < |batches| ==> s[k] == |batches[k]|
  {
    seq(|batches|, k requires 0 <= k < |batches| => |batches[k]|)
  }

  /** Any rounds read back what they wrote if and only if the ring grows on multiples of its capacity only. */
  lemma {:induction false} RoundsReadBackIff<T>(r: Ring<T>, batches: seq<seq<DataSet<T>>>, since: nat)
    requires FlagsFit(r) && !r.notEmpty && r.readIndex == since % |r.slots|
    ensures Rounds(r, batches).1 == batches <==> GrowsOnMultiples(|r.slots|, since, Sizes(batches))
    decreases |batches|
  {
    hide WrittenAll, Drained, AfterDrain, Contents;
    if |batches| > 0 {
      var (b, rest) := (batches[0], batches[1..]);
      var n := AfterDrain(WrittenAll(r, b));
      RoundReadsBack(r, b);
      assert Sizes(batches)[1..] == Sizes(rest);
      FirstRound(r, batches);
      if |b| <= |r.slots| {
        RoundAdvances(r, b);
        ReduceSummand(since, |b|, |r.slots|);
        RoundsReadBackIff(n, rest, since + |b|);
      } else if since % |r.slots| == 0 {
        LargeBatch(r, b);
        RoundsReadBackIff(n, rest, 0);
      }
    }
  }

  lemma FirstRound<T>(r: Ring<T>, batches: seq<seq<DataSet<T>>>)
    requires FlagsFit(r) && !r.notEmpty && |batches| > 0
    ensures FlagsFit(AfterDrain(WrittenAll(r, batches[0]))) && !AfterDrain(WrittenAll(r, batches[0])).notEmpty
    ensures Rounds(r, batches).1 == batches <==>
            Drained(WrittenAll(r, batches[0])) == batches[0] &&
            Rounds(AfterDrain(WrittenAll(r, batches[0])), batches[1..]).1 == batches[1..]
  {
    hide WrittenAll, Drained, AfterDrain, Contents;
    RoundReadsBack(r, batches[0]);
    var read := Rounds(r, batches).1;
    assert read[1..] == Rounds(AfterDrain(WrittenAll(r, batches[0])), batches[1..]).1;
    assert read == [read[0]] + read[1..] && batches == [batches[0]] + batches[1..];
  }

  /** Unequal rounds may lose data: one set, then three, in a new ring of two slots. */
  lemma UnequalRoundsLose<T>(r: Ring<T>, x: DataSet<T>)
    requires FlagsFit(r) && !r.notEmpty && r.readIndex == 0 && |r.slots| == 2
    ensures Rounds(r, [[x], [x, x, x]]).1[1] != [x, x, x]
  {
    RoundReadsBack(r, [x]);
    BatchFits(r, [x]);
    DrainedIsContents(WrittenAll(r, [x]));
    var n := AfterDrain(WrittenAll(r, [x]));
    RoundReadsBack(n, [x, x, x]);
    assert [[x], [x, x, x]][1..] == [[x, x, x]];
    assert Rounds(n, [[x, x, x]]).1[0] == Drained(WrittenAll(n, [x, x, x]));
  }
}
