/** The ring is a first-in first-out buffer in every interleaving of its writer and its reader. */
module DataBufferLaws {
  import opened Wrappers
  import opened DataBuffer

  /** Writing to the slot under the write index while the ring is not full touches nothing unread. */
  lemma WriteSlotIsFree<T>(r: Ring<T>, slot: DataSet<T>, n: Ring<T>)
    requires FlagsFit(r) && r.notFull
    requires n == r.(slots := r.slots[r.writeIndex := slot], isWriteLocked := n.isWriteLocked)
    ensures FlagsFit(n) && Contents(n) == Contents(r)
  {
  }

  /** The writer is handed a slot of the size it has asked for, without a time stamp, whatever was in it; the data
      that fits is still there, and nothing that the reader can see has changed. */
  lemma GrantedSlotIsCleared<T>(r: Ring<T>, size: nat, zero: T)
    requires FlagsFit(r) && r.notFull
    ensures var n := WriteGranted(r, size, zero);
            var slot, was := n.slots[r.writeIndex], r.slots[r.writeIndex];
            FlagsFit(n) && Contents(n) == Contents(r) && n.isWriteLocked &&
            slot.timeStamp == 0.0 && slot.sampleRate == was.sampleRate && |slot.data| == size &&
            (forall i :: 0 <= i < size ==> slot.data[i] == if i < |was.data| then was.data[i] else zero) &&
            (n.readIndex, n.writeIndex, n.isReadLocked) == (r.readIndex, r.writeIndex, r.isReadLocked) &&
            forall k :: 0 <= k < |r.slots| && k != r.writeIndex ==> n.slots[k] == r.slots[k]
  {
    hide Contents;
    var n := WriteGranted(r, size, zero);
    WriteSlotIsFree(r, n.slots[r.writeIndex], n);
  }

  lemma AddLast<S>(s: seq<S>, i: nat, w: nat)
    requires w < |s|
    ensures i <= w ==> s[i..w] + [s[w]] == (if w + 1 < |s| then s[i..w + 1] else s[i..] + s[..0])
    ensures w < i < |s| ==> s[i..] + s[..w] + [s[w]] == s[i..] + s[..w + 1]
  {
  }

  lemma ReleaseWriteAppends<T>(r: Ring<T>)
    requires FlagsFit(r) && r.notFull
    ensures FlagsFit(WriteReleased(r))
    ensures Contents(WriteReleased(r)) == Contents(r) + [r.slots[r.writeIndex]]
  {
    var i, w, s, n := r.readIndex, r.writeIndex, r.slots, WriteReleased(r);
    AddLast(s, i, w);
    if i <= w {
      assert Contents(r) == s[i..w];
      assert Contents(n) == if w + 1 < |s| then s[i..w + 1] else s[i..] + s[..0];
    } else {
      assert Contents(n) == s[i..] + s[..w + 1];
    }
  }

  lemma DropFirst<S>(s: seq<S>, i: nat, w: nat)
    requires i < w <= |s|
    ensures s[i..w] == [s[i]] + (if i + 1 == w then [] else s[i + 1..w])
  {
  }

  lemma DropFirstWrapping<S>(s: seq<S>, i: nat, w: nat)
    requires w <= i < |s|
    ensures s[i..] + s[..w] == [s[i]] + (if i + 1 < |s| then s[i + 1..] + s[..w] else if w == 0 then [] else s[0..w])
  {
    assert s[i..] == [s[i]] + s[i + 1..];
  }

  lemma ReleaseReadRemoves<T>(r: Ring<T>)
    requires FlagsFit(r) && r.notEmpty
    ensures FlagsFit(ReadReleased(r))
    ensures Contents(r) == [r.slots[r.readIndex]] + Contents(ReadReleased(r))
  {
    var i, w, s, n := r.readIndex, r.writeIndex, r.slots, ReadReleased(r);
    if i < w {
      DropFirst(s, i, w);
      assert Contents(n) == if i + 1 == w then [] else s[i + 1..w];
    } else {
      DropFirstWrapping(s, i, w);
      assert Contents(n) == if i + 1 < |s| then s[i + 1..] + s[..w] else if w == 0 then [] else s[0..w];
    }
  }

  /** The side owns its slot: between being granted and giving it back. */
  predicate Owns(stage: Stage)
  {
    stage == Granted || stage == Holding || stage == ReleaseEntry || stage == Releasing
  }

  predicate SideFits<T>(s: State<T>, side: Side)
  {
    var stage := StageOf(s, side);
    stage != Thrown &&
    (HoldsMutex(stage) <==> s.mutex == Some(side)) &&
    (LockFlag(s.ring, side) <==> Owns(stage) || stage == Notifying || stage == Unlocking) &&
    (Owns(stage) ==> MayPass(s.ring, side)) &&
    (stage == Asleep ==> !MayPass(s.ring, side) || StageOf(s, Other(side)) == Notifying)
  }

  ghost predicate RingFits<T>(s: State<T>)
  {
    FlagsFit(s.ring) && s.written == s.delivered + Contents(s.ring)
  }

  ghost predicate Inv<T>(s: State<T>)
  {
    RingFits(s) && SideFits(s, Writer) && SideFits(s, Reader)
  }

  lemma InitialInv<T>(s: State<T>)
    requires Initial(s)
    ensures Inv(s)
  {
  }

  lemma LocksAreNotContents<T>(r: Ring<T>, n: Ring<T>)
    requires FlagsFit(r) && n == r.(isReadLocked := n.isReadLocked, isWriteLocked := n.isWriteLocked)
    ensures FlagsFit(n) && Contents(n) == Contents(r)
  {
  }

  /** Taking the oldest set moves the boundary between delivered and unread by one. */
  lemma Delivered<T>(written: seq<T>, delivered: seq<T>, x: T, rest: seq<T>)
    requires written == delivered + ([x] + rest)
    ensures written == delivered + [x] + rest
  {
  }

  lemma TestKeepsRing<T>(s: State<T>, side: Side)
    requires Inv(s) && Enabled(s, Test(side))
    ensures RingFits(Next(s, Test(side)))
  {
    hide Contents;
    if side == Reader {
      LocksAreNotContents(s.ring, ReadGranted(s.ring));
    } else if MayPass(s.ring, side) {
      var n := WriteGranted(s.ring, s.size, s.zero);
      WriteSlotIsFree(s.ring, n.slots[s.ring.writeIndex], n);
    }
  }

  lemma UpdateKeepsRing<T>(s: State<T>, side: Side)
    requires Inv(s) && Enabled(s, Update(side))
    ensures RingFits(Next(s, Update(side)))
  {
    hide Contents;
    if side == Writer {
      ReleaseWriteAppends(s.ring);
    } else {
      ReleaseReadRemoves(s.ring);
      Delivered(s.written, s.delivered, s.ring.slots[s.ring.readIndex], Contents(ReadReleased(s.ring)));
    }
  }

  lemma StepKeepsRing<T>(s: State<T>, a: Action<T>)
    requires Inv(s) && Enabled(s, a)
    ensures RingFits(Next(s, a)) && |Next(s, a).ring.slots| == |s.ring.slots|
  {
    hide Contents;
    match a
    case Fill(slot) => WriteSlotIsFree(s.ring, slot, Next(s, a).ring);
    case Test(side) => TestKeepsRing(s, side);
    case Update(side) => UpdateKeepsRing(s, side);
    case Unlock(side) => LocksAreNotContents(s.ring, Next(s, a).ring);
    case _ =>
  }

  lemma StepKeepsActor<T>(s: State<T>, a: Action<T>, side: Side)
    requires Inv(s) && Enabled(s, a) && (a.Fill? || a.side == side)
    ensures SideFits(Next(s, a), side)
  {
    hide Contents;
  }

  lemma StepKeepsOther<T>(s: State<T>, a: Action<T>, side: Side)
    requires Inv(s) && Enabled(s, a) && !a.Fill? && a.side != side
    ensures SideFits(Next(s, a), side)
  {
    hide Contents;
  }

  lemma StepKeepsInv<T>(s: State<T>, a: Action<T>)
    requires Inv(s) && Enabled(s, a)
    ensures Inv(Next(s, a)) && |Next(s, a).ring.slots| == |s.ring.slots|
  {
    hide Next, Contents;
    StepKeepsRing(s, a);
    forall side ensures SideFits(Next(s, a), side) {
      if a.Fill? || a.side == side { StepKeepsActor(s, a, side); } else { StepKeepsOther(s, a, side); }
    }
  }

  /** In every reachable state what the writer has released is what the reader has released followed by
      the unread slots; no get call ever throws; flags and indices agree. */
  lemma {:induction false} RunKeepsInv<T>(s: State<T>, run: seq<Action<T>>)
    requires Inv(s) && IsRun(s, run)
    ensures Inv(After(s, run)) && |After(s, run).ring.slots| == |s.ring.slots|
    decreases run
  {
    if run != [] {
      StepKeepsInv(s, run[0]);
      RunKeepsInv(Next(s, run[0]), run[1..]);
    }
  }

  /** The k-th unread set is the one in the k-th slot from the read index on. */
  lemma ContentsAt<T>(r: Ring<T>, k: nat)
    requires FlagsFit(r) && k < |Contents(r)|
    ensures Contents(r)[k] == r.slots[UnreadSlot(r, k)]
  {
  }

  /** The slot the writer works on is neither the reader's nor any other unread slot. */
  lemma SlotsAreExclusive<T>(s: State<T>)
    requires Inv(s)
    ensures Owns(s.writer) ==>
              forall k :: 0 <= k < |Contents(s.ring)| ==> UnreadSlot(s.ring, k) != s.ring.writeIndex
    ensures Owns(s.writer) && Owns(s.reader) ==> s.ring.readIndex != s.ring.writeIndex
    ensures Owns(s.reader) ==> |Contents(s.ring)| > 0 && Contents(s.ring)[0] == s.ring.slots[s.ring.readIndex]
    ensures forall k :: 0 <= k < |Contents(s.ring)| ==> Contents(s.ring)[k] == s.ring.slots[UnreadSlot(s.ring, k)]
  {
    forall k | 0 <= k < |Contents(s.ring)| ensures Contents(s.ring)[k] == s.ring.slots[UnreadSlot(s.ring, k)] {
      ContentsAt(s.ring, k);
    }
  }

  /** What the reader finds in its slot while it holds it is the oldest set not yet delivered, and no step
      of the writer changes it. */
  lemma ReaderSeesTheOldest<T>(s: State<T>, a: Action<T>)
    requires Inv(s) && Owns(s.reader) && Enabled(s, a)
    ensures s.ring.slots[s.ring.readIndex] == s.written[|s.delivered|]
    ensures var n := Next(s, a);
            Owns(n.reader) ==> n.ring.slots[n.ring.readIndex] == s.ring.slots[s.ring.readIndex]
  {
    SlotsAreExclusive(s);
  }

  /** The two sides are never both asleep, and a side that sleeps although it could pass has its wake-up
      under way. */
  lemma NeverBothAsleep<T>(s: State<T>)
    requires Inv(s)
    ensures !(s.writer == Asleep && s.reader == Asleep)
  {
  }

  predicate Progresses<T>(s: State<T>, a: Action<T>)
  {
    Enabled(s, a) && !a.Get? && !a.SpuriousWake? && !a.Fill?
  }

  /** Unless it sleeps with good reason, a side that is inside an operation can proceed, or the other side
      holds the mutex and can. */
  lemma SideProgresses<T>(s: State<T>, side: Side) returns (a: Action<T>)
    requires Inv(s) && StageOf(s, side) != Idle
    requires StageOf(s, side) == Asleep ==> MayPass(s.ring, side)
    ensures Progresses(s, a) && (a.Release? ==> a.side == side && StageOf(s, side) == Holding)
  {
    var stage := StageOf(s, side);
    if stage == Asleep {
      a := Notify(Other(side));
    } else if stage == Holding {
      a := Release(side);
    } else if HoldsMutex(stage) {
      a := HolderAction(s, side);
    } else if s.mutex.Some? {
      a := HolderAction(s, s.mutex.value);
    } else {
      a := Lock(side);
    }
  }

  function HolderAction<T>(s: State<T>, side: Side): (a: Action<T>)
    requires HoldsMutex(StageOf(s, side))
    ensures Progresses(s, a) && !a.Release?
  {
    match StageOf(s, side)
    case Check => Test(side)
    case Recheck => Test(side)
    case Granted => Leave(side)
    case Releasing => Update(side)
    case Notifying => Notify(side)
    case Unlocking => Unlock(side)
  }
}
