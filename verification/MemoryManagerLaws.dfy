/** The two lists stay in order and in step, blocks are never shared, and no byte is lost. */
module MemoryManagerLaws {
  import opened Sequences
  import opened Wrappers
  import opened MemoryManager

  predicate Below(a: MemoryNode, b: MemoryNode)
  {
    a.memory + a.size <= b.memory && a.memory < b.memory
  }

  /** Addresses rise along the list and no block reaches into the next. */
  predicate Apart(ns: seq<MemoryNode>)
  {
    forall i, j :: 0 <= i < j < |ns| ==> Below(ns[i], ns[j])
  }

  predicate SizeOrdered(ns: seq<MemoryNode>)
  {
    forall i, j :: 0 <= i < j < |ns| ==> ns[i].size <= ns[j].size
  }

  predicate Distinct(ns: seq<MemoryNode>)
  {
    forall i, j :: 0 <= i < j < |ns| ==> ns[i] != ns[j]
  }

  predicate Valid(l: Lists)
  {
    Apart(l.allocatedBlocks) && SizeOrdered(l.available) && Distinct(l.available) &&
    forall n :: n in l.available ==> n in l.allocatedBlocks
  }

  /** The block lies in memory that no block of the list covers. */
  predicate Clear(ns: seq<MemoryNode>, b: MemoryNode)
  {
    forall i :: 0 <= i < |ns| ==> Below(b, ns[i]) || Below(ns[i], b)
  }

  predicate Locked(l: Lists, n: MemoryNode)
  {
    n in l.allocatedBlocks && n !in l.available
  }

  /** Some free block is large enough. */
  predicate Fits(l: Lists, size: nat)
  {
    exists n :: n in l.available && n.size >= size
  }

  /* --------------------------------------------------------------------- allocation ---- */

  lemma InsertedApart(ns: seq<MemoryNode>, b: MemoryNode)
    requires Apart(ns) && Clear(ns, b)
    ensures Apart(Inserted(ns, AddressSpot(ns, b.memory), b))
  {
    var k := AddressSpot(ns, b.memory);
    var r := Inserted(ns, k, b);
    assert forall i :: 0 <= i < k ==> Below(ns[i], b);
    assert forall i :: k <= i < |ns| ==> Below(b, ns[i]) by {
      if k < |ns| { assert Below(b, ns[k]); }
    }
    InsertedAt(ns, k, b);
    hide Inserted, AddressSpot;
    forall i, j | 0 <= i < j < |r| ensures Below(r[i], r[j]) {
      assert r[i] == if i < k then ns[i] else if i == k then b else ns[i - 1];
      assert r[j] == if j < k then ns[j] else if j == k then b else ns[j - 1];
    }
  }

  lemma RemovedMembers(s: seq<MemoryNode>, k: nat)
    requires k < |s| && Distinct(s)
    ensures forall y :: y in Removed(s, k) <==> y in s && y != s[k]
  {
    RemovedAt(s, k);
    forall y ensures y in Removed(s, k) <==> y in s && y != s[k] {
      if y in s && y != s[k] {
        var i :| 0 <= i < |s| && s[i] == y;
        assert Removed(s, k)[if i < k then i else i - 1] == y;
      }
    }
  }

  lemma RemovedInOrder(s: seq<MemoryNode>, k: nat)
    requires k < |s| && Distinct(s) && SizeOrdered(s)
    ensures Distinct(Removed(s, k)) && SizeOrdered(Removed(s, k))
  {
    RemovedAt(s, k);
  }

  lemma FitsIffFound(l: Lists, size: nat)
    ensures Fits(l, size) <==> FirstFit(l.available, size) < |l.available|
  {
    var k := FirstFit(l.available, size);
    if k < |l.available| {
      assert l.available[k] in l.available;
    }
  }

  /** A free block that fits is reused: the smallest of them. It was free and is now locked; nothing else
      changes hands. */
  lemma ReuseIsBestFit(l: Lists, size: nat, grant: Option<Address>) returns (b: MemoryNode)
    requires Valid(l) && Fits(l, size)
    ensures b in l.available && b.size >= size
    ensures forall c :: c in l.available && c.size >= size ==> b.size <= c.size
    ensures var (r, n) := Allocation(l, size, grant);
            r == Ok(b.memory) && n.allocatedBlocks == l.allocatedBlocks && Locked(n, b) && Valid(n) &&
            forall c :: c in n.available <==> c in l.available && c != b
  {
    hide Removed, Distinct, Apart;
    FitsIffFound(l, size);
    var k := FirstFit(l.available, size);
    b := l.available[k];
    RemovedMembers(l.available, k);
    RemovedInOrder(l.available, k);
    forall c | c in l.available && c.size >= size ensures b.size <= c.size {
      var j :| 0 <= j < |l.available| && l.available[j] == c;
    }
  }

  /** A new block is made only when none fits; it overlaps nothing. */
  lemma NewOnlyIfNoneFits(l: Lists, size: nat, mem: Address)
    requires Valid(l) && !Fits(l, size) && size > 0 && Clear(l.allocatedBlocks, MemoryNode(mem, size))
    ensures var (r, n) := Allocation(l, size, Some(mem));
            r == Ok(mem) && Valid(n) && n.available == l.available && Locked(n, MemoryNode(mem, size)) &&
            MemoryNode(mem, size) !in l.allocatedBlocks &&
            forall c :: c in n.allocatedBlocks <==> c == MemoryNode(mem, size) || c in l.allocatedBlocks
  {
    FitsIffFound(l, size);
    var b := MemoryNode(mem, size);
    InsertedApart(l.allocatedBlocks, b);
    InsertedAt(l.allocatedBlocks, AddressSpot(l.allocatedBlocks, mem), b);
  }

  /** OutOfMemoryException is thrown for an empty request that finds no free block, and for nothing else; nothing
      changes then. */
  lemma OutOfMemoryOnlyForZero(l: Lists, size: nat, grant: Option<Address>)
    ensures Allocation(l, size, grant).0.Err? <==> size == 0 && l.available == []
    ensures Allocation(l, size, grant).0.Err? ==> Allocation(l, size, grant).1 == l
  {
    FitsIffFound(l, size);
  }

  /** A refused allocation is handed out as the null address, and listed with the size that was asked for. */
  lemma RefusedIsListed(l: Lists, size: nat)
    requires size > 0 && !Fits(l, size)
    ensures var (r, n) := Allocation(l, size, None);
            r == Ok(NULL) && n.available == l.available &&
            multiset(n.allocatedBlocks) == multiset(l.allocatedBlocks) + multiset{MemoryNode(NULL, size)}
  {
    FitsIffFound(l, size);
    InsertedOnce(l.allocatedBlocks, AddressSpot(l.allocatedBlocks, NULL), MemoryNode(NULL, size));
  }

  lemma InsertedOnce(ns: seq<MemoryNode>, k: nat, b: MemoryNode)
    requires k <= |ns|
    ensures multiset(Inserted(ns, k, b)) == multiset(ns) + multiset{b}
  {
    assert ns[..k] + ns[k..] == ns;
  }

  /* ------------------------------------------------------------------------ release ---- */

  lemma InsertedBySize(ns: seq<MemoryNode>, b: MemoryNode)
    requires SizeOrdered(ns)
    ensures SizeOrdered(Inserted(ns, FirstFit(ns, b.size), b))
  {
    InsertedAt(ns, FirstFit(ns, b.size), b);
  }

  lemma BlockFound(ns: seq<MemoryNode>, b: MemoryNode)
    requires Apart(ns) && b in ns
    ensures BlockAt(ns, b.memory) < |ns| && ns[BlockAt(ns, b.memory)] == b
  {
  }

  /** Releasing a locked block makes exactly it free. */
  lemma ReleaseFrees(l: Lists, b: MemoryNode)
    requires Valid(l) && Locked(l, b)
    ensures var n := Release(l, b.memory);
            Valid(n) && n.allocatedBlocks == l.allocatedBlocks &&
            forall c :: c in n.available <==> c == b || c in l.available
  {
    BlockFound(l.allocatedBlocks, b);
    InsertedBySize(l.available, b);
    InsertedAt(l.available, FirstFit(l.available, b.size), b);
    var n := Release(l, b.memory);
    assert Distinct(n.available);
  }

  /** An address that no block has is ignored. */
  lemma UnknownIsIgnored(l: Lists, mem: Address)
    requires forall b :: b in l.allocatedBlocks ==> b.memory != mem
    ensures Release(l, mem) == l
  {
    assert forall i :: 0 <= i < |l.allocatedBlocks| ==> l.allocatedBlocks[i] in l.allocatedBlocks;
  }

  /** Releasing and asking again for the same size gives the block back, and the lists are as before. */
  lemma ReleaseThenAllocate(l: Lists, b: MemoryNode, grant: Option<Address>)
    requires Valid(l) && Locked(l, b)
    ensures Allocation(Release(l, b.memory), b.size, grant) == (Ok(b.memory), l)
  {
    BlockFound(l.allocatedBlocks, b);
    var k := FirstFit(l.available, b.size);
    var n := Release(l, b.memory);
    InsertedAt(l.available, k, b);
    assert n.available[k] == b && FirstFit(n.available, b.size) == k;
    RemoveUndoesInsert(l.available, k, b);
  }

  /* -------------------------------------------------------------------------- bytes ---- */

  function Nodes(ns: seq<MemoryNode>): set<MemoryNode>
  {
    set n | n in ns
  }

  function SumOf(ns: seq<MemoryNode>, chosen: set<MemoryNode>): (total: nat)
  {
    if ns == [] then 0
    else SumOf(ns[..|ns| - 1], chosen) + if ns[|ns| - 1] in chosen then ns[|ns| - 1].size else 0
  }

  /** The bytes of the blocks that are not free, block by block. */
  function LockedBytes(l: Lists): (total: nat)
  {
    SumOf(l.allocatedBlocks, Nodes(l.allocatedBlocks) - Nodes(l.available))
  }

  lemma {:induction false} SumOfMore(ns: seq<MemoryNode>, chosen: set<MemoryNode>, b: MemoryNode)
    requires Distinct(ns) && b !in chosen
    ensures SumOf(ns, chosen + {b}) == SumOf(ns, chosen) + if b in ns then b.size else 0
    decreases |ns|
  {
    if ns != [] {
      SumOfMore(ns[..|ns| - 1], chosen, b);
      assert ns == ns[..|ns| - 1] + [ns[|ns| - 1]];
    }
  }

  lemma {:induction false} SumIsSumOf(ns: seq<MemoryNode>, all: seq<MemoryNode>)
    requires Distinct(ns) && Distinct(all) && forall n :: n in ns ==> n in all
    ensures Sum(ns) == SumOf(all, Nodes(ns))
    decreases |ns|
  {
    if ns == [] {
      SumOfNone(all, Nodes(ns));
    } else {
      var rest, b := ns[..|ns| - 1], ns[|ns| - 1];
      SumIsSumOf(rest, all);
      SumOfMore(all, Nodes(rest), b);
      assert ns == rest + [b];
      assert Nodes(ns) == Nodes(rest) + {b};
    }
  }

  lemma {:induction false} SumOfNone(ns: seq<MemoryNode>, chosen: set<MemoryNode>)
    requires chosen == {}
    ensures SumOf(ns, chosen) == 0
    decreases |ns|
  {
    if ns != [] { SumOfNone(ns[..|ns| - 1], chosen); }
  }

  lemma {:induction false} SumSplits(ns: seq<MemoryNode>, chosen: set<MemoryNode>, rest: set<MemoryNode>)
    requires chosen !! rest && forall n :: n in ns ==> n in chosen || n in rest
    ensures SumOf(ns, chosen) + SumOf(ns, rest) == Sum(ns)
    decreases |ns|
  {
    if ns != [] { SumSplits(ns[..|ns| - 1], chosen, rest); }
  }

  /** Every byte in use is in a locked block or in a free one: what getTotalMemoryLocked computes by
      subtraction is the sum over the locked blocks. */
  lemma UsedIsLockedPlusFree(l: Lists)
    requires Valid(l)
    ensures Sum(l.allocatedBlocks) == LockedBytes(l) + Sum(l.available)
  {
    SumIsSumOf(l.available, l.allocatedBlocks);
    SumSplits(l.allocatedBlocks, Nodes(l.available), Nodes(l.allocatedBlocks) - Nodes(l.available));
  }

  /* --------------------------------------------------------------------------- runs ---- */

  /** `grant` is where posix_memalign would put a new block. */
  datatype Op = Allocate(size: nat, grant: Address) | Free(mem: Address)

  ghost predicate LockedAt(l: Lists, mem: Address)
  {
    exists n :: Locked(l, n) && n.memory == mem
  }

  /** A request is not empty and a new block would not overlap an old one; a release names a locked block. */
  ghost predicate Allowed(l: Lists, op: Op)
  {
    match op
    case Allocate(size, grant) => size > 0 && Clear(l.allocatedBlocks, MemoryNode(grant, size))
    case Free(mem) => LockedAt(l, mem)
  }

  function Next(l: Lists, op: Op): Lists
  {
    match op
    case Allocate(size, grant) => Allocation(l, size, Some(grant)).1
    case Free(mem) => Release(l, mem)
  }

  /** The addresses the clients hold after an operation. */
  function HeldNext(l: Lists, held: set<Address>, op: Op): set<Address>
  {
    match op
    case Allocate(size, grant) =>
      (match Allocation(l, size, Some(grant)).0
       case Ok(mem) => held + {mem}
       case Err(_) => held)
    case Free(mem) => held - {mem}
  }

  ghost predicate Tracks(l: Lists, held: set<Address>)
  {
    Valid(l) && forall mem :: mem in held <==> LockedAt(l, mem)
  }

  lemma AddressesDiffer(l: Lists, a: MemoryNode, b: MemoryNode)
    requires Apart(l.allocatedBlocks) && a in l.allocatedBlocks && b in l.allocatedBlocks && a.memory == b.memory
    ensures a == b
  {
  }

  /** An allocation hands out an address that nobody holds, and afterwards it is held. */
  lemma AllocateTracks(l: Lists, held: set<Address>, op: Op)
    requires Tracks(l, held) && op.Allocate? && Allowed(l, op)
    ensures Tracks(Next(l, op), HeldNext(l, held, op))
    ensures var r := Allocation(l, op.size, Some(op.grant)).0; r.Ok? && r.value !in held
  {
    hide Apart, SizeOrdered, Distinct, Clear, Allocation;
    var n := Next(l, op);
    var b: MemoryNode;
    if Fits(l, op.size) {
      b := ReuseIsBestFit(l, op.size, Some(op.grant));
    } else {
      b := MemoryNode(op.grant, op.size);
      NewOnlyIfNoneFits(l, op.size, op.grant);
    }
    assert forall c :: Locked(n, c) <==> c == b || Locked(l, c);
    forall c | Locked(l, c) ensures c.memory != b.memory {
      if c.memory == b.memory { AddressesDiffer(n, b, c); }
    }
    assert Locked(n, b);
    forall mem ensures mem in HeldNext(l, held, op) <==> LockedAt(n, mem) {
      if c :| Locked(l, c) && c.memory == mem { assert Locked(n, c); }
    }
  }

  lemma FreeTracks(l: Lists, held: set<Address>, op: Op)
    requires Tracks(l, held) && op.Free? && Allowed(l, op)
    ensures Tracks(Next(l, op), HeldNext(l, held, op))
  {
    hide SizeOrdered, Distinct, Release, Apart;
    var b :| Locked(l, b) && b.memory == op.mem;
    ReleaseFrees(l, b);
    var n := Next(l, op);
    assert forall c :: Locked(n, c) <==> c != b && Locked(l, c);
    forall mem ensures mem in HeldNext(l, held, op) <==> LockedAt(n, mem) {
      if c :| Locked(l, c) && c.memory == mem && c != b {
        assert Locked(n, c);
        if mem == op.mem { AddressesDiffer(l, b, c); }
      }
    }
  }

  ghost predicate IsRun(l: Lists, ops: seq<Op>)
    decreases |ops|
  {
    ops == [] || (Allowed(l, ops[0]) && IsRun(Next(l, ops[0]), ops[1..]))
  }

  /** Every allocation of the run hands out an address that is not held at that moment. */
  ghost predicate NeverDoubly(l: Lists, held: set<Address>, ops: seq<Op>)
    decreases |ops|
  {
    ops == [] ||
    ((ops[0].Allocate? ==>
        var r := Allocation(l, ops[0].size, Some(ops[0].grant)).0; r.Ok? && r.value !in held) &&
     NeverDoubly(Next(l, ops[0]), HeldNext(l, held, ops[0]), ops[1..]))
  }

  function After(l: Lists, ops: seq<Op>): Lists
    decreases |ops|
  {
    if ops == [] then l else After(Next(l, ops[0]), ops[1..])
  }

  /** Over any run of well-behaved clients the lists stay valid, no locked block is handed out again, and
      used bytes are locked bytes plus free bytes. */
  lemma {:induction false} RunIsSafe(l: Lists, held: set<Address>, ops: seq<Op>)
    requires Tracks(l, held) && IsRun(l, ops)
    ensures NeverDoubly(l, held, ops) && Valid(After(l, ops))
    ensures var n := After(l, ops); Sum(n.allocatedBlocks) == LockedBytes(n) + Sum(n.available)
    decreases |ops|
  {
    hide Valid, Allocation, Release, Next, HeldNext;
    if ops == [] {
      UsedIsLockedPlusFree(l);
    } else {
      if ops[0].Allocate? { AllocateTracks(l, held, ops[0]); } else { FreeTracks(l, held, ops[0]); }
      RunIsSafe(Next(l, ops[0]), HeldNext(l, held, ops[0]), ops[1..]);
    }
  }
}
