/** The allocator of data-buffer memory (src/MemoryManager.cpp:39-183): every block it ever obtained is on
    one list ordered by address, and the blocks that are free are also on a second list ordered by size. */
module MemoryManager {
  import opened Sequences
  import opened Wrappers

  type Address = nat

  const NULL: Address := 0

  datatype MemoryNode = MemoryNode(memory: Address, size: nat)

  datatype Lists = Lists(allocatedBlocks: seq<MemoryNode>, available: seq<MemoryNode>)

  datatype OutOfMemory = OutOfMemory

  /** The first node from position i on that has at least the given size; the length if there is none. */
  function FirstFit(ns: seq<MemoryNode>, size: nat, i: nat := 0): (k: nat)
    requires i <= |ns|
    ensures i <= k <= |ns|
    ensures forall j :: i <= j < k ==> ns[j].size < size
    ensures k < |ns| ==> ns[k].size >= size
    decreases |ns| - i
  {
    if i == |ns| || ns[i].size >= size then i else FirstFit(ns, size, i + 1)
  }

  /** The first node from position i on that does not lie below the given address. */
  function AddressSpot(ns: seq<MemoryNode>, mem: Address, i: nat := 0): (k: nat)
    requires i <= |ns|
    ensures i <= k <= |ns|
    ensures forall j :: i <= j < k ==> ns[j].memory < mem
    ensures k < |ns| ==> ns[k].memory >= mem
    decreases |ns| - i
  {
    if i == |ns| || ns[i].memory >= mem then i else AddressSpot(ns, mem, i + 1)
  }

  /** The first node from position i on with the given address; the length if there is none. */
  function BlockAt(ns: seq<MemoryNode>, mem: Address, i: nat := 0): (k: nat)
    requires i <= |ns|
    ensures i <= k <= |ns|
    ensures forall j :: i <= j < k ==> ns[j].memory != mem
    ensures k < |ns| ==> ns[k].memory == mem
    decreases |ns| - i
  {
    if i == |ns| || ns[i].memory == mem then i else BlockAt(ns, mem, i + 1)
  }

  /** The node the constructor of MemoryNode makes of what posix_memalign grants. When nothing is granted
      it means to clear the size, but assigns its parameter. */
  function NewNode(size: nat, grant: Option<Address>): (n: MemoryNode)
    ensures n.size == size
  {
    MemoryNode(if grant.Some? then grant.value else NULL, size)
  }

  /** allocateBlock on the two lists. */
  function Allocation(l: Lists, size: nat, grant: Option<Address>): (r: (Result<Address, OutOfMemory>, Lists))
  {
    var k := FirstFit(l.available, size);
    if k < |l.available| then (Ok(l.available[k].memory), l.(available := Removed(l.available, k)))
    else if NewNode(size, grant).size == 0 then (Err(OutOfMemory), l)
    else
      var n := NewNode(size, grant);
      (Ok(n.memory), l.(allocatedBlocks := Inserted(l.allocatedBlocks, AddressSpot(l.allocatedBlocks, n.memory), n)))
  }

  /** releaseBlock on the two lists; an unknown address changes nothing. */
  function Release(l: Lists, mem: Address): (r: Lists)
  {
    var k := BlockAt(l.allocatedBlocks, mem);
    if k < |l.allocatedBlocks| then
      var n := l.allocatedBlocks[k];
      l.(available := Inserted(l.available, FirstFit(l.available, n.size), n))
    else l
  }

  function Sum(ns: seq<MemoryNode>): (total: nat)
  {
    if ns == [] then 0 else Sum(ns[..|ns| - 1]) + ns[|ns| - 1].size
  }

  class MemoryManager {
    var allocatedBlocks: seq<MemoryNode>
    var available: seq<MemoryNode>
    var totalMemoryRequested: nat

    function State(): Lists
      reads this
    {
      Lists(allocatedBlocks, available)
    }

    constructor ()
      ensures State() == Lists([], []) && totalMemoryRequested == 0
    {
      allocatedBlocks, available := [], [];
      totalMemoryRequested := 0;
    }

    method AllocateBlock(size: nat, grant: Option<Address>) returns (r: Result<Address, OutOfMemory>)
      modifies this
      ensures (r, State()) == Allocation(old(State()), size, grant)
      ensures totalMemoryRequested == old(totalMemoryRequested) + size
    {
      totalMemoryRequested := totalMemoryRequested + size;
      var lwr := 0;
      while lwr < |available|
        invariant lwr <= |available| && available == old(available) && allocatedBlocks == old(allocatedBlocks)
        invariant totalMemoryRequested == old(totalMemoryRequested) + size
        invariant FirstFit(available, size) == FirstFit(available, size, lwr)
      {
        if available[lwr].size >= size {
          r := Ok(available[lwr].memory);
          available := Removed(available, lwr);
          return;
        }
        lwr := lwr + 1;
      }
      var node := NewNode(size, grant);
      if node.size == 0 {
        return Err(OutOfMemory);
      }
      var it := 0;
      while it < |allocatedBlocks| && allocatedBlocks[it].memory < node.memory
        invariant it <= |allocatedBlocks| && allocatedBlocks == old(allocatedBlocks)
        invariant AddressSpot(allocatedBlocks, node.memory) == AddressSpot(allocatedBlocks, node.memory, it)
      {
        it := it + 1;
      }
      allocatedBlocks := Inserted(allocatedBlocks, it, node);
      r := Ok(node.memory);
    }

    method ReleaseBlock(mem: Address)
      modifies this`available
      ensures State() == Release(old(State()), mem)
    {
      var it := 0;
      while it < |allocatedBlocks|
        invariant it <= |allocatedBlocks| && available == old(available)
        invariant BlockAt(allocatedBlocks, mem) == BlockAt(allocatedBlocks, mem, it)
      {
        if allocatedBlocks[it].memory == mem {
          var avit := 0;
          while avit < |available| && available[avit].size < allocatedBlocks[it].size
            invariant avit <= |available| && available == old(available)
            invariant FirstFit(available, allocatedBlocks[it].size) ==
                      FirstFit(available, allocatedBlocks[it].size, avit)
          {
            avit := avit + 1;
          }
          available := Inserted(available, avit, allocatedBlocks[it]);
          return;
        }
        it := it + 1;
      }
    }

    method GetTotalMemoryUsed() returns (usedMem: nat)
      ensures usedMem == Sum(allocatedBlocks)
    {
      usedMem := 0;
      for it := 0 to |allocatedBlocks|
        invariant usedMem == Sum(allocatedBlocks[..it])
      {
        usedMem := usedMem + allocatedBlocks[it].size;
        assert allocatedBlocks[..it + 1][..it] == allocatedBlocks[..it];
      }
      assert allocatedBlocks[..|allocatedBlocks|] == allocatedBlocks;
    }

    method GetTotalMemoryLocked() returns (locked: int)
      ensures locked == Sum(allocatedBlocks) - Sum(available)
    {
      var availableMem := 0;
      for it := 0 to |available|
        invariant availableMem == Sum(available[..it])
      {
        availableMem := availableMem + available[it].size;
        assert available[..it + 1][..it] == available[..it];
      }
      assert available[..|available|] == available;
      var usedMem := GetTotalMemoryUsed();
      locked := usedMem - availableMem;
    }

    method GetBlockSize(mem: Address) returns (size: nat)
      ensures var k := BlockAt(allocatedBlocks, mem); size == if k < |allocatedBlocks| then allocatedBlocks[k].size
              else 0
    {
      var it := 0;
      while it < |allocatedBlocks|
        invariant it <= |allocatedBlocks|
        invariant BlockAt(allocatedBlocks, mem) == BlockAt(allocatedBlocks, mem, it)
      {
        if allocatedBlocks[it].memory == mem {
          return allocatedBlocks[it].size;
        }
        it := it + 1;
      }
      size := 0;
    }

    method Reset()
      modifies this
      ensures State() == Lists([], []) && totalMemoryRequested == 0
    {
      available := [];
      while allocatedBlocks != []
        invariant available == []
        decreases |allocatedBlocks|
      {
        allocatedBlocks := allocatedBlocks[1..];
      }
      totalMemoryRequested := 0;
    }
  }
}
