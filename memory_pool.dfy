/**
 * Fixed-capacity slab allocator: `capacity` slots of `elementSize` bytes each in one
 * 16-aligned block, a stack of free slot indices and one allocation flag per slot.
 *
 * Addresses are modelled as 32-bit values (`u32`), the pointer width of the Cortex-M7 the
 * alignment is chosen for: pointer arithmetic wraps modulo 2^32 like the `uint32_t`
 * counters. Address 0 is NULL.
 */
module MemoryPool {
  import opened StdInt

  const MEMORY_ALIGNMENT: int := 16

  /** ALIGN_SIZE: round up to a multiple of 16 in uint32_t arithmetic; `x & ~15` is `x - x % 16`. */
  function AlignSize(size: u32): (r: u32)
    ensures r % MEMORY_ALIGNMENT == 0
    ensures size <= UINT32_MAX - (MEMORY_ALIGNMENT - 1) ==> size <= r < size + MEMORY_ALIGNMENT
  {
    var t := Wrap32(size + MEMORY_ALIGNMENT - 1);
    t - t % MEMORY_ALIGNMENT
  }

  lemma AlignSizeIdempotent(size: u32)
    ensures AlignSize(AlignSize(size)) == AlignSize(size)
    ensures size % MEMORY_ALIGNMENT == 0 ==> AlignSize(size) == size
  {
  }

  /** The block size `alignedSize * capacity` as object_pool_init computes it, in uint32_t. */
  function BlockSize(alignedSize: u32, capacity: u32): (r: u32)
    ensures Mul(capacity, alignedSize) < TWO_TO_32 ==> r == Mul(capacity, alignedSize)
  {
    Wrap32(Mul(capacity, alignedSize))
  }

  datatype PoolResult =
    | Ok
    | NullPointer
    | OutOfMemory
    | InvalidSize
    | PoolFull
    | InvalidIndex
    | DoubleFree

  /**
   * The result object_pool_init reports as written: only zero arguments and a NULL block are
   * refused, whatever ALIGN_SIZE and `alignedSize * capacity` wrap around to.
   */
  function InitOutcomeAsWritten(elementSize: u32, capacity: u32, block: u32): PoolResult
  {
    if elementSize == 0 || capacity == 0 then NullPointer
    else if block == 0 then OutOfMemory
    else Ok
  }

  /**
   * The result of object_pool_init with the size checks it evidently intends: an element size
   * that ALIGN_SIZE wraps to 0, or a block size that wraps, is refused as InvalidSize.
   */
  function InitOutcome(elementSize: u32, capacity: u32, block: u32): PoolResult
  {
    if elementSize == 0 || capacity == 0 then NullPointer
    else if AlignSize(elementSize) == 0 || Mul(capacity, AlignSize(elementSize)) >= TWO_TO_32 then InvalidSize
    else if block == 0 then OutOfMemory
    else Ok
  }

  /**
   * As written, object_pool_init accepts two pools whose slots overlap: 0xFFFF_FFF1-byte
   * elements align to 0 bytes, so slots 0 and 1 share an address; 2^28 slots of 16 bytes
   * get a block of 0 bytes. The checked init refuses both.
   */
  lemma InitAcceptsWrappedSizes(block: u32)
    requires block != 0
    ensures InitOutcomeAsWritten(0xFFFF_FFF1, 2, block) == Ok && AlignSize(0xFFFF_FFF1) == 0
    ensures SlotAddressIn(block, AlignSize(0xFFFF_FFF1), 0) == SlotAddressIn(block, AlignSize(0xFFFF_FFF1), 1)
    ensures InitOutcomeAsWritten(16, 0x1000_0000, block) == Ok && BlockSize(AlignSize(16), 0x1000_0000) == 0
    ensures InitOutcome(0xFFFF_FFF1, 2, block) == InvalidSize && InitOutcome(16, 0x1000_0000, block) == InvalidSize
  {
    assert AlignSize(0xFFFF_FFF1) == 0;
    assert Mul(1, 0) == 0 && Mul(0, 0) == 0;
    assert AlignSize(16) == 16;
    MulIsProduct(0x1000_0000, 16);
  }

  /** The two outcomes differ exactly where the aligned size or the block size wraps. */
  lemma InitOutcomesDiffer(elementSize: u32, capacity: u32, block: u32)
    ensures InitOutcome(elementSize, capacity, block) != InitOutcomeAsWritten(elementSize, capacity, block) <==>
      elementSize != 0 && capacity != 0 &&
      (AlignSize(elementSize) == 0 || Mul(capacity, AlignSize(elementSize)) >= TWO_TO_32)
    ensures InitOutcome(elementSize, capacity, block) == Ok ==> InitOutcomeAsWritten(elementSize, capacity, block) == Ok
  {
  }

  /**
   * With the checks, the slots of an accepted pool lie inside its block at pairwise distinct
   * addresses, given a block that fits the address space.
   */
  lemma CheckedInitSeparatesSlots(elementSize: u32, capacity: u32, block: u32, i: u32, j: u32)
    requires InitOutcome(elementSize, capacity, block) == Ok
    requires block % MEMORY_ALIGNMENT == 0 && block + Mul(capacity, AlignSize(elementSize)) < TWO_TO_32
    requires i < j < capacity
    ensures OwnedBy(block, capacity, AlignSize(elementSize), SlotAddressIn(block, AlignSize(elementSize), i))
    ensures SlotAddressIn(block, AlignSize(elementSize), i) != SlotAddressIn(block, AlignSize(elementSize), j)
  {
    var size := AlignSize(elementSize);
    assert Layout(block, capacity, size);
    SlotAddressOwned(block, capacity, size, i);
    SlotAddressOwned(block, capacity, size, j);
  }

  /** The slots flagged allocated in a state array. */
  ghost function AllocatedIn(states: seq<bool>): set<u32>
  {
    set s: u32 | s < |states| && states[s]
  }

  /** The slots flagged free in a state array. */
  ghost function FreeIn(states: seq<bool>): set<u32>
  {
    set s: u32 | s < |states| && !states[s]
  }

  /**
   * The free-list stack invariant on values: the stack holds distinct slot indices,
   * and they are exactly the slots whose state reads free.
   */
  ghost predicate StackInvariant(stack: seq<u32>, states: seq<bool>)
  {
    (forall k :: 0 <= k < |stack| ==> stack[k] < |states|) &&
    (forall j, k :: 0 <= j < k < |stack| ==> stack[j] != stack[k]) &&
    (forall s :: 0 <= s < |states| ==> (states[s] <==> s !in stack))
  }

  /** The free slots are the stack's elements, so the allocated ones number |states| - |stack|. */
  lemma StackCounts(stack: seq<u32>, states: seq<bool>)
    requires StackInvariant(stack, states) && |states| <= TWO_TO_32
    ensures FreeIn(states) == Elems(stack)
    ensures |FreeIn(states)| == |stack|
    ensures |AllocatedIn(states)| == |states| - |stack|
  {
    forall x | x in Elems(stack)
      ensures x in FreeIn(states)
    {
      var k :| 0 <= k < |stack| && stack[k] == x;
    }
    DistinctCard(stack);
    assert AllocatedIn(states) + FreeIn(states) == Slots(|states|);
    assert AllocatedIn(states) !! FreeIn(states);
  }

  /** A stack that misses an allocated slot is shorter than the state array. */
  lemma AllocatedNotFull(stack: seq<u32>, states: seq<bool>, index: u32)
    requires StackInvariant(stack, states) && |states| <= TWO_TO_32 && index < |states| && states[index]
    ensures index in AllocatedIn(states) && |stack| < |states|
  {
    StackCounts(stack, states);
    assert index in AllocatedIn(states);
  }

  /** Without one allocated slot, fewer than UINT32_MAX slots remain allocated. */
  lemma AllocatedBelowMax(states: seq<bool>, index: u32)
    requires |states| <= TWO_TO_32 - 1 && index in AllocatedIn(states)
    ensures |AllocatedIn(states) - {index}| < UINT32_MAX
  {
    assert AllocatedIn(states) <= Slots(|states|);
    assert |AllocatedIn(states)| <= |states| by {
      SubsetCard(AllocatedIn(states), Slots(|states|));
    }
  }

  /** Popping the top slot and flagging it allocated keeps the invariant. */
  lemma PopKeepsInvariant(stack: seq<u32>, states: seq<bool>)
    requires StackInvariant(stack, states) && |stack| > 0
    ensures stack[0] < |states| && !states[stack[0]]
    ensures StackInvariant(stack[1..], states[stack[0] := true])
    ensures AllocatedIn(states[stack[0] := true]) == AllocatedIn(states) + {stack[0]}
  {
    var top := stack[0];
    assert top in stack;
    forall j | 0 <= j < |stack| - 1
      ensures stack[1..][j] != top
    {
      assert stack[1..][j] == stack[j + 1];
    }
    forall s | 0 <= s < |states|
      ensures states[top := true][s] <==> s !in stack[1..]
    {
      assert stack == [top] + stack[1..];
    }
  }

  /** Flagging an allocated slot free and pushing it keeps the invariant. */
  lemma PushKeepsInvariant(stack: seq<u32>, states: seq<bool>, index: u32)
    requires StackInvariant(stack, states) && index < |states| && states[index]
    ensures StackInvariant([index] + stack, states[index := false])
    ensures AllocatedIn(states[index := false]) == AllocatedIn(states) - {index}
  {
    assert index !in stack;
    var pushed := [index] + stack;
    forall j, k | 0 <= j < k < |pushed|
      ensures pushed[j] != pushed[k]
    {
      if j == 0 {
        assert pushed[k] == stack[k - 1];
      } else {
        assert pushed[j] == stack[j - 1] && pushed[k] == stack[k - 1];
      }
    }
  }

  /** The stack object_pool_init builds: n-1 at the top (index 0) down to 0 at the bottom. */
  function Descending(n: nat): (r: seq<u32>)
    requires n <= TWO_TO_32
    ensures |r| == n && forall k :: 0 <= k < n ==> r[k] == n - 1 - k
  {
    seq(n, k requires 0 <= k < n => n - 1 - k)
  }

  /** A freshly built stack over all-free states satisfies the invariant. */
  lemma DescendingInvariant(n: nat)
    requires n <= TWO_TO_32
    ensures StackInvariant(Descending(n), seq(n, _ => false))
    ensures AllocatedIn(seq(n, _ => false)) == {}
  {
    var d := Descending(n);
    forall s | 0 <= s < n
      ensures s in d
    {
      assert d[n - 1 - s] == s;
    }
  }

  /** The pool's block: 16-aligned, non-null, and inside the 32-bit address space. */
  ghost predicate Layout(memory: u32, capacity: u32, elementSize: u32)
  {
    capacity > 0 ==>
      elementSize > 0 && elementSize % MEMORY_ALIGNMENT == 0 &&
      memory > 0 && memory % MEMORY_ALIGNMENT == 0 &&
      memory + Mul(capacity, elementSize) < TWO_TO_32
  }

  /** The address of slot `index` of a block at `memory`, in 32-bit pointer arithmetic. */
  function SlotAddressIn(memory: u32, elementSize: u32, index: u32): u32
  {
    Wrap32(memory + Wrap32(Mul(index, elementSize)))
  }

  /** Inside the block [memory, memory + capacity * elementSize) and on an element boundary. */
  function OwnedBy(memory: u32, capacity: u32, elementSize: u32, addr: u32): (r: bool)
    ensures r ==> addr != 0 && elementSize > 0 && IndexIn(memory, elementSize, addr) < capacity
  {
    var poolEnd := Wrap32(memory + Wrap32(Mul(capacity, elementSize)));
    var inside := addr != 0 && memory <= addr < poolEnd;
    if inside then
      assert addr - memory < Mul(capacity, elementSize);
      DivBelowMul(addr - memory, capacity, elementSize);
      Mod(addr - memory, elementSize) == 0
    else
      false
  }

  /** The slot an address falls in, by 32-bit pointer subtraction; UINT32_MAX for NULL. */
  function IndexIn(memory: u32, elementSize: u32, addr: u32): (index: u32)
    requires elementSize > 0
    ensures addr == 0 ==> index == UINT32_MAX
  {
    if addr == 0 then UINT32_MAX else Wrap32(Div(Wrap32(addr - memory), elementSize))
  }

  /** Every slot's address in a laid-out block is owned and maps back to that slot. */
  lemma SlotAddressOwned(memory: u32, capacity: u32, elementSize: u32, index: u32)
    requires Layout(memory, capacity, elementSize) && index < capacity
    ensures SlotAddressIn(memory, elementSize, index) == memory + Mul(index, elementSize) != 0
    ensures OwnedBy(memory, capacity, elementSize, SlotAddressIn(memory, elementSize, index))
    ensures IndexIn(memory, elementSize, SlotAddressIn(memory, elementSize, index)) == index
  {
    MulStrict(index, capacity, elementSize);
    DivMul(index, elementSize);
  }

  /** Every owned address in a laid-out block is the address of a slot. */
  lemma OwnedIsSlotAddress(memory: u32, capacity: u32, elementSize: u32, addr: u32)
    requires Layout(memory, capacity, elementSize) && OwnedBy(memory, capacity, elementSize, addr)
    ensures IndexIn(memory, elementSize, addr) < capacity
    ensures SlotAddressIn(memory, elementSize, IndexIn(memory, elementSize, addr)) == addr
  {
    var d := addr - memory;
    ExactMultiple(d, elementSize);
    DivAtMost(d, elementSize);
    DivBelowMul(d, capacity, elementSize);
  }

  /**
   * The ObjectPool structure. The two malloc'd buffers are modelled as sequences of
   * the same length that the operations reassign.
   */
  class ObjectPool {
    var memory: u32
    var freeList: seq<u32>
    var objectStates: seq<bool>
    var elementSize: u32
    var capacity: u32
    var freeCount: u32
    var freeHead: u32
    var debugName: string
    var totalAllocations: u32
    var totalDeallocations: u32
    var peakUsage: u32

    /** freeList[freeHead..capacity) is the free-list stack; the usage statistics are consistent. */
    ghost predicate Valid()
      reads this
    {
      |freeList| == capacity && |objectStates| == capacity &&
      freeHead + freeCount == capacity &&
      StackInvariant(freeList[freeHead..], objectStates) &&
      capacity - freeCount <= peakUsage <= capacity &&
      Layout(memory, capacity, elementSize)
    }

    /** The slots currently handed out. */
    ghost function Allocated(): set<u32>
      reads this
    {
      AllocatedIn(objectStates)
    }

    /** object_pool_get_used_count: the number of allocated slots. */
    function UsedCount(): (n: u32)
      reads this
      requires Valid()
      ensures n == |Allocated()|
      ensures n + freeCount == capacity
    {
      StackCounts(freeList[freeHead..], objectStates);
      capacity - freeCount
    }

    /** object_pool_get_free_count: the number of free slots. */
    function FreeCount(): (n: u32)
      reads this
      requires Valid()
      ensures n == |FreeIn(objectStates)|
      ensures n + |Allocated()| == capacity
    {
      StackCounts(freeList[freeHead..], objectStates);
      freeCount
    }

    /** The address of slot `index`, as object_pool_alloc computes it. */
    function SlotAddress(index: u32): u32
      reads this
    {
      SlotAddressIn(memory, elementSize, index)
    }

    /** object_pool_owns_object. */
    function OwnsObject(addr: u32): (r: bool)
      reads this
      ensures r ==> addr != 0 && elementSize > 0 && ObjectIndex(addr) < capacity
    {
      OwnedBy(memory, capacity, elementSize, addr)
    }

    /** object_pool_get_object_index; UINT32_MAX for NULL. */
    function ObjectIndex(addr: u32): (index: u32)
      reads this
      requires elementSize > 0
      ensures addr == 0 ==> index == UINT32_MAX
    {
      IndexIn(memory, elementSize, addr)
    }

    /** The result object_pool_free reports for `addr`. */
    function FreeOutcome(addr: u32): PoolResult
      reads this
      requires Valid()
    {
      if addr == 0 then NullPointer
      else if !OwnsObject(addr) then InvalidIndex
      else if !objectStates[ObjectIndex(addr)] then DoubleFree
      else Ok
    }

    /** The slots alloc will hand out next, in order, are capacity-1, capacity-2, ... */
    ghost predicate InitialOrder()
      reads this
    {
      forall k :: freeHead <= k < |freeList| ==> freeList[k] == capacity - 1 - k
    }

    /** A zeroed ObjectPool structure. */
    constructor ()
      ensures Valid()
      ensures capacity == 0 && freeCount == 0 && memory == 0
    {
      memory := 0;
      freeList := [];
      objectStates := [];
      elementSize := 0;
      capacity := 0;
      freeCount := 0;
      freeHead := 0;
      debugName := "";
      totalAllocations := 0;
      totalDeallocations := 0;
      peakUsage := 0;
    }

    /**
     * object_pool_init with the size checks of InitOutcome, which the C code omits (see
     * InitAcceptsWrappedSizes). `block` is what aligned_alloc
     * returns: 0 when it fails, otherwise 16-aligned and inside the address space.
     */
    method Init(elementSize: u32, capacity: u32, debugName: string, block: u32) returns (r: PoolResult)
      requires block % MEMORY_ALIGNMENT == 0
      requires block != 0 && Mul(capacity, AlignSize(elementSize)) < TWO_TO_32 ==>
        block + Mul(capacity, AlignSize(elementSize)) < TWO_TO_32
      modifies this
      ensures r == InitOutcome(elementSize, capacity, block)
      ensures r == NullPointer || r == InvalidSize ==> unchanged(this)
      ensures r == OutOfMemory ==>
        memory == 0 && freeList == old(freeList) && objectStates == old(objectStates) &&
        this.elementSize == old(this.elementSize) && this.capacity == old(this.capacity) &&
        freeCount == old(freeCount) && freeHead == old(freeHead) && this.debugName == old(this.debugName) &&
        totalAllocations == old(totalAllocations) && totalDeallocations == old(totalDeallocations) &&
        peakUsage == old(peakUsage)
      ensures r == Ok ==> Valid() && Allocated() == {} && InitialOrder()
      ensures r == Ok ==>
        this.elementSize == AlignSize(elementSize) && this.elementSize >= elementSize &&
        this.capacity == capacity && freeCount == capacity && freeHead == 0 &&
        memory == block && this.debugName == debugName &&
        totalAllocations == 0 && totalDeallocations == 0 && peakUsage == 0
    {
      if elementSize == 0 || capacity == 0 {
        return NullPointer;
      }
      var alignedSize := AlignSize(elementSize);
      if alignedSize == 0 || Mul(capacity, alignedSize) >= TWO_TO_32 {
        return InvalidSize;
      }
      memory := block;
      if block == 0 {
        return OutOfMemory;
      }
      Setup(alignedSize, capacity, debugName);
      return Ok;
    }

    /**
     * The rest of a successful object_pool_init once the block is allocated: the free list
     * in reverse order, every slot free, the sizes and zeroed statistics.
     */
    method Setup(alignedSize: u32, capacity: u32, debugName: string)
      requires Layout(memory, capacity, alignedSize)
      modifies this
      ensures Valid() && Allocated() == {} && InitialOrder()
      ensures elementSize == alignedSize && this.capacity == capacity && freeCount == capacity && freeHead == 0
      ensures memory == old(memory) && this.debugName == debugName
      ensures totalAllocations == 0 && totalDeallocations == 0 && peakUsage == 0
    {
      var stack := NewFreeList(capacity);
      DescendingInvariant(capacity);
      freeList := stack;
      objectStates := seq(capacity, _ => false);
      elementSize := alignedSize;
      this.capacity := capacity;
      freeCount := capacity;
      freeHead := 0;
      this.debugName := debugName;
      totalAllocations := 0;
      totalDeallocations := 0;
      peakUsage := 0;
    }

    /** The free-list fill loop of object_pool_init: slot capacity-1-i at position i. */
    static method NewFreeList(capacity: u32) returns (stack: seq<u32>)
      ensures stack == Descending(capacity)
    {
      stack := [];
      for i := 0 to capacity
        invariant |stack| == i
        invariant forall k :: 0 <= k < i ==> stack[k] == capacity - 1 - k
      {
        stack := stack + [capacity - 1 - i];
      }
    }

    /** object_pool_destroy: release the buffers and zero the structure. */
    method Destroy()
      modifies this
      ensures Valid()
      ensures memory == 0 && freeList == [] && objectStates == []
      ensures elementSize == 0 && capacity == 0 && freeCount == 0 && freeHead == 0
      ensures debugName == "" && totalAllocations == 0 && totalDeallocations == 0 && peakUsage == 0
    {
      memory := 0;
      freeList := [];
      objectStates := [];
      elementSize := 0;
      capacity := 0;
      freeCount := 0;
      freeHead := 0;
      debugName := "";
      totalAllocations := 0;
      totalDeallocations := 0;
      peakUsage := 0;
    }

    /** object_pool_alloc: pop the top of the free-list stack; 0 (NULL) when nothing is free. */
    method Alloc() returns (addr: u32)
      requires Valid()
      modifies this
      ensures Valid()
      ensures freeList == old(freeList)
      ensures memory == old(memory) && elementSize == old(elementSize) && capacity == old(capacity)
      ensures debugName == old(debugName) && totalDeallocations == old(totalDeallocations)
      ensures old(freeCount) == 0 ==> addr == 0 && unchanged(this)
      ensures old(freeCount) > 0 ==>
        var index := old(freeList[freeHead]);
        addr != 0 && addr == SlotAddress(index) && OwnsObject(addr) && ObjectIndex(addr) == index &&
        index !in old(Allocated()) && Allocated() == old(Allocated()) + {index} &&
        objectStates == old(objectStates)[index := true] &&
        freeHead == old(freeHead) + 1 && freeCount == old(freeCount) - 1 &&
        totalAllocations == Wrap32(old(totalAllocations) + 1) &&
        peakUsage == (if capacity - freeCount > old(peakUsage) then capacity - freeCount else old(peakUsage))
      ensures old(InitialOrder()) ==> InitialOrder()
      ensures old(InitialOrder()) && addr != 0 ==> ObjectIndex(addr) == capacity - 1 - old(freeHead)
    {
      if freeCount == 0 {
        return 0;
      }
      var index := PopFree();
      SlotAddressOwned(memory, capacity, elementSize, index);
      addr := SlotAddress(index);
    }

    /** The stack pop and bookkeeping of object_pool_alloc once a free slot is known to exist. */
    method PopFree() returns (index: u32)
      requires Valid() && freeCount > 0
      modifies this
      ensures Valid()
      ensures index == old(freeList[freeHead]) && index < capacity
      ensures freeList == old(freeList)
      ensures memory == old(memory) && elementSize == old(elementSize) && capacity == old(capacity)
      ensures debugName == old(debugName) && totalDeallocations == old(totalDeallocations)
      ensures index !in old(Allocated()) && Allocated() == old(Allocated()) + {index}
      ensures objectStates == old(objectStates)[index := true]
      ensures freeHead == old(freeHead) + 1 && freeCount == old(freeCount) - 1
      ensures totalAllocations == Wrap32(old(totalAllocations) + 1)
      ensures peakUsage == (if capacity - freeCount > old(peakUsage) then capacity - freeCount else old(peakUsage))
      ensures old(InitialOrder()) ==> InitialOrder() && index == capacity - 1 - old(freeHead)
    {
      index := freeList[freeHead];
      PopKeepsInvariant(freeList[freeHead..], objectStates);
      assert freeList[freeHead + 1..] == freeList[freeHead..][1..];
      freeHead := freeHead + 1;
      freeCount := freeCount - 1;
      objectStates := objectStates[index := true];
      totalAllocations := Wrap32(totalAllocations + 1);
      var currentUsage := capacity - freeCount;
      if currentUsage > peakUsage {
        peakUsage := currentUsage;
      }
    }

    /** object_pool_free: validate the address, reject a double free, push the slot back. */
    method Free(addr: u32) returns (r: PoolResult)
      requires Valid()
      modifies this
      ensures Valid()
      ensures memory == old(memory) && elementSize == old(elementSize) && capacity == old(capacity)
      ensures debugName == old(debugName) && totalAllocations == old(totalAllocations)
      ensures peakUsage == old(peakUsage)
      ensures r == old(FreeOutcome(addr))
      ensures r != Ok ==> unchanged(this)
      ensures r == Ok ==>
        var index := old(ObjectIndex(addr));
        index in old(Allocated()) && Allocated() == old(Allocated()) - {index} &&
        objectStates == old(objectStates)[index := false] &&
        freeHead == old(freeHead) - 1 && freeList == old(freeList)[freeHead := index] &&
        freeCount == old(freeCount) + 1 &&
        totalDeallocations == Wrap32(old(totalDeallocations) + 1)
    {
      if addr == 0 {
        return NullPointer;
      }
      if !OwnsObject(addr) {
        return InvalidIndex;
      }
      OwnedIsSlotAddress(memory, capacity, elementSize, addr);
      var index := ObjectIndex(addr);
      if !objectStates[index] {
        return DoubleFree;
      }
      r := PushFree(index);
    }

    /**
     * The state clear and stack push of object_pool_free for an allocated slot. The slot is
     * allocated, so the stack is not full and the POOL_FULL branch is dead.
     */
    method PushFree(index: u32) returns (r: PoolResult)
      requires Valid() && index < capacity && objectStates[index]
      modifies this
      ensures r == Ok && Valid()
      ensures memory == old(memory) && elementSize == old(elementSize) && capacity == old(capacity)
      ensures debugName == old(debugName) && totalAllocations == old(totalAllocations)
      ensures peakUsage == old(peakUsage)
      ensures index in old(Allocated()) && Allocated() == old(Allocated()) - {index}
      ensures objectStates == old(objectStates)[index := false]
      ensures freeHead == old(freeHead) - 1 && freeList == old(freeList)[freeHead := index]
      ensures freeCount == old(freeCount) + 1
      ensures totalDeallocations == Wrap32(old(totalDeallocations) + 1)
    {
      ghost var stack := freeList[freeHead..];
      AllocatedNotFull(stack, objectStates, index);
      PushKeepsInvariant(stack, objectStates, index);
      objectStates := objectStates[index := false];
      if freeHead == 0 {
        assert false;
        return PoolFull;
      }
      freeHead := freeHead - 1;
      freeList := freeList[freeHead := index];
      freeCount := freeCount + 1;
      totalDeallocations := Wrap32(totalDeallocations + 1);
      assert freeList[freeHead..] == [index] + stack;
      return Ok;
    }
  }
}
