/**
 * The component registry of src/core/component_registry.c: a table of 32 type slots, one
 * per bit of the type mask, each with its object pool; the component id counter; creation
 * and destruction of components through the pools.
 */
module ComponentRegistry {
  import opened StdInt
  import MemoryPool
  import opened ComponentBase

  const MAX_COMPONENT_TYPES: nat := 32
  const DEFAULT_COMPONENT_POOL_SIZE: u32 := 1000

  // ---- Bit positions ----

  /** The 32 single-bit values, written out. */
  predicate OneBit(t: ComponentType)
  {
    t == 0x1 || t == 0x2 || t == 0x4 || t == 0x8 ||
    t == 0x10 || t == 0x20 || t == 0x40 || t == 0x80 ||
    t == 0x100 || t == 0x200 || t == 0x400 || t == 0x800 ||
    t == 0x1000 || t == 0x2000 || t == 0x4000 || t == 0x8000 ||
    t == 0x1_0000 || t == 0x2_0000 || t == 0x4_0000 || t == 0x8_0000 ||
    t == 0x10_0000 || t == 0x20_0000 || t == 0x40_0000 || t == 0x80_0000 ||
    t == 0x100_0000 || t == 0x200_0000 || t == 0x400_0000 || t == 0x800_0000 ||
    t == 0x1000_0000 || t == 0x2000_0000 || t == 0x4000_0000 || t == 0x8000_0000
  }

  /** The power-of-two test get_bit_position applies. */
  predicate IsPowerOfTwo(t: ComponentType)
  {
    t != 0 && t & (t - 1) == 0
  }

  /** The test accepts exactly the single-bit values. */
  lemma PowerOfTwoIsOneBit(t: ComponentType)
    ensures IsPowerOfTwo(t) <==> OneBit(t)
  {
  }

  /** floor(log2 t) for nonzero t, by halving. */
  function Log(t: ComponentType): nat
    decreases t
  {
    if t <= 1 then 0 else 1 + Log(t >> 1)
  }

  /** log2 of each single-bit value, one halving at a time. */
  lemma LogOfBits()
    ensures forall t :: OneBit(t) ==> Log(t) < MAX_COMPONENT_TYPES
    ensures Log(0x1) == 0
    ensures Log(0x8000_0000) == 31 && Log(0x1_0000) == 16
  {
    assert Log(0x2) == 1;
    assert Log(0x4) == 2;
    assert Log(0x8) == 3;
    assert Log(0x10) == 4;
    assert Log(0x20) == 5;
    assert Log(0x40) == 6;
    assert Log(0x80) == 7;
    assert Log(0x100) == 8;
    assert Log(0x200) == 9;
    assert Log(0x400) == 10;
    assert Log(0x800) == 11;
    assert Log(0x1000) == 12;
    assert Log(0x2000) == 13;
    assert Log(0x4000) == 14;
    assert Log(0x8000) == 15;
    assert Log(0x10000) == 16;
    assert Log(0x20000) == 17;
    assert Log(0x40000) == 18;
    assert Log(0x80000) == 19;
    assert Log(0x100000) == 20;
    assert Log(0x200000) == 21;
    assert Log(0x400000) == 22;
    assert Log(0x800000) == 23;
    assert Log(0x1000000) == 24;
    assert Log(0x2000000) == 25;
    assert Log(0x4000000) == 26;
    assert Log(0x8000000) == 27;
    assert Log(0x10000000) == 28;
    assert Log(0x20000000) == 29;
    assert Log(0x40000000) == 30;
    assert Log(0x80000000) == 31;
  }

  lemma HalvePowerOfTwo(x: ComponentType)
    requires IsPowerOfTwo(x) && x > 1
    ensures IsPowerOfTwo(x >> 1) && (x >> 1) << 1 == x
  {
  }

  /** Distinct powers of two have distinct logarithms, so they occupy distinct slots. */
  lemma {:induction false} LogInjective(a: ComponentType, b: ComponentType)
    requires IsPowerOfTwo(a) && IsPowerOfTwo(b) && Log(a) == Log(b)
    ensures a == b
    decreases a
  {
    if a > 1 && b > 1 {
      HalvePowerOfTwo(a);
      HalvePowerOfTwo(b);
      LogInjective(a >> 1, b >> 1);
    }
  }

  /** The slot of a type: log2 of a power of two, MAX_COMPONENT_TYPES for anything else. */
  function Position(t: ComponentType): (b: nat)
    ensures b <= MAX_COMPONENT_TYPES
  {
    PowerOfTwoIsOneBit(t);
    LogOfBits();
    if IsPowerOfTwo(t) then Log(t) else MAX_COMPONENT_TYPES
  }

  /** A type has a slot exactly when it is a single bit. */
  lemma PositionOneBit(t: ComponentType)
    ensures Position(t) < MAX_COMPONENT_TYPES <==> OneBit(t)
  {
    PowerOfTwoIsOneBit(t);
    LogOfBits();
  }

  /** Two types in the same slot are the same type. */
  lemma PositionInjective(a: ComponentType, b: ComponentType)
    requires Position(a) == Position(b) < MAX_COMPONENT_TYPES
    ensures a == b
  {
    PowerOfTwoIsOneBit(a);
    PowerOfTwoIsOneBit(b);
    LogInjective(a, b);
  }

  /** The basic types occupy slots 0 to 7 in bit order; the first custom type slot 16. */
  lemma BasicPositions()
    ensures Position(TRANSFORM) == 0 && Position(SPRITE) == 1 && Position(COLLISION) == 2
    ensures Position(SCRIPT) == 3 && Position(AUDIO) == 4 && Position(ANIMATION) == 5
    ensures Position(PARTICLES) == 6 && Position(UI) == 7 && Position(CUSTOM_BASE) == 16
    ensures Position(NONE) == MAX_COMPONENT_TYPES
  {
    LogOfBits();
  }

  /** get_bit_position: shift the type down to 1 counting steps, then check for a single bit. */
  method GetBitPosition(t: ComponentType) returns (r: u32)
    ensures r == Position(t)
  {
    if t == 0 {
      return MAX_COMPONENT_TYPES as u32;
    }
    var bitPosition: nat := 0;
    var typeBit := t;
    while typeBit > 1
      invariant typeBit != 0
      invariant bitPosition + Log(typeBit) == Log(t)
      decreases typeBit
    {
      typeBit := typeBit >> 1;
      bitPosition := bitPosition + 1;
    }
    if t & (t - 1) != 0 {
      return MAX_COMPONENT_TYPES as u32;
    }
    PowerOfTwoIsOneBit(t);
    LogOfBits();
    return bitPosition as u32;
  }

  // ---- The registry ----

  /** ComponentTypeInfo without its pool, which the registry keeps beside the table. */
  datatype TypeInfo = TypeInfo(
    componentType: ComponentType,
    componentSize: u32,
    poolCapacity: u32,
    defaultVTable: Option<VTable>,
    typeName: string,
    registered: bool)

  const EMPTY_INFO := TypeInfo(NONE, 0, 0, None, "", false)

  /** The slots that hold a registered type. */
  ghost function Registered(info: seq<TypeInfo>): set<u32>
    requires |info| <= MAX_COMPONENT_TYPES
  {
    set i: u32 | i < |info| as u32 && info[i].registered
  }

  /** The element size register_type gives a type's pool: at least a Component, 16-aligned. */
  function SlotSize(componentSize: u32): (r: u32)
    ensures componentSize <= UINT32_MAX - 15 ==> r >= componentSize && r >= COMPONENT_SIZE
    ensures r % MemoryPool.MEMORY_ALIGNMENT == 0
  {
    MemoryPool.AlignSize(if componentSize < COMPONENT_SIZE then COMPONENT_SIZE else componentSize)
  }

  /** A pool's share of get_total_memory_usage: its slots, its free list and its state bytes. */
  function PoolMemory(entry: TypeInfo): nat
  {
    if entry.registered then Mul(entry.componentSize, entry.poolCapacity) + 4 * entry.poolCapacity + entry.poolCapacity
    else 0
  }

  /** The pool name register_type formats: snprintf into 64 bytes keeps at most 63 characters. */
  function PoolName(typeName: string): (name: string)
    ensures |name| <= 63 && |name| <= |"ComponentPool_" + typeName|
    ensures name == ("ComponentPool_" + typeName)[..|name|]
    ensures |"ComponentPool_" + typeName| <= 63 ==> name == "ComponentPool_" + typeName
  {
    var full := "ComponentPool_" + typeName;
    if |full| <= 63 then full else full[..63]
  }

  /** The memory of the pools in slots below n. */
  function PoolsMemory(info: seq<TypeInfo>, n: nat): nat
    requires n <= |info|
  {
    if n == 0 then 0 else PoolsMemory(info, n - 1) + PoolMemory(info[n - 1])
  }

  lemma WrapAdd(a: int, b: int)
    ensures Wrap32(Wrap32(a) + b) == Wrap32(a + b)
  {
    var q := a / TWO_TO_32;
    assert a == q * TWO_TO_32 + Wrap32(a);
    DivModUnique(a + b, q + (Wrap32(a) + b) / TWO_TO_32, TWO_TO_32, (Wrap32(a) + b) % TWO_TO_32);
  }

  /** A registered slot holds a type of its own bit with a working pool of the recorded shape. */
  ghost predicate SlotValid(entry: TypeInfo, i: nat, pool: MemoryPool.ObjectPool)
    reads pool
  {
    entry.registered ==>
      Position(entry.componentType) == i && entry.defaultVTable.Some? &&
      pool.Valid() && pool.capacity == entry.poolCapacity && pool.elementSize == entry.componentSize
  }

  /** `after` is `before` with the one new object `index`. */
  ghost predicate AddedSlot(before: set<u32>, after: set<u32>, index: u32)
  {
    index !in before && after == before + {index}
  }

  /** `after` is `before` without the object `index`, which it held. */
  ghost predicate RemovedSlot(before: set<u32>, after: set<u32>, index: u32)
  {
    index in before && after == before - {index}
  }

  /** A pool as object_pool_destroy leaves it: valid, empty, without memory. */
  ghost predicate Emptied(pool: MemoryPool.ObjectPool)
    reads pool
  {
    pool.Valid() && pool.memory == 0 && pool.capacity == 0 && pool.Allocated() == {}
  }

  /**
   * As written, register_type hands a 64-byte type with 2^26 slots to object_pool_init, which
   * accepts it with a block of 0 bytes, so the type registers; the checked init refuses it and
   * RegisterType reports PoolFull.
   */
  lemma RegisterAcceptsWrappedPool(block: u32)
    requires block != 0
    ensures SlotSize(64) == 64
    ensures MemoryPool.InitOutcomeAsWritten(SlotSize(64), 0x400_0000, block) == MemoryPool.Ok
    ensures MemoryPool.BlockSize(SlotSize(64), 0x400_0000) == 0
    ensures MemoryPool.InitOutcome(SlotSize(64), 0x400_0000, block) == MemoryPool.InvalidSize
  {
    assert SlotSize(64) == 64;
    MulIsProduct(0x400_0000, 64);
  }

  /** The three wrapping additions for one pool add its memory to the running total. */
  lemma AddPool(base: int, entry: TypeInfo, total: u32, a: u32, b: u32, c: u32)
    requires entry.registered && total == Wrap32(base)
    requires a == Wrap32(total + Wrap32(Mul(entry.componentSize, entry.poolCapacity)))
    requires b == Wrap32(a + 4 * entry.poolCapacity)
    requires c == Wrap32(b + entry.poolCapacity)
    ensures c == Wrap32(base + PoolMemory(entry))
  {
    var m := Mul(entry.componentSize, entry.poolCapacity);
    WrapAdd(m, total);
    WrapAdd(base, m);
    WrapAdd(base + m, 4 * entry.poolCapacity);
    WrapAdd(base + m + 4 * entry.poolCapacity, entry.poolCapacity);
  }

  /** One iteration of get_total_memory_usage: a registered entry adds its pool in three wrapping steps. */
  method AccumulatePool(ghost base: int, total: u32, entry: TypeInfo) returns (r: u32)
    requires total == Wrap32(base)
    ensures r == Wrap32(base + PoolMemory(entry))
  {
    r := total;
    if entry.registered {
      var a := Wrap32(total + Wrap32(Mul(entry.componentSize, entry.poolCapacity)));
      var b := Wrap32(a + 4 * entry.poolCapacity);
      var c := Wrap32(b + entry.poolCapacity);
      AddPool(base, entry, total, a, b, c);
      r := c;
    }
  }

  class Registry {
    var typeInfo: seq<TypeInfo>
    /** The pool of each slot (ComponentTypeInfo.pool). */
    const pools: seq<MemoryPool.ObjectPool>
    var registeredTypeCount: u32
    var nextComponentId: u32
    /** The ids issued since component_registry_init. */
    ghost var issued: set<u32>
    /** Since component_registry_init the id counter has not wrapped around. */
    ghost var counting: bool

    ghost predicate Valid()
      reads this`typeInfo, this`registeredTypeCount, this`nextComponentId, this`issued, this`counting, pools
    {
      TableValid() && IdsValid()
    }

    /** The slot table agrees with the pools, which are pairwise distinct, and with the count. */
    ghost predicate TableValid()
      reads this`typeInfo, this`registeredTypeCount, pools
    {
      |typeInfo| == MAX_COMPONENT_TYPES && Distinct() &&
      (forall i :: 0 <= i < MAX_COMPONENT_TYPES ==> SlotValid(typeInfo[i], i, pools[i])) &&
      registeredTypeCount as int == |Registered(typeInfo)|
    }

    /** Each slot has a pool of its own. */
    ghost predicate Distinct()
    {
      |pools| == MAX_COMPONENT_TYPES && forall i, j :: 0 <= i < j < |pools| ==> pools[i] != pools[j]
    }

    /** While the counter has not wrapped, every id issued is nonzero and below the next one. */
    ghost predicate IdsValid()
      reads this`nextComponentId, this`issued, this`counting
    {
      counting ==> nextComponentId != 0 && forall x :: x in issued ==> 0 < x < nextComponentId
    }

    /** component_registry_is_type_registered. */
    function IsTypeRegistered(t: ComponentType): (r: bool)
      reads this, pools
      requires Valid()
      ensures r <==> exists i :: 0 <= i < MAX_COMPONENT_TYPES && typeInfo[i].registered && typeInfo[i].componentType == t
    {
      var b := Position(t);
      if b < MAX_COMPONENT_TYPES && typeInfo[b].registered then
        assert SlotValid(typeInfo[b], b, pools[b]);
        PositionInjective(t, typeInfo[b].componentType);
        true
      else
        assert forall i :: 0 <= i < MAX_COMPONENT_TYPES && typeInfo[i].registered ==>
          SlotValid(typeInfo[i], i, pools[i]) && Position(typeInfo[i].componentType) == i;
        false
    }

    /** component_registry_get_component_count: live components of a type, 0 if unregistered. */
    function ComponentCount(t: ComponentType): (n: u32)
      reads this, pools
      requires Valid()
      ensures !IsTypeRegistered(t) ==> n == 0
      ensures IsTypeRegistered(t) ==>
        var b := Position(t);
        n == |pools[b].Allocated()| && n <= typeInfo[b].poolCapacity
    {
      var b := Position(t);
      if b >= MAX_COMPONENT_TYPES || !typeInfo[b].registered then 0
      else
        assert SlotValid(typeInfo[b], b, pools[b]);
        typeInfo[b].poolCapacity - pools[b].FreeCount()
    }

    /** The zero-initialised static registry, before component_registry_init. */
    constructor()
      ensures Valid()
      ensures typeInfo == seq(MAX_COMPONENT_TYPES, _ => EMPTY_INFO)
      ensures registeredTypeCount == 0 && nextComponentId == 0
      ensures fresh(set i | 0 <= i < |pools| :: pools[i])
    {
      var ps := NewPools();
      typeInfo := seq(MAX_COMPONENT_TYPES, _ => EMPTY_INFO);
      pools := ps;
      registeredTypeCount := 0;
      nextComponentId := 0;
      issued := {};
      counting := false;
      new;
      assert Registered(typeInfo) == {};
    }

    static method NewPools() returns (ps: seq<MemoryPool.ObjectPool>)
      ensures |ps| == MAX_COMPONENT_TYPES
      ensures forall i, j :: 0 <= i < j < |ps| ==> ps[i] != ps[j]
      ensures forall i :: 0 <= i < |ps| ==> fresh(ps[i])
    {
      ps := [];
      while |ps| < MAX_COMPONENT_TYPES
        invariant |ps| <= MAX_COMPONENT_TYPES
        invariant forall i, j :: 0 <= i < j < |ps| ==> ps[i] != ps[j]
        invariant forall i :: 0 <= i < |ps| ==> fresh(ps[i])
      {
        var p := new MemoryPool.ObjectPool();
        ps := ps + [p];
      }
    }

    /** component_registry_init: an empty table and the id counter at 1. */
    method Init()
      requires Valid()
      modifies this
      ensures Valid()
      ensures typeInfo == seq(MAX_COMPONENT_TYPES, _ => EMPTY_INFO)
      ensures registeredTypeCount == 0 && nextComponentId == 1
      ensures issued == {} && counting
    {
      typeInfo := seq(MAX_COMPONENT_TYPES, _ => EMPTY_INFO);
      registeredTypeCount := 0;
      nextComponentId := 1;
      issued := {};
      counting := true;
      assert Registered(typeInfo) == {};
    }

    /** component_registry_shutdown: destroy the pool of every registered slot, then zero the registry. */
    method Shutdown()
      requires Valid()
      modifies this`typeInfo, this`registeredTypeCount, this`nextComponentId, this`issued, this`counting, pools
      ensures Valid()
      ensures typeInfo == seq(MAX_COMPONENT_TYPES, _ => EMPTY_INFO)
      ensures registeredTypeCount == 0 && nextComponentId == 0 && issued == {} && !counting
      ensures forall i :: 0 <= i < MAX_COMPONENT_TYPES && old(typeInfo[i].registered) ==> Emptied(pools[i])
      ensures forall i :: 0 <= i < MAX_COMPONENT_TYPES && !old(typeInfo[i].registered) ==> unchanged(pools[i])
    {
      DropAll();
      typeInfo := seq(MAX_COMPONENT_TYPES, _ => EMPTY_INFO);
      registeredTypeCount := 0;
      nextComponentId := 0;
      issued := {};
      counting := false;
      assert Registered(typeInfo) == {};
    }

    /** The loop of component_registry_shutdown. */
    method DropAll()
      requires |typeInfo| == MAX_COMPONENT_TYPES && Distinct()
      modifies this`typeInfo, pools
      ensures |typeInfo| == MAX_COMPONENT_TYPES
      ensures forall i :: 0 <= i < MAX_COMPONENT_TYPES && old(typeInfo[i].registered) ==> Emptied(pools[i])
      ensures forall i :: 0 <= i < MAX_COMPONENT_TYPES && !old(typeInfo[i].registered) ==> unchanged(pools[i])
    {
      for i := 0 to MAX_COMPONENT_TYPES
        invariant |typeInfo| == MAX_COMPONENT_TYPES
        invariant forall j :: i <= j < MAX_COMPONENT_TYPES ==> typeInfo[j] == old(typeInfo[j])
        invariant forall j :: 0 <= j < i && old(typeInfo[j].registered) ==> Emptied(pools[j])
        invariant forall j :: 0 <= j < MAX_COMPONENT_TYPES && (i <= j || !old(typeInfo[j].registered)) ==> unchanged(pools[j])
      {
        if typeInfo[i].registered {
          DropSlot(i);
        }
      }
    }

    /** object_pool_destroy on one slot's pool and `registered = false`. */
    method DropSlot(i: nat)
      requires |typeInfo| == MAX_COMPONENT_TYPES && Distinct() && i < MAX_COMPONENT_TYPES
      modifies this`typeInfo, pools[i]
      ensures typeInfo == old(typeInfo)[i := old(typeInfo[i]).(registered := false)]
      ensures Emptied(pools[i])
    {
      pools[i].Destroy();
      typeInfo := typeInfo[i := typeInfo[i].(registered := false)];
    }

    /** component_registry_get_type_info: the entry of a registered type, None (NULL) otherwise. */
    function TypeInfoOf(t: ComponentType): (r: Option<TypeInfo>)
      reads this, pools
      requires Valid()
      ensures r.Some? <==> IsTypeRegistered(t)
      ensures r.Some? ==> r.value.registered && r.value.componentType == t && r.value.defaultVTable.Some?
    {
      var b := Position(t);
      if b < MAX_COMPONENT_TYPES && typeInfo[b].registered then
        assert SlotValid(typeInfo[b], b, pools[b]);
        PositionInjective(t, typeInfo[b].componentType);
        Some(typeInfo[b])
      else None
    }

    /** component_registry_get_pool: the working pool of a registered type, null otherwise. */
    function PoolOf(t: ComponentType): (p: MemoryPool.ObjectPool?)
      reads this, pools
      requires Valid()
      ensures p != null <==> IsTypeRegistered(t)
      ensures p != null ==>
        var b := Position(t);
        p == pools[b] && p.Valid() && p.capacity == typeInfo[b].poolCapacity && p.elementSize == typeInfo[b].componentSize
    {
      var b := Position(t);
      if b < MAX_COMPONENT_TYPES && typeInfo[b].registered then
        assert SlotValid(typeInfo[b], b, pools[b]);
        pools[b]
      else null
    }

    /**
     * component_registry_register_type over the checked object_pool_init, so PoolFull also
     * covers pool sizes that wrap (see RegisterAcceptsWrappedPool). `block` is what the pool's
     * aligned_alloc returns: 0 when it fails, otherwise a 16-aligned block that fits in the
     * address space.
     */
    method RegisterType(t: ComponentType, componentSize: u32, poolCapacity: u32,
                        defaultVTable: Option<VTable>, typeName: Option<string>, block: u32)
      returns (r: ComponentResult)
      requires Valid()
      requires block % MemoryPool.MEMORY_ALIGNMENT == 0
      requires block != 0 && Mul(poolCapacity, SlotSize(componentSize)) < TWO_TO_32 ==>
        block + Mul(poolCapacity, SlotSize(componentSize)) < TWO_TO_32
      modifies this`typeInfo, this`registeredTypeCount, pools
      ensures Valid()
      ensures r == NullPointer <==> defaultVTable.None? || typeName.None?
      ensures r == InvalidType <==> defaultVTable.Some? && typeName.Some? && Position(t) == MAX_COMPONENT_TYPES
      ensures r == AlreadyExists <==>
        defaultVTable.Some? && typeName.Some? && Position(t) < MAX_COMPONENT_TYPES &&
        old(typeInfo[Position(t)].registered)
      ensures r == PoolFull <==>
        defaultVTable.Some? && typeName.Some? && Position(t) < MAX_COMPONENT_TYPES &&
        !old(typeInfo[Position(t)].registered) &&
        MemoryPool.InitOutcome(SlotSize(componentSize), poolCapacity, block) != MemoryPool.Ok
      ensures r in {Ok, NullPointer, InvalidType, AlreadyExists, PoolFull}
      ensures r != Ok ==> typeInfo == old(typeInfo) && registeredTypeCount == old(registeredTypeCount)
      ensures r != PoolFull && r != Ok ==> unchanged(pools)
      ensures forall i :: 0 <= i < |pools| && i != Position(t) ==> unchanged(pools[i])
      ensures r == Ok ==>
        var b := Position(t);
        typeInfo == old(typeInfo)[b := TypeInfo(t, SlotSize(componentSize), poolCapacity, defaultVTable, typeName.value, true)] &&
        registeredTypeCount == old(registeredTypeCount) + 1 &&
        pools[b].Allocated() == {} && pools[b].debugName == PoolName(typeName.value)
    {
      if defaultVTable.None? || typeName.None? {
        return NullPointer;
      }
      var bitPosition := GetBitPosition(t);
      if bitPosition >= MAX_COMPONENT_TYPES as u32 {
        return InvalidType;
      }
      if typeInfo[bitPosition].registered {
        return AlreadyExists;
      }
      var alignedSize := SlotSize(componentSize);
      r := Install(bitPosition, TypeInfo(t, alignedSize, poolCapacity, defaultVTable, typeName.value, true), block);
    }

    /** object_pool_init on a free slot's pool, then the slot's entry and the count. */
    method Install(b: nat, entry: TypeInfo, block: u32) returns (r: ComponentResult)
      requires Valid() && b < MAX_COMPONENT_TYPES && !typeInfo[b].registered
      requires entry.registered && Position(entry.componentType) == b && entry.defaultVTable.Some?
      requires entry.componentSize % MemoryPool.MEMORY_ALIGNMENT == 0
      requires block % MemoryPool.MEMORY_ALIGNMENT == 0
      requires block != 0 && Mul(entry.poolCapacity, entry.componentSize) < TWO_TO_32 ==>
        block + Mul(entry.poolCapacity, entry.componentSize) < TWO_TO_32
      modifies this`typeInfo, this`registeredTypeCount, pools[b]
      ensures Valid()
      ensures r == Ok || r == PoolFull
      ensures r == PoolFull <==> MemoryPool.InitOutcome(entry.componentSize, entry.poolCapacity, block) != MemoryPool.Ok
      ensures r == PoolFull ==> typeInfo == old(typeInfo) && registeredTypeCount == old(registeredTypeCount)
      ensures r == Ok ==>
        typeInfo == old(typeInfo)[b := entry] && registeredTypeCount == old(registeredTypeCount) + 1 &&
        pools[b].Allocated() == {} && pools[b].debugName == PoolName(entry.typeName)
      ensures forall i :: 0 <= i < |pools| && i != b ==> unchanged(pools[i])
    {
      var poolResult := InitSlot(b, entry.componentSize, entry.poolCapacity, PoolName(entry.typeName), block);
      if poolResult != MemoryPool.Ok {
        return PoolFull;
      }
      Enter(b, entry);
      return Ok;
    }

    /** object_pool_init on the pool of an unregistered slot, with an already aligned size. */
    method InitSlot(b: nat, size: u32, capacity: u32, name: string, block: u32) returns (r: MemoryPool.PoolResult)
      requires TableValid() && b < MAX_COMPONENT_TYPES && !typeInfo[b].registered
      requires size % MemoryPool.MEMORY_ALIGNMENT == 0 && block % MemoryPool.MEMORY_ALIGNMENT == 0
      requires block != 0 && Mul(capacity, size) < TWO_TO_32 ==> block + Mul(capacity, size) < TWO_TO_32
      modifies pools[b]
      ensures TableValid()
      ensures r == MemoryPool.InitOutcome(size, capacity, block)
      ensures r == MemoryPool.Ok ==>
        pools[b].Valid() && pools[b].capacity == capacity && pools[b].elementSize == size &&
        pools[b].Allocated() == {} && pools[b].debugName == name
      ensures forall i :: 0 <= i < |pools| && i != b ==> unchanged(pools[i])
    {
      MemoryPool.AlignSizeIdempotent(size);
      r := pools[b].Init(size, capacity, name, block);
      assert SlotValid(typeInfo[b], b, pools[b]);
    }

    /** Store the entry of a newly registered type and count it. */
    method Enter(b: nat, entry: TypeInfo)
      requires Valid() && b < MAX_COMPONENT_TYPES && !typeInfo[b].registered
      requires entry.registered && Position(entry.componentType) == b && entry.defaultVTable.Some?
      requires pools[b].Valid() && pools[b].capacity == entry.poolCapacity && pools[b].elementSize == entry.componentSize
      modifies this`typeInfo, this`registeredTypeCount
      ensures Valid()
      ensures typeInfo == old(typeInfo)[b := entry] && registeredTypeCount == old(registeredTypeCount) + 1
    {
      RegisteredAdd(typeInfo, b, entry);
      typeInfo := typeInfo[b := entry];
      registeredTypeCount := registeredTypeCount + 1;
      assert SlotValid(typeInfo[b], b, pools[b]);
    }

    static lemma RegisteredAdd(info: seq<TypeInfo>, b: nat, entry: TypeInfo)
      requires |info| == MAX_COMPONENT_TYPES && b < |info| && !info[b].registered && entry.registered
      ensures Registered(info[b := entry]) == Registered(info) + {b as u32} && b as u32 !in Registered(info)
      ensures |Registered(info)| < MAX_COMPONENT_TYPES
    {
      assert Registered(info[b := entry]) == Registered(info) + {b as u32};
      SubsetCard(Registered(info) + {b as u32}, Slots(MAX_COMPONENT_TYPES));
    }

    /**
     * What component_registry_create leaves behind: a fresh component of type `t` owned by
     * `gameObject`, enabled, with the slot's vtable, its init hook run, sitting in a slot that
     * was free in pool `b`, and the id counter's old value as its id.
     */
    twostate predicate Spawned(new c: Component, b: nat, t: ComponentType, gameObject: nat)
      reads this, pools, c
      requires b < MAX_COMPONENT_TYPES && |pools| == MAX_COMPONENT_TYPES && |typeInfo| == MAX_COMPONENT_TYPES
    {
      fresh(c) && c.componentType == t && c.gameObject == gameObject && c.enabled &&
      c.vtable == typeInfo[b].defaultVTable && c.events == Fire(true, c.vtable, InitHook) &&
      pools[b].OwnsObject(c.address) &&
      AddedSlot(old(pools[b].Allocated()), pools[b].Allocated(), pools[b].ObjectIndex(c.address)) &&
      c.id == old(nextComponentId) && nextComponentId == Wrap32(old(nextComponentId) + 1) &&
      issued == old(issued) + {c.id} &&
      (old(counting) ==> c.id != 0 && c.id !in old(issued))
    }

    /**
     * component_registry_create: a fresh component of a registered type in its pool's next
     * slot, initialised, with the next id, after its init hook has run.
     */
    method Create(t: ComponentType, gameObject: nat) returns (c: Component?)
      requires Valid()
      modifies this`nextComponentId, this`issued, this`counting, pools
      ensures Valid()
      ensures c == null <==>
        gameObject == 0 || Position(t) == MAX_COMPONENT_TYPES || !old(typeInfo[Position(t)].registered) ||
        old(pools[Position(t)].freeCount) == 0
      ensures c == null ==> unchanged(this) && unchanged(pools)
      ensures forall i :: 0 <= i < |pools| && i != Position(t) ==> unchanged(pools[i])
      ensures c != null ==> Position(t) < MAX_COMPONENT_TYPES && Spawned(c, Position(t), t, gameObject)
    {
      if gameObject == 0 {
        return null;
      }
      var bitPosition := GetBitPosition(t);
      if bitPosition >= MAX_COMPONENT_TYPES as u32 || !typeInfo[bitPosition].registered {
        return null;
      }
      assert SlotValid(typeInfo[bitPosition], bitPosition, pools[bitPosition]);
      if pools[bitPosition].freeCount == 0 {
        return null;
      }
      c := Spawn(bitPosition, t, gameObject);
    }

    /** The allocating half of component_registry_create, on a slot with a free object. */
    method Spawn(b: nat, t: ComponentType, gameObject: nat) returns (c: Component)
      requires Valid() && b < MAX_COMPONENT_TYPES && Position(t) == b && typeInfo[b].registered
      requires pools[b].freeCount > 0 && gameObject != 0
      modifies this`nextComponentId, this`issued, this`counting, pools[b]
      ensures Valid()
      ensures forall i :: 0 <= i < |pools| && i != b ==> unchanged(pools[i])
      ensures Spawned(c, b, t, gameObject)
    {
      var id := TakeId();
      var addr := AllocSlot(b);
      c := Construct(addr, t, typeInfo[b].defaultVTable, gameObject, id);
    }

    /** object_pool_alloc on the pool of a registered slot. */
    method AllocSlot(b: nat) returns (addr: u32)
      requires TableValid() && b < MAX_COMPONENT_TYPES && typeInfo[b].registered
      modifies pools[b]
      ensures TableValid()
      ensures addr == 0 <==> old(pools[b].freeCount) == 0
      ensures addr == 0 ==> unchanged(pools[b])
      ensures addr != 0 ==>
        pools[b].OwnsObject(addr) && AddedSlot(old(pools[b].Allocated()), pools[b].Allocated(), pools[b].ObjectIndex(addr))
    {
      assert SlotValid(typeInfo[b], b, pools[b]);
      addr := pools[b].Alloc();
      assert SlotValid(typeInfo[b], b, pools[b]);
    }

    /**
     * component_init on the slot at `addr`, the id, and the init hook. component_init cannot
     * fail here: the owner is non-NULL, a registered type has a vtable, and a single-bit type
     * is not NONE.
     */
    static method Construct(addr: u32, t: ComponentType, vtable: Option<VTable>, gameObject: nat, id: u32)
      returns (c: Component)
      requires t != NONE && vtable.Some? && gameObject != 0
      ensures fresh(c) && c.address == addr && c.id == id
      ensures c.componentType == t && c.vtable == vtable && c.gameObject == gameObject && c.enabled
      ensures c.events == Fire(true, vtable, InitHook)
    {
      c := new Component(addr);
      var result := Component.Init(c, t, vtable, gameObject);
      assert result == Ok;
      c.id := id;
      c.events := c.events + Fire(true, c.vtable, InitHook);
    }

    /** `nextComponentId++`: the id handed out and the counter after it. */
    method TakeId() returns (id: u32)
      requires IdsValid()
      modifies this`nextComponentId, this`issued, this`counting
      ensures IdsValid()
      ensures id == old(nextComponentId) && nextComponentId == Wrap32(old(nextComponentId) + 1)
      ensures issued == old(issued) + {id}
      ensures old(counting) ==> id != 0 && id !in old(issued)
    {
      id := nextComponentId;
      ghost var wasCounting := counting;
      issued := issued + {nextComponentId};
      nextComponentId := Wrap32(nextComponentId + 1);
      counting := wasCounting && nextComponentId != 0;
    }

    /** What component_registry_destroy reports for a non-NULL component of type `t` at `addr`. */
    function ReleaseOutcome(t: ComponentType, addr: u32): ComponentResult
      reads this, pools
      requires Valid()
    {
      var b := Position(t);
      if b == MAX_COMPONENT_TYPES then InvalidType
      else if !typeInfo[b].registered then NotFound
      else
        assert SlotValid(typeInfo[b], b, pools[b]);
        if pools[b].FreeOutcome(addr) == MemoryPool.Ok then Ok else PoolFull
    }

    /**
     * component_registry_destroy. The destroy hook runs before anything is checked; then the
     * type must name a registered slot whose pool takes the component back.
     */
    method Destroy(c: Component?) returns (r: ComponentResult)
      requires Valid()
      modifies c, pools
      ensures Valid()
      ensures r == NullPointer <==> c == null
      ensures c != null ==> c.events == old(c.events) + Fire(true, old(c.vtable), DestroyHook)
      ensures c != null ==> r == old(ReleaseOutcome(c.componentType, c.address))
      ensures r in {Ok, NullPointer, InvalidType, NotFound, PoolFull}
      ensures r != Ok ==> unchanged(pools)
      ensures r != Ok && c != null ==> c.Fixed(old(c.componentType), old(c.id), old(c.vtable), old(c.gameObject))
      ensures r != Ok && c != null ==> c.enabled == old(c.enabled)
      ensures c != null ==> forall i :: 0 <= i < |pools| && i != Position(old(c.componentType)) ==> unchanged(pools[i])
      ensures r == Ok ==>
        var b := Position(old(c.componentType));
        RemovedSlot(old(pools[b].Allocated()), pools[b].Allocated(), old(pools[b].ObjectIndex(c.address))) &&
        c.Fixed(NONE, 0, None, 0) && !c.enabled
    {
      if c == null {
        return NullPointer;
      }
      // The destroy hook runs first; the log records it once the outcome is known.
      ghost var hook := Fire(true, c.vtable, DestroyHook);
      var bitPosition := GetBitPosition(c.componentType);
      if bitPosition >= MAX_COMPONENT_TYPES as u32 {
        r := InvalidType;
      } else if !typeInfo[bitPosition].registered {
        r := NotFound;
      } else {
        r := Release(bitPosition, c);
      }
      c.events := c.events + hook;
    }

    /** object_pool_free of a component on its registered slot's pool; component_destroy if it went back. */
    method Release(b: nat, c: Component) returns (r: ComponentResult)
      requires Valid() && b < MAX_COMPONENT_TYPES && typeInfo[b].registered
      modifies c, pools[b]
      ensures Valid()
      ensures r == (if old(pools[b].FreeOutcome(c.address)) == MemoryPool.Ok then Ok else PoolFull)
      ensures forall i :: 0 <= i < |pools| && i != b ==> unchanged(pools[i])
      ensures c.events == old(c.events)
      ensures r != Ok ==> unchanged(pools[b]) && c.Fixed(old(c.componentType), old(c.id), old(c.vtable), old(c.gameObject))
      ensures r != Ok ==> c.enabled == old(c.enabled)
      ensures r == Ok ==>
        RemovedSlot(old(pools[b].Allocated()), pools[b].Allocated(), old(pools[b].ObjectIndex(c.address))) &&
        c.Fixed(NONE, 0, None, 0) && !c.enabled
    {
      var poolResult := FreeSlot(b, c.address);
      if poolResult == MemoryPool.Ok {
        Component.Destroy(c);
        return Ok;
      } else {
        return PoolFull;
      }
    }

    /** object_pool_free on the pool of a registered slot. */
    method FreeSlot(b: nat, addr: u32) returns (r: MemoryPool.PoolResult)
      requires TableValid() && b < MAX_COMPONENT_TYPES && typeInfo[b].registered
      modifies pools[b]
      ensures TableValid()
      ensures r == old(pools[b].FreeOutcome(addr))
      ensures r != MemoryPool.Ok ==> unchanged(pools[b])
      ensures r == MemoryPool.Ok ==>
        RemovedSlot(old(pools[b].Allocated()), pools[b].Allocated(), old(pools[b].ObjectIndex(addr)))
    {
      assert SlotValid(typeInfo[b], b, pools[b]);
      r := pools[b].Free(addr);
      assert SlotValid(typeInfo[b], b, pools[b]);
    }

    /** component_registry_get_total_memory_usage: the table plus every registered pool, in uint32_t. */
    method TotalMemoryUsage(registrySize: u32) returns (total: u32)
      requires Valid()
      ensures total == Wrap32(registrySize + PoolsMemory(typeInfo, MAX_COMPONENT_TYPES))
    {
      total := registrySize;
      for i := 0 to MAX_COMPONENT_TYPES
        invariant total == Wrap32(registrySize + PoolsMemory(typeInfo, i))
      {
        total := AccumulatePool(registrySize + PoolsMemory(typeInfo, i), total, typeInfo[i]);
      }
    }
  }
}
