# Playdate engine core, modelled in Dafny

This project models the bookkeeping core of a small C game engine for the Playdate handheld.
It also proves properties of that model. The core has six parts, one Dafny module each:

- `MemoryPool` (memory_pool.dfy) is the slab allocator. An `ObjectPool` hands out
  `capacity` slots of `ALIGN_SIZE(elementSize)` bytes from one aligned block. Free slots
  are kept on an index stack (`freeList`, `freeHead`, `freeCount`), a per-slot state array
  catches double frees, and the pool keeps allocation statistics. Addresses are `uint32_t`
  values, and pointer arithmetic wraps like the counters do. Address 0 is NULL.
- `ComponentBase` (component.dfy) is the component base. It covers validated
  initialisation, the enable/disable transitions, the bit-mask type test and the type-name
  table. Hook calls through the vtable are recorded as a ghost event trace on each
  component.
- `ComponentRegistry` (component_registry.dfy) is the global type table. It maps a
  power-of-two component type to its slot (`get_bit_position`) and registers a type with
  its own object pool. It creates and destroys components through that pool, hands out
  component ids, and counts live components and memory.
- `SpatialGrid` (spatial_grid.dfy) is the uniform grid.
  - Cells are held row-major, and each cell holds a list of entry slots, head first.
  - The entries live in an `ObjectPool`, and an id-indexed table finds them.
  - The module models insertion, removal, moving, `world_to_cell`, the circle query and
    teardown.
  - Positions are mathematical integers.
- `GameObjects` (game_object.dfy) is the game-object arena.
  - Objects are values indexed by handle. Each has a component array of at most four
    entries with its type mask, and a cached transform.
  - The parent / first-child / next-sibling links are an explicit forest. A ghost rank
    grows from parent to child.
  - The id counter `g_nextGameObjectId` is a field of `World`.
- `Scenes` (scene.dfy) is the scene bookkeeping. It covers the object and root lists, the
  transform/sprite/collision batch arrays, the table of component systems, the lifecycle
  state with its callbacks, and the priority passes of `scene_update`. Callback and batch
  calls are recorded as events.

`StdInt` (std_int.dfy) holds the `uint32_t` type `u32` with wrap-around (`Wrap32`), and
recursive multiplication and division (`Mul`, `Div`, `Mod`). These keep products of
variables out of the solver's way. It also holds small counting lemmas.

The central invariants are:

- `ObjectPool.Valid`: `freeList[freeHead..capacity)` lists exactly the free slots, each
  once, and `freeHead + freeCount == capacity`.
- `GridInv`: every live entry is listed once, in the cell its coordinates name. The cell
  counts sum to `totalObjects`, `cellsWithObjects` counts the nonempty cells, and the id
  table points only at live slots.
- `Tree`: the hierarchy is a forest whose parent and child links agree, and ranks grow
  downwards.
- `Registry.Valid`: each registered slot holds its type and a working pool of the
  registered size and capacity.
- `Scene.Valid`: lists within capacity, the roots a sub-multiset of the objects, and batch
  arrays within their capacities.

## Model

| member | source | states |
|---|---|---|
| MemoryPool.AlignSize | src/core/memory_pool.h:8-10 | The aligned size is a multiple of 16. Whenever `size + 15` does not overflow, it is at least `size` and less than `size + 16`. |
| MemoryPool.AlignSizeIdempotent | src/core/memory_pool.h:10 | Aligning twice is aligning once. A size that is already a multiple of 16 comes back unchanged. |
| MemoryPool.BlockSize | src/core/memory_pool.c:13-16 | The `uint32_t` block size `alignedSize * capacity` is the true product whenever that product fits in 32 bits. |
| MemoryPool.InitAcceptsWrappedSizes | src/core/memory_pool.c:13-19 | The C init returns POOL_OK in two cases where it should not. With element size 0xFFFF_FFF1 the aligned size wraps to 0, so slots 0 and 1 share an address. With 16 × 0x1000_0000 the block size wraps to 0. The checked outcome refuses both with InvalidSize. |
| MemoryPool.InitOutcomesDiffer | src/core/memory_pool.c:8-19 | The as-written and the checked init outcomes differ exactly when the aligned size or the block size wraps. A checked Ok is also an as-written Ok. |
| MemoryPool.CheckedInitSeparatesSlots | src/core/memory_pool.c:13-19 | After a checked successful init over a block that fits, every slot's address belongs to the pool and two different slots never share an address. |
| MemoryPool.StackCounts | src/core/memory_pool.c:124-132 | Under the stack invariant, the stacked indices are exactly the free slots. There are `|stack|` free slots and `capacity - |stack|` allocated ones. |
| MemoryPool.AllocatedNotFull | src/core/memory_pool.c:103-117 | A slot whose state reads allocated is not on the stack, so the stack has room for one more push. |
| MemoryPool.PopKeepsInvariant | src/core/memory_pool.c:70-78 | Popping the top index and marking its slot allocated keeps the invariant. The popped slot was free, and the allocated set gains exactly that slot. |
| MemoryPool.PushKeepsInvariant | src/core/memory_pool.c:108-117 | Marking an allocated slot free and pushing its index keeps the invariant. The allocated set loses exactly that slot. |
| MemoryPool.DescendingInvariant | src/core/memory_pool.c:29-39 | The stack built by init (`capacity-1` on top, down to 0) over all-free states satisfies the invariant, with nothing allocated. |
| MemoryPool.OwnedBy | src/core/memory_pool.c:139-148 | An owned address is non-NULL, the element size is nonzero, and the address maps to a slot index below the capacity. |
| MemoryPool.IndexIn | src/core/memory_pool.c:150-157 | NULL maps to UINT32_MAX. The round trip with slot addresses is SlotAddressOwned and OwnedIsSlotAddress. |
| MemoryPool.SlotAddressOwned | src/core/memory_pool.c:70-78 | In a laid-out block, slot `i`'s address is `memory + i * elementSize` and non-NULL. The pool owns it, and get_object_index maps it back to `i`. |
| MemoryPool.OwnedIsSlotAddress | src/core/memory_pool.c:91-105 | Every address the pool owns is the address of the slot get_object_index names. |
| MemoryPool.ObjectPool.UsedCount | src/core/memory_pool.c:124-127 | The used count is the number of allocated slots, and used + free == capacity. |
| MemoryPool.ObjectPool.FreeCount | src/core/memory_pool.c:129-132 | The free count is the number of slots whose state reads free, and free + allocated == capacity. |
| MemoryPool.ObjectPool.OwnsObject | src/core/memory_pool.c:139-148 | An owned address is non-NULL and its index is below the capacity. |
| MemoryPool.ObjectPool.ObjectIndex | src/core/memory_pool.c:150-157 | NULL gives UINT32_MAX. For an address Alloc returned, it is that slot's index (Alloc's contract). |
| MemoryPool.ObjectPool.constructor | src/core/memory_pool.h:22-36 | A zeroed pool is valid and empty. |
| MemoryPool.ObjectPool.Init | src/core/memory_pool.c:6-53 | The result is the checked outcome. On NullPointer or InvalidSize nothing changes. On OutOfMemory only `memory` is set, to NULL. On Ok the pool is valid and empty, the stack is in descending order, the stored size is the aligned size (at least the requested one), `freeCount == capacity`, `freeHead == 0`, and all statistics are 0. |
| MemoryPool.ObjectPool.Setup | src/core/memory_pool.c:36-50 | The field writes of a successful init leave a valid, empty pool in initial order, with zero statistics. |
| MemoryPool.ObjectPool.NewFreeList | src/core/memory_pool.c:37-39 | The fill loop builds the stack with slot `capacity-1-i` at position `i`. |
| MemoryPool.ObjectPool.Destroy | src/core/memory_pool.c:55-62 | Destroy leaves a zeroed, valid pool: no block, no buffers, zero sizes and zero statistics. |
| MemoryPool.ObjectPool.Alloc | src/core/memory_pool.c:64-88 | A pool with no free slot returns NULL and is unchanged. Otherwise alloc returns the address of the slot on top of the stack. That slot was free and is now allocated, and no other slot changes. `freeHead` goes up by one and `freeCount` down by one. `totalAllocations` goes up by one, wrapping. `peakUsage` becomes the maximum of itself and the usage. Right after init, successive calls return slots `capacity-1`, `capacity-2`, and so on. |
| MemoryPool.ObjectPool.PopFree | src/core/memory_pool.c:70-78 | The pop returns the top index, which is below the capacity, and keeps the pool valid. |
| MemoryPool.ObjectPool.Free | src/core/memory_pool.c:90-122 | The result is NULL_POINTER for NULL, INVALID_INDEX for an address the pool does not own, DOUBLE_FREE for a free slot, and Ok otherwise. Every error leaves the pool unchanged. On Ok the slot leaves the allocated set, its index is pushed, `freeCount` goes up by one and `totalDeallocations` goes up by one, wrapping. |
| MemoryPool.ObjectPool.PushFree | src/core/memory_pool.c:108-119 | The push of an allocated slot returns Ok, keeps the pool valid, and leaves the sizes, the name and the allocation statistics alone. |
| ComponentBase.Fire | src/core/component.c:69-91 | A guarded hook call fires the hook exactly when the guard holds and the vtable provides the hook. It fires at most once. |
| ComponentBase.EnableEvents | src/core/component.c:32-44 | onEnabled fires exactly on false→true and onDisabled exactly on true→false, each only if provided. Nothing else fires. |
| ComponentBase.EnableTwice | src/core/component.c:32-44 | Setting the flag again to the value it already has fires nothing more. |
| ComponentBase.TypeName | src/core/component.c:54-66 | The name is "Unknown" exactly for types other than the eight basic ones. |
| ComponentBase.TypeOfName | src/core/component.c:54-66 | A name maps back to a basic type, or to none. |
| ComponentBase.TypeNameRoundTrip | src/core/component.c:54-66 | Each basic type's name maps back to that type, so no two basic types share a name. Other types get a name that maps to none. |
| ComponentBase.MaskHasUnion | src/core/component.c:50-52 | Testing against a union of types is testing against either type. |
| ComponentBase.MaskHasBasic | src/core/component.h:12-24 | For two basic types the mask test is equality. |
| ComponentBase.Component.constructor | src/core/component.c:5-24 | A zeroed component: no type, id 0, no vtable, no owner, disabled, no events. |
| ComponentBase.Component.Init | src/core/component.c:5-24 | NULL_POINTER exactly for a NULL component, vtable or owner. INVALID_TYPE exactly for NONE after those checks. Errors change nothing. On Ok the component is enabled (IsEnabled holds), with id 0 and the given type, vtable and owner. |
| ComponentBase.Component.Destroy | src/core/component.c:26-30 | A non-NULL component is cleared: no type, id 0, no vtable, no owner, disabled. IsEnabled is false afterwards. |
| ComponentBase.Component.SetEnabled | src/core/component.c:32-44 | The flag is stored and exactly the transition events are fired. Type, id, vtable and owner are kept. Afterwards IsEnabled reports the flag that was set, and false for NULL. |
| ComponentBase.Component.IsEnabled | src/core/component.c:46-48 | A component reported enabled is non-NULL, so NULL gives false. It is true after a successful Init, false after Destroy, and equal to the stored flag after SetEnabled (those members' contracts). |
| ComponentBase.Component.IsType | src/core/component.c:50-52 | The test is false for NULL and for NONE. For basic types it is type equality. |
| ComponentBase.Component.CallUpdate | src/core/component.c:69-73 | The update hook fires only on an enabled component whose vtable has it. Nothing else changes. |
| ComponentBase.Component.CallRender | src/core/component.c:75-79 | The render hook fires only on an enabled component whose vtable has it. Nothing else changes. |
| ComponentBase.Component.CallOnEnabled | src/core/component.c:81-85 | The onEnabled hook fires if provided, whatever the flag says. Nothing else changes. |
| ComponentBase.Component.CallOnDisabled | src/core/component.c:87-91 | The onDisabled hook fires if provided, whatever the flag says. Nothing else changes. |
| ComponentRegistry.PowerOfTwoIsOneBit | src/core/component_registry.c:41-45 | The `t & (t-1) == 0` test with `t != 0` accepts exactly the single-bit values. |
| ComponentRegistry.LogOfBits | src/core/component_registry.c:29-46 | The log2 of every single-bit 32-bit value is below 32. It pins Log(1) = 0, Log(0x1_0000) = 16 and Log(0x8000_0000) = 31. |
| ComponentRegistry.LogInjective | src/core/component_registry.c:29-46 | Distinct powers of two have distinct logarithms. |
| ComponentRegistry.Position | src/core/component_registry.c:29-46 | A type's slot is at most MAX_COMPONENT_TYPES. MAX_COMPONENT_TYPES means "no slot". |
| ComponentRegistry.PositionOneBit | src/core/component_registry.c:29-46 | A type has a slot exactly when it is a single bit. |
| ComponentRegistry.PositionInjective | src/core/component_registry.c:29-46 | Two types in the same valid slot are the same type, so registry entries never collide. |
| ComponentRegistry.BasicPositions | src/core/component_registry.c:29-46 | The eight basic types take slots 0-7 in bit order, the first custom type takes slot 16, and NONE has no slot. |
| ComponentRegistry.GetBitPosition | src/core/component_registry.c:29-46 | The shift loop returns the type's slot: log2 for a power of two, 32 for anything else. |
| ComponentRegistry.SlotSize | src/core/component_registry.c:69-70 | The pool element size is 16-aligned. Whenever alignment cannot overflow, it is at least the requested size and at least `sizeof(Component)`. |
| ComponentRegistry.PoolName | src/core/component_registry.c:73-74 | The formatted pool name is a prefix of "ComponentPool_" + the type name, at most 63 characters long. It is the whole string when that fits. Characters stand for bytes (see Left out). |
| ComponentRegistry.RegisterAcceptsWrappedPool | src/core/component_registry.c:68-79 | As written, registering a 64-byte type with capacity 0x400_0000 succeeds: the pool's block size wraps to 0. The checked pool init refuses it. |
| ComponentRegistry.AddPool | src/core/component_registry.c:233-239 | The three wrapping additions for one pool add that pool's share (`size*cap + 4*cap + cap`) to the running total modulo 2^32. |
| ComponentRegistry.AccumulatePool | src/core/component_registry.c:233-239 | One loop step adds a registered entry's pool memory to the total modulo 2^32, and adds nothing for an unregistered entry. |
| ComponentRegistry.Registry.IsTypeRegistered | src/core/component_registry.c:165-172 | A type counts as registered exactly when some registered entry holds it. |
| ComponentRegistry.Registry.ComponentCount | src/core/component_registry.c:184-196 | The count is 0 for an unregistered type. Otherwise it is the number of allocated slots in the type's pool, which never exceeds the pool capacity. |
| ComponentRegistry.Registry.TypeInfoOf | src/core/component_registry.c:174-182 | The entry is returned exactly for a registered type. It is registered, holds that type and has a vtable. |
| ComponentRegistry.Registry.PoolOf | src/core/component_registry.c:198-206 | A pool is returned exactly for a registered type. It is that slot's valid pool, with the registered size and capacity. |
| ComponentRegistry.Registry.constructor | src/core/component_registry.c:7 | The zero-initialised registry: an empty table, no types, the id counter at 0, fresh pools. |
| ComponentRegistry.Registry.Init | src/core/component_registry.c:9-13 | Init empties the table, zeroes the type count and starts the id counter at 1. |
| ComponentRegistry.Registry.Shutdown | src/core/component_registry.c:15-26 | Every registered slot's pool is destroyed, and the table, the count and the id counter are zeroed. |
| ComponentRegistry.Registry.DropAll | src/core/component_registry.c:17-22 | The loop destroys exactly the pools of registered slots and leaves the others unchanged. |
| ComponentRegistry.Registry.DropSlot | src/core/component_registry.c:18-21 | One slot's pool is destroyed and the slot is marked unregistered. |
| ComponentRegistry.Registry.RegisterType | src/core/component_registry.c:48-93 | The errors come in order. NULL_POINTER: no vtable or name. INVALID_TYPE: not a power of two. ALREADY_EXISTS: the slot is taken. POOL_FULL: the checked pool init fails. Errors leave the table and count unchanged, and only the type's own pool can change. On Ok the slot holds the type with `ALIGN_SIZE(max(size, sizeof(Component)))`, the capacity, the vtable and the name, its pool is set up, and the count goes up by one. |
| ComponentRegistry.Registry.Install | src/core/component_registry.c:76-90 | POOL_FULL exactly when the checked pool init fails, with the table unchanged. On Ok the entry is stored and counted. |
| ComponentRegistry.Registry.InitSlot | src/core/component_registry.c:76-79 | Pool init on an unregistered slot gives the checked outcome and touches no other pool. |
| ComponentRegistry.Registry.Enter | src/core/component_registry.c:82-90 | The entry is stored at its slot and `registeredTypeCount` goes up by one. |
| ComponentRegistry.Registry.Create | src/core/component_registry.c:95-131 | NULL exactly for a NULL owner, an invalid or unregistered type, or an exhausted pool, and then nothing changes. Otherwise the component lives in a newly allocated slot of its type's pool. It is initialised with the type's vtable, has the next id, and has had its init hook fired. No other pool changes. |
| ComponentRegistry.Registry.Spawn | src/core/component_registry.c:110-128 | Creation on a slot with a free object spawns the component and leaves the other pools alone. |
| ComponentRegistry.Registry.AllocSlot | src/core/component_registry.c:111-114 | Alloc on a registered slot's pool returns NULL exactly when it is full, and then the pool is unchanged. |
| ComponentRegistry.Registry.Construct | src/core/component_registry.c:116-128 | The new component is enabled and has the given address, id, type, vtable and owner. Exactly the init hook has fired, if provided. |
| ComponentRegistry.Registry.TakeId | src/core/component_registry.c:123 | The id handed out is the counter, and the counter goes up by one, wrapping. Until the counter wraps, ids are nonzero and never handed out twice. |
| ComponentRegistry.Registry.Destroy | src/core/component_registry.c:133-163 | NULL_POINTER exactly for NULL. Otherwise the destroy hook fires first, and the result follows the ladder: INVALID_TYPE, NOT_FOUND, or POOL_FULL when the pool refuses the address. Every error leaves the pools and the component's fields unchanged. On Ok the slot is freed and the component cleared. |
| ComponentRegistry.Registry.Release | src/core/component_registry.c:154-162 | The pool free decides between Ok and POOL_FULL. No other pool changes. |
| ComponentRegistry.Registry.FreeSlot | src/core/component_registry.c:155 | Free on a registered slot's pool gives the pool's free outcome. A refusal leaves the pool unchanged. |
| ComponentRegistry.Registry.TotalMemoryUsage | src/core/component_registry.c:228-242 | The total is `sizeof(registry)` plus `componentSize*cap + 4*cap + cap` for every registered type, modulo 2^32. |
| SpatialGrid.CellIndexBound | src/systems/spatial_grid.h:112-117 | A valid cell's row-major index is below `gridWidth * gridHeight`. |
| SpatialGrid.CellIndexInjective | src/systems/spatial_grid.h:116 | Distinct valid coordinate pairs have distinct cell indices. |
| SpatialGrid.TotalCells | src/systems/spatial_grid.c:36 | The `uint32_t` cell count is the true product whenever the product fits in 32 bits. |
| SpatialGrid.CreateOverrunsCells | src/systems/spatial_grid.c:36-46 | As written, create accepts a 65536 × 65537 grid. The cell count wraps to 65536, so the valid cell (0, 1) has index 65536, outside the allocated array. |
| SpatialGrid.WorldExtent | src/systems/spatial_grid.c:26-27 | The world extent computed in `uint32_t` never exceeds the true product. |
| SpatialGrid.AxisToCell | src/systems/spatial_grid.c:391-411 | An axis position has a cell exactly when `0 <= world - offset < extent`. |
| SpatialGrid.AxisToCellBounds | src/systems/spatial_grid.c:405-408 | The cell found is the one whose span `[c*cellSize, (c+1)*cellSize)` holds the position. |
| SpatialGrid.AxisToCellValid | src/systems/spatial_grid.c:398-408 | A cell found inside the world extent is below the grid size. |
| SpatialGrid.AxisToCellMonotone | src/systems/spatial_grid.c:405-408 | A position between two others has its cell between theirs. |
| SpatialGrid.CountSumUpdate | src/systems/spatial_grid.c:129-137 | Replacing one cell changes the sum of counts by the change in that cell's count. |
| SpatialGrid.NonEmptyCellsUpdate | src/systems/spatial_grid.c:133-135 | Replacing one cell changes the number of nonempty cells by whether that cell was and is nonempty. |
| SpatialGrid.NonEmptyAtMostCount | src/systems/spatial_grid.c:129-137 | There are never more nonempty cells than objects. |
| SpatialGrid.EmptyCellsSums | src/systems/spatial_grid.c:44-46 | All-empty cells sum to zero objects and zero nonempty cells. |
| SpatialGrid.RemoveFirstSplit | src/systems/spatial_grid.c:170-186 | Unlinking an entry at its first position drops exactly that position and keeps the rest in order. |
| SpatialGrid.RemoveFirstElems | src/systems/spatial_grid.c:170-186 | Unlinking from a list without repeats removes exactly that entry and shortens the list by one. |
| SpatialGrid.RemoveFirstAbsent | src/systems/spatial_grid.c:170-186 | Unlinking an absent entry leaves the list as it is. |
| SpatialGrid.LinkCell | src/systems/spatial_grid.c:129-147 | Head insertion puts the slot first and raises the count by one. The cell is marked dirty when the count passes `maxObjects`; a cell that was already dirty stays dirty. |
| SpatialGrid.UnlinkCell | src/systems/spatial_grid.c:170-193 | Unlinking removes the slot's first occurrence and lowers the count by one. |
| SpatialGrid.AddEntry | src/systems/spatial_grid.c:114-148 | Adding links the slot at the head of its entry's cell. That cell count and `totalObjects` go up by one, and `cellsWithObjects` goes up by one when the cell was empty. The id table is written only when the id is below its size. |
| SpatialGrid.RemoveEntry | src/systems/spatial_grid.c:163-199 | Removing unlinks the slot from its cell, keeping the others in order. That cell count and `totalObjects` go down by one, and `cellsWithObjects` goes down by one when the cell empties. The id table entry is cleared. |
| SpatialGrid.EmptyGridInv | src/systems/spatial_grid.c:23-65 | A freshly created grid (empty cells, an empty id table, zero counters) satisfies the grid invariant with nothing live. |
| SpatialGrid.LinkKeepsCounts | src/systems/spatial_grid.c:129-137 | Head insertion of an unlisted slot keeps each cell's count equal to its list length, and keeps the lists free of repeats. |
| SpatialGrid.LinkKeepsLiveListed | src/systems/spatial_grid.c:114-137 | After linking a newly live slot into its cell, every live slot is listed in the cell its entry names. |
| SpatialGrid.LinkKeepsListedLive | src/systems/spatial_grid.c:114-137 | After linking, every listed slot is live. |
| SpatialGrid.UnlinkKeepsCounts | src/systems/spatial_grid.c:170-193 | Unlinking a live slot keeps the counts equal to the list lengths, and the lists free of repeats. |
| SpatialGrid.UnlinkKeepsLiveListed | src/systems/spatial_grid.c:170-199 | After unlinking and freeing a slot, the remaining live slots are still listed. |
| SpatialGrid.UnlinkKeepsListedLive | src/systems/spatial_grid.c:170-199 | After unlinking and freeing a slot, every listed slot is live. |
| SpatialGrid.LookupAddKeepsValid | src/systems/spatial_grid.c:140-143 | Recording a newly live slot under an id keeps the id table pointing only at live slots. |
| SpatialGrid.LookupRemoveKeepsValid | src/systems/spatial_grid.c:195-196 | Clearing an id and freeing its slot keeps the id table valid. |
| SpatialGrid.AddKeepsInv | src/systems/spatial_grid.c:93-151 | Add keeps the grid invariant, with the new slot live. |
| SpatialGrid.TrackedRemovable | src/systems/spatial_grid.c:159-168 | Under the invariant a tracked id's slot is live and can be unlinked from its entry's cell. |
| SpatialGrid.RemoveKeepsInv | src/systems/spatial_grid.c:153-202 | Remove keeps the grid invariant, with the id's slot no longer live. |
| SpatialGrid.MoveRelinks | src/systems/spatial_grid.c:226-243 | A move to another cell lists the slot in the new cell only. The live slots, the id table and `totalObjects` are kept, and so is the invariant. |
| SpatialGrid.AddRemoveRoundTrip | src/systems/spatial_grid.c:93-202 | Adding an untracked object and then removing it restores the id table and both counters. |
| SpatialGrid.NewCells | src/systems/spatial_grid.c:44-46 | The creation loop makes every cell empty, with MAX_OBJECTS_PER_CELL as its limit. |
| SpatialGrid.ListHitsSound | src/systems/spatial_grid.c:318-347 | Every object a list scan reports comes from an entry of that list that passes the query's filters. |
| SpatialGrid.CellsHitsSound | src/systems/spatial_grid.c:312-351 | Every object a scan of cells reports comes from a passing entry listed in one of those cells. |
| SpatialGrid.QueryResultSound | src/systems/spatial_grid.c:312-351 | Every query result is an active entry, passes the static filter, lies within the circle and is listed in a scanned cell. |
| SpatialGrid.ListHitsComplete | src/systems/spatial_grid.c:318-347 | A passing entry among the scanned part of a list is reported. |
| SpatialGrid.CellsHitsComplete | src/systems/spatial_grid.c:312-351 | A passing entry listed in a scanned cell is reported. |
| SpatialGrid.RectHitFound | src/systems/spatial_grid.c:312-351 | A live passing entry whose cell lies in the scanned rectangle is found by the scan. |
| SpatialGrid.BoxHitFound | src/systems/spatial_grid.c:312-351 | A live passing entry whose cell lies in the inclusive box is found by the scan. |
| SpatialGrid.ScanList | src/systems/spatial_grid.c:318-347 | The list loop appends the list's passing objects to the results until the buffer is full. |
| SpatialGrid.ScanEntry | src/systems/spatial_grid.c:327-344 | One entry is appended exactly when it passes the filters and there is room. |
| SpatialGrid.ScanCell | src/systems/spatial_grid.c:314-347 | A cell's list is scanned head first, and its passing objects are appended until the buffer is full. |
| SpatialGrid.ScanRow | src/systems/spatial_grid.c:313-348 | A row's cells are scanned left to right. |
| SpatialGrid.ScanRect | src/systems/spatial_grid.c:312-351 | The rows of the box are scanned top to bottom. The results are the first `maxResults` passing objects in that order. |
| SpatialGrid.ScanBox | src/systems/spatial_grid.c:312-351 | The scan of the box writes the capped scan result into the buffer and keeps the query valid. |
| SpatialGrid.FillResults | src/systems/spatial_grid.c:312-353 | The cell loops run, and `resultCount` records how many results were found. |
| SpatialGrid.ListedFromLive | src/systems/spatial_grid.c:71-90 | Under the invariant, the slots listed from cell `i` on are exactly the live slots whose cell is at least `i`. |
| SpatialGrid.ListedDisjoint | src/systems/spatial_grid.c:71-90 | A cell's slots appear in no later cell, so destroy frees each slot once. |
| SpatialGrid.FreeSlot | src/systems/spatial_grid.c:79-82 | Freeing one listed entry removes exactly that slot from the pool's allocated set. |
| SpatialGrid.FreeList | src/systems/spatial_grid.c:76-84 | The inner destroy loop frees every slot of one cell's list. |
| SpatialGrid.FreeCells | src/systems/spatial_grid.c:74-86 | The outer destroy loop frees every listed slot, which leaves nothing allocated in the entry pool. |
| SpatialGrid.SpatialQuery.constructor | src/systems/spatial_grid.c:258-274 | A valid query with a new result buffer of `maxResults` entries. |
| SpatialGrid.SpatialQuery.Create | src/systems/spatial_grid.c:253-277 | Returns NULL exactly for capacity 0. Otherwise a valid, empty query with that capacity. |
| SpatialGrid.SpatialGrid.GetCell | src/systems/spatial_grid.h:112-117 | There is no cell exactly when `cellX >= gridWidth` or `cellY >= gridHeight`. Otherwise the row-major index, which is in range. |
| SpatialGrid.SpatialGrid.IsValidCell | src/systems/spatial_grid.h:119-121 | A cell is valid exactly when get_cell returns a cell. |
| SpatialGrid.SpatialGrid.WorldToCell | src/systems/spatial_grid.c:391-411 | Fails exactly when the offset position lies outside `[0, worldWidth) × [0, worldHeight)`. Otherwise the cell is the floor division by `cellSize`. |
| SpatialGrid.SpatialGrid.WorldToCellValid | src/systems/spatial_grid.c:391-411 | A cell world_to_cell finds is valid. |
| SpatialGrid.SpatialGrid.WorldToCellBounds | src/systems/spatial_grid.c:405-408 | The cell found holds the position on both axes. |
| SpatialGrid.SpatialGrid.constructor | src/systems/spatial_grid.c:15-33 | The grid holds the given sizes and offset, the world extents in `uint32_t`, and zero statistics. |
| SpatialGrid.SpatialGrid.Create | src/systems/spatial_grid.c:9-68 | Returns NULL exactly for a zero cell size, width, height or maxObjects, a cell count or pool block that overflows `uint32_t`, or a failed pool allocation. Otherwise the grid is valid and empty: every cell is empty, the pool has nothing allocated, every id-table entry is empty, and the counters are 0. |
| SpatialGrid.SpatialGrid.AddObject | src/systems/spatial_grid.c:93-151 | True exactly for an object with a transform, inside the world, while the pool has a free slot. Failure changes nothing. Success allocates a new slot and adds its entry to the head of the position's cell (`AddEntry`). Already-present objects are not rejected. |
| SpatialGrid.SpatialGrid.LinkEntry | src/systems/spatial_grid.c:126-148 | The list insert, the counters and the id-table write of add, for the allocated slot. |
| SpatialGrid.SpatialGrid.RemoveObject | src/systems/spatial_grid.c:153-202 | True exactly for an id below `maxObjects` that the table tracks. Failure changes nothing. Success unlinks exactly that entry (`RemoveEntry`) and returns its slot to the pool. |
| SpatialGrid.SpatialGrid.ReleaseSlot | src/systems/spatial_grid.c:198 | The unlinked slot goes back to the pool. |
| SpatialGrid.SpatialGrid.UpdateObject | src/systems/spatial_grid.c:204-244 | A static object, or one without a transform or with an id beyond the table, changes nothing. The result is true only for a static object. An untracked object is added. A tracked object outside the world is removed. One in the same cell is kept. Otherwise it moves to the new cell, reusing its slot. |
| SpatialGrid.SpatialGrid.MoveObject | src/systems/spatial_grid.c:233-240 | The remove-then-add of a moved object lists its slot in the new cell only and keeps the invariant. |
| SpatialGrid.SpatialGrid.UnlinkEntry | src/systems/spatial_grid.c:170-196 | The list unlink, the counters and the id-table clear of remove. |
| SpatialGrid.SpatialGrid.QueryBox | src/systems/spatial_grid.c:298-307 | There is a box exactly when both corners of the circle's bounding square map to cells. Its bounds are those two cells. |
| SpatialGrid.SpatialGrid.QueryBoxValid | src/systems/spatial_grid.c:298-307 | For a nonnegative radius the box's bounds are ordered and inside the grid. |
| SpatialGrid.SpatialGrid.QueryBoxCovers | src/systems/spatial_grid.c:298-307 | Every position inside the circle lies in a cell of the box. |
| SpatialGrid.SpatialGrid.QueryCircle | src/systems/spatial_grid.c:286-355 | A radius ≤ 0, or a corner outside the world, returns 0 and leaves the results and the query counter alone. Otherwise the results are the first `maxResults` passing objects of the box scan, and `queriesPerFrame` goes up by one. The grid itself is unchanged. |
| SpatialGrid.SpatialGrid.QueryInBox | src/systems/spatial_grid.c:309-353 | The scanning path: bump the query counter and fill the buffer with the capped box scan. |
| SpatialGrid.SpatialGrid.QueryFindsTracked | src/systems/spatial_grid.c:312-351 | Completeness: a tracked object whose entry has its current cell, and that passes the filters, is found by the box scan. |
| SpatialGrid.SpatialGrid.Destroy | src/systems/spatial_grid.c:71-90 | Every listed entry is freed, which frees every allocated slot, and then the pool is destroyed. |
| GameObjects.RemoveFirst | src/core/game_object.c:198-212 | Unlinking from a sibling list drops the first occurrence: the length drops by one if present, the list is unchanged if absent, and every other member stays. |
| GameObjects.RemoveFirstAt | src/core/game_object.c:198-212 | Unlinking at the first index is deleting that position. |
| GameObjects.DescendsRank | src/core/game_object.c:189-195 | An ancestor is in the forest and has a smaller rank. |
| GameObjects.DetachTree | src/core/game_object.c:198-212 | Unlinking a child from its parent keeps a forest. |
| GameObjects.DetachDescends | src/core/game_object.c:198-212 | Unlinking a child does not change what lies below it. |
| GameObjects.ReparentTree | src/core/game_object.c:183-225 | Re-parenting under a node outside the child's subtree keeps a forest, with re-computed ranks. |
| GameObjects.ReparentNode | src/core/game_object.c:198-222 | After a re-parenting, each object's links are consistent. |
| GameObjects.ReparentDown | src/core/game_object.c:198-222 | After a re-parenting, each child list is free of repeats and names objects whose parent is its owner. |
| GameObjects.ReparentUp | src/core/game_object.c:198-222 | After a re-parenting, each object's parent lists it. |
| GameObjects.ReparentRank | src/core/game_object.c:198-222 | After a re-parenting, each object's parent has a smaller rank. |
| GameObjects.RerankMoved | src/core/game_object.c:215-222 | The moved object ranks below its new parent. |
| GameObjects.RerankOther | src/core/game_object.c:215-222 | Every other object keeps a parent of smaller rank. |
| GameObjects.ReparentEffect | src/core/game_object.c:198-222 | The child gets the new parent. The old parent's list loses it, the new parent's list gains it at the head, and nothing else changes. So the child counts change by −1 and +1. |
| GameObjects.ReparentLinks | src/core/game_object.c:198-222 | The same effect, stated for a child listed once by its parent. |
| GameObjects.DescendsTrans | src/core/game_object.c:189-195 | Descent is transitive. |
| GameObjects.DescendsComparable | src/core/game_object.c:189-195 | Two ancestors of one object are ordered by descent. |
| GameObjects.SiblingsDisjoint | src/core/game_object.c:63-68 | The subtrees of two different children are disjoint. |
| GameObjects.ChildOnPath | src/core/game_object.c:63-68 | Every proper descendant lies in the subtree of some child. |
| GameObjects.SubtreeSplit | src/core/game_object.c:59-88 | A subtree is its root together with its children's subtrees. |
| GameObjects.DescendsRestrict | src/core/game_object.c:63-68 | Descent in a sub-forest with the same links agrees with descent in the whole. |
| GameObjects.DestroyChild | src/core/game_object.c:63-68 | Before a child is destroyed, its subtree is intact, disjoint from the ones already removed, and does not contain the parent. |
| GameObjects.DestroyNext | src/core/game_object.c:63-68 | After a child's subtree goes, the removed part grows by exactly that subtree. |
| GameObjects.DestroyFinish | src/core/game_object.c:70-88 | Once the children are gone, unlinking and removing the object removes exactly its subtree and keeps a forest. |
| GameObjects.FinishKeys | src/core/game_object.c:70-88 | The objects left are those outside the destroyed subtree. The parent survives. |
| GameObjects.FinishShape | src/core/game_object.c:70-73 | Unlinking the childless object touches only its parent's list. |
| GameObjects.RemoveLeaf | src/core/game_object.c:84-87 | Removing an unlinked leaf keeps a forest. |
| GameObjects.ReparentIds | src/core/game_object.c:183-225 | Re-parenting keeps every object's id. |
| GameObjects.ReparentBounded | src/core/game_object.c:183-225 | Re-parenting keeps ranks bounded. |
| GameObjects.ReparentValid | src/core/game_object.c:183-225 | Re-parenting under NULL or a node outside the child's subtree keeps the forest, the rank bound and the ids. |
| GameObjects.AddRoot | src/core/game_object.c:19-57 | A new unlinked object joins the forest as a root. |
| GameObjects.AddedMask | src/core/game_object.c:111-117 | After an add, the mask answers for the new type and for everything it answered before, and nothing else. |
| GameObjects.RemovedMask | src/core/game_object.c:137-148 | After a remove, the mask answers for no bit of the type and keeps every disjoint type. |
| GameObjects.FirstMatch | src/core/game_object.c:128-135 | The index is the first component whose type shares a bit with the query, or the length if there is none. |
| GameObjects.FirstMatchAt | src/core/game_object.c:128-135 | A position reached by scanning past non-matches to a match, or to the end, is FirstMatch. |
| GameObjects.NewObjectShape | src/core/game_object.c:19-57 | A new object holds only its transform, in slot 0, has mask TRANSFORM, and finds the transform by lookup. It is active, not static and unlinked, with the given id and scene. |
| GameObjects.LookupAdded | src/core/game_object.c:156-173 | A component added under a type no earlier component matches is what get_component finds. |
| GameObjects.ShiftOut | src/core/game_object.c:137-142 | The shift loop deletes position `i` and keeps the others in order. |
| GameObjects.RelinkSteps | src/core/game_object.c:198-222 | The field writes of set_parent, in the source's order, perform the re-parenting. |
| GameObjects.Relabel | src/core/game_object.c:111-117 | Changing an object's non-link fields keeps the forest. |
| GameObjects.GoneStep | src/core/game_object.c:63-68 | The destroyed list grows by one child's subtree without repeats, and the released components follow the list. |
| GameObjects.GoneKept | src/core/game_object.c:63-68 | Objects still present during the child loop were there before, with the same components. |
| GameObjects.ProgressStep | src/core/game_object.c:63-68 | Destroying one child advances the loop's state. |
| GameObjects.GoneFinish | src/core/game_object.c:70-88 | Appending the object itself completes its subtree, and its components are released last. |
| GameObjects.LeafStep | src/core/game_object.c:70-88 | The facts behind the tail of destroy: unlinked, pruned, and the destroyed list complete. |
| GameObjects.DestroyComponent | src/core/game_object.c:79 | A registry destroy fires the destroy hook and keeps the registry valid. |
| GameObjects.FindMatch | src/core/game_object.c:128-135 | The search loop finds FirstMatch. |
| GameObjects.World.constructor | src/core/game_object.c:8 | No objects yet, and the id counter at 1. |
| GameObjects.World.IsValid | src/core/game_object.c:313-315 | A valid object is non-NULL and its id is not INVALID_ID, so NULL is never valid. Create's contract gives the converse for a new object: it is stored with `objects[h].id != INVALID_ID`, so IsValid holds for it while the id counter has not wrapped. |
| GameObjects.World.HasComponent | src/core/game_object.c:175-177 | The test is `(componentMask & type) != 0`, false for NULL. A reported type is not NONE and the mask is nonempty. AddComponent's contract makes it true for the added type, and for the type that caused COMPONENT_ALREADY_EXISTS. RemoveComponent's contract makes it false for the removed type. |
| GameObjects.World.GetComponentCount | src/core/game_object.c:179-181 | The count never exceeds four. |
| GameObjects.World.Create | src/core/game_object.c:19-57 | NULL exactly for a NULL scene, an exhausted pool or a failed transform. The id counter moves whenever a slot was obtained. On success the new object is stored under its slot, with the next id, which is nonzero and unlike every live object's id while the counter has not wrapped. IsValid then holds for it. |
| GameObjects.World.TakeId | src/core/game_object.c:34 | The id is the counter, and the counter goes up by one, wrapping. Until it wraps, ids are nonzero and fresh. |
| GameObjects.World.AddObject | src/core/game_object.c:27-51 | Storing a new unlinked object keeps the world valid. |
| GameObjects.World.SetObject | src/core/game_object.c:111-117 | Replacing non-link fields keeps the world valid. |
| GameObjects.World.AddComponent | src/core/game_object.c:90-120 | The errors come in order. NULL_OBJECT: a NULL object or component. COMPONENT_ALREADY_EXISTS: the mask has the type, checked before capacity. MAX_COMPONENTS_REACHED: four components already. Errors change nothing. On success the component is appended and its type joins the mask, so HasComponent holds for any type other than NONE. COMPONENT_ALREADY_EXISTS comes exactly when HasComponent already held. |
| GameObjects.World.GetComponent | src/core/game_object.c:156-173 | NULL for a NULL object. The cached transform for TRANSFORM. Otherwise the first matching component, or NULL. |
| GameObjects.World.RemoveComponent | src/core/game_object.c:122-154 | NULL_OBJECT for NULL. INVALID_COMPONENT_TYPE for the transform. COMPONENT_NOT_FOUND when nothing matches. Errors change nothing. On success the first match is destroyed through the registry, later components shift down in order, and the type's bits leave the mask, so HasComponent is false for it. |
| GameObjects.World.DestroyAt | src/core/game_object.c:136-148 | Component `i` is destroyed (its hook fires) and the gap is closed. |
| GameObjects.World.Drop | src/core/game_object.c:137-148 | The object is stored with component `i` gone and the type's bits cleared. |
| GameObjects.World.SetParent | src/core/game_object.c:183-225 | NULL_OBJECT for a NULL child. HIERARCHY_CYCLE exactly when the parent is the child or lies below it, and then nothing changes. Otherwise the child is re-parented and the world stays a forest. |
| GameObjects.World.CycleWalk | src/core/game_object.c:189-195 | The upward walk finds a cycle exactly when the new parent is the child or lies below it. |
| GameObjects.World.UnlinkWalk | src/core/game_object.c:198-212 | The walk along the old parent's sibling list unlinks exactly the child's first occurrence. |
| GameObjects.World.Relink | src/core/game_object.c:214-222 | The re-parented objects are stored with ranks that keep growing downwards. |
| GameObjects.World.Destroy | src/core/game_object.c:59-88 | Nothing for NULL. Otherwise exactly the object's subtree leaves the world, and the object leaves its parent's list. Every other object is unchanged, and detached former children are not touched. The destroyed objects (each once) and their components are returned in the source's order. |
| GameObjects.World.DestroyLeaf | src/core/game_object.c:70-88 | The tail of destroy removes the childless object and completes the destroyed list. |
| GameObjects.World.Orphan | src/core/game_object.c:71-73 | An object with a parent is unlinked from it. One without a parent is left as is. |
| GameObjects.World.DestroyChildren | src/core/game_object.c:62-68 | The child loop removes every child's subtree, in list order. |
| GameObjects.World.DestroyKid | src/core/game_object.c:64-67 | One pass removes one child's subtree. |
| GameObjects.World.RemoveLeafObject | src/core/game_object.c:84-87 | The unlinked object leaves the world. |
| GameObjects.World.GetChildCount | src/core/game_object.c:239-249 | The counting walk returns the length of the child list, and 0 for NULL. |
| Scenes.RootCapacity | src/core/scene.c:40-41 | The root capacity is a quarter of the capacity, but never below 10. |
| Scenes.SceneName | src/core/scene.c:25-26 | The stored name is "UnnamedScene" for NULL, and otherwise the given name cut to 63 characters. Characters stand for bytes (see Left out). |
| Scenes.StateEvents | src/core/scene.c:144-173 | Entering LOADING fires onLoad. Entering ACTIVE fires onActivate unless the old state was PAUSED. Entering PAUSED fires onDeactivate, and entering UNLOADING fires onUnload. Each fires only if set, and at most one fires. |
| Scenes.DeleteFirst | src/core/scene.c:249-276 | The search-and-shift loop reports whether the object was present, and deletes its first occurrence keeping the order. |
| Scenes.RemoveFirstCount | src/core/scene.c:249-276 | Deleting the first occurrence removes exactly one copy from the multiset. |
| Scenes.AddKeepsRoots | src/core/scene.c:203-214 | Appending to both lists keeps the roots a sub-multiset of the objects. |
| Scenes.RemoveBoth | src/core/scene.c:249-276 | Deleting from both lists keeps the roots a sub-multiset of the objects. |
| Scenes.IdIndex | src/core/scene.c:294-298 | The index is the first listed object with the id, or the length if there is none. |
| Scenes.Capped | src/core/scene.c:226-231 | The capped list is the first `cap` entries. |
| Scenes.CappedSnoc | src/core/scene.c:226-231 | One more append against the capacity check keeps the array equal to the capped list. |
| Scenes.CappedTwice | src/core/scene.c:539-550 | Capping twice is capping once. |
| Scenes.Kind | src/core/scene.c:223-234 | The selected components of one type are at most as many as scanned. |
| Scenes.KindSkip | src/core/scene.c:223-234 | Skipping the transform makes no difference for another type. |
| Scenes.Transforms | src/core/scene.c:533-536 | At most one transform per object. |
| Scenes.AllKindPrefix | src/core/scene.c:528-551 | Only the scanned objects count. |
| Scenes.TransformsPrefix | src/core/scene.c:528-536 | Only the scanned objects count for the transforms. |
| Scenes.AddThenRebuild | src/core/scene.c:216-234 | Appending one object's batches, as add does, gives the same arrays as a rebuild over the longer list. |
| Scenes.FillStep | src/core/scene.c:226-231 | One component's effect on a capped array. |
| Scenes.Collect | src/core/scene.c:223-234 | The component loop appends the sprites and collisions, capped at the capacity. |
| Scenes.TransformsNext | src/core/scene.c:533-536 | The rebuilt transform list after one more object. |
| Scenes.AllKindNext | src/core/scene.c:539-550 | The rebuilt capped list after one more object. |
| Scenes.Rebuild | src/core/scene.c:528-551 | The rebuild loop gives one transform per object that has one, and sprites and collisions capped at capacity, all in list order. |
| Scenes.RebuildStep | src/core/scene.c:529-550 | One object of the rebuild: its transform, then its sprites and collisions. |
| Scenes.PassMembers | src/core/scene.c:377-405 | The calls of one pass are those of the enabled systems with that priority that have a batch function and a nonempty batch. |
| Scenes.MakesStep | src/core/scene.c:376-407 | A system calls below `p+1` exactly when it calls below `p` or in pass `p`. |
| Scenes.PassesMembers | src/core/scene.c:376-407 | The calls of the passes below `p` are exactly those of the systems that run below `p`. |
| Scenes.PassesSound | src/core/scene.c:376-407 | Every call comes from a system that runs. |
| Scenes.PassesComplete | src/core/scene.c:376-407 | Every system that runs gets its call. |
| Scenes.PassesBelow | src/core/scene.c:376-407 | Every call is an update call made in a pass below `p`. |
| Scenes.PassShape | src/core/scene.c:377-405 | Every call of a pass is an update call of that pass. |
| Scenes.OrderedJoin | src/core/scene.c:376-407 | Calls of earlier passes followed by those of a later pass stay in pass order. |
| Scenes.PassesOrdered | src/core/scene.c:376-407 | The calls come in priority order: lower numbers update first. |
| Scenes.SystemIndex | src/core/scene.c:322-327 | The index is the first system of the type, or the length if there is none. |
| Scenes.RegisteredFinds | src/core/scene.c:320-339 | After registering, the type's system is at the same place, enabled, with the new batch functions and priority. A new entry is added only for a new type. |
| Scenes.BasicBits | src/core/scene.c:63-71 | The eight basic types are bits 0 to 7. |
| Scenes.ComponentPoolSlot | src/core/scene.c:472-482 | A pool exactly for the single-bit types below bit 8, at that bit. None otherwise. |
| Scenes.Scene.constructor | src/core/scene.c:21-48 | A valid empty scene: the given id and truncated name, the capacity and root capacity, state INACTIVE, no callbacks. |
| Scenes.Scene.Create | src/core/scene.c:11-99 | NULL exactly for capacity 0. Otherwise a fresh valid scene that is INACTIVE and has empty lists, zero counts and `max(cap/4, 10)` root capacity. |
| Scenes.Scene.SetState | src/core/scene.c:136-176 | The state is always stored, and exactly the matching callback fires. |
| Scenes.Scene.AddGameObject | src/core/scene.c:193-242 | NULL_POINTER for NULL. POOL_FULL when full, changing nothing. Otherwise the object is appended, and also appended to the roots if parentless and there is room. Its transform, sprites and collisions join the batch arrays (capped), and the active count follows. |
| Scenes.Scene.Admit | src/core/scene.c:202-239 | The writes of a successful add. |
| Scenes.Scene.Batch | src/core/scene.c:223-234 | The sprite and collision arrays gain the object's components of those types, capped at capacity. |
| Scenes.Scene.Enter | src/core/scene.c:203-220 | The list appends of add. |
| Scenes.Scene.RemoveGameObject | src/core/scene.c:244-287 | NULL_POINTER for NULL. OBJECT_NOT_FOUND for an absent object, changing nothing. Otherwise the first occurrence leaves both lists (the others keep their order), the count drops by one, the batch arrays are rebuilt, and the active count follows. |
| Scenes.Scene.Detach | src/core/scene.c:249-284 | The writes of a successful remove. |
| Scenes.Scene.Unlist | src/core/scene.c:249-276 | Both lists lose the object's first occurrence, and the active count drops when it is active (wrapping). |
| Scenes.Scene.RebuildComponentArrays | src/core/scene.c:521-551 | The batch arrays are exactly the rebuild over the current objects. |
| Scenes.Scene.FindGameObjectById | src/core/scene.c:289-301 | NULL for id 0. Otherwise the first listed object with the id, or NULL. |
| Scenes.Scene.FindSystem | src/core/scene.c:322-327 | The search loop finds SystemIndex. |
| Scenes.Scene.RegisterComponentSystem | src/core/scene.c:308-342 | POOL_FULL exactly when 32 systems exist, even for a known type, and then nothing changes. Otherwise the table is updated as `Registered` says: in place for a known type, appended for a new one, and enabled either way. |
| Scenes.Scene.EnableComponentSystem | src/core/scene.c:344-358 | SYSTEM_NOT_FOUND exactly when no system has the type, and then nothing changes. Otherwise the first such system gets the flag. |
| Scenes.Scene.Update | src/core/scene.c:361-411 | Nothing happens unless the state is ACTIVE. When ACTIVE, the frame counter goes up by exactly one (wrapping), and the batch calls are made in priority order. |
| Scenes.Scene.Dispatch | src/core/scene.c:376-407 | The priority loop makes the calls of passes 0 to 9. |
| Scenes.Scene.DispatchPass | src/core/scene.c:377-406 | One pass makes the calls of the enabled systems with that priority that have a batch function and a nonempty batch. |

## Left out

- Floating point.
  - Positions, the world offset and the query radius are integers, not `float`. Float rounding in `world_to_cell` and in the distance test of the circle query is not modelled.
  - `object_pool_get_usage_percent`, the transform's float position and rotation (`game_object_set_position`, `get_position`, `set_rotation`, `get_rotation`, `translate`), `scene_set_time_scale`, `scene_get_time_scale`, `totalTime` and the `clock()` timing of `scene_update` are left out.
- MemoryPool.ObjectPool.Init:
  - `freeList` and `objectStates` are `seq` fields rather than heap arrays, so their aliasing is not modelled.
  - The `malloc`/`calloc` failures of those two buffers (memory_pool.c:22-34) are not modelled. Only the `aligned_alloc` outcome is a parameter (`block`).
  - `debugName` is kept as a string value, not a pointer.
- ComponentRegistry.PoolName: register_type passes the pool a pointer to its stack buffer `poolName` (component_registry.c:73-77), which dangles after the call returns. The model keeps the name as a string value.
- ComponentRegistry.Registry.Create / Destroy: each created component is a separate Dafny object that carries its slot address. In C the component is the pool slot itself, initialised in place (component_registry.c:110-121). So a stale pointer to a destroyed component that aliases a reused slot is not modelled. In C, destroying such a pointer destroys whichever component now occupies the slot. In the model the stale component reads type NONE and Destroy reports INVALID_TYPE.
- ComponentRegistry.PoolName and Scenes.SceneName: names are assumed to be single-byte text with no NUL. The model cuts at 63 Dafny characters. `snprintf` (component_registry.c:73-74) and `strncpy` (scene.c:25-26) cut at 63 bytes, which can split a multi-byte UTF-8 character, and they stop at the first NUL byte.
- SpatialGrid.SpatialGrid.Create uses the checked pool init (see Findings): an entry-pool block whose size overflows `uint32_t` is refused. As written, spatial_grid.c:48-54 would accept such a pool whenever `aligned_alloc` succeeds.
- ComponentRegistry.Registry.RegisterType uses the checked pool init (see Findings). `component_registry_print_stats` only prints, so it is left out.
- Allocation failures in the grid and the scene are not modelled: the `calloc` calls in spatial_grid.c:36-41 and 60-65, `malloc` in spatial_query_create, and the array mallocs of scene_create (scene.c:16-19, 32-47).
- SpatialGrid.SpatialGrid.QueryCircle: the objects' current activity and position come from a `world` map. This stands in for `game_object_is_active` and the transform read.
- SpatialGrid.SpatialGrid.Destroy: freeing the cell array, the lookup table and the grid itself is memory management and is not modelled. `spatial_query_destroy` (spatial_grid.c:279-284) only frees memory and is not modelled.
- Stubs and statistics in spatial_grid.c are not modelled. They are `spatial_grid_mark_static`, `spatial_grid_query_rectangle`, `spatial_grid_query_line`, `spatial_grid_get_cell_bounds`, `spatial_grid_cell_to_world`, `spatial_grid_print_stats`, `spatial_grid_reset_frame_stats` and `spatial_grid_get_memory_usage` (lines 246-250 and 357-433).
- GameObjects.World.Destroy: the calls that game_object_destroy makes to the registry, the scene and the object pool (game_object.c:76-87) are not made. The destroyed objects and their components are returned as `gone` and `released`, in call order, so no destroy hook fires.
- GameObjects.World.Create: the object-pool slot and the transform come in as parameters. The `object_pool_free` of the slot on a failed transform (game_object.c:43-46), and the `scene_add_game_object` call (game_object.c:54), are not part of this method. The scene side is Scenes.Scene.AddGameObject.
- The plain field accessors of game_object.c are not modelled as members, because each reads or writes one field of a GameObject value. They are `game_object_get_parent`, `get_first_child`, `get_next_sibling`, `set_active`, `is_active`, `set_static`, `is_static`, `get_id` and `get_scene`. `game_object_create` is create_with_name with no name, and the name is unused.
- Scenes.Scene.Create: `g_nextSceneId` is not modelled (scene.c:24). The scene's id is a parameter. The game-object pool and the component pools that scene_create sets up (scene.c:50-91) are not modelled either.
- `scene_destroy` and its mutual recursion with game_object_destroy (scene.c:101-134) are not modelled.
- The following scene functions are not modelled:
  - `scene_get_state`, `scene_get_game_object_count` and `scene_get_gameobject_pool` (scene.c:178-180, 303-305, 468-470) are trivial accessors. Each returns one field or a field's address.
  - `scene_render` (scene.c:420-452) is a render pass outside the core. It gates renderBatch calls on the ACTIVE state, the way the modelled `scene_update` gates updates.
  - `scene_get_memory_usage` (scene.c:506-518) is a `uint32_t` size estimate built from `sizeof` values.
  - `scene_fixed_update` (scene.c:413-418) only calls `scene_update` when the scene is ACTIVE, a state that `scene_update` checks again.
  - `scene_update_transforms`, `scene_update_sprites` and `scene_render_sprites` (scene.c:455-465) have empty bodies.
  - `scene_print_stats` only prints.
- Vtable hooks, scene callbacks and batch functions are outside the model. Each call is recorded as an event on a ghost trace, and the effects of the called code are not modelled.
- A NULL `Scene*`, `ObjectPool*`, `SpatialGrid*` or registry cannot be expressed, because those are Dafny objects. The NULL-argument error paths are modelled only where the NULL argument is a game object, a component or an address.
- memory_debug.c, component_factory.c, scene_manager.c and update_systems.c are not part of this model.

## Findings

| source | as written | input that shows it | evidently intended | confidence | as-written member | corrected member |
|---|---|---|---|---|---|---|
| src/core/memory_pool.c:13-19 | `ALIGN_SIZE(elementSize)` and `alignedSize * capacity` are computed in `uint32_t` and never checked, so a wrapped size of 0 reaches `aligned_alloc` and init returns POOL_OK | elementSize 0xFFFF_FFF1, capacity 2 (aligned size 0, so both slots have one address); or elementSize 16, capacity 0x1000_0000 (block size 0) | refuse sizes whose aligned size or block size overflows (POOL_ERROR_INVALID_SIZE exists for this), so that slots are distinct and inside the block | not executed | MemoryPool.InitAcceptsWrappedSizes | MemoryPool.CheckedInitSeparatesSlots |
| src/systems/spatial_grid.c:36-46 | `totalCells = gridWidth * gridHeight` wraps in `uint32_t`, and the cells array is that size, but cells are indexed `cellY * gridWidth + cellX` | gridWidth 65536, gridHeight 65537: 65536 cells allocated, yet cell (0, 1) has index 65536 | refuse a grid whose cell count overflows, so every valid cell index is inside the array | not executed | SpatialGrid.CreateOverrunsCells | SpatialGrid.SpatialGrid.Create |
| src/core/component_registry.c:68-79 | register_type passes `poolCapacity` and the aligned size to object_pool_init unchecked, so a wrapping pool is registered with OK | componentSize 64, poolCapacity 0x400_0000 (block size wraps to 0) | report the failed pool (COMPONENT_ERROR_POOL_FULL) | not executed | ComponentRegistry.RegisterAcceptsWrappedPool | ComponentRegistry.Registry.RegisterType |
